/** Character-level string operations shared by the naming helpers and the path
    logic: ASCII case mapping, substring search, `str.replace`, `str.split` and
    `str.join` with a one-character separator. */
module Text {

  predicate IsDigit(c: char) { '0' <= c <= '9' }
  predicate IsLowerAscii(c: char) { 'a' <= c <= 'z' }
  predicate IsUpperAscii(c: char) { 'A' <= c <= 'Z' }

  function LowerChar(c: char): char {
    if IsUpperAscii(c) then (c as int + 32) as char else c
  }

  function UpperChar(c: char): char {
    if IsLowerAscii(c) then (c as int - 32) as char else c
  }

  /** `s.lower()` on ASCII letters; every other character is kept. */
  function Lower(s: string): string {
    seq(|s|, i requires 0 <= i < |s| => LowerChar(s[i]))
  }

  /** `s.upper()` on ASCII letters; every other character is kept. */
  function Upper(s: string): string {
    seq(|s|, i requires 0 <= i < |s| => UpperChar(s[i]))
  }

  predicate EndsWith(s: string, suffix: string) {
    |suffix| <= |s| && s[|s| - |suffix|..] == suffix
  }

  /** `p in s` for strings: p occurs in s as a contiguous substring. */
  predicate Contains(s: string, p: string)
    decreases |s|
  {
    p <= s || (s != [] && Contains(s[1..], p))
  }

  /** `s.replace(pat, rep)`: every leftmost non-overlapping occurrence of pat,
      scanning left to right, is replaced by rep. */
  function ReplaceAll(s: string, pat: string, rep: string): string
    requires pat != []
    decreases |s|
  {
    if |s| < |pat| then s
    else if pat <= s then rep + ReplaceAll(s[|pat|..], pat, rep)
    else [s[0]] + ReplaceAll(s[1..], pat, rep)
  }

  /** Number of occurrences of c in s. */
  function Count(s: string, c: char): nat
    decreases |s|
  {
    if s == [] then 0 else (if s[0] == c then 1 else 0) + Count(s[1..], c)
  }

  /** `s.split(c)`: one more part than there are separators, none of them
      containing the separator. */
  function Split(s: string, c: char): (parts: seq<string>)
    ensures |parts| == Count(s, c) + 1
    ensures forall i :: 0 <= i < |parts| ==> c !in parts[i]
    decreases |s|
  {
    if s == [] then [""]
    else
      var rest := Split(s[1..], c);
      if s[0] == c then [""] + rest else [[s[0]] + rest[0]] + rest[1..]
  }

  /** `c.join(parts)`. */
  function Join(parts: seq<string>, c: char): string
    requires |parts| >= 1
    decreases |parts|
  {
    if |parts| == 1 then parts[0] else parts[0] + [c] + Join(parts[1..], c)
  }

  lemma {:induction false} JoinConsHead(x: char, parts: seq<string>, c: char)
    requires |parts| >= 1
    ensures Join([[x] + parts[0]] + parts[1..], c) == [x] + Join(parts, c)
  {
    var extended := [[x] + parts[0]] + parts[1..];
    if |parts| > 1 {
      assert extended[1..] == parts[1..];
    }
  }

  /** Splitting and joining on the same separator gives back the string. */
  lemma {:induction false} JoinSplit(s: string, c: char)
    ensures Join(Split(s, c), c) == s
    decreases |s|
  {
    if s != [] {
      var rest := Split(s[1..], c);
      JoinSplit(s[1..], c);
      if s[0] == c {
        assert ([""] + rest)[1..] == rest;
      } else {
        JoinConsHead(s[0], rest, c);
      }
    }
  }

  lemma {:induction false} SplitWithoutSeparator(s: string, c: char)
    requires c !in s
    ensures Split(s, c) == [s]
    decreases |s|
  {
    if s != [] {
      SplitWithoutSeparator(s[1..], c);
      assert [s[0]] + s[1..] == s;
    }
  }

  /** A separator followed by a separator-free tail adds exactly that tail as
      the last part. */
  lemma {:induction false} SplitAppend(a: string, b: string, c: char)
    requires c !in b
    ensures Split(a + [c] + b, c) == Split(a, c) + [b]
    decreases |a|
  {
    var s := a + [c] + b;
    if a == [] {
      assert s[1..] == b;
      SplitWithoutSeparator(b, c);
    } else {
      assert s[1..] == a[1..] + [c] + b;
      SplitAppend(a[1..], b, c);
    }
  }

  /** `c.join(s.split(c)[:k])`. */
  function FirstParts(s: string, c: char, k: nat): string
    requires k >= 1
  {
    var parts := Split(s, c);
    Join(if |parts| <= k then parts else parts[..k], c)
  }

  /** Joining the first k parts of a split gives a prefix of the string that
      holds min(k - 1, Count) separators, stops right before the k-th
      separator, and is the whole string when there are fewer than k parts. */
  lemma {:induction false} JoinFirstParts(s: string, c: char, k: nat)
    requires k >= 1
    ensures var p := FirstParts(s, c, k);
            && p <= s
            && Count(p, c) == (if Count(s, c) < k then Count(s, c) else k - 1)
            && (Count(s, c) < k ==> p == s)
            && (Count(s, c) >= k ==> |p| < |s| && s[|p|] == c)
    decreases |s|
  {
    if Count(s, c) < k {
      JoinSplit(s, c);
    } else if s[0] == c {
      CutAfterLeadingSeparator(s, c, k);
    } else {
      CutAfterLeadingChar(s, c, k);
    }
  }

  lemma {:induction false} CutAfterLeadingSeparator(s: string, c: char, k: nat)
    requires k >= 1 && Count(s, c) >= k && s[0] == c
    ensures var p := FirstParts(s, c, k);
            && p <= s
            && Count(p, c) == k - 1
            && |p| < |s| && s[|p|] == c
    decreases |s|, 0
  {
    var parts := Split(s, c);
    var rest := Split(s[1..], c);
    assert parts == [""] + rest;
    if k > 1 {
      var kept := rest[..k - 1];
      JoinFirstParts(s[1..], c, k - 1);
      assert FirstParts(s[1..], c, k - 1) == Join(kept, c);
      assert parts[..k] == [""] + kept;
      assert ([""] + kept)[1..] == kept;
      assert FirstParts(s, c, k) == [c] + Join(kept, c);
      assert s == [c] + s[1..];
    }
  }

  lemma {:induction false} CutAfterLeadingChar(s: string, c: char, k: nat)
    requires k >= 1 && Count(s, c) >= k && s[0] != c
    ensures var p := FirstParts(s, c, k);
            && p <= s
            && Count(p, c) == k - 1
            && |p| < |s| && s[|p|] == c
    decreases |s|, 0
  {
    var parts := Split(s, c);
    var rest := Split(s[1..], c);
    var kept := rest[..k];
    JoinFirstParts(s[1..], c, k);
    assert FirstParts(s[1..], c, k) == Join(kept, c);
    assert parts[..k] == [[s[0]] + kept[0]] + kept[1..];
    JoinConsHead(s[0], kept, c);
    assert s == [s[0]] + s[1..];
  }

  /** Regrouping a concatenation of four strings. */
  lemma AppendAssoc(a: string, b: string, c: string, d: string)
    ensures a + b + c + d == a + (b + c + d)
  {
  }
}
