/** `normalize` of helper_v3.py: lower-case the text, delete the vendor names,
    document codes and version tags, turn every run of other characters into a
    single '-', and strip '-' from both ends. */
module Slug {
  import opened Text

  /** The two patterns deleted before slugifying: Vendor is
      `(ntt data(,| inc\.?)?)|cs-[a-z]{2}-\d+` and Version is `v\d+\.\d+`. */
  datatype Pattern = Vendor | Version

  /** Length of the leading run of decimal digits. */
  function DigitRun(s: string): (n: nat)
    ensures n <= |s|
    ensures forall i :: 0 <= i < n ==> IsDigit(s[i])
    ensures n < |s| ==> !IsDigit(s[n])
    decreases |s|
  {
    if s != [] && IsDigit(s[0]) then 1 + DigitRun(s[1..]) else 0
  }

  /** The optional group `(,| inc\.?)?` after "ntt data": greedy, alternatives
      tried left to right. */
  function VendorSuffix(t: string): nat {
    if "," <= t then 1
    else if " inc." <= t then 5
    else if " inc" <= t then 4
    else 0
  }

  /** Length of the match of the pattern starting at the first character of s,
      0 when the pattern does not match there (neither pattern matches the
      empty string). */
  function MatchLen(p: Pattern, s: string): (n: nat)
    ensures n <= |s|
  {
    match p
    case Vendor =>
      if "ntt data" <= s then
        8 + VendorSuffix(s[8..])
      else if |s| >= 7 && "cs-" <= s && IsLowerAscii(s[3]) && IsLowerAscii(s[4])
              && s[5] == '-' && IsDigit(s[6]) then
        6 + DigitRun(s[6..])
      else 0
    case Version =>
      if |s| >= 4 && s[0] == 'v' && IsDigit(s[1]) then
        var whole := DigitRun(s[1..]);
        if 1 + whole < |s| && s[1 + whole] == '.' && DigitRun(s[2 + whole..]) > 0 then
          2 + whole + DigitRun(s[2 + whole..])
        else 0
      else 0
  }

  /** `re.sub(pattern, "", s)`: every leftmost non-overlapping match is deleted,
      scanning left to right. */
  function Erase(p: Pattern, s: string): string
    decreases |s|
  {
    if s == [] then []
    else if MatchLen(p, s) > 0 then Erase(p, s[MatchLen(p, s)..])
    else [s[0]] + Erase(p, s[1..])
  }

  predicate IsSlugChar(c: char) { IsLowerAscii(c) || IsDigit(c) }

  /** Drops the leading run of characters outside [a-z0-9]. */
  function SkipRun(s: string): (r: string)
    ensures |r| <= |s| && r == s[|s| - |r|..]
    ensures r == [] || IsSlugChar(r[0])
    ensures s != [] && !IsSlugChar(s[0]) ==> |r| < |s|
    decreases |s|
  {
    if s != [] && !IsSlugChar(s[0]) then SkipRun(s[1..]) else s
  }

  /** `re.sub(r"[^a-z0-9]+", "-", s)`. */
  function Slugify(s: string): string
    decreases |s|
  {
    if s == [] then []
    else if IsSlugChar(s[0]) then [s[0]] + Slugify(s[1..])
    else "-" + Slugify(SkipRun(s))
  }

  function TrimStart(s: string): (r: string)
    ensures |r| <= |s| && r == s[|s| - |r|..]
    ensures r == [] || r[0] != '-'
    decreases |s|
  {
    if s != [] && s[0] == '-' then TrimStart(s[1..]) else s
  }

  function TrimEnd(s: string): (r: string)
    ensures |r| <= |s| && r == s[..|r|]
    ensures r == [] || r[|r| - 1] != '-'
    decreases |s|
  {
    if s != [] && s[|s| - 1] == '-' then TrimEnd(s[..|s| - 1]) else s
  }

  /** `s.strip("-")`. */
  function StripDashes(s: string): string {
    TrimEnd(TrimStart(s))
  }

  predicate SlugAlphabet(s: string) {
    forall i :: 0 <= i < |s| ==> IsSlugChar(s[i]) || s[i] == '-'
  }

  predicate NoDoubleDash(s: string) {
    forall i :: 0 <= i < |s| - 1 ==> s[i] != '-' || s[i + 1] != '-'
  }

  /** What `normalize` promises: only a-z, 0-9 and '-', never "--", and no '-'
      at either end. */
  predicate IsSlug(s: string) {
    && SlugAlphabet(s)
    && NoDoubleDash(s)
    && (s != [] ==> s[0] != '-' && s[|s| - 1] != '-')
  }

  /** `normalize(text)`. */
  function Normalize(text: string): (slug: string)
    ensures IsSlug(slug)
  {
    var cleaned := Erase(Version, Erase(Vendor, Lower(text)));
    SlugifyShape(cleaned);
    StripKeepsShape(Slugify(cleaned));
    StripDashes(Slugify(cleaned))
  }

  /** The substitution `[^a-z0-9]+ -> -` leaves only slug characters and
      single dashes, and its result starts with '-' only when the input starts
      with a character outside [a-z0-9]. */
  lemma {:induction false} SlugifyShape(s: string)
    ensures var r := Slugify(s);
            && SlugAlphabet(r)
            && NoDoubleDash(r)
            && (r != [] && r[0] == '-' ==> !IsSlugChar(s[0]))
    decreases |s|
  {
    if s != [] {
      if IsSlugChar(s[0]) {
        SlugifyShape(s[1..]);
        ConsKeepsShape(s[0], Slugify(s[1..]));
      } else {
        var t := SkipRun(s);
        SlugifyShape(t);
        DashKeepsShape(Slugify(t));
      }
    }
  }

  /** A slug character in front keeps the shape. */
  lemma ConsKeepsShape(x: char, t: string)
    requires IsSlugChar(x) && SlugAlphabet(t) && NoDoubleDash(t)
    ensures SlugAlphabet([x] + t) && NoDoubleDash([x] + t)
  {
    var u := [x] + t;
    assert forall i :: 1 <= i < |u| ==> u[i] == t[i - 1];
  }

  /** A '-' in front of a string that does not start with '-' keeps the
      shape. */
  lemma DashKeepsShape(t: string)
    requires SlugAlphabet(t) && NoDoubleDash(t) && (t == [] || t[0] != '-')
    ensures SlugAlphabet("-" + t) && NoDoubleDash("-" + t)
  {
    var u := "-" + t;
    assert forall i :: 1 <= i < |u| ==> u[i] == t[i - 1];
  }

  /** Stripping '-' from both ends of a string of slug characters and single
      dashes yields a slug. */
  lemma StripKeepsShape(s: string)
    requires SlugAlphabet(s) && NoDoubleDash(s)
    ensures IsSlug(StripDashes(s))
  {
    var t := TrimStart(s);
    var u := TrimEnd(t);
    SuffixKeepsShape(s, |s| - |t|);
    PrefixKeepsShape(t, |u|);
    if u != [] {
      assert u[0] == t[0];
    }
  }

  lemma SuffixKeepsShape(s: string, lo: nat)
    requires lo <= |s|
    requires SlugAlphabet(s) && NoDoubleDash(s)
    ensures SlugAlphabet(s[lo..]) && NoDoubleDash(s[lo..])
  {
    var t := s[lo..];
    forall i | 0 <= i < |t| ensures IsSlugChar(t[i]) || t[i] == '-' {
      assert t[i] == s[lo + i];
    }
    forall i | 0 <= i < |t| - 1 ensures t[i] != '-' || t[i + 1] != '-' {
      assert t[i] == s[lo + i] && t[i + 1] == s[lo + i + 1];
    }
  }

  lemma PrefixKeepsShape(s: string, hi: nat)
    requires hi <= |s|
    requires SlugAlphabet(s) && NoDoubleDash(s)
    ensures SlugAlphabet(s[..hi]) && NoDoubleDash(s[..hi])
  {
    var t := s[..hi];
    forall i | 0 <= i < |t| ensures IsSlugChar(t[i]) || t[i] == '-' {
      assert t[i] == s[i];
    }
    forall i | 0 <= i < |t| - 1 ensures t[i] != '-' || t[i + 1] != '-' {
      assert t[i] == s[i] && t[i + 1] == s[i + 1];
    }
  }

  lemma LowerKeepsSlugAlphabet(s: string)
    requires SlugAlphabet(s)
    ensures Lower(s) == s
  {
  }

  lemma {:induction false} EraseWithoutMatch(p: Pattern, s: string)
    requires forall i :: 0 <= i <= |s| ==> MatchLen(p, s[i..]) == 0
    ensures Erase(p, s) == s
    decreases |s|
  {
    if s != [] {
      assert MatchLen(p, s[0..]) == 0;
      assert s[0..] == s;
      forall i | 0 <= i <= |s[1..]|
        ensures MatchLen(p, s[1..][i..]) == 0
      {
        assert s[1..][i..] == s[i + 1..];
      }
      EraseWithoutMatch(p, s[1..]);
    }
  }

  lemma {:induction false} SlugifyKeepsSingleDashes(s: string)
    requires SlugAlphabet(s) && NoDoubleDash(s)
    ensures Slugify(s) == s
    decreases |s|
  {
    if s != [] {
      SuffixKeepsShape(s, 1);
      SlugifyKeepsSingleDashes(s[1..]);
      if IsSlugChar(s[0]) {
        SlugifyCons(s[0], s[1..]);
      } else if |s| == 1 {
        assert SkipRun(s) == [];
      } else {
        assert s[0] == '-' && IsSlugChar(s[1]);
        SlugifyBreak(s[0], s[1..]);
      }
      assert s == [s[0]] + s[1..];
    }
  }

  /** A string that already is a slug and holds no vendor name, document code
      or version tag is left unchanged by `normalize`. */
  lemma NormalizeKeepsCleanSlug(s: string)
    requires IsSlug(s)
    requires forall i :: 0 <= i <= |s| ==> MatchLen(Vendor, s[i..]) == 0
    requires forall i :: 0 <= i <= |s| ==> MatchLen(Version, s[i..]) == 0
    ensures Normalize(s) == s
  {
    LowerKeepsSlugAlphabet(s);
    EraseWithoutMatch(Vendor, s);
    EraseWithoutMatch(Version, s);
    SlugifyKeepsSingleDashes(s);
  }

  /** `normalize` is not idempotent: slugifying can assemble a document code
      that the second application then deletes. */
  lemma NormalizeIsNotIdempotent()
    ensures Normalize("cs ab 1") == "cs-ab-1"
    ensures Normalize("cs-ab-1") == ""
  {
    NormalizeSpaced();
    NormalizeDashed();
  }

  lemma LowerWithoutCapitals(s: string)
    requires forall i :: 0 <= i < |s| ==> !IsUpperAscii(s[i])
    ensures Lower(s) == s
  {
  }

  lemma NormalizeSpaced()
    ensures Normalize("cs ab 1") == "cs-ab-1"
  {
    CleanSpaced();
    SlugifySpaced();
    StripWithoutEdgeDashes("cs-ab-1");
  }

  /** A string that neither starts nor ends with '-' is its own strip. */
  lemma StripWithoutEdgeDashes(s: string)
    requires s != [] && s[0] != '-' && s[|s| - 1] != '-'
    ensures StripDashes(s) == s
  {
  }

  /** "cs ab 1" holds no capital, vendor name, code or version tag. */
  lemma CleanSpaced()
    ensures Erase(Version, Erase(Vendor, Lower("cs ab 1"))) == "cs ab 1"
  {
    var s := "cs ab 1";
    LowerWithoutCapitals(s);
    SpacedHasNoMatch(Vendor);
    SpacedHasNoMatch(Version);
    EraseWithoutMatch(Vendor, s);
    EraseWithoutMatch(Version, s);
  }

  lemma SpacedHasNoMatch(p: Pattern)
    ensures forall i :: 0 <= i <= |"cs ab 1"| ==> MatchLen(p, "cs ab 1"[i..]) == 0
  {
    var s := "cs ab 1";
    forall i | 0 <= i <= |s| ensures MatchLen(p, s[i..]) == 0 {
      if i == 0 {
        assert s[2] == ' ';
      } else if i < |s| {
        assert s[i..][0] == s[i];
      }
    }
  }

  lemma SlugifySpaced()
    ensures Slugify("cs ab 1") == "cs-ab-1"
  {
    var w1, w2, w3 := "cs", "ab", "1";
    SlugifyWordBreak(w2, ' ', w3);
    SlugifyKeepsSingleDashes(w3);
    SlugifyWordBreak(w1, ' ', w2 + [' '] + w3);
    SpacedWords();
    DashedWords();
  }

  lemma SpacedWords()
    ensures "cs" + [' '] + ("ab" + [' '] + "1") == "cs ab 1"
  {
    assert "ab" + [' '] + "1" == "ab 1";
  }

  lemma DashedWords()
    ensures "cs" + "-" + ("ab" + "-" + "1") == "cs-ab-1"
  {
    assert "ab" + "-" + "1" == "ab-1";
  }

  /** A word of slug characters, one separator character, then a slug
      character: the separator becomes '-'. */
  lemma {:induction false} SlugifyWordBreak(word: string, c: char, rest: string)
    requires IsWord(word)
    requires !IsSlugChar(c) && rest != [] && IsSlugChar(rest[0])
    ensures Slugify(word + [c] + rest) == word + "-" + Slugify(rest)
    decreases |word|
  {
    if word == [] {
      EmptyPrefix(word, [c], rest);
      EmptyPrefix(word, "-", Slugify(rest));
      SlugifyBreak(c, rest);
    } else {
      SlugifyWordBreak(word[1..], c, rest);
      SlugifyWordStep(word, [c], rest, "-", Slugify(rest));
    }
  }

  lemma EmptyPrefix(word: string, x: string, y: string)
    requires word == []
    ensures word + x + y == x + y
  {
  }

  /** One more slug character in front of the word. */
  lemma SlugifyWordStep(word: string, sep: string, rest: string, dash: string, r: string)
    requires word != [] && IsSlugChar(word[0])
    requires Slugify(word[1..] + sep + rest) == word[1..] + dash + r
    ensures Slugify(word + sep + rest) == word + dash + r
  {
    ConsRegroup(word, sep, rest);
    SlugifyCons(word[0], word[1..] + sep + rest);
    ConsRegroup(word, dash, r);
  }

  /** Splitting off the first character of a non-empty word. */
  lemma ConsRegroup(word: string, sep: string, rest: string)
    requires word != []
    ensures word + sep + rest == [word[0]] + (word[1..] + sep + rest)
  {
    assert word == [word[0]] + word[1..];
    AppendAssoc([word[0]], word[1..], sep, rest);
  }

  /** Every character is in [a-z0-9]. */
  predicate IsWord(w: string)
    decreases |w|
  {
    w == [] || (IsSlugChar(w[0]) && IsWord(w[1..]))
  }

  /** A slug character is kept as it is. */
  lemma SlugifyCons(x: char, t: string)
    requires IsSlugChar(x)
    ensures Slugify([x] + t) == [x] + Slugify(t)
  {
    assert ([x] + t)[1..] == t;
  }

  /** A single separator character before a slug character becomes '-'. */
  lemma SlugifyBreak(c: char, rest: string)
    requires !IsSlugChar(c) && rest != [] && IsSlugChar(rest[0])
    ensures Slugify([c] + rest) == "-" + Slugify(rest)
  {
    var s := [c] + rest;
    assert s[1..] == rest;
    assert SkipRun(s) == rest;
  }

  lemma NormalizeDashed()
    ensures Normalize("cs-ab-1") == ""
  {
    var s := "cs-ab-1";
    LowerWithoutCapitals(s);
    assert MatchLen(Vendor, s) == 7;
  }
}
