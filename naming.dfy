/** `classify_doc` and `generate_doc_id` of helper_v3.py: the document class
    chosen by keyword priority, and the corporate-handbook ID built from the
    first six tokens of the normalized name. */
module Naming {
  import opened Text
  import opened Slug

  /** One step of the classifier: any of the keywords selects the class. */
  datatype Rule = Rule(keywords: seq<string>, docClass: string)

  /** The keyword table in priority order. */
  const Rules: seq<Rule> := [
    Rule(["policy"], "policy"),
    Rule(["standard"], "standard"),
    Rule(["procedure", "plan"], "procedure"),
    Rule(["framework"], "framework"),
    Rule(["whitepaper"], "whitepaper"),
    Rule(["infographic"], "infographic")
  ]

  const DefaultLabel: string := "document"

  predicate Matches(n: string, rule: Rule) {
    exists k :: 0 <= k < |rule.keywords| && Contains(n, rule.keywords[k])
  }

  /** The class of the first rule that matches, scanning from rule i. */
  function FirstMatch(n: string, i: nat): (docClass: string)
    requires i <= |Rules|
    decreases |Rules| - i
  {
    if i == |Rules| then DefaultLabel
    else if Matches(n, Rules[i]) then Rules[i].docClass
    else FirstMatch(n, i + 1)
  }

  /** `classify_doc(name)`. */
  function ClassifyDoc(name: string): (docClass: string) {
    var n := Lower(name);
    if Contains(n, "policy") then "policy"
    else if Contains(n, "standard") then "standard"
    else if Contains(n, "procedure") || Contains(n, "plan") then "procedure"
    else if Contains(n, "framework") then "framework"
    else if Contains(n, "whitepaper") then "whitepaper"
    else if Contains(n, "infographic") then "infographic"
    else "document"
  }

  /** `classify_doc` is the first-match scan of the keyword table over the
      lower-cased name. */
  lemma ClassifyDocIsFirstMatch(name: string)
    ensures ClassifyDoc(name) == FirstMatch(Lower(name), 0)
  {
    var n := Lower(name);
    assert Rules[0] == Rule(["policy"], "policy");
    assert Rules[1] == Rule(["standard"], "standard");
    assert Rules[2] == Rule(["procedure", "plan"], "procedure");
    assert Rules[3] == Rule(["framework"], "framework");
    assert Rules[4] == Rule(["whitepaper"], "whitepaper");
    assert Rules[5] == Rule(["infographic"], "infographic");
    MatchesKeyword(n, Rules[0]);
    MatchesKeyword(n, Rules[1]);
    MatchesKeyword(n, Rules[2]);
    MatchesKeyword(n, Rules[3]);
    MatchesKeyword(n, Rules[4]);
    MatchesKeyword(n, Rules[5]);
  }

  /** The classes of the table are distinct and none is the default. */
  lemma ClassesDistinct(i: nat, j: nat)
    requires i < |Rules| && j < |Rules|
    ensures i != j ==> Rules[i].docClass != Rules[j].docClass
    ensures Rules[i].docClass != DefaultLabel
  {
  }

  /** A scan that starts after rule i never picks rule i's class. */
  lemma {:induction false} FirstMatchSkips(n: string, s: nat, i: nat)
    requires i < s <= |Rules|
    ensures FirstMatch(n, s) != Rules[i].docClass
    decreases |Rules| - s
  {
    ClassesDistinct(i, i);
    if s < |Rules| {
      ClassesDistinct(s, i);
      if !Matches(n, Rules[s]) {
        FirstMatchSkips(n, s + 1, i);
      }
    }
  }

  /** The scan from rule s picks rule i exactly when rule i matches and no
      rule between s and i does. */
  lemma {:induction false} FirstMatchPicks(n: string, s: nat, i: nat)
    requires s <= i < |Rules|
    ensures FirstMatch(n, s) == Rules[i].docClass
        <==> Matches(n, Rules[i]) && forall j :: s <= j < i ==> !Matches(n, Rules[j])
    decreases i - s
  {
    if s == i {
      if !Matches(n, Rules[i]) {
        FirstMatchSkips(n, i + 1, i);
      }
    } else if Matches(n, Rules[s]) {
      ClassesDistinct(s, i);
    } else {
      FirstMatchPicks(n, s + 1, i);
    }
  }

  /** The scan from rule s gives the default exactly when no rule from s on
      matches. */
  lemma {:induction false} FirstMatchDefault(n: string, s: nat)
    requires s <= |Rules|
    ensures FirstMatch(n, s) == DefaultLabel <==> forall i :: s <= i < |Rules| ==> !Matches(n, Rules[i])
    decreases |Rules| - s
  {
    if s < |Rules| {
      ClassesDistinct(s, s);
      if !Matches(n, Rules[s]) {
        FirstMatchDefault(n, s + 1);
      }
    }
  }

  /** A class is chosen exactly when one of its keywords occurs in the
      lower-cased name and no keyword of a higher-priority class does, and
      "document" exactly when no keyword occurs. */
  lemma ClassifyDocByPriority(name: string)
    ensures forall i :: 0 <= i < |Rules| ==>
              (ClassifyDoc(name) == Rules[i].docClass
               <==> Matches(Lower(name), Rules[i]) && forall j :: 0 <= j < i ==> !Matches(Lower(name), Rules[j]))
    ensures ClassifyDoc(name) == DefaultLabel <==> forall i :: 0 <= i < |Rules| ==> !Matches(Lower(name), Rules[i])
  {
    ClassifyDocIsFirstMatch(name);
    forall i | 0 <= i < |Rules|
      ensures ClassifyDoc(name) == Rules[i].docClass
          <==> Matches(Lower(name), Rules[i]) && forall j :: 0 <= j < i ==> !Matches(Lower(name), Rules[j])
    {
      FirstMatchPicks(Lower(name), 0, i);
    }
    FirstMatchDefault(Lower(name), 0);
  }

  lemma MatchesKeyword(n: string, rule: Rule)
    requires 1 <= |rule.keywords| <= 2
    ensures Matches(n, rule) <==> Contains(n, rule.keywords[0]) || (|rule.keywords| == 2 && Contains(n, rule.keywords[1]))
  {
    if Contains(n, rule.keywords[0]) {
      assert Matches(n, rule);
    }
    if |rule.keywords| == 2 && Contains(n, rule.keywords[1]) {
      assert Matches(n, rule);
    }
  }

  /** The class is always one of the seven. */
  lemma ClassifyDocLabels(name: string)
    ensures ClassifyDoc(name) in ["policy", "standard", "procedure", "framework", "whitepaper", "infographic", "document"]
  {
  }

  lemma LowerUpper(s: string)
    ensures Lower(Upper(s)) == Lower(s)
  {
    forall i | 0 <= i < |s| ensures Lower(Upper(s))[i] == Lower(s)[i] {
    }
  }

  /** Matching is case-insensitive: upper-casing the name changes nothing. */
  lemma ClassifyDocIgnoresCase(name: string)
    ensures ClassifyDoc(Upper(name)) == ClassifyDoc(name)
  {
    LowerUpper(name);
  }

  const DocIdPrefix: string := "SEC-HB-CORP-"

  /** `normalize(name.replace(".md", ""))`. */
  function DocBase(name: string): (base: string)
    ensures IsSlug(base)
  {
    Normalize(ReplaceAll(name, ".md", ""))
  }

  /** The tokens upper-cased one by one. */
  function UpperAll(tokens: seq<string>): (r: seq<string>)
    ensures |r| == |tokens|
    ensures forall i :: 0 <= i < |tokens| ==> r[i] == Upper(tokens[i])
  {
    seq(|tokens|, i requires 0 <= i < |tokens| => Upper(tokens[i]))
  }

  /** `generate_doc_id(name)`: "SEC-HB-CORP-" and the first six '-'-separated
      tokens of the base, each upper-cased, joined with '-'. */
  function GenerateDocId(name: string): (id: string) {
    var tokens := Split(DocBase(name), '-');
    var kept := if |tokens| <= 6 then tokens else tokens[..6];
    DocIdPrefix + Join(UpperAll(kept), '-')
  }

  lemma {:induction false} UpperJoin(parts: seq<string>)
    requires |parts| >= 1
    ensures Join(UpperAll(parts), '-') == Upper(Join(parts, '-'))
    decreases |parts|
  {
    if |parts| > 1 {
      UpperJoin(parts[1..]);
      assert UpperAll(parts)[1..] == UpperAll(parts[1..]);
      assert Upper(parts[0] + ['-'] + Join(parts[1..], '-'))
          == Upper(parts[0]) + ['-'] + Upper(Join(parts[1..], '-'));
    }
  }

  lemma {:induction false} CountUpperDash(s: string)
    ensures Count(Upper(s), '-') == Count(s, '-')
    decreases |s|
  {
    if s != [] {
      assert Upper(s)[1..] == Upper(s[1..]);
      CountUpperDash(s[1..]);
    }
  }

  /** A generated ID starts with "SEC-HB-CORP-"; what follows is the
      upper-cased beginning of the normalized name, cut right before its
      sixth '-' when it has more than five, and otherwise the whole of it.
      So the tail holds at most six tokens. */
  lemma DocIdShape(name: string)
    ensures var id := GenerateDocId(name);
            var base := DocBase(name);
            && DocIdPrefix <= id
            && var tail := id[|DocIdPrefix|..];
               && |tail| <= |base| && tail == Upper(base[..|tail|])
               && Count(tail, '-') == (if Count(base, '-') < 6 then Count(base, '-') else 5)
               && (Count(base, '-') < 6 ==> |tail| == |base|)
               && (Count(base, '-') >= 6 ==> |tail| < |base| && base[|tail|] == '-')
  {
    var base := DocBase(name);
    var p := FirstParts(base, '-', 6);
    DocIdIsUpperFirstParts(name);
    JoinFirstParts(base, '-', 6);
    CountUpperDash(p);
    assert p == base[..|p|];
  }

  /** The tail of an ID is the first six tokens of the base, upper-cased. */
  lemma DocIdIsUpperFirstParts(name: string)
    ensures GenerateDocId(name) == DocIdPrefix + Upper(FirstParts(DocBase(name), '-', 6))
  {
    var tokens := Split(DocBase(name), '-');
    var kept := if |tokens| <= 6 then tokens else tokens[..6];
    UpperJoin(kept);
  }
}
