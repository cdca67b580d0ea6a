/** The parts of `pathlib` (Python 3.12, POSIX flavour) that the pipeline uses
    to name its outputs: `.name`, `.suffix`, `.stem` and `.with_suffix(".md")`.
    A path is the list of its components; joining a path appends one. */
module Paths {
  import opened Text
  import opened Values

  type Path = seq<string>

  /** The components `PurePath(s)` keeps: `s` split on '/', without empty
      components and without ".". */
  function Parts(s: string): (parts: seq<string>)
    ensures forall i :: 0 <= i < |parts| ==> parts[i] != "" && parts[i] != "." && '/' !in parts[i]
  {
    KeepParts(Split(s, '/'))
  }

  function KeepParts(raw: seq<string>): (parts: seq<string>)
    requires forall i :: 0 <= i < |raw| ==> '/' !in raw[i]
    ensures forall i :: 0 <= i < |parts| ==> parts[i] != "" && parts[i] != "." && '/' !in parts[i]
    decreases |raw|
  {
    if raw == [] then []
    else if raw[0] == "" || raw[0] == "." then KeepParts(raw[1..])
    else [raw[0]] + KeepParts(raw[1..])
  }

  /** `PurePath(s).name`: the last kept component, "" when there is none. */
  function Name(s: string): string {
    var parts := Parts(s);
    if parts == [] then "" else parts[|parts| - 1]
  }

  /** A single component: what `.name` gives back unchanged. */
  predicate IsBareName(n: string) {
    n != "" && n != "." && '/' !in n
  }

  lemma NameIsBare(s: string)
    ensures Name(s) == "" || IsBareName(Name(s))
  {
  }

  /** A bare name is its own `.name`. */
  lemma NameOfBareName(n: string)
    requires IsBareName(n)
    ensures Name(n) == n
  {
    SplitWithoutSeparator(n, '/');
    assert KeepParts([n]) == [n] + KeepParts([]);
  }

  /** `name.rfind('.')`: index of the last '.', or -1. */
  function LastDot(name: string): (i: int)
    ensures -1 <= i < |name|
    ensures i >= 0 ==> name[i] == '.'
    ensures forall j :: i < j < |name| ==> name[j] != '.'
    decreases |name|
  {
    if name == [] then -1
    else if name[|name| - 1] == '.' then |name| - 1
    else LastDot(name[..|name| - 1])
  }

  /** `.suffix`: from the last '.' on, when that dot is neither the first nor
      the last character of the name; "" otherwise. */
  function Suffix(name: string): string {
    var i := LastDot(name);
    if 0 < i < |name| - 1 then name[i..] else ""
  }

  /** `.stem`: the name without its suffix. */
  function Stem(name: string): string {
    var i := LastDot(name);
    if 0 < i < |name| - 1 then name[..i] else name
  }

  /** The stem and the suffix split the name; the stem is never empty for a
      non-empty name, and a leading dot is part of it. */
  lemma StemSplitsName(name: string)
    ensures Stem(name) + Suffix(name) == name
    ensures name != "" ==> Stem(name) != ""
    ensures |Stem(name)| <= |name| && Stem(name) == name[..|Stem(name)|]
  {
  }

  /** Appending ".md" to a non-empty stem yields a name whose stem is that
      stem again. */
  lemma StemOfMarkdownName(stem: string)
    requires stem != []
    ensures LastDot(stem + ".md") == |stem|
    ensures Suffix(stem + ".md") == ".md"
    ensures Stem(stem + ".md") == stem
  {
    var n := stem + ".md";
    var m := stem + ".m";
    var d := stem + ".";
    assert n[|n| - 1] == 'd' && n[..|n| - 1] == m;
    assert m[|m| - 1] == 'm' && m[..|m| - 1] == d;
    assert d[|d| - 1] == '.';
    assert LastDot(d) == |stem|;
    assert LastDot(m) == |stem|;
    assert n[|stem|..] == ".md";
    assert n[..|stem|] == stem;
  }

  /** `Path(filename).with_suffix(".md").name`: the last component with its
      suffix replaced by (or extended with) ".md". `with_suffix` raises
      ValueError on a path with an empty name ("", "/", "."). */
  function OutputFileName(filename: string): (r: Result<string>)
    ensures r.Raised? <==> Name(filename) == ""
    ensures r.Raised? ==> r.error == ValueError
    ensures r.Ok? ==> IsBareName(r.value) && EndsWith(r.value, ".md")
    ensures r.Ok? ==> Stem(r.value) == Stem(Name(filename))
  {
    var n := Name(filename);
    if n == "" then Raised(ValueError)
    else
      StemOfMarkdownName(Stem(n));
      Ok(Stem(n) + ".md")
  }

  /** For a file name without directories the output name is `stem + ".md"`:
      the same name the submission step looks for before re-uploading. */
  lemma {:induction false} OutputFileNameOfBareName(n: string)
    requires IsBareName(n)
    ensures OutputFileName(n) == Ok(Stem(n) + ".md")
  {
    NameOfBareName(n);
  }

  /** Deriving the output name twice changes nothing: the derived name is a
      single component that already carries the ".md" suffix. */
  lemma {:induction false} OutputFileNameIdempotent(filename: string)
    requires OutputFileName(filename).Ok?
    ensures var out := OutputFileName(filename).value;
            Name(out) == out && OutputFileName(out) == Ok(out)
  {
    var stem := Stem(Name(filename));
    var out := stem + ".md";
    NameOfBareName(out);
    StemOfMarkdownName(stem);
  }
}
