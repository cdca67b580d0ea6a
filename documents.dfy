/** The front-matter writers of helper_v3.py: the header templates and
    `str.format`, `create_output_file`, `process_regulations` and
    `process_additional_handbooks`. Input files are a map from the name the
    configuration gives to the file's text; outputs go to a `Store`. */
module Documents {
  import opened Values
  import opened Text
  import opened Slug
  import opened Paths
  import opened FileStore
  import opened Naming

  /** A template is literal text and `{name}` fields. */
  datatype Piece = Lit(text: string) | Field(name: string)
  type Template = seq<Piece>

  predicate UsesField(t: Template, name: string) {
    exists i :: 0 <= i < |t| && t[i] == Field(name)
  }

  /** `template.format(**fields)`: fields are substituted left to right; the
      first field without a value raises KeyError with its name; values for
      names the template does not use are ignored. */
  function Format(t: Template, fields: map<string, string>): (r: Result<string>)
    ensures r.Ok? <==> forall i :: 0 <= i < |t| && t[i].Field? ==> t[i].name in fields
    ensures r.Raised? ==> r.error.KeyError? && r.error.key !in fields && UsesField(t, r.error.key)
    decreases |t|, |fields|
  {
    if t == [] then Ok("")
    else
      var head: Result<string> :=
        match t[0]
        case Lit(text) => Ok(text)
        case Field(name) => if name in fields then Ok(fields[name]) else Raised(KeyError(name));
      if head.Raised? then head
      else match Format(t[1..], fields)
        case Raised(e) =>
          assert UsesField(t[1..], e.key);
          var i :| 0 <= i < |t[1..]| && t[1..][i] == Field(e.key);
          assert t[i + 1] == Field(e.key);
          Raised(e)
        case Ok(rest) =>
          assert forall i :: 1 <= i < |t| ==> t[i] == t[1..][i - 1];
          Ok(head.value + rest)
  }

  /** Values for names a template does not use make no difference. */
  lemma {:induction false} FormatIgnoresUnusedFields(t: Template, f: map<string, string>, g: map<string, string>)
    requires forall name :: UsesField(t, name) ==> (name in f <==> name in g) && (name in f ==> f[name] == g[name])
    ensures Format(t, f) == Format(t, g)
    decreases |t|
  {
    if t != [] {
      if t[0].Field? {
        assert UsesField(t, t[0].name);
      }
      forall name | UsesField(t[1..], name)
        ensures (name in f <==> name in g) && (name in f ==> f[name] == g[name])
      {
        var i :| 0 <= i < |t[1..]| && t[1..][i] == Field(name);
        assert t[i + 1] == Field(name);
      }
      FormatIgnoresUnusedFields(t[1..], f, g);
    }
  }

  /** SEC_HB_CORP_TEMPLATE. */
  const SecHbCorp: Template := [
    Lit("---\ndoc_id: "), Field("doc_id"),
    Lit("\ndomain: security\nlayer: handbook\nscope: corporate\ndoc_class: "), Field("doc_class"),
    Lit("\nmetadata: "), Field("metadata"),
    Lit("\nlanguage: "), Field("lang"),
    Lit("\nauthority_level: mandatory\napplicability: group-wide\nrelated_regulations: auto\n---\n")
  ]

  /** SEC_REG_TEMPLATE. */
  const SecReg: Template := [
    Lit("---\ndoc_id: "), Field("doc_id"),
    Lit("\ndomain: security\nlayer: regulation\nmetadata: "), Field("metadata"),
    Lit("\nlanguage: "), Field("lang"),
    Lit("\nchildren: "), Field("children"),
    Lit("\n---\n")
  ]

  /** SEC_PROCESS_TEMPLATE. */
  const SecProcess: Template := [
    Lit("---\ndoc_id: "), Field("doc_id"),
    Lit("\ndomain: security\nlayer: process\nparent_regulation: "), Field("parent_regulation"),
    Lit("\nlanguage: "), Field("lang"),
    Lit("\nexecution_level: operational\n---\n")
  ]

  /** SEC_GUIDELINE_TEMPLATE. */
  const SecGuideline: Template := [
    Lit("---\ndoc_id: "), Field("doc_id"),
    Lit("\ndomain: security\nlayer: guideline\nparent_regulation: "), Field("parent_regulation"),
    Lit("\nlanguage: "), Field("lang"),
    Lit("\nauthority_level: advisory\n---\n")
  ]

  /** SEC_REG_HB_TEMPLATE. */
  const SecRegHb: Template := [
    Lit("---\ndoc_id: "), Field("doc_id"),
    Lit("\ndomain: security\nlayer: handbook\nscope: corporate,\nmetadata: business-continuity-governance\nlanguage: en\nlinked_regulation: "),
    Field("parent_regulation"),
    Lit("\nauthoritative: true\n---\n")
  ]

  /** What `create_output_file` writes: the header, a blank line and the
      content, or the content alone when there is no header. */
  function OutputText(header: Option<string>, content: string): (text: string)
    ensures header.None? ==> text == content
    ensures header.Some? ==> |text| == |header.value| + 2 + |content|
                             && text[..|header.value|] == header.value
                             && text[|header.value|..|header.value| + 2] == "\n\n"
                             && text[|header.value| + 2..] == content
  {
    match header
    case None => content
    case Some(h) => h + "\n\n" + content
  }

  /** `create_output_file(name, header, content, out_dir)`. The file is
      written even when it already exists (the source only prints SKIP). */
  method CreateOutputFile(store: Store, name: string, header: Option<string>, content: string, outDir: Path)
    modifies store
    ensures store.State() == old(store.State()).MakeDirs(outDir).Write(outDir + [name], OutputText(header, content))
  {
    store.MakeDirs(outDir);
    var outputFile := outDir + [name];
    store.WriteText(outputFile, OutputText(header, content));
  }

  /** One file to create: its name, its header and the input it is read
      from. */
  datatype Job = Job(name: string, header: string, input: string)

  /** `output.replace(".md", "")`: the ID a document's output name gives. */
  function DocIdOf(output: string): string {
    ReplaceAll(output, ".md", "")
  }

  /** A process, guideline or handbook entry of a regulation. */
  datatype Child = Child(input: string, output: string)

  /** A regulation entry of the configuration. A "mock" regulation carries
      its text in `input` instead of a file name. */
  datatype Regulation = Regulation(
    mock: bool, input: string, output: string, metadata: string, lang: string,
    processes: seq<Child>, guidelines: seq<Child>, handbooks: seq<Child>)

  /** The three kinds of children and the template each is written with. */
  datatype ChildKind = Process | Guideline | Handbook

  function TemplateOf(kind: ChildKind): Template {
    match kind
    case Process => SecProcess
    case Guideline => SecGuideline
    case Handbook => SecRegHb
  }

  /** The fields each child template receives: handbooks get no language. */
  function ChildFields(kind: ChildKind, child: Child, regulationId: string): map<string, string> {
    if kind == Handbook then map["doc_id" := DocIdOf(child.output), "parent_regulation" := regulationId]
    else map["doc_id" := DocIdOf(child.output), "parent_regulation" := regulationId, "lang" := "vi"]
  }

  /** Every field the child templates use is supplied. */
  lemma ChildHeadersFormat(kind: ChildKind, child: Child, regulationId: string)
    ensures Format(TemplateOf(kind), ChildFields(kind, child, regulationId)).Ok?
  {
  }

  /** The header of one child. */
  function ChildHeader(kind: ChildKind, child: Child, regulationId: string): string {
    ChildHeadersFormat(kind, child, regulationId);
    Format(TemplateOf(kind), ChildFields(kind, child, regulationId)).value
  }

  function RegulationFields(reg: Regulation, children: string): map<string, string> {
    map["doc_id" := DocIdOf(reg.output), "metadata" := reg.metadata, "lang" := reg.lang, "children" := children]
  }

  lemma RegulationHeaderFormats(reg: Regulation, children: string)
    ensures Format(SecReg, RegulationFields(reg, children)).Ok?
  {
  }

  function RegulationHeader(reg: Regulation, children: string): string {
    RegulationHeaderFormats(reg, children);
    Format(SecReg, RegulationFields(reg, children)).value
  }

  /** The jobs built for a list of children, in list order. */
  function ChildJobs(children: seq<Child>, header: Child -> string): seq<Job>
    decreases |children|
  {
    if children == [] then []
    else
      var last := children[|children| - 1];
      ChildJobs(children[..|children| - 1], header) + [Job(last.output, header(last), last.input)]
  }

  /** The header of each child of one kind under one regulation. */
  function HeaderOf(kind: ChildKind, regulationId: string): Child -> string {
    child => ChildHeader(kind, child, regulationId)
  }

  /** `reg_children`: "\n- " and the child's ID for each child, in order. */
  function ChildrenText(children: seq<Child>): string
    decreases |children|
  {
    if children == [] then ""
    else ChildrenText(children[..|children| - 1]) + "\n- " + DocIdOf(children[|children| - 1].output)
  }

  /** The text of the regulation: `input` itself for a mock regulation,
      otherwise the input file; None when that file does not exist. */
  function RegulationContent(reg: Regulation, inputs: map<string, string>): Option<string> {
    if reg.mock then Some(reg.input)
    else if reg.input in inputs then Some(inputs[reg.input])
    else None
  }

  /** The files one regulation creates, in order: the processes, the
      guidelines, the handbooks whose input exists, then the regulation. */
  function RegulationWrites(reg: Regulation, inputs: map<string, string>): seq<(string, string)> {
    match RegulationContent(reg, inputs)
    case None => []
    case Some(content) =>
      ChildWrites(reg, inputs) + [(reg.output, OutputText(Some(RegulationHeader(reg, RegulationChildren(reg))), content))]
  }

  /** The files the children of one regulation create, in order. */
  function ChildWrites(reg: Regulation, inputs: map<string, string>): seq<(string, string)> {
    var id := DocIdOf(reg.output);
    JobWrites(ChildJobs(reg.processes, HeaderOf(Process, id)), inputs)
      + JobWrites(ChildJobs(reg.guidelines, HeaderOf(Guideline, id)), inputs)
      + JobWrites(ChildJobs(reg.handbooks, HeaderOf(Handbook, id)), inputs)
  }

  /** The jobs whose input exists, with the text each writes. */
  function JobWrites(jobs: seq<Job>, inputs: map<string, string>): seq<(string, string)>
    decreases |jobs|
  {
    if jobs == [] then []
    else
      var last := jobs[|jobs| - 1];
      var earlier := JobWrites(jobs[..|jobs| - 1], inputs);
      if last.input in inputs then earlier + [(last.name, OutputText(Some(last.header), inputs[last.input]))]
      else earlier
  }

  /** The disk after `create_output_file` for each write, in order. */
  function ApplyWrites(disk: Disk, writes: seq<(string, string)>, outDir: Path): Disk
    decreases |writes|
  {
    if writes == [] then disk
    else
      var last := writes[|writes| - 1];
      ApplyWrites(disk, writes[..|writes| - 1], outDir).MakeDirs(outDir).Write(outDir + [last.0], last.1)
  }

  /** The writes of all regulations, in configuration order, each
      regulation's given by `writesOf`. */
  function AllRegulationWrites(regs: seq<Regulation>, writesOf: Regulation -> seq<(string, string)>): seq<(string, string)>
    decreases |regs|
  {
    if regs == [] then []
    else AllRegulationWrites(regs[..|regs| - 1], writesOf) + writesOf(regs[|regs| - 1])
  }

  /** The writes of one regulation, given the input files. */
  function WritesOf(inputs: map<string, string>): Regulation -> seq<(string, string)> {
    reg => RegulationWrites(reg, inputs)
  }

  lemma {:induction false} ApplyWritesAppend(disk: Disk, a: seq<(string, string)>, b: seq<(string, string)>, outDir: Path)
    ensures ApplyWrites(disk, a + b, outDir) == ApplyWrites(ApplyWrites(disk, a, outDir), b, outDir)
    decreases |b|
  {
    if b == [] {
      assert a + b == a;
    } else {
      assert (a + b)[..|a + b| - 1] == a + b[..|b| - 1];
      ApplyWritesAppend(disk, a, b[..|b| - 1], outDir);
    }
  }

  /** Builds the jobs and the children text of one list of children:
      `reg_children += "\n- " + id` and `append` in the source's loop. */
  method CollectChildren(kind: ChildKind, children: seq<Child>, regulationId: string, regChildren: string)
    returns (jobs: seq<Job>, text: string)
    ensures jobs == ChildJobs(children, HeaderOf(kind, regulationId))
    ensures text == regChildren + ChildrenText(children)
  {
    jobs := [];
    text := regChildren;
    var i := 0;
    while i < |children|
      invariant 0 <= i <= |children|
      invariant jobs == ChildJobs(children[..i], HeaderOf(kind, regulationId))
      invariant text == regChildren + ChildrenText(children[..i])
    {
      jobs, text := CollectChild(kind, children, i, regulationId, regChildren, jobs, text);
      i := i + 1;
    }
    assert children[..i] == children;
  }

  /** One pass of the loop, for `children[i]`. */
  method CollectChild(kind: ChildKind, children: seq<Child>, i: nat, regulationId: string, regChildren: string,
                      jobs: seq<Job>, text: string)
    returns (jobs': seq<Job>, text': string)
    requires i < |children|
    requires jobs == ChildJobs(children[..i], HeaderOf(kind, regulationId))
    requires text == regChildren + ChildrenText(children[..i])
    ensures jobs' == ChildJobs(children[..i + 1], HeaderOf(kind, regulationId))
    ensures text' == regChildren + ChildrenText(children[..i + 1])
  {
    var child := children[i];
    CollectStep(children, i, HeaderOf(kind, regulationId));
    var header := ChildHeader(kind, child, regulationId);
    jobs' := jobs + [Job(child.output, header, child.input)];
    text' := text + "\n- " + DocIdOf(child.output);
    AppendAssoc(regChildren, ChildrenText(children[..i]), "\n- ", DocIdOf(child.output));
  }

  /** The jobs and the children text after one more child. */
  lemma CollectStep(children: seq<Child>, i: nat, header: Child -> string)
    requires i < |children|
    ensures var c := children[i];
            && ChildJobs(children[..i + 1], header) == ChildJobs(children[..i], header) + [Job(c.output, header(c), c.input)]
            && ChildrenText(children[..i + 1]) == ChildrenText(children[..i]) + "\n- " + DocIdOf(c.output)
  {
    assert children[..i + 1][..i] == children[..i];
  }

  /** Creates the file of each job whose input exists, skipping the others. */
  method WriteJobs(store: Store, jobs: seq<Job>, inputs: map<string, string>, outDir: Path)
    modifies store
    ensures store.State() == ApplyWrites(old(store.State()), JobWrites(jobs, inputs), outDir)
  {
    var i := 0;
    while i < |jobs|
      invariant 0 <= i <= |jobs|
      invariant store.State() == ApplyWrites(old(store.State()), JobWrites(jobs[..i], inputs), outDir)
    {
      var job := jobs[i];
      assert jobs[..i + 1][..i] == jobs[..i];
      if job.input in inputs {
        var content := inputs[job.input];
        ghost var before := JobWrites(jobs[..i], inputs);
        CreateOutputFile(store, job.name, Some(job.header), content, outDir);
        ApplyWritesAppend(old(store.State()), before, [(job.name, OutputText(Some(job.header), content))], outDir);
      }
      i := i + 1;
    }
    assert jobs[..i] == jobs;
  }

  /** One regulation of `process_regulations`. */
  method ProcessRegulation(store: Store, reg: Regulation, inputs: map<string, string>, outDir: Path)
    modifies store
    ensures store.State() == ApplyWrites(old(store.State()), RegulationWrites(reg, inputs), outDir)
  {
    var content;
    if reg.mock {
      content := reg.input;
    } else if reg.input in inputs {
      content := inputs[reg.input];
    } else {
      return;
    }
    var regulationId := DocIdOf(reg.output);
    var processJobs, afterProcesses := CollectChildren(Process, reg.processes, regulationId, "");
    var guidelineJobs, afterGuidelines := CollectChildren(Guideline, reg.guidelines, regulationId, afterProcesses);
    var handbookJobs, regChildren := CollectChildren(Handbook, reg.handbooks, regulationId, afterGuidelines);
    assert afterProcesses == ChildrenText(reg.processes);
    ChildrenTextAppend(reg.processes, reg.guidelines);
    assert afterGuidelines == ChildrenText(reg.processes + reg.guidelines);
    ChildrenTextAppend(reg.processes + reg.guidelines, reg.handbooks);
    assert regChildren == RegulationChildren(reg);
    ghost var start := store.State();
    WriteJobs(store, processJobs, inputs, outDir);
    ghost var processesDone := store.State();
    WriteJobs(store, guidelineJobs, inputs, outDir);
    ghost var guidelinesDone := store.State();
    WriteJobs(store, handbookJobs, inputs, outDir);
    ghost var childrenDone := store.State();
    var regHeader := RegulationHeader(reg, regChildren);
    CreateOutputFile(store, reg.output, Some(regHeader), content, outDir);
    RegulationWritesInOrder(start, reg, inputs, content, outDir, processJobs, guidelineJobs, handbookJobs,
                            processesDone, guidelinesDone, childrenDone, regHeader);
  }

  /** The children text of a regulation: processes, guidelines, handbooks. */
  function RegulationChildren(reg: Regulation): string {
    ChildrenText(reg.processes + reg.guidelines + reg.handbooks)
  }

  /** Applying the writes of a regulation with content is writing its three
      lists of children, in order, and then the regulation file itself. */
  lemma RegulationWritesInOrder(start: Disk, reg: Regulation, inputs: map<string, string>, content: string, outDir: Path,
                                processJobs: seq<Job>, guidelineJobs: seq<Job>, handbookJobs: seq<Job>,
                                afterProcesses: Disk, afterGuidelines: Disk, afterChildren: Disk, regHeader: string)
    requires RegulationContent(reg, inputs) == Some(content)
    requires processJobs == ChildJobs(reg.processes, HeaderOf(Process, DocIdOf(reg.output)))
    requires guidelineJobs == ChildJobs(reg.guidelines, HeaderOf(Guideline, DocIdOf(reg.output)))
    requires handbookJobs == ChildJobs(reg.handbooks, HeaderOf(Handbook, DocIdOf(reg.output)))
    requires afterProcesses == ApplyWrites(start, JobWrites(processJobs, inputs), outDir)
    requires afterGuidelines == ApplyWrites(afterProcesses, JobWrites(guidelineJobs, inputs), outDir)
    requires afterChildren == ApplyWrites(afterGuidelines, JobWrites(handbookJobs, inputs), outDir)
    requires regHeader == RegulationHeader(reg, RegulationChildren(reg))
    ensures ApplyWrites(start, RegulationWrites(reg, inputs), outDir)
         == afterChildren.MakeDirs(outDir).Write(outDir + [reg.output], OutputText(Some(regHeader), content))
  {
    var p := JobWrites(processJobs, inputs);
    var g := JobWrites(guidelineJobs, inputs);
    var h := JobWrites(handbookJobs, inputs);
    var r := [(reg.output, OutputText(Some(regHeader), content))];
    assert RegulationWrites(reg, inputs) == p + g + h + r;
    ApplyWritesAppend(start, p, g, outDir);
    ApplyWritesAppend(start, p + g, h, outDir);
    ApplyWritesAppend(start, p + g + h, r, outDir);
  }

  /** `process_regulations(regulations, out_dir, input_dir)`. The groups of
      the configuration are given as one list, in order. */
  method ProcessRegulations(store: Store, regs: seq<Regulation>, inputs: map<string, string>, outDir: Path)
    modifies store
    ensures store.State() == ApplyWrites(old(store.State()), AllRegulationWrites(regs, WritesOf(inputs)), outDir)
  {
    ghost var start := store.State();
    var i := 0;
    assert AllRegulationWrites(regs[..i], WritesOf(inputs)) == [];
    while i < |regs|
      invariant 0 <= i <= |regs|
      invariant store.State() == ApplyWrites(start, AllRegulationWrites(regs[..i], WritesOf(inputs)), outDir)
    {
      ProcessNextRegulation(store, start, regs, i, inputs, outDir);
      i := i + 1;
    }
    assert regs[..i] == regs;
  }

  /** One pass of the loop, for `regs[i]`. */
  method ProcessNextRegulation(store: Store, ghost start: Disk, regs: seq<Regulation>, i: nat,
                               inputs: map<string, string>, outDir: Path)
    requires i < |regs|
    requires store.State() == ApplyWrites(start, AllRegulationWrites(regs[..i], WritesOf(inputs)), outDir)
    modifies store
    ensures store.State() == ApplyWrites(start, AllRegulationWrites(regs[..i + 1], WritesOf(inputs)), outDir)
  {
    AllRegulationWritesStep(regs, i, WritesOf(inputs));
    ProcessRegulation(store, regs[i], inputs, outDir);
    ApplyWritesAppend(start, AllRegulationWrites(regs[..i], WritesOf(inputs)), RegulationWrites(regs[i], inputs), outDir);
  }

  lemma AllRegulationWritesStep(regs: seq<Regulation>, i: nat, writesOf: Regulation -> seq<(string, string)>)
    requires i < |regs|
    ensures AllRegulationWrites(regs[..i + 1], writesOf) == AllRegulationWrites(regs[..i], writesOf) + writesOf(regs[i])
  {
    assert regs[..i + 1][..i] == regs[..i];
  }

  lemma {:induction false} ChildrenTextAppend(a: seq<Child>, b: seq<Child>)
    ensures ChildrenText(a + b) == ChildrenText(a) + ChildrenText(b)
    decreases |b|
  {
    if b == [] {
      assert a + b == a;
    } else {
      var last := b[|b| - 1];
      assert (a + b)[..|a + b| - 1] == a + b[..|b| - 1];
      assert (a + b)[|a + b| - 1] == last;
      ChildrenTextAppend(a, b[..|b| - 1]);
      AppendAssoc(ChildrenText(a), ChildrenText(b[..|b| - 1]), "\n- ", DocIdOf(last.output));
    }
  }

  /** An output name "X.md" whose X has no ".md" in it gives back X as the
      document's ID. */
  lemma {:induction false} DocIdOfMarkdownName(x: string)
    requires !Contains(x, ".md")
    ensures DocIdOf(x + ".md") == x
    decreases |x|
  {
    var s := x + ".md";
    if x == [] {
      assert s == ".md" && s[3..] == [];
      assert ReplaceAll(s, ".md", "") == "" + ReplaceAll(s[3..], ".md", "");
    } else {
      MarkdownSuffixStartsLate(x);
      assert !Contains(x[1..], ".md");
      assert s[1..] == x[1..] + ".md";
      DocIdOfMarkdownName(x[1..]);
      assert [x[0]] + x[1..] == x;
    }
  }

  /** ".md" does not occur at the start of x + ".md" for a non-empty x
      without ".md" in it. */
  lemma MarkdownSuffixStartsLate(x: string)
    requires x != [] && !Contains(x, ".md")
    ensures !(".md" <= x + ".md")
  {
    var s := x + ".md";
    if |x| >= 3 {
      assert s[..3] == x[..3];
    } else if |x| == 1 {
      assert s[1] == '.';
    } else {
      assert s[2] == '.';
    }
  }

  /** The `children` field, split at line breaks: an empty first line, then
      "- " and the ID of each child, in order, one per line. */
  lemma {:induction false} ChildrenTextLines(children: seq<Child>)
    requires forall i :: 0 <= i < |children| ==> '\n' !in DocIdOf(children[i].output)
    ensures var lines := Split(ChildrenText(children), '\n');
            && |lines| == |children| + 1
            && lines[0] == ""
            && forall i :: 0 <= i < |children| ==> lines[i + 1] == "- " + DocIdOf(children[i].output)
    decreases |children|
  {
    if children != [] {
      var init := children[..|children| - 1];
      var id := DocIdOf(children[|children| - 1].output);
      ChildrenTextLines(init);
      assert ChildrenText(children) == ChildrenText(init) + ['\n'] + ("- " + id);
      assert '\n' !in "- " + id by {
        assert '\n' !in id && ("- " + id)[2..] == id;
      }
      SplitAppend(ChildrenText(init), "- " + id, '\n');
      var lines := Split(ChildrenText(children), '\n');
      var prev := Split(ChildrenText(init), '\n');
      assert lines == prev + ["- " + id];
      forall i | 0 <= i < |children|
        ensures lines[i + 1] == "- " + DocIdOf(children[i].output)
      {
        if i < |init| {
          assert lines[i + 1] == prev[i + 1] == "- " + DocIdOf(init[i].output);
          assert init[i] == children[i];
        } else {
          assert lines[i + 1] == "- " + id;
        }
      }
    }
  }

  /** A job is written exactly when its input exists, with its header, a
      blank line and the input's text. */
  lemma {:induction false} JobWritesIff(jobs: seq<Job>, inputs: map<string, string>, w: (string, string))
    ensures w in JobWrites(jobs, inputs)
        <==> exists j :: j in jobs && j.input in inputs
                         && w == (j.name, OutputText(Some(j.header), inputs[j.input]))
    decreases |jobs|
  {
    if jobs != [] {
      var init := jobs[..|jobs| - 1];
      var last := jobs[|jobs| - 1];
      JobWritesIff(init, inputs, w);
      assert jobs == init + [last];
    }
  }

  /** The jobs of a list of children: one per child, with its output name,
      its header and its input. */
  lemma {:induction false} ChildJobsIff(children: seq<Child>, header: Child -> string, j: Job)
    ensures j in ChildJobs(children, header)
        <==> exists c :: c in children && j == Job(c.output, header(c), c.input)
    decreases |children|
  {
    if children != [] {
      var init := children[..|children| - 1];
      var last := children[|children| - 1];
      ChildJobsIff(init, header, j);
      assert children == init + [last];
    }
  }

  /** The children of one kind. */
  function ChildrenOf(reg: Regulation, kind: ChildKind): seq<Child> {
    match kind
    case Process => reg.processes
    case Guideline => reg.guidelines
    case Handbook => reg.handbooks
  }

  /** The file written for one child whose input exists. */
  function ChildWrite(reg: Regulation, kind: ChildKind, d: Child, inputs: map<string, string>): (string, string)
    requires d.input in inputs
  {
    (d.output, OutputText(Some(ChildHeader(kind, d, DocIdOf(reg.output))), inputs[d.input]))
  }

  /** The skip rules of `process_regulations` for the regulation itself: it
      writes nothing when its input file is missing; otherwise its own file
      comes last, after its children's, with its own text. */
  lemma RegulationWritesSplit(reg: Regulation, inputs: map<string, string>)
    ensures RegulationWrites(reg, inputs) == [] <==> !reg.mock && reg.input !in inputs
    ensures RegulationWrites(reg, inputs) != [] ==>
              RegulationWrites(reg, inputs)
              == ChildWrites(reg, inputs)
                 + [(reg.output, OutputText(Some(RegulationHeader(reg, RegulationChildren(reg))),
                                            if reg.mock then reg.input else inputs[reg.input]))]
  {
  }

  /** The children of one kind that are written are exactly those whose
      input exists, each with its header and its input's text. */
  lemma KindWritesIff(reg: Regulation, inputs: map<string, string>, kind: ChildKind, w: (string, string))
    ensures w in JobWrites(ChildJobs(ChildrenOf(reg, kind), HeaderOf(kind, DocIdOf(reg.output))), inputs)
        <==> exists d :: d in ChildrenOf(reg, kind) && d.input in inputs && w == ChildWrite(reg, kind, d, inputs)
  {
    var id := DocIdOf(reg.output);
    var jobs := ChildJobs(ChildrenOf(reg, kind), HeaderOf(kind, id));
    JobWritesIff(jobs, inputs, w);
    if w in JobWrites(jobs, inputs) {
      var j :| j in jobs && j.input in inputs && w == (j.name, OutputText(Some(j.header), inputs[j.input]));
      ChildJobsIff(ChildrenOf(reg, kind), HeaderOf(kind, id), j);
      var d :| d in ChildrenOf(reg, kind) && j == Job(d.output, HeaderOf(kind, id)(d), d.input);
      assert w == ChildWrite(reg, kind, d, inputs);
    }
    if exists d :: d in ChildrenOf(reg, kind) && d.input in inputs && w == ChildWrite(reg, kind, d, inputs) {
      var d :| d in ChildrenOf(reg, kind) && d.input in inputs && w == ChildWrite(reg, kind, d, inputs);
      ChildJobsIff(ChildrenOf(reg, kind), HeaderOf(kind, id), Job(d.output, HeaderOf(kind, id)(d), d.input));
    }
  }

  /** The skip rules of `process_regulations` for the children: before the
      regulation's own file, exactly the processes, guidelines and handbooks
      whose input exists are written, each with its header and its input's
      text. */
  lemma ChildWritesIff(reg: Regulation, inputs: map<string, string>, w: (string, string))
    ensures w in ChildWrites(reg, inputs)
        <==> exists k: ChildKind, d: Child :: d in ChildrenOf(reg, k) && d.input in inputs && w == ChildWrite(reg, k, d, inputs)
  {
    KindWritesIff(reg, inputs, Process, w);
    KindWritesIff(reg, inputs, Guideline, w);
    KindWritesIff(reg, inputs, Handbook, w);
    if exists k: ChildKind, d: Child :: d in ChildrenOf(reg, k) && d.input in inputs && w == ChildWrite(reg, k, d, inputs) {
      var k: ChildKind, d: Child :| d in ChildrenOf(reg, k) && d.input in inputs && w == ChildWrite(reg, k, d, inputs);
      match k
      case Process =>
      case Guideline =>
      case Handbook =>
    }
  }
}
