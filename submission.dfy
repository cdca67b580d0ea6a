/** `send_files` of async_processing.py: find the PDFs of one input directory
    that have no markdown output yet, create the output directory, and upload
    the pending files as one batch. */
module Submission {
  import opened Values
  import opened Text
  import opened Paths
  import opened FileStore
  import opened DirWalk

  /** `INPUT_ROOT_DIR` and `OUTPUT_ROOT_DIR`. */
  const InputRoot: Path := ["tmp"]
  const OutputRoot: Path := ["out_dir"]

  /** `{"out_path": output_path, "result": result}`. */
  datatype Submitted = Submitted(outPath: Path, result: Json)

  /** What one call of `send_files` does: its return value, the files it
      uploaded, and the disk afterwards. */
  datatype SendOutcome = SendOutcome(result: Result<Option<Submitted>>, uploaded: seq<Path>, disk: Disk)

  /** Index of the first sub-directory with that name. */
  function FindKid(kids: seq<Dir>, name: string): (k: Option<nat>)
    ensures k.Some? ==> k.value < |kids| && kids[k.value].name == name
    ensures k.Some? ==> forall i :: 0 <= i < k.value ==> kids[i].name != name
    ensures k.None? ==> forall i :: 0 <= i < |kids| ==> kids[i].name != name
    decreases |kids|
  {
    if kids == [] then None
    else if kids[0].name == name then Some(0)
    else match FindKid(kids[1..], name)
      case None => None
      case Some(i) => Some(i + 1)
  }

  /** The directory at `rel` below node, if there is one. */
  function Lookup(node: Dir, rel: seq<string>): Option<Dir>
    decreases node
  {
    if rel == [] then Some(node)
    else match FindKid(node.subdirs, rel[0])
      case None => None
      case Some(k) => Lookup(node.subdirs[k], rel[1..])
  }

  /** Whether `directory.relative_to(INPUT_ROOT_DIR)` succeeds. */
  predicate UnderInput(directory: Path) {
    |directory| >= |InputRoot| && directory[..|InputRoot|] == InputRoot
  }

  /** `OUTPUT_ROOT_DIR / directory.relative_to(INPUT_ROOT_DIR)`. */
  function OutputDir(directory: Path): Path
    requires UnderInput(directory)
  {
    OutputRoot + directory[|InputRoot|..]
  }

  /** The names matching `*.pdf` in listing order. */
  function PdfFiles(files: seq<string>): (pdfs: seq<string>)
    ensures forall n :: n in pdfs <==> n in files && EndsWith(n, ".pdf")
    decreases |files|
  {
    if files == [] then []
    else
      var rest := PdfFiles(files[1..]);
      assert files == [files[0]] + files[1..];
      if EndsWith(files[0], ".pdf") then [files[0]] + rest else rest
  }

  /** `directory.glob("*.pdf")` over the input tree, whose root is
      `INPUT_ROOT_DIR`; a directory that is not there has no files. */
  function Glob(tree: Dir, directory: Path): seq<string> {
    if !UnderInput(directory) then []
    else match Lookup(tree, directory[|InputRoot|..])
      case None => []
      case Some(d) => PdfFiles(d.files)
  }

  /** `input_file.stem + ".md"`: the output name the skip check looks for. */
  function MarkdownName(name: string): string {
    Stem(name) + ".md"
  }

  /** `pending_files` after the loop has seen `names`: the input files, in
      order, whose markdown output does not exist under out. */
  function Pending(directory: Path, names: seq<string>, out: Path, disk: Disk): seq<Path>
    decreases |names|
  {
    if names == [] then []
    else
      var last := names[|names| - 1];
      var earlier := Pending(directory, names[..|names| - 1], out, disk);
      if disk.Exists(out + [MarkdownName(last)]) then earlier else earlier + [directory + [last]]
  }

  /** `send_files(directory)` with the upload answered by `batch`, a function
      of the uploaded file list. `relative_to` raises ValueError out of the
      call for a directory outside the input root; an empty pending list, a
      transport error and an undecodable body all give None. */
  function Send(disk: Disk, tree: Dir, directory: Path, batch: seq<Path> -> Response): SendOutcome {
    if !UnderInput(directory) then SendOutcome(Raised(ValueError), [], disk)
    else
      var out := OutputDir(directory);
      var made := disk.MakeDirs(out);
      var pending := Pending(directory, Glob(tree, directory), out, made);
      if pending == [] then SendOutcome(Ok(None), [], made)
      else match batch(pending)
        case Transport => SendOutcome(Ok(None), pending, made)
        case Body(j) => SendOutcome(Ok(Some(Submitted(out, j))), pending, made)
  }

  method SendFiles(store: Store, tree: Dir, directory: Path, batch: seq<Path> -> Response)
    returns (result: Result<Option<Submitted>>, uploaded: seq<Path>)
    modifies store
    ensures Send(old(store.State()), tree, directory, batch)
         == SendOutcome(result, uploaded, store.State())
  {
    var filesList := Glob(tree, directory);
    if !UnderInput(directory) {
      return Raised(ValueError), [];
    }
    var out := OutputDir(directory);
    store.MakeDirs(out);
    ghost var made := store.State();
    var pending: seq<Path> := [];
    var i := 0;
    while i < |filesList|
      invariant 0 <= i <= |filesList|
      invariant store.State() == made
      invariant pending == Pending(directory, filesList[..i], out, made)
    {
      var inputFile := filesList[i];
      PendingStep(directory, filesList, i, out, made);
      if !store.Exists(out + [MarkdownName(inputFile)]) {
        pending := pending + [directory + [inputFile]];
      }
      i := i + 1;
    }
    assert filesList[..i] == filesList;
    uploaded := pending;
    if pending == [] {
      return Ok(None), [];
    }
    match batch(pending)
    case Transport =>
      result := Ok(None);
    case Body(j) =>
      result := Ok(Some(Submitted(out, j)));
  }

  /** The loop over one more name: that name's file is queued when its
      output is missing. */
  lemma PendingStep(directory: Path, names: seq<string>, i: nat, out: Path, disk: Disk)
    requires i < |names|
    ensures disk.Exists(out + [MarkdownName(names[i])])
        ==> Pending(directory, names[..i + 1], out, disk) == Pending(directory, names[..i], out, disk)
    ensures !disk.Exists(out + [MarkdownName(names[i])])
        ==> Pending(directory, names[..i + 1], out, disk) == Pending(directory, names[..i], out, disk) + [directory + [names[i]]]
  {
    assert names[..i + 1][..i] == names[..i];
  }

  /** An input file is queued exactly when it is one of the listed names and
      its markdown output does not exist. */
  lemma {:induction false} PendingIff(directory: Path, names: seq<string>, out: Path, disk: Disk, n: string)
    ensures directory + [n] in Pending(directory, names, out, disk)
        <==> n in names && !disk.Exists(out + [MarkdownName(n)])
    decreases |names|
  {
    if names != [] {
      var last := names[|names| - 1];
      var init := names[..|names| - 1];
      var earlier := Pending(directory, init, out, disk);
      PendingIff(directory, init, out, disk, n);
      assert names == init + [last];
      assert n in names <==> n in init || n == last;
      if n != last {
        assert (directory + [n])[|directory|] != (directory + [last])[|directory|];
      }
    }
  }

  /** Everything queued is a file of the directory. */
  lemma {:induction false} PendingInDirectory(directory: Path, names: seq<string>, out: Path, disk: Disk)
    ensures |Pending(directory, names, out, disk)| <= |names|
    ensures forall p :: p in Pending(directory, names, out, disk) ==>
              |p| == |directory| + 1 && p[..|directory|] == directory && p[|directory|] in names
    decreases |names|
  {
    if names != [] {
      var init := names[..|names| - 1];
      PendingInDirectory(directory, init, out, disk);
      assert names == init + [names[|names| - 1]];
    }
  }

  /** Nothing is uploaded exactly when every PDF already has its output:
      this is what makes a re-run skip finished work. */
  lemma {:induction false} NothingPendingIffAllDone(directory: Path, names: seq<string>, out: Path, disk: Disk)
    ensures Pending(directory, names, out, disk) == []
        <==> forall n :: n in names ==> disk.Exists(out + [MarkdownName(n)])
    decreases |names|
  {
    if names != [] {
      var init := names[..|names| - 1];
      var last := names[|names| - 1];
      NothingPendingIffAllDone(directory, init, out, disk);
      assert names == init + [last];
      assert forall n :: n in names <==> n in init || n == last;
    }
  }

  /** More outputs on disk never queue more files. */
  lemma PendingShrinks(directory: Path, names: seq<string>, out: Path, a: Disk, b: Disk, n: string)
    requires Grows(a, b)
    requires directory + [n] in Pending(directory, names, out, b)
    ensures directory + [n] in Pending(directory, names, out, a)
  {
    var q := out + [MarkdownName(n)];
    PendingIff(directory, names, out, b, n);
    assert q !in b.files && q !in b.dirs;
    assert q !in a.files by {
      assert q !in b.files.Keys;
    }
    PendingIff(directory, names, out, a, n);
  }

  /** Creating the output directory does not change which files are
      pending: the check looks one level below it. */
  lemma {:induction false} PendingAfterMakeDirs(directory: Path, names: seq<string>, out: Path, disk: Disk)
    ensures Pending(directory, names, out, disk.MakeDirs(out)) == Pending(directory, names, out, disk)
    decreases |names|
  {
    if names != [] {
      var last := names[|names| - 1];
      assert |out + [MarkdownName(last)]| > |out|;
      PendingAfterMakeDirs(directory, names[..|names| - 1], out, disk);
    }
  }

  /** `send_files` uploads nothing and returns None when every PDF of the
      directory already has its output; it only creates the output
      directory. */
  lemma SendWhenAllDone(disk: Disk, tree: Dir, directory: Path, batch: seq<Path> -> Response)
    requires UnderInput(directory)
    requires forall n :: n in Glob(tree, directory) ==> disk.Exists(OutputDir(directory) + [MarkdownName(n)])
    ensures Send(disk, tree, directory, batch)
         == SendOutcome(Ok(None), [], disk.MakeDirs(OutputDir(directory)))
  {
    var out := OutputDir(directory);
    PendingAfterMakeDirs(directory, Glob(tree, directory), out, disk);
    NothingPendingIffAllDone(directory, Glob(tree, directory), out, disk);
  }
}
