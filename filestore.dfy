/** The part of the file system the pipeline writes to: file contents by path
    and the set of directories. `Disk` is its value; `Store` holds it as the
    mutable state that `mkdir` and `write_text` update in place. */
module FileStore {
  import opened Paths

  /** Every non-empty prefix of p: the directories `mkdir(parents=True)`
      creates. */
  function Ancestors(p: Path): (a: set<Path>)
    ensures forall q :: q in a ==> 0 < |q| <= |p| && q == p[..|q|]
    ensures p != [] ==> p in a
  {
    assert p != [] ==> p == p[..|p|];
    set i | 1 <= i <= |p| :: p[..i]
  }

  datatype Disk = Disk(files: map<Path, string>, dirs: set<Path>) {
    /** `Path.exists()`: a file or a directory is there. */
    predicate Exists(p: Path) {
      p in files || p in dirs
    }

    /** `mkdir(parents=True, exist_ok=True)`. */
    function MakeDirs(p: Path): (d: Disk)
      ensures d.files == files
      ensures forall q :: Exists(q) ==> d.Exists(q)
      ensures forall q :: |q| > |p| ==> (d.Exists(q) <==> Exists(q))
    {
      Disk(files, dirs + Ancestors(p))
    }

    /** `write_text`: creates or overwrites one file. */
    function Write(p: Path, text: string): (d: Disk)
      ensures d.dirs == dirs && p in d.files && d.files[p] == text
      ensures forall q :: q != p ==> (q in d.files <==> q in files)
      ensures forall q :: q != p && q in files ==> d.files[q] == files[q]
    {
      Disk(files[p := text], dirs)
    }
  }

  /** `Disk` a is contained in `Disk` b: b holds every file and directory
      of a, files possibly with other contents. */
  predicate Grows(a: Disk, b: Disk) {
    a.files.Keys <= b.files.Keys && a.dirs <= b.dirs
  }

  class Store {
    var files: map<Path, string>
    var dirs: set<Path>

    constructor (initial: Disk)
      ensures State() == initial
    {
      files := initial.files;
      dirs := initial.dirs;
    }

    function State(): Disk
      reads this
    {
      Disk(files, dirs)
    }

    predicate Exists(p: Path)
      reads this
    {
      State().Exists(p)
    }

    method MakeDirs(p: Path)
      modifies this
      ensures State() == old(State()).MakeDirs(p)
    {
      dirs := dirs + Ancestors(p);
    }

    method WriteText(p: Path, text: string)
      modifies this
      ensures State() == old(State()).Write(p, text)
    {
      files := files[p := text];
    }
  }
}
