/** `list_directories` of async_processing.py: every directory below a root,
    collected from the top-down entries of `os.walk`. The input tree is a
    value; `os.walk` is the function `Walk` over it. */
module DirWalk {
  import opened Paths

  /** A directory: its file names in listing order and its sub-directories. */
  datatype Dir = Dir(name: string, files: seq<string>, subdirs: seq<Dir>)

  /** One `(dirpath, dirnames, filenames)` triple of `os.walk`, without the
      file names. */
  datatype Entry = Entry(dirpath: Path, dirnames: seq<string>)

  function Names(kids: seq<Dir>): (names: seq<string>)
    ensures |names| == |kids|
    ensures forall i :: 0 <= i < |kids| ==> names[i] == kids[i].name
  {
    seq(|kids|, i requires 0 <= i < |kids| => kids[i].name)
  }

  /** `os.walk(path)` top-down: the directory's own entry, then the walk of
      each sub-directory in listing order. */
  function Walk(path: Path, node: Dir): seq<Entry>
    decreases node, 1
  {
    [Entry(path, Names(node.subdirs))] + WalkAll(path, node.subdirs)
  }

  function WalkAll(path: Path, kids: seq<Dir>): seq<Entry>
    decreases kids, 0
  {
    if kids == [] then []
    else Walk(path + [kids[0].name], kids[0]) + WalkAll(path, kids[1..])
  }

  /** `os.path.join(dirpath, name)` for every name of one entry. */
  function JoinEach(dirpath: Path, names: seq<string>): (paths: seq<Path>)
    ensures |paths| == |names|
    ensures forall j :: 0 <= j < |names| ==> paths[j] == dirpath + [names[j]]
  {
    seq(|names|, j requires 0 <= j < |names| => dirpath + [names[j]])
  }

  /** The paths the nested loop appends, entry by entry. */
  function Joined(entries: seq<Entry>): seq<Path>
    decreases |entries|
  {
    if entries == [] then []
    else
      var last := entries[|entries| - 1];
      Joined(entries[..|entries| - 1]) + JoinEach(last.dirpath, last.dirnames)
  }

  /** The directory `rel` (a list of names) can be reached from node by
      descending through sub-directories; [] reaches node itself. */
  predicate Reaches(node: Dir, rel: seq<string>)
    decreases node
  {
    rel == [] ||
    exists k :: 0 <= k < |node.subdirs| && node.subdirs[k].name == rel[0]
                && Reaches(node.subdirs[k], rel[1..])
  }

  /** `list_directories(root)`: for each `(dirpath, dirnames, _)` of
      `os.walk(root)`, for each name in dirnames, append the joined path. */
  method ListDirectories(root: Path, tree: Dir) returns (directories: seq<Path>)
    ensures directories == Joined(Walk(root, tree))
  {
    var entries := Walk(root, tree);
    directories := [];
    var i := 0;
    while i < |entries|
      invariant 0 <= i <= |entries|
      invariant directories == Joined(entries[..i])
    {
      var entry := entries[i];
      var j := 0;
      while j < |entry.dirnames|
        invariant 0 <= j <= |entry.dirnames|
        invariant directories == Joined(entries[..i]) + JoinEach(entry.dirpath, entry.dirnames[..j])
      {
        directories := directories + [entry.dirpath + [entry.dirnames[j]]];
        assert JoinEach(entry.dirpath, entry.dirnames[..j + 1])
            == JoinEach(entry.dirpath, entry.dirnames[..j]) + [entry.dirpath + [entry.dirnames[j]]];
        j := j + 1;
      }
      assert entry.dirnames[..j] == entry.dirnames;
      assert entries[..i + 1][..i] == entries[..i];
      i := i + 1;
    }
    assert entries[..i] == entries;
  }

  lemma {:induction false} JoinedAppend(a: seq<Entry>, b: seq<Entry>)
    ensures Joined(a + b) == Joined(a) + Joined(b)
    decreases |b|
  {
    var c := a + b;
    if b == [] {
      assert c == a;
    } else {
      var last := b[|b| - 1];
      assert c[..|c| - 1] == a + b[..|b| - 1];
      assert c[|c| - 1] == last;
      JoinedAppend(a, b[..|b| - 1]);
      assert Joined(c) == Joined(a + b[..|b| - 1]) + JoinEach(last.dirpath, last.dirnames);
      assert Joined(b) == Joined(b[..|b| - 1]) + JoinEach(last.dirpath, last.dirnames);
    }
  }

  lemma JoinedSingle(e: Entry)
    ensures Joined([e]) == JoinEach(e.dirpath, e.dirnames)
  {
    assert [e][..0] == [];
  }

  /** The paths listed under a sub-directory list: exactly those listed
      under one of the sub-directories. */
  lemma {:induction false} ListedUnderKids(path: Path, kids: seq<Dir>, p: Path)
    ensures p in Joined(WalkAll(path, kids))
        <==> exists k :: 0 <= k < |kids| && p in Joined(Walk(path + [kids[k].name], kids[k]))
    decreases kids
  {
    if kids != [] {
      var first := Walk(path + [kids[0].name], kids[0]);
      JoinedAppend(first, WalkAll(path, kids[1..]));
      ListedUnderKids(path, kids[1..], p);
      if p in Joined(WalkAll(path, kids)) && p !in Joined(first) {
        var k :| 0 <= k < |kids[1..]| && p in Joined(Walk(path + [kids[1..][k].name], kids[1..][k]));
        assert kids[1..][k] == kids[k + 1];
      }
      if exists k :: 0 <= k < |kids| && p in Joined(Walk(path + [kids[k].name], kids[k])) {
        var k :| 0 <= k < |kids| && p in Joined(Walk(path + [kids[k].name], kids[k]));
        if k > 0 {
          assert kids[1..][k - 1] == kids[k];
        }
      }
    }
  }

  /** The paths listed below one directory: its sub-directories, then
      whatever is listed below each of them. */
  lemma ListedUnderNode(path: Path, node: Dir)
    ensures Joined(Walk(path, node))
         == JoinEach(path, Names(node.subdirs)) + Joined(WalkAll(path, node.subdirs))
  {
    JoinedAppend([Entry(path, Names(node.subdirs))], WalkAll(path, node.subdirs));
    JoinedSingle(Entry(path, Names(node.subdirs)));
  }

  /** `list_directories(root)` lists exactly the directories strictly below
      root, each as root joined with the names leading to it; root itself is
      never listed. */
  lemma ListedIffBelow(root: Path, tree: Dir, p: Path)
    ensures p in Joined(Walk(root, tree))
        <==> |p| > |root| && p[..|root|] == root && Reaches(tree, p[|root|..])
  {
    if p in Joined(Walk(root, tree)) {
      ListedIsBelow(root, tree, p);
    }
    if |p| > |root| && p[..|root|] == root && Reaches(tree, p[|root|..]) {
      BelowIsListed(root, tree, p);
    }
  }

  lemma {:induction false} ListedIsBelow(root: Path, tree: Dir, p: Path)
    requires p in Joined(Walk(root, tree))
    ensures |p| > |root| && p[..|root|] == root && Reaches(tree, p[|root|..])
    decreases tree
  {
    ListedUnderNode(root, tree);
    ListedUnderKids(root, tree.subdirs, p);
    var kids := tree.subdirs;
    if p in JoinEach(root, Names(kids)) {
      ChildIsBelow(root, tree, p);
    } else {
      var k :| 0 <= k < |kids| && p in Joined(Walk(root + [kids[k].name], kids[k]));
      ListedIsBelow(root + [kids[k].name], kids[k], p);
      BelowKidIsBelow(root, tree, k, p);
    }
  }

  /** A sub-directory of the root is below it, one name down. */
  lemma ChildIsBelow(root: Path, tree: Dir, p: Path)
    requires p in JoinEach(root, Names(tree.subdirs))
    ensures |p| > |root| && p[..|root|] == root && Reaches(tree, p[|root|..])
  {
    var kids := tree.subdirs;
    var children := JoinEach(root, Names(kids));
    var k :| 0 <= k < |children| && children[k] == p;
    var rel := p[|root|..];
    assert rel == [kids[k].name];
    assert Reaches(kids[k], rel[1..]);
    assert kids[k].name == rel[0];
  }

  /** What is below a sub-directory is below the root. */
  lemma BelowKidIsBelow(root: Path, tree: Dir, k: nat, p: Path)
    requires k < |tree.subdirs|
    requires var sub := root + [tree.subdirs[k].name];
             |p| > |sub| && p[..|sub|] == sub && Reaches(tree.subdirs[k], p[|sub|..])
    ensures |p| > |root| && p[..|root|] == root && Reaches(tree, p[|root|..])
  {
    StepDown(root, tree.subdirs[k].name, p);
    var rel := p[|root|..];
    assert tree.subdirs[k].name == rel[0] && Reaches(tree.subdirs[k], rel[1..]);
  }

  /** Below root + [name] means below root, one name further down. */
  lemma StepDown(root: Path, name: string, p: Path)
    requires |p| > |root| + 1 && p[..|root| + 1] == root + [name]
    ensures p[..|root|] == root
    ensures p[|root|..][0] == name && p[|root|..][1..] == p[|root| + 1..]
  {
    assert p[..|root|] == p[..|root| + 1][..|root|];
  }

  lemma {:induction false} BelowIsListed(root: Path, tree: Dir, p: Path)
    requires |p| > |root| && p[..|root|] == root && Reaches(tree, p[|root|..])
    ensures p in Joined(Walk(root, tree))
    decreases tree
  {
    ListedUnderNode(root, tree);
    var kids := tree.subdirs;
    var children := JoinEach(root, Names(kids));
    var rel := p[|root|..];
    assert p == root + rel;
    var k :| 0 <= k < |kids| && kids[k].name == rel[0] && Reaches(kids[k], rel[1..]);
    var sub := root + [kids[k].name];
    if |p| == |sub| {
      assert rel == [rel[0]];
      assert children[k] == p;
    } else {
      assert p[..|sub|] == sub;
      assert p[|sub|..] == rel[1..];
      BelowIsListed(sub, kids[k], p);
      ListedUnderKids(root, kids, p);
    }
  }
}
