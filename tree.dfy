/** The directory tree the store works in: directories, regular files and
    symbolic links, with the effects of `create_dir_all`, `symlink_dir` /
    `symlink_file` and `remove_dir_all` (src/filesystem.rs). */
module Tree {
  import opened Common
  import opened Layout

  /** Every path that exists, by kind; a link maps to its target. */
  datatype Tree = Tree(dirs: set<Path>, files: set<Path>, links: map<Path, Path>)

  /** `path.exists()`, for the paths the store creates. */
  predicate Exists(t: Tree, p: Path)
  {
    p in t.dirs || p in t.files || p in t.links
  }

  /** The non-empty prefixes of `p`, `p` included. */
  function Ancestors(p: Path): set<Path>
  {
    set k | 1 <= k <= |p| :: p[..k]
  }

  /** `create_dir_all(p)`: `p` and every directory above it exist afterwards;
      nothing else changes. */
  function CreateDirAll(t: Tree, p: Path): (r: Tree)
    ensures r.files == t.files && r.links == t.links
  {
    t.(dirs := t.dirs + Ancestors(p))
  }

  /** The directories after `create_dir_all(p)`: the old ones and every
      non-empty prefix of `p`. */
  lemma CreateDirAllDirs(t: Tree, p: Path)
    ensures forall q :: q in CreateDirAll(t, p).dirs <==> q in t.dirs || (|q| > 0 && Under(p, q))
  {
    forall q | |q| > 0 && Under(p, q)
      ensures q in Ancestors(p)
    {
      assert q == p[..|q|];
    }
  }

  /** Creating a symbolic link at `at` fails exactly when something already
      exists there; otherwise the link is added and nothing else changes. */
  function Symlink(t: Tree, target: Path, at: Path): (r: Result<Tree>)
    ensures r.Err? <==> Exists(t, at)
    ensures r.Err? ==> r.error == LinkConflict
    ensures r.Ok? ==> r.value.dirs == t.dirs && r.value.files == t.files
    ensures r.Ok? ==> at !in t.links && r.value.links == t.links[at := target]
  {
    if Exists(t, at) then Err(LinkConflict) else Ok(t.(links := t.links[at := target]))
  }

  /** `remove_dir_all(root)` with its error ignored: everything at or below
      `root` is gone, everything else stays as it was. Links are removed,
      not followed. */
  function RemoveDirAll(t: Tree, root: Path): (r: Tree)
    ensures forall q :: q in r.dirs <==> q in t.dirs && !Under(q, root)
    ensures forall q :: q in r.files <==> q in t.files && !Under(q, root)
    ensures forall q :: q in r.links <==> q in t.links && !Under(q, root)
    ensures forall q :: q in r.links ==> r.links[q] == t.links[q]
  {
    Tree(
      set q | q in t.dirs && !Under(q, root),
      set q | q in t.files && !Under(q, root),
      map q | q in t.links && !Under(q, root) :: t.links[q])
  }

  /** The outcome of creating a run of links to one target: the tree
      afterwards, and the position of the link that failed, if one did. */
  datatype LinkRun = LinkRun(tree: Tree, failedAt: Option<nat>)

  /** How many links of the run were attempted successfully. */
  function Linked(r: LinkRun, n: nat): nat
  {
    if r.failedAt.Some? && r.failedAt.value < n then r.failedAt.value else n
  }

  /** A run's outcome seen from a longer run that attempted `n` links before it. */
  function Shift(r: LinkRun, n: nat): (s: LinkRun)
    ensures s.tree == r.tree && s.failedAt.Some? == r.failedAt.Some?
    ensures r.failedAt.Some? ==> s.failedAt.value == r.failedAt.value + n
  {
    LinkRun(r.tree, if r.failedAt.Some? then Some(r.failedAt.value + n) else None)
  }

  /** The loop shape of `build_data_symlinks_for` and `render_archive`: for
      each path in order, create its parent directories, then link it to
      `target`; stop at the first link that cannot be created. */
  function LinkEach(t: Tree, target: Path, ps: seq<LinkPath>): (r: LinkRun)
    ensures r.tree.files == t.files
    decreases |ps|
  {
    if ps == [] then LinkRun(t, None)
    else
      var t1 := CreateDirAll(t, Parent(ps[0]));
      match Symlink(t1, target, ps[0])
      case Err(_) => LinkRun(t1, Some(0))
      case Ok(t2) =>
        Shift(LinkEach(t2, target, ps[1..]), 1)
  }

  /** A run of links only adds: directories stay, and no existing link is
      replaced or retargeted. */
  lemma {:induction false} LinkEachKeeps(t: Tree, target: Path, ps: seq<LinkPath>)
    ensures t.dirs <= LinkEach(t, target, ps).tree.dirs
    ensures forall q :: q in t.links ==>
      q in LinkEach(t, target, ps).tree.links && LinkEach(t, target, ps).tree.links[q] == t.links[q]
    decreases |ps|
  {
    if ps != [] {
      var t1 := CreateDirAll(t, Parent(ps[0]));
      if !Exists(t1, ps[0]) {
        LinkEachKeeps(t1.(links := t1.links[ps[0] := target]), target, ps[1..]);
      }
    }
  }

  /** The run stops at a path that already exists when its turn comes, and a
      failure position is always one of the paths. */
  lemma {:induction false} LinkEachFailure(t: Tree, target: Path, ps: seq<LinkPath>)
    ensures var r := LinkEach(t, target, ps);
      r.failedAt.Some? ==> r.failedAt.value < |ps| && Exists(r.tree, ps[r.failedAt.value])
    decreases |ps|
  {
    if ps != [] {
      var t1 := CreateDirAll(t, Parent(ps[0]));
      if !Exists(t1, ps[0]) {
        var t2 := t1.(links := t1.links[ps[0] := target]);
        LinkEachFailure(t2, target, ps[1..]);
        assert forall i :: 0 <= i < |ps| - 1 ==> ps[1..][i] == ps[i + 1];
      }
    }
  }

  /** Every path before the failure point (every path, when none failed) is
      afterwards a link to `target`. */
  lemma {:induction false} LinkEachLinked(t: Tree, target: Path, ps: seq<LinkPath>)
    ensures var r := LinkEach(t, target, ps);
      forall i :: 0 <= i < Linked(r, |ps|) ==> ps[i] in r.tree.links && r.tree.links[ps[i]] == target
    decreases |ps|
  {
    if ps != [] {
      var t1 := CreateDirAll(t, Parent(ps[0]));
      if !Exists(t1, ps[0]) {
        var t2 := t1.(links := t1.links[ps[0] := target]);
        LinkEachLinked(t2, target, ps[1..]);
        LinkEachKeeps(t2, target, ps[1..]);
        assert forall i :: 0 <= i < |ps| - 1 ==> ps[1..][i] == ps[i + 1];
      }
    }
  }

  /** The only links a run adds are to `target`, at paths before the failure
      point: nothing after a failing link is created. */
  lemma {:induction false} LinkEachOnlyListed(t: Tree, target: Path, ps: seq<LinkPath>)
    ensures var r := LinkEach(t, target, ps);
      forall q :: q in r.tree.links && q !in t.links ==> r.tree.links[q] == target && q in ps[..Linked(r, |ps|)]
    decreases |ps|
  {
    if ps != [] {
      var t1 := CreateDirAll(t, Parent(ps[0]));
      if !Exists(t1, ps[0]) {
        var t2 := t1.(links := t1.links[ps[0] := target]);
        LinkEachOnlyListed(t2, target, ps[1..]);
        var rest := LinkEach(t2, target, ps[1..]);
        var r := LinkEach(t, target, ps);
        var n := Linked(rest, |ps| - 1);
        assert r.tree == rest.tree && Linked(r, |ps|) == n + 1;
        assert ps[..n + 1] == [ps[0]] + ps[1..][..n];
        forall q | q in rest.tree.links && q !in t.links
          ensures rest.tree.links[q] == target && q in ps[..n + 1]
        {
          if q != ps[0] {
            assert q !in t2.links;
          } else {
            LinkEachKeeps(t2, target, ps[1..]);
          }
        }
      }
    }
  }

  /** Creating the same run of links twice: the second run fails at its first
      link, because that path now exists. Aliasing is not idempotent. */
  lemma RelinkFails(t: Tree, target: Path, ps: seq<LinkPath>)
    requires |ps| > 0
    requires LinkEach(t, target, ps).failedAt.None?
    ensures LinkEach(LinkEach(t, target, ps).tree, target, ps).failedAt == Some(0)
  {
    LinkEachLinked(t, target, ps);
  }

  /** A run over `a + b` is the run over `a`, then, unless it failed, the run
      over `b` from where it left the tree. */
  lemma {:induction false} LinkEachAppend(t: Tree, target: Path, a: seq<LinkPath>, b: seq<LinkPath>)
    ensures var r1 := LinkEach(t, target, a);
      LinkEach(t, target, a + b) == if r1.failedAt.Some? then r1 else Shift(LinkEach(r1.tree, target, b), |a|)
    decreases |a|
  {
    if a == [] {
      assert a + b == b;
    } else {
      var ab := a + b;
      assert ab[0] == a[0] && ab[1..] == a[1..] + b;
      var t1 := CreateDirAll(t, Parent(a[0]));
      var s := Symlink(t1, target, a[0]);
      if s.Ok? {
        LinkEachAppend(s.value, target, a[1..], b);
      }
    }
  }

  /** `create_dir_all` of each path in turn. */
  function CreateDirs(t: Tree, ps: seq<Path>): (r: Tree)
    ensures r.files == t.files && r.links == t.links
  {
    if ps == [] then t else CreateDirAll(CreateDirs(t, ps[..|ps| - 1]), ps[|ps| - 1])
  }

  /** After creating each path in turn, the directories are the old ones and
      every non-empty prefix of a created path. */
  lemma {:induction false} CreateDirsDirs(t: Tree, ps: seq<Path>)
    ensures forall q :: q in CreateDirs(t, ps).dirs <==>
      q in t.dirs || exists i :: 0 <= i < |ps| && |q| > 0 && Under(ps[i], q)
  {
    if ps != [] {
      CreateDirsDirs(t, ps[..|ps| - 1]);
      assert forall i :: 0 <= i < |ps| - 1 ==> ps[..|ps| - 1][i] == ps[i];
    }
  }
}
