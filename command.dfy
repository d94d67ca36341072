/** The commands that drive the store (src/command.rs): reindexing from the
    record store, fetching by tag or id, and reading back by tag, id or
    query. */
module Command {
  import opened Common
  import opened Archives
  import opened Layout
  import opened Tree
  import opened StoreKeys
  import opened Search
  import opened ArchiveStore

  /** What a command writes: lines on standard error, lines on standard
      output, and the archives it hands to the output formatter. */
  datatype Report = Report(stderr: seq<string>, stdout: seq<string>, printed: seq<Archive>)

  const Quiet := Report([], [], [])

  // ---------------------------------------------------------------- reindex

  /** The record-store values for `keys`, in that order. */
  function BlobsOf(store: map<u32, Blob>, keys: seq<u32>): (rs: seq<Blob>)
    requires forall i :: 0 <= i < |keys| ==> keys[i] in store
    ensures |rs| == |keys|
    ensures forall i :: 0 <= i < |keys| ==> rs[i] == store[keys[i]]
  {
    if keys == [] then [] else [store[keys[0]]] + BlobsOf(store, keys[1..])
  }

  /** The records of the store in the order its iteration yields them. */
  function StoreRecords(store: map<u32, Blob>): seq<Blob>
  {
    BlobsOf(store, KeyOrder(store.Keys))
  }

  /** The state a reindex reaches: tree, index documents (all, and
      committed), the result, and how many records it completed. */
  datatype Reindexed = Reindexed(tree: Tree, docs: seq<Doc>, committed: seq<Doc>, result: Result<()>, done: nat)

  /** One record of the reindex loop: decode it, index it, link it; a
      failure of any of the three is the step's error. `done` is 1 exactly
      when the record was completed. */
  function ReplayOne(t: Tree, docs: seq<Doc>, committed: seq<Doc>, link: (Tree, Archive) -> Step,
                     b: Blob, fault: u32 -> IndexFault): (x: Reindexed)
    ensures x.result.Ok? <==> x.done == 1
    ensures x.done <= 1
    ensures x.result.Ok? ==> b.Cbor? && x.docs == docs + [DocOf(b.archive)] && x.committed == x.docs
    ensures x.result.Err? ==> |docs| <= |x.docs| <= |docs| + 1 && x.docs[..|docs|] == docs
    ensures b.ReadFails? ==> x.result == Err(StorageIO) && x.tree == t && x.docs == docs
    ensures b.Unreadable? ==> x.result == Err(Corrupt) && x.tree == t && x.docs == docs
  {
    match b
    case ReadFails => Reindexed(t, docs, committed, Err(StorageIO), 0)
    case Unreadable => Reindexed(t, docs, committed, Err(Corrupt), 0)
    case Cbor(a) =>
      match fault(a.id)
      case AddFails => Reindexed(t, docs, committed, Err(IndexIO), 0)
      case CommitFails => Reindexed(t, docs + [DocOf(a)], committed, Err(IndexIO), 0)
      case NoFault =>
        var ds := docs + [DocOf(a)];
        var l := link(t, a);
        if l.result.Err? then Reindexed(l.tree, ds, ds, Err(LinkConflict), 0)
        else Reindexed(l.tree, ds, ds, Ok(()), 1)
  }

  /** The reindex loop on values: each record in turn; the first error ends
      the loop. */
  function Replay(t: Tree, docs: seq<Doc>, committed: seq<Doc>, link: (Tree, Archive) -> Step,
                  rs: seq<Blob>, fault: u32 -> IndexFault)
    : (x: Reindexed)
    ensures x.done <= |rs|
    ensures x.result.Ok? ==> x.done == |rs|
    decreases |rs|
  {
    if rs == [] then Reindexed(t, docs, committed, Ok(()), 0)
    else
      var o := ReplayOne(t, docs, committed, link, rs[0], fault);
      if o.result.Err? then o
      else
        var rest := Replay(o.tree, o.docs, o.committed, link, rs[1..], fault);
        rest.(done := rest.done + 1)
  }

  /** The documents of the decodable records, in order. */
  function DocsOf(rs: seq<Blob>): seq<Doc>
  {
    if rs == [] then []
    else (if rs[0].Cbor? then [DocOf(rs[0].archive)] else []) + DocsOf(rs[1..])
  }

  lemma DocsOfSnoc(rs: seq<Blob>, b: Blob)
    ensures DocsOf(rs + [b]) == DocsOf(rs) + (if b.Cbor? then [DocOf(b.archive)] else [])
  {
    if rs == [] {
      assert rs + [b] == [b];
    } else {
      assert (rs + [b])[1..] == rs[1..] + [b];
      DocsOfSnoc(rs[1..], b);
    }
  }

  /** A reindex that completes has decoded every record and indexed each once,
      in order, after the documents already there. */
  lemma {:induction false} ReplaySuccess(t: Tree, docs: seq<Doc>, committed: seq<Doc>, link: (Tree, Archive) -> Step,
                                         rs: seq<Blob>, fault: u32 -> IndexFault)
    requires Replay(t, docs, committed, link, rs, fault).result.Ok?
    ensures forall i :: 0 <= i < |rs| ==> rs[i].Cbor?
    ensures Replay(t, docs, committed, link, rs, fault).docs == docs + DocsOf(rs)
    decreases |rs|
  {
    if rs != [] {
      var o := ReplayOne(t, docs, committed, link, rs[0], fault);
      ReplaySuccess(o.tree, o.docs, o.committed, link, rs[1..], fault);
      assert forall i :: 0 < i < |rs| ==> rs[i] == rs[1..][i - 1];
    }
  }

  /** A reindex that fails stops at one record, and every record before it
      was decodable. */
  lemma {:induction false} ReplayAborts(t: Tree, docs: seq<Doc>, committed: seq<Doc>, link: (Tree, Archive) -> Step,
                                        rs: seq<Blob>, fault: u32 -> IndexFault)
    requires Replay(t, docs, committed, link, rs, fault).result.Err?
    ensures var x := Replay(t, docs, committed, link, rs, fault);
      && x.done < |rs|
      && (forall i :: 0 <= i < x.done ==> rs[i].Cbor?)
    decreases |rs|
  {
    var x := Replay(t, docs, committed, link, rs, fault);
    var o := ReplayOne(t, docs, committed, link, rs[0], fault);
    if o.result.Ok? {
      var y := Replay(o.tree, o.docs, o.committed, link, rs[1..], fault);
      assert x == y.(done := y.done + 1);
      ReplayAborts(o.tree, o.docs, o.committed, link, rs[1..], fault);
      forall i | 0 <= i < x.done
        ensures rs[i].Cbor?
      {
        if i > 0 {
          assert rs[i] == rs[1..][i - 1];
        }
      }
    }
  }

  /** After a failed reindex, the records before the failing one were
      indexed in order, and the failing one added at most its own document. */
  lemma {:induction false} ReplayAbortsDocs(t: Tree, docs: seq<Doc>, committed: seq<Doc>, link: (Tree, Archive) -> Step,
                                            rs: seq<Blob>, fault: u32 -> IndexFault)
    requires Replay(t, docs, committed, link, rs, fault).result.Err?
    ensures var x := Replay(t, docs, committed, link, rs, fault);
      && |docs| + x.done <= |x.docs| <= |docs| + x.done + 1
      && x.docs[..|docs| + x.done] == docs + DocsOf(rs[..x.done])
    decreases |rs|
  {
    var x := Replay(t, docs, committed, link, rs, fault);
    var o := ReplayOne(t, docs, committed, link, rs[0], fault);
    if o.result.Ok? {
      var y := Replay(o.tree, o.docs, o.committed, link, rs[1..], fault);
      assert x == y.(done := y.done + 1);
      assert rs[0].Cbor? && o.docs == docs + [DocOf(rs[0].archive)];
      ReplayAbortsDocs(o.tree, o.docs, o.committed, link, rs[1..], fault);
      ReplayStepDocs(rs, y.done);
      assert o.docs + DocsOf(rs[1..][..y.done]) == docs + DocsOf(rs[..x.done]);
    } else {
      assert x == o;
      assert rs[..0] == [];
    }
  }

  /** One record more at the front adds its document at the front. */
  lemma ReplayStepDocs(rs: seq<Blob>, n: nat)
    requires n < |rs| && rs[0].Cbor?
    ensures DocsOf(rs[..n + 1]) == [DocOf(rs[0].archive)] + DocsOf(rs[1..][..n])
  {
    var p := rs[..n + 1];
    assert p[0] == rs[0];
    assert p[1..] == rs[1..][..n];
  }

  /** A record store written by `add_archive`: every value decodes and sits
      under its own id. */
  predicate KeyedById(store: map<u32, Blob>)
  {
    forall k :: k in store ==> store[k].Cbor? && store[k].archive.id == k
  }

  /** Storing an archive under its id keeps the store keyed by id. */
  lemma StoreKeepsKeyedById(store: map<u32, Blob>, a: Archive)
    requires KeyedById(store)
    ensures KeyedById(store[a.id := Cbor(a)])
  {
  }

  /** The documents of a store keyed by id carry, in order, the keys they
      were read under. */
  lemma RecordIds(store: map<u32, Blob>, keys: seq<u32>)
    requires KeyedById(store)
    requires forall i :: 0 <= i < |keys| ==> keys[i] in store
    ensures Ids(DocsOf(BlobsOf(store, keys))) == keys
  {
    var rs := BlobsOf(store, keys);
    DocsOfAllDecoded(rs);
    var ids := Ids(DocsOf(rs));
    forall i | 0 <= i < |rs|
      ensures ids[i] == keys[i]
    {
      assert rs[i] == store[keys[i]];
      DocIdRoundTrip(rs[i].archive);
    }
  }

  /** On a store keyed by id, a completed reindex indexes every stored record
      exactly once, in ascending id order. */
  lemma ReindexOrder(t: Tree, link: (Tree, Archive) -> Step, store: map<u32, Blob>, fault: u32 -> IndexFault)
    requires KeyedById(store)
    requires Replay(t, [], [], link, StoreRecords(store), fault).result.Ok?
    ensures var ids := Ids(Replay(t, [], [], link, StoreRecords(store), fault).docs);
      && (forall k :: k in store <==> k in ids)
      && (forall i, j :: 0 <= i < j < |ids| ==> ids[i] < ids[j])
  {
    var keys := KeyOrder(store.Keys);
    var rs := StoreRecords(store);
    ReplaySuccess(t, [], [], link, rs, fault);
    assert [] + DocsOf(rs) == DocsOf(rs);
    RecordIds(store, keys);
  }

  /** A reindex only indexes documents of records it reads: when those
      records' ids are keys of `store`, so are the ids of every document it
      adds, staged or committed. */
  lemma {:induction false} ReplayKeepsStored(t: Tree, docs: seq<Doc>, committed: seq<Doc>, link: (Tree, Archive) -> Step,
                                             rs: seq<Blob>, fault: u32 -> IndexFault, store: map<u32, Blob>)
    requires AllStored(docs, store) && AllStored(committed, store)
    requires forall i :: 0 <= i < |rs| && rs[i].Cbor? ==> rs[i].archive.id in store
    ensures var x := Replay(t, docs, committed, link, rs, fault);
      AllStored(x.docs, store) && AllStored(x.committed, store)
    decreases |rs|
  {
    if rs != [] {
      var o := ReplayOne(t, docs, committed, link, rs[0], fault);
      if rs[0].Cbor? {
        DocIdRoundTrip(rs[0].archive);
      }
      if o.result.Ok? {
        assert forall i :: 0 <= i < |rs| - 1 ==> rs[1..][i] == rs[i + 1];
        ReplayKeepsStored(o.tree, o.docs, o.committed, link, rs[1..], fault, store);
      }
    }
  }

  /** A reindex of a store keyed by id, from an empty index, leaves the index
      consistent with the store, whether it completes or stops early. */
  lemma ReindexConsistent(t: Tree, link: (Tree, Archive) -> Step, store: map<u32, Blob>, fault: u32 -> IndexFault)
    requires KeyedById(store)
    ensures var x := Replay(t, [], [], link, StoreRecords(store), fault);
      Consistent(StoreState(x.tree, store, x.docs, x.committed))
  {
    var keys := KeyOrder(store.Keys);
    var rs := StoreRecords(store);
    forall i | 0 <= i < |rs| && rs[i].Cbor?
      ensures rs[i].archive.id in store
    {
      assert rs[i] == store[keys[i]];
    }
    ReplayKeepsStored(t, [], [], link, rs, fault, store);
  }

  /** One reindex step only adds links: every link that existed is kept
      with its target. */
  lemma ReplayOneKeepsLinks(t: Tree, docs: seq<Doc>, committed: seq<Doc>, base: Path, b: Blob, fault: u32 -> IndexFault)
    ensures var x := ReplayOne(t, docs, committed, Linker(base), b, fault);
      forall q :: q in t.links ==> q in x.tree.links && x.tree.links[q] == t.links[q]
  {
    if b.Cbor? {
      assert Linker(base)(t, b.archive) == DataLinks(t, base, b.archive);
      LinkEachKeeps(t, DataDirOfId(base, b.archive.id), DataAliases(base, b.archive));
    }
  }

  /** A reindex never removes or retargets a link, completed or not. */
  lemma {:induction false} ReplayKeepsLinks(t: Tree, docs: seq<Doc>, committed: seq<Doc>, base: Path,
                                            rs: seq<Blob>, fault: u32 -> IndexFault)
    ensures var x := Replay(t, docs, committed, Linker(base), rs, fault);
      forall q :: q in t.links ==> q in x.tree.links && x.tree.links[q] == t.links[q]
    decreases |rs|
  {
    if rs != [] {
      var o := ReplayOne(t, docs, committed, Linker(base), rs[0], fault);
      ReplayOneKeepsLinks(t, docs, committed, base, rs[0], fault);
      if o.result.Ok? {
        ReplayKeepsLinks(o.tree, o.docs, o.committed, base, rs[1..], fault);
      }
    }
  }

  /** A completed reindex leaves every tag and artist alias of every record
      linked to that record's canonical directory. */
  lemma {:induction false} ReplayLinks(t: Tree, docs: seq<Doc>, committed: seq<Doc>, base: Path,
                                       rs: seq<Blob>, fault: u32 -> IndexFault)
    requires Replay(t, docs, committed, Linker(base), rs, fault).result.Ok?
    ensures forall i :: 0 <= i < |rs| ==> rs[i].Cbor?
    ensures var x := Replay(t, docs, committed, Linker(base), rs, fault);
      forall i, j :: 0 <= i < |rs| && 0 <= j < |DataAliases(base, rs[i].archive)| ==>
        && DataAliases(base, rs[i].archive)[j] in x.tree.links
        && x.tree.links[DataAliases(base, rs[i].archive)[j]] == DataDirOfId(base, rs[i].archive.id)
    decreases |rs|
  {
    if rs != [] {
      var o := ReplayOne(t, docs, committed, Linker(base), rs[0], fault);
      assert Linker(base)(t, rs[0].archive) == DataLinks(t, base, rs[0].archive);
      ReplayKeepsLinks(o.tree, o.docs, o.committed, base, rs[1..], fault);
      ReplayLinks(o.tree, o.docs, o.committed, base, rs[1..], fault);
      assert forall i :: 0 < i < |rs| ==> rs[i] == rs[1..][i - 1];
    }
  }

  /** On a store keyed by id, a completed reindex (as `DoReindex` runs it,
      from `ReindexStart`) links every alias of every stored archive to
      `data/by_ids/<id>`. */
  lemma ReindexLinks(t: Tree, base: Path, store: map<u32, Blob>, fault: u32 -> IndexFault)
    requires KeyedById(store)
    requires Replay(t, [], [], Linker(base), StoreRecords(store), fault).result.Ok?
    ensures var x := Replay(t, [], [], Linker(base), StoreRecords(store), fault);
      forall k, j :: k in store && 0 <= j < |DataAliases(base, store[k].archive)| ==>
        && DataAliases(base, store[k].archive)[j] in x.tree.links
        && x.tree.links[DataAliases(base, store[k].archive)[j]] == DataDirOfId(base, k)
  {
    var keys := KeyOrder(store.Keys);
    var rs := StoreRecords(store);
    ReplayLinks(t, [], [], base, rs, fault);
    forall k | k in store
      ensures exists i :: 0 <= i < |rs| && rs[i] == store[k]
    {
      var i :| 0 <= i < |keys| && keys[i] == k;
      assert rs[i] == store[k];
    }
  }

  lemma {:induction false} DocsOfAllDecoded(rs: seq<Blob>)
    requires forall i :: 0 <= i < |rs| ==> rs[i].Cbor?
    ensures |DocsOf(rs)| == |rs|
    ensures forall i :: 0 <= i < |rs| ==> DocsOf(rs)[i] == DocOf(rs[i].archive)
  {
    if rs != [] {
      assert forall i :: 0 <= i < |rs| - 1 ==> rs[1..][i] == rs[i + 1];
      DocsOfAllDecoded(rs[1..]);
    }
  }

  /** The link step of a reindex: `build_data_symlinks_for` under `base`. */
  function Linker(base: Path): (Tree, Archive) -> Step
  {
    (t, a) => DataLinks(t, base, a)
  }

  /** The tree a reindex starts from: the three resets, then `open`. */
  function ReindexStart(disk: Tree, base: Path): Tree
  {
    CreateDirs(ResetTagsDir(ResetArtistsDir(ResetTantivyDir(disk, base), base), base), LayoutDirs(base))
  }

  /** The body of the reindex loop for one record: decode, then
      `Searcher::add_archive`, then `build_symlinks_for`, each error ending
      the step. */
  method ReindexRecord(fs: FileSystem, b: Blob, fault: u32 -> IndexFault) returns (r: Result<()>)
    requires fs.Valid()
    modifies fs, fs.searcher
    ensures fs.Valid() && fs.store == old(fs.store)
    ensures var x := ReplayOne(old(fs.tree), old(fs.searcher.docs), old(fs.searcher.committed), Linker(fs.base), b, fault);
      fs.tree == x.tree && fs.searcher.docs == x.docs && fs.searcher.committed == x.committed && r == x.result
  {
    if b.ReadFails? {
      return Err(StorageIO);
    }
    if b.Unreadable? {
      return Err(Corrupt);
    }
    var a := b.archive;
    var indexed := fs.searcher.AddArchive(a, fault(a.id));
    if indexed.Err? {
      return Err(IndexIO);
    }
    assert Linker(fs.base)(fs.tree, a) == DataLinks(fs.tree, fs.base, a);
    r := fs.BuildDataSymlinksFor(a);
  }

  /** The reindex loop: every record of the store, in the store's key order. */
  method ReindexAll(fs: FileSystem, fault: u32 -> IndexFault) returns (r: Result<()>)
    requires fs.Valid()
    modifies fs, fs.searcher
    ensures fs.Valid() && fs.store == old(fs.store)
    ensures var x := Replay(old(fs.tree), old(fs.searcher.docs), old(fs.searcher.committed), Linker(fs.base),
                            StoreRecords(fs.store), fault);
      fs.tree == x.tree && fs.searcher.docs == x.docs && fs.searcher.committed == x.committed && r == x.result
  {
    var keys := KeyOrder(fs.store.Keys);
    ghost var rs := StoreRecords(fs.store);
    ghost var link := Linker(fs.base);
    ghost var x := Replay(fs.tree, fs.searcher.docs, fs.searcher.committed, link, rs, fault);
    for i := 0 to |keys|
      invariant fs.Valid() && fs.store == old(fs.store)
      invariant var y := Replay(fs.tree, fs.searcher.docs, fs.searcher.committed, link, rs[i..], fault);
        x == y.(done := y.done + i)
    {
      assert rs[i..][0] == rs[i] == fs.store[keys[i]] && rs[i..][1..] == rs[i + 1..];
      r := ReindexRecord(fs, fs.store[keys[i]], fault);
      if r.Err? {
        return;
      }
    }
    assert rs[|keys|..] == [];
    r := Ok(());
  }

  /** `do_reindex`: reset the index, artist and tag directories, open the
      store, then index and link every record in store order. The record
      store is only read. */
  method DoReindex(base: Path, disk: Tree, store: map<u32, Blob>, index: seq<Doc>, fault: u32 -> IndexFault)
    returns (r: Result<()>, fs: FileSystem)
    ensures fresh(fs) && fs.Valid()
    ensures fs.base == base && fs.store == store
    ensures var x := Replay(ReindexStart(disk, base), [], [], Linker(base), StoreRecords(store), fault);
      fs.tree == x.tree && fs.searcher.docs == x.docs && fs.searcher.committed == x.committed && r == x.result
  {
    var t := ResetTantivyDir(disk, base);
    t := ResetArtistsDir(t, base);
    t := ResetTagsDir(t, base);
    assert IndexDir(base) !in t.dirs by {
      ReindexResetSparesStore(disk, base, IndexDir(base));
      assert Under(IndexDir(base), IndexDir(base));
    }
    fs := new FileSystem.Open(base, t, store, index);
    r := ReindexAll(fs, fault);
  }

  // ----------------------------------------------------------- fetch by tag

  /** What `fetch_tag_page` gives for one page: its archives, `None` once
      the pages run out, or an error. */
  predicate IsPage(p: Result<Option<seq<Archive>>>)
  {
    p.Ok? && p.value.Some?
  }

  /** The pages eventually run out or fail; otherwise the loop would not end. */
  predicate HasEnd(pages: seq<Result<Option<seq<Archive>>>>)
  {
    exists k :: 0 <= k < |pages| && !IsPage(pages[k])
  }

  /** The first page that is not a page of archives. */
  function FirstEnd(pages: seq<Result<Option<seq<Archive>>>>): (k: nat)
    requires HasEnd(pages)
    ensures k < |pages| && !IsPage(pages[k])
    ensures forall j :: 0 <= j < k ==> IsPage(pages[j])
  {
    if !IsPage(pages[0]) then 0
    else
      assert HasEnd(pages[1..]) by {
        var k :| 0 <= k < |pages| && !IsPage(pages[k]);
        assert pages[1..][k - 1] == pages[k];
      }
      1 + FirstEnd(pages[1..])
  }

  /** The archives of the first `n` pages, in page order. */
  function Stream(pages: seq<Result<Option<seq<Archive>>>>, n: nat): seq<Archive>
    requires n <= |pages| && forall j :: 0 <= j < n ==> IsPage(pages[j])
  {
    if n == 0 then []
    else
      assert IsPage(pages[n - 1]);
      Stream(pages, n - 1) + pages[n - 1].value.value
  }

  /** A longer stream extends a shorter one. */
  lemma {:induction false} StreamExtends(pages: seq<Result<Option<seq<Archive>>>>, m: nat, n: nat)
    returns (rest: seq<Archive>)
    requires m <= n <= |pages| && forall j :: 0 <= j < n ==> IsPage(pages[j])
    ensures Stream(pages, n) == Stream(pages, m) + rest
    decreases n
  {
    if m == n {
      rest := [];
    } else {
      var r := StreamExtends(pages, m, n - 1);
      rest := r + pages[n - 1].value.value;
    }
  }

  /** The archives among `arcs` whose add returned `Ok(true)`, in order. */
  function Added(arcs: seq<Archive>, outcomes: seq<Result<bool>>): (r: seq<Archive>)
    requires |outcomes| <= |arcs|
    ensures |r| <= |outcomes|
  {
    if outcomes == [] then []
    else (if outcomes[0] == Ok(true) then [arcs[0]] else []) + Added(arcs[1..], outcomes[1..])
  }

  /** An archive is among the new ones exactly when its add returned
      `Ok(true)`. */
  lemma {:induction false} AddedMembership(arcs: seq<Archive>, outcomes: seq<Result<bool>>, a: Archive)
    requires |outcomes| <= |arcs|
    ensures a in Added(arcs, outcomes) <==> exists i :: 0 <= i < |outcomes| && outcomes[i] == Ok(true) && arcs[i] == a
  {
    if outcomes != [] {
      AddedMembership(arcs[1..], outcomes[1..], a);
      if exists i :: 0 <= i < |outcomes| && outcomes[i] == Ok(true) && arcs[i] == a {
        var i :| 0 <= i < |outcomes| && outcomes[i] == Ok(true) && arcs[i] == a;
        if i > 0 {
          assert outcomes[1..][i - 1] == outcomes[i] && arcs[1..][i - 1] == arcs[i];
        }
      }
      if exists i :: 0 <= i < |outcomes| - 1 && outcomes[1..][i] == Ok(true) && arcs[1..][i] == a {
        var i :| 0 <= i < |outcomes| - 1 && outcomes[1..][i] == Ok(true) && arcs[1..][i] == a;
        assert outcomes[i + 1] == outcomes[1..][i] && arcs[i + 1] == arcs[1..][i];
      }
    }
  }

  lemma {:induction false} AddedAppend(a1: seq<Archive>, o1: seq<Result<bool>>, a2: seq<Archive>, o2: seq<Result<bool>>)
    requires |o1| == |a1| && |o2| <= |a2|
    ensures Added(a1 + a2, o1 + o2) == Added(a1, o1) + Added(a2, o2)
  {
    if o1 == [] {
      assert a1 + a2 == a2 && o1 + o2 == o2;
    } else {
      var a12, o12 := a1 + a2, o1 + o2;
      assert a12[0] == a1[0] && o12[0] == o1[0];
      assert a12[1..] == a1[1..] + a2 && o12[1..] == o1[1..] + o2;
      AddedAppend(a1[1..], o1[1..], a2, o2);
      var head := if o1[0] == Ok(true) then [a1[0]] else [];
      assert Added(a12, o12) == head + Added(a12[1..], o12[1..]);
      assert Added(a1, o1) == head + Added(a1[1..], o1[1..]);
    }
  }

  /** `add_archive` without force, with the outside world's behaviour given
      per id. */
  function Adder(base: Path, effects: u32 -> Effects): (StoreState, Archive) -> AddOutcome
  {
    (s: StoreState, a: Archive) => AddSpec(s, base, a, false, effects(a.id))
  }

  lemma AddedSnoc(arcs: seq<Archive>, outcomes: seq<Result<bool>>, a: Archive, o: Result<bool>)
    requires |outcomes| == |arcs|
    ensures Added(arcs + [a], outcomes + [o]) == Added(arcs, outcomes) + (if o == Ok(true) then [a] else [])
  {
    AddedAppend(arcs, outcomes, [a], [o]);
    assert Added([a], [o]) == (if o == Ok(true) then [a] else []) + Added([], []);
  }

  /** The outcome list of a run ends in an error. */
  predicate Stopped(outcomes: seq<Result<bool>>)
  {
    |outcomes| > 0 && outcomes[|outcomes| - 1].Err?
  }

  /** The state and the outcomes of a run of non-forced adds. */
  datatype Run = Run(state: StoreState, outcomes: seq<Result<bool>>)

  /** Adding `arcs` one after another without force; the first error ends
      the run. `effects` gives the outside world's behaviour per id. */
  function AddRun(s: StoreState, add: (StoreState, Archive) -> AddOutcome, arcs: seq<Archive>): (x: Run)
    ensures |x.outcomes| <= |arcs|
    ensures forall i :: 0 <= i < |x.outcomes| - 1 ==> x.outcomes[i].Ok?
    ensures !Stopped(x.outcomes) ==> |x.outcomes| == |arcs|
  {
    if arcs == [] then Run(s, [])
    else
      var p := AddRun(s, add, arcs[..|arcs| - 1]);
      if Stopped(p.outcomes) then p
      else
        var a := arcs[|arcs| - 1];
        var o := add(p.state, a);
        Run(o.state, p.outcomes + [o.result])
  }

  /** A run over two lists is the run over the first, continued, unless it
      stopped, by the run over the second. */
  lemma {:induction false} AddRunAppend(s: StoreState, add: (StoreState, Archive) -> AddOutcome,
                                        xs: seq<Archive>, ys: seq<Archive>)
    ensures var p := AddRun(s, add, xs);
      AddRun(s, add, xs + ys) ==
        if Stopped(p.outcomes) then p
        else var q := AddRun(p.state, add, ys); Run(q.state, p.outcomes + q.outcomes)
    decreases |ys|
  {
    var p := AddRun(s, add, xs);
    if ys == [] {
      assert xs + ys == xs;
      assert p.outcomes + [] == p.outcomes;
    } else {
      var ys', y := ys[..|ys| - 1], ys[|ys| - 1];
      assert (xs + ys)[..|xs + ys| - 1] == xs + ys';
      assert (xs + ys)[|xs + ys| - 1] == y;
      AddRunAppend(s, add, xs, ys');
      if !Stopped(p.outcomes) {
        var q' := AddRun(p.state, add, ys');
        StoppedAfter(p.outcomes, q'.outcomes);
        assert p.outcomes + q'.outcomes + [add(q'.state, y).result]
            == p.outcomes + (q'.outcomes + [add(q'.state, y).result]);
      }
    }
  }

  /** After outcomes that did not stop, whether a run stopped depends only on
      what follows. */
  lemma StoppedAfter(a: seq<Result<bool>>, b: seq<Result<bool>>)
    requires !Stopped(a)
    ensures Stopped(a + b) == Stopped(b)
  {
    if b == [] {
      assert a + b == a;
    } else {
      assert (a + b)[|a + b| - 1] == b[|b| - 1];
    }
  }

  /** Each step of a run is `add_archive` without force on the state the
      previous steps left; an archive whose canonical directory already
      exists is skipped with `Ok(false)` and leaves the state alone. */
  lemma AddRunSkipsPresent(s: StoreState, base: Path, arcs: seq<Archive>, a: Archive, effects: u32 -> Effects)
    requires !Stopped(AddRun(s, Adder(base, effects), arcs).outcomes)
    requires Exists(AddRun(s, Adder(base, effects), arcs).state.tree, DataDirOfId(base, a.id))
    ensures var p := AddRun(s, Adder(base, effects), arcs);
      AddRun(s, Adder(base, effects), arcs + [a]) == Run(p.state, p.outcomes + [Ok(false)])
  {
    var add := Adder(base, effects);
    var p := AddRun(s, add, arcs);
    assert (arcs + [a])[..|arcs|] == arcs && (arcs + [a])[|arcs|] == a;
    assert AddRun(s, add, arcs + [a]) == Run(add(p.state, a).state, p.outcomes + [add(p.state, a).result]);
    AddSkipsPresent(p.state, base, a, effects(a.id));
    assert add(p.state, a) == AddOutcome(p.state, Ok(false));
  }

  /** The summary of a fetch by tag: a notice on standard error and the names
      of the new archives on standard output. */
  function FetchTagReport(added: seq<Archive>): (r: Report)
    ensures |added| == 0 ==> r.stderr == ["Added no new archives"] && r.stdout == []
    ensures |added| > 0 ==> r.stderr == ["Added the following new archives:"]
    ensures |r.stdout| == |added| && forall i :: 0 <= i < |added| ==> r.stdout[i] == added[i].name
  {
    if |added| == 0 then Report(["Added no new archives"], [], [])
    else Report(["Added the following new archives:"], Names(added), [])
  }

  function Names(arcs: seq<Archive>): (r: seq<string>)
    ensures |r| == |arcs| && forall i :: 0 <= i < |arcs| ==> r[i] == arcs[i].name
  {
    if arcs == [] then [] else [arcs[0].name] + Names(arcs[1..])
  }

  /** One step of a run: `add_archive` without force. */
  method AddStep(fs: FileSystem, a: Archive, effects: u32 -> Effects) returns (o: Result<bool>)
    requires fs.Valid()
    modifies fs, fs.searcher
    ensures fs.Valid()
    ensures var x := Adder(fs.base, effects)(old(fs.State()), a); fs.State() == x.state && o == x.result
  {
    o := fs.AddArchive(a, false, effects(a.id));
  }

  /** The inner loop of `FetchCommand::Tag`: add each archive of one page
      without force and remember the new ones; an error ends the loop. */
  method AddEach(fs: FileSystem, arcs: seq<Archive>, effects: u32 -> Effects)
    returns (outcomes: seq<Result<bool>>, added: seq<Archive>)
    requires fs.Valid()
    modifies fs, fs.searcher
    ensures fs.Valid()
    ensures var x := AddRun(old(fs.State()), Adder(fs.base, effects), arcs);
      fs.State() == x.state && outcomes == x.outcomes
    ensures !Stopped(outcomes) ==> added == Added(arcs, outcomes)
  {
    ghost var s0 := fs.State();
    ghost var add := Adder(fs.base, effects);
    outcomes := [];
    added := [];
    for j := 0 to |arcs|
      invariant fs.Valid()
      invariant fs.State() == AddRun(s0, add, arcs[..j]).state
      invariant outcomes == AddRun(s0, add, arcs[..j]).outcomes
      invariant !Stopped(outcomes) && added == Added(arcs[..j], outcomes)
    {
      RunStep(s0, add, arcs, j, added);
      var o := AddStep(fs, arcs[j], effects);
      outcomes := outcomes + [o];
      if o.Err? {
        return;
      }
      if o == Ok(true) {
        added := added + [arcs[j]];
      }
    }
    assert arcs[..|arcs|] == arcs;
  }

  /** One step of the inner loop, on values: the run over one archive more
      adds its outcome, extends the new archives when that outcome is `true`,
      and, when it is an error, is already the run over the whole page. */
  lemma RunStep(s0: StoreState, add: (StoreState, Archive) -> AddOutcome, arcs: seq<Archive>, j: nat,
                added: seq<Archive>)
    requires j < |arcs|
    requires !Stopped(AddRun(s0, add, arcs[..j]).outcomes)
    requires added == Added(arcs[..j], AddRun(s0, add, arcs[..j]).outcomes)
    ensures var p := AddRun(s0, add, arcs[..j]);
      var o := add(p.state, arcs[j]);
      && AddRun(s0, add, arcs[..j + 1]) == Run(o.state, p.outcomes + [o.result])
      && (o.result.Ok? ==> !Stopped(p.outcomes + [o.result]))
      && (o.result.Ok? ==> Added(arcs[..j + 1], p.outcomes + [o.result]) == added + (if o.result == Ok(true) then [arcs[j]] else []))
      && (o.result.Err? ==> AddRun(s0, add, arcs) == Run(o.state, p.outcomes + [o.result]))
  {
    var p := AddRun(s0, add, arcs[..j]);
    var o := add(p.state, arcs[j]);
    assert arcs[..j + 1][..j] == arcs[..j] && arcs[..j + 1][j] == arcs[j];
    AddedSnoc(arcs[..j], p.outcomes, arcs[j], o.result);
    assert arcs[..j] + [arcs[j]] == arcs[..j + 1];
    if o.result.Err? {
      AddRunAppend(s0, add, arcs[..j + 1], arcs[j + 1..]);
      assert arcs[..j + 1] + arcs[j + 1..] == arcs;
    }
  }

  /** `FetchCommand::Tag`: request pages 1, 2, ... until one is empty, add
      each archive without forcing, and remember the ones that were new. An
      error from a page or from an add ends the command with that error. */
  method FetchTag(fs: FileSystem, pages: seq<Result<Option<seq<Archive>>>>, effects: u32 -> Effects)
    returns (r: Result<()>, outcomes: seq<Result<bool>>, report: Report)
    requires fs.Valid() && HasEnd(pages)
    modifies fs, fs.searcher
    ensures fs.Valid()
    ensures var all := Stream(pages, FirstEnd(pages));
      var x := AddRun(old(fs.State()), Adder(fs.base, effects), all);
      && fs.State() == x.state && outcomes == x.outcomes
      && (r.Ok? <==> !Stopped(outcomes) && pages[FirstEnd(pages)] == Ok(None))
      && (r.Ok? ==> report == FetchTagReport(Added(all, outcomes)))
      && (r.Err? ==> report == Quiet)
      && (Stopped(outcomes) ==> r == Err(outcomes[|outcomes| - 1].error))
      && (!Stopped(outcomes) && r.Err? ==> pages[FirstEnd(pages)] == Err(r.error))
  {
    var end := FirstEnd(pages);
    ghost var s0 := fs.State();
    ghost var all: seq<Archive> := [];
    var added: seq<Archive> := [];
    outcomes := [];
    for p := 0 to end
      invariant fs.Valid()
      invariant all == Stream(pages, p)
      invariant var x := AddRun(s0, Adder(fs.base, effects), all);
        fs.State() == x.state && outcomes == x.outcomes
      invariant !Stopped(outcomes) && added == Added(all, outcomes)
    {
      var page := pages[p].value.value;
      var os, news := AddEach(fs, page, effects);
      AddRunAppend(s0, Adder(fs.base, effects), all, page);
      AddedAppend(all, outcomes, page, os);
      all := all + page;
      outcomes := outcomes + os;
      if Stopped(os) {
        assert Stopped(outcomes) by {
          assert outcomes[|outcomes| - 1] == os[|os| - 1];
        }
        var rest := StreamExtends(pages, p + 1, end);
        AddRunAppend(s0, Adder(fs.base, effects), all, rest);
        return Err(os[|os| - 1].error), outcomes, Quiet;
      }
      assert !Stopped(outcomes) by {
        if os != [] {
          assert outcomes[|outcomes| - 1] == os[|os| - 1];
        }
      }
      added := added + news;
    }
    if pages[end].Err? {
      return Err(pages[end].error), outcomes, Quiet;
    }
    r := Ok(());
    report := FetchTagReport(added);
  }

  /** The new archives reported by a fetch by tag are exactly the archives
      of the pages whose add returned `true`. */
  lemma FetchTagReportsNew(s: StoreState, add: (StoreState, Archive) -> AddOutcome,
                           pages: seq<Result<Option<seq<Archive>>>>, a: Archive)
    requires HasEnd(pages)
    ensures var all := Stream(pages, FirstEnd(pages));
      var x := AddRun(s, add, all);
      a in Added(all, x.outcomes) <==> exists i :: 0 <= i < |x.outcomes| && x.outcomes[i] == Ok(true) && all[i] == a
  {
    var all := Stream(pages, FirstEnd(pages));
    AddedMembership(all, AddRun(s, add, all).outcomes, a);
  }

  // ------------------------------------------------------------ fetch by id

  /** The messages of `FetchCommand::Id` after an add that returned `added`.
      As written, the "already downloaded" notice follows an add that did
      download, and the "new archive" lines follow one that did not. */
  function FetchIdReport(a: Archive, added: bool): (r: Report)
    ensures (r.stderr == ["Archive was already downloaded"]) <==> added
    ensures !added ==> r.stderr == ["Added the following new archive:"] && r.stdout == [a.name]
    ensures added ==> r.stdout == []
  {
    if added then Report(["Archive was already downloaded"], [], [])
    else Report(["Added the following new archive:"], [a.name], [])
  }

  /** `FetchCommand::Id`: fetch the archive's metadata, add it without
      forcing, and report. */
  method FetchId(fs: FileSystem, fetched: Result<Archive>, e: Effects) returns (r: Result<()>, report: Report)
    requires fs.Valid()
    modifies fs, fs.searcher
    ensures fs.Valid()
    ensures fetched.Err? ==> r == Err(fetched.error) && report == Quiet && fs.State() == old(fs.State())
    ensures fetched.Ok? ==>
      var x := AddSpec(old(fs.State()), fs.base, fetched.value, false, e);
      && fs.State() == x.state
      && (x.result.Err? ==> r == Err(x.result.error) && report == Quiet)
      && (x.result.Ok? ==> r == Ok(()) && report == FetchIdReport(fetched.value, x.result.value))
  {
    if fetched.Err? {
      return Err(fetched.error), Quiet;
    }
    var a := fetched.value;
    var o := fs.AddArchive(a, false, e);
    if o.Err? {
      return Err(o.error), Quiet;
    }
    r := Ok(());
    report := FetchIdReport(a, o.value);
  }

  /** As written, fetching an archive that is already present reports it as
      newly added, and a fresh download reports it as already present. */
  lemma FetchIdMessageInverted(s: StoreState, base: Path, a: Archive, e: Effects)
    ensures Exists(s.tree, DataDirOfId(base, a.id)) ==>
      FetchIdReport(a, AddSpec(s, base, a, false, e).result.value).stderr == ["Added the following new archive:"]
    ensures AddSpec(s, base, a, false, e).result == Ok(true) ==>
      FetchIdReport(a, true).stderr == ["Archive was already downloaded"]
  {
  }

  // ------------------------------------------------------------------- get

  /** The notice for an empty result; an empty result is not an error. */
  function NothingFound(found: seq<Archive>): (lines: seq<string>)
    ensures |found| == 0 <==> lines == ["Nothing found :("]
    ensures |found| > 0 <==> lines == []
  {
    if |found| == 0 then ["Nothing found :("] else []
  }

  /** `GetCommand::Tag`: the archives carrying every tag, each printed; an
      index read error is passed on and prints nothing. */
  method GetTag(fs: FileSystem, tags: seq<string>, fault: ReadFault) returns (r: Result<()>, report: Report)
    ensures var hits := Filter(fs.searcher.committed, d => HasAllTags(d, tags));
      var found := FetchInner(fs.store, Ids(hits));
      && (r.Ok? <==> ReadsAll(fault, |hits|))
      && (r.Ok? ==> report == Report(NothingFound(found), [], found))
      && (r.Err? ==> r.error == IndexIO && report == Quiet)
  {
    var docs := fs.WithAllTags(tags, fault);
    if docs.Err? {
      return Err(docs.error), Quiet;
    }
    r := Ok(());
    report := Report(NothingFound(docs.value), [], docs.value);
  }

  /** `GetCommand::Id`: the record, or the lookup error. */
  method GetId(fs: FileSystem, id: u32) returns (r: Result<()>, report: Report)
    ensures id !in fs.store ==> r == Err(NotFound) && report == Quiet
    ensures id in fs.store && fs.store[id].ReadFails? ==> r == Err(StorageIO) && report == Quiet
    ensures id in fs.store && fs.store[id].Unreadable? ==> r == Err(Corrupt) && report == Quiet
    ensures id in fs.store && fs.store[id].Cbor? ==> r == Ok(()) && report == Report([], [], [fs.store[id].archive])
  {
    var doc := FetchDoc(fs.store, id);
    if doc.Err? {
      return Err(doc.error), Quiet;
    }
    r := Ok(());
    report := Report([], [], [doc.value]);
  }

  /** The field choices of the command line. */
  datatype IndexType = NameIndex | ArtistIndex | ParodyIndex | TagIndex

  /** `IndexType::str`. */
  function IndexName(t: IndexType): (name: string)
    ensures name in SchemaNames && name != "id"
  {
    match t
    case NameIndex => "name"
    case ArtistIndex => "artist"
    case ParodyIndex => "parody"
    case TagIndex => "tag"
  }

  /** Distinct choices select distinct fields. */
  lemma IndexNameInjective(s: IndexType, t: IndexType)
    requires IndexName(s) == IndexName(t)
    ensures s == t
  {
  }

  function IndexNames(ts: seq<IndexType>): (names: seq<string>)
    ensures |names| == |ts|
    ensures forall i :: 0 <= i < |ts| ==> names[i] == IndexName(ts[i]) && names[i] in SchemaNames
  {
    if ts == [] then [] else [IndexName(ts[0])] + IndexNames(ts[1..])
  }

  /** `GetCommand::Search`: the command line only offers schema fields, so
      the field lookup of the search cannot fail; a query or index read error
      is passed on and prints nothing, an empty result is reported. */
  method GetSearch(fs: FileSystem, query: string, indexes: seq<IndexType>, max: Option<nat>, lang: QueryLanguage,
                   fault: ReadFault)
    returns (r: Result<()>, report: Report)
    ensures fault == ReaderFails ==> r == Err(IndexIO) && report == Quiet
    ensures var fields := FieldsNamed(IndexNames(indexes));
      var hits := Limit(Filter(fs.searcher.committed, d => lang.matches(query, fields, d)), max);
      var found := FetchInner(fs.store, Ids(hits));
      fault != ReaderFails ==>
        && (!lang.parses(query, fields) ==> r == Err(InvalidQuery) && report == Quiet)
        && (lang.parses(query, fields) ==>
              && (r.Ok? <==> ReadsAll(fault, |hits|))
              && (r.Ok? ==> report == Report(NothingFound(found), [], found))
              && (r.Err? ==> r.error == IndexIO && report == Quiet))
  {
    var docs := fs.Search(query, IndexNames(indexes), max, lang, fault);
    if docs.Err? {
      return Err(docs.error), Quiet;
    }
    r := Ok(());
    report := Report(NothingFound(docs.value), [], docs.value);
  }
}
