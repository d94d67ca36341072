/** The local archive store (src/filesystem.rs, `FileSystem`): the directory
    tree under the base directory, the record store keyed by id, and the
    search index, with the operations that add, link, render and look up
    archives. */
module ArchiveStore {
  import opened Common
  import opened Archives
  import opened Layout
  import opened Tree
  import opened Search

  /** A record-store value: the serialised archive, bytes that do not
      decode (damage from outside; the store itself only writes `Cbor`), or
      a record whose read fails with an I/O error of the store. */
  datatype Blob = Cbor(archive: Archive) | Unreadable | ReadFails

  /** How PDF generation ends: the file written, the file not created, or the
      file created and then a page image or the save failing. */
  datatype PdfOutcome = Rendered | CreateFailed | WriteFailed

  /** What the outside world does during one `add_archive`: the download
      response and whether its bytes open as a zip, whether extraction
      works, how rendering ends, whether the record-store insert works, and
      what the index writer does. */
  datatype Effects = Effects(
    response: Response,
    isZip: seq<byte> -> bool,
    extractOk: bool,
    pdf: PdfOutcome,
    storeOk: bool,
    index: IndexFault)

  /** `reset_tantivy_dir`: remove `meta/tantivy/`, ignoring errors. */
  function ResetTantivyDir(t: Tree, base: Path): (r: Tree)
    ensures forall q :: Exists(r, q) <==> Exists(t, q) && !Under(q, IndexDir(base))
  {
    RemoveDirAll(t, IndexDir(base))
  }

  /** `reset_tags_dir`: remove `data/by_tags/`, ignoring errors. */
  function ResetTagsDir(t: Tree, base: Path): (r: Tree)
    ensures forall q :: Exists(r, q) <==> Exists(t, q) && !Under(q, DataTagDir(base))
  {
    RemoveDirAll(t, DataTagDir(base))
  }

  /** `reset_artists_dir`: remove `data/by_artist/`, ignoring errors. */
  function ResetArtistsDir(t: Tree, base: Path): (r: Tree)
    ensures forall q :: Exists(r, q) <==> Exists(t, q) && !Under(q, DataArtistDir(base))
  {
    RemoveDirAll(t, DataArtistDir(base))
  }

  /** `reset_rendered_dir`: remove `rendered/by_tags/` and `rendered/by_artist/`. */
  function ResetRenderedDir(t: Tree, base: Path): (r: Tree)
    ensures forall q :: Exists(r, q) <==>
      Exists(t, q) && !Under(q, RenderedTagDir(base)) && !Under(q, RenderedArtistDir(base))
  {
    RemoveDirAll(RemoveDirAll(t, RenderedTagDir(base)), RenderedArtistDir(base))
  }

  /** The resets of a reindex (index, artists, tags) leave the record store
      and the canonical directories exactly as they were, and remove the
      three subtrees completely. */
  lemma ReindexResetSparesStore(t: Tree, base: Path, p: Path)
    ensures var r := ResetTagsDir(ResetArtistsDir(ResetTantivyDir(t, base), base), base);
      (Under(p, SledDir(base)) || Under(p, DataIdDir(base))) ==>
        && (p in r.dirs <==> p in t.dirs)
        && (p in r.files <==> p in t.files)
        && (p in r.links <==> p in t.links)
        && (p in r.links ==> r.links[p] == t.links[p])
    ensures var r := ResetTagsDir(ResetArtistsDir(ResetTantivyDir(t, base), base), base);
      (Under(p, IndexDir(base)) || Under(p, DataTagDir(base)) || Under(p, DataArtistDir(base))) ==>
        !Exists(r, p)
  {
    if Under(p, SledDir(base)) || Under(p, DataIdDir(base)) {
      ResetRootsSpareStore(base, p);
    }
  }

  /** Resetting the rendered views keeps the PDFs under `rendered/by_ids/`. */
  lemma ResetRenderedKeepsPdfs(t: Tree, base: Path, id: u32)
    ensures RenderedFileOfId(base, id) in ResetRenderedDir(t, base).files <==> RenderedFileOfId(base, id) in t.files
  {
    var f := RenderedFileOfId(base, id);
    assert f[|base| + 1] != RenderedTagDir(base)[|base| + 1];
    assert f[|base| + 1] != RenderedArtistDir(base)[|base| + 1];
  }

  /** A tree together with the result of the step that produced it. */
  datatype Step = Step(tree: Tree, result: Result<()>)

  /** A link run's result as the source reports it. */
  function Outcome(run: LinkRun): (r: Result<()>)
    ensures r.Ok? <==> run.failedAt.None?
    ensures r.Err? ==> r.error == LinkConflict
  {
    if run.failedAt.None? then Ok(()) else Err(LinkConflict)
  }

  /** The tag aliases of an archive under `dirOfTag`, one per tag in order. */
  function TagAliases(dirOfTag: string -> Path, tags: seq<Tag>, a: Archive, pdf: bool): (ps: seq<LinkPath>)
    ensures |ps| == |tags|
    ensures forall i :: 0 <= i < |tags| ==>
      ps[i] == Push(dirOfTag(tags[i].name), if pdf then NameIdPdf(a) else NameId(a))
  {
    if tags == [] then []
    else
      AliasNonEmpty(dirOfTag(tags[0].name), a);
      [Push(dirOfTag(tags[0].name), if pdf then NameIdPdf(a) else NameId(a))]
        + TagAliases(dirOfTag, tags[1..], a, pdf)
  }

  /** The links `build_data_symlinks_for` creates, in its order: one per tag
      under `data/by_tags/`, then the artist link under `data/by_artist/`. */
  function DataAliases(base: Path, a: Archive): (ps: seq<LinkPath>)
    ensures |ps| == |a.tags| + 1
    ensures forall i :: 0 <= i < |a.tags| ==> ps[i] == DataDirForArchiveByTag(base, a.tags[i].name, a)
    ensures ps[|a.tags|] == DataDirForArchiveByArtist(base, a)
  {
    AliasNonEmpty(DataDirOfArtist(base, a.artist), a);
    TagAliases(tag => DataDirOfTag(base, tag), a.tags, a, false) + [DataDirForArchiveByArtist(base, a)]
  }

  /** The links `render_archive` creates, in its order: one per tag under
      `rendered/by_tags/`, then the artist link under `rendered/by_artist/`. */
  function RenderedAliases(base: Path, a: Archive): (ps: seq<LinkPath>)
    ensures |ps| == |a.tags| + 1
    ensures forall i :: 0 <= i < |a.tags| ==> ps[i] == RenderedFileForArchiveByTag(base, a.tags[i].name, a)
    ensures ps[|a.tags|] == RenderedFileForArchiveByArtist(base, a)
  {
    AliasNonEmpty(RenderedDirOfArtist(base, a.artist), a);
    TagAliases(tag => RenderedDirOfTag(base, tag), a.tags, a, true) + [RenderedFileForArchiveByArtist(base, a)]
  }

  /** `build_data_symlinks_for` on a tree. */
  function DataLinks(t: Tree, base: Path, a: Archive): (s: Step)
    ensures s.tree.files == t.files
    ensures s.result.Err? ==> s.result.error == LinkConflict
    ensures s.result.Ok? ==> forall i :: 0 <= i < |DataAliases(base, a)| ==>
      DataAliases(base, a)[i] in s.tree.links && s.tree.links[DataAliases(base, a)[i]] == DataDirOfId(base, a.id)
  {
    var run := LinkEach(t, DataDirOfId(base, a.id), DataAliases(base, a));
    LinkEachLinked(t, DataDirOfId(base, a.id), DataAliases(base, a));
    Step(run.tree, Outcome(run))
  }

  /** The first half of `render_archive`: when no PDF exists at the rendered
      path, its directory is created and the PDF generated. */
  function PdfStage(t: Tree, base: Path, a: Archive, pdf: PdfOutcome): (s: Step)
    ensures Exists(t, RenderedFileOfId(base, a.id)) ==> s == Step(t, Ok(()))
    ensures !Exists(t, RenderedFileOfId(base, a.id)) ==>
      && (s.result.Ok? <==> pdf == Rendered)
      && (s.result.Err? ==> s.result.error == RenderFailed)
      && (RenderedFileOfId(base, a.id) in s.tree.files <==> pdf != CreateFailed)
  {
    var file := RenderedFileOfId(base, a.id);
    if Exists(t, file) then Step(t, Ok(()))
    else
      var t1 := CreateDirAll(t, Parent(file));
      match pdf
      case CreateFailed => Step(t1, Err(RenderFailed))
      case WriteFailed => Step(t1.(files := t1.files + {file}), Err(RenderFailed))
      case Rendered => Step(t1.(files := t1.files + {file}), Ok(()))
  }

  /** `render_archive` on a tree: the PDF stage, then, unless it failed, the
      rendered aliases linked to the PDF. */
  function RenderStep(t: Tree, base: Path, a: Archive, pdf: PdfOutcome): (s: Step)
    ensures t.files <= s.tree.files
    ensures s.result.Err? ==> s.result.error == RenderFailed || s.result.error == LinkConflict
    ensures s.result.Ok? ==> Exists(s.tree, RenderedFileOfId(base, a.id))
    ensures s.result.Ok? ==> forall i :: 0 <= i < |RenderedAliases(base, a)| ==>
      RenderedAliases(base, a)[i] in s.tree.links && s.tree.links[RenderedAliases(base, a)[i]] == RenderedFileOfId(base, a.id)
  {
    var p := PdfStage(t, base, a, pdf);
    if p.result.Err? then p
    else
      var run := LinkEach(p.tree, RenderedFileOfId(base, a.id), RenderedAliases(base, a));
      LinkEachLinked(p.tree, RenderedFileOfId(base, a.id), RenderedAliases(base, a));
      LinkEachKeeps(p.tree, RenderedFileOfId(base, a.id), RenderedAliases(base, a));
      Step(run.tree, Outcome(run))
  }

  /** The tree after a download whose zip extracts: canonical directory,
      data aliases (errors ignored), then rendering (errors ignored). */
  function AddedTree(t: Tree, base: Path, a: Archive, pdf: PdfOutcome): Tree
  {
    var t1 := CreateDirAll(t, DataDirOfId(base, a.id));
    var t2 := DataLinks(t1, base, a).tree;
    RenderStep(t2, base, a, pdf).tree
  }

  /** Whether `Archive::download` hands back a zip. */
  predicate DownloadOk(e: Effects)
  {
    e.response.Body? && !e.response.broken && e.isZip(Concat(e.response.chunks))
  }

  /** The error `Archive::download` fails with. */
  function DownloadError(e: Effects): Error
  {
    if e.response.NoResponse? || e.response.broken then Network else Corrupt
  }

  /** Everything `add_archive` can change: the tree, the record store and the
      index (all documents, and the committed ones). */
  datatype StoreState = StoreState(tree: Tree, store: map<u32, Blob>, docs: seq<Doc>, committed: seq<Doc>)

  datatype AddOutcome = AddOutcome(state: StoreState, result: Result<bool>)

  /** Every document of `ds` carries the id of a record in `store`. */
  predicate AllStored(ds: seq<Doc>, store: map<u32, Blob>)
  {
    forall d :: d in ds ==> Truncate(d.id) in store
  }

  /** The index and the record store agree: every document the index holds,
      staged or committed, carries the id of a stored record. */
  predicate Consistent(s: StoreState)
  {
    AllStored(s.docs, s.store) && AllStored(s.committed, s.store)
  }

  /** `add_archive` on values, step by step as the source takes them. The
      record store gains at most this archive's record, and the index at most
      its document. */
  function AddSpec(s: StoreState, base: Path, a: Archive, force: bool, e: Effects): (o: AddOutcome)
    ensures o.state.store == s.store || o.state.store == s.store[a.id := Cbor(a)]
    ensures o.state.docs == s.docs || o.state.docs == s.docs + [DocOf(a)]
    ensures o.state.committed == s.committed || o.state.committed == s.docs + [DocOf(a)]
  {
    if !force && Exists(s.tree, DataDirOfId(base, a.id)) then AddOutcome(s, Ok(false))
    else if !DownloadOk(e) then AddOutcome(s, Err(DownloadError(e)))
    else if !e.extractOk then AddOutcome(s.(tree := CreateDirAll(s.tree, DataDirOfId(base, a.id))), Ok(false))
    else
      var t := AddedTree(s.tree, base, a, e.pdf);
      if !e.storeOk then AddOutcome(s.(tree := t), Err(StorageIO))
      else
        var st := s.store[a.id := Cbor(a)];
        match e.index
        case NoFault => AddOutcome(StoreState(t, st, s.docs + [DocOf(a)], s.docs + [DocOf(a)]), Ok(true))
        case AddFails => AddOutcome(StoreState(t, st, s.docs, s.committed), Err(IndexIO))
        case CommitFails => AddOutcome(StoreState(t, st, s.docs + [DocOf(a)], s.committed), Err(IndexIO))
  }

  /** `fetch_doc` on a record store: a failed read, a missing key and an
      undecodable value are errors. */
  function FetchDoc(store: map<u32, Blob>, id: u32): (r: Result<Archive>)
    ensures id !in store ==> r == Err(NotFound)
    ensures id in store && store[id].ReadFails? ==> r == Err(StorageIO)
    ensures id in store && store[id].Unreadable? ==> r == Err(Corrupt)
    ensures id in store && store[id].Cbor? ==> r == Ok(store[id].archive)
  {
    if id !in store then Err(NotFound)
    else match store[id]
      case ReadFails => Err(StorageIO)
      case Unreadable => Err(Corrupt)
      case Cbor(a) => Ok(a)
  }

  /** `fetch_inner`: the records of the ids that fetch, in input order; the
      others are dropped. */
  function FetchInner(store: map<u32, Blob>, ids: seq<u32>): (r: seq<Archive>)
    ensures |r| <= |ids|
  {
    if ids == [] then []
    else
      (match FetchDoc(store, ids[0]) case Ok(a) => [a] case Err(_) => [])
        + FetchInner(store, ids[1..])
  }

  class FileSystem {
    const base: Path
    var tree: Tree
    var store: map<u32, Blob>
    const searcher: Searcher

    ghost predicate Valid()
      reads this, searcher
    {
      searcher.Valid()
    }

    /** The abstract state this object holds. */
    ghost function State(): StoreState
      reads this, searcher
    {
      StoreState(tree, store, searcher.docs, searcher.committed)
    }

    /** `FileSystem::open`: create the eight layout directories, open the
        record store, open or create the index. `index` holds the documents
        of an index found in `meta/tantivy/`; without that directory the index
        starts empty. */
    constructor Open(base: Path, disk: Tree, store: map<u32, Blob>, index: seq<Doc>)
      ensures this.base == base && this.store == store
      ensures tree == CreateDirs(disk, LayoutDirs(base))
      ensures fresh(searcher)
      ensures searcher.docs == (if IndexDir(base) in disk.dirs then index else [])
      ensures searcher.committed == searcher.docs
      ensures Valid()
    {
      var t := CreateEach(disk, LayoutDirs(base));
      this.base := base;
      tree := t;
      this.store := store;
      searcher := new Searcher.Open(if IndexDir(base) in disk.dirs then index else []);
    }

    /** `has_archive`: the canonical directory `data/by_ids/<id>/` exists. */
    function HasArchive(id: u32): (b: bool)
      reads this
      ensures b <==> Exists(tree, base + ["data", "by_ids", Dec(id as nat)])
    {
      Exists(tree, DataDirOfId(base, id))
    }

    /** Create each link of `ps` to `target`, parents first, stopping at the
        first that fails. */
    method LinkAll(target: Path, ps: seq<LinkPath>) returns (r: Result<()>)
      modifies this
      ensures store == old(store)
      ensures var run := LinkEach(old(tree), target, ps); tree == run.tree && r == Outcome(run)
    {
      ghost var t0 := tree;
      for i := 0 to |ps|
        invariant LinkEach(t0, target, ps[..i]) == LinkRun(tree, None)
        invariant store == old(store)
      {
        LinkStep(t0, target, ps, i, tree);
        tree := CreateDirAll(tree, Parent(ps[i]));
        var s := Symlink(tree, target, ps[i]);
        if s.Err? {
          return Err(LinkConflict);
        }
        tree := s.value;
      }
      assert ps[..|ps|] == ps;
      r := Ok(());
    }

    /** `build_data_symlinks_for`: every tag alias, then the artist alias,
        each a link to the canonical directory. */
    method BuildDataSymlinksFor(a: Archive) returns (r: Result<()>)
      modifies this
      ensures store == old(store)
      ensures tree == DataLinks(old(tree), base, a).tree && r == DataLinks(old(tree), base, a).result
    {
      r := LinkAll(DataDirOfId(base, a.id), DataAliases(base, a));
    }

    /** `render_archive`: generate the PDF unless one exists, then link every
        tag alias and the artist alias to it. */
    method RenderArchive(a: Archive, pdf: PdfOutcome) returns (r: Result<()>)
      modifies this
      ensures store == old(store)
      ensures tree == RenderStep(old(tree), base, a, pdf).tree && r == RenderStep(old(tree), base, a, pdf).result
    {
      var file := RenderedFileOfId(base, a.id);
      if !Exists(tree, file) {
        tree := CreateDirAll(tree, Parent(file));
        if pdf == CreateFailed {
          return Err(RenderFailed);
        }
        tree := tree.(files := tree.files + {file});
        if pdf == WriteFailed {
          return Err(RenderFailed);
        }
      }
      r := LinkAll(file, RenderedAliases(base, a));
    }

    /** `add_archive`: skip an archive already present unless forced,
        download, create the canonical directory, extract, link and render
        (their errors ignored), store the record, index it. */
    method AddArchive(a: Archive, force: bool, e: Effects) returns (r: Result<bool>)
      requires Valid()
      modifies this, searcher
      ensures Valid()
      ensures var x := AddSpec(StoreState(old(tree), old(store), old(searcher.docs), old(searcher.committed)), base, a, force, e);
        && tree == x.state.tree && store == x.state.store
        && searcher.docs == x.state.docs && searcher.committed == x.state.committed
        && r == x.result
    {
      if !force && HasArchive(a.id) {
        return Ok(false);
      }
      var zip, calls := Download(e.response, e.isZip);
      if zip.Err? {
        return Err(zip.error);
      }
      var dir := DataDirOfId(base, a.id);
      tree := CreateDirAll(tree, dir);
      if !e.extractOk {
        return Ok(false);
      }
      var linked := BuildDataSymlinksFor(a);
      var rendered := RenderArchive(a, e.pdf);
      if !e.storeOk {
        return Err(StorageIO);
      }
      store := store[a.id := Cbor(a)];
      var indexed := searcher.AddArchive(a, e.index);
      if indexed.Err? {
        return Err(indexed.error);
      }
      r := Ok(true);
    }

    /** `with_all_tags`: an index read error is passed on, otherwise the
        records of the ids the index returns. */
    method WithAllTags(tags: seq<string>, fault: ReadFault) returns (r: Result<seq<Archive>>)
      ensures var hits := Filter(searcher.committed, d => HasAllTags(d, tags));
        && (r.Ok? <==> ReadsAll(fault, |hits|))
        && (r.Ok? ==> r.value == FetchInner(store, Ids(hits)))
        && (r.Err? ==> r.error == IndexIO)
    {
      var ids := searcher.WithAllTags(tags, fault);
      if ids.Err? {
        return Err(ids.error);
      }
      r := Ok(FetchInner(store, ids.value));
    }

    /** `search`: a query or index read error is passed on, otherwise the
        records of the ids the index returns. */
    method Search(query: string, defaultIndexes: seq<string>, max: Option<nat>, lang: QueryLanguage,
                  fault: ReadFault)
      returns (r: Result<seq<Archive>>)
      requires forall i :: 0 <= i < |defaultIndexes| ==> defaultIndexes[i] in SchemaNames
      ensures fault == ReaderFails ==> r == Err(IndexIO)
      ensures var fields := FieldsNamed(defaultIndexes);
        var hits := Limit(Filter(searcher.committed, d => lang.matches(query, fields, d)), max);
        fault != ReaderFails ==>
          && (!lang.parses(query, fields) ==> r == Err(InvalidQuery))
          && (lang.parses(query, fields) ==>
                && (r.Ok? <==> ReadsAll(fault, |hits|))
                && (r.Ok? ==> r.value == FetchInner(store, Ids(hits)))
                && (r.Err? ==> r.error == IndexIO))
    {
      var ids := searcher.Search(query, defaultIndexes, max, lang, fault);
      if ids.Err? {
        return Err(ids.error);
      }
      r := Ok(FetchInner(store, ids.value));
    }
  }

  /** The directory loop of `FileSystem::open`: `create_dir_all` of each
      path in turn. */
  method CreateEach(disk: Tree, dirs: seq<Path>) returns (t: Tree)
    ensures t == CreateDirs(disk, dirs)
  {
    t := disk;
    for i := 0 to |dirs|
      invariant t == CreateDirs(disk, dirs[..i])
    {
      CreateDirsSnoc(disk, dirs[..i], dirs[i]);
      assert dirs[..i] + [dirs[i]] == dirs[..i + 1];
      t := CreateDirAll(t, dirs[i]);
    }
    assert dirs[..|dirs|] == dirs;
  }

  lemma CreateDirsSnoc(t: Tree, ps: seq<Path>, p: Path)
    ensures CreateDirs(t, ps + [p]) == CreateDirAll(CreateDirs(t, ps), p)
  {
    assert (ps + [p])[..|ps|] == ps;
  }

  /** One step of a link run driven by a loop: from the tree the first `i`
      links left, the next link either fails, ending the whole run there, or
      extends the run by one. */
  lemma LinkStep(t0: Tree, target: Path, ps: seq<LinkPath>, i: nat, t: Tree)
    requires i < |ps| && LinkEach(t0, target, ps[..i]) == LinkRun(t, None)
    ensures var t1 := CreateDirAll(t, Parent(ps[i]));
      && (Symlink(t1, target, ps[i]).Err? ==> LinkEach(t0, target, ps) == LinkRun(t1, Some(i)))
      && (Symlink(t1, target, ps[i]).Ok? ==>
            LinkEach(t0, target, ps[..i + 1]) == LinkRun(Symlink(t1, target, ps[i]).value, None))
  {
    LinkEachAppend(t0, target, ps[..i], [ps[i]]);
    assert ps[..i] + [ps[i]] == ps[..i + 1];
    var t1 := CreateDirAll(t, Parent(ps[i]));
    if Symlink(t1, target, ps[i]).Err? {
      LinkEachAppend(t0, target, ps[..i + 1], ps[i + 1..]);
      assert ps[..i + 1] + ps[i + 1..] == ps;
    }
  }

  /** `fetch_inner` keeps input order: looking up two runs of ids gives the
      records of the first run followed by those of the second. */
  lemma {:induction false} FetchInnerAppend(store: map<u32, Blob>, a: seq<u32>, b: seq<u32>)
    ensures FetchInner(store, a + b) == FetchInner(store, a) + FetchInner(store, b)
  {
    if a == [] {
      assert a + b == b;
    } else {
      assert (a + b)[0] == a[0];
      assert (a + b)[1..] == a[1..] + b;
      FetchInnerAppend(store, a[1..], b);
    }
  }

  /** A record is in the result of `fetch_inner` exactly when one of the ids
      fetches to it. */
  lemma {:induction false} FetchInnerMembership(store: map<u32, Blob>, ids: seq<u32>, a: Archive)
    ensures a in FetchInner(store, ids) <==> exists i :: 0 <= i < |ids| && FetchDoc(store, ids[i]) == Ok(a)
  {
    if ids != [] {
      FetchInnerMembership(store, ids[1..], a);
      if exists i :: 0 <= i < |ids| && FetchDoc(store, ids[i]) == Ok(a) {
        var i :| 0 <= i < |ids| && FetchDoc(store, ids[i]) == Ok(a);
        if i > 0 {
          assert ids[1..][i - 1] == ids[i];
        }
      }
      if exists i :: 0 <= i < |ids| - 1 && FetchDoc(store, ids[1..][i]) == Ok(a) {
        var i :| 0 <= i < |ids| - 1 && FetchDoc(store, ids[1..][i]) == Ok(a);
        assert ids[i + 1] == ids[1..][i];
      }
    }
  }

  /** When every id is present and decodes, nothing is dropped: the result
      has one record per id, each the stored one. */
  lemma {:induction false} FetchInnerAllPresent(store: map<u32, Blob>, ids: seq<u32>)
    requires forall i :: 0 <= i < |ids| ==> ids[i] in store && store[ids[i]].Cbor?
    ensures |FetchInner(store, ids)| == |ids|
    ensures forall i :: 0 <= i < |ids| ==> FetchInner(store, ids)[i] == store[ids[i]].archive
  {
    if ids != [] {
      assert forall i :: 0 <= i < |ids| - 1 ==> ids[1..][i] == ids[i + 1];
      FetchInnerAllPresent(store, ids[1..]);
    }
  }

  /** `add_archive` keeps the index and the record store consistent: the
      record is inserted before the document is added, and a failed insert
      adds no document. */
  lemma AddKeepsConsistent(s: StoreState, base: Path, a: Archive, force: bool, e: Effects)
    requires Consistent(s)
    ensures Consistent(AddSpec(s, base, a, force, e).state)
  {
    DocIdRoundTrip(a);
  }

  /** On a consistent state whose records for the hits all decode, a lookup
      drops nothing: one archive per hit, in hit order, each the stored one.
      `max` of `None` is the shape of `with_all_tags`, and of `search`
      without a maximum. */
  lemma ConsistentLookup(s: StoreState, keep: Doc -> bool, max: Option<nat>)
    requires Consistent(s)
    requires forall d :: d in s.committed && keep(d) ==> s.store[Truncate(d.id)].Cbor?
    ensures var hits := Limit(Filter(s.committed, keep), max);
      && |FetchInner(s.store, Ids(hits))| == |hits|
      && forall i :: 0 <= i < |hits| ==> FetchInner(s.store, Ids(hits))[i] == s.store[Truncate(hits[i].id)].archive
  {
    var hits := Limit(Filter(s.committed, keep), max);
    var ids := Ids(hits);
    forall i | 0 <= i < |ids|
      ensures ids[i] in s.store && s.store[ids[i]].Cbor?
    {
      assert hits[i] in hits;
    }
    FetchInnerAllPresent(s.store, ids);
  }

  /** An archive whose canonical directory exists is skipped unless forced:
      the result is `false` and nothing changes. */
  lemma AddSkipsPresent(s: StoreState, base: Path, a: Archive, e: Effects)
    requires Exists(s.tree, DataDirOfId(base, a.id))
    ensures AddSpec(s, base, a, false, e) == AddOutcome(s, Ok(false))
  {
  }

  /** `add_archive` returns `true` exactly when it was not skipped, the
      download and extraction worked, and both the store insert and the
      index update succeeded. Link and render failures play no part. */
  lemma AddTrueIff(s: StoreState, base: Path, a: Archive, force: bool, e: Effects)
    ensures AddSpec(s, base, a, force, e).result == Ok(true) <==>
      && !(!force && Exists(s.tree, DataDirOfId(base, a.id)))
      && DownloadOk(e) && e.extractOk && e.storeOk && e.index == NoFault
  {
  }

  /** How the PDF generation ends changes neither the result nor the record
      store nor the index. */
  lemma RenderNonFatal(s: StoreState, base: Path, a: Archive, force: bool, e: Effects, pdf: PdfOutcome)
    ensures var x := AddSpec(s, base, a, force, e);
      var y := AddSpec(s, base, a, force, e.(pdf := pdf));
      x.result == y.result && x.state.store == y.state.store
      && x.state.docs == y.state.docs && x.state.committed == y.state.committed
  {
  }

  /** A successful add stores the record under its id, so it fetches back;
      it appends exactly one document and commits it; the canonical
      directory exists afterwards, so a second add without `force` is
      skipped. */
  lemma AddSuccess(s: StoreState, base: Path, a: Archive, force: bool, e: Effects, e2: Effects)
    requires AddSpec(s, base, a, force, e).result == Ok(true)
    ensures var x := AddSpec(s, base, a, force, e).state;
      && x.store == s.store[a.id := Cbor(a)]
      && FetchDoc(x.store, a.id) == Ok(a)
      && x.docs == s.docs + [DocOf(a)] && x.committed == x.docs
      && Exists(x.tree, DataDirOfId(base, a.id))
      && AddSpec(x, base, a, false, e2) == AddOutcome(x, Ok(false))
  {
    AddTrueIff(s, base, a, force, e);
    var t := AddedTree(s.tree, base, a, e.pdf);
    var x := StoreState(t, s.store[a.id := Cbor(a)], s.docs + [DocOf(a)], s.docs + [DocOf(a)]);
    assert AddSpec(s, base, a, force, e).state == x;
    AddedTreeKeeps(s.tree, base, a, e.pdf);
    assert Exists(x.tree, DataDirOfId(base, a.id));
  }

  /** The record is stored before the index is touched: when the index
      fails, the record is in the store all the same and the result is an
      index error. */
  lemma IndexFailureKeepsRecord(s: StoreState, base: Path, a: Archive, force: bool, e: Effects)
    requires !(!force && Exists(s.tree, DataDirOfId(base, a.id)))
    requires DownloadOk(e) && e.extractOk && e.storeOk && e.index != NoFault
    ensures var x := AddSpec(s, base, a, force, e);
      x.result == Err(IndexIO) && x.state.store == s.store[a.id := Cbor(a)] && x.state.committed == s.committed
  {
  }

  /** When extraction fails the result is `false`, the record store and the
      index are untouched, and the canonical directory stays behind, so a
      later add without `force` is skipped. */
  lemma ExtractFailureBlocksRetry(s: StoreState, base: Path, a: Archive, force: bool, e: Effects, e2: Effects)
    requires !(!force && Exists(s.tree, DataDirOfId(base, a.id)))
    requires DownloadOk(e) && !e.extractOk
    ensures var x := AddSpec(s, base, a, force, e);
      && x.result == Ok(false)
      && x.state.store == s.store && x.state.docs == s.docs && x.state.committed == s.committed
      && AddSpec(x.state, base, a, false, e2) == AddOutcome(x.state, Ok(false))
  {
    assert Under(DataDirOfId(base, a.id), DataDirOfId(base, a.id));
  }

  /** A failed download changes nothing and reports the download's error. */
  lemma DownloadFailureChangesNothing(s: StoreState, base: Path, a: Archive, force: bool, e: Effects)
    requires !(!force && Exists(s.tree, DataDirOfId(base, a.id))) && !DownloadOk(e)
    ensures AddSpec(s, base, a, force, e) == AddOutcome(s, Err(DownloadError(e)))
    ensures DownloadError(e) == Network || DownloadError(e) == Corrupt
  {
  }

  /** Every outcome keeps the committed documents a prefix of all documents. */
  lemma AddKeepsCommittedPrefix(s: StoreState, base: Path, a: Archive, force: bool, e: Effects)
    requires |s.committed| <= |s.docs| && s.docs[..|s.committed|] == s.committed
    ensures var x := AddSpec(s, base, a, force, e).state;
      |x.committed| <= |x.docs| && x.docs[..|x.committed|] == x.committed
  {
    var x := AddSpec(s, base, a, force, e).state;
    if x.docs == s.docs + [DocOf(a)] && x.committed == s.committed {
      assert x.docs[..|s.committed|] == s.docs[..|s.committed|];
    }
  }

  /** Linking and rendering only add to the tree: a successful add leaves the
      canonical directory in place, whatever the links and the PDF did, and
      every link that existed before is kept with its target. */
  lemma AddedTreeKeeps(t: Tree, base: Path, a: Archive, pdf: PdfOutcome)
    ensures DataDirOfId(base, a.id) in AddedTree(t, base, a, pdf).dirs
    ensures t.dirs <= AddedTree(t, base, a, pdf).dirs
    ensures forall q :: q in t.links ==> q in AddedTree(t, base, a, pdf).links && AddedTree(t, base, a, pdf).links[q] == t.links[q]
  {
    var t1 := CreateDirAll(t, DataDirOfId(base, a.id));
    assert Under(DataDirOfId(base, a.id), DataDirOfId(base, a.id));
    LinkEachKeeps(t1, DataDirOfId(base, a.id), DataAliases(base, a));
    var t2 := DataLinks(t1, base, a).tree;
    var p := PdfStage(t2, base, a, pdf);
    if p.result.Ok? {
      LinkEachKeeps(p.tree, RenderedFileOfId(base, a.id), RenderedAliases(base, a));
    }
  }

  /** Every data alias created points at the canonical directory, and they
      are created in order: all of them when the run succeeds, the ones
      before the failing alias otherwise. */
  lemma DataLinksTargets(t: Tree, base: Path, a: Archive)
    ensures var run := LinkEach(t, DataDirOfId(base, a.id), DataAliases(base, a));
      forall i :: 0 <= i < Linked(run, |a.tags| + 1) ==>
        DataAliases(base, a)[i] in run.tree.links && run.tree.links[DataAliases(base, a)[i]] == DataDirOfId(base, a.id)
    ensures var run := LinkEach(t, DataDirOfId(base, a.id), DataAliases(base, a));
      forall q :: q in run.tree.links && q !in t.links ==> run.tree.links[q] == DataDirOfId(base, a.id)
  {
    LinkEachLinked(t, DataDirOfId(base, a.id), DataAliases(base, a));
    LinkEachOnlyListed(t, DataDirOfId(base, a.id), DataAliases(base, a));
  }

  /** When linking fails, the failing alias already existed, and the artist
      alias, which comes last, was created only if every tag alias was. */
  lemma DataLinksFailure(t: Tree, base: Path, a: Archive)
    ensures var run := LinkEach(t, DataDirOfId(base, a.id), DataAliases(base, a));
      run.failedAt.Some? ==>
        run.failedAt.value <= |a.tags| && Exists(run.tree, DataAliases(base, a)[run.failedAt.value])
  {
    LinkEachFailure(t, DataDirOfId(base, a.id), DataAliases(base, a));
  }

  /** A PDF already at the rendered path is neither regenerated nor touched. */
  lemma ExistingPdfKept(t: Tree, base: Path, a: Archive, pdf: PdfOutcome)
    requires Exists(t, RenderedFileOfId(base, a.id))
    ensures PdfStage(t, base, a, pdf) == Step(t, Ok(()))
  {
  }

  /** A PDF whose writing fails after its file was created is left behind,
      and the rendered aliases are not attempted. */
  lemma FailedPdfLeftBehind(t: Tree, base: Path, a: Archive)
    requires !Exists(t, RenderedFileOfId(base, a.id))
    ensures var s := RenderStep(t, base, a, WriteFailed);
      s.result == Err(RenderFailed) && RenderedFileOfId(base, a.id) in s.tree.files
      && s.tree.links == t.links
  {
  }
}
