/** The full-text index (src/searcher.rs), as the sequence of documents the
    writer has added and the prefix of it that readers see. Tokenisation,
    query syntax and scoring belong to the index library and stay abstract:
    a query is judged by a parser the caller supplies. */
module Search {
  import opened Common
  import opened Archives

  /** The fields of the schema an index is created with. */
  datatype Field = IdField | NameField | ArtistField | ParodyField | TagField

  /** `schema.get_field(name)`. */
  function FieldNamed(name: string): (f: Option<Field>)
    ensures f.Some? <==> name in SchemaNames
    ensures f == Some(TagField) <==> name == "tag"
    ensures f == Some(IdField) <==> name == "id"
  {
    if name == "id" then Some(IdField)
    else if name == "name" then Some(NameField)
    else if name == "artist" then Some(ArtistField)
    else if name == "parody" then Some(ParodyField)
    else if name == "tag" then Some(TagField)
    else None
  }

  const SchemaNames: set<string> := {"id", "name", "artist", "parody", "tag"}

  /** Distinct schema names name distinct fields. */
  lemma FieldNamedInjective(x: string, y: string)
    requires x in SchemaNames && y in SchemaNames && x != y
    ensures FieldNamed(x) != FieldNamed(y)
  {
  }

  /** One indexed document: the id as a u64, three text fields, and one tag
      value per archive tag. */
  datatype Doc = Doc(id: u64, name: string, artist: string, parody: string, tags: seq<string>)

  /** The tag names of an archive, in tag order. */
  function TagNames(tags: seq<Tag>): (r: seq<string>)
    ensures |r| == |tags|
    ensures forall i :: 0 <= i < |tags| ==> r[i] == tags[i].name
  {
    if tags == [] then [] else [tags[0].name] + TagNames(tags[1..])
  }

  /** The document `add_archive` builds for an archive. */
  function DocOf(a: Archive): (d: Doc)
    ensures d.id as int == a.id as int
    ensures d.name == a.name && d.artist == a.artist && d.parody == a.parody
    ensures |d.tags| == |a.tags| && forall i :: 0 <= i < |a.tags| ==> d.tags[i] == a.tags[i].name
  {
    Doc(Widen(a.id), a.name, a.artist, a.parody, TagNames(a.tags))
  }

  /** The document building of `add_archive`: the four fixed fields, then one
      tag value per tag in order. */
  method BuildDoc(a: Archive) returns (d: Doc)
    ensures d == DocOf(a)
  {
    d := Doc(Widen(a.id), a.name, a.artist, a.parody, []);
    for i := 0 to |a.tags|
      invariant d.id == Widen(a.id) && d.name == a.name && d.artist == a.artist && d.parody == a.parody
      invariant |d.tags| == i && forall k :: 0 <= k < i ==> d.tags[k] == a.tags[k].name
    {
      d := d.(tags := d.tags + [a.tags[i].name]);
    }
    assert d.tags == TagNames(a.tags);
  }

  /** The id stored in the document reads back as the archive's id. */
  lemma DocIdRoundTrip(a: Archive)
    ensures Truncate(DocOf(a).id) == a.id
  {
    TruncateWiden(a.id);
  }

  /** `doc_id as u32` for each document, in order. */
  function Ids(ds: seq<Doc>): (r: seq<u32>)
    ensures |r| == |ds|
    ensures forall i :: 0 <= i < |ds| ==> r[i] == Truncate(ds[i].id)
  {
    if ds == [] then [] else [Truncate(ds[0].id)] + Ids(ds[1..])
  }

  /** Where a read of the index fails: opening the reader, running the
      collector, or loading the document at position `at` of the hits. */
  datatype ReadFault = ReadOk | ReaderFails | SearchFails | DocFails(at: nat)

  /** A read over `n` hits gets through every step. */
  predicate ReadsAll(fault: ReadFault, n: nat)
  {
    fault == ReadOk || (fault.DocFails? && fault.at >= n)
  }

  /** The push loop that fills `matched_ids`; a failed `doc_async` ends it
      with an error. */
  method CollectIds(ds: seq<Doc>, fault: ReadFault) returns (r: Result<seq<u32>>)
    ensures r.Ok? <==> !(fault.DocFails? && fault.at < |ds|)
    ensures r.Ok? ==> r.value == Ids(ds)
    ensures r.Err? ==> r.error == IndexIO
  {
    var ids := [];
    for i := 0 to |ds|
      invariant |ids| == i
      invariant forall j :: 0 <= j < i ==> ids[j] == Truncate(ds[j].id)
      invariant !(fault.DocFails? && fault.at < i)
    {
      if fault == DocFails(i) {
        return Err(IndexIO);
      }
      ids := ids + [Truncate(ds[i].id)];
    }
    r := Ok(ids);
  }

  /** The conjunction of one must-match term per tag. A conjunction of no
      terms matches no document. */
  predicate HasAllTags(d: Doc, tags: seq<string>)
  {
    |tags| > 0 && forall i :: 0 <= i < |tags| ==> tags[i] in d.tags
  }

  /** The documents that satisfy a predicate on documents, in index order. */
  function Filter(ds: seq<Doc>, keep: Doc -> bool): (r: seq<Doc>)
    ensures |r| <= |ds|
    ensures forall d :: d in r <==> d in ds && keep(d)
  {
    if ds == [] then []
    else (if keep(ds[0]) then [ds[0]] else []) + Filter(ds[1..], keep)
  }

  /** Filtering keeps index order: the matches of an extended index are the
      old matches followed by the matches among the new documents. */
  lemma {:induction false} FilterAppend(a: seq<Doc>, b: seq<Doc>, keep: Doc -> bool)
    ensures Filter(a + b, keep) == Filter(a, keep) + Filter(b, keep)
  {
    if a == [] {
      assert a + b == b;
    } else {
      assert (a + b)[0] == a[0];
      assert (a + b)[1..] == a[1..] + b;
      FilterAppend(a[1..], b, keep);
    }
  }

  /** The `TopDocs` limit: at most `max` of the matches. Relevance order is not
      modelled; the matches keep index order. */
  function Limit(ds: seq<Doc>, max: Option<nat>): (r: seq<Doc>)
    ensures max.Some? ==> |r| == if |ds| < max.value then |ds| else max.value
    ensures max.None? ==> r == ds
    ensures forall d :: d in r ==> d in ds
  {
    if max.Some? && max.value < |ds| then ds[..max.value] else ds
  }

  /** What the query parser is to the model: whether a query parses against
      the given default fields, and which documents a parsed query matches. */
  datatype QueryLanguage = QueryLanguage(
    parses: (string, seq<Field>) -> bool,
    matches: (string, seq<Field>, Doc) -> bool)

  /** The default fields for the parser. The source unwraps each lookup, so
      every name must be a schema field. */
  function FieldsNamed(names: seq<string>): (fs: seq<Field>)
    requires forall i :: 0 <= i < |names| ==> names[i] in SchemaNames
    ensures |fs| == |names|
    ensures forall i :: 0 <= i < |names| ==> Some(fs[i]) == FieldNamed(names[i])
  {
    if names == [] then [] else [FieldNamed(names[0]).value] + FieldsNamed(names[1..])
  }

  /** What `add_archive` does when the writer misbehaves. */
  datatype IndexFault = NoFault | AddFails | CommitFails

  class Searcher {
    /** Every document the writer holds, committed or not. */
    var docs: seq<Doc>
    /** The documents a reader sees: those of the last successful commit. */
    var committed: seq<Doc>

    /** Commits publish a prefix of what was added. */
    ghost predicate Valid()
      reads this
    {
      |committed| <= |docs| && docs[..|committed|] == committed
    }

    /** `Searcher::new` over an index directory: an existing index is opened
        with its documents, a missing one is created empty (`index == []`). */
    constructor Open(index: seq<Doc>)
      ensures docs == index && committed == index
      ensures Valid()
    {
      docs := index;
      committed := index;
    }

    /** `add_archive`: build the document, add it, commit. Nothing is
        deduplicated; a failed commit leaves the document staged. */
    method AddArchive(a: Archive, fault: IndexFault) returns (r: Result<()>)
      requires Valid()
      modifies this
      ensures Valid()
      ensures fault == NoFault ==> r == Ok(()) && docs == old(docs) + [DocOf(a)] && committed == docs
      ensures fault == AddFails ==> r == Err(IndexIO) && docs == old(docs) && committed == old(committed)
      ensures fault == CommitFails ==> r == Err(IndexIO) && docs == old(docs) + [DocOf(a)] && committed == old(committed)
    {
      var d := BuildDoc(a);
      if fault == AddFails {
        return Err(IndexIO);
      }
      docs := docs + [d];
      if fault == CommitFails {
        assert docs[..|committed|] == old(docs)[..|committed|];
        return Err(IndexIO);
      }
      committed := docs;
      r := Ok(());
    }

    /** `with_all_tags`: the ids of the committed documents whose tag values
        include every requested tag, in index order; any failed read of the
        index is an error. */
    method WithAllTags(tags: seq<string>, fault: ReadFault) returns (r: Result<seq<u32>>)
      ensures var hits := Filter(committed, d => HasAllTags(d, tags));
        && (r.Ok? <==> ReadsAll(fault, |hits|))
        && (r.Ok? ==> r.value == Ids(hits))
        && (r.Err? ==> r.error == IndexIO)
    {
      if fault == ReaderFails || fault == SearchFails {
        return Err(IndexIO);
      }
      var all := Filter(committed, d => HasAllTags(d, tags));
      r := CollectIds(all, fault);
    }

    /** `search`: the reader is opened, the default field names are looked
        up, the query parsed, and the ids of the (at most `max`) matching
        committed documents returned. */
    method Search(query: string, defaultIndexes: seq<string>, max: Option<nat>, lang: QueryLanguage,
                  fault: ReadFault)
      returns (r: Result<seq<u32>>)
      requires forall i :: 0 <= i < |defaultIndexes| ==> defaultIndexes[i] in SchemaNames
      ensures fault == ReaderFails ==> r == Err(IndexIO)
      ensures var fields := FieldsNamed(defaultIndexes);
        var hits := Limit(Filter(committed, d => lang.matches(query, fields, d)), max);
        fault != ReaderFails ==>
          && (!lang.parses(query, fields) ==> r == Err(InvalidQuery))
          && (lang.parses(query, fields) ==>
                && (r.Ok? <==> ReadsAll(fault, |hits|))
                && (r.Ok? ==> r.value == Ids(hits))
                && (r.Err? ==> r.error == IndexIO))
    {
      if fault == ReaderFails {
        return Err(IndexIO);
      }
      var fields := FieldsNamed(defaultIndexes);
      if !lang.parses(query, fields) {
        return Err(InvalidQuery);
      }
      if fault == SearchFails {
        return Err(IndexIO);
      }
      var hits := Filter(committed, d => lang.matches(query, fields, d));
      var top := Limit(hits, max);
      r := CollectIds(top, fault);
    }
  }

  /** An id `with_all_tags` returns is the id of a committed document that
      carries every requested tag, and every such document contributes its id. */
  lemma WithAllTagsMembership(committed: seq<Doc>, tags: seq<string>, id: u32)
    ensures id in Ids(Filter(committed, d => HasAllTags(d, tags))) <==>
      exists d :: d in committed && HasAllTags(d, tags) && Truncate(d.id) == id
  {
    var hits := Filter(committed, d => HasAllTags(d, tags));
    if id in Ids(hits) {
      var i :| 0 <= i < |hits| && Ids(hits)[i] == id;
      assert hits[i] in hits;
    }
    if exists d :: d in committed && HasAllTags(d, tags) && Truncate(d.id) == id {
      var d :| d in committed && HasAllTags(d, tags) && Truncate(d.id) == id;
      var i :| 0 <= i < |hits| && hits[i] == d;
      assert Ids(hits)[i] == id;
    }
  }

  /** A search never returns more ids than `max`, and with no limit it returns
      one id per matching document. */
  lemma SearchBound(ds: seq<Doc>, keep: Doc -> bool, max: Option<nat>)
    ensures max.Some? ==> |Ids(Limit(Filter(ds, keep), max))| <= max.value
    ensures max.None? ==> |Ids(Limit(Filter(ds, keep), max))| == |Filter(ds, keep)|
  {
  }

  /** Adding an archive another time adds a second document: a tag query
      that matched it now returns its id twice. */
  lemma AddTwiceDuplicates(docs: seq<Doc>, a: Archive, tags: seq<string>)
    requires HasAllTags(DocOf(a), tags)
    ensures var keep := (d: Doc) => HasAllTags(d, tags);
      Ids(Filter(docs + [DocOf(a)] + [DocOf(a)], keep)) == Ids(Filter(docs, keep)) + [a.id, a.id]
  {
    var keep := (d: Doc) => HasAllTags(d, tags);
    var d := DocOf(a);
    var f := Filter(docs, keep);
    FilterKept(docs, d, keep);
    FilterKept(docs + [d], d, keep);
    DocIdRoundTrip(a);
    assert Ids([d]) == [a.id];
    IdsAppend(f, [d]);
    IdsAppend(f + [d], [d]);
  }

  /** A document that passes the filter is appended to the matches. */
  lemma FilterKept(ds: seq<Doc>, d: Doc, keep: Doc -> bool)
    requires keep(d)
    ensures Filter(ds + [d], keep) == Filter(ds, keep) + [d]
  {
    FilterAppend(ds, [d], keep);
    assert Filter([d], keep) == [d] by {
      assert [d][1..] == [];
    }
  }

  lemma IdsAppend(a: seq<Doc>, b: seq<Doc>)
    ensures Ids(a + b) == Ids(a) + Ids(b)
  {
    assert forall i :: 0 <= i < |a| + |b| ==> (a + b)[i] == if i < |a| then a[i] else b[i - |a|];
  }

  /** Three documents tagged {a, b}, {a} and {a, b, c}: asking for a and b
      gives the first and the third. */
  lemma TagQueryExample()
    ensures var ds := [Doc(1, "x", "p", "q", ["a", "b"]), Doc(2, "y", "p", "q", ["a"]),
                       Doc(3, "z", "p", "q", ["a", "b", "c"])];
      Ids(Filter(ds, d => HasAllTags(d, ["a", "b"]))) == [1, 3]
  {
    var ds := [Doc(1, "x", "p", "q", ["a", "b"]), Doc(2, "y", "p", "q", ["a"]),
               Doc(3, "z", "p", "q", ["a", "b", "c"])];
    var keep := (d: Doc) => HasAllTags(d, ["a", "b"]);
    assert keep(ds[0]);
    assert !HasAllTags(ds[1], ["a", "b"]) by {
      assert ["a", "b"][1] == "b" && ds[1].tags == ["a"];
      assert "b" != "a";
    }
    assert keep(ds[2]);
    assert ds[1..][1..] == [ds[2]];
    assert Filter(ds, keep) == [ds[0], ds[2]];
  }

  /** With no tags at all nothing matches. */
  lemma NoTagsMatchNothing(ds: seq<Doc>)
    ensures Filter(ds, d => HasAllTags(d, [])) == []
  {
    var r := Filter(ds, d => HasAllTags(d, []));
    if r != [] {
      assert r[0] in r;
    }
  }
}
