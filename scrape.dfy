/** The catalog's JSON metadata and its conversion to an archive record (src/scrape.rs). */
module Scrape {
  import opened Common
  import opened Archives

  /** A credit or tag as the catalog lists it. */
  datatype SluggedMeta = SluggedMeta(slug: string, name: string)

  /** The parsed `.json` metadata of one archive. */
  datatype ArchiveMeta = ArchiveMeta(
    id: u32,
    title: string,
    pages: u16,
    size: u32,
    artists: seq<SluggedMeta>,
    parodies: seq<SluggedMeta>,
    tags: seq<SluggedMeta>)

  /** The catalog tags as archive tags, slug to path and name to name, in order. */
  function ConvertTags(ts: seq<SluggedMeta>): (r: seq<Tag>)
    ensures |r| == |ts|
    ensures forall i :: 0 <= i < |ts| ==> r[i].path == ts[i].slug && r[i].name == ts[i].name
  {
    if ts == [] then [] else [Tag(ts[0].slug, ts[0].name)] + ConvertTags(ts[1..])
  }

  /** `ArchiveMeta::as_archive`. The source unwraps the first artist, so an
      archive without artists panics: callers must supply at least one. */
  function AsArchive(meta: ArchiveMeta, baseUrl: Url, downloadUrl: Url): (a: Archive)
    requires |meta.artists| > 0
    ensures a.id == meta.id && a.name == meta.title && a.numPages == meta.pages
    ensures a.baseUrl == baseUrl && a.downloadUrl == downloadUrl
    ensures a.artist == meta.artists[0].name
    ensures a.parody == if |meta.parodies| > 0 then meta.parodies[0].name else "original"
    ensures |a.tags| == |meta.tags|
    ensures forall i :: 0 <= i < |meta.tags| ==> a.tags[i] == Tag(meta.tags[i].slug, meta.tags[i].name)
  {
    Archive(
      meta.id,
      meta.title,
      meta.artists[0].name,
      if |meta.parodies| > 0 then meta.parodies[0].name else "original",
      ConvertTags(meta.tags),
      meta.pages,
      baseUrl,
      downloadUrl)
  }

  /** Only the first artist and the first parody count, and the download size is
      not part of the record: metadata that agrees on everything else converts
      to the same archive. */
  lemma AsArchiveIgnoresLaterCredits(m1: ArchiveMeta, m2: ArchiveMeta, baseUrl: Url, downloadUrl: Url)
    requires |m1.artists| > 0 && |m2.artists| > 0
    requires m1.id == m2.id && m1.title == m2.title && m1.pages == m2.pages && m1.tags == m2.tags
    requires m1.artists[0].name == m2.artists[0].name
    requires (|m1.parodies| > 0) == (|m2.parodies| > 0)
    requires |m1.parodies| > 0 ==> m1.parodies[0].name == m2.parodies[0].name
    ensures AsArchive(m1, baseUrl, downloadUrl) == AsArchive(m2, baseUrl, downloadUrl)
  {
  }

  /** The slugs of the converted tags, read back in order, are the catalog's slugs. */
  lemma {:induction false} ConvertTagsPaths(ts: seq<SluggedMeta>)
    ensures TagPaths(ConvertTags(ts)) == Slugs(ts)
  {
    if ts != [] {
      ConvertTagsPaths(ts[1..]);
    }
  }

  function TagPaths(tags: seq<Tag>): seq<string>
  {
    if tags == [] then [] else [tags[0].path] + TagPaths(tags[1..])
  }

  function Slugs(ts: seq<SluggedMeta>): seq<string>
  {
    if ts == [] then [] else [ts[0].slug] + Slugs(ts[1..])
  }
}
