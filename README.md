# kscrpr archive store — a Dafny model

kscrpr mirrors an online catalog of archives (comic-book style image zips)
into a local directory. Every archive it keeps has:

- a canonical directory `data/by_ids/<id>/` holding the extracted images;
- symbolic-link aliases by tag (`data/by_tags/<tag>/<name>-<id>`) and by
  artist (`data/by_artist/<artist>/<name>-<id>`);
- a rendered PDF `rendered/by_ids/<id>.pdf` with the same two kinds of alias
  under `rendered/`;
- a record in a key-value store (sled), keyed by the big-endian bytes of the
  id and holding the archive serialised as CBOR;
- a document in a full-text index (tantivy) with the fields id, name,
  artist, parody and one tag value per tag.

This project models, in Dafny, the core that keeps those four views in step:

- adding an archive (`add_archive`) with its skip, download, extract, link,
  render, store and index stages and each of their failure paths;
- the alias links and the path layout they live in;
- reading archives back from the index and the record store;
- rebuilding the index and the data aliases from the record store
  (`do_reindex`);
- the fetch-by-tag and fetch-by-id command loops and the messages they print;
- the read commands and their "Nothing found" notice;
- the archive record, its metadata conversion and the download buffer loop;
- the interactive picker's cursor.

The outside world is a parameter:

- the directory tree is a value (`Tree.Tree`: directories, files, links with
  their targets);
- the record store is a map from id to stored value;
- the index is a sequence of documents together with the committed prefix a
  reader sees;
- what the network, the zip reader, the PDF writer, sled and tantivy do is
  given by `Effects`, `IndexFault`, `ReadFault`, `QueryLanguage`, page and
  event sequences;
- a record whose read from the store fails with an I/O error is the stored
  value `ReadFails`.

Modules follow the source: `Archives` (src/archives.rs), `Scrape`
(src/scrape.rs), `Layout`, `Tree`, `StoreKeys`, `PdfImages` and
`ArchiveStore` (src/filesystem.rs), `Search` (src/searcher.rs), `Command`
(src/command.rs and the `IndexType` map of src/config.rs), `Pick`
(src/pick.rs) and `Common` (integers, `Option`, `Result`, errors).

Behaviours of the code worth knowing, each of which the model keeps:

- `add_archive` propagates a failed download with `?`
  (src/filesystem.rs:210-222). A fetch by tag therefore stops at the first
  archive whose download fails.
- Creating an alias that already exists fails (src/filesystem.rs:179-182,
  187), because a symbolic link cannot be created over an existing path. So
  linking the same archive twice is not idempotent; see `Tree.RelinkFails`.
- The fetch-by-id messages are swapped (src/command.rs:80-85). A newly added
  archive is reported as "Archive was already downloaded", and a skipped one
  as "Added the following new archive:". `Command.FetchIdMessageInverted`
  states this.
- `tantivy_dir()` joins `sled/` (src/filesystem.rs:91-93), so it names the
  record store's directory. The index itself lives in `meta/tantivy/`.
- At this revision src/command.rs calls members that src/filesystem.rs does
  not define: `build_symlinks_for`, and a two-argument `add_archive`. The
  model maps them to `build_data_symlinks_for` and to `add_archive` without
  force.

## Model

| member | source | states |
|---|---|---|
| Common.Truncate | src/searcher.rs:97-99 | `doc_id as u32` keeps the low 32 bits; ids below 2^32 are unchanged |
| Common.Widen | src/searcher.rs:52 | `archive.id as u64` keeps the value |
| Common.TruncateWiden | src/searcher.rs:51-56 | an id widened to u64 for the index reads back as the same u32 |
| Archives.PrettySingleLine | src/archives.rs:51-53 | the line is `[`, the artist, `] `, then the name, with exactly those lengths |
| Archives.PrettySingleLineInjective | src/archives.rs:51-53 | when no artist contains `]`, equal lines mean equal artist and name |
| Archives.Download | src/archives.rs:29-49 | the buffer is the concatenation of all chunks in arrival order; the inspector is called once per chunk, after that chunk is appended, with the content length; the result is Ok exactly when the body was not broken and the bytes are a zip; a missing response or a broken body is a network error, and bytes that are not a zip are corrupt |
| Scrape.ConvertTags | src/scrape.rs:74-81 | one tag per metadata tag, in order, with `path = slug` and `name = name` |
| Scrape.AsArchive | src/scrape.rs:59-86 | id, title, page count and urls are copied; the artist is the first artist; the parody is the first parody or "original"; one tag per metadata tag, in order, with slug and name |
| Scrape.AsArchiveIgnoresLaterCredits | src/scrape.rs:63-73 | only the first artist and the first parody matter: metadata agreeing on those gives the same archive |
| Scrape.ConvertTagsPaths | src/scrape.rs:77-80 | the tag paths are the slugs, in order |
| Layout.Push | src/filesystem.rs:115-121 | `join` of a string not starting with `/` extends the path, keeping it as a prefix |
| Layout.Components | src/filesystem.rs:111-121 | a path string splits into non-empty, slash-free components, with the `.` components dropped as `Path::components` drops them |
| Layout.PushPlain | src/filesystem.rs:115-117 | pushing a slash-free name other than `.` and `..`, with or without a trailing `/`, appends exactly one component |
| Layout.Dec | src/filesystem.rs:111-113 | `format!("{id}")` is a non-empty string of decimal digits |
| Layout.DecInjective | src/filesystem.rs:111-113 | distinct ids have distinct decimal names |
| Layout.TantivyDir | src/filesystem.rs:91-93 | `tantivy_dir()` is `meta/sled`, the same as `sled_dir()` |
| Layout.SledDir | src/filesystem.rs:95-97 | the record store lives in `meta/sled` |
| Layout.DataDirOfId | src/filesystem.rs:111-113 | the canonical directory is `data/by_ids/<decimal id>` |
| Layout.RenderedFileOfId | src/filesystem.rs:145-147 | the rendered PDF is `rendered/by_ids/<decimal id>.pdf` |
| Layout.IndexDir | src/filesystem.rs:48 | the index lives in `meta/tantivy`: under `meta`, and neither the record store's directory nor the one `tantivy_dir()` names |
| Layout.DataDirOfTag | src/filesystem.rs:115-117 | a plain tag's directory is `data/by_tags/<tag>` |
| Layout.DataDirOfArtist | src/filesystem.rs:119-121 | a plain artist's directory is `data/by_artist/<artist>` |
| Layout.DataDirForArchiveByArtist | src/filesystem.rs:123-126 | for any artist, the alias is the artist directory plus one entry `<name>-<id>`, when the name has no `/` |
| Layout.DataDirForArchiveByTag | src/filesystem.rs:128-131 | for any tag, the alias is the tag directory plus one entry `<name>-<id>`, when the name has no `/` |
| Layout.RenderedDirOfTag | src/filesystem.rs:148-150 | a plain tag's rendered directory is `rendered/by_tags/<tag>` |
| Layout.RenderedDirOfArtist | src/filesystem.rs:152-154 | a plain artist's rendered directory is `rendered/by_artist/<artist>` |
| Layout.RenderedFileForArchiveByArtist | src/filesystem.rs:156-159 | for any artist, the rendered alias is the artist's rendered directory plus one entry `<name>-<id>.pdf`, when the name has no `/` |
| Layout.RenderedFileForArchiveByTag | src/filesystem.rs:161-164 | for any tag, the rendered alias is the tag's rendered directory plus one entry `<name>-<id>.pdf`, when the name has no `/` |
| Layout.LayoutDirs | src/filesystem.rs:30-39 | the eight directories `open` creates include the id, tag and artist roots, the index and the record store |
| Layout.TagAliasLayout | src/filesystem.rs:128-131 | a slash-free tag other than `.` and `..` gives the alias `data/by_tags/<tag>/<name>-<id>` |
| Layout.ArtistAliasLayout | src/filesystem.rs:123-126 | a slash-free artist other than `.` and `..` gives the alias `data/by_artist/<artist>/<name>-<id>` |
| Layout.EmptyTagEscapesBase | src/filesystem.rs:115-117 | an empty tag name makes `"{tag}/"` the root `/`, so its alias lands at the filesystem root, outside the base directory |
| Layout.DotTagIsTagRoot | src/filesystem.rs:115-131 | a tag named `.` formats as `./`, which adds no component, so its alias lands directly in `data/by_tags/` |
| Layout.CanonicalDirsDistinct | src/filesystem.rs:111-113 | distinct ids have distinct canonical directories |
| Layout.ResetRootsSpareStore | src/filesystem.rs:58-71 | nothing under the record store or the canonical directories lies under a directory the reindex resets |
| Tree.CreateDirAllDirs | src/filesystem.rs:175 | `create_dir_all(p)` adds `p` and every directory above it, and nothing else |
| Tree.CreateDirAll | src/filesystem.rs:175 | `create_dir_all` touches neither files nor links |
| Tree.Symlink | src/filesystem.rs:180-183 | creating a link fails exactly when the path exists; otherwise exactly that link is added |
| Tree.RemoveDirAll | src/filesystem.rs:58-61 | everything at or below the root is removed, everything else is kept, and kept links keep their targets |
| Tree.LinkEach | src/filesystem.rs:173-188 | a run of links creates no files and leaves existing ones alone |
| Tree.LinkEachKeeps | src/filesystem.rs:173-188 | a run of links keeps every directory and never replaces or retargets an existing link |
| Tree.LinkEachFailure | src/filesystem.rs:173-188 | a run that fails names one of its paths, and that path exists in the tree it leaves |
| Tree.LinkEachLinked | src/filesystem.rs:173-188 | every path before the failure point is a link to the target |
| Tree.LinkEachOnlyListed | src/filesystem.rs:173-188 | the only new links are to the target, at paths before the failure point |
| Tree.RelinkFails | src/filesystem.rs:171-191 | linking the same archive again fails at its first alias |
| Tree.LinkEachAppend | src/filesystem.rs:173-188 | a run over two lists is the first run, then, unless it failed, the second run from where the first left the tree |
| Tree.CreateDirs | src/filesystem.rs:41-43 | a run of `create_dir_all` touches neither files nor links |
| Tree.CreateDirsDirs | src/filesystem.rs:41-43 | after creating each directory in turn, the directories are the old ones and every prefix of a created one |
| StoreKeys.Be4 | src/filesystem.rs:263-264 | `to_be_bytes` gives four bytes whose big-endian value is the id |
| StoreKeys.Be4Injective | src/filesystem.rs:263-264 | distinct ids have distinct store keys |
| StoreKeys.LexIsNumeric | src/command.rs:40 | on keys of one length, byte-wise order is numeric order |
| StoreKeys.Be4Order | src/command.rs:40 | store iteration order over keys is ascending id order |
| StoreKeys.KeyOrder | src/command.rs:40 | the ids of the store, each once, strictly ascending |
| StoreKeys.KeyOrderIsStoreOrder | src/command.rs:40 | consecutive ids of that order have byte-wise increasing keys |
| PdfImages.Extension | src/filesystem.rs:317-322 | `Path::extension`: the text after the last dot, absent for `..`, for names without a dot and for names whose only dot is first |
| PdfImages.FileName | src/filesystem.rs:318-320 | a path has a file name exactly when it is non-empty, and the file name is its last component |
| PdfImages.ImagesMembership | src/filesystem.rs:312-324 | a path is a page exactly when a readable regular-file entry with a `png`, `jpg` or `jpeg` extension has it |
| PdfImages.Images | src/filesystem.rs:312-324 | the pages never outnumber the walk entries |
| PdfImages.ImagesAppend | src/filesystem.rs:312-324 | the filter keeps walk order |
| PdfImages.SkipsNonFiles | src/filesystem.rs:315-316 | walk errors and directories are never pages |
| PdfImages.RefusedImageExamples | src/filesystem.rs:306-322 | `001.PNG` and `.png` are not pages: the comparison is case-sensitive |
| Search.FieldNamed | src/searcher.rs:24-29 | exactly the five schema names resolve to a field |
| Search.FieldNamedInjective | src/searcher.rs:24-29 | distinct schema names are distinct fields |
| Search.TagNames | src/searcher.rs:58-60 | one tag value per tag, the tag's name, in order |
| Search.DocOf | src/searcher.rs:51-60 | the document carries the widened id, name, artist, parody and one tag value per tag, in order |
| Search.BuildDoc | src/searcher.rs:51-60 | the tag loop builds exactly that document |
| Search.DocIdRoundTrip | src/searcher.rs:52 | a document's id reads back as the archive's id |
| Search.Ids | src/searcher.rs:93-100 | one id per matched document, in order, truncated to u32 |
| Search.CollectIds | src/searcher.rs:93-100 | the push loop collects exactly those ids, unless the `doc_async` of one of the documents fails, which is an index error |
| Search.Filter | src/searcher.rs:77-91 | a document is matched exactly when it is in the index and satisfies the query |
| Search.FilterAppend | src/searcher.rs:77-91 | the matches of an extended index are the old matches, then the new ones |
| Search.Limit | src/searcher.rs:124-125 | with a maximum, the result has length `min(len, max)`; without one, it is all matches |
| Search.FieldsNamed | src/searcher.rs:115-118 | each default index name is looked up as its schema field, in order |
| Search.Searcher.Open | src/searcher.rs:18-38 | an opened index exposes its documents, all of them committed |
| Search.Searcher.AddArchive | src/searcher.rs:41-67 | on success the document is appended and committed; a failed add changes nothing; a failed commit leaves the document staged but not visible |
| Search.Searcher.WithAllTags | src/searcher.rs:69-103 | the ids of the committed documents carrying every requested tag, in index order; it fails, with an index error, exactly when opening the reader, running the collector or loading one of the matched documents fails |
| Search.Searcher.Search | src/searcher.rs:105-155 | a reader that cannot be opened is an index error; then an unparseable query is a query error; otherwise the ids of the matching committed documents, at most `max`, or an index error exactly when the collector or the loading of one of those documents fails |
| Search.WithAllTagsMembership | src/searcher.rs:69-103 | an id is returned exactly when some committed document with that id has all the tags |
| Search.SearchBound | src/searcher.rs:124-138 | a search returns at most `max` ids, and every match when there is no maximum |
| Search.AddTwiceDuplicates | src/searcher.rs:41-67 | indexing an archive twice makes it match twice: the index does not deduplicate |
| Search.TagQueryExample | src/searcher.rs:77-91 | asking for tags a and b returns, in order, the documents that carry both |
| Search.NoTagsMatchNothing | src/searcher.rs:77-89 | an empty tag list matches no document |
| ArchiveStore.ResetTantivyDir | src/filesystem.rs:58-61 | exactly the paths at or below `meta/tantivy` are gone |
| ArchiveStore.ResetTagsDir | src/filesystem.rs:63-66 | exactly the paths at or below `data/by_tags` are gone |
| ArchiveStore.ResetArtistsDir | src/filesystem.rs:68-71 | exactly the paths at or below `data/by_artist` are gone |
| ArchiveStore.ResetRenderedDir | src/filesystem.rs:73-77 | exactly the paths at or below `rendered/by_tags` or `rendered/by_artist` are gone |
| ArchiveStore.ReindexResetSparesStore | src/filesystem.rs:58-71 | the three resets of a reindex leave the record store and the canonical directories as they were, and remove everything under the index, tag and artist roots |
| ArchiveStore.ResetRenderedKeepsPdfs | src/filesystem.rs:73-77 | resetting the rendered aliases keeps every rendered PDF |
| ArchiveStore.Outcome | src/filesystem.rs:180-188 | a run of links succeeds exactly when no link failed; a failure is a link conflict |
| ArchiveStore.TagAliases | src/filesystem.rs:173-184 | one alias per tag, in tag order, under that tag's directory |
| ArchiveStore.DataAliases | src/filesystem.rs:171-191 | the data aliases are each tag alias in order, then the artist alias |
| ArchiveStore.RenderedAliases | src/filesystem.rs:280-295 | the rendered aliases are each tag's `<name>-<id>.pdf`, then the artist's |
| ArchiveStore.DataLinks | src/filesystem.rs:171-191 | no file changes; a failure is a link conflict; on success every data alias is a link to the canonical directory |
| ArchiveStore.PdfStage | src/filesystem.rs:270-278 | an existing PDF is kept as is; otherwise its directory is created, the result is Ok exactly when rendering succeeded, and a file is left behind unless it could not be created |
| ArchiveStore.RenderStep | src/filesystem.rs:270-298 | no file is lost; a failure is a render or a link error; on success the PDF exists and every rendered alias is a link to it |
| ArchiveStore.FetchDoc | src/filesystem.rs:394-402 | a failed read is a store error, a missing id is not found, an undecodable value is corrupt, and otherwise the stored archive is returned |
| ArchiveStore.FetchInner | src/filesystem.rs:380-392 | never more archives than ids |
| ArchiveStore.FileSystem.Open | src/filesystem.rs:25-56 | the eight layout directories are created; the index is the one on disk if `meta/tantivy` existed, otherwise empty |
| ArchiveStore.FileSystem.HasArchive | src/filesystem.rs:167-169 | true exactly when `data/by_ids/<id>` exists |
| ArchiveStore.FileSystem.LinkAll | src/filesystem.rs:173-188 | the link loop leaves the tree and result of `Tree.LinkEach` and does not touch the record store |
| ArchiveStore.FileSystem.BuildDataSymlinksFor | src/filesystem.rs:171-191 | the tag aliases, then the artist alias, are linked to the canonical directory, stopping at the first failure |
| ArchiveStore.FileSystem.RenderArchive | src/filesystem.rs:270-298 | the PDF stage, then the rendered aliases linked to the PDF |
| ArchiveStore.FileSystem.AddArchive | src/filesystem.rs:193-268 | the new tree, store, index and result are those of `AddSpec`, stage by stage |
| ArchiveStore.FileSystem.WithAllTags | src/filesystem.rs:347-358 | an index read error is passed through; otherwise the stored archives for the index's tag matches, in order |
| ArchiveStore.FileSystem.Search | src/filesystem.rs:360-378 | a query error or an index read error is passed through, exactly as `Search.Searcher.Search` reports it; otherwise the stored archives for the index's matches |
| ArchiveStore.CreateEach | src/filesystem.rs:41-43 | the `open` loop creates each layout directory in turn |
| ArchiveStore.FetchInnerAppend | src/filesystem.rs:380-392 | looking up two runs of ids gives the archives of the first run, then those of the second |
| ArchiveStore.FetchInnerMembership | src/filesystem.rs:380-392 | an archive is returned exactly when some id's lookup succeeds with it: failed lookups are dropped |
| ArchiveStore.FetchInnerAllPresent | src/filesystem.rs:380-392 | when every id holds a readable record, one archive per id is returned, in order |
| ArchiveStore.AddSpec | src/filesystem.rs:193-268 | `add_archive` changes the record store by at most this archive's record and the index by at most its document, staged or committed; the lemmas below state each outcome |
| ArchiveStore.AddKeepsConsistent | src/filesystem.rs:263-265 | the record is stored before it is indexed, so every indexed document keeps a stored record |
| ArchiveStore.ConsistentLookup | src/filesystem.rs:347-378 | on a consistent state whose hit records decode, a tag or query lookup returns one stored archive per hit, in hit order |
| ArchiveStore.AddSkipsPresent | src/filesystem.rs:200-203 | a non-forced add of an id whose canonical directory exists returns false and changes nothing |
| ArchiveStore.AddTrueIff | src/filesystem.rs:193-268 | an add returns true exactly when it was not skipped and the download, extraction, store insert and index update all succeeded; link and render failures play no part |
| ArchiveStore.RenderNonFatal | src/filesystem.rs:250-259 | how rendering ends changes neither the result nor the record store nor the index |
| ArchiveStore.AddSuccess | src/filesystem.rs:261-267 | after a successful add, the store maps the id to the archive, a lookup returns it, the index gained exactly its document, the canonical directory exists, and a second non-forced add is skipped |
| ArchiveStore.IndexFailureKeepsRecord | src/filesystem.rs:263-265 | the store insert happens before indexing, so an index failure leaves the record stored and nothing new visible in the index |
| ArchiveStore.ExtractFailureBlocksRetry | src/filesystem.rs:224-237 | a failed extraction returns false and leaves the store and index alone, but the canonical directory stays, so a later non-forced add of that id is skipped |
| ArchiveStore.DownloadFailureChangesNothing | src/filesystem.rs:210-222 | a failed download is an error, a network or a corrupt one, and changes nothing |
| ArchiveStore.AddKeepsCommittedPrefix | src/filesystem.rs:261-265 | an add keeps the committed documents a prefix of all documents |
| ArchiveStore.AddedTreeKeeps | src/filesystem.rs:224-259 | after extraction the canonical directory exists, and no directory or existing link is lost |
| ArchiveStore.DataLinksTargets | src/filesystem.rs:171-191 | every alias created before a failure, and every new link, points at the canonical directory |
| ArchiveStore.DataLinksFailure | src/filesystem.rs:171-191 | a failing alias is one of the aliases, and it exists in the tree the run leaves |
| ArchiveStore.ExistingPdfKept | src/filesystem.rs:274-278 | an existing PDF is not regenerated |
| ArchiveStore.FailedPdfLeftBehind | src/filesystem.rs:274-278 | when writing the PDF fails, the render fails, the partial PDF stays behind as a file, and no alias is created; by `ExistingPdfKept` a later render keeps it |
| Command.BlobsOf | src/command.rs:40 | the stored values for the keys, in key order |
| Command.ReplayOne | src/command.rs:40-45 | one record of the reindex: it succeeds exactly when it completes; success means it decoded and indexed exactly one document; failure adds at most one document; a record whose read fails is a store error and an undecodable one a corrupt error, and neither changes anything |
| Command.Replay | src/command.rs:40-45 | a completed reindex has done every record |
| Command.ReplaySuccess | src/command.rs:34-48 | a completed reindex decoded every record and indexed each once, in order |
| Command.ReplayAborts | src/command.rs:40-45 | a failed reindex stops at one record, and every record before it decoded |
| Command.ReplayAbortsDocs | src/command.rs:40-45 | after a failed reindex, the records before the failing one are indexed in order, and the failing one added at most its own document |
| Command.StoreKeepsKeyedById | src/filesystem.rs:263-264 | inserting an archive under its own id keeps every record under its own id |
| Command.ReindexOrder | src/command.rs:34-48 | a completed reindex indexes each stored id exactly once, ascending |
| Command.RecordIds | src/command.rs:40-43 | on a store keyed by id, the documents of the records read in key order carry those keys, in order |
| Command.ReplayKeepsStored | src/command.rs:40-45 | a reindex only indexes documents of the records it reads, so their ids stay keys of the store |
| Command.ReindexConsistent | src/command.rs:34-48 | a reindex of a store keyed by id, from an empty index, leaves the index consistent with the store, completed or not |
| Command.ReplayOneKeepsLinks | src/command.rs:44 | one reindex step never removes or retargets an existing link |
| Command.ReplayKeepsLinks | src/command.rs:40-45 | a reindex, completed or not, keeps every link that existed with its target |
| Command.ReplayLinks | src/command.rs:40-45 | after a completed reindex every record decoded, and every tag and artist alias of each is a link to its `data/by_ids/<id>` |
| Command.ReindexLinks | src/command.rs:34-48 | on a store keyed by id, a completed reindex (the tree `DoReindex` ends with) links every alias of every stored archive to `data/by_ids/<id>` |
| Command.DocsOfAllDecoded | src/command.rs:40-45 | when every record decodes, there is one document per record, in order |
| Command.ReindexRecord | src/command.rs:41-44 | decode, index, then link one record, as `ReplayOne` |
| Command.ReindexAll | src/command.rs:40-45 | the loop over the store's records ends in the state and result of `Replay` |
| Command.DoReindex | src/command.rs:34-48 | from the reset tree, an empty index and the store's records in key order, the reindex ends as `Replay` says; the record store is untouched |
| Command.FirstEnd | src/command.rs:57-67 | the first page that is not a list of archives, with every page before it a list |
| Command.StreamExtends | src/command.rs:57-67 | the archives of more pages extend those of fewer |
| Command.AddedMembership | src/command.rs:59-63 | an archive is reported new exactly when its add returned true |
| Command.AddedAppend | src/command.rs:59-63 | the new archives of two runs are those of the first, then those of the second |
| Command.AddRun | src/command.rs:57-67 | a run of non-forced adds: at most one outcome per archive, only the last can be an error, and a run with no error has an outcome for every archive |
| Command.AddRunAppend | src/command.rs:57-67 | a run over two lists is the first run continued, unless it stopped, by the second |
| Command.AddRunSkipsPresent | src/command.rs:60 | an archive whose canonical directory exists (one added earlier in the same run, say) is skipped with false and changes nothing |
| Command.FetchTagReport | src/command.rs:68-75 | "Added no new archives" when there are none; otherwise the heading, then one name per new archive, in order |
| Command.AddStep | src/command.rs:60-62 | one step is `add_archive` without force |
| Command.AddEach | src/command.rs:59-63 | the inner loop ends in the state and outcomes of `AddRun`, and collects the new archives |
| Command.FetchTag | src/command.rs:55-76 | pages are read until the first that is not a list; every archive on them is added in order; the first error ends the command without a report; otherwise the report names the new archives |
| Command.FetchTagReportsNew | src/command.rs:56-75 | an archive is listed exactly when its add in the run returned true |
| Command.FetchIdReport | src/command.rs:80-85 | "Archive was already downloaded" exactly when the add returned true; otherwise the heading and the name |
| Command.FetchId | src/command.rs:77-86 | a failed lookup changes nothing; otherwise one non-forced add, with its error passed through or its message printed |
| Command.FetchIdMessageInverted | src/command.rs:80-85 | a skipped archive is announced as added, and a newly added one as already downloaded |
| Command.NothingFound | src/command.rs:118-120 | the notice is printed exactly when nothing was found |
| Command.GetTag | src/command.rs:115-125 | an index read error is passed through and prints nothing; otherwise the matching stored archives are printed, with the notice when there are none |
| Command.GetId | src/command.rs:126-130 | a failed read, a missing record and an undecodable record are errors and print nothing; otherwise the archive is printed |
| Command.IndexName | src/config.rs:96-104 | each index type names a text field of the schema |
| Command.IndexNameInjective | src/config.rs:96-104 | distinct index types name distinct fields |
| Command.IndexNames | src/command.rs:136 | the names of the chosen index types, in order, all schema fields |
| Command.GetSearch | src/command.rs:131-146 | a query error or an index read error is passed through and prints nothing; otherwise the matching stored archives are printed, with the notice when there are none |
| Pick.NextIndex | src/pick.rs:196-208 | `next`: from no selection item 0, otherwise `(i + 1) mod len`, from past the end item 0 |
| Pick.PrevIndex | src/pick.rs:210-222 | `previous`: from no selection item 0, not the last, otherwise `(i - 1) mod len` |
| Pick.MovesInRange | src/pick.rs:196-222 | in a non-empty list both moves keep the selection on an item |
| Pick.NextPrevInverse | src/pick.rs:196-222 | from an item, `previous` undoes `next` and `next` undoes `previous` |
| Pick.NextN | src/pick.rs:95-99 | repeated `next` always lands on an item |
| Pick.PrevN | src/pick.rs:100-104 | repeated `previous` from no selection or an item lands on an item |
| Pick.NextNMod | src/pick.rs:95-99 | n steps forward from item i reach item `(i + n) mod len` |
| Pick.PrevNMod | src/pick.rs:100-104 | n steps back from item i reach item `(i - n) mod len` |
| Pick.FromNone | src/pick.rs:95-104 | from no selection, n steps reach `(n - 1) mod len` forward and `(-(n - 1)) mod len` back |
| Pick.StatefulList.WithItems | src/pick.rs:181-186 | a new list holds the items and has no selection |
| Pick.StatefulList.Selected | src/pick.rs:192-194 | the current selection, as `ListState::selected` returns it |
| Pick.StatefulList.Next | src/pick.rs:196-208 | the selection becomes `NextIndex` of the old one; the items do not change |
| Pick.StatefulList.Previous | src/pick.rs:210-222 | the selection becomes `PrevIndex` of the old one; the items do not change |
| Pick.StatefulList.PageDown | src/pick.rs:95-99 | ten `next` calls: from item i, item `(i + 10) mod len`; from no selection, item `9 mod len`; the items do not change |
| Pick.StatefulList.PageUp | src/pick.rs:100-104 | ten `previous` calls: from item i, item `(i - 10) mod len`; from no selection, item `(-9) mod len`; the items do not change |
| Pick.Ends | src/pick.rs:90-107 | only `q`, Esc and Enter end the loop: `q` and Esc with no choice, Enter with the current selection |
| Pick.QuitGivesNone | src/pick.rs:91-92 | `q` or Esc ends the pick without a choice, whatever follows |
| Pick.EnterGivesSelection | src/pick.rs:105 | Enter after a run of moves returns the selection those moves reached |
| Pick.ChoiceOnItem | src/pick.rs:74-121 | starting from no selection or an item, the selection and any choice stay on an item |
| Pick.RunApp | src/pick.rs:74-121 | the event loop ends with the ending and selection of `RunSpec`, moving the cursor by arrow keys, page keys and the mouse wheel |
| Pick.PickSpec | src/pick.rs:50-72 | any archive picked is one of the inputs |
| Pick.PickFirstKeys | src/pick.rs:59-61 | item 0 is selected before the loop: Enter first picks the first archive, and `q` or Esc first picks nothing |
| Pick.DoPick | src/pick.rs:50-72 | the list is built, `next` selects item 0, the loop runs, and a chosen index is mapped to its archive |

## Left out

- HTTP and scraping are not modelled: src/client.rs, src/downloader.rs, and `fetch_archive`, `by_id` and `fetch_tag_page`. Tag pages, the fetched archive and download responses are inputs, each of which may fail.
- Tantivy's tokenisation, query parsing and scoring are foreign library behaviour. Parsing and matching are a `QueryLanguage` parameter.
- Search.Limit: keeps the first `max` matches in index order, not the `max` best-scoring ones, because scoring is not modelled. A maximum of 0, which the command line accepts, gives no matches here; how tantivy's `TopDocs::with_limit` treats a limit of 0 is outside this code and is not modelled.
- Search.Searcher.WithAllTags: tantivy's `DocSetCollector` yields a hash set of document addresses, so the source gives the hits in an unspecified order; the model chooses index order. The same holds for `Search.Searcher.Search` without a maximum (src/searcher.rs:141-151), and for the lookups of `ArchiveStore.FileSystem` built on both. A term query's exact-token matching is modelled as equality of tag values.
- Search.NoTagsMatchNothing: an empty tag list is assumed to match nothing, which is how an empty tantivy boolean query behaves; that behaviour is outside this code.
- The wire formats of sled and CBOR are not modelled. The store is a map from id to value, justified by `StoreKeys.Be4Injective` and `StoreKeys.Be4Order`. A serialisation failure is folded into a failed store insert.
- I/O errors of `create_dir_all`, `sled::open` and `Searcher::new` are not modelled. Read errors are: of the index through `ReadFault`, of the record store through `ReadFails` records. `ArchiveStore.FileSystem.Open` always succeeds, and no `create_dir_all` fails during add, link or render.
- Zip extraction and PDF contents are not modelled: image decoding, `printpdf`, and page sizes at 300 dpi, which are floating point. Extraction is a boolean input and PDF generation a `PdfOutcome`. The directory walk is an input sequence, already sorted by file name.
- Layout.Push: a `..` component is kept as an ordinary name; the operating system resolves it against the directory above. A tag or artist such as `..` or `a/..` therefore puts its alias somewhere other than the model says: for the tag `..`, the source links `data/<name>-<id>`, which the reindex resets do not remove. `Layout.Plain` excludes `..`, so the layout lemmas only speak of names where the two agree.
- Command.Replay: a failed step of the store's iteration (`v?`, src/command.rs:41) is modelled as a record whose read fails, so it happens at a record; an iteration error after the last record is not modelled.
- Symbolic-link semantics are not modelled beyond "a link cannot be created at an existing path". Links are neither followed nor resolved.
- The terminal UI is not modelled: `render_archive` (the list text), `ui`, raw mode and the alternate screen, polling and the tick timer, and terminal errors. The list items are the input archives themselves.
- Pick.DoPick: requires a non-empty input list. On an empty list the source still returns no choice for `q` or Esc. Enter, however, indexes the empty slice (src/pick.rs:71), which always panics. Any cursor move computes `len() - 1` on zero (src/pick.rs:199, 214), which panics when overflow checks are on and otherwise wraps to `usize::MAX`, leaving a selection no item has.
- Pick.RunApp: requires a non-empty list, for the same `len() - 1` underflow. When the events run out without `q`, Esc or Enter, the model reports the loop as still waiting, where the source blocks for more input.
- Scrape.AsArchive: requires at least one artist; the source panics (`unwrap`) otherwise.
- Search.Searcher.Search: requires every default index name to be a schema field; the source panics (`unwrap`) otherwise. `Command.IndexNames` shows the commands always pass such names.
- Command.FetchTag: requires that some page is not a list of archives. The source's `for page in 1..` (src/command.rs:57) has no bound and ends only when a page is not available or a request fails; a tag whose pages never end is excluded. The outside world's behaviour during an add is a function of the id, so an id that appears twice in one run meets the same download and extraction outcome both times.
- The `Dir` command, `OutputAsType::print` and the `Completion` command are not modelled. They rely on `dir_of_id`, `tag_dir`, `artist_dir` and `dir_of_artist`, which src/filesystem.rs does not define at this revision. Printing is modelled as the list of archives handed to the formatter.
- Progress bars, tracing and the `RUNNING` flag in src/utils.rs are not modelled. No code shown reads the flag.
- The async runtime and the index writer's mutex are not modelled. Every operation runs to completion before the next one starts.
