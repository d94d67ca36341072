/** The directory layout under the base directory (src/filesystem.rs, the path helpers).

    A path is its sequence of components, which is how paths compare. Joining a
    constant relative path such as "data/" appends its components. Joining a
    string built at run time goes through `Push`, which behaves like
    `PathBuf::push`: the string is split at '/', empty and `.` components
    vanish (as `Path::components` drops them), and a string that starts with
    '/' replaces the whole path by an absolute one. A `..` component is kept
    as a name: the operating system's resolution of it is not modelled. */
module Layout {
  import opened Common
  import opened Archives

  type Path = seq<string>

  /** The root component of an absolute path. */
  const Root: string := "/"

  /** The components of a path string, without the empty and `.` ones. */
  function Components(s: string): (cs: seq<string>)
    ensures forall k :: 0 <= k < |cs| ==> cs[k] != "" && cs[k] != "." && '/' !in cs[k]
    decreases |s|
  {
    if s == [] then []
    else if s[0] == '/' then Components(s[1..])
    else
      var n := FirstIndexOf(s, '/');
      (if s[..n] == "." then [] else [s[..n]]) + Components(s[n..])
  }

  /** `path.join(s)` for a string `s` computed at run time. */
  function Push(p: Path, s: string): (q: Path)
    ensures !(|s| > 0 && s[0] == '/') ==> |p| <= |q| && q[..|p|] == p
  {
    if |s| > 0 && s[0] == '/' then [Root] + Components(s) else p + Components(s)
  }

  /** A string that is usable as exactly one path component naming an entry
      of the directory it is pushed onto. */
  predicate Plain(s: string)
  {
    s != "" && s != "." && s != ".." && '/' !in s
  }

  lemma ComponentsOfPlain(s: string)
    requires Plain(s)
    ensures Components(s) == [s]
    ensures Components(s + "/") == [s]
  {
    assert s[..FirstIndexOf(s, '/')] == s;
    var t := s + "/";
    assert t[|s|] == '/';
    assert forall j :: 0 <= j < |s| ==> t[j] == s[j];
    assert t[..FirstIndexOf(t, '/')] == s;
    assert t[|s|..] == "/";
    assert Components("/") == Components("");
  }

  /** Pushing a plain string, or a plain string with a trailing '/', adds one component. */
  lemma PushPlain(p: Path, s: string)
    requires Plain(s)
    ensures Push(p, s) == p + [s]
    ensures Push(p, s + "/") == p + [s]
  {
    ComponentsOfPlain(s);
  }

  /** `format!("{n}")`: the decimal digits of n. */
  function Dec(n: nat): (s: string)
    ensures |s| > 0
    ensures forall i :: 0 <= i < |s| ==> '0' <= s[i] <= '9'
  {
    if n < 10 then [Digit(n)] else Dec(n / 10) + [Digit(n % 10)]
  }

  function Digit(d: nat): (c: char)
    requires d < 10
    ensures '0' <= c <= '9'
  {
    (d + '0' as int) as char
  }

  /** Different ids have different decimal forms. */
  lemma {:induction false} DecInjective(a: nat, b: nat)
    requires Dec(a) == Dec(b)
    ensures a == b
  {
    if a >= 10 && b >= 10 {
      var s := Dec(a);
      assert s[|s| - 1] == Digit(a % 10);
      assert Dec(b)[|s| - 1] == Digit(b % 10);
      assert Dec(a / 10) == s[..|s| - 1] == Dec(b / 10);
      DecInjective(a / 10, b / 10);
    }
  }

  lemma DecPlain(n: nat)
    ensures Plain(Dec(n))
  {
    var s := Dec(n);
    assert forall i :: 0 <= i < |s| ==> s[i] != '/';
    assert s[0] != '.';
  }

  /** `format!("{}-{}", archive.name, archive.id)`: an archive's file name in the alias views. */
  function NameId(a: Archive): string
  {
    a.name + "-" + Dec(a.id as nat)
  }

  lemma NameIdPlain(a: Archive)
    requires '/' !in a.name
    ensures Plain(NameId(a))
  {
    DecPlain(a.id as nat);
    var d := Dec(a.id as nat);
    assert NameId(a) == a.name + ("-" + d);
    assert forall i :: 0 <= i < |d| ==> d[i] != '/';
    assert NameId(a)[|a.name|] == '-';
  }

  // The fixed subtrees of the base directory.

  function DataDir(base: Path): Path { base + ["data"] }
  function MetaDir(base: Path): Path { base + ["meta"] }
  function RenderedDir(base: Path): Path { base + ["rendered"] }

  /** `tantivy_dir()` as written: it joins "sled/", so it names the record store's directory. */
  function TantivyDir(base: Path): (p: Path)
    ensures p == base + ["meta", "sled"]
  {
    MetaDir(base) + ["sled"]
  }

  function SledDir(base: Path): (p: Path)
    ensures p == base + ["meta", "sled"]
  {
    MetaDir(base) + ["sled"]
  }

  /** The directory the index is actually opened in and reset from:
      "meta/tantivy/", beside the record store and not where `TantivyDir`
      points. */
  function IndexDir(base: Path): (p: Path)
    ensures Under(p, MetaDir(base)) && p != SledDir(base) && p != TantivyDir(base)
  {
    var p := base + ["meta", "tantivy"];
    assert p[|base| + 1] != SledDir(base)[|base| + 1];
    p
  }

  function DataIdDir(base: Path): Path { DataDir(base) + ["by_ids"] }
  function DataTagDir(base: Path): Path { DataDir(base) + ["by_tags"] }
  function DataArtistDir(base: Path): Path { DataDir(base) + ["by_artist"] }

  /** The canonical directory of one archive, `data/by_ids/<id>/`. */
  function DataDirOfId(base: Path, id: u32): (p: Path)
    ensures p == base + ["data", "by_ids", Dec(id as nat)]
  {
    DecPlain(id as nat);
    PushPlain(DataIdDir(base), Dec(id as nat));
    Push(DataIdDir(base), Dec(id as nat) + "/")
  }

  function DataDirOfTag(base: Path, tag: string): (p: Path)
    ensures Plain(tag) ==> p == DataTagDir(base) + [tag]
  {
    PushDir(DataTagDir(base), tag);
    Push(DataTagDir(base), tag + "/")
  }

  function DataDirOfArtist(base: Path, artist: string): (p: Path)
    ensures Plain(artist) ==> p == DataArtistDir(base) + [artist]
  {
    PushDir(DataArtistDir(base), artist);
    Push(DataArtistDir(base), artist + "/")
  }

  function DataDirForArchiveByArtist(base: Path, a: Archive): (p: Path)
    ensures '/' !in a.name ==> p == DataDirOfArtist(base, a.artist) + [NameId(a)]
  {
    PushName(DataDirOfArtist(base, a.artist), a);
    Push(DataDirOfArtist(base, a.artist), NameId(a))
  }

  function DataDirForArchiveByTag(base: Path, tag: string, a: Archive): (p: Path)
    ensures '/' !in a.name ==> p == DataDirOfTag(base, tag) + [NameId(a)]
  {
    PushName(DataDirOfTag(base, tag), a);
    Push(DataDirOfTag(base, tag), NameId(a))
  }

  function RenderedIdDir(base: Path): Path { RenderedDir(base) + ["by_ids"] }
  function RenderedTagDir(base: Path): Path { RenderedDir(base) + ["by_tags"] }
  function RenderedArtistDir(base: Path): Path { RenderedDir(base) + ["by_artist"] }

  /** The rendered PDF of one archive, `rendered/by_ids/<id>.pdf`. */
  function RenderedFileOfId(base: Path, id: u32): (p: Path)
    ensures p == base + ["rendered", "by_ids", Dec(id as nat) + ".pdf"]
  {
    var f := Dec(id as nat) + ".pdf";
    DecPlain(id as nat);
    assert forall i :: 0 <= i < |f| ==> f[i] != '/' by {
      assert forall i :: 0 <= i < |f| ==> f[i] == if i < |Dec(id as nat)| then Dec(id as nat)[i] else ".pdf"[i - |Dec(id as nat)|];
    }
    PushPlain(RenderedIdDir(base), f);
    Push(RenderedIdDir(base), f)
  }

  function RenderedDirOfTag(base: Path, tag: string): (p: Path)
    ensures Plain(tag) ==> p == RenderedTagDir(base) + [tag]
  {
    PushDir(RenderedTagDir(base), tag);
    Push(RenderedTagDir(base), tag + "/")
  }

  function RenderedDirOfArtist(base: Path, artist: string): (p: Path)
    ensures Plain(artist) ==> p == RenderedArtistDir(base) + [artist]
  {
    PushDir(RenderedArtistDir(base), artist);
    Push(RenderedArtistDir(base), artist + "/")
  }

  /** `format!("{}-{}.pdf", archive.name, archive.id)`. */
  function NameIdPdf(a: Archive): string
  {
    a.name + "-" + Dec(a.id as nat) + ".pdf"
  }

  function RenderedFileForArchiveByArtist(base: Path, a: Archive): (p: Path)
    ensures '/' !in a.name ==> p == RenderedDirOfArtist(base, a.artist) + [NameIdPdf(a)]
  {
    PushName(RenderedDirOfArtist(base, a.artist), a);
    Push(RenderedDirOfArtist(base, a.artist), NameIdPdf(a))
  }

  function RenderedFileForArchiveByTag(base: Path, tag: string, a: Archive): (p: Path)
    ensures '/' !in a.name ==> p == RenderedDirOfTag(base, tag) + [NameIdPdf(a)]
  {
    PushName(RenderedDirOfTag(base, tag), a);
    Push(RenderedDirOfTag(base, tag), NameIdPdf(a))
  }

  /** The directories `FileSystem::open` creates, in its order. */
  function LayoutDirs(base: Path): (ds: seq<Path>)
    ensures |ds| == 8
    ensures DataIdDir(base) in ds && DataTagDir(base) in ds && DataArtistDir(base) in ds
    ensures IndexDir(base) in ds && SledDir(base) in ds
  {
    [ DataIdDir(base), DataTagDir(base), DataArtistDir(base),
      RenderedIdDir(base), RenderedTagDir(base), RenderedArtistDir(base),
      IndexDir(base), SledDir(base) ]
  }

  /** `p` is `q` or lies below it. */
  predicate Under(p: Path, q: Path)
  {
    |q| <= |p| && p[..|q|] == q
  }

  /** With a plain tag and a name without '/', the tag alias is
      `data/by_tags/<tag>/<name>-<id>`. */
  lemma TagAliasLayout(base: Path, tag: string, a: Archive)
    requires Plain(tag) && '/' !in a.name
    ensures DataDirForArchiveByTag(base, tag, a) == base + ["data", "by_tags", tag, NameId(a)]
  {
    PushPlain(DataTagDir(base), tag);
    NameIdPlain(a);
    PushPlain(DataDirOfTag(base, tag), NameId(a));
  }

  /** With a plain artist and a name without '/', the artist alias is
      `data/by_artist/<artist>/<name>-<id>`. */
  lemma ArtistAliasLayout(base: Path, a: Archive)
    requires Plain(a.artist) && '/' !in a.name
    ensures DataDirForArchiveByArtist(base, a) == base + ["data", "by_artist", a.artist, NameId(a)]
  {
    PushPlain(DataArtistDir(base), a.artist);
    NameIdPlain(a);
    PushPlain(DataDirOfArtist(base, a.artist), NameId(a));
  }

  /** A tag named "." formats as "./", whose only component is dropped: the
      alias lands directly in the tag root. */
  lemma DotTagIsTagRoot(base: Path, a: Archive)
    requires '/' !in a.name
    ensures DataDirOfTag(base, ".") == DataTagDir(base)
    ensures DataDirForArchiveByTag(base, ".", a) == base + ["data", "by_tags", NameId(a)]
  {
    var s := "." + "/";
    assert FirstIndexOf(s, '/') == 1;
    assert s[..1] == "." && s[1..] == "/";
    assert Components("/") == Components("");
    assert Components(s) == [];
    NameIdPlain(a);
    PushPlain(DataTagDir(base), NameId(a));
  }

  /** An empty tag name formats as "/", which is absolute: the alias lands in
      the root directory, outside the base directory. */
  lemma EmptyTagEscapesBase(base: Path, a: Archive)
    requires '/' !in a.name
    ensures DataDirOfTag(base, "") == [Root]
    ensures DataDirForArchiveByTag(base, "", a) == [Root, NameId(a)]
  {
    assert "" + "/" == "/";
    assert Components("/") == Components("");
    NameIdPlain(a);
    PushPlain([Root], NameId(a));
  }

  /** Distinct ids have distinct canonical directories. */
  lemma CanonicalDirsDistinct(base: Path, i: u32, j: u32)
    requires i != j
    ensures DataDirOfId(base, i) != DataDirOfId(base, j)
  {
    if DataDirOfId(base, i) == DataDirOfId(base, j) {
      assert DataDirOfId(base, i)[|base| + 2] == Dec(i as nat);
      assert DataDirOfId(base, j)[|base| + 2] == Dec(j as nat);
      DecInjective(i as nat, j as nat);
    }
  }

  /** The subtrees a reindex removes are disjoint from the record store and
      from the canonical directories. */
  lemma ResetRootsSpareStore(base: Path, p: Path)
    requires Under(p, SledDir(base)) || Under(p, DataIdDir(base))
    ensures !Under(p, IndexDir(base)) && !Under(p, DataTagDir(base)) && !Under(p, DataArtistDir(base))
  {
    assert p[|base|] == SledDir(base)[|base|] || p[|base|] == DataIdDir(base)[|base|];
    assert p[|base| + 1] == SledDir(base)[|base| + 1] || p[|base| + 1] == DataIdDir(base)[|base| + 1];
  }

  /** A path with at least one component, as every link path is. */
  type LinkPath = p: Path | |p| > 0 witness ["data"]

  /** `path.parent()`; the source unwraps it, so it is only taken of non-empty paths. */
  function Parent(p: Path): Path
    requires |p| > 0
  {
    p[..|p| - 1]
  }

  /** A character other than '/' and '.' lies in a component that stays. */
  lemma {:induction false} ComponentsNonEmpty(s: string, i: nat)
    requires i < |s| && s[i] != '/' && s[i] != '.'
    ensures |Components(s)| > 0
    decreases |s|
  {
    if s[0] == '/' {
      ComponentsNonEmpty(s[1..], i - 1);
    } else {
      var n := FirstIndexOf(s, '/');
      if i < n {
        assert s[..n][i] == s[i];
      } else {
        ComponentsNonEmpty(s[n..], i - n);
      }
    }
  }

  /** A directory named by a plain string and a trailing '/' is one component deeper. */
  lemma PushDir(p: Path, s: string)
    ensures Plain(s) ==> Push(p, s + "/") == p + [s]
  {
    if Plain(s) {
      PushPlain(p, s);
    }
  }

  lemma NameIdPdfPlain(a: Archive)
    requires '/' !in a.name
    ensures Plain(NameIdPdf(a))
  {
    DecPlain(a.id as nat);
    var d := Dec(a.id as nat);
    assert NameIdPdf(a) == a.name + ("-" + d + ".pdf");
    assert forall i :: 0 <= i < |d| ==> d[i] != '/';
    assert NameIdPdf(a)[|a.name|] == '-';
  }

  /** The alias file names of an archive whose name has no '/' are one
      component each. */
  lemma PushName(p: Path, a: Archive)
    ensures '/' !in a.name ==> Push(p, NameId(a)) == p + [NameId(a)]
    ensures '/' !in a.name ==> Push(p, NameIdPdf(a)) == p + [NameIdPdf(a)]
  {
    if '/' !in a.name {
      NameIdPlain(a);
      NameIdPdfPlain(a);
      PushPlain(p, NameId(a));
      PushPlain(p, NameIdPdf(a));
    }
  }

  /** An alias file name always contributes a component, so an alias path is
      never the root and its parent exists. */
  lemma AliasNonEmpty(p: Path, a: Archive)
    ensures |Push(p, NameId(a))| >= 1
    ensures |Push(p, NameIdPdf(a))| >= 1
  {
    assert NameId(a)[|a.name|] == '-';
    assert NameIdPdf(a)[|a.name|] == '-';
    ComponentsNonEmpty(NameId(a), |a.name|);
    ComponentsNonEmpty(NameIdPdf(a), |a.name|);
  }
}
