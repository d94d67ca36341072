/** The choice of pages for a rendered archive (src/filesystem.rs,
    `generate_pdf_for`): the walk of the extracted directory, filtered to
    regular files whose extension is `png`, `jpg` or `jpeg`. */
module PdfImages {
  import opened Common
  import opened Layout

  /** One item of the directory walk: an entry with its path and whether it
      is a regular file, or an entry the walk could not read. */
  datatype WalkEntry = Entry(path: Path, isFile: bool) | WalkError

  /** Index of the last '.' in `s`. */
  function LastDot(s: string): (k: Option<nat>)
    ensures k.None? <==> '.' !in s
    ensures k.Some? ==> k.value < |s| && s[k.value] == '.' && '.' !in s[k.value + 1..]
  {
    if s == [] then None
    else if s[|s| - 1] == '.' then Some(|s| - 1)
    else
      var k := LastDot(s[..|s| - 1]);
      assert k.Some? ==> s[k.value + 1..] == s[..|s| - 1][k.value + 1..] + [s[|s| - 1]];
      k
  }

  /** `Path::extension` of a file name: the text after the last '.', unless
      the name is "..", has no '.', or its only '.' is its first character. */
  function Extension(name: string): (e: Option<string>)
    ensures e.Some? <==> name != ".." && exists k :: 0 < k < |name| && name[k] == '.'
    ensures e.Some? ==> '.' !in e.value
    ensures e.Some? ==> exists k :: 0 < k < |name| && name[k] == '.' && e.value == name[k + 1..]
  {
    if name == ".." then None
    else
      match LastDot(name)
      case None => None
      case Some(k) =>
        if k == 0 then
          assert forall j :: 0 < j < |name| ==> name[j] in name[1..];
          None
        else Some(name[k + 1..])
  }

  /** The last component of a path, when it has one. */
  function FileName(p: Path): (n: Option<string>)
    ensures n.Some? <==> |p| > 0
    ensures n.Some? ==> n.value == p[|p| - 1]
  {
    if p == [] then None else Some(p[|p| - 1])
  }

  /** The extensions that make a file a page image; the comparison is exact,
      so no case folding. */
  const ImageTypes: set<string> := {"png", "jpg", "jpeg"}

  /** The filter chain: readable, a regular file, and an image extension. */
  predicate IsImage(e: WalkEntry)
  {
    && e.Entry?
    && e.isFile
    && FileName(e.path).Some?
    && var ext := Extension(FileName(e.path).value);
       ext.Some? && ext.value in ImageTypes
  }

  /** The image paths, in the order the walk produced them. */
  function Images(es: seq<WalkEntry>): (r: seq<Path>)
    ensures |r| <= |es|
  {
    if es == [] then []
    else (if IsImage(es[0]) then [es[0].path] else []) + Images(es[1..])
  }

  /** A path is a page exactly when some walk entry with that path passes
      the filter. */
  lemma {:induction false} ImagesMembership(es: seq<WalkEntry>, p: Path)
    ensures p in Images(es) <==> exists i :: 0 <= i < |es| && IsImage(es[i]) && es[i].path == p
  {
    if es != [] {
      ImagesMembership(es[1..], p);
      if exists i :: 0 <= i < |es| && IsImage(es[i]) && es[i].path == p {
        var i :| 0 <= i < |es| && IsImage(es[i]) && es[i].path == p;
        if i > 0 {
          assert es[1..][i - 1] == es[i];
        }
      }
      if exists i :: 0 <= i < |es| - 1 && IsImage(es[1..][i]) && es[1..][i].path == p {
        var i :| 0 <= i < |es| - 1 && IsImage(es[1..][i]) && es[1..][i].path == p;
        assert es[i + 1] == es[1..][i];
      }
    }
  }

  /** The filter keeps walk order: the pages of two consecutive runs of the
      walk are the pages of the first run followed by those of the second. */
  lemma {:induction false} ImagesAppend(a: seq<WalkEntry>, b: seq<WalkEntry>)
    ensures Images(a + b) == Images(a) + Images(b)
  {
    if a == [] {
      assert a + b == b;
    } else {
      assert (a + b)[0] == a[0];
      assert (a + b)[1..] == a[1..] + b;
      ImagesAppend(a[1..], b);
    }
  }

  /** Walk errors and directories never become pages. */
  lemma SkipsNonFiles(p: Path)
    ensures Images([WalkError]) == []
    ensures Images([Entry(p, false)]) == []
  {
  }

  /** The last dot is the one with no dot after it. */
  lemma {:induction false} LastDotAt(s: string, k: nat)
    requires k < |s| && s[k] == '.' && '.' !in s[k + 1..]
    ensures LastDot(s) == Some(k)
    decreases |s|
  {
    if k < |s| - 1 {
      assert s[|s| - 1] in s[k + 1..];
      var s' := s[..|s| - 1];
      assert s[k + 1..] == s'[k + 1..] + [s[|s| - 1]];
      LastDotAt(s', k);
    }
  }

  /** Upper-case and hidden names are refused. */
  lemma RefusedImageExamples()
    ensures !IsImage(Entry(["x", "001.PNG"], true))
    ensures !IsImage(Entry(["x", ".png"], true))
  {
    LastDotAt("001.PNG", 3);
    LastDotAt(".png", 0);
    assert "001.PNG"[4..] == "PNG";
  }
}
