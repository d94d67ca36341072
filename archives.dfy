/** The archive record (src/archives.rs) and the buffer loop of its download. */
module Archives {
  import opened Common

  type Url = string

  /** A tag: its url slug and its display name. */
  datatype Tag = Tag(path: string, name: string)

  /** One archive of the catalog, as stored and indexed. */
  datatype Archive = Archive(
    id: u32,
    name: string,
    artist: string,
    parody: string,
    tags: seq<Tag>,
    numPages: u16,
    baseUrl: Url,
    downloadUrl: Url)

  /** `[artist] name`: the artist in brackets, a space, then the name. */
  function PrettySingleLine(a: Archive): (s: string)
    ensures |s| == |a.artist| + |a.name| + 3
    ensures s[0] == '[' && s[1..|a.artist| + 1] == a.artist
    ensures s[|a.artist| + 1 .. |a.artist| + 3] == "] "
    ensures s[|a.artist| + 3..] == a.name
  {
    "[" + a.artist + "] " + a.name
  }

  /** When neither artist contains ']', the one-line form determines artist and name. */
  lemma PrettySingleLineInjective(a: Archive, b: Archive)
    requires ']' !in a.artist && ']' !in b.artist
    requires PrettySingleLine(a) == PrettySingleLine(b)
    ensures a.artist == b.artist && a.name == b.name
  {
    var s := PrettySingleLine(a);
    var t := PrettySingleLine(b);
    assert s[1..] == a.artist + "] " + a.name;
    assert t[1..] == b.artist + "] " + b.name;
    PrefixBracket(a.artist, "] " + a.name);
    PrefixBracket(b.artist, "] " + b.name);
    assert |a.artist| == |b.artist|;
  }

  lemma PrefixBracket(x: string, rest: string)
    requires ']' !in x && |rest| > 0 && rest[0] == ']'
    ensures FirstIndexOf(x + rest, ']') == |x|
  {
    assert (x + rest)[|x|] == ']';
    assert forall j :: 0 <= j < |x| ==> (x + rest)[j] == x[j];
  }

  /** What the HTTP response delivers: nothing (the request failed), or a
      content length and a run of chunks that ends cleanly or with an error. */
  datatype Response =
    | NoResponse
    | Body(contentLength: Option<nat>, chunks: seq<seq<byte>>, broken: bool)

  /** One call of the progress inspector: the content length it was given,
      the chunk, and the buffer as it stood when the inspector ran. */
  datatype InspectorCall = InspectorCall(contentLength: Option<nat>, chunk: seq<byte>, buffer: seq<byte>)

  /** Concatenation of chunks in arrival order. */
  function Concat(chunks: seq<seq<byte>>): (r: seq<byte>)
  {
    if chunks == [] then [] else Concat(chunks[..|chunks| - 1]) + chunks[|chunks| - 1]
  }

  /** The body loop of `Archive::download`. On success the zip is opened over
      the buffer; `isZip` stands for the zip reader accepting those bytes. The
      size hint only reserves capacity, so it appears nowhere in the result. */
  method Download(response: Response, isZip: seq<byte> -> bool)
    returns (r: Result<seq<byte>>, calls: seq<InspectorCall>)
    ensures response.NoResponse? ==> r == Err(Network) && calls == []
    ensures response.Body? ==>
      && |calls| == |response.chunks|
      && (forall i :: 0 <= i < |calls| ==>
            calls[i] == InspectorCall(response.contentLength, response.chunks[i], Concat(response.chunks[..i + 1])))
      && (r.Ok? <==> !response.broken && isZip(Concat(response.chunks)))
      && (r.Ok? ==> r.value == Concat(response.chunks))
      && (r.Err? ==> r.error == (if response.broken then Network else Corrupt))
  {
    if response.NoResponse? {
      return Err(Network), [];
    }
    var v: seq<byte> := [];
    calls := [];
    var i := 0;
    while i < |response.chunks|
      invariant 0 <= i <= |response.chunks|
      invariant v == Concat(response.chunks[..i])
      invariant |calls| == i
      invariant forall j :: 0 <= j < i ==>
        calls[j] == InspectorCall(response.contentLength, response.chunks[j], Concat(response.chunks[..j + 1]))
    {
      var buf := response.chunks[i];
      v := v + buf;
      assert response.chunks[..i + 1][..i] == response.chunks[..i];
      calls := calls + [InspectorCall(response.contentLength, buf, v)];
      i := i + 1;
    }
    assert response.chunks[..i] == response.chunks;
    if response.broken {
      return Err(Network), calls;
    }
    if !isZip(v) {
      return Err(Corrupt), calls;
    }
    r := Ok(v);
  }
}
