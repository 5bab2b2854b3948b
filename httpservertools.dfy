/** The server's response compressor (internal/httpserver/tools.go): the
    request's Accept-Encoding list picks gzip or deflate for the response
    body. Only the first listed encoding is looked at, because every branch
    of the loop's switch returns. The codecs are parameters. */
module HTTPServerTools {
  import opened Wrappers
  import opened GoLib
  import opened HTTPHeader

  /** A compressor: the compressed bytes, or its error. */
  type Codec = seq<Byte> -> Result<seq<Byte>>

  /** The body sent and the Content-Encoding set, if any. */
  datatype Compressed = Compressed(data: seq<Byte>, contentEncoding: Option<string>)

  /** The first comma-separated piece, untrimmed. */
  function FirstToken(acceptEncoding: string): string {
    Split(acceptEncoding, ',')[0]
  }

  /** What Compressor sends, by the first listed encoding. */
  function Compression(acceptEncoding: string, data: seq<Byte>, gzip: Codec, deflate: Codec): (r: Compressed)
    ensures acceptEncoding == "" ==> r == Compressed(data, None)
    ensures r.contentEncoding.None? ==> r.data == data
    ensures r.contentEncoding == Some("gzip") <==>
      acceptEncoding != "" && FirstToken(acceptEncoding) == "gzip" && gzip(data).Ok?
    ensures r.contentEncoding == Some("deflate") <==>
      acceptEncoding != "" && FirstToken(acceptEncoding) == "deflate" && deflate(data).Ok?
    ensures r.contentEncoding == Some("gzip") ==> gzip(data) == Ok(r.data)
    ensures r.contentEncoding == Some("deflate") ==> deflate(data) == Ok(r.data)
    ensures r.contentEncoding.Some? ==> r.contentEncoding == Some("gzip") || r.contentEncoding == Some("deflate")
  {
    if acceptEncoding == "" then Compressed(data, None)
    else
      match FirstToken(acceptEncoding)
      case "gzip" =>
        (match gzip(data)
         case Err(_) => Compressed(data, None)
         case Ok(gzData) => Compressed(gzData, Some("gzip")))
      case "deflate" =>
        (match deflate(data)
         case Err(_) => Compressed(data, None)
         case Ok(deflateData) => Compressed(deflateData, Some("deflate")))
      case _ => Compressed(data, None)
  }

  /** Compressor: the body Compression chooses, with Content-Encoding set
      only when a codec was applied, and no other header touched. */
  method Compressor(header: Header, acceptEncoding: string, data: seq<Byte>, gzip: Codec, deflate: Codec)
    returns (out: seq<Byte>)
    modifies header
    ensures out == Compression(acceptEncoding, data, gzip, deflate).data
    ensures header.fields == match Compression(acceptEncoding, data, gzip, deflate).contentEncoding
      case None => old(header.fields)
      case Some(e) => old(header.fields)[HeaderContentEncoding := e]
  {
    if acceptEncoding == "" {
      return data;
    }
    var acceptEncodings := Split(acceptEncoding, ',');
    for i := 0 to |acceptEncodings|
      invariant i == 0
    {
      var encoding := acceptEncodings[i];
      if encoding == "gzip" {
        var gzData := gzip(data);
        if gzData.Err? {
          return data;
        }
        header.Set(HeaderContentEncoding, "gzip");
        return gzData.value;
      } else if encoding == "deflate" {
        var deflateData := deflate(data);
        if deflateData.Err? {
          return data;
        }
        header.Set(HeaderContentEncoding, "deflate");
        return deflateData.value;
      } else {
        return data;
      }
    }
    return data;
  }

  /** Everything after the first comma is ignored. */
  lemma {:induction false} OnlyFirstToken(first: string, rest: string, data: seq<Byte>, gzip: Codec, deflate: Codec)
    requires ',' !in first
    ensures Compression(first + "," + rest, data, gzip, deflate) == Compression(first, data, gzip, deflate)
  {
    SplitAppend(first, ',', rest);
    SplitNoSeparator(first, ',');
    assert FirstToken(first + "," + rest) == first;
    if first != "" {
      assert FirstToken(first) == first;
    }
  }

  /** Tokens are not trimmed: after a space, "gzip" is not recognised. */
  lemma SpaceDefeatsGzip(data: seq<Byte>, gzip: Codec, deflate: Codec)
    ensures Compression(" gzip", data, gzip, deflate) == Compressed(data, None)
  {
    SplitNoSeparator(" gzip", ',');
  }
}
