/** The later server compressor (internal/datacompressor/compressor.go):
    ServerCompress scans the whole Accept-Encoding list for the first entry
    that is exactly "gzip" or "deflate", and always writes one of three
    fixed header sets. The codecs GZIPCompress and DeflateCompress are
    parameters. */
module DataCompressor {
  import opened Wrappers
  import opened GoLib
  import opened HTTPHeader
  import HTTPServerTools

  const ContentEncodingGZIP: string := "gzip"
  const ContentEncodingDeflate: string := "deflate"

  const GZIPHeaderParams: map<string, string> := map[
    HeaderContentType := MIMEApplicationJSONCharsetUTF8,
    HeaderAcceptEncoding := ContentEncodingGZIP + ", " + ContentEncodingDeflate,
    HeaderContentEncoding := ContentEncodingGZIP]

  const DeflateHeaderParams: map<string, string> := map[
    HeaderContentType := MIMEApplicationJSONCharsetUTF8,
    HeaderAcceptEncoding := ContentEncodingGZIP + ", " + ContentEncodingDeflate,
    HeaderContentEncoding := ContentEncodingDeflate]

  const UncompressedHeaderParams: map<string, string> := map[
    HeaderContentType := MIMEApplicationJSONCharsetUTF8,
    HeaderAcceptEncoding := ContentEncodingGZIP + ", " + ContentEncodingDeflate]

  type Codec = HTTPServerTools.Codec

  predicate Supported(enc: string) {
    enc == ContentEncodingGZIP || enc == ContentEncodingDeflate
  }

  /** The first listed encoding the server supports. */
  function FirstSupported(encs: seq<string>): (r: Option<string>)
    ensures r.Some? ==> Supported(r.value) && r.value in encs
  {
    if encs == [] then None
    else if Supported(encs[0]) then Some(encs[0])
    else FirstSupported(encs[1..])
  }

  /** No supported encoding is found exactly when none is listed. */
  lemma {:induction false} FirstSupportedNone(encs: seq<string>)
    ensures FirstSupported(encs).None? <==> forall i :: 0 <= i < |encs| ==> !Supported(encs[i])
  {
    if encs != [] {
      FirstSupportedNone(encs[1..]);
      assert forall i :: 1 <= i < |encs| ==> encs[1..][i - 1] == encs[i];
    }
  }

  /** The one found is the earliest supported entry. */
  lemma {:induction false} FirstSupportedAt(encs: seq<string>, i: nat)
    requires i < |encs| && Supported(encs[i])
    requires forall j :: 0 <= j < i ==> !Supported(encs[j])
    ensures FirstSupported(encs) == Some(encs[i])
  {
    if i > 0 {
      assert encs[1..][i - 1] == encs[i];
      assert forall j :: 0 <= j < i - 1 ==> encs[1..][j] == encs[j + 1];
      FirstSupportedAt(encs[1..], i - 1);
    }
  }

  /** Which of the three header sets a response gets. */
  datatype HeaderSet = Uncompressed | GZIPHeaders | DeflateHeaders

  function Params(h: HeaderSet): map<string, string> {
    match h
    case Uncompressed => UncompressedHeaderParams
    case GZIPHeaders => GZIPHeaderParams
    case DeflateHeaders => DeflateHeaderParams
  }

  /** Only a compressed response states its Content-Encoding. */
  lemma ContentEncodingOnlyWhenCompressed(h: HeaderSet)
    ensures HeaderContentEncoding in Params(h) <==> !h.Uncompressed?
    ensures h.GZIPHeaders? ==> Params(h)[HeaderContentEncoding] == "gzip"
    ensures h.DeflateHeaders? ==> Params(h)[HeaderContentEncoding] == "deflate"
    ensures Params(h)[HeaderAcceptEncoding] == "gzip, deflate"
  {
  }

  /** What ServerCompress returns and the header set it writes. */
  datatype Compression = Compression(data: seq<Byte>, err: GoError, headers: HeaderSet)

  /** `fmt.Errorf("compressing %v is not supported", encs)`: a string
      slice prints as its elements between brackets, separated by spaces. */
  function NotSupported(encs: seq<string>): GoError
    requires |encs| >= 1
  {
    Error("compressing [" + Join(encs, ' ') + "] is not supported")
  }

  function ServerCompression(acceptEncoding: string, d: seq<Byte>, gzip: Codec, deflate: Codec): (r: Compression)
    ensures acceptEncoding == "" ==> r == Compression(d, Nil, Uncompressed)
    ensures r.err == Nil && r.headers == Uncompressed ==> acceptEncoding == "" && r.data == d
    ensures acceptEncoding != "" && FirstSupported(Split(acceptEncoding, ',')).None? ==>
      r == Compression(d, NotSupported(Split(acceptEncoding, ',')), Uncompressed)
    ensures r.headers == GZIPHeaders <==>
      acceptEncoding != "" && FirstSupported(Split(acceptEncoding, ',')) == Some("gzip") && gzip(d).Ok?
    ensures r.headers == DeflateHeaders <==>
      acceptEncoding != "" && FirstSupported(Split(acceptEncoding, ',')) == Some("deflate") && deflate(d).Ok?
    ensures r.headers == GZIPHeaders ==> gzip(d) == Ok(r.data) && r.err == Nil
    ensures r.headers == DeflateHeaders ==> deflate(d) == Ok(r.data) && r.err == Nil
    ensures r.headers == Uncompressed ==> r.data == d
    ensures acceptEncoding != "" && FirstSupported(Split(acceptEncoding, ',')) == Some("gzip") && gzip(d).Err? ==>
      r == Compression(d, Error(gzip(d).msg), Uncompressed)
    ensures acceptEncoding != "" && FirstSupported(Split(acceptEncoding, ',')) == Some("deflate") && deflate(d).Err? ==>
      r == Compression(d, Error(deflate(d).msg), Uncompressed)
  {
    if acceptEncoding == "" then Compression(d, Nil, Uncompressed)
    else
      var encs := Split(acceptEncoding, ',');
      match FirstSupported(encs)
      case None => Compression(d, NotSupported(encs), Uncompressed)
      case Some(enc) =>
        if enc == ContentEncodingGZIP then
          match gzip(d)
          case Err(msg) => Compression(d, Error(msg), Uncompressed)
          case Ok(gzData) => Compression(gzData, Nil, GZIPHeaders)
        else
          match deflate(d)
          case Err(msg) => Compression(d, Error(msg), Uncompressed)
          case Ok(zlibData) => Compression(zlibData, Nil, DeflateHeaders)
  }

  /** ServerCompress: ServerCompression's body and error, with its header
      set written over the response header. */
  method ServerCompress(header: Header, acceptEncoding: string, d: seq<Byte>, gzip: Codec, deflate: Codec)
    returns (out: seq<Byte>, err: GoError)
    modifies header
    ensures (out, err) == (ServerCompression(acceptEncoding, d, gzip, deflate).data, ServerCompression(acceptEncoding, d, gzip, deflate).err)
    ensures header.fields == old(header.fields) + Params(ServerCompression(acceptEncoding, d, gzip, deflate).headers)
  {
    if acceptEncoding == "" {
      header.SetAll(UncompressedHeaderParams);
      return d, Nil;
    }
    var encs := Split(acceptEncoding, ',');
    for i := 0 to |encs|
      invariant FirstSupported(encs) == FirstSupported(encs[i..])
      invariant header.fields == old(header.fields)
    {
      assert encs[i..][1..] == encs[i + 1..];
      var enc := encs[i];
      if enc == "gzip" {
        var gzData := gzip(d);
        if gzData.Err? {
          header.SetAll(UncompressedHeaderParams);
          return d, Error(gzData.msg);
        }
        header.SetAll(GZIPHeaderParams);
        return gzData.value, Nil;
      } else if enc == "deflate" {
        var zlibData := deflate(d);
        if zlibData.Err? {
          header.SetAll(UncompressedHeaderParams);
          return d, Error(zlibData.msg);
        }
        header.SetAll(DeflateHeaderParams);
        return zlibData.value, Nil;
      }
    }
    header.SetAll(UncompressedHeaderParams);
    return d, NotSupported(encs);
  }

  /** The two compressors agree whenever the first listed encoding is one
      the server supports; given "br,gzip", the earlier Compressor sends
      the body as it is while ServerCompress gzips it. */
  lemma AgreesOnSupportedFirst(acceptEncoding: string, d: seq<Byte>, gzip: Codec, deflate: Codec)
    requires acceptEncoding != "" && Supported(HTTPServerTools.FirstToken(acceptEncoding))
    ensures ServerCompression(acceptEncoding, d, gzip, deflate).data ==
      HTTPServerTools.Compression(acceptEncoding, d, gzip, deflate).data
  {
  }

  lemma {:induction false} ScansPastUnsupported(d: seq<Byte>, gzip: Codec, deflate: Codec)
    requires gzip(d).Ok?
    ensures ServerCompression("br,gzip", d, gzip, deflate) == Compression(gzip(d).value, Nil, GZIPHeaders)
    ensures HTTPServerTools.Compression("br,gzip", d, gzip, deflate) == HTTPServerTools.Compressed(d, None)
  {
    SplitAppend("br", ',', "gzip");
    SplitNoSeparator("br", ',');
    SplitNoSeparator("gzip", ',');
    assert "br,gzip" == "br" + [','] + "gzip";
    assert Split("br,gzip", ',') == ["br", "gzip"];
    assert FirstSupported(["br", "gzip"]) == Some("gzip") by {
      FirstSupportedAt(["br", "gzip"], 1);
    }
  }
}
