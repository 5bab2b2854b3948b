/** The later request decompressor (internal/datacompressor/decompressor.go):
    decompressorSwitcher chooses the body reader by the request's
    Content-Encoding, and the ServerDecompressor middleware either answers
    415 or swaps the request body and hands over to the next handler.
    Readers and their constructors are parameters, as in Compressing. */
module DataDecompressor {
  import opened Wrappers
  import opened HTTPHeader
  import Compressing

  const StatusUnsupportedMediaType: int := 415

  /** decompressorSwitcher: a decoding reader for "gzip" and "deflate", the
      body itself for no encoding, and nil (None) for anything else or when
      the decoding reader cannot be made. */
  function DecompressorSwitcher<R>(contentEncoding: string, body: R, newGzip: R -> Result<R>, newZlib: R -> Result<R>)
    : (r: Option<R>)
    ensures contentEncoding == "" ==> r == Some(body)
    ensures r.Some? <==>
      || contentEncoding == ""
      || (contentEncoding == "gzip" && newGzip(body).Ok?)
      || (contentEncoding == "deflate" && newZlib(body).Ok?)
    ensures r.Some? && contentEncoding == "gzip" ==> newGzip(body) == Ok(r.value)
    ensures r.Some? && contentEncoding == "deflate" ==> newZlib(body) == Ok(r.value)
  {
    match contentEncoding
    case "gzip" =>
      (match newGzip(body)
       case Err(_) => None
       case Ok(gz) => Some(gz))
    case "deflate" =>
      (match newZlib(body)
       case Err(_) => None
       case Ok(def) => Some(def))
    case "" => Some(body)
    case _ => None
  }

  /** The switcher chooses exactly the reader DecompressorWrapper of
      package compressing does, and fails exactly where it fails. */
  lemma SwitcherAgreesWithWrapper<R>(contentEncoding: string, body: R, newGzip: R -> Result<R>, newZlib: R -> Result<R>)
    ensures DecompressorSwitcher(contentEncoding, body, newGzip, newZlib) ==
      match Compressing.DecompressorWrapper(contentEncoding, body, newGzip, newZlib)
      case Ok(reader) => Some(reader)
      case Err(_) => None
  {
  }

  /** The part of an echo request the middleware uses. */
  class Request<R> {
    var header: map<string, string>
    var body: R

    constructor (header: map<string, string>, body: R)
      ensures this.header == header && this.body == body
    {
      this.header := header;
      this.body := body;
    }
  }

  /** The handler ServerDecompressor returns, applied to one request:
      `next` is the wrapped handler (seeing the new body) and `respond` the
      answer DefineResponseType writes for a status; `nextCalls` counts the
      calls of `next`. */
  method ServerDecompressor<R>(req: Request<R>, next: R -> GoError, respond: int -> GoError,
                               newGzip: R -> Result<R>, newZlib: R -> Result<R>)
    returns (err: GoError, nextCalls: nat)
    modifies req
    ensures req.header == old(req.header)
    ensures var reader := DecompressorSwitcher(Get(old(req.header), HeaderContentEncoding), old(req.body), newGzip, newZlib);
      && (reader.None? ==> err == respond(StatusUnsupportedMediaType) && nextCalls == 0 && req.body == old(req.body))
      && (reader.Some? ==> req.body == reader.value && nextCalls == 1 && err == next(reader.value))
  {
    nextCalls := 0;
    var compressReader := DecompressorSwitcher(Get(req.header, HeaderContentEncoding), req.body, newGzip, newZlib);
    if compressReader.None? {
      return respond(StatusUnsupportedMediaType), nextCalls;
    }
    req.body := compressReader.value;
    err := next(req.body);
    nextCalls := nextCalls + 1;
  }
}
