/** The request decompressor of package compressing
    (internal/compressing/decompressor.go): DecompressorWrapper wraps a body
    reader in the reader for its Content-Encoding. Readers are values of
    the type parameter `R`; `gzip.NewReader` and `zlib.NewReader` are the
    parameters `newGzip` and `newZlib`, each of which may fail. */
module Compressing {
  import opened Wrappers

  const GzipMethod: string := "gzip"
  const DeflateMethod: string := "deflate"

  function DecompressorWrapper<R>(compression: string, reader: R, newGzip: R -> Result<R>, newZlib: R -> Result<R>)
    : (r: Result<R>)
    ensures compression == "" ==> r == Ok(reader)
    ensures compression == GzipMethod ==> r == newGzip(reader)
    ensures compression == DeflateMethod ==> r == newZlib(reader)
    ensures compression != GzipMethod && compression != DeflateMethod && compression != "" ==>
      r == Err("unsupported compression method: " + compression)
  {
    match compression
    case "gzip" =>
      (match newGzip(reader)
       case Err(msg) => Err(msg)
       case Ok(gzReader) => Ok(gzReader))
    case "deflate" =>
      (match newZlib(reader)
       case Err(msg) => Err(msg)
       case Ok(deflateReader) => Ok(deflateReader))
    case "" => Ok(reader)
    case _ => Err("unsupported compression method: " + compression)
  }

  /** Every encoding name but the three known ones fails, whatever the readers:
      case matters, and so does surrounding space. */
  lemma OnlyExactNamesDecode<R>(reader: R, newGzip: R -> Result<R>, newZlib: R -> Result<R>)
    ensures DecompressorWrapper("GZIP", reader, newGzip, newZlib).Err?
    ensures DecompressorWrapper(" gzip", reader, newGzip, newZlib).Err?
    ensures DecompressorWrapper("br", reader, newGzip, newZlib) == Err("unsupported compression method: br")
  {
  }
}
