/** Strings that pass through the MIME filters. */
module MimeText {
  import opened ByteStrings

  /** A string argument or result that may be nil. */
  datatype Text = Nil | Str(s: Bytes)

  function TextOf(t: Text): Bytes {
    if t.Nil? then [] else t.s
  }

  function Concat(chunks: seq<Bytes>): Bytes {
    if chunks == [] then [] else chunks[0] + Concat(chunks[1..])
  }
}
