/**
 * The relay's two frame formats.
 *
 * Outbound (proxy to BLeak): three unsigned little-endian 32-bit lengths
 * (metadata, request body, response body) followed by the three blocks, no
 * padding. Packed by the Python proxy, unpacked by `FromBuffer` in Node.
 *
 * Reply (BLeak to proxy): two little-endian 32-bit lengths (metadata, body)
 * followed by the two blocks. Packed by `toBuffer` in Node, unpacked by the
 * Python proxy, which ignores the second length.
 */
module WireFrame {
  import opened Bytes
  import opened Wrappers
  import opened MetadataJson
  import opened JsStrings

  /** Why a frame could not be packed or unpacked. */
  datatype FrameError =
    | StructError   // Python's struct.pack/unpack raised
    | RangeError    // Node's Buffer raised ERR_OUT_OF_RANGE
    | JsonError     // the metadata block did not parse

  datatype DecodedMessage = DecodedMessage(metadata: MessageMetadata, requestBody: seq<byte>, responseBody: seq<byte>)

  /**
   * `struct.pack("<III{m}s{r}s{s}s", ...)` of the serialised metadata and the
   * two bodies: each length must fit an unsigned 32-bit field.
   */
  function PackRequestFrame(meta: MessageMetadata, requestBody: seq<byte>, responseBody: seq<byte>): (r: Result<seq<byte>, FrameError>)
    ensures r.Ok? <==> |SerialiseMessage(meta)| < TWO_32 && |requestBody| < TWO_32 && |responseBody| < TWO_32
    ensures r.Err? ==> r.error == StructError
    ensures r.Ok? ==> |r.value| == 12 + |SerialiseMessage(meta)| + |requestBody| + |responseBody|
    ensures r.Ok? ==> r.value[12..] == SerialiseMessage(meta) + requestBody + responseBody
  {
    var mb := SerialiseMessage(meta);
    if |mb| < TWO_32 && |requestBody| < TWO_32 && |responseBody| < TWO_32 then
      Ok(U32LE(|mb|) + U32LE(|requestBody|) + U32LE(|responseBody|) + mb + requestBody + responseBody)
    else
      Err(StructError)
  }

  /**
   * `InterceptedHTTPMessage.FromBuffer` up to the construction of the
   * objects: the lengths are read as signed 32-bit integers, the metadata is
   * the text of bytes [12, 12+m), the request body [12+m, 12+m+r) and the
   * response body [12+m+r, 12+m+r+s), each with Node's index clamping.
   */
  function DecodeRequestFrame(b: seq<byte>): (r: Result<DecodedMessage, FrameError>)
    ensures |b| < 12 ==> r == Err(RangeError)
    ensures r.Ok? ==> |r.value.requestBody| + |r.value.responseBody| <= |b|
  {
    if |b| < 12 then Err(RangeError)
    else
      DecodeBlocks(b, ReadInt32LE(b, 0), ReadInt32LE(b, 4), ReadInt32LE(b, 8))
  }

  /** The blocks after a header whose (signed) lengths are `m`, `rq` and `rs`. */
  function DecodeBlocks(b: seq<byte>, m: int, rq: int, rs: int): (r: Result<DecodedMessage, FrameError>)
    ensures r.Ok? ==> |r.value.requestBody| + |r.value.responseBody| <= |b|
  {
    match ParseMessage(JsStringRange(b, 12, 12 + m))
    case None => Err(JsonError)
    case Some(meta) =>
      Ok(DecodedMessage(meta, JsSlice(b, 12 + m, 12 + m + rq), JsSlice(b, 12 + m + rq, 12 + m + rq + rs)))
  }

  /** The three length fields of a packed header read back through the signed reader. */
  lemma ReadLengths(m: nat, rq: nat, rs: nat, rest: seq<byte>)
    requires m < TWO_31 && rq < TWO_31 && rs < TWO_31
    ensures var b := U32LE(m) + U32LE(rq) + U32LE(rs) + rest;
      ReadInt32LE(b, 0) == m && ReadInt32LE(b, 4) == rq && ReadInt32LE(b, 8) == rs
  {
    var h0, h1, h2 := U32LE(m), U32LE(rq), U32LE(rs);
    var b := h0 + h1 + h2 + rest;
    assert b == [] + h0 + (h1 + h2 + rest);
    ReadInt32LEOfU32LE(m, [], h1 + h2 + rest);
    assert b == h0 + h1 + (h2 + rest);
    ReadInt32LEOfU32LE(rq, h0, h2 + rest);
    assert b == (h0 + h1) + h2 + rest;
    ReadInt32LEOfU32LE(rs, h0 + h1, rest);
  }

  lemma SliceThree(h: seq<byte>, x: seq<byte>, y: seq<byte>, z: seq<byte>)
    ensures var b, k := h + (x + y + z), |h|;
      b[k..k + |x|] == x && b[k + |x|..k + |x| + |y|] == y && b[k + |x| + |y|..k + |x| + |y| + |z|] == z
  {
    var b, k := h + (x + y + z), |h|;
    assert b[k..] == x + y + z;
  }

  /** Decoding a packed frame gives back the metadata and both bodies, when every block is below 2^31 bytes. */
  lemma DecodePackRequestFrame(meta: MessageMetadata, requestBody: seq<byte>, responseBody: seq<byte>)
    requires |SerialiseMessage(meta)| < TWO_31 && |requestBody| < TWO_31 && |responseBody| < TWO_31
    ensures PackRequestFrame(meta, requestBody, responseBody).Ok?
    ensures DecodeRequestFrame(PackRequestFrame(meta, requestBody, responseBody).value)
         == Ok(DecodedMessage(meta, requestBody, responseBody))
  {
    var mb := SerialiseMessage(meta);
    var m, rq, rs := |mb|, |requestBody|, |responseBody|;
    var b := PackRequestFrame(meta, requestBody, responseBody).value;
    var body := mb + requestBody + responseBody;
    var header := U32LE(m) + U32LE(rq) + U32LE(rs);
    assert b == header + body;
    ReadLengths(m, rq, rs, body);
    SliceThree(header, mb, requestBody, responseBody);
    assert JsStringRange(b, 12, 12 + m) == mb;
    ParseSerialiseMessage(meta);
    assert JsSlice(b, 12 + m, 12 + m + rq) == requestBody;
    assert JsSlice(b, 12 + m + rq, 12 + m + rq + rs) == responseBody;
    DecodeRequestFrameOk(b, meta, m, rq, rs);
  }

  lemma DecodeRequestFrameOk(b: seq<byte>, meta: MessageMetadata, m: int, rq: int, rs: int)
    requires |b| >= 12 && ReadInt32LE(b, 0) == m && ReadInt32LE(b, 4) == rq && ReadInt32LE(b, 8) == rs
    requires ParseMessage(JsStringRange(b, 12, 12 + m)) == Some(meta)
    ensures DecodeRequestFrame(b)
         == Ok(DecodedMessage(meta, JsSlice(b, 12 + m, 12 + m + rq), JsSlice(b, 12 + m + rq, 12 + m + rq + rs)))
  {
    assert DecodeRequestFrame(b) == DecodeBlocks(b, m, rq, rs);
  }

  /**
   * `InterceptedHTTPMessage.toBuffer`: `writeInt32LE` raises for a length of
   * 2^31 or more; otherwise the frame is the two lengths, the serialised
   * response metadata and the body, 8 + m + b bytes in all.
   */
  function EncodeReply(meta: ResponseMetadata, body: seq<byte>): (r: Result<seq<byte>, FrameError>)
    ensures r.Ok? <==> |SerialiseResponse(meta)| < TWO_31 && |body| < TWO_31
    ensures r.Err? ==> r.error == RangeError
    ensures r.Ok? ==> |r.value| == 8 + |SerialiseResponse(meta)| + |body|
    ensures r.Ok? ==> r.value[8..] == SerialiseResponse(meta) + body
  {
    var mb := SerialiseResponse(meta);
    if |mb| < TWO_31 && |body| < TWO_31 then
      Ok(U32LE(|mb|) + U32LE(|body|) + mb + body)
    else
      Err(RangeError)
  }

  /**
   * The proxy's unpacking of a reply: `struct.unpack("<II{n-8}s", ...)`
   * raises below 8 bytes; after the header the first `header[0]` bytes are
   * the metadata (Python slicing clamps) and the rest is the body.
   */
  function DecodeReply(b: seq<byte>): (r: Result<(ResponseMetadata, seq<byte>), FrameError>)
    ensures |b| < 8 ==> r == Err(StructError)
    ensures r.Ok? ==> |r.value.1| <= |b| - 8
  {
    if |b| < 8 then Err(StructError)
    else
      var m := ReadU32LE(b, 0);
      var blob := b[8..];
      match ParseResponse(PyTake(blob, m))
      case None => Err(JsonError)
      case Some(meta) => Ok((meta, PyDrop(blob, m)))
  }

  /** The proxy recovers exactly the metadata and body that Node encoded. */
  lemma DecodeEncodeReply(meta: ResponseMetadata, body: seq<byte>)
    requires EncodeReply(meta, body).Ok?
    ensures DecodeReply(EncodeReply(meta, body).value) == Ok((meta, body))
  {
    var mb := SerialiseResponse(meta);
    var h0, h1 := U32LE(|mb|), U32LE(|body|);
    var b := EncodeReply(meta, body).value;
    assert b == [] + h0 + (h1 + mb + body);
    ReadU32LEOfU32LE(|mb|, [], h1 + mb + body);
    assert b[8..] == mb + body;
    assert PyTake(b[8..], |mb|) == mb;
    ParseSerialiseResponse(meta);
  }

  /** The proxy never looks at the second length field of a reply. */
  lemma DecodeReplyIgnoresBodyLength(b: seq<byte>, field: seq<byte>)
    requires |b| >= 8 && |field| == 4
    ensures DecodeReply(b[..4] + field + b[8..]) == DecodeReply(b)
  {
    var b2 := b[..4] + field + b[8..];
    assert b2[..4] == b[..4];
    assert b2[8..] == b[8..];
    assert ReadU32LE(b2, 0) == ReadU32LE(b, 0);
  }
}
