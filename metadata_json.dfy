/**
 * The JSON metadata that travels in the relay's frames (RFC 8259 text in
 * UTF-8). The model only needs `json.dumps`/`JSON.stringify` and
 * `json.loads`/`JSON.parse` to be an injective pair on the two metadata
 * records, so Serialise* below is a concrete injective byte encoding of the
 * records (each character is a marker byte followed by its UTF-8 bytes, a
 * string ends with a zero byte) and Parse* is its inverse.
 */
module MetadataJson {
  import opened Bytes
  import opened Wrappers
  import Utf8
  import opened JsStrings
  import Sequences

  /** An HTTP header field as the relay carries it: [name, value]. */
  type Header = (string, string)

  datatype RequestMetadata = RequestMetadata(httpMethod: string, url: string, headers: seq<Header>)

  datatype ResponseMetadata = ResponseMetadata(statusCode: int, headers: seq<Header>)

  datatype MessageMetadata = MessageMetadata(request: RequestMetadata, response: ResponseMetadata)

  function SerialiseString(s: string): seq<byte>
  {
    if s == [] then [0] else [1] + Utf8.EncodeChar(s[0]) + SerialiseString(s[1..])
  }

  /** Parses a string off the front of `b`, returning it with the bytes that follow. */
  function ParseString(b: seq<byte>): Option<(string, seq<byte>)>
    decreases |b|
  {
    if b == [] then None
    else if b[0] == 0 then Some(("", b[1..]))
    else if b[0] == 1 then
      match Utf8.DecodeChar(b[1..])
      case None => None
      case Some((c, k)) =>
        match ParseString(b[1 + k..])
        case None => None
        case Some((s, rest)) => Some(([c] + s, rest))
    else None
  }

  lemma {:induction false} ParseSerialiseString(s: string, rest: seq<byte>)
    ensures ParseString(SerialiseString(s) + rest) == Some((s, rest))
  {
    var b := SerialiseString(s) + rest;
    if s == [] {
      Sequences.ConsTail(0, rest);
    } else {
      var e := Utf8.EncodeChar(s[0]);
      var tail := SerialiseString(s[1..]) + rest;
      Sequences.AppendAssoc([1] + e, SerialiseString(s[1..]), rest);
      Sequences.AppendAssoc([1], e, tail);
      Sequences.ConsTail(1, e + tail);
      Utf8.DecodeEncodeChar(s[0], tail);
      assert Utf8.DecodeChar(b[1..]) == Some((s[0], |e|));
      assert b[1 + |e|..] == tail;
      ParseSerialiseString(s[1..], rest);
      assert ParseString(b[1 + |e|..]) == Some((s[1..], rest));
      assert [s[0]] + s[1..] == s;
    }
  }

  /** The integer written by IntToString, read back. */
  function IntOfString(s: string): Option<int>
  {
    if |s| > 1 && s[0] == '-' && AllDigits(s[1..]) then Some(0 - ParseDigits(s[1..]))
    else if |s| > 0 && AllDigits(s) then Some(ParseDigits(s))
    else None
  }

  lemma IntOfIntToString(i: int)
    ensures IntOfString(IntToString(i)) == Some(i)
  {
    if i < 0 {
      var s := IntToString(i);
      assert s[1..] == NatToString(-i);
      NatToStringRoundTrip(-i);
    } else {
      NatToStringRoundTrip(i);
    }
  }

  function SerialiseInt(i: int): seq<byte>
  {
    SerialiseString(IntToString(i))
  }

  function ParseInt(b: seq<byte>): Option<(int, seq<byte>)>
  {
    match ParseString(b)
    case None => None
    case Some((s, rest)) =>
      match IntOfString(s)
      case None => None
      case Some(i) => Some((i, rest))
  }

  lemma ParseSerialiseInt(i: int, rest: seq<byte>)
    ensures ParseInt(SerialiseInt(i) + rest) == Some((i, rest))
  {
    ParseSerialiseString(IntToString(i), rest);
    IntOfIntToString(i);
  }

  function SerialiseHeaders(hs: seq<Header>): seq<byte>
  {
    if hs == [] then [0]
    else [1] + SerialiseString(hs[0].0) + SerialiseString(hs[0].1) + SerialiseHeaders(hs[1..])
  }

  function ParseHeaders(b: seq<byte>): Option<(seq<Header>, seq<byte>)>
    decreases |b|
  {
    if b == [] then None
    else if b[0] == 0 then Some(([], b[1..]))
    else if b[0] == 1 then
      match ParseString(b[1..])
      case None => None
      case Some((name, r1)) =>
        if |r1| >= |b| then None
        else match ParseString(r1)
          case None => None
          case Some((value, r2)) =>
            if |r2| >= |b| then None
            else match ParseHeaders(r2)
              case None => None
              case Some((hs, rest)) => Some(([(name, value)] + hs, rest))
    else None
  }

  lemma SerialiseStringNonEmpty(s: string)
    ensures |SerialiseString(s)| > 0
  {
  }

  lemma {:induction false} ParseSerialiseHeaders(hs: seq<Header>, rest: seq<byte>)
    ensures ParseHeaders(SerialiseHeaders(hs) + rest) == Some((hs, rest))
  {
    var b := SerialiseHeaders(hs) + rest;
    if hs == [] {
      Sequences.ConsTail(0, rest);
    } else {
      var n := SerialiseString(hs[0].0);
      var v := SerialiseString(hs[0].1);
      var tail := SerialiseHeaders(hs[1..]) + rest;
      Sequences.AppendAssoc([1] + n + v, SerialiseHeaders(hs[1..]), rest);
      Sequences.AppendAssoc([1] + n, v, tail);
      Sequences.AppendAssoc([1], n, v + tail);
      Sequences.ConsTail(1, n + (v + tail));
      ParseSerialiseString(hs[0].0, v + tail);
      ParseSerialiseString(hs[0].1, tail);
      SerialiseStringNonEmpty(hs[0].0);
      SerialiseStringNonEmpty(hs[0].1);
      ParseSerialiseHeaders(hs[1..], rest);
      ParseHeadersCons(b, hs[0].0, hs[0].1, v + tail, tail, hs[1..], rest);
      assert [(hs[0].0, hs[0].1)] + hs[1..] == hs;
    }
  }

  /** A header record: the marker 1, the name, the value, then the remaining headers. */
  lemma ParseHeadersCons(b: seq<byte>, name: string, value: string, r1: seq<byte>, r2: seq<byte>,
                         hs: seq<Header>, rest: seq<byte>)
    requires b != [] && b[0] == 1
    requires ParseString(b[1..]) == Some((name, r1)) && |r1| < |b|
    requires ParseString(r1) == Some((value, r2)) && |r2| < |b|
    requires ParseHeaders(r2) == Some((hs, rest))
    ensures ParseHeaders(b) == Some(([(name, value)] + hs, rest))
  {
  }

  function SerialiseResponseFields(r: ResponseMetadata): seq<byte>
  {
    SerialiseInt(r.statusCode) + SerialiseHeaders(r.headers)
  }

  function ParseResponseFields(b: seq<byte>): Option<(ResponseMetadata, seq<byte>)>
  {
    match ParseInt(b)
    case None => None
    case Some((status, r1)) =>
      match ParseHeaders(r1)
      case None => None
      case Some((hs, rest)) => Some((ResponseMetadata(status, hs), rest))
  }

  lemma ParseSerialiseResponseFields(r: ResponseMetadata, rest: seq<byte>)
    ensures ParseResponseFields(SerialiseResponseFields(r) + rest) == Some((r, rest))
  {
    Sequences.AppendAssoc(SerialiseInt(r.statusCode), SerialiseHeaders(r.headers), rest);
    ParseSerialiseInt(r.statusCode, SerialiseHeaders(r.headers) + rest);
    ParseSerialiseHeaders(r.headers, rest);
  }

  function SerialiseRequestFields(r: RequestMetadata): seq<byte>
  {
    SerialiseString(r.httpMethod) + SerialiseString(r.url) + SerialiseHeaders(r.headers)
  }

  function ParseRequestFields(b: seq<byte>): Option<(RequestMetadata, seq<byte>)>
  {
    match ParseString(b)
    case None => None
    case Some((httpMethod, r1)) =>
      match ParseString(r1)
      case None => None
      case Some((url, r2)) =>
        match ParseHeaders(r2)
        case None => None
        case Some((hs, rest)) => Some((RequestMetadata(httpMethod, url, hs), rest))
  }

  lemma ParseSerialiseRequestFields(r: RequestMetadata, rest: seq<byte>)
    ensures ParseRequestFields(SerialiseRequestFields(r) + rest) == Some((r, rest))
  {
    var m := SerialiseString(r.httpMethod);
    var u := SerialiseString(r.url);
    var h := SerialiseHeaders(r.headers);
    Sequences.AppendAssoc(m + u, h, rest);
    Sequences.AppendAssoc(m, u, h + rest);
    ParseSerialiseString(r.httpMethod, u + (h + rest));
    ParseSerialiseString(r.url, h + rest);
    ParseSerialiseHeaders(r.headers, rest);
  }

  /** `JSON.stringify` of the reply metadata `{status_code, headers}`. */
  function SerialiseResponse(r: ResponseMetadata): seq<byte>
  {
    SerialiseResponseFields(r)
  }

  /** `json.loads` of the reply metadata; trailing bytes are an error, as in JSON. */
  function ParseResponse(b: seq<byte>): Option<ResponseMetadata>
  {
    match ParseResponseFields(b)
    case Some((r, rest)) => if rest == [] then Some(r) else None
    case None => None
  }

  /** `json.dumps` of the request/response metadata the proxy sends. */
  function SerialiseMessage(m: MessageMetadata): seq<byte>
  {
    SerialiseRequestFields(m.request) + SerialiseResponseFields(m.response)
  }

  /** `JSON.parse` of that metadata. */
  function ParseMessage(b: seq<byte>): Option<MessageMetadata>
  {
    match ParseRequestFields(b)
    case None => None
    case Some((req, r1)) =>
      match ParseResponseFields(r1)
      case Some((resp, rest)) => if rest == [] then Some(MessageMetadata(req, resp)) else None
      case None => None
  }

  /** Parsing the serialised reply metadata gives it back. */
  lemma ParseSerialiseResponse(r: ResponseMetadata)
    ensures ParseResponse(SerialiseResponse(r)) == Some(r)
  {
    ParseSerialiseResponseFields(r, []);
    assert SerialiseResponseFields(r) + [] == SerialiseResponseFields(r);
  }

  /** Parsing the serialised message metadata gives it back. */
  lemma ParseSerialiseMessage(m: MessageMetadata)
    ensures ParseMessage(SerialiseMessage(m)) == Some(m)
  {
    var rq := SerialiseRequestFields(m.request);
    var rs := SerialiseResponseFields(m.response);
    ParseSerialiseRequestFields(m.request, rs);
    ParseSerialiseResponseFields(m.response, []);
    assert rs + [] == rs;
  }

  /** The serialisation is injective: distinct metadata never share bytes. */
  lemma SerialiseMessageInjective(m1: MessageMetadata, m2: MessageMetadata)
    requires SerialiseMessage(m1) == SerialiseMessage(m2)
    ensures m1 == m2
  {
    ParseSerialiseMessage(m1);
    ParseSerialiseMessage(m2);
  }
}
