/**
 * The Node side of the relay: header lists (`AbstractHTTPHeaders`), the
 * intercepted request and response, and the message that `FromBuffer`
 * unpacks and `toBuffer` packs.
 *
 * A header list is an ordered list of [name, value] pairs, so repeated
 * fields (section 5.3 of RFC 9110) survive. Lookups compare the stored name,
 * lower-cased, with the query exactly as given: the query itself is not
 * lower-cased.
 */
module HttpMessage {
  import opened Bytes
  import opened Wrappers
  import opened JsStrings
  import opened MetadataJson
  import opened WireFrame

  /** True when the stored name of `h`, lower-cased, is exactly `name`. */
  predicate Matches(h: Header, name: string) { ToLower(h.0) == name }

  /** `_indexOfHeader`: the first index whose stored name matches, or -1. */
  function FirstMatch(hs: seq<Header>, name: string): (r: int)
    ensures -1 <= r < |hs|
    ensures r >= 0 ==> Matches(hs[r], name)
    ensures forall j :: 0 <= j < |hs| && (r == -1 || j < r) ==> !Matches(hs[j], name)
  {
    if hs == [] then -1
    else if Matches(hs[0], name) then 0
    else
      var k := FirstMatch(hs[1..], name);
      if k == -1 then -1 else k + 1
  }

  /** `getHeader`: the first match's value, or the empty string. */
  function HeaderValue(hs: seq<Header>, name: string): string
  {
    var i := FirstMatch(hs, name);
    if i == -1 then "" else hs[i].1
  }

  /** `setHeader`: overwrite the first match's value, else append [name, value]. */
  function WithHeader(hs: seq<Header>, name: string, value: string): seq<Header>
  {
    var i := FirstMatch(hs, name);
    if i == -1 then hs + [(name, value)] else hs[i := (hs[i].0, value)]
  }

  /** `removeHeader`: delete the first match only. */
  function WithoutHeader(hs: seq<Header>, name: string): seq<Header>
  {
    var i := FirstMatch(hs, name);
    if i == -1 then hs else hs[..i] + hs[i + 1..]
  }

  /** How many entries match `name`. */
  function MatchCount(hs: seq<Header>, name: string): nat
  {
    if hs == [] then 0 else (if Matches(hs[0], name) then 1 else 0) + MatchCount(hs[1..], name)
  }

  lemma {:induction false} MatchCountZero(hs: seq<Header>, name: string)
    ensures (MatchCount(hs, name) == 0) == (FirstMatch(hs, name) == -1)
  {
    if hs != [] {
      MatchCountZero(hs[1..], name);
    }
  }

  lemma {:induction false} MatchCountSplit(a: seq<Header>, b: seq<Header>, name: string)
    ensures MatchCount(a + b, name) == MatchCount(a, name) + MatchCount(b, name)
  {
    if a == [] {
      assert a + b == b;
    } else {
      assert (a + b)[1..] == a[1..] + b;
      MatchCountSplit(a[1..], b, name);
    }
  }

  /** A lower-case query reads back the value just set. */
  lemma GetAfterSet(hs: seq<Header>, name: string, value: string)
    requires ToLower(name) == name
    ensures HeaderValue(WithHeader(hs, name, value), name) == value
  {
    var i := FirstMatch(hs, name);
    var hs2 := WithHeader(hs, name, value);
    if i == -1 {
      assert Matches(hs2[|hs|], name);
      assert FirstMatch(hs2, name) == |hs|;
    } else {
      assert hs2[i].0 == hs[i].0 && Matches(hs2[i], name);
      assert forall j :: 0 <= j < i ==> hs2[j] == hs[j];
      assert FirstMatch(hs2, name) == i;
    }
  }

  /** `setHeader` changes at most the first match's value or appends one entry; nothing else moves. */
  lemma SetChangesOneEntry(hs: seq<Header>, name: string, value: string)
    ensures var hs2 := WithHeader(hs, name, value);
      |hs| <= |hs2| <= |hs| + 1 &&
      (forall j :: 0 <= j < |hs| && j != FirstMatch(hs, name) ==> hs2[j] == hs[j]) &&
      (forall j :: 0 <= j < |hs| ==> hs2[j].0 == hs[j].0)
  {
  }

  /** A name that is not lower-case never matches, so setting it always appends. */
  lemma MixedCaseNeverMatches(hs: seq<Header>, name: string, value: string)
    requires ToLower(name) != name
    ensures FirstMatch(hs, name) == -1
    ensures WithHeader(hs, name, value) == hs + [(name, value)]
  {
    forall j | 0 <= j < |hs| ensures !Matches(hs[j], name) {
      var l := ToLower(hs[j].0);
      assert ToLower(l) == l;
    }
  }

  /** `removeHeader` deletes exactly one matching entry, keeping the order and the other repeated fields. */
  lemma RemoveDeletesOne(hs: seq<Header>, name: string)
    ensures var hs2 := WithoutHeader(hs, name);
      (MatchCount(hs, name) == 0 ==> hs2 == hs) &&
      (MatchCount(hs, name) > 0 ==> |hs2| == |hs| - 1 && MatchCount(hs2, name) == MatchCount(hs, name) - 1)
  {
    MatchCountZero(hs, name);
    var i := FirstMatch(hs, name);
    if i != -1 {
      assert hs == hs[..i] + ([hs[i]] + hs[i + 1..]);
      MatchCountSplit(hs[..i], [hs[i]] + hs[i + 1..], name);
      MatchCountSplit([hs[i]], hs[i + 1..], name);
      MatchCountSplit(hs[..i], hs[i + 1..], name);
      assert [hs[i]][1..] == [];
    }
  }

  /** The header list shared by requests and responses (`AbstractHTTPHeaders`). */
  class HTTPHeaders {
    var headers: seq<Header>

    constructor (hs: seq<Header>)
      ensures headers == hs
    {
      headers := hs;
    }

    method IndexOfHeader(name: string) returns (i: int)
      ensures i == FirstMatch(headers, name)
    {
      i := 0;
      while i < |headers|
        invariant 0 <= i <= |headers|
        invariant forall j :: 0 <= j < i ==> !Matches(headers[j], name)
      {
        if ToLower(headers[i].0) == name {
          return;
        }
        i := i + 1;
      }
      i := -1;
    }

    method GetHeader(name: string) returns (v: string)
      ensures v == HeaderValue(headers, name)
    {
      var i := IndexOfHeader(name);
      v := if i != -1 then headers[i].1 else "";
    }

    method SetHeader(name: string, value: string)
      modifies this
      ensures headers == WithHeader(old(headers), name, value)
    {
      var i := IndexOfHeader(name);
      if i != -1 {
        headers := headers[i := (headers[i].0, value)];
      } else {
        headers := headers + [(name, value)];
      }
    }

    method RemoveHeader(name: string)
      modifies this
      ensures headers == WithoutHeader(old(headers), name)
    {
      var i := IndexOfHeader(name);
      if i != -1 {
        headers := headers[..i] + headers[i + 1..];
      }
    }

    method ClearHeaders()
      modifies this
      ensures headers == []
    {
      headers := [];
    }
  }

  /** The headers an intercepted response keeps: the first transfer-encoding and content-encoding entries are dropped. */
  function ResponseHeaders(hs: seq<Header>): seq<Header>
  {
    WithoutHeader(WithoutHeader(hs, "transfer-encoding"), "content-encoding")
  }

  class InterceptedHTTPResponse {
    var statusCode: int
    const headers: HTTPHeaders

    constructor (meta: ResponseMetadata)
      ensures statusCode == meta.statusCode && fresh(headers)
      ensures headers.headers == ResponseHeaders(meta.headers)
    {
      statusCode := meta.statusCode;
      headers := new HTTPHeaders(meta.headers);
      new;
      headers.RemoveHeader("transfer-encoding");
      headers.RemoveHeader("content-encoding");
    }

    /** `toJSON`: the reply metadata `{status_code, headers}`. */
    function ToJSON(): (r: ResponseMetadata)
      reads this, headers
      ensures r.statusCode == statusCode && r.headers == headers.headers
    {
      ResponseMetadata(statusCode, headers.headers)
    }
  }

  class InterceptedHTTPRequest {
    const httpMethod: string
    const rawUrl: string
    const headers: HTTPHeaders

    constructor (meta: RequestMetadata)
      ensures httpMethod == ToLower(meta.httpMethod) && rawUrl == meta.url
      ensures fresh(headers) && headers.headers == meta.headers
    {
      httpMethod := ToLower(meta.httpMethod);
      rawUrl := meta.url;
      headers := new HTTPHeaders(meta.headers);
    }
  }

  class InterceptedHTTPMessage {
    const request: InterceptedHTTPRequest
    const response: InterceptedHTTPResponse
    const requestBody: seq<byte>
    var responseBody: seq<byte>

    constructor (request: InterceptedHTTPRequest, response: InterceptedHTTPResponse, requestBody: seq<byte>, responseBody: seq<byte>)
      ensures this.request == request && this.response == response
      ensures this.requestBody == requestBody && this.responseBody == responseBody
    {
      this.request := request;
      this.response := response;
      this.requestBody := requestBody;
      this.responseBody := responseBody;
    }

    /** Replaces the body and sets content-length to its decimal length (section 8.6 of RFC 9110). */
    method SetResponseBody(b: seq<byte>)
      modifies this, response.headers
      ensures responseBody == b
      ensures response.headers.headers == WithHeader(old(response.headers.headers), "content-length", NatToString(|b|))
    {
      responseBody := b;
      response.headers.SetHeader("content-length", NatToString(|b|));
    }

    /** Packs the reply frame: two lengths, the response metadata and the body, in a buffer of 8 + m + b bytes. */
    method ToBuffer() returns (r: Result<seq<byte>, FrameError>)
      ensures r == EncodeReply(response.ToJSON(), responseBody)
    {
      var metadata := SerialiseResponse(response.ToJSON());
      var m, n := |metadata|, |responseBody|;
      var rv := new byte[8 + m + n];
      if m >= TWO_31 || n >= TWO_31 {
        return Err(RangeError);
      }
      var h0, h1 := U32LE(m), U32LE(n);
      forall i | 0 <= i < 4 {
        rv[i] := h0[i];
      }
      forall i | 4 <= i < 8 {
        rv[i] := h1[i - 4];
      }
      forall i | 8 <= i < 8 + m {
        rv[i] := metadata[i - 8];
      }
      forall i | 8 + m <= i < 8 + m + n {
        rv[i] := responseBody[i - 8 - m];
      }
      assert rv[..] == h0 + h1 + metadata + responseBody;
      r := Ok(rv[..]);
    }
  }

  /**
   * `InterceptedHTTPMessage.FromBuffer`: decodes the frame and builds the
   * request (method lower-cased) and the response (encoding headers dropped).
   */
  method FromBuffer(b: seq<byte>) returns (r: Result<InterceptedHTTPMessage, FrameError>)
    ensures DecodeRequestFrame(b).Err? ==> r == Err(DecodeRequestFrame(b).error)
    ensures DecodeRequestFrame(b).Ok? ==> (r.Ok? &&
      var d := DecodeRequestFrame(b).value;
      var msg := r.value;
      fresh(msg) && fresh(msg.request) && fresh(msg.response) &&
      fresh(msg.request.headers) && fresh(msg.response.headers) &&
      msg.request.httpMethod == ToLower(d.metadata.request.httpMethod) &&
      msg.request.rawUrl == d.metadata.request.url &&
      msg.request.headers.headers == d.metadata.request.headers &&
      msg.response.statusCode == d.metadata.response.statusCode &&
      msg.response.headers.headers == ResponseHeaders(d.metadata.response.headers) &&
      msg.requestBody == d.requestBody && msg.responseBody == d.responseBody)
  {
    match DecodeRequestFrame(b)
    case Err(e) =>
      r := Err(e);
    case Ok(d) =>
      var request := new InterceptedHTTPRequest(d.metadata.request);
      var response := new InterceptedHTTPResponse(d.metadata.response);
      var msg := new InterceptedHTTPMessage(request, response, d.requestBody, d.responseBody);
      r := Ok(msg);
  }
}
