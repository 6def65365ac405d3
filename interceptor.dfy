/**
 * The interceptor `getInterceptor` returns: for every proxied exchange it
 * answers the agent's `/eval` requests, serves the agent, its transform and
 * the polyfill from local files, and rewrites HTML and JavaScript bodies.
 * The program transformations, URL parsing and text decoding are parameters.
 */
module Interceptor {
  import opened Bytes
  import opened Wrappers
  import opened JsStrings
  import opened MetadataJson
  import opened HttpMessage
  import Utf8

  /** What Node's `url.parse` yields for the request: the raw URL, `path` (with query) and `pathname` (without). */
  datatype Url = Url(raw: string, path: string, pathname: string)

  /** The JSON body of an `/eval` request. */
  datatype EvalRequest = EvalRequest(scope: string, source: string)

  /**
   * The code the interceptor calls but that is not modelled here. The
   * closure-state and ES5 transforms take a file name, the source and, for
   * `/eval`, the scope; `injectIntoHead` takes the file name, the page and
   * whether inline scripts go through the closure-state transform.
   */
  datatype Environment = Environment(
    exposeClosureState: (string, string, Option<string>) -> string,
    ensureES5: (string, string, Option<string>) -> string,
    injectIntoHead: (string, string, bool) -> string,
    fixRewrite: (string, string, seq<byte>) -> seq<byte>,
    decodeText: seq<byte> -> string,
    parseEvalBody: string -> EvalRequest,
    evalName: string)

  /** The arguments of `getInterceptor` and the files it reads up front. */
  datatype Config = Config(
    agentUrl: string,
    polyfillUrl: string,
    rewrite: bool,
    disableAllRewrites: bool,
    agentData: seq<byte>,
    agentTransformData: seq<byte>,
    polyfillData: seq<byte>)

  /** The agent transform's URL: the agent URL without its last three characters (`.js`), then `_transform.js`. */
  function AgentTransformUrl(agentUrl: string): (r: string)
    ensures |agentUrl| >= 3 ==> r == agentUrl[..|agentUrl| - 3] + "_transform.js"
    ensures |agentUrl| < 3 ==> r == "_transform.js"
  {
    JsSlice(agentUrl, 0, -3) + "_transform.js"
  }

  /** The MIME type: the content-type value up to its first `;`. */
  function MimeType(contentType: string): string {
    var i := IndexOf(contentType, ";", 0);
    if i != -1 then contentType[..i] else contentType
  }

  /** The MIME type is the longest prefix of the content type without a `;`. */
  lemma MimeTypeShape(contentType: string)
    ensures StartsWith(contentType, MimeType(contentType))
    ensures Avoids(MimeType(contentType), ';')
    ensures MimeType(contentType) == contentType || contentType[|MimeType(contentType)|] == ';'
  {
    IndexOfFound(contentType, ";", 0);
    IndexOfFirst(contentType, ";", 0);
    var m := MimeType(contentType);
    forall k | 0 <= k < |m| ensures m[k] != ';' {
      assert !OccursAt(contentType, ";", k);
      assert contentType[k..k + 1] == [contentType[k]];
    }
    if m != contentType {
      assert contentType[|m|..|m| + 1] == ";";
    }
  }

  /** The JavaScript MIME types. */
  const JavaScriptMimes: set<string> := {"text/javascript", "application/javascript", "text/x-javascript", "application/x-javascript"}

  /** The parts of the response the interceptor changes. */
  datatype ResponseState = ResponseState(status: int, headers: seq<Header>, body: seq<byte>)

  /** `setResponseBody`: the body and its content-length. */
  function WithBody(st: ResponseState, body: seq<byte>): ResponseState {
    ResponseState(st.status, WithHeader(st.headers, "content-length", NatToString(|body|)), body)
  }

  /** A locally generated JavaScript answer: status 200, headers cleared, the body, then the content-type. */
  function Served(body: seq<byte>): ResponseState {
    var st := WithBody(ResponseState(200, [], []), body);
    ResponseState(st.status, WithHeader(st.headers, "content-type", "text/javascript"), st.body)
  }

  /** The reply to `/eval`: the source, transformed as the configuration asks. */
  function EvalBody(cfg: Config, env: Environment, requestBody: seq<byte>): seq<byte> {
    var req := env.parseEvalBody(env.decodeText(requestBody));
    if cfg.rewrite then Utf8.Encode(env.exposeClosureState(env.evalName, req.source, Some(req.scope)))
    else if !cfg.disableAllRewrites then Utf8.Encode(env.ensureES5(env.evalName, req.source, Some(req.scope)))
    else Utf8.Encode(req.source)
  }

  /** The body served for the agent transform. */
  function TransformBody(cfg: Config, env: Environment, url: Url): seq<byte> {
    if cfg.rewrite then Utf8.Encode(env.exposeClosureState(url.pathname, env.decodeText(cfg.agentTransformData), None))
    else cfg.agentTransformData
  }

  /** The MIME-dependent rewrite of a proxied body. */
  function Rewritten(cfg: Config, env: Environment, url: Url, mime: string, st: ResponseState): ResponseState {
    if mime == "text/html" then
      WithBody(st, Utf8.Encode(env.injectIntoHead(url.pathname, env.decodeText(st.body), cfg.rewrite)))
    else if mime in JavaScriptMimes && st.status == 200 && cfg.rewrite then
      WithBody(st, Utf8.Encode(env.exposeClosureState(url.pathname, env.decodeText(st.body), None)))
    else if mime in JavaScriptMimes && st.status == 200 && !cfg.disableAllRewrites then
      WithBody(st, Utf8.Encode(env.ensureES5(url.pathname, env.decodeText(st.body), None)))
    else st
  }

  /** The response after the interceptor has run on an exchange. */
  function Respond(cfg: Config, env: Environment, httpMethod: string, url: Url, st: ResponseState, requestBody: seq<byte>): ResponseState {
    if httpMethod != "get" then
      if httpMethod == "post" && url.path == "/eval" then Served(EvalBody(cfg, env, requestBody)) else st
    else
      var mime := MimeType(HeaderValue(st.headers, "content-type"));
      var p := ToLower(url.pathname);
      if p == cfg.agentUrl then Served(cfg.agentData)
      else if p == AgentTransformUrl(cfg.agentUrl) then Served(TransformBody(cfg, env, url))
      else if p == cfg.polyfillUrl then Served(cfg.polyfillData)
      else
        var fixed := if st.status == 200 then WithBody(st, env.fixRewrite(url.raw, mime, st.body)) else st;
        Rewritten(cfg, env, url, mime, fixed)
  }

  /** A locally served answer has status 200 and exactly two headers: its length and the JavaScript type. */
  lemma ServedShape(body: seq<byte>)
    ensures Served(body) == ResponseState(200, [("content-length", NatToString(|body|)), ("content-type", "text/javascript")], body)
  {
    var hs := [("content-length", NatToString(|body|))];
    assert FirstMatch(hs, "content-type") == -1 by {
      assert ToLower("content-length") != "content-type";
    }
  }

  /** Requests other than GET are left alone, except POST to `/eval`. */
  lemma OtherMethodsUntouched(cfg: Config, env: Environment, httpMethod: string, url: Url, st: ResponseState, requestBody: seq<byte>)
    requires httpMethod != "get" && !(httpMethod == "post" && url.path == "/eval")
    ensures Respond(cfg, env, httpMethod, url, st, requestBody) == st
  {
  }

  /** POST `/eval` is answered with the (transformed) source as JavaScript. */
  lemma EvalAnswered(cfg: Config, env: Environment, url: Url, st: ResponseState, requestBody: seq<byte>)
    requires url.path == "/eval"
    ensures var r := Respond(cfg, env, "post", url, st, requestBody);
      var req := env.parseEvalBody(env.decodeText(requestBody));
      r.status == 200 && r.headers == [("content-length", NatToString(|r.body|)), ("content-type", "text/javascript")]
      && r.body == Utf8.Encode(if cfg.rewrite then env.exposeClosureState(env.evalName, req.source, Some(req.scope))
                               else if !cfg.disableAllRewrites then env.ensureES5(env.evalName, req.source, Some(req.scope))
                               else req.source)
  {
    ServedShape(EvalBody(cfg, env, requestBody));
  }

  /**
   * A GET whose lower-cased path is the agent, its transform or the polyfill
   * is answered from the local file, whatever the proxied response was.
   */
  lemma LocalFilesServed(cfg: Config, env: Environment, url: Url, st: ResponseState, requestBody: seq<byte>)
    requires ToLower(url.pathname) in {cfg.agentUrl, AgentTransformUrl(cfg.agentUrl), cfg.polyfillUrl}
    ensures var r := Respond(cfg, env, "get", url, st, requestBody);
      var p := ToLower(url.pathname);
      r.status == 200 && r.headers == [("content-length", NatToString(|r.body|)), ("content-type", "text/javascript")]
      && r.body == (if p == cfg.agentUrl then cfg.agentData
                    else if p == AgentTransformUrl(cfg.agentUrl) then TransformBody(cfg, env, url)
                    else cfg.polyfillData)
  {
    var p := ToLower(url.pathname);
    if p == cfg.agentUrl {
      ServedShape(cfg.agentData);
    } else if p == AgentTransformUrl(cfg.agentUrl) {
      ServedShape(TransformBody(cfg, env, url));
    } else {
      ServedShape(cfg.polyfillData);
    }
  }

  /** A configured URL with an upper-case letter never matches, since the request path is lower-cased first. */
  lemma MixedCaseUrlNeverServed(url: Url, configured: string)
    requires ToLower(configured) != configured
    ensures ToLower(url.pathname) != configured
  {
    var l := ToLower(url.pathname);
    assert ToLower(l) == l;
  }

  /** Predicate: a GET that is not for one of the local files. */
  predicate Proxied(cfg: Config, httpMethod: string, url: Url) {
    httpMethod == "get"
    && ToLower(url.pathname) !in {cfg.agentUrl, AgentTransformUrl(cfg.agentUrl), cfg.polyfillUrl}
  }

  /**
   * A proxied response keeps its status; a body of a type that is neither
   * HTML nor JavaScript goes through the fix rewrite exactly when the status
   * is 200, and is otherwise unchanged.
   */
  lemma FixRewriteOnlyOnSuccess(cfg: Config, env: Environment, httpMethod: string, url: Url, st: ResponseState, requestBody: seq<byte>)
    requires Proxied(cfg, httpMethod, url)
    requires var mime := MimeType(HeaderValue(st.headers, "content-type"));
      mime != "text/html" && mime !in JavaScriptMimes
    ensures var r := Respond(cfg, env, httpMethod, url, st, requestBody);
      var mime := MimeType(HeaderValue(st.headers, "content-type"));
      r.status == st.status
      && r.body == (if st.status == 200 then env.fixRewrite(url.raw, mime, st.body) else st.body)
      && (st.status != 200 ==> r == st)
  {
  }

  /** JavaScript is never rewritten unless the status is 200. */
  lemma JavaScriptOnlyOnSuccess(cfg: Config, env: Environment, httpMethod: string, url: Url, st: ResponseState, requestBody: seq<byte>)
    requires Proxied(cfg, httpMethod, url) && st.status != 200
    requires MimeType(HeaderValue(st.headers, "content-type")) in JavaScriptMimes
    ensures Respond(cfg, env, httpMethod, url, st, requestBody) == st
  {
  }

  /** With status 200, JavaScript goes through the closure-state transform if `rewrite`, else ES5 unless all rewrites are off. */
  lemma JavaScriptRewritten(cfg: Config, env: Environment, httpMethod: string, url: Url, st: ResponseState, requestBody: seq<byte>)
    requires Proxied(cfg, httpMethod, url) && st.status == 200
    requires MimeType(HeaderValue(st.headers, "content-type")) in JavaScriptMimes
    ensures var r := Respond(cfg, env, httpMethod, url, st, requestBody);
      var mime := MimeType(HeaderValue(st.headers, "content-type"));
      var text := env.decodeText(env.fixRewrite(url.raw, mime, st.body));
      r.status == 200
      && r.body == (if cfg.rewrite then Utf8.Encode(env.exposeClosureState(url.pathname, text, None))
                    else if !cfg.disableAllRewrites then Utf8.Encode(env.ensureES5(url.pathname, text, None))
                    else env.fixRewrite(url.raw, mime, st.body))
  {
  }

  /** HTML always gets the agent injected into its head, whatever the status. */
  lemma HtmlAlwaysInjected(cfg: Config, env: Environment, httpMethod: string, url: Url, st: ResponseState, requestBody: seq<byte>)
    requires Proxied(cfg, httpMethod, url)
    requires MimeType(HeaderValue(st.headers, "content-type")) == "text/html"
    ensures var r := Respond(cfg, env, httpMethod, url, st, requestBody);
      var before := if st.status == 200 then env.fixRewrite(url.raw, "text/html", st.body) else st.body;
      r.status == st.status
      && r.body == Utf8.Encode(env.injectIntoHead(url.pathname, env.decodeText(before), cfg.rewrite))
  {
  }

  /** The state of the intercepted message the interceptor changes. */
  function State(f: InterceptedHTTPMessage): ResponseState
    reads f, f.response, f.response.headers
  {
    ResponseState(f.response.statusCode, f.response.headers.headers, f.responseBody)
  }

  method ServeLocally(f: InterceptedHTTPMessage, body: seq<byte>)
    modifies f, f.response, f.response.headers
    ensures State(f) == Served(body)
  {
    f.response.statusCode := 200;
    f.response.headers.ClearHeaders();
    f.SetResponseBody(body);
    f.response.headers.SetHeader("content-type", "text/javascript");
  }

  /** The closure returned by `getInterceptor`, run on one intercepted exchange. */
  method Intercept(cfg: Config, env: Environment, url: Url, f: InterceptedHTTPMessage)
    modifies f, f.response, f.response.headers
    ensures State(f) == Respond(cfg, env, f.request.httpMethod, url, old(State(f)), f.requestBody)
  {
    var httpMethod := f.request.httpMethod;
    if httpMethod != "get" {
      if httpMethod == "post" && url.path == "/eval" {
        ServeLocally(f, EvalBody(cfg, env, f.requestBody));
      }
      return;
    }
    var contentType := f.response.headers.GetHeader("content-type");
    var mime := MimeType(contentType);
    var p := ToLower(url.pathname);
    if p == cfg.agentUrl {
      ServeLocally(f, cfg.agentData);
      return;
    } else if p == AgentTransformUrl(cfg.agentUrl) {
      ServeLocally(f, TransformBody(cfg, env, url));
      return;
    } else if p == cfg.polyfillUrl {
      ServeLocally(f, cfg.polyfillData);
      return;
    }
    if f.response.statusCode == 200 {
      f.SetResponseBody(env.fixRewrite(url.raw, mime, f.responseBody));
    }
    if mime == "text/html" {
      f.SetResponseBody(Utf8.Encode(env.injectIntoHead(url.pathname, env.decodeText(f.responseBody), cfg.rewrite)));
    } else if mime in JavaScriptMimes {
      if f.response.statusCode == 200 {
        if cfg.rewrite {
          f.SetResponseBody(Utf8.Encode(env.exposeClosureState(url.pathname, env.decodeText(f.responseBody), None)));
        } else if !cfg.disableAllRewrites {
          f.SetResponseBody(Utf8.Encode(env.ensureES5(url.pathname, env.decodeText(f.responseBody), None)));
        }
      }
    }
  }
}
