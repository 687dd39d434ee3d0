/** The request the reverse proxy sends upstream (src/http/ReverseProxy.cpp,
    lines 21-39 and 98-150) and its round trip through the request parser. */
module ProxyRequests {
  import opened Text
  import opened HttpRequests
  import opened HeaderText

  datatype ProxyOptions = ProxyOptions(prefix: string, rewritePrefix: bool, targetHost: string, targetPort: nat)

  // ------------------------------------------------------------ the printer

  /** The path part of the rewritten target. */
  function RewritePath(o: ProxyOptions, path: string): string {
    var stripped :=
      if o.rewritePrefix && o.prefix != "" && HasPrefix(path, o.prefix) then
        var tail := path[|o.prefix|..];
        if tail == "" || tail[0] != '/' then "/" + tail else tail
      else path;
    if stripped == "" then "/" else stripped
  }

  function Target(o: ProxyOptions, path: string, query: string): string {
    RewritePath(o, path) + if query == "" then "" else "?" + query
  }

  const HOST := "host"
  const CONNECTION := "connection"
  const CONTENT_LENGTH := "content-length"
  const FORWARDED_FOR := "x-forwarded-for"

  predicate Copied(k: string) {
    k != HOST && k != CONNECTION && k != CONTENT_LENGTH && k != FORWARDED_FOR
  }

  /** The client's own headers that are passed on, in iteration order. */
  function PassedOn(headers: map<string, string>, order: seq<string>): seq<Header>
    requires forall k :: k in order ==> k in headers
  {
    if order == [] then []
    else (if Copied(order[0]) then [(order[0], headers[order[0]])] else [])
         + PassedOn(headers, order[1..])
  }

  function Lookup(headers: map<string, string>, k: string): string {
    if k in headers then headers[k] else ""
  }

  function ForwardedFor(r: Request, clientIp: string): string {
    var previous := Lookup(r.headers, FORWARDED_FOR);
    if previous == "" then clientIp else previous + ", " + clientIp
  }

  /** The tracing headers that are added after the client's own. */
  function Injected(r: Request, clientIp: string): seq<Header> {
    var clientHost := Lookup(r.headers, HOST);
    (if clientIp == "" then []
     else [("X-Forwarded-For", ForwardedFor(r, clientIp)), ("X-Real-IP", clientIp)])
    + (if clientHost == "" then [] else [("X-Forwarded-Host", clientHost)])
    + [("X-Forwarded-Proto", "http")]
  }

  function HostValue(o: ProxyOptions): string { o.targetHost + ":" + ToDecimal(o.targetPort) }

  function LengthHeader(body: string): seq<Header> {
    if body == "" then [] else [("Content-Length", ToDecimal(|body|))]
  }

  function RequestLineOf(o: ProxyOptions, r: Request): string {
    MethodToString(r.verb) + " " + Target(o, r.path, r.query) + " HTTP/1.1"
  }

  /** Everything but Content-Length. */
  function MainHeaders(o: ProxyOptions, r: Request, clientIp: string, order: seq<string>): seq<Header>
    requires forall k :: k in order ==> k in r.headers
  {
    [("Host", HostValue(o))] + [("Connection", "close")] + (PassedOn(r.headers, order) + Injected(r, clientIp))
  }

  function HeadersOf(o: ProxyOptions, r: Request, clientIp: string, order: seq<string>): seq<Header>
    requires forall k :: k in order ==> k in r.headers
  {
    MainHeaders(o, r, clientIp, order) + LengthHeader(r.body)
  }

  function PrintRequest(o: ProxyOptions, r: Request, clientIp: string, order: seq<string>): string
    requires forall k :: k in order ==> k in r.headers
  {
    RequestLineOf(o, r) + "\r\n" + HeaderBlock(HeadersOf(o, r, clientIp, order)) + "\r\n" + r.body
  }

  lemma {:induction false} PassedOnAppend(headers: map<string, string>, xs: seq<string>, k: string)
    requires (forall x :: x in xs ==> x in headers) && k in headers
    ensures PassedOn(headers, xs + [k])
         == PassedOn(headers, xs) + if Copied(k) then [(k, headers[k])] else []
  {
    if xs != [] {
      PassedOnAppend(headers, xs[1..], k);
      assert (xs + [k])[1..] == xs[1..] + [k];
    }
  }

  /** The loop over the client's headers. */
  method CopyHeaders(out: string, headers: map<string, string>, order: seq<string>,
                     ghost start: string, ghost hs: seq<Header>)
      returns (r: string, clientHost: string, forwardedFor: string)
    requires Enumerates(order, headers)
    requires out == start + HeaderBlock(hs)
    ensures r == start + HeaderBlock(hs + PassedOn(headers, order))
    ensures clientHost == Lookup(headers, HOST) && forwardedFor == Lookup(headers, FORWARDED_FOR)
  {
    r, clientHost, forwardedFor := out, "", "";
    assert hs + PassedOn(headers, order[..0]) == hs;
    for i := 0 to |order|
      invariant r == start + HeaderBlock(hs + PassedOn(headers, order[..i]))
      invariant clientHost == (if HOST in order[..i] then headers[HOST] else "")
      invariant forwardedFor == (if FORWARDED_FOR in order[..i] then headers[FORWARDED_FOR] else "")
    {
      var key := order[i];
      var val := headers[key];
      assert order[..i + 1] == order[..i] + [key];
      PassedOnAppend(headers, order[..i], key);
      ghost var before := hs + PassedOn(headers, order[..i]);
      assert hs + PassedOn(headers, order[..i + 1]) == if Copied(key) then before + [(key, val)] else before;
      if key == HOST {
        clientHost := val;
        continue;
      }
      if key == CONNECTION || key == CONTENT_LENGTH {
        continue;
      }
      if key == FORWARDED_FOR {
        forwardedFor := val;
        continue;
      }
      r := Emit(r, key, val, start, before);
    }
    assert order[..|order|] == order;
  }

  /** The tracing headers. */
  method InjectTracing(out: string, r: Request, clientIp: string, clientHost: string, previous: string,
                       ghost start: string, ghost hs: seq<Header>)
      returns (res: string)
    requires out == start + HeaderBlock(hs)
    requires clientHost == Lookup(r.headers, HOST) && previous == Lookup(r.headers, FORWARDED_FOR)
    ensures res == start + HeaderBlock(hs + Injected(r, clientIp))
  {
    res := out;
    ghost var done := hs;
    var forwardedFor := previous;
    if clientIp != "" {
      if forwardedFor != "" {
        forwardedFor := forwardedFor + ", " + clientIp;
      } else {
        forwardedFor := clientIp;
      }
      res := Emit(res, "X-Forwarded-For", forwardedFor, start, done);
      done := done + [("X-Forwarded-For", forwardedFor)];
      res := Emit(res, "X-Real-IP", clientIp, start, done);
      done := done + [("X-Real-IP", clientIp)];
    }
    if clientHost != "" {
      res := Emit(res, "X-Forwarded-Host", clientHost, start, done);
      done := done + [("X-Forwarded-Host", clientHost)];
    }
    res := Emit(res, "X-Forwarded-Proto", "http", start, done);
    assert done + [("X-Forwarded-Proto", "http")] == hs + Injected(r, clientIp);
  }

  /** The stream-building code of `forward`. */
  method BuildRequest(o: ProxyOptions, r: Request, clientIp: string, order: seq<string>) returns (raw: string)
    requires Enumerates(order, r.headers)
    ensures raw == PrintRequest(o, r, clientIp, order)
  {
    hide Target, PassedOn, Injected;
    var out := MethodToString(r.verb) + " " + Target(o, r.path, r.query) + " HTTP/1.1" + "\r\n";
    ghost var start := out;
    ghost var first: seq<Header> := [("Host", HostValue(o))] + [("Connection", "close")];
    assert out == start + HeaderBlock([]);
    assert [] + [("Host", HostValue(o))] == [("Host", HostValue(o))];
    out := Emit(out, "Host", o.targetHost + ":" + ToDecimal(o.targetPort), start, []);
    out := Emit(out, "Connection", "close", start, [("Host", HostValue(o))]);

    var clientHost, forwardedFor;
    out, clientHost, forwardedFor := CopyHeaders(out, r.headers, order, start, first);
    out := InjectTracing(out, r, clientIp, clientHost, forwardedFor, start, first + PassedOn(r.headers, order));
    ghost var printed := first + PassedOn(r.headers, order) + Injected(r, clientIp);
    if r.body != "" {
      out := Emit(out, "Content-Length", ToDecimal(|r.body|), start, printed);
    }
    assert printed + LengthHeader(r.body) == HeadersOf(o, r, clientIp, order);
    assert r.body == "" ==> printed + LengthHeader(r.body) == printed;
    out := out + "\r\n";
    if r.body != "" {
      out := out + r.body;
    }
    raw := out;
  }
}
