/** Printing a request for the upstream server and parsing the bytes again. */
module ProxyRoundTrip {
  import opened Text
  import opened HttpRequests
  import opened HttpParsing
  import opened HeaderText
  import opened ProxyRequests

  // ------------------------------------------------- header lines, in general

  ghost predicate Printable(h: Header) {
    OneLine(h.0) && OneLine(h.1) && ':' !in h.0 && Trim(h.0) != ""
  }

  predicate Special(h: Header) {
    ToLower(Trim(h.0)) == CONTENT_LENGTH || ToLower(Trim(h.0)) == CONNECTION
  }

  function Stored(headers: map<string, string>, h: Header): map<string, string> {
    headers[ToLower(Trim(h.0)) := Trim(h.1)]
  }

  /** Header lines read one after the other: the last one wins. */
  function StoreAll(headers: map<string, string>, hs: seq<Header>): map<string, string>
    decreases |hs|
  {
    if hs == [] then headers else StoreAll(Stored(headers, hs[0]), hs[1..])
  }

  lemma PrintedLineSplits(h: Header)
    requires Printable(h)
    ensures var line := h.0 + ": " + h.1;
      && OneLine(line) && line != ""
      && Find(line, ':') == |h.0| && line[..|h.0|] == h.0 && Trim(line[|h.0| + 1..]) == Trim(h.1)
  {
    var line := h.0 + ": " + h.1;
    OneLineJoin(h.0, ": ", h.1);
    assert line[|h.0|] == ':';
    assert forall j :: 0 <= j < |h.0| ==> line[j] == h.0[j];
    FindIs(line, ':', |h.0|);
    assert line[|h.0| + 1..] == " " + h.1;
    TrimLeftBlank(" ", h.1);
  }

  /** A printed header line is read back as that header, whatever follows it. */
  lemma PrintedLineIsRead(lim: Limits, p: Parser, h: Header, rest: string)
    requires Printable(h) && p.state == Headers
    requires p.headerBytes + |HeaderLine(h)| <= lim.maxHeaderBytes
    ensures var q := p.(headerBytes := p.headerBytes + |HeaderLine(h)|);
      match ReadHeaderLine(q, h.0 + ": " + h.1)
      case None => true
      case Some(n) => Next(lim, p, HeaderLine(h) + rest) == Advance(n, rest)
  {
    var line := h.0 + ": " + h.1;
    PrintedLineSplits(h);
    FindCrlfAfterLine(line, rest);
    var bytes := HeaderLine(h) + rest;
    assert bytes == line + "\r\n" + rest;
    assert bytes[..|line|] == line && bytes[|line| + 2..] == rest;
  }

  lemma PlainLineIsStored(p: Parser, h: Header)
    requires Printable(h) && !Special(h)
    ensures ReadHeaderLine(p, h.0 + ": " + h.1)
         == Some(p.(request := p.request.(headers := Stored(p.request.headers, h))))
  {
    PrintedLineSplits(h);
    var i, j := TrimBounds(h.0);
    var k, l := TrimBounds(h.1);
    TrimOfTrimmed(Trim(h.0));
    TrimOfTrimmed(Trim(h.1));
  }

  lemma {:induction false} PlainBlockIsStored(lim: Limits, p: Parser, hs: seq<Header>, rest: string)
    requires p.state == Headers && (forall h :: h in hs ==> Printable(h) && !Special(h))
    requires p.headerBytes + |HeaderBlock(hs)| <= lim.maxHeaderBytes
    ensures Parse(lim, p, HeaderBlock(hs) + rest)
         == Parse(lim, p.(headerBytes := p.headerBytes + |HeaderBlock(hs)|,
                          request := p.request.(headers := StoreAll(p.request.headers, hs))), rest)
    decreases |hs|
  {
    hide Next, ReadHeaderLine;
    if hs == [] {
      assert HeaderBlock(hs) + rest == rest;
    } else {
      var h, more := hs[0], HeaderBlock(hs[1..]) + rest;
      assert HeaderBlock(hs) + rest == HeaderLine(h) + more;
      var q := p.(headerBytes := p.headerBytes + |HeaderLine(h)|);
      PlainLineIsStored(q, h);
      PrintedLineIsRead(lim, p, h, more);
      PlainBlockIsStored(lim, q.(request := q.request.(headers := Stored(q.request.headers, h))), hs[1..], rest);
    }
  }

  // ------------------------------------------------ the headers that come back

  function Traced(clientIp: string, forwardedFor: string): map<string, string> {
    if clientIp == "" then map[] else map[FORWARDED_FOR := Trim(forwardedFor), "x-real-ip" := Trim(clientIp)]
  }

  function Hosted(clientHost: string): map<string, string> {
    if clientHost == "" then map[] else map["x-forwarded-host" := clientHost]
  }

  function Sized(body: string): map<string, string> {
    if body == "" then map[] else map[CONTENT_LENGTH := ToDecimal(|body|)]
  }

  /** The header map the rewrite rules describe: Host and Connection, the client's
      own headers except four, then the injected ones, the last one winning. */
  function RewrittenHeaders(o: ProxyOptions, r: Request, clientIp: string): map<string, string> {
    map[HOST := Trim(HostValue(o)), CONNECTION := "close"]
    + (map k | k in r.headers && Copied(k) :: r.headers[k])
    + Traced(clientIp, ForwardedFor(r, clientIp))
    + Hosted(Lookup(r.headers, HOST))
    + map["x-forwarded-proto" := "http"]
    + Sized(r.body)
  }

  /** Fields the proxy decides about; all others are the client's own. */
  const DECIDED := {"host", "connection", "content-length", "x-forwarded-for", "x-real-ip",
                    "x-forwarded-host", "x-forwarded-proto"}

  /** The rules, field by field. */
  ghost predicate HeadersFollowRules(o: ProxyOptions, r: Request, clientIp: string, m: map<string, string>) {
    && (forall k :: k !in DECIDED ==> (k in m <==> k in r.headers) && (k in r.headers ==> m[k] == r.headers[k]))
    && Holds(m, "host", Trim(o.targetHost + ":" + ToDecimal(o.targetPort)))
    && Holds(m, "connection", "close")
    && Holds(m, "x-forwarded-proto", "http")
    && (if r.body == "" then "content-length" !in m else Holds(m, "content-length", ToDecimal(|r.body|)))
    && ClientFollowsRules(r, clientIp, m)
  }

  /** The client's address is appended to the list of addresses that came with the request,
      and given on its own; the host asked for is passed on. Where the proxy has nothing to
      say the client's own field stays, the list of addresses excepted. */
  ghost predicate ClientFollowsRules(r: Request, clientIp: string, m: map<string, string>) {
    && (if clientIp == "" then "x-forwarded-for" !in m && Same(m, r.headers, "x-real-ip")
        else
          && Holds(m, "x-real-ip", Trim(clientIp))
          && Holds(m, "x-forwarded-for",
               Trim(if "x-forwarded-for" in r.headers && r.headers["x-forwarded-for"] != ""
                    then r.headers["x-forwarded-for"] + ", " + clientIp else clientIp)))
    && (if "host" in r.headers && r.headers["host"] != "" then Holds(m, "x-forwarded-host", r.headers["host"])
        else Same(m, r.headers, "x-forwarded-host"))
  }

  predicate Holds(m: map<string, string>, k: string, v: string) { k in m && m[k] == v }

  predicate Same(m: map<string, string>, n: map<string, string>, k: string) {
    (k in m <==> k in n) && (k in m ==> m[k] == n[k])
  }

  lemma HeadersAreRewritten(o: ProxyOptions, r: Request, clientIp: string)
    ensures HeadersFollowRules(o, r, clientIp, RewrittenHeaders(o, r, clientIp))
  {
    hide Holds, ClientFollowsRules, RewrittenHeaders, Trim, ToDecimal;
    forall k | k !in DECIDED
      ensures var m := RewrittenHeaders(o, r, clientIp);
        (k in m <==> k in r.headers) && (k in r.headers ==> m[k] == r.headers[k])
    {
      OthersAreTheClients(o, r, clientIp, k);
    }
    OwnFieldsAreWritten(o, r, clientIp);
    ClientFieldsAreWritten(o, r, clientIp);
  }

  lemma OthersAreTheClients(o: ProxyOptions, r: Request, clientIp: string, k: string)
    requires k !in DECIDED
    ensures var m := RewrittenHeaders(o, r, clientIp);
      (k in m <==> k in r.headers) && (k in r.headers ==> m[k] == r.headers[k])
  {
    hide Trim, ToDecimal, HostValue, ForwardedFor;
  }

  type Fields = map<string, string>

  /** Which of six layers of fields decides about a field, the names being told apart by
      their lengths. */
  lemma LayersDecide(host: string, ip: string, conn: string, len: string, xff: string, xhost: string, proto: string,
                     base: Fields, own: Fields, traced: Fields, hosted: Fields, scheme: Fields, sized: Fields)
    requires |host| < |ip| < |conn| < |len| < |xff| < |xhost| < |proto|
    requires base.Keys == {host, conn} && own.Keys !! {host, conn, len, xff} && traced.Keys <= {xff, ip}
    requires hosted.Keys <= {xhost} && scheme.Keys == {proto} && sized.Keys <= {len}
    ensures var m := base + own + traced + hosted + scheme + sized;
      && Holds(m, host, base[host]) && Holds(m, conn, base[conn]) && Holds(m, proto, scheme[proto])
      && Same(m, sized, len) && Same(m, traced, xff)
      && Same(m, if ip in traced then traced else own, ip)
      && Same(m, if xhost in hosted then hosted else own, xhost)
  {}

  lemma NamesByLength()
    ensures |HOST| < |"x-real-ip"| < |CONNECTION| < |CONTENT_LENGTH| < |FORWARDED_FOR|
    ensures |FORWARDED_FOR| < |"x-forwarded-host"| < |"x-forwarded-proto"|
  {}

  function Own(r: Request): Fields { map k | k in r.headers && Copied(k) :: r.headers[k] }

  lemma OwnIsTheClients(r: Request, k: string)
    requires |k| == |"x-real-ip"| || |k| == |"x-forwarded-host"|
    ensures Same(Own(r), r.headers, k)
  {}

  lemma LayersOf(o: ProxyOptions, r: Request, clientIp: string)
    ensures var m := RewrittenHeaders(o, r, clientIp);
      var traced, hosted := Traced(clientIp, ForwardedFor(r, clientIp)), Hosted(Lookup(r.headers, HOST));
      && Holds(m, HOST, Trim(HostValue(o))) && Holds(m, CONNECTION, "close") && Holds(m, "x-forwarded-proto", "http")
      && Same(m, Sized(r.body), CONTENT_LENGTH) && Same(m, traced, FORWARDED_FOR)
      && Same(m, if "x-real-ip" in traced then traced else r.headers, "x-real-ip")
      && Same(m, if "x-forwarded-host" in hosted then hosted else r.headers, "x-forwarded-host")
  {
    hide Trim, HostValue, ForwardedFor, Lookup, Holds;
    var base := map[HOST := Trim(HostValue(o)), CONNECTION := "close"];
    NamesByLength();
    OwnIsTheClients(r, "x-real-ip");
    OwnIsTheClients(r, "x-forwarded-host");
    LayersDecide(HOST, "x-real-ip", CONNECTION, CONTENT_LENGTH, FORWARDED_FOR, "x-forwarded-host", "x-forwarded-proto",
                 base, Own(r), Traced(clientIp, ForwardedFor(r, clientIp)), Hosted(Lookup(r.headers, HOST)),
                 map["x-forwarded-proto" := "http"], Sized(r.body));
  }

  lemma OwnFieldsAreWritten(o: ProxyOptions, r: Request, clientIp: string)
    ensures var m := RewrittenHeaders(o, r, clientIp);
      && Holds(m, "host", Trim(o.targetHost + ":" + ToDecimal(o.targetPort)))
      && Holds(m, "connection", "close")
      && Holds(m, "x-forwarded-proto", "http")
      && (if r.body == "" then "content-length" !in m else Holds(m, "content-length", ToDecimal(|r.body|)))
  {
    hide Trim, ToDecimal, ForwardedFor, RewrittenHeaders;
    LayersOf(o, r, clientIp);
  }

  lemma ClientFieldsAreWritten(o: ProxyOptions, r: Request, clientIp: string)
    ensures ClientFollowsRules(r, clientIp, RewrittenHeaders(o, r, clientIp))
  {
    hide Trim, HostValue, RewrittenHeaders;
    LayersOf(o, r, clientIp);
    NamesByLength();
  }

  lemma {:induction false} StoreAllAppend(m: map<string, string>, xs: seq<Header>, ys: seq<Header>)
    ensures StoreAll(m, xs + ys) == StoreAll(StoreAll(m, xs), ys)
    decreases |xs|
  {
    if xs == [] {
      assert xs + ys == ys;
    } else {
      assert (xs + ys)[1..] == xs[1..] + ys;
      StoreAllAppend(Stored(m, xs[0]), xs[1..], ys);
    }
  }

  lemma CanonicalIsStoredAsIs(m: map<string, string>, k: string, v: string)
    requires CanonicalName(k) && CanonicalValue(v)
    ensures Stored(m, (k, v)) == m[k := v] && Printable((k, v))
  {
    TrimOfTrimmed(k);
    TrimOfTrimmed(v);
  }

  function Kept(headers: map<string, string>, names: seq<string>): map<string, string>
    requires forall k :: k in names ==> k in headers
  {
    map k | k in names && Copied(k) :: headers[k]
  }

  lemma KeptStep(m: map<string, string>, headers: map<string, string>, k: string, tail: seq<string>)
    requires k in headers && forall x :: x in tail ==> x in headers
    ensures m + Kept(headers, [k] + tail)
         == (if Copied(k) then m[k := headers[k]] else m) + Kept(headers, tail)
  {}

  lemma {:induction false} PassedOnIsStored(m: map<string, string>, headers: map<string, string>, order: seq<string>)
    requires CanonicalHeaders(headers) && forall k :: k in order ==> k in headers
    ensures StoreAll(m, PassedOn(headers, order)) == m + Kept(headers, order)
    decreases |order|
  {
    if order != [] {
      var k, tail := order[0], order[1..];
      assert order == [k] + tail;
      KeptStep(m, headers, k, tail);
      if Copied(k) {
        CanonicalIsStoredAsIs(m, k, headers[k]);
        PassedOnIsStored(m[k := headers[k]], headers, tail);
        assert PassedOn(headers, order)[1..] == PassedOn(headers, tail);
      } else {
        PassedOnIsStored(m, headers, tail);
        assert PassedOn(headers, order) == PassedOn(headers, tail);
      }
    }
  }

  lemma {:induction false} PassedOnIsPlain(headers: map<string, string>, order: seq<string>)
    requires CanonicalHeaders(headers) && forall k :: k in order ==> k in headers
    ensures forall h :: h in PassedOn(headers, order) ==> Printable(h) && !Special(h)
  {
    if order != [] {
      PassedOnIsPlain(headers, order[1..]);
      CanonicalIsStoredAsIs(map[], order[0], headers[order[0]]);
      TrimOfTrimmed(order[0]);
    }
  }

  /** A name the proxy writes itself, with its lower-case form. */
  ghost predicate FixedName(name: string, lower: string) {
    name != "" && Trimmed(name) && OneLine(name) && ':' !in name && ToLower(name) == lower
  }

  lemma StandardNames()
    ensures FixedName("Host", HOST) && FixedName("Connection", CONNECTION)
    ensures FixedName("Content-Length", CONTENT_LENGTH)
  {}

  lemma TracingNames()
    ensures FixedName("X-Forwarded-For", FORWARDED_FOR) && FixedName("X-Real-IP", "x-real-ip")
    ensures FixedName("X-Forwarded-Host", "x-forwarded-host")
    ensures FixedName("X-Forwarded-Proto", "x-forwarded-proto")
  {}

  lemma FixedNameIsStored(m: map<string, string>, name: string, lower: string, v: string)
    requires FixedName(name, lower) && OneLine(v)
    ensures Printable((name, v)) && Stored(m, (name, v)) == m[lower := Trim(v)]
    ensures Special((name, v)) <==> lower == CONNECTION || lower == CONTENT_LENGTH
  {
    TrimOfTrimmed(name);
  }

  lemma LookupCanonical(headers: map<string, string>, k: string)
    requires CanonicalHeaders(headers)
    ensures CanonicalValue(Lookup(headers, k))
  {}

  lemma ForwardedForIsOneLine(r: Request, clientIp: string)
    requires CanonicalHeaders(r.headers) && OneLine(clientIp)
    ensures OneLine(ForwardedFor(r, clientIp))
  {
    LookupCanonical(r.headers, FORWARDED_FOR);
    OneLineJoin(Lookup(r.headers, FORWARDED_FOR), ", ", clientIp);
  }

  lemma StoreOne(m: map<string, string>, h: Header)
    ensures StoreAll(m, [h]) == Stored(m, h)
  {
    assert [h][1..] == [];
  }

  lemma TracedIsStored(m: map<string, string>, clientIp: string, forwardedFor: string)
    requires OneLine(clientIp) && OneLine(forwardedFor)
    ensures var hs: seq<Header> := if clientIp == "" then []
              else [("X-Forwarded-For", forwardedFor), ("X-Real-IP", clientIp)];
      && StoreAll(m, hs) == m + Traced(clientIp, forwardedFor)
      && forall h :: h in hs ==> Printable(h) && !Special(h)
  {
    if clientIp == "" {
      assert m + map[] == m;
    } else {
      var a: Header, b: Header := ("X-Forwarded-For", forwardedFor), ("X-Real-IP", clientIp);
      TracingNames();
      FixedNameIsStored(m, a.0, FORWARDED_FOR, forwardedFor);
      FixedNameIsStored(Stored(m, a), b.0, "x-real-ip", clientIp);
      assert [a, b] == [a] + [b];
      StoreAllAppend(m, [a], [b]);
      StoreOne(m, a);
      StoreOne(Stored(m, a), b);
    }
  }

  lemma HostedIsStored(m: map<string, string>, clientHost: string)
    requires CanonicalValue(clientHost)
    ensures var hs: seq<Header> := if clientHost == "" then [] else [("X-Forwarded-Host", clientHost)];
      && StoreAll(m, hs) == m + Hosted(clientHost)
      && forall h :: h in hs ==> Printable(h) && !Special(h)
  {
    if clientHost == "" {
      assert m + map[] == m;
    } else {
      TracingNames();
      FixedNameIsStored(m, "X-Forwarded-Host", "x-forwarded-host", clientHost);
      TrimOfTrimmed(clientHost);
      StoreOne(m, ("X-Forwarded-Host", clientHost));
    }
  }

  lemma ProtoIsStored(m: map<string, string>)
    ensures StoreAll(m, [("X-Forwarded-Proto", "http")]) == m + map["x-forwarded-proto" := "http"]
    ensures Printable(("X-Forwarded-Proto", "http")) && !Special(("X-Forwarded-Proto", "http"))
  {
    TracingNames();
    TrimOfTrimmed("http");
    FixedNameIsStored(m, "X-Forwarded-Proto", "x-forwarded-proto", "http");
    StoreOne(m, ("X-Forwarded-Proto", "http"));
  }

  lemma InjectedIsStored(m: map<string, string>, r: Request, clientIp: string)
    requires CanonicalHeaders(r.headers) && OneLine(clientIp)
    ensures StoreAll(m, Injected(r, clientIp))
         == m + Traced(clientIp, ForwardedFor(r, clientIp)) + Hosted(Lookup(r.headers, HOST))
              + map["x-forwarded-proto" := "http"]
    ensures forall h :: h in Injected(r, clientIp) ==> Printable(h) && !Special(h)
  {
    hide StoreAll, Stored, Traced, Hosted, Printable, Special, ForwardedFor, Lookup;
    var fwd, clientHost := ForwardedFor(r, clientIp), Lookup(r.headers, HOST);
    ForwardedForIsOneLine(r, clientIp);
    LookupCanonical(r.headers, HOST);
    var a: seq<Header> := if clientIp == "" then [] else [("X-Forwarded-For", fwd), ("X-Real-IP", clientIp)];
    var b: seq<Header> := if clientHost == "" then [] else [("X-Forwarded-Host", clientHost)];
    TracedIsStored(m, clientIp, fwd);
    HostedIsStored(StoreAll(m, a), clientHost);
    StoreAllAppend(m, a, b);
    StoreAllAppend(m, a + b, [("X-Forwarded-Proto", "http")]);
    ProtoIsStored(StoreAll(m, a + b));
  }

  // --------------------------------------------------------- the request line

  lemma MethodRoundTrip(m: Method)
    requires m != Invalid
    ensures MethodFromString(MethodToString(m)) == m
    ensures OneLine(MethodToString(m)) && ' ' !in MethodToString(m)
  {}

  lemma RewrittenPathIsClean(o: ProxyOptions, path: string)
    requires path != "" && OneLine(path) && ' ' !in path && '?' !in path
    ensures var s := RewritePath(o, path); s != "" && OneLine(s) && ' ' !in s && '?' !in s
  {
    if o.rewritePrefix && o.prefix != "" && HasPrefix(path, o.prefix) {
      var tail := path[|o.prefix|..];
      OneLineParts(path, |o.prefix|);
      OneLineJoin("", "/", tail);
      assert "" + "/" + tail == "/" + tail;
    }
  }

  /** The upstream server is asked for what stands behind the prefix, with a slash in front;
      without a prefix to strip, for the path as it is. */
  ghost predicate PathFollowsRules(o: ProxyOptions, path: string, asked: string) {
    && (forall tail :: o.rewritePrefix && o.prefix != "" && path == o.prefix + tail ==>
          asked == if tail != "" && tail[0] == '/' then tail else "/" + tail)
    && (!o.rewritePrefix || o.prefix == "" || !(o.prefix <= path) ==> asked == path)
  }

  lemma PathIsRewritten(o: ProxyOptions, path: string)
    requires path != ""
    ensures PathFollowsRules(o, path, RewritePath(o, path))
  {
    forall tail | o.rewritePrefix && o.prefix != "" && path == o.prefix + tail
      ensures RewritePath(o, path) == if tail != "" && tail[0] == '/' then tail else "/" + tail
    {
      assert path[..|o.prefix|] == o.prefix && path[|o.prefix|..] == tail;
    }
  }

  lemma TargetIsClean(o: ProxyOptions, r: Request)
    requires WellFormed(r)
    ensures OneLine(Target(o, r.path, r.query)) && ' ' !in Target(o, r.path, r.query)
  {
    RewrittenPathIsClean(o, r.path);
    var path := RewritePath(o, r.path);
    if r.query == "" {
      assert path + "" == path;
    } else {
      OneLineJoin(path, "?", r.query);
      assert path + "?" + r.query == path + ("?" + r.query);
    }
  }

  lemma RequestLineIsRead(o: ProxyOptions, r: Request)
    requires WellFormed(r)
    ensures OneLine(RequestLineOf(o, r))
    ensures ReadRequestLine(EMPTY_REQUEST, RequestLineOf(o, r))
         == Some(Request(r.verb, RewritePath(o, r.path), r.query, "HTTP/1.1", "", map[], true))
  {
    hide Find, Trim, SetPath, MethodFromString, MethodToString, RewritePath;
    var verb, target := MethodToString(r.verb), Target(o, r.path, r.query);
    MethodRoundTrip(r.verb);
    TargetIsClean(o, r);
    OneLineJoin(verb, " ", target);
    OneLineJoin(verb + " " + target, " ", "HTTP/1.1");
    assert RequestLineOf(o, r) == verb + " " + target + " " + "HTTP/1.1";
    WordsSplit(verb, target, "HTTP/1.1");
    TrimOfTrimmed("HTTP/1.1");
    RewrittenPathIsClean(o, r.path);
    SetPathOfPrinted(EMPTY_REQUEST.(verb := r.verb), RewritePath(o, r.path), r.query);
  }

  // ------------------------------------------------------- the whole message

  lemma ConnectionLineIsRead(p: Parser)
    ensures Printable(("Connection", "close"))
    ensures ReadHeaderLine(p, "Connection" + ": " + "close")
         == Some(p.(request := p.request.(headers := p.request.headers[CONNECTION := "close"], keepAlive := false)))
  {
    StandardNames();
    FixedNameIsStored(p.request.headers, "Connection", CONNECTION, "close");
    PrintedLineSplits(("Connection", "close"));
    TrimOfTrimmed("Connection");
    TrimOfTrimmed("close");
    assert ToLower("close") == "close";
    assert HasPrefix("close"[0..], "close");
  }

  lemma LengthLineIsRead(p: Parser, n: nat)
    requires n <= SIZE_MAX
    ensures Printable(("Content-Length", ToDecimal(n)))
    ensures ReadHeaderLine(p, "Content-Length" + ": " + ToDecimal(n))
         == Some(p.(contentLength := n,
                    request := p.request.(headers := p.request.headers[CONTENT_LENGTH := ToDecimal(n)])))
  {
    DecimalRoundTrip(n);
    DigitsAreOneLine(ToDecimal(n));
    StandardNames();
    FixedNameIsStored(p.request.headers, "Content-Length", CONTENT_LENGTH, ToDecimal(n));
    PrintedLineSplits(("Content-Length", ToDecimal(n)));
    TrimOfTrimmed("Content-Length");
    TrimOfTrimmed(ToDecimal(n));
  }

  /** The end of a head, and the body it announces. */
  lemma BlankLineAndBody(lim: Limits, p: Parser, body: string, rest: string)
    requires p.state == Headers && p.contentLength == |body| <= lim.maxBodyBytes && p.request.body == ""
    requires p.headerBytes + 2 <= lim.maxHeaderBytes
    ensures Parse(lim, p, "\r\n" + body + rest)
         == ParseOutcome(Complete, p.(state := GotAll, headerBytes := p.headerBytes + 2,
                                 request := p.request.(body := body)), rest)
  {
    var bytes := "\r\n" + body + rest;
    assert "" + "\r\n" + (body + rest) == bytes;
    FindCrlfAfterLine("", body + rest);
    assert bytes[..0] == "" && bytes[2..] == body + rest;
    assert (body + rest)[..|body|] == body && (body + rest)[|body|..] == rest;
  }

  lemma SizedBodyIsRead(lim: Limits, p: Parser, body: string, rest: string)
    requires p.state == Headers && p.contentLength == 0 && p.request.body == ""
    requires |body| <= lim.maxBodyBytes && |body| <= SIZE_MAX
    requires p.headerBytes + |HeaderBlock(LengthHeader(body))| + 2 <= lim.maxHeaderBytes
    ensures Parse(lim, p, HeaderBlock(LengthHeader(body)) + ("\r\n" + body + rest))
         == ParseOutcome(Complete, p.(state := GotAll, contentLength := |body|,
                headerBytes := p.headerBytes + |HeaderBlock(LengthHeader(body))| + 2,
                request := p.request.(headers := p.request.headers + Sized(body), body := body)), rest)
  {
    hide Next, ReadHeaderLine;
    var tail := "\r\n" + body + rest;
    if body == "" {
      assert HeaderBlock([]) + tail == tail && p.request.headers + map[] == p.request.headers;
      BlankLineAndBody(lim, p, body, rest);
    } else {
      var h: Header := ("Content-Length", ToDecimal(|body|));
      assert [h][1..] == [] && HeaderBlock([h]) == HeaderLine(h);
      var q := p.(headerBytes := p.headerBytes + |HeaderLine(h)|);
      LengthLineIsRead(q, |body|);
      PrintedLineIsRead(lim, p, h, tail);
      assert p.request.headers + Sized(body) == p.request.headers[CONTENT_LENGTH := ToDecimal(|body|)];
      BlankLineAndBody(lim, q.(contentLength := |body|, request := q.request.(headers := p.request.headers + Sized(body))), body, rest);
    }
  }

  /** After the request line, before the first header. */
  function AtHeaders(o: ProxyOptions, r: Request): Parser {
    Parser(Headers, 0, |RequestLineOf(o, r)| + 2,
           Request(r.verb, RewritePath(o, r.path), r.query, "HTTP/1.1", "", map[], true))
  }

  lemma RequestLineStep(lim: Limits, o: ProxyOptions, r: Request, rest: string)
    requires WellFormed(r) && |RequestLineOf(o, r)| + 2 <= lim.maxHeaderBytes
    ensures Parse(lim, INITIAL, RequestLineOf(o, r) + "\r\n" + rest) == Parse(lim, AtHeaders(o, r), rest)
  {
    hide RequestLineOf, ReadRequestLine, RewritePath;
    var line := RequestLineOf(o, r);
    RequestLineIsRead(o, r);
    FindCrlfAfterLine(line, rest);
    var bytes := line + "\r\n" + rest;
    assert bytes[..|line|] == line && bytes[|line| + 2..] == rest;
  }

  lemma HostIsStored(o: ProxyOptions)
    requires OneLine(o.targetHost)
    ensures Printable(("Host", HostValue(o))) && !Special(("Host", HostValue(o)))
    ensures StoreAll(map[], [("Host", HostValue(o))]) == map[HOST := Trim(HostValue(o))]
  {
    var port := ToDecimal(o.targetPort);
    DecimalRoundTrip(o.targetPort);
    DigitsAreOneLine(port);
    OneLineJoin(o.targetHost, ":", port);
    StandardNames();
    FixedNameIsStored(map[], "Host", HOST, HostValue(o));
    StoreOne(map[], ("Host", HostValue(o)));
  }

  lemma MainHeadersInStretches(o: ProxyOptions, r: Request, clientIp: string, order: seq<string>)
    requires forall k :: k in order ==> k in r.headers
    ensures HeaderBlock(MainHeaders(o, r, clientIp, order))
         == HeaderBlock([("Host", HostValue(o))]) + (HeaderLine(("Connection", "close"))
          + HeaderBlock(PassedOn(r.headers, order) + Injected(r, clientIp)))
  {
    hide HostValue, PassedOn, Injected;
    var a: seq<Header>, b: Header := [("Host", HostValue(o))], ("Connection", "close");
    var c := PassedOn(r.headers, order) + Injected(r, clientIp);
    assert [b][1..] == [] && HeaderBlock([b]) == HeaderLine(b);
    HeaderBlockAppend(a, [b]);
    HeaderBlockAppend(a + [b], c);
  }

  /** Host, Connection, the client's headers and the tracing headers are read back. */
  lemma MainHeadersAreRead(lim: Limits, o: ProxyOptions, r: Request, clientIp: string, order: seq<string>, rest: string)
    requires WellFormed(r) && OneLine(o.targetHost) && OneLine(clientIp) && Enumerates(order, r.headers)
    requires |RequestLineOf(o, r)| + 2 + |HeaderBlock(MainHeaders(o, r, clientIp, order))| <= lim.maxHeaderBytes
    ensures var p, block := AtHeaders(o, r), HeaderBlock(MainHeaders(o, r, clientIp, order));
      Parse(lim, p, block + rest)
      == Parse(lim, p.(headerBytes := p.headerBytes + |block|,
                       request := p.request.(headers := RewrittenHeaders(o, r.(body := ""), clientIp), keepAlive := false)),
               rest)
  {
    hide Next, ReadHeaderLine, HostValue, PassedOn, Injected, RequestLineOf, RewritePath, Traced, Hosted,
         ForwardedFor, Lookup, Trim, StoreAll, Printable, Special, MainHeaders, HeaderBlock;
    var p := AtHeaders(o, r);
    var a: seq<Header>, b: Header := [("Host", HostValue(o))], ("Connection", "close");
    var c := PassedOn(r.headers, order) + Injected(r, clientIp);
    var m := map[HOST := Trim(HostValue(o))];
    MainHeadersInStretches(o, r, clientIp, order);
    assert HeaderBlock(MainHeaders(o, r, clientIp, order)) + rest
        == HeaderBlock(a) + (HeaderLine(b) + (HeaderBlock(c) + rest));

    HostIsStored(o);
    PlainBlockIsStored(lim, p, a, HeaderLine(b) + (HeaderBlock(c) + rest));
    var p1 := p.(headerBytes := p.headerBytes + |HeaderBlock(a)|, request := p.request.(headers := m));
    var q1 := p1.(headerBytes := p1.headerBytes + |HeaderLine(b)|);
    ConnectionLineIsRead(q1);
    PrintedLineIsRead(lim, p1, b, HeaderBlock(c) + rest);
    var p2 := q1.(request := q1.request.(headers := m[CONNECTION := "close"], keepAlive := false));

    PassedOnIsPlain(r.headers, order);
    InjectedIsStored(m[CONNECTION := "close"] + Kept(r.headers, order), r, clientIp);
    PassedOnIsStored(m[CONNECTION := "close"], r.headers, order);
    StoreAllAppend(m[CONNECTION := "close"], PassedOn(r.headers, order), Injected(r, clientIp));
    PlainBlockIsStored(lim, p2, c, rest);
    MiddleHeaders(o, r, clientIp, order);
  }

  lemma MiddleHeaders(o: ProxyOptions, r: Request, clientIp: string, order: seq<string>)
    requires Enumerates(order, r.headers)
    ensures map[HOST := Trim(HostValue(o))][CONNECTION := "close"] + Kept(r.headers, order)
            + Traced(clientIp, ForwardedFor(r, clientIp)) + Hosted(Lookup(r.headers, HOST)) + map["x-forwarded-proto" := "http"]
         == RewrittenHeaders(o, r.(body := ""), clientIp)
  {
    hide HostValue, Traced, Hosted, Trim;
    assert Kept(r.headers, order) == map k | k in r.headers && Copied(k) :: r.headers[k];
    assert ForwardedFor(r.(body := ""), clientIp) == ForwardedFor(r, clientIp);
  }

  /** The bytes sent upstream parse to the rewritten request, and nothing more is consumed. */
  lemma ProxiedBytesParse(lim: Limits, o: ProxyOptions, r: Request, clientIp: string, order: seq<string>, rest: string)
    requires WellFormed(r) && OneLine(o.targetHost) && OneLine(clientIp) && Enumerates(order, r.headers)
    requires |PrintRequest(o, r, clientIp, order)| - |r.body| <= lim.maxHeaderBytes
    requires |r.body| <= lim.maxBodyBytes && |r.body| <= SIZE_MAX
    ensures var out := Parse(lim, INITIAL, PrintRequest(o, r, clientIp, order) + rest);
      && out.result == Complete && out.rest == rest
      && out.parser.request == Request(r.verb, RewritePath(o, r.path), r.query, "HTTP/1.1", r.body,
                                       RewrittenHeaders(o, r, clientIp), false)
  {
    hide RequestLineOf, MainHeaders, HeaderBlock, RewritePath, Parse, RewrittenHeaders, LengthHeader;
    var line, main := RequestLineOf(o, r), HeaderBlock(MainHeaders(o, r, clientIp, order));
    var sized, tail := HeaderBlock(LengthHeader(r.body)), "\r\n" + r.body + rest;
    HeaderBlockAppend(MainHeaders(o, r, clientIp, order), LengthHeader(r.body));
    assert PrintRequest(o, r, clientIp, order) + rest == line + "\r\n" + (main + (sized + tail));
    RequestLineStep(lim, o, r, main + (sized + tail));
    MainHeadersAreRead(lim, o, r, clientIp, order, sized + tail);
    var p := AtHeaders(o, r);
    var p4 := p.(headerBytes := p.headerBytes + |main|,
                 request := p.request.(headers := RewrittenHeaders(o, r.(body := ""), clientIp), keepAlive := false));
    SizedBodyIsRead(lim, p4, r.body, rest);
    LengthGoesLast(o, r, clientIp);
  }

  /** REQUEST ROUND TRIP. Whatever request the parser delivered, the bytes sent upstream parse
      back - consuming exactly the message, whatever follows it - to the same method, query
      and body, no keep-alive, the path without the prefix, and exactly the header fields the
      rules describe. */
  lemma RequestRoundTrip(lim: Limits, o: ProxyOptions, r: Request, clientIp: string, order: seq<string>, rest: string)
    requires WellFormed(r) && OneLine(o.targetHost) && OneLine(clientIp) && Enumerates(order, r.headers)
    requires |PrintRequest(o, r, clientIp, order)| - |r.body| <= lim.maxHeaderBytes
    requires |r.body| <= lim.maxBodyBytes && |r.body| <= SIZE_MAX
    ensures var out := Parse(lim, INITIAL, PrintRequest(o, r, clientIp, order) + rest);
      && out.result == Complete && out.rest == rest
      && out.parser.request == Request(r.verb, RewritePath(o, r.path), r.query, "HTTP/1.1", r.body,
                                       RewrittenHeaders(o, r, clientIp), false)
      && PathFollowsRules(o, r.path, out.parser.request.path)
      && HeadersFollowRules(o, r, clientIp, out.parser.request.headers)
  {
    hide PrintRequest, RewritePath, Parse, RewrittenHeaders, PathFollowsRules, HeadersFollowRules;
    ProxiedBytesParse(lim, o, r, clientIp, order, rest);
    PathIsRewritten(o, r.path);
    HeadersAreRewritten(o, r, clientIp);
  }

  lemma LengthGoesLast(o: ProxyOptions, r: Request, clientIp: string)
    ensures RewrittenHeaders(o, r.(body := ""), clientIp) + Sized(r.body) == RewrittenHeaders(o, r, clientIp)
  {
    assert ForwardedFor(r.(body := ""), clientIp) == ForwardedFor(r, clientIp);
    assert Sized("") == map[];
  }
}
