/** The message callback of a connection (src/main.cpp, lines 448-529) on top of parser,
    buffer and connection, without worker threads and without a rate limit, and what it
    means end to end: pipelined requests are answered in order, byte for byte. */
module Server {
  import opened Text
  import opened HttpRequests
  import opened HttpParsing
  import opened HeaderText
  import opened HttpResponses
  import opened FileBodies
  import opened ByteBuffer
  import opened Connections

  /** The router as a function, what the clock prints for the n-th answer on the
      connection, and how header maps are iterated. */
  datatype Config = Config(
    handler: Request -> Response,
    dateOf: nat -> string,
    orderOf: map<string, string> -> seq<string>)
  {
    ghost predicate Sound() {
      forall m: map<string, string> :: Enumerates(orderOf(m), m)
    }
  }

  const BAD_REQUEST: Response :=
    Response(400, "Bad Request", map["Content-Type" := "text/html; charset=utf-8"],
             "<html><body><h1>400 Bad Request</h1></body></html>", None, true)

  function HeadBytes(cfg: Config, n: nat, r: Request): string
    requires cfg.Sound()
  {
    var response := cfg.handler(r).(closeConnection := !r.keepAlive);
    Serialized(response, cfg.dateOf(n), cfg.orderOf(response.headers), r.verb != Head)
  }

  function FilePart(cfg: Config, r: Request): Option<FileBody> {
    if r.verb == Head then None else cfg.handler(r).fileBody
  }

  /** Everything the client is owed for one request, the n-th to be answered. */
  function Reply(cfg: Config, n: nat, r: Request): string
    requires cfg.Sound()
  {
    HeadBytes(cfg, n, r) + match FilePart(cfg, r) case None => "" case Some(f) => FileBytes(f)
  }

  function Replies(cfg: Config, n: nat, rs: seq<Request>): string
    requires cfg.Sound()
    decreases |rs|
  {
    if rs == [] then "" else Reply(cfg, n, rs[0]) + Replies(cfg, n + 1, rs[1..])
  }

  function BadReply(cfg: Config, n: nat): string
    requires cfg.Sound()
  {
    Serialized(BAD_REQUEST, cfg.dateOf(n), cfg.orderOf(BAD_REQUEST.headers), true)
  }

  lemma {:induction false} RepliesAppend(cfg: Config, n: nat, xs: seq<Request>, ys: seq<Request>)
    requires cfg.Sound()
    ensures Replies(cfg, n, xs + ys) == Replies(cfg, n, xs) + Replies(cfg, n + |xs|, ys)
    decreases |xs|
  {
    hide Reply;
    if xs == [] {
      assert xs + ys == ys;
    } else {
      assert (xs + ys)[0] == xs[0] && (xs + ys)[1..] == xs[1..] + ys;
      RepliesAppend(cfg, n + 1, xs[1..], ys);
      var a, b, c := Reply(cfg, n, xs[0]), Replies(cfg, n + 1, xs[1..]), Replies(cfg, n + |xs|, ys);
      assert Replies(cfg, n, xs + ys) == a + (b + c);
    }
  }

  // --------------------------------------------- what an answer is to a client

  /** The content of the answer to a request: what the handler put into the response and the
      file behind it, and nothing for HEAD. */
  function Content(cfg: Config, r: Request): string {
    var h := cfg.handler(r);
    if r.verb == Head then "" else h.body + match h.fileBody case None => "" case Some(f) => FileBytes(f)
  }

  /** A message `raw` with `rest` behind it answers the request: status, message and headers
      are the handler's, the content is complete, and the connection is announced to stay
      open exactly when the request asked for that. */
  ghost predicate Delivers(cfg: Config, r: Request, raw: string, rest: string, address: string) {
    var h, seen := cfg.handler(r), UpstreamResponse(raw, address);
    && "HTTP/1.1 " <= raw && BodyText(raw) == Content(cfg, r) + rest
    && seen.statusCode == h.statusCode && seen.statusMessage == h.statusMessage
    && (forall k :: k in h.headers && k !in {"X-Proxy-By", "X-Upstream-Addr"} ==>
          k in seen.headers && seen.headers[k] == h.headers[k])
    && ("Content-Length" in h.headers || ("Content-Length", ToDecimal(|h.body|)) in seen.headers.Items)
    && LastHeadLine(raw) == if r.keepAlive then "Connection: keep-alive" else "Connection: close"
  }

  ghost predicate Answers(cfg: Config, r: Request, bytes: string) {
    forall rest, address :: Delivers(cfg, r, bytes + rest, rest, address)
  }

  ghost predicate AnswersInOrder(cfg: Config, rs: seq<Request>, pieces: seq<string>) {
    |pieces| == |rs| && forall i :: 0 <= i < |rs| ==> Answers(cfg, rs[i], pieces[i])
  }

  /** The responses and dates whose text a message can carry. */
  ghost predicate Printable(cfg: Config, rs: seq<Request>) {
    (forall r :: r in rs ==> Plain(cfg.handler(r))) && forall n :: Transparent(("Date", cfg.dateOf(n)))
  }

  lemma ReplyInParts(cfg: Config, n: nat, r: Request)
    requires cfg.Sound()
    ensures var response := cfg.handler(r).(closeConnection := !r.keepAlive);
      Reply(cfg, n, r)
      == Serialized(response, cfg.dateOf(n), cfg.orderOf(response.headers), false) + Content(cfg, r)
  {
    var response := cfg.handler(r).(closeConnection := !r.keepAlive);
    BodyGoesLast(response, cfg.dateOf(n), cfg.orderOf(response.headers));
    hide Serialized, FileBytes;
    var head := Serialized(response, cfg.dateOf(n), cfg.orderOf(response.headers), false);
    assert head + "" == head;
  }

  /** What the server sends for a request answers it, whatever is sent behind it. */
  lemma ReplyAnswers(cfg: Config, n: nat, r: Request)
    requires cfg.Sound() && Plain(cfg.handler(r)) && Transparent(("Date", cfg.dateOf(n)))
    ensures Answers(cfg, r, Reply(cfg, n, r))
  {
    hide Reply, Delivers;
    forall rest, address ensures Delivers(cfg, r, Reply(cfg, n, r) + rest, rest, address) {
      ReplyDelivers(cfg, n, r, rest, address);
    }
  }

  lemma ReplyDelivers(cfg: Config, n: nat, r: Request, rest: string, address: string)
    requires cfg.Sound() && Plain(cfg.handler(r)) && Transparent(("Date", cfg.dateOf(n)))
    ensures Delivers(cfg, r, Reply(cfg, n, r) + rest, rest, address)
  {
    var response := cfg.handler(r).(closeConnection := !r.keepAlive);
    var date, order := cfg.dateOf(n), cfg.orderOf(response.headers);
    hide Serialized, Reply, Content, UpstreamResponse, BodyText, LastHeadLine, Transparent, Plain, Carried;
    ReplyInParts(cfg, n, r);
    PlainWhicheverConnection(cfg.handler(r), !r.keepAlive);
    var head := Serialized(response, date, order, false);
    assert Reply(cfg, n, r) + rest == head + (Content(cfg, r) + rest);
    MessageIsRead(response, date, order, address, Content(cfg, r) + rest);
    OwnHeadersAreCarried(response, date, address);
  }

  lemma PlainWhicheverConnection(r: Response, close: bool)
    requires Plain(r)
    ensures Plain(r.(closeConnection := close))
  {}

  lemma OwnHeadersAreCarried(r: Response, date: string, address: string)
    ensures var seen := Carried(r, date)["X-Proxy-By" := SERVER_NAME]["X-Upstream-Addr" := address];
      && (forall k :: k in r.headers && k !in {"X-Proxy-By", "X-Upstream-Addr"} ==>
            k in seen && seen[k] == r.headers[k])
      && ("Content-Length" in r.headers || ("Content-Length", ToDecimal(|r.body|)) in seen.Items)
  {
    hide ToDecimal;
    var seen := Carried(r, date)["X-Proxy-By" := SERVER_NAME]["X-Upstream-Addr" := address];
    assert "Content-Length" !in r.headers ==> seen["Content-Length"] == ToDecimal(|r.body|);
  }

  lemma {:induction false} RepliesAreAnswers(cfg: Config, n: nat, rs: seq<Request>) returns (pieces: seq<string>)
    requires cfg.Sound() && Printable(cfg, rs)
    ensures AnswersInOrder(cfg, rs, pieces) && Flatten(pieces) == Replies(cfg, n, rs)
    decreases |rs|
  {
    hide Answers, Reply, Plain, Transparent;
    pieces := [];
    if rs != [] {
      ReplyAnswers(cfg, n, rs[0]);
      var more := RepliesAreAnswers(cfg, n + 1, rs[1..]);
      pieces := [Reply(cfg, n, rs[0])] + more;
      assert pieces[1..] == more;
    }
  }

  /** Input that is rejected is answered with status 400 on a connection announced to close. */
  lemma RejectionAnswers400(cfg: Config, n: nat, lim: Limits, p: Parser, bytes: string, address: string)
    requires cfg.Sound() && Transparent(("Date", cfg.dateOf(n)))
    ensures var (pass, more) := Pass(cfg, n, lim, p, bytes);
      Parse(lim, p, bytes).result == BadRequest ==>
        && !more && pass.last && pass.answers == 1
        && UpstreamResponse(pass.output, address).statusCode == 400
        && BodyText(pass.output) == "<html><body><h1>400 Bad Request</h1></body></html>"
        && LastHeadLine(pass.output) == "Connection: close"
  {
    var date, order := cfg.dateOf(n), cfg.orderOf(BAD_REQUEST.headers);
    BodyGoesLast(BAD_REQUEST, date, order);
    RejectionIsPlain();
    hide Serialized, UpstreamResponse, BodyText, LastHeadLine, Transparent, Parse, Plain;
    MessageIsRead(BAD_REQUEST, date, order, address, BAD_REQUEST.body);
  }

  lemma RejectionIsPlain()
    ensures Plain(BAD_REQUEST)
  {
    var value := "text/html; charset=utf-8";
    assert Clean("Content-Type") && ':' !in "Content-Type";
    assert Clean(value) && !IsBlank(value[0]);
    assert Clean("Bad Request");
  }

  // ------------------------------------------------------- one callback run

  /** `answers` counts the answers in `output`; `last` tells that they end with a
      half-close. */
  datatype Service = Service(output: string, answers: nat, parser: Parser, rest: string, last: bool)

  lemma {:induction false} ParseConsumes(lim: Limits, p: Parser, bytes: string)
    ensures var o := Parse(lim, p, bytes);
      o.result == Complete ==> |o.rest| < |bytes| || (|o.rest| <= |bytes| && p.state != RequestLine)
    decreases |bytes|
  {
    StepConsumes(lim, p, bytes);
    match Next(lim, p, bytes)
    case Advance(n, rest) => ParseConsumes(lim, n, rest);
    case _ =>
  }

  /** The callback as a function: what it enqueues, and the parser and input it leaves.
      It goes on after a keep-alive request and stops after any other. */
  function Serve(cfg: Config, n: nat, lim: Limits, p: Parser, bytes: string): Service
    requires cfg.Sound()
    decreases |bytes|, if p.state == RequestLine then 0 else 1
  {
    var o := Parse(lim, p, bytes);
    match o.result
    case NeedMore => Service("", 0, o.parser, o.rest, false)
    case BadRequest => Service(BadReply(cfg, n), 1, o.parser, o.rest, true)
    case Complete =>
      var r := o.parser.request;
      if !r.keepAlive then Service(Reply(cfg, n, r), 1, INITIAL, o.rest, true)
      else
        ParseConsumes(lim, p, bytes);
        Behind(Reply(cfg, n, r), 1, Serve(cfg, n + 1, lim, INITIAL, o.rest))
  }

  /** What is served behind some answers already given. */
  function Behind(done: string, answers: nat, s: Service): Service {
    s.(output := done + s.output, answers := answers + s.answers)
  }

  lemma BehindTwice(a: string, n: nat, b: string, k: nat, s: Service)
    ensures Behind(a, n, Behind(b, k, s)) == Behind(a + b, n + k, s)
  {
    assert a + (b + s.output) == (a + b) + s.output;
  }

  /** One pass of the callback's loop, and whether another one follows. */
  function Pass(cfg: Config, n: nat, lim: Limits, p: Parser, bytes: string): (Service, bool)
    requires cfg.Sound()
  {
    var o := Parse(lim, p, bytes);
    match o.result
    case NeedMore => (Service("", 0, o.parser, o.rest, false), false)
    case BadRequest => (Service(BadReply(cfg, n), 1, o.parser, o.rest, true), false)
    case Complete =>
      var more := o.parser.request.keepAlive;
      (Service(Reply(cfg, n, o.parser.request), 1, INITIAL, o.rest, !more), more)
  }

  lemma ServeUnfolds(cfg: Config, n: nat, lim: Limits, p: Parser, bytes: string)
    requires cfg.Sound()
    ensures var (pass, more) := Pass(cfg, n, lim, p, bytes);
      if more then
        && Serve(cfg, n, lim, p, bytes)
           == Behind(pass.output, pass.answers, Serve(cfg, n + pass.answers, lim, INITIAL, pass.rest))
        && pass.parser == INITIAL && !pass.last
        && (|pass.rest| < |bytes| || (|pass.rest| <= |bytes| && p.state != RequestLine))
      else Serve(cfg, n, lim, p, bytes) == pass
  {
    hide Parse, Reply, BadReply;
    ParseConsumes(lim, p, bytes);
  }

  lemma {:induction false} RejectionIsFinal(lim: Limits, p: Parser, bytes: string)
    ensures var o := Parse(lim, p, bytes); o.result == BadRequest <==> o.parser.state == Error
    decreases |bytes|
  {
    StepConsumes(lim, p, bytes);
    match Next(lim, p, bytes)
    case Advance(n, rest) => RejectionIsFinal(lim, n, rest);
    case _ =>
  }

  ghost predicate KeepAlive(rs: seq<Request>) { forall r :: r in rs ==> r.keepAlive }

  /** On accepted keep-alive input the callback serves exactly the drained requests. */
  lemma {:induction false} ServeIsDrain(cfg: Config, n: nat, lim: Limits, p: Parser, bytes: string)
    requires cfg.Sound()
    requires var d := Drain(lim, p, bytes); d.verdict != BadRequest && KeepAlive(d.requests)
    ensures var d := Drain(lim, p, bytes);
      Serve(cfg, n, lim, p, bytes)
      == Service(Replies(cfg, n, d.requests), |d.requests|, d.parser, d.rest, false)
    decreases |bytes|, if p.state == RequestLine then 0 else 1
  {
    hide Parse, Reply;
    DrainIsParseAndTake(lim, p, bytes);
    ParseConsumes(lim, p, bytes);
    var o := Parse(lim, p, bytes);
    if o.result == Complete {
      var tail := Drain(lim, INITIAL, o.rest);
      assert Drain(lim, p, bytes).requests == [o.parser.request] + tail.requests;
      ServeIsDrain(cfg, n + 1, lim, INITIAL, o.rest);
    }
  }

  /** How many requests come before the first one that ends the connection. */
  function KeptAlive(rs: seq<Request>): (k: nat)
    ensures k <= |rs| && (forall i :: 0 <= i < k ==> rs[i].keepAlive) && (k < |rs| ==> !rs[k].keepAlive)
  {
    if rs == [] || !rs[0].keepAlive then 0 else 1 + KeptAlive(rs[1..])
  }

  /** The drained requests are answered up to and including the first one that is not
      keep-alive, and nothing after it; when there is none and the input is rejected, the
      rejection follows. There is a half-close in both cases, and only in these. */
  predicate ServedUpToClose(cfg: Config, n: nat, d: Drained, s: Service)
    requires cfg.Sound()
  {
    var k := KeptAlive(d.requests);
    if k < |d.requests| then
      s.output == Replies(cfg, n, d.requests[..k + 1]) && s.answers == k + 1 && s.last
    else if d.verdict == BadRequest then
      s.output == Replies(cfg, n, d.requests) + BadReply(cfg, n + k) && s.answers == k + 1 && s.last
    else
      s == Service(Replies(cfg, n, d.requests), k, d.parser, d.rest, false)
  }

  /** What the callback does with any input whatsoever. */
  lemma {:induction false} ServeIsExact(cfg: Config, n: nat, lim: Limits, p: Parser, bytes: string)
    requires cfg.Sound()
    ensures ServedUpToClose(cfg, n, Drain(lim, p, bytes), Serve(cfg, n, lim, p, bytes))
    decreases |bytes|, if p.state == RequestLine then 0 else 1
  {
    hide Parse, Reply, BadReply, ServedUpToClose;
    DrainIsParseAndTake(lim, p, bytes);
    ParseConsumes(lim, p, bytes);
    var o := Parse(lim, p, bytes);
    match o.result
    case Complete =>
      var r, tail := o.parser.request, Drain(lim, INITIAL, o.rest);
      if r.keepAlive {
        ServeIsExact(cfg, n + 1, lim, INITIAL, o.rest);
        ServedBehind(cfg, n, r, tail, Serve(cfg, n + 1, lim, INITIAL, o.rest));
      } else {
        ServedLast(cfg, n, r, tail, Serve(cfg, n, lim, p, bytes));
      }
    case _ =>
      NothingServed(cfg, n, Drain(lim, p, bytes), Serve(cfg, n, lim, p, bytes));
  }

  lemma NothingServed(cfg: Config, n: nat, d: Drained, s: Service)
    requires cfg.Sound() && d.requests == []
    requires s == if d.verdict == BadRequest then Service(BadReply(cfg, n), 1, d.parser, d.rest, true)
                  else Service("", 0, d.parser, d.rest, false)
    ensures ServedUpToClose(cfg, n, d, s)
  {
    hide BadReply;
    assert "" + BadReply(cfg, n) == BadReply(cfg, n);
  }

  lemma ServedLast(cfg: Config, n: nat, r: Request, tail: Drained, s: Service)
    requires cfg.Sound() && !r.keepAlive && s.output == Reply(cfg, n, r) && s.answers == 1 && s.last
    ensures ServedUpToClose(cfg, n, tail.(requests := [r] + tail.requests), s)
  {
    hide Reply;
    var rs := [r] + tail.requests;
    assert !rs[0].keepAlive && KeptAlive(rs) == 0 && rs[..0 + 1] == [r] + [];
    RepliesStep(cfg, n, r, []);
    assert Reply(cfg, n, r) + "" == Reply(cfg, n, r);
  }

  lemma ServedBehind(cfg: Config, n: nat, r: Request, tail: Drained, s: Service)
    requires cfg.Sound() && r.keepAlive && ServedUpToClose(cfg, n + 1, tail, s)
    ensures ServedUpToClose(cfg, n, tail.(requests := [r] + tail.requests), Behind(Reply(cfg, n, r), 1, s))
  {
    hide Reply, BadReply, Replies;
    var k := KeptAlive(tail.requests);
    var rs := [r] + tail.requests;
    assert rs[1..] == tail.requests;
    RepliesStep(cfg, n, r, tail.requests);
    if k < |tail.requests| {
      assert rs[..k + 2] == [r] + tail.requests[..k + 1];
      RepliesStep(cfg, n, r, tail.requests[..k + 1]);
    } else {
      var a, b, c := Reply(cfg, n, r), Replies(cfg, n + 1, tail.requests), BadReply(cfg, n + 1 + k);
      assert a + (b + c) == (a + b) + c;
    }
  }

  lemma RepliesStep(cfg: Config, n: nat, r: Request, rs: seq<Request>)
    requires cfg.Sound()
    ensures Replies(cfg, n, [r] + rs) == Reply(cfg, n, r) + Replies(cfg, n + 1, rs)
  {
    hide Reply;
    assert ([r] + rs)[1..] == rs;
  }

  /** A stream the parser accepts and whose requests all keep the connection alive. */
  ghost predicate Orderly(lim: Limits, stream: string) {
    var d := Drain(lim, INITIAL, stream);
    d.verdict != BadRequest && KeepAlive(d.requests)
  }

  /** What is owed for a stream: the answers to its requests, in order. */
  function Owed(cfg: Config, lim: Limits, stream: string): string
    requires cfg.Sound()
  {
    Replies(cfg, 0, Drain(lim, INITIAL, stream).requests)
  }

  /** For a client those bytes are the answers to the requests, one after the other. */
  lemma OwedIsAnswers(cfg: Config, lim: Limits, stream: string)
    requires cfg.Sound()
    ensures var requests := Drain(lim, INITIAL, stream).requests;
      Printable(cfg, requests) ==>
        exists pieces :: AnswersInOrder(cfg, requests, pieces) && Flatten(pieces) == Owed(cfg, lim, stream)
  {
    hide AnswersInOrder, Printable, Flatten, Drain, Replies;
    var requests := Drain(lim, INITIAL, stream).requests;
    if Printable(cfg, requests) {
      var pieces := RepliesAreAnswers(cfg, 0, requests);
    }
  }

  /** An orderly stream has orderly prefixes, and receiving more only adds to what is
      owed. */
  lemma OwedGrows(cfg: Config, lim: Limits, a: string, b: string)
    requires cfg.Sound() && Orderly(lim, a + b)
    ensures Orderly(lim, a) && Owed(cfg, lim, a) <= Owed(cfg, lim, a + b)
  {
    hide Drain, Replies;
    DrainSplits(lim, INITIAL, a, b);
    var first := Drain(lim, INITIAL, a);
    if first.verdict != BadRequest {
      var second := Drain(lim, first.parser, first.rest + b);
      RepliesAppend(cfg, 0, first.requests, second.requests);
    }
  }

  /** Serving one more piece of an orderly stream where the last piece left off yields
      exactly what the piece adds to the bytes owed. */
  lemma PieceIsServed(cfg: Config, lim: Limits, a: string, piece: string)
    requires cfg.Sound() && Orderly(lim, a + piece)
    ensures var d, e := Drain(lim, INITIAL, a), Drain(lim, INITIAL, a + piece);
      var s := Serve(cfg, |d.requests|, lim, d.parser, d.rest + piece);
      && Owed(cfg, lim, a + piece) == Owed(cfg, lim, a) + s.output
      && |e.requests| == |d.requests| + s.answers
      && s.parser == e.parser && s.parser.state != Error && s.rest == e.rest && !s.last
  {
    hide Drain, Replies, Serve;
    OwedGrows(cfg, lim, a, piece);
    DrainSplits(lim, INITIAL, a, piece);
    DrainEndsQuiet(lim, INITIAL, a + piece);
    var d := Drain(lim, INITIAL, a);
    var second := Drain(lim, d.parser, d.rest + piece);
    assert KeepAlive(second.requests) by {
      forall r | r in second.requests ensures r.keepAlive {
        assert r in Drain(lim, INITIAL, a + piece).requests;
      }
    }
    ServeIsDrain(cfg, |d.requests|, lim, d.parser, d.rest + piece);
    RepliesAppend(cfg, 0, d.requests, second.requests);
  }

  datatype Event =
    | Readable(bytes: string) // these bytes have arrived
    | Writable                // the socket accepts output again
    | Dropped                 // idle timeout, peer close or socket error

  function BytesOf(event: Event): string {
    match event case Readable(bytes) => bytes case _ => ""
  }

  function Received(events: seq<Event>): string {
    if events == [] then "" else BytesOf(events[0]) + Received(events[1..])
  }

  class Session {
    const conn: TcpConnection
    const parser: HttpParser
    const input: Buffer
    var answered: nat // how often the clock has been read for an answer

    constructor (script: seq<Outcome>)
      ensures Valid() && !conn.closed && conn.enqueued == "" && parser.View() == INITIAL && input.Contents() == "" && answered == 0
      ensures conn.socket.readFailures == 0 && Calm()
      ensures fresh(conn) && fresh(parser) && fresh(input) && fresh(Repr())
    {
      conn := new TcpConnection(script);
      parser := new HttpParser();
      input := new Buffer();
      answered := 0;
    }

    ghost function Repr(): set<object>
      reads this, conn, input, conn.output
    {
      {parser, input, input.data, conn, conn.socket, conn.channel, conn.output, conn.output.data}
    }

    ghost predicate Valid()
      reads this, Repr()
    {
      && conn.Valid() && input.Valid()
      && conn.output != input && conn.output.data != input.data
    }

    /** Progress against the bytes owed: an open connection has been given all of them, a
        closed one a prefix. */
    ghost predicate Given(owed: string)
      reads conn, conn.socket
    {
      conn.socket.readFailures == 0 ==> conn.enqueued <= owed && (!conn.closed ==> conn.enqueued == owed)
    }

    /** No half-close was asked for or done. */
    ghost predicate Calm()
      reads conn, conn.socket
    {
      !conn.shutdownAfterWrite && !conn.socket.halfClosed
    }

    /** A half-close was done or asked for, or the connection is gone. */
    ghost predicate Closing()
      reads conn, conn.socket
    {
      conn.closed || conn.shutdownAfterWrite || conn.socket.halfClosed
    }

    /** Between two moments a calm connection was closed only by a failing kernel. */
    twostate predicate Held()
      reads conn, conn.socket
    {
      && (old(conn.closed) ==> conn.closed)
      && (old(conn.socket.failed) ==> conn.socket.failed)
      && (old(Calm()) && conn.closed && !old(conn.closed) ==> conn.socket.failed)
    }

    /** A prefix of the bytes is on the wire; on an open connection all of them have been
        enqueued, and are on the wire once nothing is pending. */
    ghost predicate Sent(bytes: string)
      reads conn, conn.socket, conn.output, conn.output.data
      requires conn.output.Valid()
    {
      && conn.socket.wire <= bytes
      && (!conn.closed ==> conn.enqueued == bytes && (!conn.Pending() ==> conn.socket.wire == bytes))
    }

    /** The lambda `respond`: one answer, always written from the IO thread. */
    method Respond(cfg: Config, r: Request, ghost owed: string)
      requires Valid() && cfg.Sound() && Given(owed)
      modifies this`answered, conn, conn.socket, conn.channel, conn.output, conn.output.data
      ensures Valid() && Given(owed + Reply(cfg, old(answered), r)) && answered == old(answered) + 1
      ensures conn.output.data == old(conn.output.data) || fresh(conn.output.data)
      ensures Held() && (old(Calm()) && r.keepAlive ==> Calm()) && (!r.keepAlive ==> Closing())
    {
      hide TcpConnection.Valid, FileBytes, Serialized;
      var response := cfg.handler(r).(closeConnection := !r.keepAlive);
      var bytes := Serialize(response, cfg.dateOf(answered), cfg.orderOf(response.headers), r.verb != Head);
      answered := answered + 1;
      ghost var files := match FilePart(cfg, r) case None => "" case Some(f) => FileBytes(f);
      assert owed + Reply(cfg, old(answered), r) == owed + bytes + files;
      hide Reply;
      conn.Send(bytes);
      if r.verb != Head && response.fileBody != None {
        conn.SendFile(response.fileBody);
      }
      if !r.keepAlive {
        conn.ShutdownWrite();
      }
    }

    /** One pass of the callback's loop. */
    method AnswerNext(cfg: Config, ghost owed: string) returns (more: bool, ghost pass: Service)
      requires Valid() && cfg.Sound() && Given(owed)
      modifies this`answered, parser, input`readIndex, input`writeIndex
      modifies conn, conn.socket, conn.channel, conn.output, conn.output.data
      ensures Valid() && input.data == old(input.data)
      ensures conn.output.data == old(conn.output.data) || fresh(conn.output.data)
      ensures Held() && (old(Calm()) && !pass.last ==> Calm()) && (pass.last ==> Closing())
      ensures Given(owed + pass.output) && Left(pass)
      ensures Pass(cfg, old(answered), parser.Limit(), old(parser.View()), old(input.Contents())) == (pass, more)
      ensures answered == old(answered) + pass.answers
    {
      hide TcpConnection.Valid, FileBytes, Serialized, Parse, Reply;
      ghost var o := Parse(parser.Limit(), parser.View(), input.Contents());
      RejectionIsFinal(parser.Limit(), parser.View(), input.Contents());
      var result := parser.ParseBuffer(input);
      pass := Service("", 0, o.parser, o.rest, false);
      assert owed + "" == owed;
      if result == BadRequest {
        var bad := Serialize(BAD_REQUEST, cfg.dateOf(answered), cfg.orderOf(BAD_REQUEST.headers), true);
        answered := answered + 1;
        conn.Send(bad);
        conn.ShutdownWrite();
        return false, pass.(output := BadReply(cfg, old(answered)), answers := 1, last := true);
      }
      if result != Complete {
        return false, pass;
      }
      var request := parser.TakeRequest();
      Respond(cfg, request, owed);
      return request.keepAlive, Service(Reply(cfg, old(answered), request), 1, INITIAL, o.rest, !request.keepAlive);
    }

    /** Parser and input as a pass leaves them. */
    ghost predicate Left(s: Service)
      reads parser, input, input.data
      requires input.Valid()
    {
      && input.Contents() == s.rest
      && if s.parser.state == Error then parser.state == Error else parser.View() == s.parser
    }

    /** The message callback: parse, answer, and go on while requests are complete. */
    method OnMessage(cfg: Config, ghost owed: string)
      requires Valid() && cfg.Sound() && Given(owed)
      modifies this`answered, parser, input`readIndex, input`writeIndex
      modifies conn, conn.socket, conn.channel, conn.output, conn.output.data
      ensures Valid() && input.data == old(input.data)
      ensures conn.output.data == old(conn.output.data) || fresh(conn.output.data)
      ensures Held()
      ensures var s := Serve(cfg, old(answered), parser.Limit(), old(parser.View()), old(input.Contents()));
        Given(owed + s.output) && Left(s) && answered == old(answered) + s.answers
        && (old(Calm()) && !s.last ==> Calm()) && (s.last ==> Closing())
    {
      hide TcpConnection.Valid, Given, Serve, Pass;
      ghost var lim := parser.Limit();
      ghost var goal := Serve(cfg, answered, lim, parser.View(), input.Contents());
      ghost var done := "";
      assert owed + done == owed;
      var more := true;
      while more
        invariant Valid() && input.Valid() && input.data == old(input.data)
        invariant conn.output.data == old(conn.output.data) || fresh(conn.output.data)
        invariant Held() && (old(Calm()) && (more || !goal.last) ==> Calm()) && (!more && goal.last ==> Closing())
        invariant Given(owed + done) && answered >= old(answered)
        invariant if more then
                    goal == Behind(done, answered - old(answered),
                                   Serve(cfg, answered, lim, parser.View(), input.Contents()))
                  else goal.output == done && goal.answers == answered - old(answered) && Left(goal)
        decreases more, |input.Contents()|, if parser.state == RequestLine then 0 else 1
      {
        ghost var pass;
        ghost var before := done;
        ghost var given := answered - old(answered);
        ServeUnfolds(cfg, answered, lim, parser.View(), input.Contents());
        more, pass := AnswerNext(cfg, owed + done);
        assert owed + done + pass.output == owed + (done + pass.output);
        done := done + pass.output;
        if more { BehindTwice(before, given, pass.output, pass.answers, Serve(cfg, answered, lim, INITIAL, pass.rest)); }
      }
    }

    /** What the fields are the result of: the bytes received so far have been drained
        and their requests answered; a closed connection has answered a prefix. */
    ghost predicate Explained(cfg: Config, received: string)
      reads this, Repr()
      requires Valid() && cfg.Sound()
    {
      var d := Drain(parser.Limit(), INITIAL, received);
      && Given(Owed(cfg, parser.Limit(), received)) && Calm()
      && (!conn.closed ==> parser.View() == d.parser && input.Contents() == d.rest && answered == |d.requests|)
    }

    /** One readv, of whatever it delivers, and the callback after it. */
    method TakePiece(cfg: Config, piece: string, ghost received: string)
      requires Valid() && cfg.Sound() && !conn.closed && Explained(cfg, received)
      requires Orderly(parser.Limit(), received + piece) && |piece| <= input.ReadLimit()
      modifies this`answered, Repr()
      ensures Valid() && Explained(cfg, received + piece) && (conn.closed ==> conn.socket.failed)
      ensures conn.output.data == old(conn.output.data) || fresh(conn.output.data)
      ensures input.data == old(input.data) || fresh(input.data)
    {
      hide TcpConnection.Valid, Serve, Drain, Owed;
      PieceIsServed(cfg, parser.Limit(), received, piece);
      input.ReadFd(piece);
      OnMessage(cfg, Owed(cfg, parser.Limit(), received));
    }

    /** The read event: read and call back until the kernel has no more. */
    method HandleRead(cfg: Config, incoming: string, ghost received: string)
      requires Valid() && cfg.Sound() && !conn.closed && Explained(cfg, received)
      requires Orderly(parser.Limit(), received + incoming)
      modifies this`answered, Repr()
      ensures Valid() && Explained(cfg, received + incoming) && (conn.closed ==> conn.socket.failed)
      ensures conn.output.data == old(conn.output.data) || fresh(conn.output.data)
      ensures input.data == old(input.data) || fresh(input.data)
    {
      hide TcpConnection.Valid, Serve, Drain, Owed, Orderly;
      var left := incoming;
      ghost var sofar := received;
      while left != "" && !conn.closed
        invariant Valid() && Explained(cfg, sofar) && (conn.closed ==> conn.socket.failed)
        invariant sofar + left == received + incoming
        invariant conn.output.data == old(conn.output.data) || fresh(conn.output.data)
        invariant input.data == old(input.data) || fresh(input.data)
        decreases |left|
      {
        var n := if |left| <= input.ReadLimit() then |left| else input.ReadLimit();
        assert sofar + left == (sofar + left[..n]) + left[n..];
        OwedGrows(cfg, parser.Limit(), sofar + left[..n], left[n..]);
        TakePiece(cfg, left[..n], sofar);
        sofar := sofar + left[..n];
        left := left[n..];
      }
      OwedGrows(cfg, parser.Limit(), sofar, left);
      assert left == "" ==> sofar == received + incoming;
    }

    method HandleEvent(cfg: Config, event: Event, ghost received: string)
      requires Valid() && cfg.Sound() && !conn.closed && Explained(cfg, received)
      requires Orderly(parser.Limit(), received + BytesOf(event))
      modifies this`answered, Repr()
      ensures Valid() && Explained(cfg, received + BytesOf(event))
      ensures conn.closed ==> conn.socket.failed || event == Dropped
      ensures conn.output.data == old(conn.output.data) || fresh(conn.output.data)
      ensures input.data == old(input.data) || fresh(input.data)
    {
      hide Serve, Drain, Owed, Orderly, Placed, WritingMask, ArmedMask;
      assert received + "" == received;
      match event {
        case Readable(bytes) => HandleRead(cfg, bytes, received);
        case Writable => conn.HandleWrite();
        case Dropped => conn.ForceClose();
      }
    }

    /** What the invariants say about the wire. */
    lemma WireCarriesAnswers(cfg: Config, received: string, later: string)
      requires Valid() && cfg.Sound() && Explained(cfg, received)
      requires Orderly(parser.Limit(), received + later) && (!conn.closed ==> later == "")
      ensures conn.socket.readFailures == 0 ==>
        var owed := Owed(cfg, parser.Limit(), received + later);
        && conn.socket.wire <= owed
        && (!conn.closed ==> conn.enqueued == owed && (!conn.Pending() ==> conn.socket.wire == owed))
    {
      hide Drain, Owed, Orderly, Placed, WritingMask, ArmedMask;
      OwedGrows(cfg, parser.Limit(), received, later);
      assert later == "" ==> received + later == received;
      if !conn.closed {
        WireIsPrefix(conn.socket.wire, conn.output.Contents(), conn.preFileBytes, conn.FileRest(), conn.enqueued);
      }
    }

    /** END TO END. However an orderly stream arrives, whatever the clock shows for each
        answer and whatever the kernel does with the output, the wire carries a prefix of the answers in request order; while the
        connection is open every answer has been enqueued, and once nothing is pending
        the wire carries exactly those bytes. When the texts are printable these are, piece by
        piece, what answers the requests for a client. The connection is closed only if it was dropped
        or the kernel failed a write. */
    method Run(cfg: Config, events: seq<Event>)
      requires Valid() && cfg.Sound() && !conn.closed && Explained(cfg, "")
      requires Orderly(parser.Limit(), Received(events))
      modifies this`answered, Repr()
      ensures Valid()
      ensures conn.closed ==> conn.socket.failed || Dropped in events
      ensures conn.socket.readFailures == 0 ==>
        Sent(Owed(cfg, parser.Limit(), Received(events)))
      ensures var requests := Drain(parser.Limit(), INITIAL, Received(events)).requests;
        conn.socket.readFailures == 0 && Printable(cfg, requests) ==>
          exists pieces :: AnswersInOrder(cfg, requests, pieces) && Sent(Flatten(pieces))
    {
      hide TcpConnection.Valid, Explained, Orderly, Owed;
      ghost var lim := parser.Limit();
      ghost var received := "";
      var i := 0;
      assert events[0..] == events && "" + Received(events) == Received(events);
      while i < |events| && !conn.closed
        invariant 0 <= i <= |events| && Valid() && Explained(cfg, received)
        invariant conn.closed ==> conn.socket.failed || Dropped in events
        invariant received + Received(events[i..]) == Received(events)
        invariant conn.output.data == old(conn.output.data) || fresh(conn.output.data)
        invariant input.data == old(input.data) || fresh(input.data)
      {
        var next := BytesOf(events[i]);
        assert events[i..][1..] == events[i + 1..];
        assert Received(events) == (received + next) + Received(events[i + 1..]);
        OwedGrows(cfg, lim, received + next, Received(events[i + 1..]));
        HandleEvent(cfg, events[i], received);
        received := received + next;
        i := i + 1;
      }
      assert i == |events| ==> events[i..] == [];
      WireCarriesAnswers(cfg, received, Received(events[i..]));
      OwedIsAnswers(cfg, lim, Received(events));
    }
  }

  /** A fresh connection meets the assumptions of Run. */
  method StartSession(cfg: Config, script: seq<Outcome>) returns (s: Session)
    requires cfg.Sound()
    ensures s.Valid() && !s.conn.closed && s.Explained(cfg, "") && s.conn.socket.readFailures == 0
    ensures fresh(s.Repr())
  {
    s := new Session(script);
  }
}
