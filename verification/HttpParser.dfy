/** The resumable request parser (src/http/HttpParser.cpp).

    `Next` is one grammar step on plain values: a request line, one header line,
    the blank line or the body. `Parse` and `Drain` iterate it; the class HttpParser is
    the source's object, proved against them. The theorem of this file is chunk
    invariance: how TCP cuts the byte stream does not matter. */
module HttpParsing {
  import opened Text
  import opened HttpRequests
  import opened ByteBuffer

  datatype State = RequestLine | Headers | Body | GotAll | Error
  datatype Result = NeedMore | Complete | BadRequest
  datatype Limits = Limits(maxHeaderBytes: nat, maxBodyBytes: nat)

  /** The mutable fields of a parser. */
  datatype Parser = Parser(state: State, contentLength: nat, headerBytes: nat, request: Request)

  const INITIAL: Parser := Parser(RequestLine, 0, 0, EMPTY_REQUEST)

  const SIZE_MAX: nat := 0xFFFF_FFFF_FFFF_FFFF

  // ------------------------------------------------- one line, as a function

  /** "METHOD SP TARGET SP VERSION"; None stands for a bad request. */
  function ReadRequestLine(r: Request, line: string): Option<Request> {
    var first := Find(line, ' ');
    if first == |line| then None else
    var afterMethod := line[first + 1..];
    var second := Find(afterMethod, ' ');
    if second == |afterMethod| then None else
    var verb := MethodFromString(line[..first]);
    var version := Trim(afterMethod[second + 1..]);
    if verb == Invalid then None else
    if version != "HTTP/1.1" && version != "HTTP/1.0" then None else
    Some(SetPath(r.(verb := verb), afterMethod[..second])
         .(version := version, keepAlive := version == "HTTP/1.1"))
  }

  /** strtoul on a digit string: it saturates instead of wrapping around. */
  function ReadLength(digits: string): nat
    requires IsDigitString(digits)
  {
    if DecimalValue(digits) <= SIZE_MAX then DecimalValue(digits) else SIZE_MAX
  }

  function ConnectionKeepAlive(value: string, current: bool): bool {
    if Contains(ToLower(value), "close") then false
    else if Contains(ToLower(value), "keep-alive") then true
    else current
  }

  /** "Name: value"; None stands for a bad request. */
  function ReadHeaderLine(p: Parser, line: string): Option<Parser> {
    var colon := Find(line, ':');
    if colon == |line| then None else
    var key := Trim(line[..colon]);
    var value := Trim(line[colon + 1..]);
    if key == "" then None else
    var q := p.(request := AddHeader(p.request, key, value));
    if ToLower(key) == "content-length" then
      if IsDigitString(value) then Some(q.(contentLength := ReadLength(value))) else None
    else if ToLower(key) == "connection" then
      Some(q.(request := q.request.(keepAlive := ConnectionKeepAlive(value, q.request.keepAlive))))
    else Some(q)
  }

  // ------------------------------------------------------- one grammar step

  datatype Step =
    | Blocked                              // not enough bytes yet
    | Failed(rest: string)                 // malformed or over a limit
    | Advance(next: Parser, rest: string)  // one more element understood
    | Finished(next: Parser, rest: string) // a whole request is ready

  function Next(lim: Limits, p: Parser, bytes: string): Step {
    match p.state
    case Error => Failed(bytes)
    case GotAll => Finished(p, bytes)
    case Body =>
      if |bytes| < p.contentLength then Blocked
      else Finished(p.(state := GotAll, request := p.request.(body := bytes[..p.contentLength])),
                    bytes[p.contentLength..])
    case RequestLine =>
      var i := FindCrlf(bytes);
      if i == |bytes| then
        if |bytes| > lim.maxHeaderBytes then Failed(bytes) else Blocked
      else NextRequestLine(lim, p, bytes[..i], bytes[i + 2..])
    case Headers =>
      var i := FindCrlf(bytes);
      if i == |bytes| then
        if |bytes| > lim.maxHeaderBytes then Failed(bytes) else Blocked
      else NextHeaderLine(lim, p, bytes[..i], bytes[i + 2..])
  }

  function NextRequestLine(lim: Limits, p: Parser, line: string, rest: string): Step {
    var used := p.headerBytes + |line| + 2;
    if used > lim.maxHeaderBytes then Failed(rest) else
    match ReadRequestLine(p.request, line)
    case None => Failed(rest)
    case Some(r) => Advance(p.(state := Headers, headerBytes := used, request := r), rest)
  }

  function NextHeaderLine(lim: Limits, p: Parser, line: string, rest: string): Step {
    var used := p.headerBytes + |line| + 2;
    var q := p.(headerBytes := used);
    if used > lim.maxHeaderBytes then Failed(rest)
    else if line == "" then
      if p.contentLength > lim.maxBodyBytes then Failed(rest)
      else if p.contentLength == 0 then Finished(q.(state := GotAll), rest)
      else Advance(q.(state := Body), rest)
    else
      match ReadHeaderLine(q, line)
      case None => Failed(rest)
      case Some(n) => Advance(n, rest)
  }

  // ------------------------------------------- one parse call, and a drain

  datatype ParseOutcome = ParseOutcome(result: Result, parser: Parser, rest: string)

  /** One call of HttpParser::parse. */
  function Parse(lim: Limits, p: Parser, bytes: string): ParseOutcome
    decreases |bytes|
  {
    match Next(lim, p, bytes)
    case Blocked => ParseOutcome(NeedMore, p, bytes)
    case Failed(rest) => ParseOutcome(BadRequest, p.(state := Error), rest)
    case Finished(n, rest) => ParseOutcome(Complete, n, rest)
    case Advance(n, rest) => Parse(lim, n, rest)
  }

  datatype Drained = Drained(requests: seq<Request>, verdict: Result, parser: Parser, rest: string)

  /** Parse and take until the parser needs more bytes or gives up; `verdict` is
      the result of the last parse call, so it is never Complete. */
  function Drain(lim: Limits, p: Parser, bytes: string): Drained
    decreases |bytes|, if p.state == RequestLine then 0 else 1
  {
    match Next(lim, p, bytes)
    case Blocked => Drained([], NeedMore, p, bytes)
    case Failed(rest) => Drained([], BadRequest, p.(state := Error), rest)
    case Advance(n, rest) => Drain(lim, n, rest)
    case Finished(n, rest) =>
      var d := Drain(lim, INITIAL, rest);
      d.(requests := [n.request] + d.requests)
  }

  /** Draining is exactly the loop "parse; if complete, take and go on". */
  lemma {:induction false} DrainIsParseAndTake(lim: Limits, p: Parser, bytes: string)
    ensures var o := Parse(lim, p, bytes);
      Drain(lim, p, bytes) ==
        if o.result == Complete then
          var d := Drain(lim, INITIAL, o.rest);
          d.(requests := [o.parser.request] + d.requests)
        else Drained([], o.result, o.parser, o.rest)
    decreases |bytes|
  {
    match Next(lim, p, bytes)
    case Advance(n, rest) => DrainIsParseAndTake(lim, n, rest);
    case _ =>
  }

  // ------------------------------------------------------- chunk invariance

  /** A step that could be taken on the bytes so far is still the step to take when
      more bytes follow. The hard case is the early "too long, no CR LF yet"
      rejection: any line end that arrives later lies beyond the line limit. */
  lemma StepSurvivesMoreBytes(lim: Limits, p: Parser, a: string, b: string)
    ensures match Next(lim, p, a)
      case Blocked => true
      case Failed(_) => Next(lim, p, a + b).Failed?
      case Advance(n, rest) => Next(lim, p, a + b) == Advance(n, rest + b)
      case Finished(n, rest) => Next(lim, p, a + b) == Finished(n, rest + b)
  {
    hide FindCrlf, NextRequestLine, NextHeaderLine;
    FindCrlfExtends(a, b);
    var i := FindCrlf(a);
    if p.state == Body {
      if |a| >= p.contentLength {
        assert (a + b)[..p.contentLength] == a[..p.contentLength];
        assert (a + b)[p.contentLength..] == a[p.contentLength..] + b;
      }
    } else if i < |a| {
      assert (a + b)[..i] == a[..i];
      assert (a + b)[i + 2..] == a[i + 2..] + b;
      LinesAreReadAlike(lim, p, a[..i], a[i + 2..], b);
    } else if p.state in {RequestLine, Headers} && |a| > lim.maxHeaderBytes {
      LateLineIsTooLong(lim, p, a, b);
    }
  }

  /** What a line does has nothing to do with the bytes behind it. */
  lemma LinesAreReadAlike(lim: Limits, p: Parser, line: string, rest: string, more: string)
    ensures NextRequestLine(lim, p, line, rest + more) == WithMore(NextRequestLine(lim, p, line, rest), more)
    ensures NextHeaderLine(lim, p, line, rest + more) == WithMore(NextHeaderLine(lim, p, line, rest), more)
  {
    hide ReadRequestLine, ReadHeaderLine;
  }

  function WithMore(s: Step, more: string): Step {
    match s
    case Blocked => Blocked
    case Failed(rest) => Failed(rest + more)
    case Advance(n, rest) => Advance(n, rest + more)
    case Finished(n, rest) => Finished(n, rest + more)
  }

  lemma LateLineIsTooLong(lim: Limits, p: Parser, a: string, b: string)
    requires p.state in {RequestLine, Headers} && FindCrlf(a) == |a| > lim.maxHeaderBytes
    ensures Next(lim, p, a + b).Failed?
  {
    hide ReadRequestLine, ReadHeaderLine, FindCrlf;
    FindCrlfExtends(a, b);
  }

  lemma StepConsumes(lim: Limits, p: Parser, bytes: string)
    ensures match Next(lim, p, bytes)
      case Advance(_, rest) => |rest| < |bytes|
      case Finished(_, rest) => |rest| < |bytes| || (|rest| <= |bytes| && p.state != RequestLine)
      case _ => true
  {}

  /** Draining a stream in two parts: the second drain continues with what the
      first one left over. After a rejection nothing more comes out. */
  lemma {:induction false} DrainSplits(lim: Limits, p: Parser, a: string, b: string)
    ensures var first := Drain(lim, p, a);
      var whole := Drain(lim, p, a + b);
      if first.verdict == BadRequest then
        whole.verdict == BadRequest && whole.requests == first.requests
      else
        var second := Drain(lim, first.parser, first.rest + b);
        whole == second.(requests := first.requests + second.requests)
    decreases |a|, if p.state == RequestLine then 0 else 1
  {
    hide Next;
    StepConsumes(lim, p, a);
    StepSurvivesMoreBytes(lim, p, a, b);
    match Next(lim, p, a)
    case Blocked =>
      var second := Drain(lim, p, a + b);
      assert [] + second.requests == second.requests;
    case Failed(_) =>
    case Advance(n, rest) => DrainSplits(lim, n, rest, b);
    case Finished(n, rest) =>
      DrainSplits(lim, INITIAL, rest, b);
      var first := Drain(lim, INITIAL, rest);
      var second := Drain(lim, first.parser, first.rest + b);
      assert [n.request] + (first.requests + second.requests)
          == ([n.request] + first.requests) + second.requests;
  }

  function Flatten(chunks: seq<string>): string {
    if chunks == [] then "" else chunks[0] + Flatten(chunks[1..])
  }

  /** What a connection does: append each chunk as it arrives, then drain. */
  function Feed(lim: Limits, p: Parser, leftover: string, chunks: seq<string>): Drained
    decreases |chunks|
  {
    if chunks == [] then Drain(lim, p, leftover)
    else
      var d := Drain(lim, p, leftover + chunks[0]);
      Prepend(d.requests, Feed(lim, d.parser, d.rest, chunks[1..]))
  }

  /** Between chunks the parser has nothing left to say about the bytes it holds. */
  predicate Quiet(lim: Limits, p: Parser, leftover: string) {
    Next(lim, p, leftover).Blocked? || p.state == Error
  }

  lemma {:induction false} DrainEndsQuiet(lim: Limits, p: Parser, bytes: string)
    ensures var d := Drain(lim, p, bytes);
      && Quiet(lim, d.parser, d.rest)
      && d.verdict == (if d.parser.state == Error then BadRequest else NeedMore)
    decreases |bytes|, if p.state == RequestLine then 0 else 1
  {
    match Next(lim, p, bytes)
    case Blocked =>
    case Failed(_) =>
    case Advance(n, rest) => DrainEndsQuiet(lim, n, rest);
    case Finished(_, rest) => DrainEndsQuiet(lim, INITIAL, rest);
  }

  /** Same requests, same verdict, and after an accepted stream the same parser
      and the same leftover bytes. */
  predicate Agree(x: Drained, y: Drained) {
    x.requests == y.requests && x.verdict == y.verdict && (y.verdict != BadRequest ==> x == y)
  }

  function Prepend(rs: seq<Request>, d: Drained): Drained { d.(requests := rs + d.requests) }

  /** CHUNK INVARIANCE. However the stream is cut, the requests and the final
      verdict are those of the uncut stream; without a rejection the parser state
      and the leftover bytes are too. */
  lemma {:induction false} ChunkInvariance(lim: Limits, p: Parser, leftover: string, chunks: seq<string>)
    requires Quiet(lim, p, leftover)
    ensures Agree(Feed(lim, p, leftover, chunks), Drain(lim, p, leftover + Flatten(chunks)))
    decreases |chunks|
  {
    hide Next;
    if chunks == [] {
      assert leftover + "" == leftover;
    } else {
      var head, tail := leftover + chunks[0], Flatten(chunks[1..]);
      var d := Drain(lim, p, head);
      var more := Feed(lim, d.parser, d.rest, chunks[1..]);
      assert Agree(more, Drain(lim, d.parser, d.rest + tail)) by {
        DrainEndsQuiet(lim, p, head);
        ChunkInvariance(lim, d.parser, d.rest, chunks[1..]);
      }
      ChunkStep(lim, p, head, tail, more);
      assert leftover + Flatten(chunks) == head + tail;
    }
  }

  lemma ChunkStep(lim: Limits, p: Parser, head: string, tail: string, more: Drained)
    requires var d := Drain(lim, p, head); Agree(more, Drain(lim, d.parser, d.rest + tail))
    ensures Agree(Prepend(Drain(lim, p, head).requests, more), Drain(lim, p, head + tail))
  {
    DrainSplits(lim, p, head, tail);
    DrainEndsQuiet(lim, p, head);
    var d := Drain(lim, p, head);
    if d.verdict == BadRequest {
      assert Drain(lim, d.parser, d.rest + tail).requests == [];
    }
  }

  /** Two ways of cutting one stream, from a fresh connection. */
  lemma TwoChunkingsAgree(lim: Limits, xs: seq<string>, ys: seq<string>)
    requires Flatten(xs) == Flatten(ys)
    ensures Agree(Feed(lim, INITIAL, "", xs), Feed(lim, INITIAL, "", ys))
  {
    ChunkInvariance(lim, INITIAL, "", xs);
    ChunkInvariance(lim, INITIAL, "", ys);
  }

  // ---------------------------------------- what every delivered request is

  /** Keep-alive is the default of HTTP/1.1 only; a Connection field that mentions close or
      keep-alive overrides it, close with priority. */
  ghost predicate KeepAliveRule(r: Request) {
    if "connection" !in r.headers then r.keepAlive <==> r.version == "HTTP/1.1"
    else
      var value := ToLower(r.headers["connection"]);
      && (Mentions(value, "close") ==> !r.keepAlive)
      && (Mentions(value, "keep-alive") && !Mentions(value, "close") ==> r.keepAlive)
  }

  /** The body length a request announces, saturated like strtoul. */
  ghost predicate Announces(r: Request, length: nat) {
    if "content-length" !in r.headers then length == 0
    else
      var value := r.headers["content-length"];
      IsDigitString(value) && length == if DecimalValue(value) <= SIZE_MAX then DecimalValue(value) else SIZE_MAX
  }

  /** What the parser promises of every request it delivers. */
  ghost predicate Delivered(lim: Limits, r: Request) {
    WellFormed(r) && KeepAliveRule(r) && Announces(r, |r.body|) && |r.body| <= lim.maxBodyBytes
  }

  ghost predicate Delivering(lim: Limits, p: Parser) {
    match p.state
    case RequestLine => p == INITIAL
    case Error => true
    case GotAll => Delivered(lim, p.request)
    case _ =>
      && WellFormed(p.request) && KeepAliveRule(p.request) && p.request.body == ""
      && Announces(p.request, p.contentLength) && p.headerBytes <= lim.maxHeaderBytes
      && (p.state == Body ==> p.contentLength <= lim.maxBodyBytes)
  }

  lemma RequestLineWellFormed(line: string)
    requires OneLine(line)
    ensures match ReadRequestLine(EMPTY_REQUEST, line)
      case None => true
      case Some(r) => WellFormed(r) && KeepAliveRule(r) && r.body == "" && r.headers == map[]
  {
    var first := Find(line, ' ');
    if first < |line| {
      var afterMethod := line[first + 1..];
      var second := Find(afterMethod, ' ');
      var target := afterMethod[..second];
      OneLineParts(line, first + 1);
      OneLineParts(afterMethod, second);
      SetPathFragments(EMPTY_REQUEST.(verb := MethodFromString(line[..first])), target);
    }
  }

  lemma NameCanonical(name: string)
    requires OneLine(name) && ':' !in name
    ensures Trim(Trim(name)) == Trim(name)
    ensures Trim(name) != "" ==> CanonicalName(ToLower(Trim(name)))
  {
    OneLineTrim(name);
    TrimOfTrimmed(Trim(name));
    TrimToLowerLacks(name, ':');
    ToLowerIdempotent(Trim(name));
    ToLowerKeepsLines(Trim(name));
  }

  lemma ValueCanonical(text: string)
    requires OneLine(text)
    ensures Trim(Trim(text)) == Trim(text) && CanonicalValue(Trim(text))
  {
    OneLineTrim(text);
    TrimOfTrimmed(Trim(text));
  }

  /** The name and the value cut out of a header line are canonical. */
  lemma HeaderPartsCanonical(line: string, colon: nat, r: Request)
    requires OneLine(line) && colon == Find(line, ':') < |line| && CanonicalHeaders(r.headers)
    ensures var key, value := Trim(line[..colon]), Trim(line[colon + 1..]);
      key != "" ==> CanonicalHeaders(AddHeader(r, key, value).headers)
  {
    var name, text := line[..colon], line[colon + 1..];
    OneLineParts(line, colon);
    OneLineParts(line, colon + 1);
    NameCanonical(name);
    ValueCanonical(text);
    if Trim(name) != "" { AddHeaderCanonical(r, Trim(name), Trim(text)); }
  }

  lemma AddHeaderCanonical(r: Request, key: string, value: string)
    requires CanonicalHeaders(r.headers) && Trim(key) == key && Trim(value) == value
    requires CanonicalName(ToLower(key)) && CanonicalValue(value)
    ensures CanonicalHeaders(AddHeader(r, key, value).headers)
  {}

  lemma HeaderLineWellFormed(p: Parser, line: string)
    requires OneLine(line) && WellFormed(p.request)
    ensures match ReadHeaderLine(p, line)
      case None => true
      case Some(q) =>
        && WellFormed(q.request) && q.state == p.state && q.headerBytes == p.headerBytes
        && q.request.body == p.request.body
  {
    var colon := Find(line, ':');
    if colon < |line| {
      HeaderPartsCanonical(line, colon, p.request);
    }
  }

  lemma HeaderLineKeepsRules(p: Parser, line: string)
    requires KeepAliveRule(p.request) && Announces(p.request, p.contentLength)
    ensures match ReadHeaderLine(p, line)
      case None => true
      case Some(q) => KeepAliveRule(q.request) && Announces(q.request, q.contentLength)
  {
    hide Find, Trim, ToLower, Contains, Mentions, DecimalValue, IsDigitString;
    var colon := Find(line, ':');
    if colon < |line| {
      var key, value := Trim(line[..colon]), Trim(line[colon + 1..]);
      TrimTwice(line[..colon]);
      TrimTwice(line[colon + 1..]);
      ContainsIsMentions(ToLower(value), "close");
      ContainsIsMentions(ToLower(value), "keep-alive");
    }
  }

  lemma StepDelivers(lim: Limits, p: Parser, bytes: string)
    requires Delivering(lim, p)
    ensures match Next(lim, p, bytes)
      case Advance(n, _) => Delivering(lim, n)
      case Finished(n, _) => Delivered(lim, n.request)
      case _ => true
  {
    hide WellFormed, KeepAliveRule, Announces, ReadRequestLine, ReadHeaderLine;
    var i := FindCrlf(bytes);
    if i < |bytes| && p.state in {RequestLine, Headers} {
      var line := bytes[..i];
      LineIsOne(bytes);
      if p.state == RequestLine {
        RequestLineWellFormed(line);
        EmptyAnnouncesNothing();
      } else {
        var q := p.(headerBytes := p.headerBytes + |line| + 2);
        HeaderLineWellFormed(q, line);
        HeaderLineKeepsRules(q, line);
        SameRules(p.request, "");
      }
    } else if p.state == Body && |bytes| >= p.contentLength {
      SameRules(p.request, bytes[..p.contentLength]);
    }
  }

  lemma LineIsOne(bytes: string)
    ensures OneLine(bytes[..FindCrlf(bytes)])
  {
    var i := FindCrlf(bytes);
    assert forall k :: CrlfAt(bytes[..i], k) ==> k < i && CrlfAt(bytes, k);
  }

  lemma EmptyAnnouncesNothing()
    ensures forall r: Request :: r.headers == map[] ==> Announces(r, 0)
  {}

  /** The body plays no part in the rules for the head. */
  lemma SameRules(r: Request, body: string)
    ensures WellFormed(r.(body := body)) <==> WellFormed(r)
    ensures KeepAliveRule(r.(body := body)) <==> KeepAliveRule(r)
    ensures forall n: nat :: Announces(r.(body := body), n) <==> Announces(r, n)
  {}

  /** Every request that comes out of any byte stream has a known method and version, a
      non-empty path, header fields in canonical form, the keep-alive its version and its
      Connection field say, and a body of the announced length within the limit. */
  lemma {:induction false} DeliveredRequestsAreWellFormed(lim: Limits, p: Parser, bytes: string)
    requires Delivering(lim, p)
    ensures forall i :: 0 <= i < |Drain(lim, p, bytes).requests| ==>
      Delivered(lim, Drain(lim, p, bytes).requests[i])
    decreases |bytes|, if p.state == RequestLine then 0 else 1
  {
    hide Next, Delivered, Delivering;
    StartDelivers(lim);
    StepConsumes(lim, p, bytes);
    StepDelivers(lim, p, bytes);
    match Next(lim, p, bytes)
    case Advance(n, rest) => DeliveredRequestsAreWellFormed(lim, n, rest);
    case Finished(_, rest) => DeliveredRequestsAreWellFormed(lim, INITIAL, rest);
    case _ =>
  }

  lemma StartDelivers(lim: Limits)
    ensures Delivering(lim, INITIAL)
  {}

  /** BOUNDED INPUT. A parser that waits for more bytes holds no more than the head limit, or,
      inside a body, less than the announced length, which is within the body limit. */
  lemma {:induction false} LeftoverIsBounded(lim: Limits, p: Parser, bytes: string)
    requires Delivering(lim, p)
    ensures var d := Drain(lim, p, bytes);
      d.verdict == NeedMore ==>
        if d.parser.state == Body then |d.rest| < d.parser.contentLength <= lim.maxBodyBytes
        else d.parser.state in {RequestLine, Headers} && |d.rest| <= lim.maxHeaderBytes
    decreases |bytes|, if p.state == RequestLine then 0 else 1
  {
    hide Delivered;
    StepConsumes(lim, p, bytes);
    StepDelivers(lim, p, bytes);
    match Next(lim, p, bytes)
    case Advance(n, rest) =>
      hide Next, Delivering;
      LeftoverIsBounded(lim, n, rest);
    case Finished(_, rest) =>
      StartDelivers(lim);
      hide Next, Delivering;
      LeftoverIsBounded(lim, INITIAL, rest);
    case _ =>
  }

  /** Behind `head` bytes of head come the body and then the rest. */
  predicate Consists(bytes: string, head: nat, body: string, rest: string) {
    head <= |bytes| && bytes[head..] == body + rest
  }

  lemma ConsistsLater(bytes: string, line: nat, head: nat, body: string, rest: string)
    requires line <= |bytes| && Consists(bytes[line..], head, body, rest)
    ensures Consists(bytes, line + head, body, rest)
  {
    assert bytes[line..][head..] == bytes[line + head..];
  }

  /** EXACT CONSUMPTION. A complete request is made of a head within the limit, of exactly as
      many bytes as the parser counted, and of its body; nothing else is consumed. */
  lemma {:induction false} RequestIsConsumed(lim: Limits, p: Parser, bytes: string)
    requires p.state in {RequestLine, Headers, Body} && p.request.body == ""
    requires p.state == Body ==> p.headerBytes <= lim.maxHeaderBytes
    ensures var o := Parse(lim, p, bytes);
      o.result == Complete ==>
        && p.headerBytes <= o.parser.headerBytes <= lim.maxHeaderBytes
        && Consists(bytes, o.parser.headerBytes - p.headerBytes, o.parser.request.body, o.rest)
    decreases |bytes|
  {
    hide Next, Consists;
    StepIsCounted(lim, p, bytes);
    match Next(lim, p, bytes)
    case Advance(n, rest) =>
      RequestIsConsumed(lim, n, rest);
      var o := Parse(lim, n, rest);
      if o.result == Complete {
        ConsistsLater(bytes, |bytes| - |rest|, o.parser.headerBytes - n.headerBytes, o.parser.request.body, o.rest);
      }
    case _ =>
  }

  /** One step takes a line off the input, or ends the head, or takes the body. */
  lemma StepIsCounted(lim: Limits, p: Parser, bytes: string)
    requires p.state in {RequestLine, Headers, Body} && p.request.body == ""
    requires p.state == Body ==> p.headerBytes <= lim.maxHeaderBytes
    ensures match Next(lim, p, bytes)
      case Advance(n, rest) =>
        && |rest| < |bytes| && bytes[|bytes| - |rest|..] == rest
        && n.headerBytes == p.headerBytes + (|bytes| - |rest|) <= lim.maxHeaderBytes
        && n.state in {RequestLine, Headers, Body} && n.request.body == ""
      case Finished(n, rest) =>
        && p.headerBytes <= n.headerBytes <= lim.maxHeaderBytes
        && Consists(bytes, n.headerBytes - p.headerBytes, n.request.body, rest)
      case _ => true
  {
    hide ReadRequestLine, ReadHeaderLine, FindCrlf;
    HeadersKeepBody(p);
  }

  lemma HeadersKeepBody(p: Parser)
    ensures forall line :: ReadRequestLine(p.request, line).Some? ==>
      ReadRequestLine(p.request, line).value.body == p.request.body
    ensures forall q: Parser, line :: q.request == p.request && ReadHeaderLine(q, line).Some? ==>
      var n := ReadHeaderLine(q, line).value;
      n.request.body == p.request.body && n.state == q.state && n.headerBytes == q.headerBytes
  {
    hide Find, Trim, ToLower, Contains;
  }

  // ------------------------------------------- exactly which lines are accepted

  /** METHOD SP TARGET SP VERSION, with one of three methods and two versions. */
  ghost predicate RequestLineParts(line: string, verb: string, target: string, version: string) {
    && line == verb + " " + target + " " + version
    && verb in {"GET", "POST", "HEAD"} && ' ' !in target && Trim(version) in {"HTTP/1.1", "HTTP/1.0"}
  }

  /** Path and query are what stands before and behind the first question mark. */
  ghost predicate TargetParts(target: string, path: string, query: string) {
    || ('?' !in target && query == "" && path == if target == "" then "/" else target)
    || exists a :: '?' !in a && target == a + "?" + query && path == if a == "" then "/" else a
  }

  /** The line as it is cut at its first two spaces. */
  lemma CutLine(line: string)
    ensures var i := Find(line, ' ');
      i < |line| ==>
        var j := Find(line[i + 1..], ' ');
        j < |line[i + 1..]| ==>
          line == line[..i] + " " + line[i + 1..][..j] + " " + line[i + 1..][j + 1..] && ' ' !in line[i + 1..][..j]
  {}

  lemma TargetIsSplit(r: Request, target: string)
    ensures var q := SetPath(r, target);
      TargetParts(target, q.path, q.query) && q == r.(path := q.path, query := q.query)
  {
    var i := Find(target, '?');
    FindMissing(target, '?');
    if i < |target| {
      assert target == target[..i] + "?" + target[i + 1..] && '?' !in target[..i];
    } else {
      assert target[..i] == target;
    }
  }

  /** A request line is accepted if and only if it has these parts, which say what is stored. */
  lemma RequestLineIsExact(r: Request, line: string)
    ensures ReadRequestLine(r, line).Some? <==>
      exists verb, target, version :: RequestLineParts(line, verb, target, version)
    ensures forall verb, target, version :: RequestLineParts(line, verb, target, version) ==>
      RequestLineMeans(r, ReadRequestLine(r, line), verb, target, version)
  {
    hide Find, Trim, SetPath;
    forall verb, target, version | RequestLineParts(line, verb, target, version)
      ensures RequestLineMeans(r, ReadRequestLine(r, line), verb, target, version)
    {
      PartsAreRead(r, line, verb, target, version);
    }
    CutLine(line);
    var i := Find(line, ' ');
    if i < |line| {
      var tail := line[i + 1..];
      var j := Find(tail, ' ');
      if j < |tail| && ReadRequestLine(r, line).Some? {
        assert RequestLineParts(line, line[..i], tail[..j], tail[j + 1..]);
      }
    }
  }

  ghost predicate RequestLineMeans(r: Request, read: Option<Request>, verb: string, target: string, version: string) {
    && read.Some?
    && var q := read.value;
    && (q.verb == Get <==> verb == "GET") && (q.verb == Post <==> verb == "POST") && (q.verb == Head <==> verb == "HEAD")
    && TargetParts(target, q.path, q.query)
    && q.version == Trim(version) && (q.keepAlive <==> Trim(version) == "HTTP/1.1")
    && q.headers == r.headers && q.body == r.body
  }

  lemma PartsAreRead(r: Request, line: string, verb: string, target: string, version: string)
    requires RequestLineParts(line, verb, target, version)
    ensures RequestLineMeans(r, ReadRequestLine(r, line), verb, target, version)
  {
    hide Find, Trim, SetPath, TargetParts;
    WordsSplit(verb, target, version);
    TargetIsSplit(r.(verb := MethodFromString(verb)), target);
  }

  /** A header line is accepted if and only if it has a colon, a name in front of it, and a
      digit string for a Content-Length; what it changes is the field of that name, the
      announced length and keep-alive. */
  lemma HeaderLineIsExact(p: Parser, line: string)
    ensures ':' !in line ==> ReadHeaderLine(p, line) == None
    ensures forall name, text :: ':' !in name && line == name + ":" + text ==>
      HeaderLineMeans(p, ReadHeaderLine(p, line), ToLower(Trim(name)), Trim(text))
  {
    hide Trim, ToLower, ReadHeaderLine, HeaderLineMeans;
    if ':' !in line {
      NoColonNoHeader(p, line);
    }
    forall name, text | ':' !in name && line == name + ":" + text
      ensures HeaderLineMeans(p, ReadHeaderLine(p, line), ToLower(Trim(name)), Trim(text))
    {
      NamedLineIsRead(p, line, name, text);
    }
  }

  ghost predicate HeaderLineMeans(p: Parser, read: Option<Parser>, name: string, value: string) {
    if name == "" || (name == "content-length" && !IsDigitString(value)) then read == None
    else
      && read.Some?
      && var q := read.value;
      && q.request.headers == p.request.headers[name := value]
      && q.request == p.request.(headers := q.request.headers, keepAlive := q.request.keepAlive)
      && (if name != "connection" then q.request.keepAlive == p.request.keepAlive
          else if Mentions(ToLower(value), "close") then !q.request.keepAlive
          else if Mentions(ToLower(value), "keep-alive") then q.request.keepAlive
          else q.request.keepAlive == p.request.keepAlive)
      && (if name != "content-length" then q.contentLength == p.contentLength
          else q.contentLength == if DecimalValue(value) <= SIZE_MAX then DecimalValue(value) else SIZE_MAX)
      && q.state == p.state && q.headerBytes == p.headerBytes
  }

  lemma NoColonNoHeader(p: Parser, line: string)
    requires ':' !in line
    ensures ReadHeaderLine(p, line) == None
  {
    FindMissing(line, ':');
  }

  lemma NamedLineIsRead(p: Parser, line: string, name: string, text: string)
    requires ':' !in name && line == name + ":" + text
    ensures HeaderLineMeans(p, ReadHeaderLine(p, line), ToLower(Trim(name)), Trim(text))
  {
    assert line[|name|] == ':' && forall j :: 0 <= j < |name| ==> line[j] == name[j];
    FindIs(line, ':', |name|);
    assert line[..|name|] == name && line[|name| + 1..] == text;
    hide Trim, Contains, Mentions, DecimalValue, IsDigitString, Find;
    TrimTwice(name);
    TrimTwice(text);
    ContainsIsMentions(ToLower(Trim(text)), "close");
    ContainsIsMentions(ToLower(Trim(text)), "keep-alive");
  }

  // ------------------------------------------------------ the parser object

  /** What one pass of the header loop reports and leaves behind. */
  predicate HeaderPass(lim: Limits, p: Parser, bytes: string, r: Result, more: bool, q: Parser, left: string) {
    match Next(lim, p, bytes)
    case Blocked => !more && r == NeedMore && q == p && left == bytes
    case Failed(rest) => !more && r == BadRequest && left == rest
    case Advance(n, rest) => more == (q.state == Headers) && r == NeedMore && q == n && left == rest
    case Finished(n, rest) => !more && r == Complete && q == n && left == rest
  }

  /** The header loop on its way to `goal`; `more` means another pass follows. */
  predicate HeaderLoop(lim: Limits, goal: ParseOutcome, r: Result, more: bool, p: Parser, bytes: string) {
    match r
    case NeedMore => Parse(lim, p, bytes) == goal &&
      if more then p.state == Headers
      else p.state == Body || (p.state == Headers && Next(lim, p, bytes).Blocked?)
    case BadRequest => !more && goal.result == BadRequest && bytes == goal.rest
    case Complete => !more && goal == ParseOutcome(Complete, p, bytes) && p.state == GotAll
  }

  lemma HeaderPassKeepsLoop(lim: Limits, goal: ParseOutcome, p: Parser, bytes: string,
                            r: Result, more: bool, q: Parser, left: string)
    requires p.state == Headers && HeaderLoop(lim, goal, NeedMore, true, p, bytes)
    requires HeaderPass(lim, p, bytes, r, more, q, left)
    ensures HeaderLoop(lim, goal, r, more, q, left)
    ensures more ==> |left| < |bytes|
  {}

  class HttpParser {
    const maxHeaderBytes: nat
    const maxBodyBytes: nat
    var state: State
    var contentLength: nat
    var parsedHeaderBytes: nat
    var request: Request

    constructor (maxHeaderBytes: nat := 8192, maxBodyBytes: nat := 0x10_0000)
      ensures View() == INITIAL && Limit() == Limits(maxHeaderBytes, maxBodyBytes)
    {
      this.maxHeaderBytes, this.maxBodyBytes := maxHeaderBytes, maxBodyBytes;
      state, contentLength, parsedHeaderBytes, request := RequestLine, 0, 0, EMPTY_REQUEST;
    }

    ghost function Limit(): Limits { Limits(maxHeaderBytes, maxBodyBytes) }

    ghost function View(): Parser
      reads this
    {
      Parser(state, contentLength, parsedHeaderBytes, request)
    }

    /** Takes the bytes up to the next CR LF out of the buffer. */
    method TakeLine(buffer: Buffer) returns (line: Option<string>)
      requires buffer.Valid()
      modifies buffer`readIndex, buffer`writeIndex
      ensures buffer.Valid() && buffer.data == old(buffer.data)
      ensures var bytes := old(buffer.Contents());
        var i := FindCrlf(bytes);
        if i == |bytes| then line == None && buffer.Contents() == bytes
        else line == Some(bytes[..i]) && buffer.Contents() == bytes[i + 2..]
    {
      var bytes := buffer.Peek(buffer.ReadableBytes());
      assert bytes == buffer.Contents();
      var i := FindCrlf(bytes);
      if i == |bytes| {
        return None;
      }
      buffer.Retrieve(i + 2);
      return Some(bytes[..i]);
    }

    /** The request line proper, once it is complete and within the limit. */
    method AcceptRequestLine(line: string) returns (ok: bool)
      modifies this`request
      ensures ok <==> ReadRequestLine(old(request), line).Some?
      ensures ok ==> Some(request) == ReadRequestLine(old(request), line)
    {
      var firstSpace := Find(line, ' ');
      if firstSpace == |line| {
        return false;
      }
      var afterMethod := line[firstSpace + 1..];
      var secondSpace := Find(afterMethod, ' ');
      if secondSpace == |afterMethod| {
        return false;
      }
      var versionText := Trim(afterMethod[secondSpace + 1..]);
      var verb := MethodFromString(line[..firstSpace]);
      if verb == Invalid {
        return false;
      }
      if versionText != "HTTP/1.1" && versionText != "HTTP/1.0" {
        return false;
      }
      request := request.(verb := verb);
      request := SetPath(request, afterMethod[..secondSpace]);
      request := request.(version := versionText);
      request := request.(keepAlive := versionText == "HTTP/1.1");
      return true;
    }

    /** One header line, once it is complete and within the limit. */
    method AcceptHeaderLine(line: string) returns (ok: bool)
      modifies this`request, this`contentLength
      ensures ok <==> ReadHeaderLine(old(View()), line).Some?
      ensures ok ==> Some(View()) == ReadHeaderLine(old(View()), line)
    {
      var colon := Find(line, ':');
      if colon == |line| {
        return false;
      }
      var key := Trim(line[..colon]);
      var value := Trim(line[colon + 1..]);
      if key == "" {
        return false;
      }
      request := AddHeader(request, key, value);
      if ToLower(key) == "content-length" {
        if !IsDigitString(value) {
          return false;
        }
        contentLength := ReadLength(value);
      } else if ToLower(key) == "connection" {
        if Contains(ToLower(value), "close") {
          request := request.(keepAlive := false);
        } else if Contains(ToLower(value), "keep-alive") {
          request := request.(keepAlive := true);
        }
      }
      return true;
    }

    method ParseRequestLine(buffer: Buffer) returns (r: Result)
      requires buffer.Valid() && state == RequestLine
      modifies this, buffer`readIndex, buffer`writeIndex
      ensures buffer.Valid() && buffer.data == old(buffer.data)
      ensures match Next(Limit(), old(View()), old(buffer.Contents()))
        case Blocked => r == NeedMore && View() == old(View()) && buffer.Contents() == old(buffer.Contents())
        case Failed(rest) => r == BadRequest && buffer.Contents() == rest
        case Advance(n, rest) => r == NeedMore && View() == n && buffer.Contents() == rest
        case Finished(_, _) => false
    {
      var readable := buffer.ReadableBytes();
      var found := TakeLine(buffer);
      if found == None {
        return if readable > maxHeaderBytes then BadRequest else NeedMore;
      }
      var line := found.value;
      parsedHeaderBytes := parsedHeaderBytes + |line| + 2;
      if parsedHeaderBytes > maxHeaderBytes {
        return BadRequest;
      }
      var ok := AcceptRequestLine(line);
      if !ok {
        return BadRequest;
      }
      state := Headers;
      return NeedMore;
    }

    /** One pass of the header loop; `more` asks for another one. */
    method ParseHeader(buffer: Buffer) returns (r: Result, more: bool)
      requires buffer.Valid() && state == Headers
      modifies this, buffer`readIndex, buffer`writeIndex
      ensures buffer.Valid() && buffer.data == old(buffer.data)
      ensures HeaderPass(Limit(), old(View()), old(buffer.Contents()), r, more, View(), buffer.Contents())
    {
      var readable := buffer.ReadableBytes();
      var found := TakeLine(buffer);
      if found == None {
        return if readable > maxHeaderBytes then BadRequest else NeedMore, false;
      }
      var line := found.value;
      parsedHeaderBytes := parsedHeaderBytes + |line| + 2;
      if parsedHeaderBytes > maxHeaderBytes {
        return BadRequest, false;
      }
      if line == "" {
        if contentLength > maxBodyBytes {
          return BadRequest, false;
        }
        if contentLength == 0 {
          state := GotAll;
          return Complete, false;
        }
        state := Body;
        return NeedMore, false;
      }
      var ok := AcceptHeaderLine(line);
      return if ok then NeedMore else BadRequest, ok;
    }

    method ParseHeaders(buffer: Buffer) returns (r: Result)
      requires buffer.Valid() && state == Headers
      modifies this, buffer`readIndex, buffer`writeIndex
      ensures buffer.Valid() && buffer.data == old(buffer.data)
      ensures HeaderLoop(Limit(), Parse(Limit(), old(View()), old(buffer.Contents())), r, false, View(), buffer.Contents())
    {
      ghost var lim := Limit();
      ghost var goal := Parse(lim, View(), buffer.Contents());
      var more := true;
      r := NeedMore;
      while more
        invariant buffer.Valid() && buffer.data == old(buffer.data)
        invariant HeaderLoop(lim, goal, r, more, View(), buffer.Contents())
        decreases if more then 1 + |buffer.Contents()| else 0
      {
        ghost var p, bytes := View(), buffer.Contents();
        r, more := ParseHeader(buffer);
        HeaderPassKeepsLoop(lim, goal, p, bytes, r, more, View(), buffer.Contents());
      }
    }

    method ParseBody(buffer: Buffer) returns (r: Result)
      requires buffer.Valid() && state == Body
      modifies this, buffer`readIndex, buffer`writeIndex
      ensures buffer.Valid() && buffer.data == old(buffer.data)
      ensures ParseOutcome(r, View(), buffer.Contents()) == Parse(Limit(), old(View()), old(buffer.Contents()))
    {
      if buffer.ReadableBytes() < contentLength {
        return NeedMore;
      }
      var body := buffer.RetrieveAsString(contentLength);
      assert body == old(buffer.Contents())[..contentLength];
      request := request.(body := body);
      state := GotAll;
      return Complete;
    }

    /** One call: the result, the parser fields and the bytes left in the buffer are
        those of the function Parse (after a rejection the request under
        construction is dead, only the state and the bytes matter). */
    method ParseBuffer(buffer: Buffer) returns (r: Result)
      requires buffer.Valid()
      modifies this, buffer`readIndex, buffer`writeIndex
      ensures buffer.Valid() && buffer.data == old(buffer.data)
      ensures var o := Parse(Limit(), old(View()), old(buffer.Contents()));
        && r == o.result && buffer.Contents() == o.rest
        && if r == BadRequest then state == Error else View() == o.parser
    {
      ghost var goal := Parse(Limit(), View(), buffer.Contents());
      if state == Error {
        return BadRequest;
      }
      if state == GotAll {
        return Complete;
      }
      if state == RequestLine {
        r := ParseRequestLine(buffer);
        if r == BadRequest {
          state := Error;
          return;
        }
        if state == RequestLine {
          return;
        }
      }
      assert Parse(Limit(), View(), buffer.Contents()) == goal;
      if state == Headers {
        r := ParseHeaders(buffer);
        if r != NeedMore {
          state := if r == BadRequest then Error else GotAll;
          return;
        }
        if state == Headers {
          return;
        }
      }
      r := ParseBody(buffer);
    }

    method TakeRequest() returns (result: Request)
      modifies this
      ensures result == old(request) && View() == INITIAL
    {
      result := request;
      Reset();
    }

    method Reset()
      modifies this
      ensures View() == INITIAL
    {
      state := RequestLine;
      contentLength := 0;
      parsedHeaderBytes := 0;
      request := EMPTY_REQUEST;
    }
  }
}
