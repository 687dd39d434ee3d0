/** Responses: the serializer (src/http/HttpResponse.cpp), the parser the proxy uses
    for what the upstream server answers (src/http/ReverseProxy.cpp, lines 196-262),
    and the round trip between the two. */
module HttpResponses {
  import opened Text
  import opened HeaderText
  import opened FileBodies
  import opened HttpDates

  datatype Response = Response(
    statusCode: int,
    statusMessage: string,
    headers: map<string, string>,
    body: string,
    fileBody: Option<FileBody>,
    closeConnection: bool)

  const DEFAULT_RESPONSE: Response := Response(200, "OK", map[], "", None, false)
  const SERVER_NAME := "MyselfWebServer"

  // --------------------------------------------------------- the serializer

  function StatusLine(r: Response): string {
    "HTTP/1.1 " + ToString(r.statusCode) + " " + r.statusMessage
  }

  function InOrder(headers: map<string, string>, order: seq<string>): seq<Header>
    requires forall k :: k in order ==> k in headers
  {
    if order == [] then [] else [(order[0], headers[order[0]])] + InOrder(headers, order[1..])
  }

  function DefaultLength(r: Response): seq<Header> {
    if "Content-Length" in r.headers then [] else [("Content-Length", ToDecimal(|r.body|))]
  }

  function ConnectionHeader(r: Response): Header {
    ("Connection", if r.closeConnection then "close" else "keep-alive")
  }

  function ResponseHeaders(r: Response, date: string, order: seq<string>): seq<Header>
    requires forall k :: k in order ==> k in r.headers
  {
    [("Server", SERVER_NAME), ("Date", date)] + InOrder(r.headers, order) + DefaultLength(r) + [ConnectionHeader(r)]
  }

  /** The bytes of a response; `date` is what the clock says, `order` the order in
      which the header map is iterated. */
  function Serialized(r: Response, date: string, order: seq<string>, includeBody: bool): string
    requires forall k :: k in order ==> k in r.headers
  {
    StatusLine(r) + "\r\n" + HeaderBlock(ResponseHeaders(r, date, order)) + "\r\n"
    + if includeBody then r.body else ""
  }

  lemma {:induction false} InOrderAppend(headers: map<string, string>, xs: seq<string>, k: string)
    requires (forall x :: x in xs ==> x in headers) && k in headers
    ensures InOrder(headers, xs + [k]) == InOrder(headers, xs) + [(k, headers[k])]
  {
    if xs != [] {
      assert (xs + [k])[1..] == xs[1..] + [k];
      InOrderAppend(headers, xs[1..], k);
    }
  }

  method Serialize(r: Response, date: string, order: seq<string>, includeBody: bool) returns (result: string)
    requires Enumerates(order, r.headers)
    ensures result == Serialized(r, date, order, includeBody)
  {
    result := "HTTP/1.1 " + ToString(r.statusCode) + " " + r.statusMessage + "\r\n";
    ghost var start := result;
    ghost var first: seq<Header> := [("Server", SERVER_NAME), ("Date", date)];
    result := Emit(result, "Server", SERVER_NAME, start, []);
    result := Emit(result, "Date", date, start, [("Server", SERVER_NAME)]);
    assert [("Server", SERVER_NAME)] + [("Date", date)] == first;
    assert first + InOrder(r.headers, order[..0]) == first;
    for i := 0 to |order|
      invariant result == start + HeaderBlock(first + InOrder(r.headers, order[..i]))
    {
      var key := order[i];
      assert order[..i + 1] == order[..i] + [key];
      InOrderAppend(r.headers, order[..i], key);
      result := Emit(result, key, r.headers[key], start, first + InOrder(r.headers, order[..i]));
      assert first + InOrder(r.headers, order[..i]) + [(key, r.headers[key])]
          == first + InOrder(r.headers, order[..i + 1]);
    }
    assert order[..|order|] == order;
    ghost var printed := first + InOrder(r.headers, order);
    if "Content-Length" !in r.headers {
      result := Emit(result, "Content-Length", ToDecimal(|r.body|), start, printed);
    }
    assert result == start + HeaderBlock(printed + DefaultLength(r)) by { assert printed + [] == printed; }
    result := Emit(result, "Connection", if r.closeConnection then "close" else "keep-alive",
                   start, printed + DefaultLength(r));
    result := result + "\r\n";
    if includeBody {
      result := result + r.body;
    }
  }

  // --------------------------------------------------- the upstream parser

  function ErrorPage(code: int, message: string, reason: string): Response {
    Response(code, message, map["Content-Type" := "application/json; charset=utf-8"],
             "{\"error\":\"bad_gateway\",\"message\":\"" + (if reason == "" then message else reason) + "\"}\n",
             None, true)
  }

  function BadGateway(reason: string): Response { ErrorPage(502, "Bad Gateway", reason) }

  function DropCr(line: string): string {
    if line != "" && line[|line| - 1] == '\r' then line[..|line| - 1] else line
  }

  /** "HTTP/1.1 200 OK"; whatever is missing keeps its default. */
  function ReadStatusLine(line: string): (int, string) {
    var first := Find(line, ' ');
    if first == |line| then (200, "OK") else
    var tail := line[first + 1..];
    var second := Find(tail, ' ');
    if second == |tail| then (Atoi(tail), "OK")
    else (Atoi(tail[..second]), tail[second + 1..])
  }

  function ReadUpstreamHeader(headers: map<string, string>, line: string): map<string, string> {
    var colon := Find(line, ':');
    if line == "" || colon == |line| then headers else
    var key := line[..colon];
    if key == "Connection" || key == "connection" then headers
    else headers[key := TrimLeft(line[colon + 1..])]
  }

  function ReadUpstreamHeaders(headers: map<string, string>, lines: seq<string>): map<string, string>
    decreases |lines|
  {
    if lines == [] then headers
    else ReadUpstreamHeaders(ReadUpstreamHeader(headers, DropCr(lines[0])), lines[1..])
  }

  /** The response built from everything the upstream server sent. */
  function UpstreamResponse(raw: string, address: string): Response {
    if raw == "" then BadGateway("Empty response from upstream") else
    var headerEnd := FindBlankLine(raw);
    if headerEnd == |raw| then
      DEFAULT_RESPONSE.(body := raw,
        headers := map["Content-Type" := "text/plain; charset=utf-8", "X-Proxy-By" := SERVER_NAME])
    else
      var lines := Lines(raw[..headerEnd]);
      if lines == [] then BadGateway("Malformed status line from upstream") else
      var status := ReadStatusLine(DropCr(lines[0]));
      DEFAULT_RESPONSE.(statusCode := status.0, statusMessage := status.1, body := raw[headerEnd + 4..],
        headers := ReadUpstreamHeaders(map[], lines[1..])["X-Proxy-By" := SERVER_NAME]["X-Upstream-Addr" := address])
  }

  lemma {:induction false} ReadUpstreamHeadersSnoc(m: map<string, string>, lines: seq<string>, line: string)
    ensures ReadUpstreamHeaders(m, lines + [line])
         == ReadUpstreamHeader(ReadUpstreamHeaders(m, lines), DropCr(line))
    decreases |lines|
  {
    if lines == [] {
      assert [line][1..] == [];
    } else {
      assert (lines + [line])[1..] == lines[1..] + [line];
      ReadUpstreamHeadersSnoc(ReadUpstreamHeader(m, DropCr(lines[0])), lines[1..], line);
    }
  }

  /** One pass of the header loop, with its blank-erasing inner loop. */
  method TakeHeaderLine(headers: map<string, string>, headerLine: string) returns (r: map<string, string>)
    ensures r == ReadUpstreamHeader(headers, DropCr(headerLine))
  {
    var line := DropCr(headerLine);
    if line == "" {
      return headers;
    }
    var colon := Find(line, ':');
    if colon == |line| {
      return headers;
    }
    var key, val := line[..colon], line[colon + 1..];
    while val != "" && IsBlank(val[0])
      invariant TrimLeft(val) == TrimLeft(line[colon + 1..])
      decreases |val|
    {
      val := val[1..];
    }
    if key != "Connection" && key != "connection" {
      return headers[key := val];
    }
    return headers;
  }

  /** The parsing code of `forward`, header loop included. */
  method ParseUpstream(raw: string, address: string) returns (response: Response)
    ensures response == UpstreamResponse(raw, address)
  {
    hide Lines, FindBlankLine, DropCr, ReadStatusLine, ReadUpstreamHeader;
    if raw == "" {
      return BadGateway("Empty response from upstream");
    }
    var headerEnd := FindBlankLine(raw);
    response := DEFAULT_RESPONSE;
    if headerEnd == |raw| {
      response := response.(body := raw);
      response := response.(headers := map["Content-Type" := "text/plain; charset=utf-8", "X-Proxy-By" := SERVER_NAME]);
      return;
    }
    var lines := Lines(raw[..headerEnd]);
    if lines == [] {
      return BadGateway("Malformed status line from upstream");
    }
    var status := ReadStatusLine(DropCr(lines[0]));
    var headers: map<string, string> := map[];
    assert lines[1..][..0] == [];
    for i := 1 to |lines|
      invariant headers == ReadUpstreamHeaders(map[], lines[1..][..i - 1])
    {
      assert lines[1..][..i] == lines[1..][..i - 1] + [lines[i]];
      ReadUpstreamHeadersSnoc(map[], lines[1..][..i - 1], lines[i]);
      headers := TakeHeaderLine(headers, lines[i]);
    }
    assert lines[1..][..|lines| - 1] == lines[1..];
    headers := headers["X-Proxy-By" := SERVER_NAME];
    headers := headers["X-Upstream-Addr" := address];
    response := response.(statusCode := status.0, statusMessage := status.1, body := raw[headerEnd + 4..], headers := headers);
  }

  // ------------------------------------------------------------ round trip

  /** A header that survives being printed and read by the upstream parser. */
  predicate Transparent(h: Header) {
    Clean(h.0) && Clean(h.1) && ':' !in h.0 && (h.1 != "" ==> !IsBlank(h.1[0]))
  }

  predicate IsConnection(h: Header) { h.0 == "Connection" || h.0 == "connection" }

  function Joined(lines: seq<string>): string {
    if lines == [] then ""
    else if |lines| == 1 then lines[0]
    else lines[0] + "\r\n" + Joined(lines[1..])
  }

  predicate HeadLines(lines: seq<string>) {
    forall i :: 0 <= i < |lines| ==> lines[i] != "" && Clean(lines[i])
  }

  lemma {:induction false} BlankLineAfterClean(line: string, s: string)
    requires Clean(line)
    ensures FindBlankLine(line + s) == |line| + FindBlankLine(s)
    decreases |line|
  {
    if line == "" {
      assert line + s == s;
    } else {
      assert (line + s)[1..] == line[1..] + s;
      assert forall c :: c in line[1..] ==> c in line;
      BlankLineAfterClean(line[1..], s);
    }
  }

  /** The first empty line of a printed head is the one that ends it. */
  lemma {:induction false} HeadEnds(lines: seq<string>, body: string)
    requires lines != [] && HeadLines(lines)
    ensures FindBlankLine(Joined(lines) + "\r\n\r\n" + body) == |Joined(lines)|
    decreases |lines|
  {
    hide FindBlankLine, Clean;
    var line := lines[0];
    var head := Joined(lines) + "\r\n\r\n" + body;
    if |lines| == 1 {
      assert head == line + ("\r\n\r\n" + body);
      BlankLineAfterClean(line, "\r\n\r\n" + body);
      BlankLineHere(body);
    } else {
      var next := Joined(lines[1..]) + "\r\n\r\n" + body;
      CleanStart(lines[1], next);
      HeadEnds(lines[1..], body);
      BlankLineLater(line, next);
      assert head == line + ("\r\n" + next);
    }
  }

  lemma CleanStart(line: string, s: string)
    requires line != "" && Clean(line) && s != "" && s[0] == line[0]
    ensures s[0] != '\r'
  {
    assert line[0] in line;
  }

  lemma BlankLineHere(body: string)
    ensures FindBlankLine("\r\n\r\n" + body) == 0
  {}

  lemma BlankLineLater(line: string, next: string)
    requires Clean(line) && next != "" && next[0] != '\r'
    ensures FindBlankLine(line + ("\r\n" + next)) == |line| + 2 + FindBlankLine(next)
  {
    hide FindBlankLine, Clean;
    BlankLineAfterClean(line, "\r\n" + next);
    OneLineBreak(next);
  }

  lemma OneLineBreak(next: string)
    requires next != "" && next[0] != '\r'
    ensures FindBlankLine("\r\n" + next) == 2 + FindBlankLine(next)
  {
    assert ("\r\n" + next)[1..] == "\n" + next && ("\n" + next)[1..] == next;
  }

  lemma FirstLineSplits(line: string, rest: string)
    requires '\n' !in line
    ensures Lines(line + "\n" + rest) == [line] + Lines(rest)
  {
    var s := line + "\n" + rest;
    assert s[|line|] == '\n';
    FindIs(s, '\n', |line|);
    assert s[..|line|] == line && s[|line| + 1..] == rest;
  }

  function WithCr(lines: seq<string>): seq<string> {
    if |lines| <= 1 then lines else [lines[0] + "\r"] + WithCr(lines[1..])
  }

  /** Reading a printed head line by line gives its lines back, each but the last
      with its CR still on. */
  lemma {:induction false} HeadSplits(lines: seq<string>)
    requires HeadLines(lines)
    ensures Lines(Joined(lines)) == WithCr(lines)
    decreases |lines|
  {
    if |lines| == 1 {
      var line := lines[0];
      FindMissing(line, '\n');
      assert line[..|line|] == line;
    } else if |lines| > 1 {
      assert Joined(lines) == (lines[0] + "\r") + "\n" + Joined(lines[1..]);
      FirstLineSplits(lines[0] + "\r", Joined(lines[1..]));
      HeadSplits(lines[1..]);
    }
  }

  function Texts(hs: seq<Header>): seq<string> {
    if hs == [] then [] else [hs[0].0 + ": " + hs[0].1] + Texts(hs[1..])
  }

  function KeepAll(headers: map<string, string>, hs: seq<Header>): map<string, string>
    decreases |hs|
  {
    if hs == [] then headers
    else KeepAll(Keep(headers, hs[0]), hs[1..])
  }

  function Keep(headers: map<string, string>, h: Header): map<string, string> {
    if IsConnection(h) then headers else headers[h.0 := h.1]
  }

  lemma HeaderTextSplits(h: Header)
    requires Transparent(h)
    ensures var text := h.0 + ": " + h.1;
      && text != "" && Clean(text) && Find(text, ':') == |h.0| && text[..|h.0|] == h.0
      && TrimLeft(text[|h.0| + 1..]) == h.1
  {
    var text := h.0 + ": " + h.1;
    assert text[|h.0|] == ':' && forall j :: 0 <= j < |h.0| ==> text[j] == h.0[j];
    FindIs(text, ':', |h.0|);
    assert text[|h.0| + 1..] == " " + h.1;
    TrimLeftBlank(" ", h.1);
  }

  lemma DropCrOfClean(text: string)
    requires Clean(text)
    ensures DropCr(text) == text && DropCr(text + "\r") == text
  {
    assert text != "" ==> text[|text| - 1] in text;
  }

  lemma TransparentLineIsRead(m: map<string, string>, h: Header, line: string)
    requires Transparent(h) && (line == h.0 + ": " + h.1 || line == h.0 + ": " + h.1 + "\r")
    ensures ReadUpstreamHeader(m, DropCr(line)) == Keep(m, h)
  {
    hide Find, TrimLeft, DropCr;
    HeaderTextSplits(h);
    DropCrOfClean(h.0 + ": " + h.1);
  }

  lemma {:induction false} TransparentLinesAreRead(m: map<string, string>, hs: seq<Header>)
    requires forall h :: h in hs ==> Transparent(h)
    ensures ReadUpstreamHeaders(m, WithCr(Texts(hs))) == KeepAll(m, hs)
    decreases |hs|
  {
    hide ReadUpstreamHeader, DropCr, Keep, Transparent;
    if hs != [] {
      var lines := WithCr(Texts(hs));
      TransparentLineIsRead(m, hs[0], lines[0]);
      assert Texts(hs)[1..] == Texts(hs[1..]);
      assert lines[1..] == WithCr(Texts(hs[1..]));
      TransparentLinesAreRead(Keep(m, hs[0]), hs[1..]);
    }
  }

  lemma {:induction false} BlockIsJoinedLines(first: string, hs: seq<Header>)
    ensures first + "\r\n" + HeaderBlock(hs) == Joined([first] + Texts(hs)) + "\r\n"
    decreases |hs|
  {
    if hs == [] {
      assert [first] + [] == [first];
    } else {
      var next := hs[0].0 + ": " + hs[0].1;
      BlockIsJoinedLines(next, hs[1..]);
      assert ([first] + Texts(hs))[1..] == [next] + Texts(hs[1..]);
    }
  }

  lemma {:induction false} TextsAreHeadLines(hs: seq<Header>)
    requires forall h :: h in hs ==> Transparent(h)
    ensures HeadLines(Texts(hs)) && |Texts(hs)| == |hs|
  {
    if hs != [] {
      TextsAreHeadLines(hs[1..]);
      HeaderTextSplits(hs[0]);
    }
  }

  lemma DigitsAreClean(digits: string)
    requires forall i :: 0 <= i < |digits| ==> IsDigit(digits[i])
    ensures Clean(digits) && ' ' !in digits && ':' !in digits && (digits != "" ==> !IsBlank(digits[0]))
  {}

  lemma StatusCodeText(code: int)
    ensures Clean(ToString(code)) && ' ' !in ToString(code) && Atoi(ToString(code)) == code
  {
    var n := if code < 0 then -code else code;
    DecimalRoundTrip(n);
    DigitsAreClean(ToDecimal(n));
    AtoiRoundTrip(code);
  }

  lemma StatusLineIsRead(r: Response)
    requires Clean(r.statusMessage)
    ensures Clean(StatusLine(r)) && StatusLine(r) != ""
    ensures ReadStatusLine(StatusLine(r)) == (r.statusCode, r.statusMessage)
  {
    hide Find, Atoi, ToString;
    var code := ToString(r.statusCode);
    StatusCodeText(r.statusCode);
    assert StatusLine(r) == "HTTP/1.1" + " " + code + " " + r.statusMessage;
    WordsSplit("HTTP/1.1", code, r.statusMessage);
    assert Clean("HTTP/1.1 ") && Clean(" ");
  }

  lemma {:induction false} KeepAllAppend(m: map<string, string>, xs: seq<Header>, ys: seq<Header>)
    ensures KeepAll(m, xs + ys) == KeepAll(KeepAll(m, xs), ys)
    decreases |xs|
  {
    if xs == [] {
      assert xs + ys == ys;
    } else {
      assert (xs + ys)[1..] == xs[1..] + ys;
      KeepAllAppend(Keep(m, xs[0]), xs[1..], ys);
    }
  }

  lemma {:induction false} InOrderIsKept(m: map<string, string>, headers: map<string, string>, order: seq<string>)
    requires forall k :: k in order ==> k in headers
    requires forall k :: k in headers ==> k != "Connection" && k != "connection"
    ensures KeepAll(m, InOrder(headers, order)) == m + map k | k in order :: headers[k]
    decreases |order|
  {
    if order != [] {
      var k := order[0];
      assert InOrder(headers, order)[1..] == InOrder(headers, order[1..]);
      InOrderIsKept(m[k := headers[k]], headers, order[1..]);
      FirstOfOrder(m, headers, order);
    }
  }

  lemma FirstOfOrder(m: map<string, string>, headers: map<string, string>, order: seq<string>)
    requires order != [] && forall k :: k in order ==> k in headers
    ensures m + (map k | k in order :: headers[k])
         == m[order[0] := headers[order[0]]] + map k | k in order[1..] :: headers[k]
  {
    assert forall k :: k in order <==> k == order[0] || k in order[1..];
  }

  lemma {:induction false} InOrderIsTransparent(headers: map<string, string>, order: seq<string>)
    requires forall k :: k in order ==> k in headers
    requires forall k :: k in headers ==> Transparent((k, headers[k]))
    ensures forall h :: h in InOrder(headers, order) ==> Transparent(h)
  {
    if order != [] { InOrderIsTransparent(headers, order[1..]); }
  }

  /** The header map a serialized response carries, Connection aside. */
  function Carried(r: Response, date: string): map<string, string> {
    map["Server" := SERVER_NAME, "Date" := date] + r.headers + LengthAdded(r)
  }

  /** A response the round trip is promised for. */
  predicate Plain(r: Response) {
    Clean(r.statusMessage)
    && forall k :: k in r.headers ==> Transparent((k, r.headers[k])) && k != "Connection" && k != "connection"
  }

  lemma LengthIsTransparent(n: nat)
    ensures Transparent(("Content-Length", ToDecimal(n)))
  {
    DecimalRoundTrip(n);
    DigitsAreClean(ToDecimal(n));
  }

  lemma FixedHeadersAreTransparent()
    ensures Transparent(("Server", SERVER_NAME))
    ensures Transparent(("Connection", "close")) && Transparent(("Connection", "keep-alive"))
  {}

  lemma HeadersAreTransparent(r: Response, date: string, order: seq<string>)
    requires Plain(r) && Transparent(("Date", date)) && Enumerates(order, r.headers)
    ensures forall h :: h in ResponseHeaders(r, date, order) ==> Transparent(h)
  {
    InOrderIsTransparent(r.headers, order);
    hide Transparent;
    LengthIsTransparent(|r.body|);
    FixedHeadersAreTransparent();
  }

  lemma OwnHeadersAreKept(m: map<string, string>, r: Response, order: seq<string>)
    requires Plain(r) && Enumerates(order, r.headers)
    ensures KeepAll(m, InOrder(r.headers, order)) == m + r.headers
  {
    InOrderIsKept(m, r.headers, order);
    assert (map k | k in order :: r.headers[k]) == r.headers;
  }

  function LengthAdded(r: Response): map<string, string> {
    if "Content-Length" in r.headers then map[] else map["Content-Length" := ToDecimal(|r.body|)]
  }

  lemma LengthIsKept(m: map<string, string>, r: Response)
    ensures KeepAll(m, DefaultLength(r)) == m + LengthAdded(r)
  {
    if "Content-Length" in r.headers {
      assert m + map[] == m;
    } else {
      KeepOne(m, ("Content-Length", ToDecimal(|r.body|)));
    }
  }

  lemma HeadersAreKept(r: Response, date: string, order: seq<string>)
    requires Plain(r) && Enumerates(order, r.headers)
    ensures KeepAll(map[], ResponseHeaders(r, date, order)) == Carried(r, date)
  {
    var first: seq<Header> := [("Server", SERVER_NAME), ("Date", date)];
    var m := map["Server" := SERVER_NAME, "Date" := date];
    KeepTwo(first[0], first[1]);
    assert KeepAll(map[], first) == m;
    KeepOne(m + r.headers + LengthAdded(r), ConnectionHeader(r));
    hide KeepAll, InOrder, DefaultLength, LengthAdded, Plain;
    var own, length := InOrder(r.headers, order), DefaultLength(r);
    OwnHeadersAreKept(m, r, order);
    LengthIsKept(m + r.headers, r);
    KeepAllAppend(map[], first + own + length, [ConnectionHeader(r)]);
    KeepAllAppend(map[], first + own, length);
    KeepAllAppend(map[], first, own);
  }

  lemma KeepOne(m: map<string, string>, h: Header)
    ensures KeepAll(m, [h]) == Keep(m, h)
  {
    assert [h][1..] == [];
  }

  lemma KeepTwo(a: Header, b: Header)
    ensures KeepAll(map[], [a, b]) == Keep(Keep(map[], a), b)
  {
    assert [a, b] == [a] + [b];
    KeepAllAppend(map[], [a], [b]);
    KeepOne(map[], a);
    KeepOne(Keep(map[], a), b);
  }

  lemma CleanJoin(a: string, b: string)
    requires Clean(a) && Clean(b)
    ensures Clean(a + b)
  {}

  lemma ClockIsClean(seconds: nat)
    requires seconds < 86400
    ensures Clean(Clock(seconds))
  {
    TwoDigits(seconds / 3600);
    TwoDigits(seconds / 60 % 60);
    TwoDigits(seconds % 60);
    DigitsAreClean(Two(seconds / 3600));
    DigitsAreClean(Two(seconds / 60 % 60));
    DigitsAreClean(Two(seconds % 60));
  }

  /** What the clock prints has no line break and no leading blank. */
  lemma DateIsTransparent(t: nat)
    ensures Transparent(("Date", FormatHttpDate(t)))
  {
    hide Clean, Two, Clock, ToDecimal;
    var d := DateOf(t);
    var weekday, day, month, year, clock :=
      WEEKDAYS[WeekdayOf(t)], Two(d.day), MONTHS[d.month - 1], ToDecimal(d.year), Clock(t % 86400);
    NamesAreClean(WeekdayOf(t), d.month - 1);
    TwoDigits(d.day);
    DigitsAreClean(day);
    DecimalRoundTrip(d.year);
    DigitsAreClean(year);
    ClockIsClean(t % 86400);
    CleanJoin(weekday, ", ");
    CleanJoin(weekday + ", ", day);
    CleanJoin(weekday + ", " + day, " ");
    CleanJoin(weekday + ", " + day + " ", month);
    CleanJoin(weekday + ", " + day + " " + month, " ");
    CleanJoin(weekday + ", " + day + " " + month + " ", year);
    CleanJoin(weekday + ", " + day + " " + month + " " + year, " ");
    CleanJoin(weekday + ", " + day + " " + month + " " + year + " ", clock);
    CleanJoin(weekday + ", " + day + " " + month + " " + year + " " + clock, " GMT");
  }

  lemma NamesAreClean(w: nat, m: nat)
    requires w < 7 && m < 12
    ensures Clean(WEEKDAYS[w]) && WEEKDAYS[w] != "" && !IsBlank(WEEKDAYS[w][0]) && Clean(MONTHS[m])
    ensures Clean("Date") && Clean(", ") && Clean(" ") && Clean(" GMT")
  {
    NamesAreLetters(w);
    NamesAreLetters(m);
  }

  /** RESPONSE ROUND TRIP. Serializing a response at any time t and reading the bytes with
      the proxy's upstream parser gives back status, message, the exact body and every
      header, plus what serializer and proxy add; only Connection is dropped. */
  lemma ResponseRoundTrip(r: Response, t: nat, order: seq<string>, address: string)
    requires Plain(r) && Enumerates(order, r.headers)
    ensures UpstreamResponse(Serialized(r, FormatHttpDate(t), order, true), address)
         == Response(r.statusCode, r.statusMessage,
                     Carried(r, FormatHttpDate(t))["X-Proxy-By" := SERVER_NAME]["X-Upstream-Addr" := address],
                     r.body, None, false)
  {
    DateIsTransparent(t);
    hide Transparent, Plain, FormatHttpDate, UpstreamResponse, Serialized, Carried;
    SerializedIsRead(r, FormatHttpDate(t), order, address);
  }

  /** The same with any text in the place of the date that a header line can carry. */
  lemma SerializedIsRead(r: Response, date: string, order: seq<string>, address: string)
    requires Plain(r) && Transparent(("Date", date)) && Enumerates(order, r.headers)
    ensures UpstreamResponse(Serialized(r, date, order, true), address)
         == Response(r.statusCode, r.statusMessage,
                     Carried(r, date)["X-Proxy-By" := SERVER_NAME]["X-Upstream-Addr" := address],
                     r.body, None, false)
  {
    BodyGoesLast(r, date, order);
    hide Serialized, Plain, Transparent, UpstreamResponse, Carried, BodyText, LastHeadLine;
    MessageIsRead(r, date, order, address, r.body);
  }

  lemma BodyGoesLast(r: Response, date: string, order: seq<string>)
    requires forall k :: k in order ==> k in r.headers
    ensures Serialized(r, date, order, true) == Serialized(r, date, order, false) + r.body
  {
    hide StatusLine, HeaderBlock, ResponseHeaders;
    var head := StatusLine(r) + "\r\n" + HeaderBlock(ResponseHeaders(r, date, order)) + "\r\n";
    assert head + "" == head;
  }

  /** What a message has behind its first blank line. */
  function BodyText(raw: string): string {
    var i := FindBlankLine(raw);
    if i == |raw| then "" else raw[i + 4..]
  }

  /** The last line of its head. */
  function LastHeadLine(raw: string): string {
    var lines := Lines(raw[..FindBlankLine(raw)]);
    if lines == [] then "" else lines[|lines| - 1]
  }

  /** THE MESSAGE AND WHAT FOLLOWS IT. Whatever bytes follow a serialized head - the body, the
      body and a file, or nothing - they are the body of the message; status and headers
      read back as above, and the last line of the head says whether the connection stays
      open. */
  lemma MessageIsRead(r: Response, date: string, order: seq<string>, address: string, tail: string)
    requires Plain(r) && Transparent(("Date", date)) && Enumerates(order, r.headers)
    ensures var raw := Serialized(r, date, order, false) + tail;
      && "HTTP/1.1 " <= raw && BodyText(raw) == tail
      && LastHeadLine(raw) == (if r.closeConnection then "Connection: close" else "Connection: keep-alive")
      && UpstreamResponse(raw, address)
         == Response(r.statusCode, r.statusMessage,
                     Carried(r, date)["X-Proxy-By" := SERVER_NAME]["X-Upstream-Addr" := address],
                     tail, None, false)
  {
    hide ResponseHeaders, StatusLine, Carried, Transparent, Clean, Joined, Texts, Serialized,
         UpstreamResponse, BodyText, LastHeadLine, HeadLines, Lines, WithCr, FindBlankLine, ReadStatusLine,
         ReadUpstreamHeaders, DropCr;
    var hs := ResponseHeaders(r, date, order);
    var lines := [StatusLine(r)] + Texts(hs);
    HeadersAreTransparent(r, date, order);
    TextsAreHeadLines(hs);
    StatusLineIsRead(r);
    StatusLineIsHeadLine(StatusLine(r), Texts(hs));
    MessageShape(r, date, order, tail);
    HeadEnds(lines, tail);
    HeadSplits(lines);
    HeadLinesAreRead(r, date, order);
    ConnectionIsLast(r, date, order);
    StatusLineComesFirst(r, date, order, tail);
    MessageSplits(Joined(lines), tail);
    MessageInParts(Serialized(r, date, order, false) + tail, Joined(lines), WithCr(lines), tail, address);
  }

  lemma StatusLineIsHeadLine(line: string, lines: seq<string>)
    requires line != "" && Clean(line) && HeadLines(lines)
    ensures HeadLines([line] + lines)
  {}

  lemma MessageShape(r: Response, date: string, order: seq<string>, tail: string)
    requires forall k :: k in order ==> k in r.headers
    ensures Serialized(r, date, order, false) + tail
         == Joined([StatusLine(r)] + Texts(ResponseHeaders(r, date, order))) + "\r\n\r\n" + tail
  {
    hide StatusLine, ResponseHeaders, Joined, HeaderBlock, Texts;
    var hs := ResponseHeaders(r, date, order);
    BlockIsJoinedLines(StatusLine(r), hs);
    var head := Joined([StatusLine(r)] + Texts(hs));
    assert Serialized(r, date, order, false) == head + "\r\n" + "\r\n" + "";
  }

  lemma MessageSplits(head: string, tail: string)
    ensures var raw := head + "\r\n\r\n" + tail;
      |head| + 4 <= |raw| && raw[..|head|] == head && raw[|head| + 4..] == tail
  {}

  /** A message whose first blank line and head lines are known. */
  lemma MessageInParts(raw: string, head: string, lines: seq<string>, tail: string, address: string)
    requires FindBlankLine(raw) == |head| && |head| + 4 <= |raw| && raw[..|head|] == head && raw[|head| + 4..] == tail
    requires Lines(head) == lines != []
    ensures BodyText(raw) == tail && LastHeadLine(raw) == lines[|lines| - 1]
    ensures var status := ReadStatusLine(DropCr(lines[0]));
      UpstreamResponse(raw, address)
      == Response(status.0, status.1,
                  ReadUpstreamHeaders(map[], lines[1..])["X-Proxy-By" := SERVER_NAME]["X-Upstream-Addr" := address],
                  tail, None, false)
  {
    hide FindBlankLine, Lines, ReadStatusLine, ReadUpstreamHeaders, DropCr;
  }

  lemma StatusLineComesFirst(r: Response, date: string, order: seq<string>, tail: string)
    requires forall k :: k in order ==> k in r.headers
    ensures "HTTP/1.1 " <= Serialized(r, date, order, false) + tail
  {
    hide HeaderBlock, ResponseHeaders, ToString;
    var line := "HTTP/1.1 " + ToString(r.statusCode) + " " + r.statusMessage;
    assert line[..|"HTTP/1.1 "|] == "HTTP/1.1 ";
    var raw := Serialized(r, date, order, false) + tail;
    assert line <= raw;
  }

  lemma ConnectionIsLast(r: Response, date: string, order: seq<string>)
    requires forall k :: k in order ==> k in r.headers
    ensures var lines := WithCr([StatusLine(r)] + Texts(ResponseHeaders(r, date, order)));
      lines != [] && lines[|lines| - 1] == if r.closeConnection then "Connection: close" else "Connection: keep-alive"
  {
    hide StatusLine, InOrder, DefaultLength;
    var hs := [("Server", SERVER_NAME), ("Date", date)] + InOrder(r.headers, order) + DefaultLength(r);
    var h := ConnectionHeader(r);
    TextsEnd(hs, h);
    var lines := [StatusLine(r)] + Texts(hs);
    assert [StatusLine(r)] + Texts(hs + [h]) == lines + [h.0 + ": " + h.1];
    LastKeepsNoCr(lines, h.0 + ": " + h.1);
  }

  lemma {:induction false} TextsEnd(hs: seq<Header>, h: Header)
    ensures Texts(hs + [h]) == Texts(hs) + [h.0 + ": " + h.1]
  {
    if hs == [] {
      assert hs + [h] == [h] && [h][1..] == [];
    } else {
      assert (hs + [h])[1..] == hs[1..] + [h];
      TextsEnd(hs[1..], h);
    }
  }

  lemma {:induction false} LastKeepsNoCr(lines: seq<string>, last: string)
    ensures var all := WithCr(lines + [last]); all != [] && all[|all| - 1] == last
  {
    if lines != [] {
      assert (lines + [last])[1..] == lines[1..] + [last];
      LastKeepsNoCr(lines[1..], last);
    }
  }

  /** The proxy's answers when the upstream server did not send a message: 502 for nothing at
      all, and bytes without a blank line passed on as text. */
  lemma UpstreamWithoutMessage(raw: string, address: string)
    requires FindBlankLine(raw) == |raw|
    ensures var r := UpstreamResponse(raw, address);
      if raw == "" then
        r.statusCode == 502 && r.statusMessage == "Bad Gateway" && r.closeConnection
      else
        && r.statusCode == 200 && r.body == raw && !r.closeConnection
        && r.headers == map["Content-Type" := "text/plain; charset=utf-8", "X-Proxy-By" := "MyselfWebServer"]
  {}

  /** Without a message the status line still gives the code; without either, 200 OK. */
  lemma ShortStatusLine(version: string, code: int)
    requires ' ' !in version
    ensures ReadStatusLine(version + " " + ToString(code)) == (code, "OK")
    ensures ReadStatusLine(version) == (200, "OK")
  {
    hide Atoi, ToString;
    var line := version + " " + ToString(code);
    StatusCodeText(code);
    assert line[|version|] == ' ' && forall j :: 0 <= j < |version| ==> line[j] == version[j];
    FindIs(line, ' ', |version|);
    assert line[|version| + 1..] == ToString(code);
    FindMissing(ToString(code), ' ');
    FindMissing(version, ' ');
  }

  lemma HeadLinesAreRead(r: Response, date: string, order: seq<string>)
    requires Plain(r) && Transparent(("Date", date)) && Enumerates(order, r.headers)
    ensures var lines := WithCr([StatusLine(r)] + Texts(ResponseHeaders(r, date, order)));
      && lines != []
      && ReadStatusLine(DropCr(lines[0])) == (r.statusCode, r.statusMessage)
      && ReadUpstreamHeaders(map[], lines[1..]) == Carried(r, date)
  {
    hide ReadStatusLine, ReadUpstreamHeaders, DropCr, ResponseHeaders, StatusLine, Carried, Transparent;
    var hs := ResponseHeaders(r, date, order);
    var lines := [StatusLine(r)] + Texts(hs);
    HeadersAreTransparent(r, date, order);
    TransparentLinesAreRead(map[], hs);
    HeadersAreKept(r, date, order);
    StatusLineIsRead(r);
    DropCrOfClean(StatusLine(r));
    assert lines[1..] == Texts(hs);
    assert |hs| > 0 ==> WithCr(lines)[1..] == WithCr(Texts(hs));
  }
}
