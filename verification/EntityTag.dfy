/** Validators and conditional requests (src/http/Router.cpp, lines 164-214): the file's
    entity tag, the comma-splitting list match against the list grammar of RFC 9110, and
    the 304 decision. */
module EntityTags {
  import opened Text
  import opened HttpRequests
  import opened HttpDates

  // ------------------------------------------------------------ the own tag

  const TWO_64: int := 0x1_0000_0000_0000_0000

  /** The conversion to unsigned long long. */
  function Unsigned64(x: int): nat { x % TWO_64 }

  function HexDigit(d: nat): (c: char)
    requires d < 16
    ensures IsHexDigit(c) && HexDigitValue(c) == d
  {
    if d < 10 then ('0' as int + d) as char else ('a' as int + d - 10) as char
  }

  predicate IsHexDigit(c: char) { '0' <= c <= '9' || 'a' <= c <= 'f' }

  function HexDigitValue(c: char): nat
    requires IsHexDigit(c)
  {
    if c <= '9' then c as int - '0' as int else c as int - 'a' as int + 10
  }

  /** printf's %llx. */
  function ToHex(n: nat): string {
    if n < 16 then [HexDigit(n)] else ToHex(n / 16) + [HexDigit(n % 16)]
  }

  predicate IsHex(s: string) { s != "" && forall i :: 0 <= i < |s| ==> IsHexDigit(s[i]) }

  function HexValue(s: string): nat
    requires forall i :: 0 <= i < |s| ==> IsHexDigit(s[i])
  {
    if s == "" then 0
    else
      var last := s[|s| - 1];
      assert IsHexDigit(last);
      16 * HexValue(s[..|s| - 1]) + HexDigitValue(last)
  }

  lemma {:induction false} HexRoundTrip(n: nat)
    ensures IsHex(ToHex(n)) && HexValue(ToHex(n)) == n
  {
    if n >= 16 {
      HexRoundTrip(n / 16);
      var s := ToHex(n);
      assert s[..|s| - 1] == ToHex(n / 16);
    }
  }

  function OwnOpaque(mtime: int, size: int): string {
    ToHex(Unsigned64(mtime)) + "-" + ToHex(Unsigned64(size))
  }

  function MakeETag(mtime: int, size: int): string { Quoted(OwnOpaque(mtime, size)) }

  function Quoted(opaque_: string): string { "\"" + opaque_ + "\"" }

  predicate Int64(x: int) { -0x8000_0000_0000_0000 <= x < 0x8000_0000_0000_0000 }

  lemma UnsignedIsInjective(x: int, y: int)
    requires Int64(x) && Int64(y) && Unsigned64(x) == Unsigned64(y)
    ensures x == y
  {}

  lemma DashSplits(a: string, b: string)
    requires IsHex(a)
    ensures var s := a + "-" + b; Find(s, '-') == |a| && s[..|a|] == a && s[|a| + 1..] == b
  {
    var s := a + "-" + b;
    assert s[|a|] == '-' && forall j :: 0 <= j < |a| ==> s[j] == a[j] && IsHexDigit(a[j]);
    FindIs(s, '-', |a|);
  }

  /** The tag determines modification time and size, over their whole 64-bit ranges. */
  lemma ETagIsInjective(m1: int, s1: int, m2: int, s2: int)
    requires Int64(m1) && Int64(s1) && Int64(m2) && Int64(s2)
    requires MakeETag(m1, s1) == MakeETag(m2, s2)
    ensures m1 == m2 && s1 == s2
  {
    QuotedIsInjective(OwnOpaque(m1, s1), OwnOpaque(m2, s2));
    HexRoundTrip(Unsigned64(m1));
    HexRoundTrip(Unsigned64(m2));
    HexRoundTrip(Unsigned64(s1));
    HexRoundTrip(Unsigned64(s2));
    DashSplits(ToHex(Unsigned64(m1)), ToHex(Unsigned64(s1)));
    DashSplits(ToHex(Unsigned64(m2)), ToHex(Unsigned64(s2)));
    UnsignedIsInjective(m1, m2);
    UnsignedIsInjective(s1, s2);
  }

  lemma QuotedIsInjective(a: string, b: string)
    requires Quoted(a) == Quoted(b)
    ensures a == b
  {
    assert Quoted(a)[1..|Quoted(a)| - 1] == a && Quoted(b)[1..|Quoted(b)| - 1] == b;
  }

  // -------------------------------------------------------------- the match

  function SplitCommas(s: string): seq<string>
    decreases |s|
  {
    var i := Find(s, ',');
    if i == |s| then [s] else [s[..i]] + SplitCommas(s[i + 1..])
  }

  /** Weak comparison ignores the prefix W/. */
  function WithoutWeak(item: string): string {
    if |item| > 2 && item[0] == 'W' && item[1] == '/' then item[2..] else item
  }

  predicate ItemMatches(piece: string, etag: string) {
    var item := WithoutWeak(Trim(piece));
    item != "" && item == etag
  }

  predicate SomeMatch(pieces: seq<string>, etag: string) {
    exists k :: 0 <= k < |pieces| && ItemMatches(pieces[k], etag)
  }

  lemma SomeMatchCons(piece: string, rest: seq<string>, etag: string)
    ensures SomeMatch([piece] + rest, etag) <==> ItemMatches(piece, etag) || SomeMatch(rest, etag)
  {
    hide ItemMatches;
    var all := [piece] + rest;
    assert all[0] == piece && forall k :: 0 <= k < |rest| ==> all[k + 1] == rest[k];
  }

  predicate AnyMatches(header: string, etag: string) { SomeMatch(SplitCommas(header), etag) }

  predicate Matches(header: string, etag: string) {
    Trim(header) == "*" || AnyMatches(header, etag)
  }

  /** etagMatches, with its loop over the commas. */
  method EtagMatches(header: string, etag: string) returns (r: bool)
    ensures r == Matches(header, etag)
  {
    if Trim(header) == "*" {
      return true;
    }
    var begin := 0;
    assert header[0..] == header;
    while begin <= |header|
      invariant 0 <= begin <= |header|
      invariant AnyMatches(header, etag) <==> AnyMatches(header[begin..], etag)
      decreases |header| - begin
    {
      var tail := header[begin..];
      var comma := Find(tail, ',');
      var item := Trim(tail[..comma]);
      if |item| > 2 && item[0] == 'W' && item[1] == '/' {
        item := item[2..];
      }
      FirstPiece(tail, etag);
      if item != "" && item == etag {
        return true;
      }
      if comma == |tail| {
        return false;
      }
      assert tail[comma + 1..] == header[begin + comma + 1..];
      begin := begin + comma + 1;
    }
    return false;
  }

  lemma FirstPiece(s: string, etag: string)
    ensures var i := Find(s, ',');
      AnyMatches(s, etag) <==> ItemMatches(s[..i], etag) || (i < |s| && AnyMatches(s[i + 1..], etag))
  {
    hide AnyMatches, ItemMatches;
    var i := Find(s, ',');
    if i == |s| {
      assert s[..i] == s;
      OnlyPiece(s, etag);
    } else {
      CutPiece(s, s[..i], s[i + 1..], etag);
    }
  }

  lemma OnlyPiece(s: string, etag: string)
    requires Find(s, ',') == |s|
    ensures AnyMatches(s, etag) <==> ItemMatches(s, etag)
  {
    hide ItemMatches, SomeMatch, Find;
    assert [s] + [] == [s];
    SomeMatchCons(s, [], etag);
    NoneMatches(etag);
  }

  lemma CutPiece(s: string, first: string, rest: string, etag: string)
    requires var i := Find(s, ','); i < |s| && first == s[..i] && rest == s[i + 1..]
    ensures AnyMatches(s, etag) <==> ItemMatches(first, etag) || AnyMatches(rest, etag)
  {
    hide ItemMatches, SomeMatch, Find;
    SomeMatchCons(first, SplitCommas(rest), etag);
  }

  lemma NoneMatches(etag: string)
    ensures !SomeMatch([], etag)
  {}

  // ------------------------------------------------- lists as RFC 9110 has them

  /** etagc of section 8.8.3: no blank, no double quote; commas are allowed. */
  predicate EtagChar(c: char) { c == '!' || '#' <= c <= '~' || c >= 128 as char }

  predicate OpaqueTag(s: string) { forall c :: c in s ==> EtagChar(c) }

  datatype Tag = Tag(weak: bool, text: string)

  /** A list element, possibly empty, with the blanks around it (section 5.6.1). */
  datatype Element = Element(left: string, tag: Option<Tag>, right: string)

  predicate ValidElement(e: Element) {
    AllBlank(e.left) && AllBlank(e.right) && (e.tag.Some? ==> OpaqueTag(e.tag.value.text))
  }

  function TagText(t: Tag): string { (if t.weak then "W/" else "") + Quoted(t.text) }

  function ElementText(e: Element): string {
    e.left + (match e.tag case None => "" case Some(t) => TagText(t)) + e.right
  }

  function ListText(es: seq<Element>): string
    requires es != []
  {
    if |es| == 1 then ElementText(es[0]) else ElementText(es[0]) + "," + ListText(es[1..])
  }

  /** Section 8.8.3.2: weak comparison looks at the opaque tags only. */
  predicate Listed(es: seq<Element>, opaque_: string) {
    exists e :: e in es && e.tag.Some? && e.tag.value.text == opaque_
  }

  lemma {:induction false} AnyMatchesAcrossComma(a: string, b: string, etag: string)
    ensures AnyMatches(a + "," + b, etag) <==> AnyMatches(a, etag) || AnyMatches(b, etag)
    decreases |a|
  {
    hide AnyMatches, ItemMatches;
    var s := a + "," + b;
    var i := Find(a, ',');
    FirstPiece(s, etag);
    FirstPiece(a, etag);
    if i == |a| {
      assert s[|a|] == ',' && forall j :: 0 <= j < |a| ==> s[j] == a[j];
      FindIs(s, ',', |a|);
      assert s[..|a|] == a && s[|a| + 1..] == b && a[..|a|] == a;
    } else {
      assert s[i] == ',' && forall j :: 0 <= j < i ==> s[j] == a[j];
      FindIs(s, ',', i);
      assert s[..i] == a[..i] && s[i + 1..] == a[i + 1..] + "," + b;
      AnyMatchesAcrossComma(a[i + 1..], b, etag);
    }
  }

  function Quotes(s: string): nat {
    if s == "" then 0 else (if s[0] == '"' then 1 else 0) + Quotes(s[1..])
  }

  lemma {:induction false} QuotesAdd(a: string, b: string)
    ensures Quotes(a + b) == Quotes(a) + Quotes(b)
    decreases |a|
  {
    if a == "" {
      assert a + b == b;
    } else {
      assert (a + b)[1..] == a[1..] + b;
      QuotesAdd(a[1..], b);
    }
  }

  lemma {:induction false} NoQuotes(s: string)
    requires '"' !in s
    ensures Quotes(s) == 0
  {
    if s != "" { NoQuotes(s[1..]); }
  }

  lemma QuotesOfSlice(s: string, i: nat, j: nat)
    requires i <= j <= |s|
    ensures Quotes(s[i..j]) <= Quotes(s)
  {
    assert s == s[..i] + s[i..j] + s[j..];
    QuotesAdd(s[..i] + s[i..j], s[j..]);
    QuotesAdd(s[..i], s[i..j]);
  }

  lemma QuotesOfQuoted(o: string)
    requires '"' !in o
    ensures Quotes(Quoted(o)) == 2
  {
    QuotesAdd("\"" + o, "\"");
    QuotesAdd("\"", o);
    NoQuotes(o);
    OneQuote();
  }

  lemma OneQuote()
    ensures Quotes("\"") == 1
  {
    assert "\""[1..] == "";
  }

  /** A fragment with at most one quote cannot match a quoted tag. */
  lemma {:induction false} FragmentsDoNotMatch(s: string, o: string)
    requires Quotes(s) <= 1 && '"' !in o
    ensures !AnyMatches(s, Quoted(o))
    decreases |s|
  {
    var i := Find(s, ',');
    FirstPiece(s, Quoted(o));
    QuotesOfQuoted(o);
    QuotesOfSlice(s, 0, i);
    var piece := s[..i];
    assert s[0..i] == piece;
    var b, e := TrimBounds(piece);
    QuotesOfSlice(piece, b, e);
    var item := Trim(piece);
    if |item| > 2 {
      QuotesOfSlice(item, 2, |item|);
      assert item[2..|item|] == item[2..];
    }
    if i < |s| {
      QuotesOfSlice(s, i + 1, |s|);
      assert s[i + 1..|s|] == s[i + 1..];
      FragmentsDoNotMatch(s[i + 1..], o);
    }
  }

  lemma TagCutAtComma(left: string, t: Tag, right: string, u: string, v: string)
    requires t.text == u + "," + v
    ensures var head := left + if t.weak then "W/" else "";
      left + TagText(t) + right == (head + "\"" + u) + "," + (v + "\"" + right)
  {}

  /** Text on either side of a comma, one quote in each part, matches no quoted tag. */
  lemma TwoFragmentsDoNotMatch(head: string, u: string, v: string, right: string, o: string)
    requires '"' !in head && '"' !in u && '"' !in v && '"' !in right && '"' !in o
    ensures !AnyMatches((head + "\"" + u) + "," + (v + "\"" + right), Quoted(o))
  {
    hide AnyMatches, Quotes, Quoted;
    AnyMatchesAcrossComma(head + "\"" + u, v + "\"" + right, Quoted(o));
    OneQuoteBetween(head, u);
    OneQuoteBetween(v, right);
    FragmentsDoNotMatch(head + "\"" + u, o);
    FragmentsDoNotMatch(v + "\"" + right, o);
  }

  /** A tag with a comma in it falls apart into fragments with one quote each. */
  lemma CommaTagDoesNotMatch(left: string, t: Tag, right: string, o: string)
    requires AllBlank(left) && AllBlank(right) && OpaqueTag(t.text) && ',' in t.text && '"' !in o
    ensures !AnyMatches(left + TagText(t) + right, Quoted(o))
  {
    hide AnyMatches, Quotes, TagText, Quoted;
    var i := Find(t.text, ',');
    FindMissing(t.text, ',');
    var u, v := t.text[..i], t.text[i + 1..];
    var head := left + if t.weak then "W/" else "";
    assert t.text == u + "," + v;
    assert '"' !in t.text && (forall c :: c in u || c in v ==> c in t.text);
    assert '"' !in left && '"' !in head && '"' !in right;
    TagCutAtComma(left, t, right, u, v);
    TwoFragmentsDoNotMatch(head, u, v, right, o);
  }

  lemma OneQuoteBetween(a: string, b: string)
    requires '"' !in a && '"' !in b
    ensures Quotes(a + "\"" + b) == 1
  {
    QuotesAdd(a + "\"", b);
    QuotesAdd(a, "\"");
    NoQuotes(a);
    NoQuotes(b);
    OneQuote();
  }

  lemma PlainTagMatches(left: string, t: Tag, right: string, o: string)
    requires AllBlank(left) && AllBlank(right) && OpaqueTag(t.text) && ',' !in t.text
    ensures AnyMatches(left + TagText(t) + right, Quoted(o)) <==> t.text == o
  {
    hide SplitCommas, TagText, Trim, WithoutWeak, Quoted;
    var s := left + TagText(t) + right;
    TagTextIsItem(t);
    assert ',' !in s;
    FindMissing(s, ',');
    FirstPiece(s, Quoted(o));
    assert s[..|s|] == s;
    TrimPadded(left, TagText(t), right);
    if Quoted(t.text) == Quoted(o) { QuotedIsInjective(t.text, o); }
  }

  lemma TagTextIsItem(t: Tag)
    requires OpaqueTag(t.text)
    ensures Trimmed(TagText(t)) && WithoutWeak(TagText(t)) == Quoted(t.text) != ""
    ensures ',' !in t.text ==> ',' !in TagText(t)
  {
    var text := TagText(t);
    assert text[|text| - 1] == '"';
    assert t.weak ==> text[2..] == Quoted(t.text);
  }

  lemma ElementMatches(e: Element, o: string)
    requires ValidElement(e) && '"' !in o && ',' !in o
    ensures AnyMatches(ElementText(e), Quoted(o)) <==> e.tag.Some? && e.tag.value.text == o
  {
    match e.tag
    case None =>
      var s := ElementText(e);
      assert AllBlank(s);
      FindMissing(s, ',');
      FirstPiece(s, Quoted(o));
      assert s[..|s|] == s && s + "" + "" == s;
      TrimPadded(s, "", "");
    case Some(t) =>
      if ',' in t.text {
        CommaTagDoesNotMatch(e.left, t, e.right, o);
      } else {
        PlainTagMatches(e.left, t, e.right, o);
      }
  }

  lemma {:induction false} ListMatchesElements(es: seq<Element>, o: string)
    requires es != [] && (forall e :: e in es ==> ValidElement(e)) && '"' !in o && ',' !in o
    ensures AnyMatches(ListText(es), Quoted(o)) <==> Listed(es, o)
    decreases |es|
  {
    ElementMatches(es[0], o);
    if |es| > 1 {
      AnyMatchesAcrossComma(ElementText(es[0]), ListText(es[1..]), Quoted(o));
      ListMatchesElements(es[1..], o);
      assert forall e :: e in es <==> e == es[0] || e in es[1..];
    } else {
      assert forall e :: e in es <==> e == es[0];
    }
  }

  // --------------------------------------------------- a list is never "*"

  predicate Unstarred(s: string) { '"' in s || '*' !in s }

  lemma {:induction false} ListIsNotStar(es: seq<Element>)
    requires es != [] && forall e :: e in es ==> ValidElement(e)
    ensures Unstarred(ListText(es))
    decreases |es|
  {
    ElementIsNotStar(es[0]);
    if |es| > 1 {
      ListIsNotStar(es[1..]);
      JoinIsNotStar(ElementText(es[0]), ListText(es[1..]));
    }
  }

  lemma JoinIsNotStar(a: string, b: string)
    requires Unstarred(a) && Unstarred(b)
    ensures Unstarred(a + "," + b)
  {}

  lemma ElementIsNotStar(e: Element)
    requires ValidElement(e)
    ensures Unstarred(ElementText(e))
  {
    match e.tag
    case None =>
    case Some(t) =>
      var s := ElementText(e);
      var k := |e.left| + if t.weak then 2 else 0;
      assert s[k] == '"';
  }

  lemma StarIsStarred(s: string)
    requires Trim(s) == "*"
    ensures !Unstarred(s)
  {
    var i, j := TrimBounds(s);
    assert s[i..j] == "*" && s[i] == s[i..j][0];
    assert s == s[..i] + "*" + s[j..];
  }

  /** EXACT LIST MATCHING. Against every well-formed list - empty elements, blanks, weak tags
      and commas inside opaque tags included - the loop finds a match exactly when some
      member weakly equals the file's tag. */
  lemma ListMatchIsExact(es: seq<Element>, mtime: int, size: int)
    requires es != [] && forall e :: e in es ==> ValidElement(e)
    ensures Matches(ListText(es), MakeETag(mtime, size)) <==> Listed(es, OwnOpaque(mtime, size))
  {
    HexRoundTrip(Unsigned64(mtime));
    HexRoundTrip(Unsigned64(size));
    OwnOpaqueIsPlain(ToHex(Unsigned64(mtime)), ToHex(Unsigned64(size)));
    ListMatchesElements(es, OwnOpaque(mtime, size));
    ListIsNotStar(es);
    if Trim(ListText(es)) == "*" { StarIsStarred(ListText(es)); }
  }

  lemma OwnOpaqueIsPlain(a: string, b: string)
    requires IsHex(a) && IsHex(b)
    ensures '"' !in a + "-" + b && ',' !in a + "-" + b
  {}

  /** A list element that is the tag of the file version with this time and size. */
  predicate NamesVersion(e: Element, version: (int, int)) {
    ValidElement(e) && e.tag.Some? && Int64(version.0) && Int64(version.1)
    && e.tag.value.text == OwnOpaque(version.0, version.1)
  }

  /** So when the client lists tags this server made, a match names exactly the file's
      modification time and size. */
  lemma MatchNamesTheFile(es: seq<Element>, versions: seq<(int, int)>, mtime: int, size: int)
    requires es != [] && |versions| == |es| && Int64(mtime) && Int64(size)
    requires forall i :: 0 <= i < |es| ==> NamesVersion(es[i], versions[i])
    ensures Matches(ListText(es), MakeETag(mtime, size)) <==> (mtime, size) in versions
  {
    ListMatchIsExact(es, mtime, size);
    if Listed(es, OwnOpaque(mtime, size)) {
      var e :| e in es && e.tag.Some? && e.tag.value.text == OwnOpaque(mtime, size);
      var i :| 0 <= i < |es| && es[i] == e;
      ETagIsInjective(versions[i].0, versions[i].1, mtime, size);
      assert versions[i] == (mtime, size);
    }
    if (mtime, size) in versions {
      var i :| 0 <= i < |versions| && versions[i] == (mtime, size);
      assert es[i] in es;
    }
  }

  /** The tag spells the modification time, a dash and the size, in lower-case hexadecimal. */
  lemma TagSpellsTimeAndSize(mtime: int, size: int) returns (a: string, b: string)
    requires Int64(mtime) && Int64(size)
    ensures MakeETag(mtime, size) == "\"" + a + "-" + b + "\"" && IsHex(a) && IsHex(b)
    ensures HexValue(a) == (if mtime >= 0 then mtime else mtime + 0x1_0000_0000_0000_0000)
    ensures HexValue(b) == (if size >= 0 then size else size + 0x1_0000_0000_0000_0000)
  {
    hide ToHex, HexValue, IsHex;
    a, b := ToHex(Unsigned64(mtime)), ToHex(Unsigned64(size));
    HexRoundTrip(Unsigned64(mtime));
    HexRoundTrip(Unsigned64(size));
    assert MakeETag(mtime, size) == "\"" + a + "-" + b + "\"";
  }

  /** "*", with any blanks around it, matches every tag. */
  lemma StarMatches(left: string, right: string, etag: string)
    requires AllBlank(left) && AllBlank(right)
    ensures Matches(left + "*" + right, etag)
  {
    TrimPadded(left, "*", right);
  }

  // -------------------------------------------------------- the 304 decision

  /** isNotModified. */
  function NotModified(r: Request, etag: string, mtime: int): bool {
    var ifNoneMatch := GetHeader(r, "If-None-Match");
    if ifNoneMatch != "" then Matches(ifNoneMatch, etag)
    else
      var since := GetHeader(r, "If-Modified-Since");
      if since == "" then false
      else match ParsedDate(since)
        case None => false
        case Some(t) => mtime <= t
  }

  /** With If-None-Match present the tags decide, whatever the date says. */
  lemma TagsDecide(r: Request, es: seq<Element>, mtime: int, size: int)
    requires es != [] && (forall e :: e in es ==> ValidElement(e)) && ListText(es) != ""
    requires GetHeader(r, "If-None-Match") == ListText(es)
    ensures NotModified(r, MakeETag(mtime, size), mtime) <==> Listed(es, OwnOpaque(mtime, size))
  {
    ListMatchIsExact(es, mtime, size);
  }

  lemma StarDecides(r: Request, left: string, right: string, etag: string, mtime: int)
    requires AllBlank(left) && AllBlank(right) && GetHeader(r, "If-None-Match") == left + "*" + right
    ensures NotModified(r, etag, mtime)
  {
    StarMatches(left, right, etag);
    assert (left + "*" + right)[|left|] == '*';
  }

  /** A request without validators, or with a date nobody can read, gets the whole file. */
  lemma NothingToCompare(r: Request, etag: string, mtime: int)
    requires GetHeader(r, "If-None-Match") == ""
    requires GetHeader(r, "If-Modified-Since") == "" || ParsedDate(GetHeader(r, "If-Modified-Since")) == None
    ensures !NotModified(r, etag, mtime)
  {}

  /** Without it, a date this server printed, in either of two forms, gives 304 exactly when
      the file is not newer. */
  lemma DateDecides(r: Request, etag: string, mtime: int, t: nat)
    requires GetHeader(r, "If-None-Match") == "" && DateOf(t).year <= 9999
    requires GetHeader(r, "If-Modified-Since") in {FormatHttpDate(t), FormatAsctime(t)}
    ensures NotModified(r, etag, mtime) <==> mtime <= t
  {
    HttpDateRoundTrip(t);
    AsctimeRoundTrip(t);
  }
}
