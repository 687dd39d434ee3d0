/** Byte-string helpers shared by the HTTP modules: searching, trimming, case
    folding and decimal numbers, with the facts the protocol proofs need.
    A byte is a `char`; nothing here depends on the value staying below 256. */
module Text {

  datatype Option<+T> = None | Some(value: T)

  // ------------------------------------------------------------- searching

  /** std::string::find for one character; the length stands for npos. */
  function Find(s: string, c: char): (i: nat)
    ensures i <= |s|
    ensures i < |s| ==> s[i] == c
    ensures forall j :: 0 <= j < i ==> s[j] != c
  {
    if s == "" then 0
    else if s[0] == c then 0
    else 1 + Find(s[1..], c)
  }

  lemma FindMissing(s: string, c: char)
    ensures Find(s, c) == |s| <==> c !in s
  {
    if c in s {
      var j :| 0 <= j < |s| && s[j] == c;
    }
  }

  lemma FindIs(s: string, c: char, i: nat)
    requires i < |s| && s[i] == c && forall j :: 0 <= j < i ==> s[j] != c
    ensures Find(s, c) == i
  {}

  /** Three words separated by single spaces come apart where they were joined. */
  lemma WordsSplit(a: string, b: string, c: string)
    requires ' ' !in a && ' ' !in b
    ensures var line := a + " " + b + " " + c;
      && Find(line, ' ') == |a| && line[..|a|] == a && line[|a| + 1..] == b + " " + c
      && Find(b + " " + c, ' ') == |b| && (b + " " + c)[..|b|] == b && (b + " " + c)[|b| + 1..] == c
  {
    var line := a + " " + b + " " + c;
    FindIs(line, ' ', |a|);
    FindIs(b + " " + c, ' ', |b|);
    assert line[|a| + 1..] == b + " " + c;
  }

  predicate CrlfAt(s: string, i: int) {
    0 <= i && i + 1 < |s| && s[i] == '\r' && s[i + 1] == '\n'
  }

  /** A text that can be one line of a head: no CR immediately followed by LF. */
  ghost predicate OneLine(s: string) {
    forall i :: !CrlfAt(s, i)
  }

  /** Position of the first CR LF pair; the length stands for "not found". */
  function FindCrlf(s: string): (i: nat)
    ensures i <= |s|
    ensures i < |s| ==> CrlfAt(s, i)
    ensures forall j :: 0 <= j < i ==> !CrlfAt(s, j)
  {
    if |s| < 2 then |s|
    else if s[0] == '\r' && s[1] == '\n' then 0
    else
      var i := 1 + FindCrlf(s[1..]);
      assert forall j :: 1 <= j ==> (CrlfAt(s, j) <==> CrlfAt(s[1..], j - 1));
      i
  }

  /** Where a CR LF pair can sit in a concatenation. */
  lemma CrlfInConcat(a: string, b: string)
    ensures forall i :: CrlfAt(a + b, i) <==>
      CrlfAt(a, i) || CrlfAt(b, i - |a|) ||
      (0 <= i == |a| - 1 && a[i] == '\r' && b != "" && b[0] == '\n')
  {}

  /** More bytes never move a CR LF that was already there, and a new one can
      only start at the last old byte or later. */
  lemma FindCrlfExtends(a: string, b: string)
    ensures FindCrlf(a) < |a| ==> FindCrlf(a + b) == FindCrlf(a)
    ensures FindCrlf(a) == |a| ==> FindCrlf(a + b) >= |a| - 1
  {
    CrlfInConcat(a, b);
  }

  /** The line that was printed is the line that is found. */
  lemma FindCrlfAfterLine(line: string, rest: string)
    requires OneLine(line)
    ensures FindCrlf(line + "\r\n" + rest) == |line|
  {
    assert line + "\r\n" + rest == line + ("\r\n" + rest);
    CrlfInConcat(line, "\r\n" + rest);
    assert CrlfAt(line + "\r\n" + rest, |line|);
  }

  lemma OneLineSlice(s: string, i: nat, j: nat)
    requires OneLine(s) && i <= j <= |s|
    ensures OneLine(s[i..j])
  {
    assert forall k :: CrlfAt(s[i..j], k) ==> CrlfAt(s, i + k);
  }

  lemma OneLineParts(s: string, i: nat)
    requires OneLine(s) && i <= |s|
    ensures OneLine(s[..i]) && OneLine(s[i..])
  {
    assert forall k :: CrlfAt(s[..i], k) ==> CrlfAt(s, k);
    assert forall k :: CrlfAt(s[i..], k) ==> CrlfAt(s, i + k);
  }

  /** Two line fragments joined by something that neither starts with LF nor
      ends with CR stay one line. */
  lemma OneLineJoin(a: string, sep: string, b: string)
    requires OneLine(a) && OneLine(b) && OneLine(sep)
    requires sep != "" && sep[0] != '\n' && sep[|sep| - 1] != '\r'
    ensures OneLine(a + sep + b)
  {
    CrlfInConcat(a, sep);
    CrlfInConcat(a + sep, b);
  }

  predicate Contains(s: string, pattern: string) {
    exists i :: 0 <= i <= |s| && HasPrefix(s[i..], pattern)
  }

  predicate HasPrefix(s: string, prefix: string) {
    |prefix| <= |s| && s[..|prefix|] == prefix
  }

  /** The word occurs somewhere in the text. */
  ghost predicate Mentions(s: string, word: string) {
    exists a, b :: s == a + word + b
  }

  lemma ContainsIsMentions(s: string, word: string)
    ensures Contains(s, word) <==> Mentions(s, word)
  {
    if Contains(s, word) {
      var i :| 0 <= i <= |s| && HasPrefix(s[i..], word);
      assert s == s[..i] + word + s[i + |word|..];
    }
    if Mentions(s, word) {
      var a, b :| s == a + word + b;
      assert s[|a|..] == word + b;
    }
  }

  // -------------------------------------------------------------- trimming

  predicate IsBlank(c: char) { c == ' ' || c == '\t' }

  function TrimLeft(s: string): string {
    if s != "" && IsBlank(s[0]) then TrimLeft(s[1..]) else s
  }

  function TrimRight(s: string): string {
    if s != "" && IsBlank(s[|s| - 1]) then TrimRight(s[..|s| - 1]) else s
  }

  /** Removes spaces and tabs at both ends. */
  function Trim(s: string): string { TrimRight(TrimLeft(s)) }

  predicate Trimmed(s: string) {
    s != "" ==> !IsBlank(s[0]) && !IsBlank(s[|s| - 1])
  }

  predicate AllBlank(s: string) { forall i :: 0 <= i < |s| ==> IsBlank(s[i]) }

  lemma {:induction false} TrimLeftBounds(s: string) returns (i: nat)
    ensures i <= |s| && TrimLeft(s) == s[i..] && AllBlank(s[..i])
    ensures TrimLeft(s) != "" ==> !IsBlank(TrimLeft(s)[0])
  {
    if s != "" && IsBlank(s[0]) {
      var k := TrimLeftBounds(s[1..]);
      i := k + 1;
      assert s[1..][k..] == s[i..];
      forall j | 0 <= j < i ensures IsBlank(s[..i][j]) {
        if j > 0 { assert s[..i][j] == s[1..][..k][j - 1]; }
      }
    } else {
      i := 0;
    }
  }

  lemma {:induction false} TrimRightBounds(s: string) returns (j: nat)
    ensures j <= |s| && TrimRight(s) == s[..j] && AllBlank(s[j..])
    ensures TrimRight(s) != "" ==> !IsBlank(TrimRight(s)[|TrimRight(s)| - 1])
  {
    if s != "" && IsBlank(s[|s| - 1]) {
      var t := s[..|s| - 1];
      j := TrimRightBounds(t);
      assert t[..j] == s[..j];
      forall k | 0 <= k < |s[j..]| ensures IsBlank(s[j..][k]) {
        if j + k < |t| { assert s[j..][k] == t[j..][k]; }
      }
    } else {
      j := |s|;
      assert s[..j] == s;
    }
  }

  /** What trimming keeps: a slice with no blank at either end, surrounded by
      nothing but blanks. */
  lemma TrimBounds(s: string) returns (i: nat, j: nat)
    ensures i <= j <= |s| && Trim(s) == s[i..j]
    ensures AllBlank(s[..i]) && AllBlank(s[j..])
    ensures Trimmed(Trim(s))
  {
    i := TrimLeftBounds(s);
    var t := TrimLeft(s);
    var k := TrimRightBounds(t);
    j := i + k;
    assert t[..k] == s[i..j];
    assert t[k..] == s[j..];
    if Trim(s) != "" { assert Trim(s)[0] == t[0]; }
  }

  lemma {:induction false} TrimLeftBlank(pad: string, s: string)
    requires AllBlank(pad)
    ensures TrimLeft(pad + s) == TrimLeft(s)
  {
    if pad == "" {
      assert pad + s == s;
    } else {
      assert (pad + s)[1..] == pad[1..] + s;
      assert IsBlank(pad[0]);
      assert AllBlank(pad[1..]);
      TrimLeftBlank(pad[1..], s);
    }
  }

  lemma {:induction false} TrimRightBlank(s: string, pad: string)
    requires AllBlank(pad)
    ensures TrimRight(s + pad) == TrimRight(s)
  {
    if pad == "" {
      assert s + pad == s;
    } else {
      var p := pad[..|pad| - 1];
      assert (s + pad)[..|s + pad| - 1] == s + p;
      assert IsBlank(pad[|pad| - 1]);
      assert AllBlank(p);
      TrimRightBlank(s, p);
    }
  }

  /** Blanks around a trimmed text are exactly what trimming removes. */
  lemma TrimPadded(left: string, s: string, right: string)
    requires AllBlank(left) && AllBlank(right) && Trimmed(s)
    ensures Trim(left + s + right) == s
  {
    assert left + s + right == left + (s + right);
    TrimLeftBlank(left, s + right);
    if s == "" {
      assert s + right == right + "";
      TrimLeftBlank(right, "");
    } else {
      assert TrimLeft(s + right) == s + right;
      TrimRightBlank(s, right);
    }
  }

  lemma TrimOfTrimmed(s: string)
    requires Trimmed(s)
    ensures Trim(s) == s
  {
    assert "" + s + "" == s;
    TrimPadded("", s, "");
  }

  lemma TrimTwice(s: string)
    ensures Trim(Trim(s)) == Trim(s)
  {
    var i, j := TrimBounds(s);
    TrimOfTrimmed(Trim(s));
  }

  lemma OneLineTrim(s: string)
    requires OneLine(s)
    ensures OneLine(Trim(s)) && Trimmed(Trim(s))
  {
    var i, j := TrimBounds(s);
    OneLineSlice(s, i, j);
  }

  // ---------------------------------------------------------- case folding

  function Lower(c: char): char {
    if 'A' <= c <= 'Z' then (c as int + 32) as char else c
  }

  function ToLower(s: string): (r: string)
    ensures |r| == |s|
    ensures forall i :: 0 <= i < |s| ==> r[i] == Lower(s[i])
  {
    seq(|s|, i requires 0 <= i < |s| => Lower(s[i]))
  }

  lemma ToLowerIdempotent(s: string)
    ensures ToLower(ToLower(s)) == ToLower(s)
  {}

  /** Trimming and lower-casing bring in no character that is not lower case. */
  lemma TrimToLowerLacks(s: string, c: char)
    requires c !in s && !('a' <= c <= 'z')
    ensures c !in ToLower(Trim(s))
  {
    var i, j := TrimBounds(s);
    var t := ToLower(Trim(s));
    forall k | 0 <= k < |t| ensures t[k] != c {
      assert t[k] == Lower(s[i + k]);
    }
  }

  lemma ToLowerKeepsLines(s: string)
    requires OneLine(s)
    ensures OneLine(ToLower(s))
  {
    assert forall i :: CrlfAt(ToLower(s), i) ==> CrlfAt(s, i);
  }

  // -------------------------------------------------------- decimal numbers

  predicate IsDigit(c: char) { '0' <= c <= '9' }

  predicate IsDigitString(s: string) {
    s != "" && forall i :: 0 <= i < |s| ==> IsDigit(s[i])
  }

  function Digit(d: nat): (c: char)
    requires d < 10
    ensures IsDigit(c) && c as int - '0' as int == d
  {
    ('0' as int + d) as char
  }

  function DecimalValue(s: string): nat
    requires forall i :: 0 <= i < |s| ==> IsDigit(s[i])
  {
    if s == "" then 0
    else
      var last := s[|s| - 1];
      assert IsDigit(last);
      10 * DecimalValue(s[..|s| - 1]) + (last as int - '0' as int)
  }

  /** std::to_string for a size or another non-negative number. */
  function ToDecimal(n: nat): string {
    if n < 10 then [Digit(n)] else ToDecimal(n / 10) + [Digit(n % 10)]
  }

  /** Printing a number in decimal and reading the digits back is the identity. */
  lemma {:induction false} DecimalRoundTrip(n: nat)
    ensures IsDigitString(ToDecimal(n))
    ensures DecimalValue(ToDecimal(n)) == n
  {
    if n >= 10 {
      DecimalRoundTrip(n / 10);
      var s := ToDecimal(n);
      assert s[..|s| - 1] == ToDecimal(n / 10);
    }
  }

  lemma DigitsAreOneLine(s: string)
    requires forall i :: 0 <= i < |s| ==> IsDigit(s[i])
    ensures OneLine(s) && Trimmed(s)
  {}

  // ---------------------------------------------------- numbers with a sign

  /** std::to_string for an int. */
  function ToString(n: int): string {
    if n < 0 then "-" + ToDecimal(-n) else ToDecimal(n)
  }

  predicate IsSpace(c: char) {
    c == ' ' || ('\t' <= c <= '\r')
  }

  function SkipSpaces(s: string): string {
    if s != "" && IsSpace(s[0]) then SkipSpaces(s[1..]) else s
  }

  function DigitRun(s: string): (n: nat)
    ensures n <= |s| && forall i :: 0 <= i < n ==> IsDigit(s[i])
    ensures n < |s| ==> !IsDigit(s[n])
  {
    if s != "" && IsDigit(s[0]) then 1 + DigitRun(s[1..]) else 0
  }

  /** std::atoi: leading white space, a sign, then as many digits as there are. */
  function Atoi(s: string): int {
    var t := SkipSpaces(s);
    if t != "" && t[0] == '-' then 0 - DecimalValue(t[1..][..DigitRun(t[1..])])
    else if t != "" && t[0] == '+' then DecimalValue(t[1..][..DigitRun(t[1..])])
    else DecimalValue(t[..DigitRun(t)])
  }

  lemma DigitRunOf(digits: string, rest: string)
    requires (forall i :: 0 <= i < |digits| ==> IsDigit(digits[i])) && (rest != "" ==> !IsDigit(rest[0]))
    ensures DigitRun(digits + rest) == |digits|
  {
    var s := digits + rest;
    var n := DigitRun(s);
    assert forall i :: 0 <= i < |digits| ==> IsDigit(s[i]) && s[i] == digits[i];
    assert rest != "" ==> s[|digits|] == rest[0];
  }

  lemma AtoiRoundTrip(n: int)
    ensures Atoi(ToString(n)) == n
  {
    var digits := ToDecimal(if n < 0 then -n else n);
    DecimalRoundTrip(if n < 0 then -n else n);
    DigitRunOf(digits, "");
    assert digits + "" == digits && digits[..|digits|] == digits;
    assert IsDigit(digits[0]);
    assert n < 0 ==> ToString(n)[1..] == digits;
  }

  // ------------------------------------------------------ lines of a head

  /** Text that neither CR nor LF can break. */
  predicate Clean(s: string) { '\r' !in s && '\n' !in s }

  /** Position of the first empty line, that is of "CR LF CR LF". */
  function FindBlankLine(s: string): (i: nat)
    ensures i <= |s|
    ensures i < |s| ==> i + 4 <= |s| && s[i..i + 4] == "\r\n\r\n"
  {
    if |s| < 4 then |s|
    else if s[0] == '\r' && s[1] == '\n' && s[2] == '\r' && s[3] == '\n' then 0
    else 1 + FindBlankLine(s[1..])
  }

  /** What repeated std::getline calls return. */
  function Lines(s: string): seq<string> {
    if s == "" then []
    else
      var i := Find(s, '\n');
      [s[..i]] + if i == |s| then [] else Lines(s[i + 1..])
  }
}
