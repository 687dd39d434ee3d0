/** HTTP dates (src/http/Router.cpp, lines 41-162): the closed-form day count against naive
    counting in the Gregorian calendar, and printing against parsing. */
module HttpDates {
  import opened Text

  // ------------------------------------------------- the calendar, naively

  predicate Leap(y: int) { y % 4 == 0 && (y % 100 != 0 || y % 400 == 0) }

  function YearDays(y: int): int { if Leap(y) then 366 else 365 }

  function MonthDays(y: int, m: int): int {
    if m == 2 then (if Leap(y) then 29 else 28)
    else if m == 4 || m == 6 || m == 9 || m == 11 then 30
    else 31
  }

  datatype Date = Date(year: int, month: int, day: int)

  predicate ValidDate(d: Date) {
    1 <= d.month <= 12 && 1 <= d.day <= MonthDays(d.year, d.month)
  }

  /** Days from 1 January 1970 to 1 January of year y, counted year by year. */
  function DaysBeforeYear(y: int): int
    decreases if y >= 1970 then y - 1970 else 1970 - y
  {
    if y == 1970 then 0
    else if y > 1970 then DaysBeforeYear(y - 1) + YearDays(y - 1)
    else DaysBeforeYear(y + 1) - YearDays(y)
  }

  /** Days from the first of the year to the first of month m, counted month by month. */
  function DaysBeforeMonth(y: int, m: int): int
    requires m >= 1
  {
    if m == 1 then 0 else DaysBeforeMonth(y, m - 1) + MonthDays(y, m - 1)
  }

  function DayNumber(d: Date): int
    requires d.month >= 1
  {
    DaysBeforeYear(d.year) + DaysBeforeMonth(d.year, d.month) + d.day - 1
  }

  // ------------------------------------------------------ the closed formula

  /** Division as in C++: the quotient is truncated towards zero. */
  function TruncatedDiv(a: int, b: int): int
    requires b > 0
  {
    if a >= 0 then a / b else -((-a) / b)
  }

  /** days_from_civil, as written in parseHttpDate. */
  function DaysFromCivil(year: int, month: int, day: int): int {
    var adjustedYear := year - if month <= 2 then 1 else 0;
    var era := TruncatedDiv(if adjustedYear >= 0 then adjustedYear else adjustedYear - 399, 400);
    var yearOfEra := adjustedYear - era * 400;
    var dayOfYear := (153 * (if month > 2 then month - 3 else month + 9) + 2) / 5 + day - 1;
    var dayOfEra := yearOfEra * 365 + yearOfEra / 4 - yearOfEra / 100 + dayOfYear;
    era * 146097 + dayOfEra - 719468
  }

  /** Days before 1 March of year a, up to a constant, in the usual closed form. */
  function LeapCount(a: int): int { 365 * a + a / 4 - a / 100 + a / 400 }

  lemma EraSplit(a: int)
    ensures var era := TruncatedDiv(if a >= 0 then a else a - 399, 400);
      var y := a - era * 400;
      && era == a / 400 && 0 <= y < 400
      && era * 146097 + y * 365 + y / 4 - y / 100 == LeapCount(a)
  {
    var era := a / 400;
    var y := a - era * 400;
    assert 0 <= y < 400;
    assert TruncatedDiv(if a >= 0 then a else a - 399, 400) == era;
    assert a / 4 == 100 * era + y / 4;
    assert a / 100 == 4 * era + y / 100;
  }

  lemma DivStep4(a: int)
    ensures a / 4 - (a - 1) / 4 == if a % 4 == 0 then 1 else 0
  {}

  lemma DivStep100(a: int)
    ensures a / 100 - (a - 1) / 100 == if a % 100 == 0 then 1 else 0
  {}

  lemma DivStep400(a: int)
    ensures a / 400 - (a - 1) / 400 == if a % 400 == 0 then 1 else 0
  {}

  lemma CenturiesAreLeapMultiples(a: int)
    ensures (a % 400 == 0 ==> a % 100 == 0) && (a % 100 == 0 ==> a % 4 == 0)
  {}

  lemma LeapCountStep(a: int)
    ensures LeapCount(a) - LeapCount(a - 1) == YearDays(a)
  {
    DivStep4(a);
    DivStep100(a);
    DivStep400(a);
    CenturiesAreLeapMultiples(a);
  }

  lemma {:induction false} DaysBeforeYearClosed(y: int)
    ensures DaysBeforeYear(y) == LeapCount(y - 1) - 719162
    decreases if y >= 1970 then y - 1970 else 1970 - y
  {
    if y > 1970 {
      DaysBeforeYearClosed(y - 1);
      LeapCountStep(y - 1);
    } else if y < 1970 {
      DaysBeforeYearClosed(y + 1);
      LeapCountStep(y);
    }
  }

  lemma DaysBeforeMonthTable(y: int, m: int)
    requires 1 <= m <= 12
    ensures var feb := if Leap(y) then 29 else 28;
      DaysBeforeMonth(y, m) ==
        if m == 1 then 0 else if m == 2 then 31 else 31 + feb + (153 * (m - 3) + 2) / 5
  {
    if m > 1 { DaysBeforeMonthTable(y, m - 1); }
  }

  /** The closed formula with its parts named: the year part and the month part. */
  lemma FormulaParts(y: int, m: int, d: int)
    requires 1 <= m <= 12
    ensures var a := y - if m <= 2 then 1 else 0;
      DaysFromCivil(y, m, d) == LeapCount(a) + MarchDays(m) + d - 1 - 719468
  {
    EraSplit(y - if m <= 2 then 1 else 0);
  }

  /** Days from 1 March to the first of month m. */
  function MarchDays(m: int): int { (153 * (if m > 2 then m - 3 else m + 9) + 2) / 5 }

  lemma MarchDaysTable(y: int, m: int)
    requires 1 <= m <= 12
    ensures DaysBeforeMonth(y, m) ==
      if m <= 2 then MarchDays(m) - 306 else MarchDays(m) + YearDays(y) - 306
  {
    DaysBeforeMonthTable(y, m);
  }

  /** The closed formula counts days exactly as the calendar does, for every valid date
      of every year. */
  lemma DayCountIsExact(d: Date)
    requires ValidDate(d)
    ensures DaysFromCivil(d.year, d.month, d.day) == DayNumber(d)
  {
    FormulaParts(d.year, d.month, d.day);
    LeapCountStep(d.year);
    DaysBeforeYearClosed(d.year);
    MarchDaysTable(d.year, d.month);
    hide LeapCount, YearDays, MarchDays, DaysFromCivil, DaysBeforeYear, DaysBeforeMonth, MonthDays;
  }

  /** Later dates have larger day numbers, so the formula is injective as well. */
  predicate Earlier(a: Date, b: Date) {
    a.year < b.year || (a.year == b.year && (a.month < b.month || (a.month == b.month && a.day < b.day)))
  }

  lemma {:induction false} MonthsGrow(y: int, m: int, n: int)
    requires 1 <= m < n <= 13
    ensures DaysBeforeMonth(y, m) + MonthDays(y, m) <= DaysBeforeMonth(y, n)
    decreases n - m
  {
    if m + 1 < n { MonthsGrow(y, m + 1, n); }
  }

  lemma MonthsFillYear(y: int)
    ensures DaysBeforeMonth(y, 13) == YearDays(y)
  {
    DaysBeforeMonthTable(y, 12);
  }

  lemma {:induction false} YearsGrow(y: int, z: int)
    requires y < z
    ensures DaysBeforeYear(y) + YearDays(y) <= DaysBeforeYear(z)
    decreases z - y
  {
    DaysBeforeYearClosed(y);
    DaysBeforeYearClosed(y + 1);
    LeapCountStep(y);
    if y + 1 < z { YearsGrow(y + 1, z); }
  }

  lemma DayNumbersGrow(a: Date, b: Date)
    requires ValidDate(a) && ValidDate(b) && Earlier(a, b)
    ensures DayNumber(a) < DayNumber(b)
    ensures DaysFromCivil(a.year, a.month, a.day) < DaysFromCivil(b.year, b.month, b.day)
  {
    DayCountIsExact(a);
    DayCountIsExact(b);
    if a.year < b.year {
      YearsGrow(a.year, b.year);
      MonthsGrow(a.year, a.month, 13);
      MonthsFillYear(a.year);
      DaysBeforeMonthTable(b.year, b.month);
    } else if a.month < b.month {
      MonthsGrow(a.year, a.month, b.month);
    }
  }

  // ----------------------------------------------------- gmtime, naively

  /** The year that the day `left` days after 1 January of year y lies in, and how many
      days remain. */
  function FindYear(left: nat, y: int): (int, nat)
    decreases left
  {
    if left < YearDays(y) then (y, left) else FindYear(left - YearDays(y), y + 1)
  }

  function FindMonth(y: int, left: nat, m: int): (int, nat)
    requires m >= 1
    decreases left
  {
    if left < MonthDays(y, m) then (m, left) else FindMonth(y, left - MonthDays(y, m), m + 1)
  }

  /** The date `days` days after 1 January 1970. */
  function CivilDate(days: nat): Date {
    var (y, left) := FindYear(days, 1970);
    var (m, rest) := FindMonth(y, left, 1);
    Date(y, m, rest + 1)
  }

  lemma {:induction false} FoundYear(left: nat, y: int)
    requires y >= 1970
    ensures var (z, rest) := FindYear(left, y);
      z >= y && rest < YearDays(z) && DaysBeforeYear(y) + left == DaysBeforeYear(z) + rest
    decreases left
  {
    if left >= YearDays(y) { FoundYear(left - YearDays(y), y + 1); }
  }

  lemma {:induction false} FoundMonth(y: int, left: nat, m: int)
    requires 1 <= m <= 12 && DaysBeforeMonth(y, m) + left < YearDays(y)
    ensures var (n, rest) := FindMonth(y, left, m);
      m <= n <= 12 && rest < MonthDays(y, n) && DaysBeforeMonth(y, m) + left == DaysBeforeMonth(y, n) + rest
    decreases left
  {
    MonthsFillYear(y);
    if left >= MonthDays(y, m) {
      assert DaysBeforeMonth(y, m + 1) == DaysBeforeMonth(y, m) + MonthDays(y, m);
      FoundMonth(y, left - MonthDays(y, m), m + 1);
    }
  }

  lemma CivilDateIsRight(days: nat)
    ensures ValidDate(CivilDate(days)) && DayNumber(CivilDate(days)) == days && CivilDate(days).year >= 1970
  {
    FoundYear(days, 1970);
    var (y, left) := FindYear(days, 1970);
    FoundMonth(y, left, 1);
    var (m, rest) := FindMonth(y, left, 1);
    assert CivilDate(days) == Date(y, m, rest + 1);
  }

  // --------------------------------------------------------------- printing

  const MONTHS: seq<string> := ["Jan", "Feb", "Mar", "Apr", "May", "Jun", "Jul", "Aug", "Sep", "Oct", "Nov", "Dec"]
  const WEEKDAYS: seq<string> := ["Sun", "Mon", "Tue", "Wed", "Thu", "Fri", "Sat"]
  const LONG_WEEKDAYS: seq<string> :=
    ["Sunday", "Monday", "Tuesday", "Wednesday", "Thursday", "Friday", "Saturday"]

  /** %d, %H, %M and %S: two digits. */
  function Two(n: nat): string
    requires n < 100
  {
    [Digit(n / 10), Digit(n % 10)]
  }

  /** %e: two columns, a blank in front of a single digit. */
  function Padded(n: nat): string
    requires n < 100
  {
    if n < 10 then [' ', Digit(n)] else Two(n)
  }

  function Clock(seconds: nat): string
    requires seconds < 86400
  {
    Two(seconds / 3600) + ":" + Two(seconds / 60 % 60) + ":" + Two(seconds % 60)
  }

  function DateOf(t: nat): (d: Date)
    ensures ValidDate(d) && DayNumber(d) == t / 86400 && d.year >= 1970
  {
    CivilDateIsRight(t / 86400);
    CivilDate(t / 86400)
  }

  /** 1 January 1970 was a Thursday. */
  function WeekdayOf(t: nat): (w: nat)
    ensures w < 7
  {
    (t / 86400 + 4) % 7
  }

  /** formatHttpDate: IMF-fixdate, "Sun, 06 Nov 1994 08:49:37 GMT". */
  function FormatHttpDate(t: nat): string {
    var d := DateOf(t);
    WEEKDAYS[WeekdayOf(t)] + ", " + Two(d.day) + " " + MONTHS[d.month - 1] + " " + ToDecimal(d.year) + " "
    + Clock(t % 86400) + " GMT"
  }

  /** The asctime form, "Sun Nov  6 08:49:37 1994". */
  function FormatAsctime(t: nat): string {
    var d := DateOf(t);
    WEEKDAYS[WeekdayOf(t)] + " " + MONTHS[d.month - 1] + " " + Padded(d.day) + " " + Clock(t % 86400) + " "
    + ToDecimal(d.year)
  }

  /** The RFC 850 form, "Sunday, 06-Nov-94 08:49:37 GMT". */
  function FormatRfc850(t: nat): string {
    var d := DateOf(t);
    LONG_WEEKDAYS[WeekdayOf(t)] + ", " + Two(d.day) + "-" + MONTHS[d.month - 1] + "-" + Two(d.year % 100) + " "
    + Clock(t % 86400) + " GMT"
  }

  // ---------------------------------------------------------------- parsing

  predicate Separator(c: char) { c == ' ' || c == '\t' || c == '-' }

  /** The words of a date; `current` is the word being read. */
  function Words(s: string, current: string): seq<string>
    decreases |s|
  {
    if s == "" then (if current == "" then [] else [current])
    else if Separator(s[0]) then (if current == "" then [] else [current]) + Words(s[1..], "")
    else Words(s[1..], current + [s[0]])
  }

  /** sscanf's %d: the number read and what follows it. */
  function ScanInt(s: string): Option<(int, string)> {
    var t := SkipSpaces(s);
    var signed := t != "" && (t[0] == '-' || t[0] == '+');
    var digits := if signed then t[1..] else t;
    var n := DigitRun(digits);
    if n == 0 then None
    else
      var value := DecimalValue(digits[..n]);
      Some((if signed && t[0] == '-' then 0 - value else value, digits[n..]))
  }

  /** sscanf "%d:%d:%d" with all three numbers found. */
  function ScanClock(s: string): Option<(int, int, int)> {
    match ScanInt(s)
    case None => None
    case Some((hour, s1)) =>
      if s1 == "" || s1[0] != ':' then None else
      match ScanInt(s1[1..])
      case None => None
      case Some((minute, s2)) =>
        if s2 == "" || s2[0] != ':' then None else
        match ScanInt(s2[1..])
        case None => None
        case Some((second, _)) => Some((hour, minute, second))
  }

  datatype Fields = Fields(year: int, month: int, day: int, hour: int, minute: int, second: int, hasTime: bool)

  const NO_FIELDS: Fields := Fields(0, 0, 0, 0, 0, 0, false)

  /** Position of a name in the month table, counted from zero; 12 when it is no month. */
  function MonthIndex(token: string, from: nat): (i: nat)
    requires from <= 12
    ensures from <= i <= 12 && (i < 12 ==> MONTHS[i] == token)
    ensures forall j :: from <= j < i ==> MONTHS[j] != token
    decreases 12 - from
  {
    if from == 12 || MONTHS[from] == token then from else MonthIndex(token, from + 1)
  }

  /** What one word contributes; None stands for a rejected date. */
  function TakeWord(f: Fields, token: string): Option<Fields> {
    if ':' in token then
      match ScanClock(token)
      case None => None
      case Some((h, m, s)) => Some(f.(hour := h, minute := m, second := s, hasTime := true))
    else if token == "GMT" || token == "UTC" then Some(f)
    else if !IsDigitString(token) then
      var i := MonthIndex(token, 0);
      Some(if i < 12 then f.(month := i + 1) else f)
    else
      var number := DecimalValue(token);
      if number > 31 || |token| == 4 || number >= 70 then Some(f.(year := number))
      else if f.day == 0 then Some(f.(day := number))
      else Some(f.(year := number))
  }

  function TakeWords(f: Fields, tokens: seq<string>): Option<Fields>
    decreases |tokens|
  {
    if tokens == [] then Some(f)
    else match TakeWord(f, tokens[0])
      case None => None
      case Some(g) => TakeWords(g, tokens[1..])
  }

  /** The checks and the arithmetic at the end of parseHttpDate. */
  function Conclude(f: Fields): Option<int> {
    if !f.hasTime || f.month == 0 || f.day == 0 || f.year == 0 then None else
    var year := if f.year < 100 then f.year + (if f.year < 70 then 2000 else 1900) else f.year;
    if f.month < 1 || f.month > 12 || f.day < 1 || f.day > 31 || f.hour > 23 || f.minute > 59 || f.second > 60 then None
    else Some(DaysFromCivil(year, f.month, f.day) * 86400 + f.hour * 3600 + f.minute * 60 + f.second)
  }

  function WithoutWeekday(text: string): string {
    var value := Trim(text);
    var comma := Find(value, ',');
    if comma == |value| then value else Trim(value[comma + 1..])
  }

  function ParsedDate(text: string): Option<int> {
    match TakeWords(NO_FIELDS, Words(WithoutWeekday(text), ""))
    case None => None
    case Some(f) => Conclude(f)
  }

  /** The splitting loop. */
  method Tokenize(value: string) returns (tokens: seq<string>)
    ensures tokens == Words(value, "")
  {
    tokens := [];
    var current := "";
    var i := 0;
    assert value[0..] == value;
    while i < |value|
      invariant 0 <= i <= |value|
      invariant Words(value, "") == tokens + Words(value[i..], current)
    {
      var c := value[i];
      assert value[i..][1..] == value[i + 1..];
      if Separator(c) {
        if current != "" {
          tokens := tokens + [current];
          current := "";
        }
      } else {
        current := current + [c];
      }
      i := i + 1;
    }
    if current != "" {
      tokens := tokens + [current];
    }
  }

  /** parseHttpDate, with its loop over the words. */
  method ParseHttpDate(text: string) returns (r: Option<int>)
    ensures r == ParsedDate(text)
  {
    var tokens := Tokenize(WithoutWeekday(text));
    var f := NO_FIELDS;
    var i := 0;
    assert tokens[0..] == tokens;
    while i < |tokens|
      invariant 0 <= i <= |tokens|
      invariant TakeWords(NO_FIELDS, tokens) == TakeWords(f, tokens[i..])
    {
      assert tokens[i..][1..] == tokens[i + 1..];
      var next := TakeWord(f, tokens[i]);
      if next == None {
        return None;
      }
      f := next.value;
      i := i + 1;
    }
    r := Conclude(f);
  }

  // ------------------------------------------------------------ round trips

  predicate Word(w: string) { w != "" && forall c :: c in w ==> !Separator(c) }

  lemma {:induction false} WordIsRead(w: string, s: string, current: string)
    requires forall c :: c in w ==> !Separator(c)
    ensures Words(w + s, current) == Words(s, current + w)
    decreases |w|
  {
    if w == "" {
      assert w + s == s && current + w == current;
    } else {
      assert (w + s)[1..] == w[1..] + s && w[0] in w;
      assert forall c :: c in w[1..] ==> c in w;
      WordIsRead(w[1..], s, current + [w[0]]);
      assert (current + [w[0]]) + w[1..] == current + w;
    }
  }

  lemma FirstWord(w: string, sep: char, s: string)
    requires Word(w) && Separator(sep)
    ensures Words(w + [sep] + s, "") == [w] + Words(s, "")
  {
    assert w + [sep] + s == w + ([sep] + s) && "" + w == w;
    WordIsRead(w, [sep] + s, "");
    assert ([sep] + s)[1..] == s;
  }

  lemma LastWord(w: string)
    requires Word(w)
    ensures Words(w, "") == [w]
  {
    assert w + "" == w && "" + w == w;
    WordIsRead(w, "", "");
  }

  lemma LeadingSeparator(sep: char, s: string)
    requires Separator(sep)
    ensures Words([sep] + s, "") == Words(s, "")
  {
    assert ([sep] + s)[1..] == s;
  }

  lemma ThreeWords(a: string, b: string, c: string)
    requires Word(a) && Word(b) && Word(c)
    ensures Words(a + " " + b + " " + c, "") == [a, b, c]
  {
    hide Words, Word;
    var tail := b + " " + c;
    assert a + " " + b + " " + c == a + [' '] + tail && tail == b + [' '] + c;
    FirstWord(a, ' ', tail);
    FirstWord(b, ' ', c);
    LastWord(c);
  }

  lemma FiveWords(a: string, s1: char, b: string, s2: char, c: string, d: string, e: string)
    requires Word(a) && Word(b) && Word(c) && Word(d) && Word(e) && Separator(s1) && Separator(s2)
    ensures Words(a + [s1] + b + [s2] + c + " " + d + " " + e, "") == [a, b, c, d, e]
  {
    hide Words, Word;
    var tail := c + " " + d + " " + e;
    var more := b + [s2] + tail;
    assert a + [s1] + b + [s2] + c + " " + d + " " + e == a + [s1] + more;
    ThreeWords(c, d, e);
    FirstWord(b, s2, tail);
    FirstWord(a, s1, more);
  }

  lemma DigitsAreWords(s: string)
    requires IsDigitString(s)
    ensures Word(s) && ':' !in s && s != "GMT" && s != "UTC" && ',' !in s && Trimmed(s)
  {
    assert IsDigit(s[0]);
  }

  lemma TwoDigits(n: nat)
    requires n < 100
    ensures |Two(n)| == 2 && IsDigitString(Two(n)) && DecimalValue(Two(n)) == n
  {
    var s := Two(n);
    var tens := [Digit(n / 10)];
    assert s[..1] == tens && tens[..0] == "";
    assert DecimalValue(tens) == n / 10;
    assert DecimalValue(s) == 10 * DecimalValue(tens) + n % 10;
  }

  lemma FourDigits(n: nat)
    requires 1000 <= n <= 9999
    ensures |ToDecimal(n)| == 4 && IsDigitString(ToDecimal(n)) && DecimalValue(ToDecimal(n)) == n
  {
    DecimalRoundTrip(n);
    assert |ToDecimal(n / 10 / 10 / 10)| == 1;
    assert |ToDecimal(n / 10 / 10)| == 2;
    assert |ToDecimal(n / 10)| == 3;
  }

  lemma DigitsThen(n: nat, rest: string)
    requires n < 100 && (rest != "" ==> !IsDigit(rest[0]))
    ensures ScanInt(Two(n) + rest) == Some((n, rest))
  {
    TwoDigits(n);
    DigitRunOf(Two(n), rest);
    var s := Two(n) + rest;
    assert IsDigit(s[0]);
    assert s[..2] == Two(n) && s[2..] == rest;
  }

  lemma ThreeNumbers(h: nat, m: nat, s: nat)
    requires h < 100 && m < 100 && s < 100
    ensures ScanClock(Two(h) + ":" + Two(m) + ":" + Two(s)) == Some((h, m, s))
  {
    hide Two, ScanInt;
    var tail1 := ":" + Two(s);
    var tail2 := ":" + (Two(m) + tail1);
    assert Two(h) + ":" + Two(m) + ":" + Two(s) == Two(h) + tail2;
    DigitsThen(h, tail2);
    assert tail2[1..] == Two(m) + tail1;
    DigitsThen(m, tail1);
    assert tail1[1..] == Two(s) + "";
    DigitsThen(s, "");
  }

  /** A printed clock is one word, and scanning it gives hour, minute and second. */
  lemma ClockIsScanned(t: nat)
    requires t < 86400
    ensures Word(Clock(t)) && ':' in Clock(t) && ',' !in Clock(t) && Trimmed(Clock(t))
    ensures ScanClock(Clock(t)) == Some((t / 3600, t / 60 % 60, t % 60))
  {
    hide Two, ScanClock;
    var h, m, s := t / 3600, t / 60 % 60, t % 60;
    TwoDigits(h);
    TwoDigits(m);
    TwoDigits(s);
    ThreeNumbers(h, m, s);
    ClockText(Two(h), Two(m), Two(s));
  }

  lemma ClockText(h: string, m: string, s: string)
    requires IsDigitString(h) && IsDigitString(m) && IsDigitString(s)
    ensures var c := h + ":" + m + ":" + s; Word(c) && ':' in c && ',' !in c && Trimmed(c)
  {
    var c := h + ":" + m + ":" + s;
    assert c[|h|] == ':' && IsDigit(c[0]) && IsDigit(c[|c| - 1]);
    forall x | x in c ensures IsDigit(x) || x == ':' {}
  }

  ghost predicate Letters(s: string) { s != "" && forall c :: c in s ==> 'A' <= c <= 'z' }

  lemma LettersAreWords(s: string)
    requires Letters(s)
    ensures Word(s) && ':' !in s && ',' !in s && !IsDigitString(s) && Trimmed(s)
  {
    assert s[0] in s && s[|s| - 1] in s;
    assert !IsDigit(s[0]);
  }

  lemma NamesAreLetters(i: nat)
    ensures i < 12 ==> Letters(MONTHS[i]) && MONTHS[i] != "GMT" && MONTHS[i] != "UTC"
    ensures i < 7 ==> Letters(WEEKDAYS[i]) && WEEKDAYS[i] != "GMT" && WEEKDAYS[i] != "UTC"
    ensures i < 7 ==> Letters(LONG_WEEKDAYS[i])
  {}

  lemma MonthsAreDistinct(i: nat, j: nat)
    requires i < j < 12
    ensures MONTHS[i] != MONTHS[j]
  {}

  lemma MonthIsFound(i: nat)
    requires i < 12
    ensures MonthIndex(MONTHS[i], 0) == i
  {
    var k := MonthIndex(MONTHS[i], 0);
    if k < i && k < 12 { MonthsAreDistinct(k, i); }
  }

  lemma WeekdayIsNoMonth(w: nat, i: nat)
    requires w < 7 && i < 12
    ensures WEEKDAYS[w] != MONTHS[i]
  {}

  lemma WeekdayIsSkipped(w: nat)
    requires w < 7
    ensures TakeWord(NO_FIELDS, WEEKDAYS[w]) == Some(NO_FIELDS)
  {
    NamesAreLetters(w);
    LettersAreWords(WEEKDAYS[w]);
    var k := MonthIndex(WEEKDAYS[w], 0);
    if k < 12 { WeekdayIsNoMonth(w, k); }
  }

  // ------------------------------------------------ what each word adds

  lemma NumberIsTaken(f: Fields, token: string, n: nat)
    requires IsDigitString(token) && DecimalValue(token) == n
    ensures TakeWord(f, token) == Some(
      if n > 31 || |token| == 4 then f.(year := n) else if f.day == 0 then f.(day := n) else f.(year := n))
  {
    DigitsAreWords(token);
  }

  lemma MonthIsTaken(f: Fields, i: nat)
    requires i < 12
    ensures TakeWord(f, MONTHS[i]) == Some(f.(month := i + 1))
  {
    NamesAreLetters(i);
    LettersAreWords(MONTHS[i]);
    MonthIsFound(i);
  }

  lemma ClockIsTaken(f: Fields, t: nat)
    requires t < 86400
    ensures TakeWord(f, Clock(t)) == Some(f.(hour := t / 3600, minute := t / 60 % 60, second := t % 60, hasTime := true))
  {
    ClockIsScanned(t);
  }

  lemma TakeFive(f0: Fields, f1: Fields, f2: Fields, f3: Fields, f4: Fields, f5: Fields,
                 a: string, b: string, c: string, d: string, e: string)
    requires TakeWord(f0, a) == Some(f1) && TakeWord(f1, b) == Some(f2) && TakeWord(f2, c) == Some(f3)
    requires TakeWord(f3, d) == Some(f4) && TakeWord(f4, e) == Some(f5)
    ensures TakeWords(f0, [a, b, c, d, e]) == Some(f5)
  {
    hide TakeWord;
    assert [a, b, c, d, e][1..] == [b, c, d, e] && [b, c, d, e][1..] == [c, d, e] && [c, d, e][1..] == [d, e];
    assert [d, e][1..] == [e] && [e][1..] == [];
    assert TakeWords(f5, []) == Some(f5);
    assert TakeWords(f4, [e]) == Some(f5);
    assert TakeWords(f3, [d, e]) == Some(f5);
    assert TakeWords(f2, [c, d, e]) == Some(f5);
    assert TakeWords(f1, [b, c, d, e]) == Some(f5);
  }

  /** Everything a complete date says about t. */
  function FieldsOf(t: nat): Fields {
    var d, s := DateOf(t), t % 86400;
    Fields(d.year, d.month, d.day, s / 3600, s / 60 % 60, s % 60, true)
  }

  lemma FieldsDetermineTime(t: nat)
    ensures Conclude(FieldsOf(t)) == Some(t)
  {
    var d, s := DateOf(t), t % 86400;
    DayCountIsExact(d);
    assert s == s / 3600 * 3600 + s / 60 % 60 * 60 + s % 60;
    hide DaysFromCivil, DayNumber, DateOf;
  }

  lemma WeekdayIsDropped(w: string, rest: string)
    requires w != "" && ',' !in w && Trimmed(w) && Trimmed(rest) && rest != ""
    ensures WithoutWeekday(w + ", " + rest) == rest
  {
    var text := w + ", " + rest;
    assert text[0] == w[0] && text[|text| - 1] == rest[|rest| - 1];
    TrimOfTrimmed(text);
    assert text[|w|] == ',' && forall j :: 0 <= j < |w| ==> text[j] == w[j];
    FindIs(text, ',', |w|);
    assert text[|w| + 1..] == " " + rest;
    TrimPadded(" ", rest, "");
    assert " " + rest + "" == " " + rest;
  }

  lemma GmtIsTaken(f: Fields)
    ensures TakeWord(f, "GMT") == Some(f)
  {
    LettersAreWords("GMT");
  }

  lemma OneDigit(n: nat)
    requires n < 10
    ensures IsDigitString([Digit(n)]) && DecimalValue([Digit(n)]) == n
  {
    assert [Digit(n)][..0] == "";
  }

  /** A piece of a date: one word without a comma, and no blank at its ends. */
  ghost predicate Piece(s: string) { Word(s) && ',' !in s && Trimmed(s) }

  lemma DatePieces(t: nat)
    ensures var d := DateOf(t);
      && Piece(Two(d.day)) && Piece(MONTHS[d.month - 1]) && Piece(Two(d.year % 100)) && Piece(Clock(t % 86400))
      && Piece(WEEKDAYS[WeekdayOf(t)]) && Piece(LONG_WEEKDAYS[WeekdayOf(t)]) && Piece("GMT")
      && (d.day < 10 ==> Piece([Digit(d.day)])) && (d.year <= 9999 ==> Piece(ToDecimal(d.year)))
  {
    hide DateOf, Two, Clock, ToDecimal;
    var d := DateOf(t);
    TwoDigits(d.day);
    TwoDigits(d.year % 100);
    DigitsAreWords(Two(d.day));
    DigitsAreWords(Two(d.year % 100));
    if d.day < 10 {
      OneDigit(d.day);
      DigitsAreWords([Digit(d.day)]);
    }
    if d.year <= 9999 {
      FourDigits(d.year);
      DigitsAreWords(ToDecimal(d.year));
    }
    NamesAreLetters(d.month - 1);
    NamesAreLetters(WeekdayOf(t));
    LettersAreWords(MONTHS[d.month - 1]);
    LettersAreWords(WEEKDAYS[WeekdayOf(t)]);
    LettersAreWords(LONG_WEEKDAYS[WeekdayOf(t)]);
    LettersAreWords("GMT");
    ClockIsScanned(t % 86400);
  }

  /** The words of "weekday, day month year clock GMT". */
  lemma DatedWords(w: string, day: string, sep: char, month: string, year: string, clock: string)
    requires Piece(w) && Piece(day) && Piece(month) && Piece(year) && Piece(clock) && Piece("GMT") && Separator(sep)
    ensures Words(WithoutWeekday(w + ", " + day + [sep] + month + [sep] + year + " " + clock + " GMT"), "")
         == [day, month, year, clock, "GMT"]
  {
    hide Words, WithoutWeekday, Word, Trimmed;
    var middle := [sep] + month + [sep] + year + " " + clock + " ";
    var rest := day + [sep] + month + [sep] + year + " " + clock + " " + "GMT";
    NonEmptyPiece(w);
    FiveWords(day, sep, month, sep, year, clock, "GMT");
    assert rest == day + middle + "GMT";
    JoinedEnds(day, middle, "GMT");
    WeekdayIsDropped(w, rest);
    assert w + ", " + day + [sep] + month + [sep] + year + " " + clock + " GMT" == w + ", " + rest;
  }

  lemma JoinedEnds(a: string, middle: string, b: string)
    requires Piece(a) && Piece(b)
    ensures Trimmed(a + middle + b) && a + middle + b != ""
  {
    var s := a + middle + b;
    assert s[0] == a[0] && s[|s| - 1] == b[|b| - 1];
  }

  lemma NonEmptyPiece(s: string)
    requires Piece(s)
    ensures s != ""
  {}

  /** Day, month, year, clock and GMT, in this order, with a four-digit year. */
  lemma FullFields(t: nat)
    requires DateOf(t).year <= 9999
    ensures var d := DateOf(t);
      TakeWords(NO_FIELDS, [Two(d.day), MONTHS[d.month - 1], ToDecimal(d.year), Clock(t % 86400), "GMT"])
      == Some(FieldsOf(t))
  {
    hide TakeWord, TakeWords, Clock, Two, ToDecimal, DateOf;
    var d := DateOf(t);
    var f1 := NO_FIELDS.(day := d.day);
    var f2 := f1.(month := d.month);
    var f3 := f2.(year := d.year);
    TwoDigits(d.day);
    FourDigits(d.year);
    NumberIsTaken(NO_FIELDS, Two(d.day), d.day);
    MonthIsTaken(f1, d.month - 1);
    NumberIsTaken(f2, ToDecimal(d.year), d.year);
    ClockIsTaken(f3, t % 86400);
    GmtIsTaken(FieldsOf(t));
    TakeFive(NO_FIELDS, f1, f2, f3, FieldsOf(t), FieldsOf(t),
             Two(d.day), MONTHS[d.month - 1], ToDecimal(d.year), Clock(t % 86400), "GMT");
  }

  /** IMF-FIXDATE ROUND TRIP: for every second of the years up to 9999. */
  lemma HttpDateRoundTrip(t: nat)
    requires DateOf(t).year <= 9999
    ensures ParsedDate(FormatHttpDate(t)) == Some(t)
  {
    hide Words, TakeWords, Conclude, WithoutWeekday, Clock, Two, ToDecimal, DateOf, Piece;
    var d := DateOf(t);
    DatePieces(t);
    assert [' '] == " ";
    DatedWords(WEEKDAYS[WeekdayOf(t)], Two(d.day), ' ', MONTHS[d.month - 1], ToDecimal(d.year), Clock(t % 86400));
    FullFields(t);
    FieldsDetermineTime(t);
  }

  /** The text of an IMF-fixdate with any two-digit numbers in it. */
  function Fixdate(w: nat, day: nat, m: nat, year: nat, h: nat, mi: nat, s: nat): string
    requires w < 7 && m < 12 && day < 100 && h < 100 && mi < 100 && s < 100
  {
    WEEKDAYS[w] + ", " + Two(day) + " " + MONTHS[m] + " " + ToDecimal(year) + " "
    + (Two(h) + ":" + Two(mi) + ":" + Two(s)) + " GMT"
  }

  function FixdateFields(day: nat, m: nat, year: nat, h: nat, mi: nat, s: nat): Fields {
    Fields(year, m + 1, if day > 31 then 0 else day, h, mi, s, true)
  }

  lemma FixdateWords(w: nat, day: nat, m: nat, year: nat, h: nat, mi: nat, s: nat)
    requires w < 7 && m < 12 && day < 100 && h < 100 && mi < 100 && s < 100 && 1000 <= year <= 9999
    ensures Words(WithoutWeekday(Fixdate(w, day, m, year, h, mi, s)), "")
         == [Two(day), MONTHS[m], ToDecimal(year), Two(h) + ":" + Two(mi) + ":" + Two(s), "GMT"]
  {
    hide Words, WithoutWeekday, Two, ToDecimal, Word, Trimmed;
    TwoDigits(day);
    TwoDigits(h);
    TwoDigits(mi);
    TwoDigits(s);
    FourDigits(year);
    DigitsAreWords(Two(day));
    DigitsAreWords(ToDecimal(year));
    NamesAreLetters(m);
    NamesAreLetters(w);
    LettersAreWords(MONTHS[m]);
    LettersAreWords(WEEKDAYS[w]);
    LettersAreWords("GMT");
    ClockText(Two(h), Two(mi), Two(s));
    assert [' '] == " ";
    DatedWords(WEEKDAYS[w], Two(day), ' ', MONTHS[m], ToDecimal(year), Two(h) + ":" + Two(mi) + ":" + Two(s));
  }

  lemma FixdateIsTaken(day: nat, m: nat, year: nat, h: nat, mi: nat, s: nat)
    requires m < 12 && day < 100 && h < 100 && mi < 100 && s < 100 && 1000 <= year <= 9999
    ensures TakeWords(NO_FIELDS, [Two(day), MONTHS[m], ToDecimal(year), Two(h) + ":" + Two(mi) + ":" + Two(s), "GMT"])
         == Some(FixdateFields(day, m, year, h, mi, s))
  {
    hide TakeWord, TakeWords, Two, ToDecimal, DecimalValue, IsDigitString;
    var f1 := if day > 31 then NO_FIELDS.(year := day) else NO_FIELDS.(day := day);
    var f2 := f1.(month := m + 1);
    var f3 := f2.(year := year);
    var f4 := FixdateFields(day, m, year, h, mi, s);
    TwoDigits(day);
    FourDigits(year);
    NumberIsTaken(NO_FIELDS, Two(day), day);
    MonthIsTaken(f1, m);
    NumberIsTaken(f2, ToDecimal(year), year);
    NumbersAreTaken(f3, h, mi, s);
    GmtIsTaken(f4);
    TakeFive(NO_FIELDS, f1, f2, f3, f4, f4,
             Two(day), MONTHS[m], ToDecimal(year), Two(h) + ":" + Two(mi) + ":" + Two(s), "GMT");
  }

  lemma NumbersAreTaken(f: Fields, h: nat, mi: nat, s: nat)
    requires h < 100 && mi < 100 && s < 100
    ensures TakeWord(f, Two(h) + ":" + Two(mi) + ":" + Two(s))
         == Some(f.(hour := h, minute := mi, second := s, hasTime := true))
  {
    hide Two, ScanClock;
    TwoDigits(h);
    TwoDigits(mi);
    TwoDigits(s);
    ClockText(Two(h), Two(mi), Two(s));
    ThreeNumbers(h, mi, s);
  }

  /** EXACT ACCEPTANCE. With any numbers in it, a date of this form is accepted if and only if
      the day is 1 to 31 - in every month - and the clock shows a time of day, the leap second
      :60 included; the weekday is not looked at. A date there is gets its day number. */
  lemma FixdateIsExact(w: nat, day: nat, m: nat, year: nat, h: nat, mi: nat, s: nat)
    requires w < 7 && m < 12 && day < 100 && h < 100 && mi < 100 && s < 100 && 1000 <= year <= 9999
    ensures var r := ParsedDate(Fixdate(w, day, m, year, h, mi, s));
      && (r.Some? <==> 1 <= day <= 31 && h <= 23 && mi <= 59 && s <= 60)
      && (r.Some? && ValidDate(Date(year, m + 1, day)) ==>
            r.value == DayNumber(Date(year, m + 1, day)) * 86400 + h * 3600 + mi * 60 + s)
  {
    hide Words, TakeWords, WithoutWeekday, Fixdate, DaysFromCivil, DayNumber, ValidDate, Two, ToDecimal;
    FixdateWords(w, day, m, year, h, mi, s);
    FixdateIsTaken(day, m, year, h, mi, s);
    if ValidDate(Date(year, m + 1, day)) { DayCountIsExact(Date(year, m + 1, day)); }
  }

  // ------------------------------------------------------- the printed form

  /** The fixed places of an IMF-fixdate (section 5.6.7 of RFC 9110). */
  predicate FixdateLayout(s: string) {
    && |s| == 29 && s[..3] in WEEKDAYS && s[3..5] == ", " && s[7] == ' ' && s[8..11] in MONTHS
    && s[11] == ' ' && s[16] == ' ' && s[19] == ':' && s[22] == ':' && s[25..] == " GMT"
    && IsDigitString(s[5..7]) && IsDigitString(s[12..16])
    && IsDigitString(s[17..19]) && IsDigitString(s[20..22]) && IsDigitString(s[23..25])
  }

  lemma LayoutOf(w: string, day: string, month: string, year: string, h: string, m: string, s: string)
    requires w in WEEKDAYS && month in MONTHS && |w| == |month| == 3
    requires IsDigitString(day) && IsDigitString(year) && IsDigitString(h) && IsDigitString(m) && IsDigitString(s)
    requires |day| == |h| == |m| == |s| == 2 && |year| == 4
    ensures FixdateLayout(w + ", " + day + " " + month + " " + year + " " + (h + ":" + m + ":" + s) + " GMT")
  {
    hide IsDigitString;
    var text := w + ", " + day + " " + month + " " + year + " " + (h + ":" + m + ":" + s) + " GMT";
    assert text[..3] == w && text[5..7] == day && text[8..11] == month && text[12..16] == year;
    assert text[17..19] == h && text[20..22] == m && text[23..25] == s;
  }

  lemma NamesAreShort(w: nat, m: nat)
    requires w < 7 && m < 12
    ensures |WEEKDAYS[w]| == |MONTHS[m]| == 3
  {}

  lemma HttpDateLayout(t: nat)
    requires DateOf(t).year <= 9999
    ensures FixdateLayout(FormatHttpDate(t)) && FormatHttpDate(t)[..3] == WEEKDAYS[WeekdayOf(t)]
  {
    hide FixdateLayout, Two, ToDecimal, DateOf, IsDigitString;
    var d, c := DateOf(t), t % 86400;
    TwoDigits(d.day);
    FourDigits(d.year);
    TwoDigits(c / 3600);
    TwoDigits(c / 60 % 60);
    TwoDigits(c % 60);
    NamesAreShort(WeekdayOf(t), d.month - 1);
    LayoutOf(WEEKDAYS[WeekdayOf(t)], Two(d.day), MONTHS[d.month - 1], ToDecimal(d.year),
             Two(c / 3600), Two(c / 60 % 60), Two(c % 60));
  }

  /** The weekday printed for a day is followed on the next day by the next one of the week. */
  lemma WeekdaysFollow(t: nat, w: nat)
    requires DateOf(t + 86400).year <= 9999 && DateOf(t).year <= 9999 && w < 7
    ensures FormatHttpDate(t)[..3] == WEEKDAYS[w] ==> FormatHttpDate(t + 86400)[..3] == WEEKDAYS[(w + 1) % 7]
  {
    hide FormatHttpDate, DateOf, FixdateLayout, WeekdayOf;
    HttpDateLayout(t);
    HttpDateLayout(t + 86400);
    WeekdaysDiffer(w, WeekdayOf(t));
    NextWeekday(t);
  }

  lemma NextWeekday(t: nat)
    ensures WeekdayOf(t + 86400) == (WeekdayOf(t) + 1) % 7
  {}

  lemma WeekdaysDiffer(v: nat, w: nat)
    requires v < 7 && w < 7
    ensures WEEKDAYS[v] == WEEKDAYS[w] <==> v == w
  {}

  /** The example of RFC 9110, section 5.6.7, in its parts: a Sunday. */
  lemma ExampleDate()
    ensures FormatHttpDate(784111777)
         == "Sun" + ", " + "06" + " " + "Nov" + " " + "1994" + " " + "08:49:37" + " GMT"
  {
    ExampleDay();
    ExampleClock();
    ExampleNames();
    hide DateOf, Clock, Two, ToDecimal, WeekdayOf;
  }

  lemma ExampleNames()
    ensures WeekdayOf(784111777) == 0 && 784111777 % 86400 == 31777
    ensures WEEKDAYS[0] == "Sun" && MONTHS[10] == "Nov"
  {}

  lemma ExampleDay()
    ensures DateOf(784111777) == Date(1994, 11, 6)
    ensures Two(6) == "06" && ToDecimal(1994) == "1994"
  {
    var d := Date(1994, 11, 6);
    assert DaysFromCivil(1994, 11, 6) == 9075;
    assert ToDecimal(19) == "19" && ToDecimal(199) == "199";
    DayCountIsExact(d);
    hide DayNumber, DaysFromCivil;
    SameDay(DateOf(784111777), d);
  }

  lemma ExampleClock()
    ensures Clock(31777) == "08:49:37"
  {
    assert Two(8) == "08" && Two(49) == "49" && Two(37) == "37";
  }

  lemma SameDay(a: Date, b: Date)
    requires ValidDate(a) && ValidDate(b) && DayNumber(a) == DayNumber(b)
    ensures a == b
  {
    hide DayNumber, ValidDate;
    if Earlier(a, b) { DayNumbersGrow(a, b); }
    if Earlier(b, a) { DayNumbersGrow(b, a); }
  }

  /** The words of "weekday month day clock year", with one or two blanks before the day. */
  lemma AsctimeWords(w: string, month: string, pad: string, day: string, clock: string, year: string)
    requires Piece(w) && Piece(month) && Piece(day) && Piece(clock) && Piece(year) && (pad == "" || pad == " ")
    ensures Words(WithoutWeekday(w + " " + month + " " + (pad + day) + " " + clock + " " + year), "")
         == [w, month, day, clock, year]
  {
    hide Words, WithoutWeekday, Word, Trimmed;
    var tail := day + " " + clock + " " + year;
    var padded := pad + tail;
    var text := w + " " + month + " " + (pad + day) + " " + clock + " " + year;
    ThreeWords(day, clock, year);
    LeadingSeparator(' ', tail);
    assert padded == if pad == "" then tail else [' '] + tail;
    FirstWord(month, ' ', padded);
    FirstWord(w, ' ', month + [' '] + padded);
    AsctimeShape(w, month, pad, day, clock, year);
    JoinedEnds(w, " " + month + " " + (pad + day) + " " + clock + " ", year);
    NoCommas(w, month, pad + day, clock, year);
    NoWeekdayToDrop(text);
  }

  lemma AsctimeShape(w: string, month: string, pad: string, day: string, clock: string, year: string)
    ensures var text := w + " " + month + " " + (pad + day) + " " + clock + " " + year;
      && text == w + [' '] + (month + [' '] + (pad + (day + " " + clock + " " + year)))
      && text == w + (" " + month + " " + (pad + day) + " " + clock + " ") + year
  {}

  lemma NoCommas(a: string, b: string, c: string, d: string, e: string)
    requires ',' !in a && ',' !in b && ',' !in c && ',' !in d && ',' !in e
    ensures ',' !in a + " " + b + " " + c + " " + d + " " + e
  {}

  lemma NoWeekdayToDrop(text: string)
    requires Trimmed(text) && ',' !in text
    ensures WithoutWeekday(text) == text
  {
    TrimOfTrimmed(text);
    FindMissing(text, ',');
  }

  lemma WordsInAsctimeOrder(w: nat, m: nat, day: string, n: nat, seconds: nat, year: string, y: nat)
    requires w < 7 && m < 12 && seconds < 86400 && 1 <= n <= 31 && |day| <= 2 && |year| == 4
    requires IsDigitString(day) && DecimalValue(day) == n && IsDigitString(year) && DecimalValue(year) == y
    ensures TakeWords(NO_FIELDS, [WEEKDAYS[w], MONTHS[m], day, Clock(seconds), year])
         == Some(Fields(y, m + 1, n, seconds / 3600, seconds / 60 % 60, seconds % 60, true))
  {
    hide TakeWord, TakeWords, Clock, DecimalValue, IsDigitString;
    var f2 := NO_FIELDS.(month := m + 1);
    var f3 := f2.(day := n);
    var f4 := f3.(hour := seconds / 3600, minute := seconds / 60 % 60, second := seconds % 60, hasTime := true);
    WeekdayIsSkipped(w);
    MonthIsTaken(NO_FIELDS, m);
    NumberIsTaken(f2, day, n);
    ClockIsTaken(f3, seconds);
    NumberIsTaken(f4, year, y);
    TakeFive(NO_FIELDS, NO_FIELDS, f2, f3, f4, f4.(year := y), WEEKDAYS[w], MONTHS[m], day, Clock(seconds), year);
  }

  lemma AsctimeFields(t: nat, day: string)
    requires DateOf(t).year <= 9999 && IsDigitString(day) && DecimalValue(day) == DateOf(t).day && |day| <= 2
    ensures var d := DateOf(t);
      TakeWords(NO_FIELDS, [WEEKDAYS[WeekdayOf(t)], MONTHS[d.month - 1], day, Clock(t % 86400), ToDecimal(d.year)])
      == Some(FieldsOf(t))
  {
    hide TakeWords, Clock, ToDecimal, DateOf, DecimalValue, IsDigitString;
    var d := DateOf(t);
    FourDigits(d.year);
    WordsInAsctimeOrder(WeekdayOf(t), d.month - 1, day, d.day, t % 86400, ToDecimal(d.year), d.year);
  }

  /** ASCTIME ROUND TRIP. */
  lemma AsctimeRoundTrip(t: nat)
    requires DateOf(t).year <= 9999
    ensures ParsedDate(FormatAsctime(t)) == Some(t)
  {
    hide Words, TakeWords, Conclude, WithoutWeekday, Clock, Two, ToDecimal, DateOf, Piece;
    var d := DateOf(t);
    var pad, day := if d.day < 10 then " " else "", if d.day < 10 then [Digit(d.day)] else Two(d.day);
    DatePieces(t);
    TwoDigits(d.day);
    if d.day < 10 { OneDigit(d.day); }
    assert pad + day == Padded(d.day);
    AsctimeWords(WEEKDAYS[WeekdayOf(t)], MONTHS[d.month - 1], pad, day, Clock(t % 86400), ToDecimal(d.year));
    AsctimeFields(t, day);
    FieldsDetermineTime(t);
  }

  lemma ShortYearFields(t: nat)
    ensures var d := DateOf(t);
      TakeWords(NO_FIELDS, [Two(d.day), MONTHS[d.month - 1], Two(d.year % 100), Clock(t % 86400), "GMT"])
      == Some(FieldsOf(t).(year := d.year % 100))
  {
    hide TakeWord, TakeWords, Clock, Two, DateOf;
    var d := DateOf(t);
    var yy := d.year % 100;
    var f1 := NO_FIELDS.(day := d.day);
    var f2 := f1.(month := d.month);
    var f3 := f2.(year := yy);
    var f4 := FieldsOf(t).(year := yy);
    TwoDigits(d.day);
    TwoDigits(yy);
    NumberIsTaken(NO_FIELDS, Two(d.day), d.day);
    MonthIsTaken(f1, d.month - 1);
    NumberIsTaken(f2, Two(yy), yy);
    ClockIsTaken(f3, t % 86400);
    GmtIsTaken(f4);
    TakeFive(NO_FIELDS, f1, f2, f3, f4, f4, Two(d.day), MONTHS[d.month - 1], Two(yy), Clock(t % 86400), "GMT");
  }

  /** RFC 850 DATES, with the exact condition: two digits name a year from 1970 to 2069, and
      the date comes back for all of them but 2000, whose "00" reads as "no year". */
  lemma Rfc850RoundTrip(t: nat)
    requires DateOf(t).year <= 2069
    ensures ParsedDate(FormatRfc850(t)) == if DateOf(t).year == 2000 then None else Some(t)
  {
    hide Words, TakeWords, Conclude, WithoutWeekday, Clock, Two, DateOf, Piece;
    var d := DateOf(t);
    DatePieces(t);
    assert ['-'] == "-";
    DatedWords(LONG_WEEKDAYS[WeekdayOf(t)], Two(d.day), '-', MONTHS[d.month - 1], Two(d.year % 100), Clock(t % 86400));
    ShortYearFields(t);
    ShortYearConcludes(t);
  }

  lemma ShortYear(y: int)
    requires 1970 <= y <= 2069
    ensures y < 2000 ==> y == 1900 + y % 100 && y % 100 >= 70
    ensures y >= 2000 ==> y == 2000 + y % 100 && y % 100 < 70
  {}

  lemma ShortYearConcludes(t: nat)
    requires DateOf(t).year <= 2069
    ensures Conclude(FieldsOf(t).(year := DateOf(t).year % 100))
         == if DateOf(t).year == 2000 then None else Some(t)
  {
    hide DateOf, DaysFromCivil;
    ShortYear(DateOf(t).year);
    FieldsDetermineTime(t);
  }
}
