// ngx_parse_http_time: the three forms of an HTTP date.

module HttpDate {
  const WORD := 0x1_0000_0000_0000_0000

  datatype Option<T> = None | Some(value: T)

  // month counts from 0.
  datatype Date = Date(year: nat, month: nat, day: nat, hour: nat, min: nat, sec: nat)

  predicate IsDigit(c: char) {
    '0' <= c <= '9'
  }

  function Val(c: char): nat
    requires IsDigit(c)
  {
    c as int - '0' as int
  }

  predicate Leap(year: nat) {
    year % 4 == 0 && (year % 100 != 0 || year % 400 == 0)
  }

  function MonthDays(month: nat): nat
    requires month < 12
  {
    [31, 28, 31, 30, 31, 30, 31, 31, 30, 31, 30, 31][month]
  }

  // The checks on the numbers of a date.
  predicate Valid(d: Date) {
    && d.month < 12 && d.hour <= 23 && d.min <= 59 && d.sec <= 59
    && if d.day == 29 && d.month == 1 then Leap(d.year) else d.day <= MonthDays(d.month)
  }

  // The March-based year and month, in unsigned arithmetic.
  function Shifted(d: Date): (r: (nat, nat))
    requires d.month < 12
    ensures 1 <= r.1 <= 12
  {
    if d.month <= 1 then ((d.year + WORD - 1) % WORD, d.month + 11) else (d.year, d.month - 1)
  }

  // Days in years including leap years.
  function Gregorian(y: nat): int {
    365 * y + y / 4 - y / 100 + y / 400
  }

  // The closed formula of the source.
  function Gauss(d: Date): nat
    requires d.month < 12
  {
    var (y, m) := Shifted(d);
    var days := Gregorian(y) + 367 * m / 12 - 30 + d.day - 1 - 719527 + 31 + 28;
    (days * 86400 + d.hour * 3600 + d.min * 60 + d.sec) % WORD
  }

  // Counting days from 1970 on, year by year and month by month.

  function YearDays(year: nat): nat {
    if Leap(year) then 366 else 365
  }

  function DaysTo(year: nat): nat
    requires year >= 1970
  {
    if year == 1970 then 0 else DaysTo(year - 1) + YearDays(year - 1)
  }

  function DaysIn(year: nat, month: nat): nat
    requires month <= 12
  {
    if month == 0 then 0
    else DaysIn(year, month - 1) + MonthDays(month - 1) + if month == 2 && Leap(year) then 1 else 0
  }

  function Counted(d: Date): int
    requires d.year >= 1970 && d.month < 12
  {
    (DaysTo(d.year) + DaysIn(d.year, d.month) + d.day - 1) * 86400 + d.hour * 3600 + d.min * 60 + d.sec
  }

  lemma {:induction false} NextYear(y: nat)
    ensures Gregorian(y + 1) == Gregorian(y) + YearDays(y + 1)
  {
    Quotient(y, 4);
    Quotient(y, 100);
    Quotient(y, 400);
    assert (y + 1) % 400 == 0 ==> (y + 1) % 100 == 0;
    assert (y + 1) % 100 == 0 ==> (y + 1) % 4 == 0;
  }

  lemma {:induction false} Quotient(y: nat, k: nat)
    requires k == 4 || k == 100 || k == 400
    ensures (y + 1) / k == y / k + if (y + 1) % k == 0 then 1 else 0
  {
  }

  // March 1 of a year in both ways of counting.
  lemma {:induction false} MarchFirst(y: nat)
    requires y >= 1970
    ensures Gregorian(y) - 719468 == DaysTo(y) + 59 + if Leap(y) then 1 else 0
  {
    if y > 1970 {
      MarchFirst(y - 1);
      NextYear(y - 1);
    }
  }

  lemma {:induction false} MonthStarts(year: nat)
    ensures DaysIn(year, 0) == 0 && DaysIn(year, 1) == 31
    ensures var l := if Leap(year) then 1 else 0;
            && DaysIn(year, 2) == 59 + l && DaysIn(year, 3) == 90 + l && DaysIn(year, 4) == 120 + l
                  && DaysIn(year, 5) == 151 + l
            && DaysIn(year, 6) == 181 + l && DaysIn(year, 7) == 212 + l && DaysIn(year, 8) == 243 + l
                  && DaysIn(year, 9) == 273 + l
            && DaysIn(year, 10) == 304 + l && DaysIn(year, 11) == 334 + l
  {
    assert DaysIn(year, 2) == DaysIn(year, 1) + 28 + if Leap(year) then 1 else 0;
    assert DaysIn(year, 3) == DaysIn(year, 2) + 31;
    assert DaysIn(year, 4) == DaysIn(year, 3) + 30;
    assert DaysIn(year, 5) == DaysIn(year, 4) + 31;
    assert DaysIn(year, 6) == DaysIn(year, 5) + 30;
    assert DaysIn(year, 7) == DaysIn(year, 6) + 31;
    assert DaysIn(year, 8) == DaysIn(year, 7) + 31;
    assert DaysIn(year, 9) == DaysIn(year, 8) + 30;
    assert DaysIn(year, 10) == DaysIn(year, 9) + 31;
    assert DaysIn(year, 11) == DaysIn(year, 10) + 30;
  }

  // The formula counts days.
  lemma {:induction false} GaussCounts(d: Date)
    requires Valid(d) && d.day >= 1 && 1970 <= d.year <= 9999
    ensures Gauss(d) == Counted(d)
  {
    hide Gregorian, DaysIn, DaysTo, Shifted;
    DaysGauss(d);
    InWord(d);
  }

  lemma {:induction false} DaysGauss(d: Date)
    requires Valid(d) && d.day >= 1 && 1970 <= d.year <= 9999
    ensures var (y, m) := Shifted(d);
            Gregorian(y) + 367 * m / 12 - 30 + d.day - 1 - 719527 + 31 + 28
                  == DaysTo(d.year) + DaysIn(d.year, d.month) + d.day - 1
  {
    MonthStarts(d.year);
    MarchFirst(d.year);
    if d.month <= 1 {
      assert (d.year + WORD - 1) % WORD == d.year - 1;
      NextYear(d.year - 1);
    }
  }

  lemma {:induction false} InWord(d: Date)
    requires Valid(d) && d.day >= 1 && 1970 <= d.year <= 9999
    ensures 0 <= Counted(d) < WORD
  {
    DaysBound(d.year);
    MonthStarts(d.year);
  }

  lemma {:induction false} DaysBound(y: nat)
    requires y >= 1970
    ensures DaysTo(y) <= 366 * (y - 1970)
  {
    if y > 1970 {
      DaysBound(y - 1);
    }
  }

  // The pieces of a date in a text

  function Two(s: string, i: nat): Option<nat>
    requires i + 2 <= |s|
  {
    if IsDigit(s[i]) && IsDigit(s[i + 1]) then Some(Val(s[i]) * 10 + Val(s[i + 1])) else None
  }

  function Four(s: string, i: nat): Option<nat>
    requires i + 4 <= |s|
  {
    var a, b := Two(s, i), Two(s, i + 2);
    if a.Some? && b.Some? then Some(a.value * 100 + b.value) else None
  }

  function MonthAt(s: string, i: nat): (m: Option<nat>)
    requires i + 3 <= |s|
    ensures m.Some? ==> m.value < 12
  {
    match s[i]
    case 'J' => Some(if s[i + 1] == 'a' then 0 else if s[i + 2] == 'n' then 5 else 6)
    case 'F' => Some(1)
    case 'M' => Some(if s[i + 2] == 'r' then 2 else 4)
    case 'A' => Some(if s[i + 1] == 'p' then 3 else 7)
    case 'S' => Some(8)
    case 'O' => Some(9)
    case 'N' => Some(10)
    case 'D' => Some(11)
    case _ => None
  }

  // "hh:mm:ss"
  function Clock(s: string, i: nat): Option<(nat, nat, nat)>
    requires i + 8 <= |s|
  {
    var h, m, c := Two(s, i), Two(s, i + 3), Two(s, i + 6);
    if h.Some? && m.Some? && c.Some? && s[i + 2] == ':' && s[i + 5] == ':' then Some((h.value, m.value, c.value))
        else None
  }

  function Made(y: Option<nat>, m: Option<nat>, d: Option<nat>, c: Option<(nat, nat, nat)>): Option<Date> {
    if y.Some? && m.Some? && d.Some? && c.Some? then
      Some(Date(y.value, m.value, d.value, c.value.0, c.value.1, c.value.2))
    else None
  }

  // "10 Nov 2002 23:50:13"
  function Rfc822At(s: string, p: nat): Option<Date>
    requires p + 20 <= |s|
  {
    if s[p + 2] == ' ' && s[p + 6] == ' ' && s[p + 11] == ' '
    then Made(Four(s, p + 7), MonthAt(s, p + 3), Two(s, p), Clock(s, p + 12)) else None
  }

  function Century(y: Option<nat>): Option<nat> {
    if y.None? then None else Some(y.value + if y.value < 70 then 2000 else 1900)
  }

  // "10-Dec-02 23:50:13"
  function Rfc850At(s: string, p: nat): Option<Date>
    requires p + 18 <= |s|
  {
    if s[p + 2] == '-' && s[p + 6] == '-' && s[p + 9] == ' '
    then Made(Century(Two(s, p + 7)), MonthAt(s, p + 3), Two(s, p), Clock(s, p + 10)) else None
  }

  // The day of the third form, with or without a space in front, and what follows it.
  function DayAt(s: string, q: nat): Option<(nat, nat)>
    requires q + 3 <= |s|
  {
    var r := if s[q] == ' ' then q + 1 else q;
    if !IsDigit(s[r]) then None
    else if s[r + 1] == ' ' then Some((Val(s[r]), r + 1))
    else if IsDigit(s[r + 1]) then Some((Val(s[r]) * 10 + Val(s[r + 1]), r + 2))
    else None
  }

  // "Dec 10 23:50:13 2002"
  function IsocAt(s: string, p: nat): Option<Date>
    requires p + 18 <= |s|
  {
    var d := DayAt(s, p + 4);
    if d.None? || |s| - d.value.1 < 14 then None
    else
      var q := d.value.1;
      if s[q] == ' ' && s[q + 9] == ' '
      then Made(Four(s, q + 10), MonthAt(s, p), Some(d.value.0), Clock(s, q + 1)) else None
  }

  // The first comma or space.
  function Mark(s: string, i: nat): (r: nat)
    requires i <= |s|
    ensures i <= r <= |s|
    decreases |s| - i
  {
    if i == |s| || s[i] == ',' || s[i] == ' ' then i else Mark(s, i + 1)
  }

  function Skip(s: string, i: nat): (r: nat)
    ensures i <= r
    decreases |s| - i
  {
    if i < |s| && s[i] == ' ' then Skip(s, i + 1) else i
  }

  function DateAt(s: string): Option<Date> {
    var k := Mark(s, 0);
    var p := Skip(s, k + 1);
    if |s| - p < 18 then None
    else if k < |s| && s[k] == ' ' then IsocAt(s, p)
    else if s[p + 2] == '-' then Rfc850At(s, p)
    else if |s| - p < 20 then None
    else Rfc822At(s, p)
  }

  function Parse(s: string): Option<nat> {
    var d := DateAt(s);
    if d.None? || !Valid(d.value) then None else Some(Gauss(d.value))
  }

  datatype Format = No | Rfc822 | Rfc850 | Isoc

  // ngx_parse_http_time: no read goes past the end of the value.
  method ParseHttpTime(value: string) returns (r: Option<nat>)
    ensures r == Parse(value)
  {
    hide Gauss, Clock, Two, Four, MonthAt, DayAt, Valid;
    var fmt, p, end := No, 0, |value|;
    while p < end
      invariant p <= end && fmt == No && Mark(value, 0) == Mark(value, p)
    {
      if value[p] == ',' {
        break;
      }
      if value[p] == ' ' {
        fmt := Isoc;
        break;
      }
      p := p + 1;
    }
    p := p + 1;
    while p < end
      invariant Skip(value, Mark(value, 0) + 1) == Skip(value, p)
    {
      if value[p] != ' ' {
        break;
      }
      p := p + 1;
    }
    if end - p < 18 {
      return None;
    }
    ghost var start := p;
    var day, year := 0, 0;
    if fmt != Isoc {
      var d := Two(value, p);
      if d == None {
        return None;
      }
      day := d.value;
      p := p + 2;
      if value[p] == ' ' {
        if end - p < 18 {
          return None;
        }
        fmt := Rfc822;
      } else if value[p] == '-' {
        fmt := Rfc850;
      } else {
        return None;
      }
      p := p + 1;
    }
    var month := MonthAt(value, p);
    if month == None {
      return None;
    }
    p := p + 3;
    if (fmt == Rfc822 && value[p] != ' ') || (fmt == Rfc850 && value[p] != '-') {
      return None;
    }
    p := p + 1;
    if fmt == Rfc822 {
      var y := Four(value, p);
      if y == None {
        return None;
      }
      year := y.value;
      p := p + 4;
    } else if fmt == Rfc850 {
      var y := Two(value, p);
      if y == None {
        return None;
      }
      year := y.value;
      year := year + if year < 70 then 2000 else 1900;
      p := p + 2;
    }
    if fmt == Isoc {
      var d := DayAt(value, p);
      if d == None {
        return None;
      }
      DayEnds(value, p);
      day, p := d.value.0, d.value.1;
      if end - p < 14 {
        return None;
      }
    }
    if value[p] != ' ' {
      return None;
    }
    p := p + 1;
    var c := Clock(value, p);
    if c == None {
      return None;
    }
    p := p + 6;
    if fmt == Isoc {
      p := p + 2;
      if value[p] != ' ' {
        return None;
      }
      p := p + 1;
      var y := Four(value, p);
      if y == None {
        return None;
      }
      year := y.value;
    }
    var d := Date(year, month.value, day, c.value.0, c.value.1, c.value.2);
    if !Valid(d) {
      return None;
    }
    return Some(Gauss(d));
  }

  lemma {:induction false} DayEnds(s: string, q: nat)
    requires q + 3 <= |s|
    ensures DayAt(s, q).Some? ==> q < DayAt(s, q).value.1 <= |s|
  {
  }

  // The three forms of section 7.1.1.1 of RFC 7231

  function Dig(n: nat): char
    requires n < 10
  {
    '0' + n as char
  }

  function Dec2(n: nat): (s: string)
    requires n < 100
    ensures |s| == 2
  {
    [Dig(n / 10), Dig(n % 10)]
  }

  function Dec4(n: nat): (s: string)
    requires n < 10000
    ensures |s| == 4
  {
    Dec2(n / 100) + Dec2(n % 100)
  }

  function MonthName(m: nat): (s: string)
    requires m < 12
    ensures |s| == 3
  {
    ["Jan", "Feb", "Mar", "Apr", "May", "Jun", "Jul", "Aug", "Sep", "Oct", "Nov", "Dec"][m]
  }

  function ClockText(d: Date): (s: string)
    requires Valid(d)
    ensures |s| == 8
  {
    Dec2(d.hour) + ":" + Dec2(d.min) + ":" + Dec2(d.sec)
  }

  predicate Usual(d: Date) {
    Valid(d) && 1 <= d.day && 1970 <= d.year < 10000
  }

  predicate DayName(name: string) {
    ',' !in name && ' ' !in name
  }

  // "Sun, 06 Nov 1994 08:49:37 GMT"
  function Imf(name: string, d: Date): string
    requires Usual(d)
  {
    name + ", " + (Dec2(d.day) + " " + MonthName(d.month) + " " + Dec4(d.year) + " " + ClockText(d) + " GMT")
  }

  // "Sunday, 06-Nov-94 08:49:37 GMT"
  function Obsolete850(name: string, d: Date): string
    requires Usual(d)
  {
    name + ", " + (Dec2(d.day) + "-" + MonthName(d.month) + "-" + Dec2(d.year % 100) + " " + ClockText(d) + " GMT")
  }

  // "Sun Nov  6 08:49:37 1994"
  function Asctime(name: string, d: Date): string
    requires Usual(d)
  {
    name + " " + (MonthName(d.month) + " " + (if d.day < 10 then [' ', Dig(d.day)] else Dec2(d.day)) + " "
                  + ClockText(d) + " " + Dec4(d.year))
  }

  lemma {:induction false} DigBack(n: nat)
    requires n < 10
    ensures IsDigit(Dig(n)) && Val(Dig(n)) == n
  {
  }

  lemma {:induction false} TwoBack(s: string, i: nat, n: nat)
    requires i + 2 <= |s| && n < 100 && s[i..i + 2] == Dec2(n)
    ensures Two(s, i) == Some(n)
  {
    assert s[i] == s[i..i + 2][0] && s[i + 1] == s[i..i + 2][1];
    DigBack(n / 10);
    DigBack(n % 10);
  }

  lemma {:induction false} FourBack(s: string, i: nat, n: nat)
    requires i + 4 <= |s| && n < 10000 && s[i..i + 4] == Dec4(n)
    ensures Four(s, i) == Some(n)
  {
    hide Two, Dec2;
    assert s[i..i + 2] == Dec4(n)[..2] == Dec2(n / 100) && s[i + 2..i + 4] == Dec4(n)[2..] == Dec2(n % 100);
    TwoBack(s, i, n / 100);
    TwoBack(s, i + 2, n % 100);
  }

  lemma {:induction false} MonthBack(s: string, i: nat, m: nat)
    requires i + 3 <= |s| && m < 12 && s[i..i + 3] == MonthName(m)
    ensures MonthAt(s, i) == Some(m)
  {
    var t := MonthName(m);
    assert s[i] == t[0] && s[i + 1] == t[1] && s[i + 2] == t[2];
  }

  lemma {:induction false} ClockBack(s: string, i: nat, d: Date)
    requires i + 8 <= |s| && Valid(d) && s[i..i + 8] == ClockText(d)
    ensures Clock(s, i) == Some((d.hour, d.min, d.sec))
  {
    hide Two, Dec2;
    var t := ClockText(d);
    Slice(s, i, 8, 0, 2);
    Slice(s, i, 8, 3, 5);
    Slice(s, i, 8, 6, 8);
    assert t[..2] == Dec2(d.hour) && t[3..5] == Dec2(d.min) && t[6..8] == Dec2(d.sec);
    assert s[i + 2] == t[2] == ':' && s[i + 5] == t[5] == ':';
    TwoBack(s, i, d.hour);
    TwoBack(s, i + 3, d.min);
    TwoBack(s, i + 6, d.sec);
  }

  lemma {:induction false} Slice(s: string, i: nat, n: nat, a: nat, b: nat)
    requires i + n <= |s| && a <= b <= n
    ensures s[i..i + n][a..b] == s[i + a..i + b]
  {
    var x, y := s[i..i + n][a..b], s[i + a..i + b];
    forall k | 0 <= k < |x|
      ensures x[k] == y[k]
    {
      assert x[k] == s[i..i + n][a + k] == s[i + (a + k)];
    }
  }

  lemma {:induction false} MarkIs(s: string, k: nat, i: nat)
    requires i <= k < |s| && (s[k] == ',' || s[k] == ' ') && forall j | i <= j < k :: s[j] != ',' && s[j] != ' '
    ensures Mark(s, i) == k
    decreases k - i
  {
    if i < k {
      MarkIs(s, k, i + 1);
    }
  }

  lemma {:induction false} ImfBack(name: string, d: Date)
    requires Usual(d) && DayName(name)
    ensures DateAt(Imf(name, d)) == Some(d)
  {
    hide Two, Four, MonthAt, Clock, Dec2, Dec4, ClockText, MonthName, Mark, Skip;
    var s, p := Imf(name, d), |name| + 2;
    Front(name, ",", s);
    assert s[|name| + 1] == ' ';
    assert s[p..p + 2] == Dec2(d.day) && s[p + 2] == ' ' && s[p + 3..p + 6] == MonthName(d.month) && s[p + 6] == ' ';
    assert s[p + 7..p + 11] == Dec4(d.year) && s[p + 11] == ' ' && s[p + 12..p + 20] == ClockText(d);
    TwoBack(s, p, d.day);
    MonthBack(s, p + 3, d.month);
    FourBack(s, p + 7, d.year);
    ClockBack(s, p + 12, d);
    NotSpace(s, p, d.day);
    SkipOne(s, |name| + 1);
  }

  lemma {:induction false} ObsoleteBack(name: string, d: Date)
    requires Usual(d) && d.year < 2070 && DayName(name)
    ensures DateAt(Obsolete850(name, d)) == Some(d)
  {
    hide Two, Four, MonthAt, Clock, Dec2, Dec4, ClockText, MonthName, Mark, Skip;
    var s, p := Obsolete850(name, d), |name| + 2;
    Front(name, ",", s);
    assert s[|name| + 1] == ' ';
    assert s[p..p + 2] == Dec2(d.day) && s[p + 2] == '-' && s[p + 3..p + 6] == MonthName(d.month) && s[p + 6] == '-';
    assert s[p + 7..p + 9] == Dec2(d.year % 100) && s[p + 9] == ' ' && s[p + 10..p + 18] == ClockText(d);
    TwoBack(s, p, d.day);
    MonthBack(s, p + 3, d.month);
    TwoBack(s, p + 7, d.year % 100);
    ClockBack(s, p + 10, d);
    NotSpace(s, p, d.day);
    SkipOne(s, |name| + 1);
  }

  lemma {:induction false} FiveParts(s: string, front: string, month: string, day: string, clock: string, year: string)
    requires s == front + (month + " " + day + " " + clock + " " + year)
    requires |month| == 3 && |day| == 2 && |clock| == 8 && |year| == 4
    ensures var p := |front|;
            && |s| == p + 20 && s[p..p + 3] == month && s[p + 3] == ' ' && s[p + 4..p + 6] == day && s[p + 6] == ' '
            && s[p + 7..p + 15] == clock && s[p + 15] == ' ' && s[p + 16..p + 20] == year
  {
    var p := |front|;
    assert s == (front + month) + ([' '] + day) + ([' '] + clock) + ([' '] + year);
    assert s[p + 3..p + 6] == [' '] + day;
    assert s[p + 6..p + 15] == [' '] + clock;
    assert s[p + 15..p + 20] == [' '] + year;
  }

  lemma {:induction false} AsctimeBack(name: string, d: Date)
    requires Usual(d) && DayName(name)
    ensures DateAt(Asctime(name, d)) == Some(d)
  {
    hide Two, Four, MonthAt, Clock, Dec2, Dec4, ClockText, MonthName, Mark, Skip, DayAt;
    var s, p := Asctime(name, d), |name| + 1;
    var day := if d.day < 10 then [' ', Dig(d.day)] else Dec2(d.day);
    Front(name, " ", s);
    var tail := MonthName(d.month) + " " + day + " " + ClockText(d) + " " + Dec4(d.year);
    assert s == name + " " + tail;
    FiveParts(s, name + " ", MonthName(d.month), day, ClockText(d), Dec4(d.year));
    MonthBack(s, p, d.month);
    NameStarts(d.month);
    assert s[p] == MonthName(d.month)[0];
    DayBack(s, p + 4, d.day);
    ClockBack(s, p + 7, d);
    FourBack(s, p + 16, d.year);
    SkipNone(s, p);
  }

  // The weekday and what ends it.
  lemma {:induction false} Front(name: string, mark: string, s: string)
    requires DayName(name) && (mark == "," || mark == " ") && |s| > |name| && s[..|name| + 1] == name + mark
    ensures Mark(s, 0) == |name| && s[|name|] == mark[0]
  {
    assert forall j | 0 <= j <= |name| :: s[j] == s[..|name| + 1][j];
    MarkIs(s, |name|, 0);
  }

  lemma {:induction false} SkipNone(s: string, i: nat)
    requires i < |s| && s[i] != ' '
    ensures Skip(s, i) == i
  {
  }

  lemma {:induction false} SkipOne(s: string, i: nat)
    requires i + 1 < |s| && s[i] == ' ' && s[i + 1] != ' '
    ensures Skip(s, i) == i + 1
  {
    SkipNone(s, i + 1);
  }

  lemma {:induction false} NameStarts(m: nat)
    requires m < 12
    ensures MonthName(m)[0] != ' '
  {
  }

  lemma {:induction false} DayBack(s: string, q: nat, n: nat)
    requires q + 3 <= |s| && 0 < n < 100 && s[q + 2] == ' '
    requires s[q..q + 2] == if n < 10 then [' ', Dig(n)] else Dec2(n)
    ensures DayAt(s, q) == Some((n, q + 2))
  {
    assert s[q] == s[q..q + 2][0] && s[q + 1] == s[q..q + 2][1];
    DigBack(n / 10);
    DigBack(n % 10);
  }

  // Every date of the years 1970 to 2069 has one value in all three forms, and it is the
  // number of seconds counted from 1970; the first and third form reach to the year 9999.
  lemma {:induction false} OneValue(name: string, d: Date)
    requires Usual(d) && DayName(name)
    ensures Parse(Imf(name, d)) == Some(Counted(d)) == Parse(Asctime(name, d))
    ensures d.year < 2070 ==> Parse(Obsolete850(name, d)) == Some(Counted(d))
  {
    hide DateAt, Imf, Asctime, Obsolete850, Gauss;
    ImfBack(name, d);
    AsctimeBack(name, d);
    if d.year < 2070 {
      ObsoleteBack(name, d);
    }
    GaussCounts(d);
  }

  lemma {:induction false} NotSpace(s: string, i: nat, n: nat)
    requires i + 2 <= |s| && n < 100 && s[i..i + 2] == Dec2(n)
    ensures s[i] != ' '
  {
    assert s[i] == s[i..i + 2][0] == Dig(n / 10);
    DigBack(n / 10);
  }
}
