/** Parsing the three date formats of section 3.3.1 of RFC 2616 (src/http/ngx_http_parse_time.c). */
module ParseTime {
  import opened Bytes
  import opened Calendar

  type Text = seq<byte>

  const COMMA: byte := 44

  // ---------------------------------------------------------------- pieces

  /** The end of the day name. */
  function SkipName(v: Text, i: nat): (j: nat)
    requires i <= |v|
    ensures i <= j <= |v|
    decreases |v| - i
  {
    if i == |v| || v[i] == COMMA || v[i] == SPACE then i else SkipName(v, i + 1)
  }

  function SkipSpaces(v: Text, i: nat): (j: nat)
    requires i <= |v|
    ensures i <= j <= |v|
    decreases |v| - i
  {
    if i == |v| || v[i] != SPACE then i else SkipSpaces(v, i + 1)
  }

  /** Two decimal digits. */
  function Two(v: Text, i: nat): Option<nat>
    requires i + 1 < |v|
  {
    if IsDigit(v[i]) && IsDigit(v[i + 1]) then Some((v[i] - ZERO) * 10 + v[i + 1] - ZERO) else None
  }

  function Four(v: Text, i: nat): Option<nat>
    requires i + 3 < |v|
  {
    if IsDigit(v[i]) && IsDigit(v[i + 1]) && IsDigit(v[i + 2]) && IsDigit(v[i + 3]) then
      Some((v[i] - ZERO) * 1000 + (v[i + 1] - ZERO) * 100 + (v[i + 2] - ZERO) * 10 + v[i + 3] - ZERO)
    else None
  }

  /** The month; only as many letters are looked at as tell the months apart. */
  function Month(v: Text, i: nat): (m: Option<nat>)
    requires i + 2 < |v|
    ensures m.Some? ==> m.value < 12
  {
    match v[i]
    case 74 => Some(if v[i + 1] == 97 then 0 else if v[i + 2] == 110 then 5 else 6) // J
    case 70 => Some(1)                                                              // F
    case 77 => Some(if v[i + 2] == 114 then 2 else 4)                               // M
    case 65 => Some(if v[i + 1] == 112 then 3 else 7)                               // A
    case 83 => Some(8)                                                              // S
    case 79 => Some(9)                                                              // O
    case 78 => Some(10)                                                             // N
    case 68 => Some(11)                                                             // D
    case _ => None
  }

  datatype Clock = Clock(hour: nat, min: nat, sec: nat)

  /** A space and hh:mm:ss. */
  function ClockAt(v: Text, i: nat): Option<Clock>
    requires i + 8 < |v|
  {
    var hour, min, sec := Two(v, i + 1), Two(v, i + 4), Two(v, i + 7);
    if v[i] == SPACE && hour.Some? && v[i + 3] == COLON && min.Some? && v[i + 6] == COLON && sec.Some? then
      Some(Clock(hour.value, min.value, sec.value))
    else None
  }

  function Century(y: nat): nat {
    if y < 70 then y + 2000 else y + 1900
  }

  function Dated(year: Option<nat>, month: Option<nat>, day: Option<nat>, clock: Option<Clock>): Option<Date> {
    if year.Some? && month.Some? && day.Some? && clock.Some? then
      Some(Date(year.value, month.value, day.value, clock.value.hour, clock.value.min, clock.value.sec))
    else None
  }

  /** 10 Nov 2002 23:50:13 */
  function Rfc822(v: Text, p: nat): Option<Date>
    requires p + 20 <= |v|
  {
    if v[p + 6] != SPACE then None else Dated(Four(v, p + 7), Month(v, p + 3), Two(v, p), ClockAt(v, p + 11))
  }

  /** 10-Dec-02 23:50:13 */
  function Rfc850(v: Text, p: nat): Option<Date>
    requires p + 18 <= |v|
  {
    var year := Two(v, p + 7);
    if v[p + 6] != MINUS || year.None? then None
    else Dated(Some(Century(year.value)), Month(v, p + 3), Two(v, p), ClockAt(v, p + 9))
  }

  /** Dec 10 23:50:13 2002; the day may have one digit, after one or two spaces. */
  function Isoc(v: Text, p: nat): Option<Date>
    requires p + 18 <= |v|
  {
    var q := if v[p + 4] == SPACE then p + 5 else p + 4;
    if !IsDigit(v[q]) then None
    else if v[q + 1] == SPACE then IsocRest(v, Month(v, p), v[q] - ZERO, q + 1)
    else if !IsDigit(v[q + 1]) then None
    else IsocRest(v, Month(v, p), (v[q] - ZERO) * 10 + v[q + 1] - ZERO, q + 2)
  }

  function IsocRest(v: Text, month: Option<nat>, day: nat, q: nat): Option<Date> {
    if q + 14 > |v| || v[q + 9] != SPACE then None
    else Dated(Four(v, q + 10), month, Some(day), ClockAt(v, q))
  }

  /** What a date says, whichever format it is in. */
  function Fields(v: Text): Option<Date> {
    var i := SkipName(v, 0);
    if i == |v| then None
    else
      var p := SkipSpaces(v, i + 1);
      if p + 18 > |v| then None
      else if v[i] == SPACE then Isoc(v, p)
      else if v[p + 2] == SPACE then (if p + 20 > |v| then None else Rfc822(v, p))
      else if v[p + 2] == MINUS then Rfc850(v, p)
      else None
  }

  /** The time of a date that passes the checks. */
  function TimeOf(d: Option<Date>): Option<int> {
    if d.Some? && Accepted(d.value) then Some(Time(d.value)) else None
  }

  function Parsed(v: Text): Option<int> {
    TimeOf(Fields(v))
  }

  // ---------------------------------------------------------------- the code

  datatype Format = No | F822 | F850 | FIso

  /** ngx_http_parse_time; every byte it looks at lies within the value. */
  method Parse(v: Text) returns (r: Option<int>)
    ensures r == Parsed(v)
  {
    var p, fmt := 0, No;
    while p < |v| && v[p] != COMMA && v[p] != SPACE
      invariant 0 <= p <= |v| && SkipName(v, p) == SkipName(v, 0)
    {
      p := p + 1;
    }
    if p == |v| {
      return None;
    }
    if v[p] == SPACE {
      fmt := FIso;
    }
    ghost var i := p;
    p := p + 1;
    while p < |v| && v[p] == SPACE
      invariant i < p <= |v| && SkipSpaces(v, p) == SkipSpaces(v, i + 1)
    {
      p := p + 1;
    }
    if |v| - p < 18 {
      return None;
    }
    if fmt == FIso {
      r := ParseIsoc(v, p);
    } else {
      r := ParseDayFirst(v, p);
    }
  }

  method ParseDayFirst(v: Text, start: nat) returns (r: Option<int>)
    requires start + 18 <= |v|
    ensures var d :=
        if v[start + 2] == SPACE then (if start + 20 > |v| then None else Rfc822(v, start))
        else if v[start + 2] == MINUS then Rfc850(v, start) else None;
      r == TimeOf(d)
  {
    var p := start;
    if !IsDigit(v[p]) || !IsDigit(v[p + 1]) {
      return None;
    }
    var day := (v[p] - ZERO) * 10 + v[p + 1] - ZERO;
    p := p + 2;
    var fmt;
    if v[p] == SPACE {
      if |v| - p < 18 {
        return None;
      }
      fmt := F822;
    } else if v[p] == MINUS {
      fmt := F850;
    } else {
      return None;
    }
    p := p + 1;
    var month := Month(v, p);
    if month.None? {
      return None;
    }
    p := p + 3;
    if (fmt == F822 && v[p] != SPACE) || (fmt == F850 && v[p] != MINUS) {
      return None;
    }
    p := p + 1;
    var year;
    if fmt == F822 {
      var y := Four(v, p);
      if y.None? {
        return None;
      }
      year := y.value;
      p := p + 4;
    } else {
      var y := Two(v, p);
      if y.None? {
        return None;
      }
      year := y.value + if y.value < 70 then 2000 else 1900;
      p := p + 2;
    }
    var clock := ClockAt(v, p);
    if clock.None? {
      return None;
    }
    r := Checked(Date(year, month.value, day, clock.value.hour, clock.value.min, clock.value.sec));
  }

  method ParseIsoc(v: Text, start: nat) returns (r: Option<int>)
    requires start + 18 <= |v|
    ensures r == TimeOf(Isoc(v, start))
  {
    var p := start;
    var month := Month(v, p);
    if month.None? {
      return None;
    }
    p := p + 4;
    if v[p] == SPACE {
      p := p + 1;
    }
    if !IsDigit(v[p]) {
      return None;
    }
    var day := v[p] - ZERO;
    p := p + 1;
    if v[p] != SPACE {
      if !IsDigit(v[p]) {
        return None;
      }
      day := day * 10 + v[p] - ZERO;
      p := p + 1;
    }
    if |v| - p < 14 {
      return None;
    }
    r := ParseIsocEnd(v, p, month.value, day);
  }

  /** The time of day and the year. */
  method ParseIsocEnd(v: Text, start: nat, month: nat, day: nat) returns (r: Option<int>)
    requires start + 14 <= |v| && month < 12
    ensures r == TimeOf(IsocRest(v, Some(month), day, start))
  {
    var p := start;
    var clock := ClockAt(v, p);
    if clock.None? {
      return None;
    }
    p := p + 9;
    if v[p] != SPACE {
      return None;
    }
    var year := Four(v, p + 1);
    if year.None? {
      return None;
    }
    r := Checked(Date(year.value, month, day, clock.value.hour, clock.value.min, clock.value.sec));
  }

  const MDAY: seq<nat> := [31, 28, 31, 30, 31, 30, 31, 31, 30, 31, 30, 31]

  /** The checks on the fields, and Gauss' formula. */
  method Checked(d: Date) returns (r: Option<int>)
    requires d.month < 12 && d.year <= 9999
    ensures r == TimeOf(Some(d))
  {
    if d.hour > 23 || d.min > 59 || d.sec > 59 {
      return None;
    }
    if d.day == 29 && d.month == 1 {
      if d.year % 4 != 0 || (d.year % 100 == 0 && d.year % 400 != 0) {
        return None;
      }
    } else if d.day > MDAY[d.month] {
      return None;
    }
    var month, year := d.month - 1, d.year;
    if month <= 0 {
      month := month + 12;
      year := if year == 0 then TWO64 - 1 else year - 1;
    }
    return Some(Signed(Gauss(year, month, d.day) * 86400 + d.hour * 3600 + d.min * 60 + d.sec));
  }

  // ---------------------------------------------------------------- writing dates

  function MonthName(m: nat): (t: Text)
    requires m < 12
    ensures |t| == 3
  {
    [[74, 97, 110], [70, 101, 98], [77, 97, 114], [65, 112, 114], [77, 97, 121], [74, 117, 110],
     [74, 117, 108], [65, 117, 103], [83, 101, 112], [79, 99, 116], [78, 111, 118], [68, 101, 99]][m]
  }

  function Tens(n: nat): byte
    requires n < 100
  {
    ZERO + n / 10
  }

  function Ones(n: nat): byte {
    ZERO + n % 10
  }

  function Thousands(n: nat): byte
    requires n < 10000
  {
    ZERO + n / 1000
  }

  function Hundreds(n: nat): byte {
    ZERO + n / 100 % 10
  }

  function TensOf(n: nat): byte {
    ZERO + n / 10 % 10
  }

  /** The fields have as many digits as the formats give them. */
  predicate Writable(d: Date) {
    d.month < 12 && d.year < 10000 && d.day < 100 && d.hour < 100 && d.min < 100 && d.sec < 100
  }

  function ClockText(d: Date): (t: Text)
    requires Writable(d)
    ensures |t| == 9
  {
    [SPACE, Tens(d.hour), Ones(d.hour), COLON, Tens(d.min), Ones(d.min), COLON, Tens(d.sec), Ones(d.sec)]
  }

  /** After "Tue, ": 10 Nov 2002 23:50:13 */
  function Write822(d: Date): (t: Text)
    requires Writable(d)
    ensures |t| == 20
  {
    [Tens(d.day), Ones(d.day), SPACE] + MonthName(d.month)
    + [SPACE, Thousands(d.year), Hundreds(d.year), TensOf(d.year), Ones(d.year)] + ClockText(d)
  }

  /** After "Tuesday, ": 10-Dec-02 23:50:13 */
  function Write850(d: Date): (t: Text)
    requires Writable(d)
    ensures |t| == 18
  {
    [Tens(d.day), Ones(d.day), MINUS] + MonthName(d.month)
    + [MINUS, TensOf(d.year), Ones(d.year)] + ClockText(d)
  }

  /** After "Tue ": Dec 10 23:50:13 2002 */
  function WriteIsoc(d: Date): (t: Text)
    requires Writable(d)
    ensures |t| == 20
  {
    MonthName(d.month) + [SPACE, if d.day < 10 then SPACE else Tens(d.day), Ones(d.day)] + ClockText(d)
    + [SPACE, Thousands(d.year), Hundreds(d.year), TensOf(d.year), Ones(d.year)]
  }

  /** A day name has no comma and no space. */
  ghost predicate DayName(w: Text) {
    forall i | 0 <= i < |w| :: w[i] != COMMA && w[i] != SPACE
  }

  lemma {:induction false} NameIsSkipped(w: Text, rest: Text, i: nat)
    requires DayName(w) && rest != [] && (rest[0] == COMMA || rest[0] == SPACE) && i <= |w|
    ensures SkipName(w + rest, i) == |w|
    decreases |w| - i
  {
    if i < |w| {
      NameIsSkipped(w, rest, i + 1);
    }
  }

  lemma TwoRead(v: Text, i: nat, n: nat)
    requires i + 1 < |v| && n < 100 && v[i] == Tens(n) && v[i + 1] == Ones(n)
    ensures Two(v, i) == Some(n)
  {
  }

  lemma FourRead(v: Text, i: nat, n: nat)
    requires i + 3 < |v| && n < 10000
    requires v[i] == Thousands(n) && v[i + 1] == Hundreds(n) && v[i + 2] == TensOf(n) && v[i + 3] == Ones(n)
    ensures Four(v, i) == Some(n)
  {
    FourDigits(n);
  }

  lemma FourDigits(n: nat)
    requires n < 10000
    ensures n == n / 1000 * 1000 + n / 100 % 10 * 100 + n / 10 % 10 * 10 + n % 10
    ensures n / 1000 < 10
  {
    assert n / 100 == n / 1000 * 10 + n / 100 % 10;
    assert n / 10 == n / 100 * 10 + n / 10 % 10;
  }

  lemma MonthRead(v: Text, i: nat, m: nat)
    requires i + 2 < |v| && m < 12 && v[i..i + 3] == MonthName(m)
    ensures Month(v, i) == Some(m)
  {
    assert v[i] == MonthName(m)[0] && v[i + 1] == MonthName(m)[1] && v[i + 2] == MonthName(m)[2];
  }

  lemma ClockRead(v: Text, i: nat, d: Date)
    requires Writable(d) && i + 8 < |v| && v[i..i + 9] == ClockText(d)
    ensures ClockAt(v, i) == Some(Clock(d.hour, d.min, d.sec))
  {
    var t := v[i..i + 9];
    assert t[0] == v[i] && t[3] == v[i + 3] && t[6] == v[i + 6];
    assert t[1] == v[i + 1] && t[2] == v[i + 2] && t[4] == v[i + 4] && t[5] == v[i + 5] && t[7] == v[i + 7]
      && t[8] == v[i + 8];
    TwoRead(v, i + 1, d.hour);
    TwoRead(v, i + 4, d.min);
    TwoRead(v, i + 7, d.sec);
  }

  /** A part of a text that lies within a longer one. */
  lemma Part(v: Text, p: nat, t: Text, i: nat, j: nat)
    requires p + |t| <= |v| && v[p..p + |t|] == t && i <= j <= |t|
    ensures v[p + i..p + j] == t[i..j]
  {
    forall k | 0 <= k < j - i
      ensures v[p + i..p + j][k] == t[i..j][k]
    {
      At(v, p, t, i + k);
    }
  }

  lemma At(v: Text, p: nat, t: Text, i: nat)
    requires p + |t| <= |v| && v[p..p + |t|] == t && i < |t|
    ensures v[p + i] == t[i]
  {
    assert v[p..p + |t|][i] == v[p + i];
  }

  lemma YearRead(v: Text, p: nat, t: Text, i: nat, n: nat)
    requires p + |t| <= |v| && v[p..p + |t|] == t && i + 4 <= |t| && n < 10000
    requires t[i] == Thousands(n) && t[i + 1] == Hundreds(n) && t[i + 2] == TensOf(n) && t[i + 3] == Ones(n)
    ensures Four(v, p + i) == Some(n)
  {
    At(v, p, t, i);
    At(v, p, t, i + 1);
    At(v, p, t, i + 2);
    At(v, p, t, i + 3);
    FourRead(v, p + i, n);
  }

  /** What Write822 puts where. */
  lemma Read822(v: Text, p: nat, d: Date)
    requires Writable(d) && p + 20 <= |v| && v[p..p + 20] == Write822(d)
    ensures v[p + 2] == SPACE && Rfc822(v, p) == Some(d)
  {
    var t := Write822(d);
    At(v, p, t, 0);
    At(v, p, t, 1);
    At(v, p, t, 2);
    At(v, p, t, 6);
    Part(v, p, t, 3, 6);
    Part(v, p, t, 11, 20);
    assert t[3..6] == MonthName(d.month) && t[11..20] == ClockText(d);
    TwoRead(v, p, d.day);
    MonthRead(v, p + 3, d.month);
    YearRead(v, p, t, 7, d.year);
    ClockRead(v, p + 11, d);
  }

  lemma Read850(v: Text, p: nat, d: Date)
    requires Writable(d) && 1970 <= d.year < 2070 && p + 18 <= |v| && v[p..p + 18] == Write850(d)
    ensures v[p + 2] == MINUS && Rfc850(v, p) == Some(d)
  {
    var t := Write850(d);
    At(v, p, t, 0);
    At(v, p, t, 1);
    At(v, p, t, 2);
    At(v, p, t, 6);
    At(v, p, t, 7);
    At(v, p, t, 8);
    Part(v, p, t, 3, 6);
    Part(v, p, t, 9, 18);
    assert t[3..6] == MonthName(d.month) && t[9..18] == ClockText(d);
    TwoRead(v, p, d.day);
    MonthRead(v, p + 3, d.month);
    ShortYear(d.year);
    TwoRead(v, p + 7, d.year % 100);
    ClockRead(v, p + 9, d);
  }

  /** Two digits tell the years from 1970 to 2069 apart. */
  lemma ShortYear(y: nat)
    requires 1970 <= y < 2070
    ensures TensOf(y) == Tens(y % 100) && Ones(y) == Ones(y % 100) && Century(y % 100) == y
  {
  }

  lemma ReadIsoc(v: Text, p: nat, d: Date)
    requires Writable(d) && p + 20 <= |v| && v[p..p + 20] == WriteIsoc(d)
    ensures Isoc(v, p) == Some(d)
  {
    var t := WriteIsoc(d);
    At(v, p, t, 4);
    At(v, p, t, 5);
    At(v, p, t, 6);
    At(v, p, t, 15);
    Part(v, p, t, 0, 3);
    Part(v, p, t, 6, 15);
    assert t[0..3] == MonthName(d.month) && t[6..15] == ClockText(d) && t[6] == SPACE;
    MonthRead(v, p, d.month);
    ClockRead(v, p + 6, d);
    YearRead(v, p, t, 16, d.year);
  }

  lemma StartsAt(w: Text, gap: Text, t: Text, tail: Text)
    requires DayName(w) && t != [] && t[0] != SPACE && (gap == [SPACE] || gap == [COMMA, SPACE])
    ensures var v, p := w + (gap + t + tail), |w| + |gap|;
      && SkipName(v, 0) == |w| && v[|w|] == gap[0] && SkipSpaces(v, |w| + 1) == p
      && p + |t| <= |v| && v[p..p + |t|] == t
  {
    var v, p := w + (gap + t + tail), |w| + |gap|;
    NameIsSkipped(w, gap + t + tail, 0);
    assert v[p] == t[0];
    if gap == [COMMA, SPACE] {
      assert v[|w| + 1] == SPACE;
      assert SkipSpaces(v, |w| + 2) == p;
    }
    assert v[p..p + |t|] == t;
  }

  lemma DateStarts(d: Date)
    requires Writable(d)
    ensures Write822(d)[0] != SPACE && Write850(d)[0] != SPACE && WriteIsoc(d)[0] != SPACE
  {
    assert WriteIsoc(d)[0] == MonthName(d.month)[0];
  }

  /** All three formats are read back as the date that was written, whatever the day name and whatever follows. */
  lemma FormatsAreRead(d: Date, w: Text, tail: Text)
    requires Writable(d) && DayName(w)
    ensures Fields(w + ([COMMA, SPACE] + Write822(d) + tail)) == Some(d)
    ensures 1970 <= d.year < 2070 ==> Fields(w + ([COMMA, SPACE] + Write850(d) + tail)) == Some(d)
    ensures Fields(w + ([SPACE] + WriteIsoc(d) + tail)) == Some(d)
  {
    DateStarts(d);
    Format822IsRead(d, w, tail);
    if 1970 <= d.year < 2070 {
      Format850IsRead(d, w, tail);
    }
    FormatIsocIsRead(d, w, tail);
  }

  lemma Format822IsRead(d: Date, w: Text, tail: Text)
    requires Writable(d) && DayName(w) && Write822(d)[0] != SPACE
    ensures Fields(w + ([COMMA, SPACE] + Write822(d) + tail)) == Some(d)
  {
    StartsAt(w, [COMMA, SPACE], Write822(d), tail);
    Read822(w + ([COMMA, SPACE] + Write822(d) + tail), |w| + 2, d);
  }

  lemma Format850IsRead(d: Date, w: Text, tail: Text)
    requires Writable(d) && DayName(w) && 1970 <= d.year < 2070 && Write850(d)[0] != SPACE
    ensures Fields(w + ([COMMA, SPACE] + Write850(d) + tail)) == Some(d)
  {
    StartsAt(w, [COMMA, SPACE], Write850(d), tail);
    Read850(w + ([COMMA, SPACE] + Write850(d) + tail), |w| + 2, d);
  }

  lemma FormatIsocIsRead(d: Date, w: Text, tail: Text)
    requires Writable(d) && DayName(w) && WriteIsoc(d)[0] != SPACE
    ensures Fields(w + ([SPACE] + WriteIsoc(d) + tail)) == Some(d)
  {
    StartsAt(w, [SPACE], WriteIsoc(d), tail);
    ReadIsoc(w + ([SPACE] + WriteIsoc(d) + tail), |w| + 1, d);
  }

  /** The formats agree: a date from 1970 on that is written in any of them is parsed to its count of seconds. */
  lemma FormatsAgree(d: Date, w: Text, tail: Text)
    requires Accepted(d) && d.year >= 1970 && DayName(w)
    ensures Parsed(w + ([COMMA, SPACE] + Write822(d) + tail)) == Some(Seconds(d))
    ensures d.year < 2070 ==> Parsed(w + ([COMMA, SPACE] + Write850(d) + tail)) == Some(Seconds(d))
    ensures Parsed(w + ([SPACE] + WriteIsoc(d) + tail)) == Some(Seconds(d))
  {
    FormatsAreRead(d, w, tail);
    TimeIsSeconds(d);
  }
}
