/** Seconds to calendar fields and back, and the BCD time stamps of text messages
    (utils/time.c).  uint32 values wrap at 2^32; time 0 is 6 January 1980.
  */
module Calendar {
  import opened CalendarSpec

  const UINT32: nat := 0x1_0000_0000
  const OFFSET: nat := 432000  // five days

  // The program's broken-down time.
  class Julian {
    var year: nat
    var month: nat
    var day: nat
    var hour: nat
    var minute: nat
    var second: nat
    var dayOfWeek: nat

    constructor () {
      year, month, day, hour, minute, second, dayOfWeek := 0, 0, 0, 0, 0, 0, 0;
    }

    function Fields(): Date
      reads this
    {
      Date(year, month, day, hour, minute, second)
    }

    // The fields name the second secs + 432000 of the calendar (modulo 2^32), and the weekday
    // (Monday is 0) follows from the day count: 1 January 1980 was a Tuesday.
    method FromSecs(secs: nat)
      requires secs < UINT32
      modifies this
      ensures Real(Fields()) && SecondsOf(Fields()) == (secs + OFFSET) % UINT32
      ensures dayOfWeek == (DayNumber(Fields()) + 1) % 7
    {
      var s := (secs + OFFSET) % UINT32;
      second := s % 60;
      s := s / 60;
      minute := s % 60;
      s := s / 60;
      hour := s % 24;
      s := s / 24;
      var days: nat := s % QUAD_YEAR;
      var quadYears: nat := s / QUAD_YEAR;
      year := BASE_YEAR + 4 * quadYears;
      var i: nat := 0;
      while days >= YEAR_TAB[i + 1]
        invariant i < 4 && YEAR_TAB[i] <= days
        decreases 4 - i
      {
        i := i + 1;
      }
      YearTabRight(quadYears, i);
      days := days - YEAR_TAB[i];
      year := year + i;
      dayOfWeek := (DAY_OFFSET[3] * quadYears + DAY_OFFSET[i] + days) % 7;
      Weekday(quadYears, i, days);
      var leap := i == 0;
      assert leap == Leap(year);
      var monthTable := if leap then LEAP_MONTH_TAB else NORM_MONTH_TAB;
      i := 0;
      while days >= monthTable[i + 1]
        invariant i < 12 && monthTable[i] <= days
        decreases 12 - i
      {
        i := i + 1;
      }
      MonthTabRight(leap, i);
      MonthTabRight(leap, i + 1);
      day := days - monthTable[i] + 1;
      month := i + 1;
      assert DayNumber(Fields()) == s;
    }

    // The day count of the fields, for any year and any month the tables have.
    method ToDays() returns (time: nat)
      requires 1 <= month <= 13
      ensures time == DayOf(Fields().(year := ReadAs(year))) % UINT32
    {
      var quads, i := TruncDiv(year - BASE_YEAR, 4), year % 4;
      TablesAddUp(Fields());
      hide DayOf, ReadAs, TruncDiv;
      time := quads * QUAD_YEAR % UINT32;
      ghost var exact := quads * QUAD_YEAR;
      if i == 0 {
        time, exact := PlusWraps(time, exact, LEAP_MONTH_TAB[month - 1]);
      } else {
        time, exact := PlusWraps(time, exact, YEAR_TAB[i]);
        time, exact := PlusWraps(time, exact, NORM_MONTH_TAB[month - 1]);
      }
      AddWraps(exact, day - 1);
      time := (time + (day - 1)) % UINT32;
    }

    // The inverse; it wraps like the program's arithmetic.  Of the years before 1980 it takes only
    // the leap years for what they are.
    method ToSecs() returns (time: nat)
      requires 1 <= month <= 13
      ensures time == (SecondsFrom(Fields().(year := ReadAs(year))) - OFFSET) % UINT32
      ensures time == (SecondsFrom(Fields()) - OFFSET) % UINT32 <==> year >= BASE_YEAR || year % 4 == 0
    {
      ghost var read := Fields().(year := ReadAs(year));
      ReadRight(Fields());
      hide DayOf, ReadAs;
      time := ToDays();
      ghost var d := DayOf(read);
      Wraps(d, 24, hour);
      time := (time * 24 + hour) % UINT32;
      Wraps(d * 24 + hour, 60, minute);
      time := (time * 60 + minute) % UINT32;
      Wraps((d * 24 + hour) * 60 + minute, 60, second);
      time := (time * 60 + second) % UINT32;
      AddWraps(SecondsFrom(read), 0 - OFFSET);
      time := (time - OFFSET) % UINT32;
    }
  }

  // A year taken for another gives another time.
  lemma ReadRight(d: Date)
    requires 1 <= d.month
    ensures (SecondsFrom(d.(year := ReadAs(d.year))) - OFFSET) % UINT32 == (SecondsFrom(d) - OFFSET) % UINT32
            <==> d.year >= BASE_YEAR || d.year % 4 == 0
  {
    if d.year < BASE_YEAR && d.year % 4 != 0 {
      FourYearsOn(d);
      AddWraps(SecondsFrom(d) - OFFSET, QUAD_YEAR * 86400);
      hide SecondsFrom;
    }
  }

  lemma FourYearsOn(d: Date)
    requires 1 <= d.month
    ensures SecondsFrom(d.(year := d.year + 4)) == SecondsFrom(d) + QUAD_YEAR * 86400
  {
    YearTabRight(d.year / 4, d.year % 4);
    YearTabRight(d.year / 4 + 1, d.year % 4);
    hide DaysBefore, MonthStart;
    var y := d.year + BASE_YEAR;
    assert y == BASE_YEAR + 4 * (d.year / 4) + d.year % 4;
    assert Leap(y + 4) == Leap(y);
  }

  // A uint32 addition, beside the sum it stands for.
  method PlusWraps(time: nat, ghost exact: int, more: nat) returns (sum: nat, ghost exact': int)
    requires time == exact % UINT32
    ensures exact' == exact + more && sum == exact' % UINT32
  {
    AddWraps(exact, more);
    sum, exact' := (time + more) % UINT32, exact + more;
  }

  // What the two conversions compute, as functions of the values.
  ghost predicate IsDateOf(d: Date, secs: nat) {
    Real(d) && SecondsOf(d) == (secs + OFFSET) % UINT32
  }

  function SecsOf(d: Date): int
    requires BASE_YEAR <= d.year && 1 <= d.month
  {
    (SecondsOf(d) - OFFSET) % UINT32
  }

  // Time 0 is Sunday, 6 January 1980.
  lemma TimeZero()
    ensures var d := Date(1980, 1, 6, 0, 0, 0);
            Real(d) && SecondsOf(d) == 5 * 24 * 60 * 60 == OFFSET && (DayNumber(d) + 1) % 7 == 6
  {
  }

  // Seconds to fields and back is the identity, even where secs + 432000 wraps.
  lemma SecsRoundTrip(secs: nat, d: Date)
    requires secs < UINT32 && IsDateOf(d, secs)
    ensures SecsOf(d) == secs
  {
    AddWraps(secs + OFFSET, 0 - OFFSET);
    hide SecondsOf;
  }

  lemma NotBefore(d: Date)
    requires Real(d)
    ensures SecondsOf(d) >= 0
  {
  }

  // Fields to seconds and back is the identity for every date the 32 bits reach.
  lemma DateRoundTrip(d: Date, d': Date)
    requires Real(d) && SecondsOf(d) < UINT32 && IsDateOf(d', SecsOf(d))
    ensures d' == d
  {
    NotBefore(d);
    hide SecondsOf, Real;
    ShiftBack(SecondsOf(d));
    SecondsTell(d', d);
  }

  lemma ShiftBack(t: nat)
    requires t < UINT32
    ensures ((t - OFFSET) % UINT32 + OFFSET) % UINT32 == t
  {
    AddWraps(t - OFFSET, OFFSET);
  }

  // Later seconds are later dates, as long as neither time wraps.
  lemma OrderKept(s1: nat, s2: nat, d1: Date, d2: Date)
    requires s1 + OFFSET < UINT32 && s2 + OFFSET < UINT32 && IsDateOf(d1, s1) && IsDateOf(d2, s2)
    ensures s1 < s2 <==> Earlier(d1, d2)
  {
    hide SecondsOf, Earlier, Real;
    OrderAgrees(d1, d2);
  }

  lemma AddWraps(a: int, b: int)
    ensures (a % UINT32 + b) % UINT32 == (a + b) % UINT32
  {
    var k := a / UINT32;
    assert a + b == (a % UINT32 + b) + UINT32 * k;
  }

  lemma Wraps(a: int, b: nat, c: nat)
    requires b == 24 || b == 60
    ensures (a % UINT32 * b + c) % UINT32 == (a * b + c) % UINT32
  {
    var k := a / UINT32;
    assert a * b + c == (a % UINT32 * b + c) + UINT32 * (k * b);
  }

  lemma Weekday(quads: nat, i: nat, days: nat)
    requires i < 4
    ensures (DAY_OFFSET[3] * quads + DAY_OFFSET[i] + days) % 7
         == (QUAD_YEAR * quads + YEAR_TAB[i] + days + 1) % 7
  {
    assert YEAR_TAB[i] + 1 == DAY_OFFSET[i] + 7 * (if i == 0 then 0 else 52 * i);
    assert QUAD_YEAR * quads + YEAR_TAB[i] + days + 1
        == (DAY_OFFSET[3] * quads + DAY_OFFSET[i] + days) + 7 * (208 * quads + if i == 0 then 0 else 52 * i);
  }

  /// Binary coded decimals

  const MIN_YEAR: nat := 2000

  // Two decimal digits in the halves of a byte.
  function Bcd(n: nat): nat { (n / 10 * 16 + n % 10) % 256 }

  function FromBcd(b: nat): nat { b % 16 + b / 16 * 10 }

  lemma BcdDigits(tens: nat, ones: nat)
    requires tens < 32 && ones < 10
    ensures FromBcd((tens * 16 + ones) % 256) == (if tens < 16 then tens else tens - 16) * 10 + ones
  {
    var high := if tens < 16 then tens else tens - 16;
    assert (tens * 16 + ones) % 256 == high * 16 + ones;
  }

  // Either half of a byte counts for what it is, even above 9.
  lemma HalvesBack(tens: nat, ones: nat)
    requires tens < 16 && ones < 16
    ensures FromBcd(16 * tens + ones) == 10 * tens + ones
  {
  }

  // The tens have four bits: what a byte keeps of a number below 256 is the number below 160.
  lemma BcdRoundTrip(n: nat)
    requires n < 256
    ensures FromBcd(Bcd(n)) == if n < 160 then n else n - 160
  {
    BcdDigits(n / 10, n % 10);
    hide FromBcd;
  }

  // The upper half of the byte is the tens, the lower half the ones.
  lemma BcdHalves(n: nat)
    requires n < 160
    ensures Bcd(n) / 16 == n / 10 && Bcd(n) % 16 == n % 10
  {
    var tens, ones := n / 10, n % 10;
    assert (tens * 16 + ones) % 256 == tens * 16 + ones;
  }

  class Timestamp {
    var year: nat
    var month: nat
    var day: nat
    var hour: nat
    var minute: nat
    var second: nat
    var timezone: int

    constructor () {
      year, month, day, hour, minute, second, timezone := 0, 0, 0, 0, 0, 0, 0;
    }

    function Decoded(): Date
      reads this
    {
      Date(FromBcd(year) + MIN_YEAR, FromBcd(month), FromBcd(day), FromBcd(hour), FromBcd(minute), FromBcd(second))
    }

    // Only the last two digits of the year fit, and the year is taken modulo 256 first.
    method FromSecs(timeStick: nat) returns (ghost d: Date)
      requires timeStick < UINT32
      modifies this
      ensures IsDateOf(d, timeStick) && timezone == old(timezone)
      ensures year == Bcd((d.year - MIN_YEAR) % 256) && month == Bcd(d.month) && day == Bcd(d.day)
      ensures hour == Bcd(d.hour) && minute == Bcd(d.minute) && second == Bcd(d.second)
      ensures Decoded() == if d.year >= MIN_YEAR then d else d.(year := d.year + 96)
    {
      var clk := new Julian();
      clk.FromSecs(timeStick);
      d := clk.Fields();
      YearBound(d, timeStick);
      hide IsDateOf;
      var tmp := (clk.year - MIN_YEAR) % 256;
      year := Bcd(tmp);
      month := Bcd(clk.month);
      day := Bcd(clk.day);
      hour := Bcd(clk.hour);
      minute := Bcd(clk.minute);
      second := Bcd(clk.second);
      hide Bcd, FromBcd;
      YearDigits(d.year);
      BcdRoundTrip(d.month);
      BcdRoundTrip(d.day);
      BcdRoundTrip(d.hour);
      BcdRoundTrip(d.minute);
      BcdRoundTrip(d.second);
    }

    method ToSecs() returns (timeStick: nat)
      requires 1 <= FromBcd(month) <= 13
      ensures timeStick == SecsOf(Decoded())
    {
      var clk := new Julian();
      clk.year := FromBcd(year) + MIN_YEAR;
      clk.month := FromBcd(month);
      clk.day := FromBcd(day);
      clk.hour := FromBcd(hour);
      clk.minute := FromBcd(minute);
      clk.second := FromBcd(second);
      CarriedOn(clk.Fields());
      timeStick := clk.ToSecs();
    }
  }

  lemma YearDigits(year: nat)
    requires BASE_YEAR <= year < MIN_YEAR + 160
    ensures FromBcd(Bcd((year - MIN_YEAR) % 256)) + MIN_YEAR == if year >= MIN_YEAR then year else year + 96
  {
    var n := if year >= MIN_YEAR then year - MIN_YEAR else year - MIN_YEAR + 256;
    assert (year - MIN_YEAR) % 256 == n;
    BcdRoundTrip(n);
    hide Bcd, FromBcd;
  }

  // 32 bits of seconds end in 2116.
  lemma YearBound(d: Date, secs: nat)
    requires IsDateOf(d, secs)
    ensures d.year < MIN_YEAR + 160
  {
    YearTabRight(34, 1);
    assert DaysBefore(2117) == QUAD_YEAR * 34 + 366;
    if d.year > 2117 {
      YearsGrow(2117, d.year);
    }
  }

  // A time stamp gives its seconds back exactly for dates from the year 2000 on; an earlier date
  // comes back 96 years late.
  method StampRoundTrip(timeStick: nat, time: Timestamp) returns (back: nat, ghost d: Date)
    requires timeStick < UINT32
    modifies time
    ensures IsDateOf(d, timeStick)
    ensures back == if d.year >= MIN_YEAR then timeStick else (timeStick + 24 * QUAD_YEAR * 86400) % UINT32
    ensures back == timeStick <==> d.year >= MIN_YEAR
  {
    d := time.FromSecs(timeStick);
    SecsRoundTrip(timeStick, d);
    hide SecsOf, SecondsOf;
    back := time.ToSecs();
    if d.year < MIN_YEAR {
      LaterSecs(d);
    }
  }

  // Time 0 is stamped as 1980 and read as 2076.
  lemma EarlyStamp(d: Date)
    requires IsDateOf(d, 0)
    ensures d == Date(1980, 1, 6, 0, 0, 0)
    ensures FromBcd(Bcd((d.year - MIN_YEAR) % 256)) + MIN_YEAR == 2076
  {
    var start := Date(1980, 1, 6, 0, 0, 0);
    assert DayNumber(start) == 5;
    SecondsTell(d, start);
    YearDigits(1980);
  }

  lemma LaterSecs(d: Date)
    requires Real(d)
    ensures var secs := SecsOf(d.(year := d.year + 96));
            secs == (SecsOf(d) + 24 * QUAD_YEAR * 86400) % UINT32 && secs != SecsOf(d)
  {
    Later(d);
    AddWraps(SecondsOf(d) - OFFSET, 24 * QUAD_YEAR * 86400);
    hide SecondsOf, Real;
  }

  lemma Later(d: Date)
    requires Real(d)
    ensures SecondsOf(d.(year := d.year + 96)) == SecondsOf(d) + 24 * QUAD_YEAR * 86400
  {
    var quads, i := (d.year - BASE_YEAR) / 4, d.year % 4;
    YearTabRight(quads, i);
    YearTabRight(quads + 24, i);
    hide DaysBefore, MonthStart;
    assert Leap(d.year + 96) == Leap(d.year);
  }
}
