/** The cadence of a schedule and its clock (src/schedule.rs).

    Instants are nanoseconds from the midnight that starts day number 0; a slot is always
    a whole minute. The zone database is the parameter `zones`. */
module Schedule {
  import opened Prelude
  import opened Calendar
  import opened Zone

  const WEEKDAYS: seq<string> := ["mon", "tue", "wed", "thu", "fri", "sat", "sun"]
  const UNITS: seq<string> := ["day", "week", "month"]
  const MAX_INTERVAL := 52
  const MAX_DAY_SCAN := 2196
  const MAX_MONTH_SCAN := 720
  const MINUTE := 60_000_000_000

  datatype Cadence = Cadence(every: string, interval: nat, on: seq<string>, day: Option<nat>, at: string, tz: Option<string>)

  type Zones = map<string, Zone>

  // ---- The local time of day ------------------------------------------------------------

  predicate IsTwoDigits(s: string) {
    |s| == 2 && '0' <= s[0] <= '9' && '0' <= s[1] <= '9'
  }

  function TwoDigits(s: string): (n: nat)
    requires IsTwoDigits(s)
    ensures n < 100
  {
    10 * (s[0] - '0') as nat + (s[1] - '0') as nat
  }

  function SplitColon(raw: string): Option<(string, string)> {
    if raw == "" then None
    else if raw[0] == ':' then Some(("", raw[1..]))
    else match SplitColon(raw[1..])
         case None => None
         case Some((h, m)) => Some(([raw[0]] + h, m))
  }

  function ParseHhmm(raw: string): Option<(nat, nat)> {
    match SplitColon(raw)
    case None => None
    case Some((h, m)) =>
      if !IsTwoDigits(h) || !IsTwoDigits(m) then None
      else if TwoDigits(h) > 23 || TwoDigits(m) > 59 then None
      else Some((TwoDigits(h), TwoDigits(m)))
  }

  function RenderTwo(n: nat): (s: string)
    requires n < 100
    ensures IsTwoDigits(s)
  {
    [('0' as int + n / 10) as char, ('0' as int + n % 10) as char]
  }

  function RenderHhmm(hh: nat, mm: nat): string
    requires hh < 24 && mm < 60
  {
    RenderTwo(hh) + ":" + RenderTwo(mm)
  }

  lemma SplitColonJoins(raw: string)
    ensures SplitColon(raw).Some? ==> raw == SplitColon(raw).value.0 + ":" + SplitColon(raw).value.1
  {
  }

  lemma SplitRendered(h: string, m: string)
    requires IsTwoDigits(h)
    ensures SplitColon(h + ":" + m) == Some((h, m))
  {
    var s := h + ":" + m;
    assert s[2..][1..] == m;
    assert SplitColon(s[2..]) == Some(("", m));
    assert s[1..][1..] == s[2..];
    assert SplitColon(s[1..]) == Some(([h[1]] + "", m));
    assert [h[0]] + ([h[1]] + "") == h;
  }

  /** Exactly one spelling is accepted for each minute of the day, so stored cadences can
      be compared as strings. */
  lemma HhmmRoundTrip(raw: string, hh: nat, mm: nat)
    requires hh < 24 && mm < 60
    ensures ParseHhmm(raw) == Some((hh, mm)) <==> raw == RenderHhmm(hh, mm)
  {
    if ParseHhmm(raw) == Some((hh, mm)) {
      SplitColonJoins(raw);
    }
    SplitRendered(RenderTwo(hh), RenderTwo(mm));
  }

  // ---- Validation ---------------------------------------------------------------------

  datatype Problem =
    | BadEvery | BadInterval | BadAt | BadZone | NoWeekday | BadWeekday(token: string)
    | DayOnWeek | BadDay | OnOnMonth | OnOnDay | DayOnDay

  function TimeOf(c: Cadence): Option<(nat, nat)> {
    ParseHhmm(c.at)
  }

  ghost predicate UnitFits(c: Cadence) {
    && (c.every == "week" ==> c.on != [] && (forall i :: 0 <= i < |c.on| ==> c.on[i] in WEEKDAYS) && c.day.None?)
    && (c.every == "month" ==> (c.day.Some? ==> 1 <= c.day.value <= 31) && c.on == [])
    && (c.every == "day" ==> c.on == [] && c.day.None?)
  }

  /** When a problem with a unit's own fields is there. */
  predicate UnitFault(c: Cadence, p: Problem) {
    match p
    case NoWeekday => c.every == "week" && c.on == []
    case BadWeekday(token) => c.every == "week" && token in c.on && token !in WEEKDAYS
    case DayOnWeek => c.every == "week" && c.day.Some?
    case BadDay => c.every == "month" && c.day.Some? && !(1 <= c.day.value <= 31)
    case OnOnMonth => c.every == "month" && c.on != []
    case OnOnDay => c.every == "day" && c.on != []
    case DayOnDay => c.every == "day" && c.day.Some?
    case _ => false
  }

  /** When any problem is there. */
  predicate Fault(c: Cadence, zones: Zones, p: Problem) {
    match p
    case BadEvery => c.every != "day" && c.every != "week" && c.every != "month"
    case BadInterval => !(1 <= c.interval <= 52)
    case BadAt => TimeOf(c).None?
    case BadZone => c.tz.Some? && c.tz.value !in zones
    case _ => UnitFault(c, p)
  }

  /** What makes a cadence usable. */
  ghost predicate Usable(c: Cadence, zones: Zones) {
    && c.every in UNITS
    && 1 <= c.interval <= MAX_INTERVAL
    && TimeOf(c).Some?
    && (c.tz.Some? ==> c.tz.value in zones)
    && UnitFits(c)
  }

  /** The weekday tokens of a week cadence that are none. */
  method CheckWeekdays(on: seq<string>) returns (out: seq<Problem>)
    ensures out == [] <==> forall i :: 0 <= i < |on| ==> on[i] in WEEKDAYS
    ensures forall p :: p in out <==> p.BadWeekday? && p.token in on && p.token !in WEEKDAYS
  {
    out := [];
    for i := 0 to |on|
      invariant out == [] <==> forall j :: 0 <= j < i ==> on[j] in WEEKDAYS
      invariant forall p :: p in out <==> p.BadWeekday? && p.token in on[..i] && p.token !in WEEKDAYS
    {
      assert on[..i + 1] == on[..i] + [on[i]];
      if on[i] !in WEEKDAYS {
        out := out + [BadWeekday(on[i])];
      }
    }
    assert on[..|on|] == on;
  }

  /** The fields that only apply to one unit. */
  method CheckUnit(c: Cadence) returns (out: seq<Problem>)
    ensures out == [] <==> UnitFits(c)
    ensures forall p :: p in out <==> UnitFault(c, p)
  {
    out := [];
    match c.every {
      case "week" =>
        if c.on == [] {
          out := [NoWeekday];
        }
        var bad := CheckWeekdays(c.on);
        out := out + bad;
        if c.day.Some? {
          out := out + [DayOnWeek];
        }
      case "month" =>
        if c.day.Some? && !(1 <= c.day.value <= 31) {
          out := out + [BadDay];
        }
        if c.on != [] {
          out := out + [OnOnMonth];
        }
      case "day" =>
        if c.on != [] {
          out := out + [OnOnDay];
        }
        if c.day.Some? {
          out := out + [DayOnDay];
        }
      case _ =>
    }
  }

  /** Every reason a cadence is unusable, and only those, is reported at once, and there is
      none exactly when it is usable. */
  method Validate(c: Cadence, zones: Zones) returns (out: seq<Problem>)
    ensures out == [] <==> Usable(c, zones)
    ensures forall p :: p in out <==> Fault(c, zones, p)
  {
    out := [];
    if c.every !in UNITS {
      out := out + [BadEvery];
    }
    if !(1 <= c.interval <= MAX_INTERVAL) {
      out := out + [BadInterval];
    }
    if ParseHhmm(c.at).None? {
      out := out + [BadAt];
    }
    if c.tz.Some? && c.tz.value !in zones {
      out := out + [BadZone];
    }
    var unit := CheckUnit(c);
    out := out + unit;
  }

  // ---- Which dates are on the cadence -----------------------------------------------------

  function TimeZone(c: Cadence, zones: Zones): Zone {
    if c.tz.Some? && c.tz.value in zones then zones[c.tz.value] else UTC
  }

  predicate DayMatches(c: Cadence, date: int, anchor: int)
    requires c.interval > 0
  {
    if c.every == "day" then (date - anchor) % c.interval == 0
    else if c.every == "week" then
      WEEKDAYS[Weekday(date)] in c.on && ((WeekStart(date) - WeekStart(anchor)) / 7) % c.interval == 0
    else false
  }

  predicate MonthMatches(c: Cadence, y: int, m: int, anchor: int)
    requires c.interval > 0
  {
    (12 * (y - Year(anchor)) + (m - Month(anchor))) % c.interval == 0
  }

  function MonthlyDate(c: Cadence, y: int, m: int): int
    requires 1 <= m <= 12
  {
    FromYmd(y, m, ClampDay(y, m, if c.day.Some? then c.day.value else 1))
  }

  /** The dates of a cadence counted from an anchor date. */
  predicate OnCadence(c: Cadence, date: int, anchor: int)
    requires c.interval > 0
  {
    if c.every == "month" then
      MonthMatches(c, Year(date), Month(date), anchor) && date == MonthlyDate(c, Year(date), Month(date))
    else DayMatches(c, date, anchor)
  }

  /** The wall clock, in minutes, a date of the cadence asks for. */
  function Wanted(c: Cadence, date: int): int
    requires TimeOf(c).Some?
  {
    DAY * date + 60 * TimeOf(c).value.0 + TimeOf(c).value.1
  }

  /** The minute a date's occurrence falls on, if the date has one. */
  ghost predicate Occurs(c: Cadence, z: Zone, anchor: int, date: int, t: int)
    requires c.interval > 0 && TimeOf(c).Some?
  {
    OnCadence(c, date, anchor) && Resolved(z, Wanted(c, date)) == Some(t)
  }

  ghost predicate IsSlot(c: Cadence, z: Zone, anchor: int, t: int)
    requires c.interval > 0 && TimeOf(c).Some?
  {
    exists date :: Occurs(c, z, anchor, date, t)
  }

  /** `t` is the least slot strictly after minute `after`. */
  ghost predicate IsNext(c: Cadence, z: Zone, anchor: int, after: int, t: int)
    requires c.interval > 0 && TimeOf(c).Some?
  {
    && IsSlot(c, z, anchor, t)
    && t > after
    && forall s :: IsSlot(c, z, anchor, s) && s > after ==> t <= s
  }

  lemma SlotsIncrease(c: Cadence, z: Zone, anchor: int, d: int, t: int, d': int, t': int)
    requires c.interval > 0 && TimeOf(c).Some?
    requires Occurs(c, z, anchor, d, t) && Occurs(c, z, anchor, d', t') && d < d'
    ensures t < t'
  {
    LaterWanted(z, Wanted(c, d), Wanted(c, d'));
  }

  lemma LaterWanted(z: Zone, w: int, w': int)
    requires w + DAY <= w' && Resolved(z, w).Some?
    ensures First(z, w) < First(z, w')
  {
    FirstMonotone(z, w, w');
    FirstIsLeast(z, w', First(z, w));
  }

  function LocalDate(z: Zone, t: int): int {
    Local(z, t) / DAY
  }

  /** Dates before today have had their occurrence. */
  lemma EarlierDatesAreOver(c: Cadence, z: Zone, anchor: int, after: int, d: int, t: int)
    requires c.interval > 0 && TimeOf(c).Some?
    requires Occurs(c, z, anchor, d, t) && d < LocalDate(z, after)
    ensures t <= after
  {
    FirstIsLeast(z, Wanted(c, d), after);
  }

  /** No date in a range has an occurrence after `after`. */
  ghost predicate NoneIn(c: Cadence, z: Zone, anchor: int, after: int, lo: int, hi: int)
    requires c.interval > 0 && TimeOf(c).Some?
  {
    forall d, t :: lo <= d < hi && Occurs(c, z, anchor, d, t) ==> t <= after
  }

  lemma FirstFoundIsNext(c: Cadence, z: Zone, anchor: int, after: int, date: int, t: int)
    requires c.interval > 0 && TimeOf(c).Some?
    requires Occurs(c, z, anchor, date, t) && t > after
    requires NoneIn(c, z, anchor, after, LocalDate(z, after), date)
    ensures IsNext(c, z, anchor, after, t)
  {
    forall s | IsSlot(c, z, anchor, s) && s > after
      ensures t <= s
    {
      var d :| Occurs(c, z, anchor, d, s);
      if d < LocalDate(z, after) {
        EarlierDatesAreOver(c, z, anchor, after, d, s);
      } else if d > date {
        SlotsIncrease(c, z, anchor, date, t, d, s);
      }
    }
  }

  // ---- The search horizons suffice ----------------------------------------------------------

  lemma ModUnique(x: int, n: int, q: int, r: int)
    requires 0 <= r < n && x == n * q + r
    ensures x % n == r
  {
    var k := q - x / n;
    assert n * k == x % n - r by {
      assert n * k == n * q - n * (x / n);
    }
    MulSize(n, k);
  }

  lemma MulSize(n: int, k: int)
    requires n > 0
    ensures k > 0 ==> n * k >= n
    ensures k < 0 ==> n * k <= -n
  {
  }

  /** A residue class is met within one period of any start. */
  lemma NextResidue(x: int, a: int, n: int) returns (d: int)
    requires n > 0
    ensures x <= d < x + n && (d - a) % n == 0
  {
    var q := (a - x) / n;
    d := x + (a - x) % n;
    assert d - a == n * -q + 0 by {
      assert a - x == n * q + (a - x) % n;
      assert n * -q == -(n * q);
    }
    ModUnique(d - a, n, -q, 0);
  }

  lemma DayDue(c: Cadence, anchor: int, x: int) returns (d: int)
    requires c.every == "day" && c.interval > 0
    ensures x <= d < x + c.interval && OnCadence(c, d, anchor)
  {
    d := NextResidue(x, anchor, c.interval);
  }

  lemma WeekdayToken(token: string) returns (j: int)
    requires token in WEEKDAYS
    ensures 0 <= j < 7 && WEEKDAYS[j] == token
  {
    j :| 0 <= j < |WEEKDAYS| && WEEKDAYS[j] == token;
  }

  lemma WeekOf(w: int, j: int, anchor: int)
    requires 0 <= j < 7
    ensures Weekday(7 * w + 1 + j) == j
    ensures (WeekStart(7 * w + 1 + j) - WeekStart(anchor)) / 7 == w - (anchor - 1) / 7
  {
  }

  lemma WeekDue(c: Cadence, zones: Zones, anchor: int, x: int) returns (d: int)
    requires Usable(c, zones) && c.every == "week"
    ensures x <= d < x + 7 * c.interval + 14 && OnCadence(c, d, anchor)
  {
    var j := WeekdayToken(c.on[0]);
    var w := NextResidue((x - 1) / 7 + 1, (anchor - 1) / 7, c.interval);
    d := 7 * w + 1 + j;
    WeekOf(w, j, anchor);
  }

  lemma MonthAt(i: int) returns (y: int, m: int)
    ensures 1 <= m <= 12 && 12 * y + m == i
  {
    y, m := (i - 1) / 12, (i - 1) % 12 + 1;
  }

  lemma MonthMatchesAt(c: Cadence, y: int, m: int, anchor: int, i: int)
    requires c.interval > 0 && 12 * y + m == i
    ensures MonthMatches(c, y, m, anchor) <==> (i - (12 * Year(anchor) + Month(anchor))) % c.interval == 0
  {
    assert 12 * (y - Year(anchor)) + (m - Month(anchor)) == i - (12 * Year(anchor) + Month(anchor));
  }

  lemma MonthlyDateInMonth(c: Cadence, y: int, m: int)
    requires 1 <= m <= 12
    ensures InMonth(MonthlyDate(c, y, m), y, m)
    ensures Year(MonthlyDate(c, y, m)) == y && Month(MonthlyDate(c, y, m)) == m
  {
    DaysInMonthIsLength(y, m);
    MonthUnique(MonthlyDate(c, y, m), y, m);
  }

  lemma MonthAfterNext(x: int, y: int, m: int)
    requires 1 <= m <= 12 && 12 * Year(x) + Month(x) + 2 <= 12 * y + m
    ensures x + 28 <= FirstOfMonth(y, m)
  {
    var (ny, nm) := NextMonth(Year(x), Month(x));
    MonthsInOrder(Year(x), Month(x), ny, nm);
    MonthsInOrder(ny, nm, y, m);
  }

  /** The months of the cadence recur, and one of them comes after any date. */
  lemma MonthDue(c: Cadence, anchor: int, x: int) returns (d: int)
    requires c.every == "month" && c.interval > 0
    ensures OnCadence(c, d, anchor) && x + 28 <= d
    ensures 12 * Year(x) + Month(x) + 2 <= 12 * Year(d) + Month(d) < 12 * Year(x) + Month(x) + 2 + c.interval
  {
    var i := NextResidue(12 * Year(x) + Month(x) + 2, 12 * Year(anchor) + Month(anchor), c.interval);
    var y, m := MonthAt(i);
    d := MonthlyDate(c, y, m);
    MonthAfterNext(x, y, m);
    MonthOnCadence(c, anchor, y, m, i);
  }

  lemma MonthOnCadence(c: Cadence, anchor: int, y: int, m: int, i: int)
    requires c.every == "month" && c.interval > 0 && 1 <= m <= 12 && 12 * y + m == i
    requires (i - (12 * Year(anchor) + Month(anchor))) % c.interval == 0
    ensures var d := MonthlyDate(c, y, m);
            OnCadence(c, d, anchor) && Year(d) == y && Month(d) == m && FirstOfMonth(y, m) <= d
  {
    MonthlyDateInMonth(c, y, m);
    MonthMatchesAt(c, y, m, anchor, i);
  }

  /** Two days on, an occurrence is never already over, even when the clock falls back
      across midnight. */
  lemma TwoDaysOn(c: Cadence, z: Zone, after: int, d: int)
    requires TimeOf(c).Some? && Sparse(z, MAX_GAP_MINUTES) && LocalDate(z, after) + 2 <= d
    ensures Resolved(z, Wanted(c, d)).Some? && Resolved(z, Wanted(c, d)).value > after
  {
    SmallShiftResolves(z, Wanted(c, d));
    var t := First(z, Wanted(c, d));
    FirstIsLeast(z, Wanted(c, d), t);
    if t <= after {
      LocalDrop(z, MAX_GAP_MINUTES, t, after);
    }
  }

  // ---- Interval counting -----------------------------------------------------------------------

  predicate Multiple(x: int, n: int, k: int) {
    x == n * k
  }

  ghost predicate WholeIntervals(x: int, n: int) {
    exists k :: Multiple(x, n, k)
  }

  lemma MultipleIff(x: int, n: int)
    requires n > 0
    ensures x % n == 0 <==> WholeIntervals(x, n)
  {
    if x % n == 0 {
      assert Multiple(x, n, x / n);
    }
    if k :| Multiple(x, n, k) {
      ModUnique(x, n, k, 0);
    }
  }

  function MonthIndex(date: int): int {
    12 * Year(date) + Month(date)
  }

  function DayOfMonth(date: int): int {
    date - FirstOfMonth(Year(date), Month(date)) + 1
  }

  function DayWanted(c: Cadence): nat {
    if c.day.Some? then c.day.value else 1
  }

  /** The dates of a day cadence are whole intervals of days from the anchor. */
  lemma DayDates(c: Cadence, date: int, anchor: int)
    requires c.interval > 0 && c.every == "day"
    ensures OnCadence(c, date, anchor) <==> WholeIntervals(date - anchor, c.interval)
  {
    MultipleIff(date - anchor, c.interval);
  }

  /** Those of a week cadence are the wanted weekdays of the weeks whole intervals from
      the anchor's. */
  lemma WeekDates(c: Cadence, date: int, anchor: int)
    requires c.interval > 0 && c.every == "week"
    ensures OnCadence(c, date, anchor)
       <==> WEEKDAYS[Weekday(date)] in c.on
            && WholeIntervals((WeekStart(date) - WeekStart(anchor)) / 7, c.interval)
    ensures WeekStart(date) - WeekStart(anchor) == 7 * ((WeekStart(date) - WeekStart(anchor)) / 7)
  {
    MultipleIff((WeekStart(date) - WeekStart(anchor)) / 7, c.interval);
  }

  /** Those of a month cadence are the wanted day, or the last one there is, of the months
      whole intervals from the anchor's. */
  lemma MonthDates(c: Cadence, date: int, anchor: int)
    requires c.interval > 0 && c.every == "month"
    ensures OnCadence(c, date, anchor)
       <==> var length := MonthLength(Year(date), Month(date));
            && WholeIntervals(MonthIndex(date) - MonthIndex(anchor), c.interval)
            && DayOfMonth(date) == if DayWanted(c) < 1 then 1 else if DayWanted(c) <= length then DayWanted(c) else length
  {
    MultipleIff(MonthIndex(date) - MonthIndex(anchor), c.interval);
    MonthMatchesAt(c, Year(date), Month(date), anchor, MonthIndex(date));
    ClampsToMonthEnd(Year(date), Month(date), DayWanted(c));
  }

  // ---- The clock -------------------------------------------------------------------------

  /** Nanosecond instants and whole minutes agree on what comes after what. */
  lemma MinuteOrder(t: int, after: int)
    ensures t * MINUTE > after <==> t > after / MINUTE
  {
  }

  ghost predicate IsNextInstant(c: Cadence, z: Zone, anchor: int, after: int, instant: int)
    requires c.interval > 0 && TimeOf(c).Some?
  {
    exists t :: instant == t * MINUTE && IsNext(c, z, anchor, after / MINUTE, t)
  }

  /** The last month the scan looks at. */
  ghost predicate InScan(c: Cadence, from: int, d: int) {
    if c.every == "month" then 12 * Year(d) + Month(d) < 12 * Year(from) + Month(from) + 720
    else d < from + 2196
  }

  lemma OneMonthScanned(c: Cadence, z: Zone, anchor: int, after: int, from: int, y: int, m: int)
    requires c.interval > 0 && TimeOf(c).Some? && c.every == "month" && 1 <= m <= 12
    requires NoneIn(c, z, anchor, after, from, FirstOfMonth(y, m))
    requires MonthMatches(c, y, m, anchor) && Resolved(z, Wanted(c, MonthlyDate(c, y, m))).Some?
             ==> Resolved(z, Wanted(c, MonthlyDate(c, y, m))).value <= after
    ensures NoneIn(c, z, anchor, after, from, FirstOfMonth(NextMonth(y, m).0, NextMonth(y, m).1))
  {
    DaysInMonthIsLength(y, m);
    forall d, t | FirstOfMonth(y, m) <= d < FirstOfMonth(y, m) + MonthLength(y, m) && Occurs(c, z, anchor, d, t)
      ensures t <= after
    {
      MonthUnique(d, y, m);
    }
  }

  lemma FirstMonthIsNext(c: Cadence, z: Zone, anchor: int, after: int, y: int, m: int, t: int)
    requires c.interval > 0 && TimeOf(c).Some? && c.every == "month" && 1 <= m <= 12
    requires NoneIn(c, z, anchor, after, LocalDate(z, after), FirstOfMonth(y, m))
    requires MonthMatches(c, y, m, anchor) && Resolved(z, Wanted(c, MonthlyDate(c, y, m))) == Some(t) && t > after
    ensures IsNext(c, z, anchor, after, t)
  {
    MonthlyDateInMonth(c, y, m);
    forall d, s | FirstOfMonth(y, m) <= d < MonthlyDate(c, y, m)
      ensures !Occurs(c, z, anchor, d, s)
    {
      MonthUnique(d, y, m);
    }
    FirstFoundIsNext(c, z, anchor, after, MonthlyDate(c, y, m), t);
  }

  lemma MonthsScanned(c: Cadence, z: Zone, anchor: int, after: int, from: int, y: int, m: int)
    requires c.interval > 0 && TimeOf(c).Some? && c.every == "month" && 1 <= m <= 12
    requires 12 * y + m == 12 * Year(from) + Month(from) + MAX_MONTH_SCAN
    requires NoneIn(c, z, anchor, after, from, FirstOfMonth(y, m))
    ensures forall d, t :: from <= d && InScan(c, from, d) && Occurs(c, z, anchor, d, t) ==> t <= after
  {
    forall d, t | from <= d && InScan(c, from, d) && Occurs(c, z, anchor, d, t)
      ensures t <= after
    {
      MonthsInOrder(Year(d), Month(d), y, m);
    }
  }

  /** The scan reaches a slot before it ends. */
  lemma ScanFinds(c: Cadence, zones: Zones, z: Zone, anchor: int, after: int) returns (d: int, t: int)
    requires Usable(c, zones) && Sparse(z, MAX_GAP_MINUTES)
    ensures Occurs(c, z, anchor, d, t) && t > after
    ensures LocalDate(z, after) <= d && InScan(c, LocalDate(z, after), d)
  {
    var from := LocalDate(z, after);
    if c.every == "month" {
      d := MonthDue(c, anchor, from);
    } else if c.every == "week" {
      d := WeekDue(c, zones, anchor, from + 2);
    } else {
      d := DayDue(c, anchor, from + 2);
    }
    TwoDaysOn(c, z, after, d);
    t := Resolved(z, Wanted(c, d)).value;
  }

  // ---- What a cadence asks for, in its own words ----------------------------------------------

  /** `at` spells the time of day in two digits each. */
  predicate SpellsTime(at: string, hh: nat, mm: nat) {
    && hh < 24 && mm < 60 && |at| == 5 && at[2] == ':'
    && IsTwoDigits(at[..2]) && 10 * (at[0] - '0') as int + (at[1] - '0') as int == hh
    && IsTwoDigits(at[3..]) && 10 * (at[3] - '0') as int + (at[4] - '0') as int == mm
  }

  lemma {:induction false} SplitAtColon(h: string, m: string)
    requires ':' !in h
    ensures SplitColon(h + ":" + m) == Some((h, m))
  {
    var s := h + ":" + m;
    if h == "" {
      assert s[1..] == m;
    } else {
      SplitAtColon(h[1..], m);
      assert s[1..] == h[1..] + ":" + m;
      assert [h[0]] + h[1..] == h;
    }
  }

  lemma SpelledTime(c: Cadence, hh: nat, mm: nat)
    requires SpellsTime(c.at, hh, mm)
    ensures TimeOf(c) == Some((hh, mm))
  {
    SplitAtColon(c.at[..2], c.at[3..]);
    assert c.at == c.at[..2] + ":" + c.at[3..];
  }

  lemma TimeIsSpelled(c: Cadence)
    requires TimeOf(c).Some?
    ensures SpellsTime(c.at, TimeOf(c).value.0, TimeOf(c).value.1)
  {
    SplitColonJoins(c.at);
    var h, m := SplitColon(c.at).value.0, SplitColon(c.at).value.1;
    assert c.at[..2] == h && c.at[3..] == m;
  }

  /** The zone a cadence names; without one, or with one the database does not know, the
      zone whose wall clock is the instant itself. */
  ghost predicate ZoneAskedFor(c: Cadence, zones: Zones, z: Zone) {
    match c.tz
    case None => z.first == 0 && z.changes == []
    case Some(name) => if name in zones then z == zones[name] else z.first == 0 && z.changes == []
  }

  /** The wall clock of a zone shows a date at an instant. */
  ghost predicate ShowsDate(z: Zone, instant: int, date: int) {
    exists m :: 60_000_000_000 * m <= instant < 60_000_000_000 * (m + 1)
                && 1440 * date <= Local(z, m) < 1440 * (date + 1)
  }

  /** The dates of a cadence, told by whole intervals from the anchor date. */
  ghost predicate CadenceDate(c: Cadence, date: int, anchor: int) {
    var length := MonthLength(Year(date), Month(date));
    if c.every == "day" then WholeIntervals(date - anchor, c.interval)
    else if c.every == "week" then
      && ["mon", "tue", "wed", "thu", "fri", "sat", "sun"][Weekday(date)] in c.on
      && WholeIntervals((WeekStart(date) - WeekStart(anchor)) / 7, c.interval)
    else if c.every == "month" then
      && WholeIntervals(MonthIndex(date) - MonthIndex(anchor), c.interval)
      && DayOfMonth(date) == if DayWanted(c) < 1 then 1 else if DayWanted(c) <= length then DayWanted(c) else length
    else false
  }

  lemma CadenceDateIff(c: Cadence, date: int, anchor: int)
    requires c.interval > 0
    ensures OnCadence(c, date, anchor) <==> CadenceDate(c, date, anchor)
  {
    if c.every == "day" {
      DayDates(c, date, anchor);
    } else if c.every == "week" {
      WeekDates(c, date, anchor);
    } else if c.every == "month" {
      MonthDates(c, date, anchor);
    }
  }

  /** Minute `t` is the first at which the wall clock has reached the time of day on a date
      of the cadence, no more than 240 minutes late, and not late at all if the wall clock
      ever shows that very time. */
  ghost predicate FallsOn(c: Cadence, z: Zone, hh: nat, mm: nat, anchor: int, date: int, t: int) {
    var wanted := 1440 * date + 60 * hh + mm;
    && CadenceDate(c, date, anchor)
    && wanted <= Local(z, t) <= wanted + 240
    && (forall u :: u < t ==> Local(z, u) < wanted)
    && ((exists u :: Local(z, u) == wanted) ==> Local(z, t) == wanted)
  }

  lemma OccursIff(c: Cadence, z: Zone, hh: nat, mm: nat, anchor: int, date: int, t: int)
    requires c.interval > 0 && TimeOf(c) == Some((hh, mm)) && Sparse(z, DAY)
    ensures Occurs(c, z, anchor, date, t) <==> FallsOn(c, z, hh, mm, anchor, date, t)
  {
    CadenceDateIff(c, date, anchor);
    ResolvedIff(z, Wanted(c, date));
    if FallsOn(c, z, hh, mm, anchor, date, t) {
      var f := First(z, Wanted(c, date));
      FirstIsLeast(z, Wanted(c, date), t);
      FirstIsLeast(z, Wanted(c, date), f);
    }
  }

  /** `instant` is the first fall of the cadence strictly after `after`. */
  ghost predicate FirstFall(c: Cadence, z: Zone, hh: nat, mm: nat, anchor: int, after: int, instant: int) {
    exists date, t ::
      && FallsOn(c, z, hh, mm, anchor, date, t) && instant == 60_000_000_000 * t && instant > after
      && forall date', t' :: FallsOn(c, z, hh, mm, anchor, date', t') && 60_000_000_000 * t' > after ==> t <= t'
  }

  lemma NextIsFirstFall(c: Cadence, z: Zone, hh: nat, mm: nat, anchor: int, after: int, instant: int)
    requires c.interval > 0 && TimeOf(c) == Some((hh, mm)) && Sparse(z, DAY)
    requires IsNextInstant(c, z, anchor, after, instant)
    ensures FirstFall(c, z, hh, mm, anchor, after, instant)
  {
    var t :| instant == t * MINUTE && IsNext(c, z, anchor, after / MINUTE, t);
    var date :| Occurs(c, z, anchor, date, t);
    OccursIff(c, z, hh, mm, anchor, date, t);
    MinuteOrder(t, after);
    forall date', t' | FallsOn(c, z, hh, mm, anchor, date', t') && 60_000_000_000 * t' > after
      ensures t <= t'
    {
      NoEarlierFall(c, z, hh, mm, anchor, after, t, date', t');
    }
  }

  lemma NoEarlierFall(c: Cadence, z: Zone, hh: nat, mm: nat, anchor: int, after: int, t: int, date: int, s: int)
    requires c.interval > 0 && TimeOf(c) == Some((hh, mm)) && Sparse(z, DAY)
    requires IsNext(c, z, anchor, after / MINUTE, t)
    requires FallsOn(c, z, hh, mm, anchor, date, s) && 60_000_000_000 * s > after
    ensures t <= s
  {
    OccursIff(c, z, hh, mm, anchor, date, s);
    MinuteOrder(s, after);
    assert IsSlot(c, z, anchor, s);
  }

  lemma DateShown(z: Zone, instant: int, date: int)
    requires ShowsDate(z, instant, date)
    ensures date == LocalDate(z, instant / MINUTE)
  {
    var m :| 60_000_000_000 * m <= instant < 60_000_000_000 * (m + 1) && 1440 * date <= Local(z, m) < 1440 * (date + 1);
    FloorIs(instant, m);
    DateIs(Local(z, m), date);
  }

  lemma FloorIs(instant: int, m: int)
    requires 60_000_000_000 * m <= instant < 60_000_000_000 * (m + 1)
    ensures instant / MINUTE == m
  {
  }

  lemma DateIs(l: int, date: int)
    requires 1440 * date <= l < 1440 * (date + 1)
    ensures l / DAY == date
  {
  }

  ghost predicate GoodZones(zones: Zones, shift: int) {
    forall name :: name in zones ==> Sparse(zones[name], shift)
  }

  /** What the clock promises of its answer, told without the functions it is computed by:
      for the zone and the time of day the cadence asks for, and the date the anchor shows
      there, the answer is the first fall of the cadence strictly after `after`; and with
      no answer, no fall on a date of the scan lies after it. */
  ghost predicate Promised(c: Cadence, zones: Zones, after: int, anchor: int, r: Option<int>) {
    forall z, hh, mm, a ::
      ZoneAskedFor(c, zones, z) && SpellsTime(c.at, hh, mm) && ShowsDate(z, anchor, a) ==>
        Answered(c, z, hh, mm, a, after, r)
  }

  ghost predicate Answered(c: Cadence, z: Zone, hh: nat, mm: nat, a: int, after: int, r: Option<int>) {
    match r
    case Some(instant) => FirstFall(c, z, hh, mm, a, after, instant)
    case None =>
      forall from, date, t ::
        ShowsDate(z, after, from) && InScan(c, from, date) && FallsOn(c, z, hh, mm, a, date, t)
        ==> 60_000_000_000 * t <= after
  }

  lemma KeepsPromise(c: Cadence, zones: Zones, after: int, anchor: int, r: Option<int>)
    requires c.interval > 0 && GoodZones(zones, DAY)
    requires var z := TimeZone(c, zones);
             var anchorDate := LocalDate(z, anchor / MINUTE);
             var from := LocalDate(z, after / MINUTE);
             TimeOf(c).Some? ==>
               && (r.Some? ==> IsNextInstant(c, z, anchorDate, after, r.value))
               && (r.None? ==> forall d, t :: Occurs(c, z, anchorDate, d, t) && InScan(c, from, d) ==> t <= after / MINUTE)
    ensures Promised(c, zones, after, anchor, r)
  {
    forall z, hh, mm, a | ZoneAskedFor(c, zones, z) && SpellsTime(c.at, hh, mm) && ShowsDate(z, anchor, a)
      ensures Answered(c, z, hh, mm, a, after, r)
    {
      SpelledTime(c, hh, mm);
      DateShown(z, anchor, a);
      assert z == TimeZone(c, zones);
      assert Sparse(z, DAY);
      match r
      case Some(instant) => NextIsFirstFall(c, z, hh, mm, a, after, instant);
      case None =>
        forall from, date, t | ShowsDate(z, after, from) && InScan(c, from, date) && FallsOn(c, z, hh, mm, a, date, t)
          ensures 60_000_000_000 * t <= after
        {
          DateShown(z, after, from);
          OccursIff(c, z, hh, mm, a, date, t);
          MinuteOrder(t, after);
        }
    }
  }

  /** The first occurrence strictly after `after`: whatever is returned is exactly the
      least slot after it. For a usable cadence in a zone whose changes shift the clock by
      at most 240 minutes there always is one, so the scan never gives up; with larger
      shifts nothing is returned only when the whole scan holds no slot. */
  method NextSlotAfter(c: Cadence, zones: Zones, after: int, anchor: int) returns (r: Option<int>)
    requires c.interval > 0 && GoodZones(zones, DAY)
    ensures Promised(c, zones, after, anchor, r)
    ensures (forall hh, mm :: !SpellsTime(c.at, hh, mm)) ==> r.None?
    ensures forall z :: ZoneAskedFor(c, zones, z) && Usable(c, zones) && Sparse(z, 240) ==> r.Some?
    ensures var z := TimeZone(c, zones);
            var anchorDate := LocalDate(z, anchor / MINUTE);
            var from := LocalDate(z, after / MINUTE);
            TimeOf(c).Some? ==>
              && (r.Some? ==> IsNextInstant(c, z, anchorDate, after, r.value))
              && (r.None? ==> forall d, t :: Occurs(c, z, anchorDate, d, t) && InScan(c, from, d) ==> t <= after / MINUTE)
              && (Usable(c, zones) && Sparse(z, MAX_GAP_MINUTES) ==> r.Some?)
  {
    var z := TimeZone(c, zones);
    var time := ParseHhmm(c.at);
    if time.None? {
      KeepsPromise(c, zones, after, anchor, None);
      return None;
    }
    TimeIsSpelled(c);
    var (hh, mm) := time.value;
    var anchorDate := LocalDate(z, anchor / MINUTE);
    var fromDate := LocalDate(z, after / MINUTE);
    if c.every == "month" {
      r := ScanMonths(c, z, hh, mm, after, anchorDate, fromDate);
    } else {
      r := ScanDays(c, z, hh, mm, after, anchorDate, fromDate);
    }
    if r.None? {
      EarlierInScan(c, z, anchorDate, after / MINUTE, fromDate);
    }
    if r.None? && Usable(c, zones) && Sparse(z, MAX_GAP_MINUTES) {
      ghost var d, t := ScanFinds(c, zones, z, anchorDate, after / MINUTE);
    }
    KeepsPromise(c, zones, after, anchor, r);
  }

  lemma EarlierInScan(c: Cadence, z: Zone, anchor: int, after: int, from: int)
    requires c.interval > 0 && TimeOf(c).Some? && from == LocalDate(z, after)
    requires forall d, t :: from <= d && InScan(c, from, d) && Occurs(c, z, anchor, d, t) ==> t <= after
    ensures forall d, t :: Occurs(c, z, anchor, d, t) && InScan(c, from, d) ==> t <= after
  {
    forall d, t | Occurs(c, z, anchor, d, t) && d < from
      ensures t <= after
    {
      EarlierDatesAreOver(c, z, anchor, after, d, t);
    }
  }

  /** The day scan of `next_slot_after`, for the units day and week. */
  method ScanDays(c: Cadence, z: Zone, hh: nat, mm: nat, after: int, anchor: int, from: int) returns (r: Option<int>)
    requires c.interval > 0 && c.every != "month" && Sparse(z, DAY)
    requires TimeOf(c) == Some((hh, mm)) && from == LocalDate(z, after / MINUTE)
    ensures r.Some? ==> IsNextInstant(c, z, anchor, after, r.value)
    ensures r.None? ==> NoneIn(c, z, anchor, after / MINUTE, from, from + MAX_DAY_SCAN)
  {
    var date := from;
    for i := 0 to MAX_DAY_SCAN
      invariant date == from + i
      invariant NoneIn(c, z, anchor, after / MINUTE, from, date)
    {
      if DayMatches(c, date, anchor) {
        var resolved := ResolveLocal(z, date, hh, mm);
        if resolved.Some? {
          MinuteOrder(resolved.value, after);
          if resolved.value * MINUTE > after {
            FirstFoundIsNext(c, z, anchor, after / MINUTE, date, resolved.value);
            return Some(resolved.value * MINUTE);
          }
        }
      }
      date := date + 1;
    }
    return None;
  }

  /** What one month of the scan offers: its occurrence, if that is after `after`. */
  method MonthSlot(c: Cadence, z: Zone, hh: nat, mm: nat, after: int, anchor: int, year: int, month: int)
    returns (r: Option<int>)
    requires c.interval > 0 && 1 <= month <= 12 && TimeOf(c) == Some((hh, mm)) && Sparse(z, DAY)
    ensures r == if MonthMatches(c, year, month, anchor)
                 then Later(Resolved(z, Wanted(c, MonthlyDate(c, year, month))), after / MINUTE)
                 else None
  {
    if MonthMatches(c, year, month, anchor) {
      var date := MonthlyDate(c, year, month);
      var resolved := ResolveLocal(z, date, hh, mm);
      if resolved.Some? {
        MinuteOrder(resolved.value, after);
        if resolved.value * MINUTE > after {
          return resolved;
        }
      }
    }
    return None;
  }

  function Later(t: Option<int>, after: int): Option<int> {
    if t.Some? && t.value > after then t else None
  }

  /** The month scan of `next_slot_after`. */
  method ScanMonths(c: Cadence, z: Zone, hh: nat, mm: nat, after: int, anchor: int, from: int) returns (r: Option<int>)
    requires c.interval > 0 && c.every == "month" && Sparse(z, DAY)
    requires TimeOf(c) == Some((hh, mm)) && from == LocalDate(z, after / MINUTE)
    ensures r.Some? ==> IsNextInstant(c, z, anchor, after, r.value)
    ensures r.None? ==> forall d, t :: from <= d && InScan(c, from, d) && Occurs(c, z, anchor, d, t) ==> t <= after / MINUTE
  {
    var year, month := Year(from), Month(from);
    for i := 0 to MAX_MONTH_SCAN
      invariant 1 <= month <= 12 && 12 * year + month == 12 * Year(from) + Month(from) + i
      invariant NoneIn(c, z, anchor, after / MINUTE, from, FirstOfMonth(year, month))
    {
      var slot := MonthSlot(c, z, hh, mm, after, anchor, year, month);
      if slot.Some? {
        FirstMonthIsNext(c, z, anchor, after / MINUTE, year, month, slot.value);
        return Some(slot.value * MINUTE);
      }
      OneMonthScanned(c, z, anchor, after / MINUTE, from, year, month);
      var (y, m) := NextMonth(year, month);
      year, month := y, m;
    }
    MonthsScanned(c, z, anchor, after / MINUTE, from, year, month);
    return None;
  }

  // ---- Slots form a chain -------------------------------------------------------------------

  /** There is a next slot after every minute. */
  lemma NextExists(c: Cadence, zones: Zones, z: Zone, anchor: int, after: int) returns (t: int)
    requires Usable(c, zones) && Sparse(z, MAX_GAP_MINUTES)
    ensures IsNext(c, z, anchor, after, t)
  {
    var from := LocalDate(z, after);
    var d, found := ScanFinds(c, zones, z, anchor, after);
    var lo := from;
    while !(OnCadence(c, lo, anchor) && Resolved(z, Wanted(c, lo)).Some? && Resolved(z, Wanted(c, lo)).value > after)
      invariant lo <= d && NoneIn(c, z, anchor, after, from, lo)
      decreases d - lo
    {
      lo := lo + 1;
    }
    t := Resolved(z, Wanted(c, lo)).value;
    FirstFoundIsNext(c, z, anchor, after, lo, t);
  }

  /** `next_slot_after` is a monotone function of the instant, and constant on each
      half-open gap between two slots. */
  lemma NextMonotone(c: Cadence, z: Zone, anchor: int, after: int, later: int, s: int, s': int)
    requires c.interval > 0 && TimeOf(c).Some? && after <= later
    requires IsNext(c, z, anchor, after, s) && IsNext(c, z, anchor, later, s')
    ensures s <= s'
    ensures later < s <==> s == s'
  {
  }

  /** Slots reach back without end: being before the anchor rules out none. */
  lemma SlotBefore(c: Cadence, zones: Zones, z: Zone, anchor: int, x: int) returns (t: int)
    requires Usable(c, zones) && Sparse(z, MAX_GAP_MINUTES)
    ensures IsSlot(c, z, anchor, t) && t <= x
  {
    var d := OnCadenceBefore(c, zones, anchor, LocalDate(z, x));
    SmallShiftResolves(z, Wanted(c, d));
    t := Resolved(z, Wanted(c, d)).value;
    assert Occurs(c, z, anchor, d, t);
    EarlierDatesAreOver(c, z, anchor, x, d, t);
  }

  lemma OnCadenceBefore(c: Cadence, zones: Zones, anchor: int, x: int) returns (d: int)
    requires Usable(c, zones)
    ensures OnCadence(c, d, anchor) && d < x
  {
    if c.every == "day" {
      d := DayDue(c, anchor, x - 100);
    } else if c.every == "week" {
      d := WeekDue(c, zones, anchor, x - 500);
    } else {
      d := MonthDue(c, anchor, x - 5000);
      MonthSpan(x - 5000, x, Year(d), Month(d));
    }
  }

  /** Five thousand days are more than sixty months. */
  lemma MonthSpan(x: int, x': int, y: int, m: int)
    requires x + 5000 <= x' && 1 <= m <= 12 && 12 * y + m <= 12 * Year(x) + Month(x) + 60
    ensures FirstOfMonth(y, m) + MonthLength(y, m) <= x'
  {
    MonthsSpan(Year(x), Month(x), y, m);
  }

  lemma {:induction false} MonthsSpan(y: int, m: int, ny: int, nm: int)
    requires 1 <= m <= 12 && 1 <= nm <= 12
    ensures 12 * y + m <= 12 * ny + nm ==>
              FirstOfMonth(ny, nm) - FirstOfMonth(y, m) <= 31 * (12 * ny + nm - 12 * y - m)
    ensures 12 * ny + nm <= 12 * y + m ==> FirstOfMonth(ny, nm) <= FirstOfMonth(y, m)
    decreases 12 * ny + nm - 12 * y - m
  {
    if 12 * y + m < 12 * ny + nm {
      DaysInMonthIsLength(y, m);
      MonthsSpan(NextMonth(y, m).0, NextMonth(y, m).1, ny, nm);
    } else if 12 * ny + nm < 12 * y + m {
      MonthsInOrder(ny, nm, y, m);
    }
  }

  /** The occurrences partition the timeline: every minute belongs to exactly one slot,
      from the slot on until the slot after it, which is when it expires. */
  lemma OwningSlot(c: Cadence, zones: Zones, z: Zone, anchor: int, x: int) returns (s: int, expires: int)
    requires Usable(c, zones) && Sparse(z, MAX_GAP_MINUTES)
    ensures IsSlot(c, z, anchor, s) && IsNext(c, z, anchor, s, expires) && s <= x < expires
    ensures forall s', e' :: IsSlot(c, z, anchor, s') && IsNext(c, z, anchor, s', e') && s' <= x < e' ==> s' == s
  {
    s := SlotBefore(c, zones, z, anchor, x);
    expires := NextExists(c, zones, z, anchor, s);
    while expires <= x
      invariant IsSlot(c, z, anchor, s) && IsNext(c, z, anchor, s, expires) && s <= x
      decreases x - s
    {
      s := expires;
      expires := NextExists(c, zones, z, anchor, s);
    }
  }

  // ---- Moving the anchor ----------------------------------------------------------------------

  /** A week cadence only looks at the anchor's week modulo the interval: moving the
      anchor by whole intervals of weeks, or inside its week, changes no date. */
  lemma WeekAnchor(c: Cadence, date: int, anchor: int, anchor': int, k: int)
    requires c.every == "week" && c.interval > 0
    requires WeekStart(anchor') == WeekStart(anchor) + 7 * (c.interval * k)
    ensures OnCadence(c, date, anchor) <==> OnCadence(c, date, anchor')
  {
    var n := c.interval;
    var w := (WeekStart(date) - WeekStart(anchor)) / 7;
    WholeWeeks(date, anchor, anchor', n * k);
    assert (w - n * k) % n == w % n by {
      assert w == n * (w / n) + w % n;
      assert n * (w / n - k) == n * (w / n) - n * k;
      ModUnique(w - n * k, n, w / n - k, w % n);
    }
  }

  lemma WholeWeeks(date: int, anchor: int, anchor': int, weeks: int)
    requires WeekStart(anchor') == WeekStart(anchor) + 7 * weeks
    ensures (WeekStart(date) - WeekStart(anchor')) / 7 == (WeekStart(date) - WeekStart(anchor)) / 7 - weeks
  {
  }
}
