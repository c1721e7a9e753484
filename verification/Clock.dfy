/** The slot grid and the market sessions. An instant counts microseconds; day 0 is a Monday. */
module Clock {
  import opened Wrappers

  const MINUTE := 60_000_000
  const HOUR := 60 * MINUTE
  const DAY := 24 * HOUR

  function Date(ts: int): int {
    ts / DAY
  }

  function TimeOfDay(ts: int): int {
    ts % DAY
  }

  /** Monday is 0. */
  function Weekday(day: int): int {
    day % 7
  }

  // ------------------------------------------------------------------ the slot grid

  const SLOT_HOURS := [2, 6, 10, 14, 18, 22]
  const SLOT_MINUTE := 40

  function SlotOf(day: int, hour: int): int {
    day * DAY + hour * HOUR + SLOT_MINUTE * MINUTE
  }

  /** The slots of the day of `ts`, then those of the day before. */
  function Candidates(ts: int): (c: seq<int>)
    ensures |c| == 2 * |SLOT_HOURS|
  {
    seq(|SLOT_HOURS|, k requires 0 <= k < |SLOT_HOURS| => SlotOf(Date(ts), SLOT_HOURS[k])) +
    seq(|SLOT_HOURS|, k requires 0 <= k < |SLOT_HOURS| => SlotOf(Date(ts) - 1, SLOT_HOURS[k]))
  }

  /** The greatest candidate at or before `ts`, if any is. */
  function Latest(candidates: seq<int>, ts: int): (r: Option<int>)
    ensures r.Some? ==> r.value in candidates && r.value <= ts
    ensures forall k :: 0 <= k < |candidates| && candidates[k] <= ts ==> r.Some? && candidates[k] <= r.value
  {
    if |candidates| == 0 then None else
    var last, before := candidates[|candidates| - 1], Latest(candidates[..|candidates| - 1], ts);
    assert forall k :: 0 <= k < |candidates| - 1 ==> candidates[..|candidates| - 1][k] == candidates[k];
    if last <= ts && (before.None? || last > before.value) then Some(last) else before
  }

  /** The first slot of day 0, and the time from one slot to the next. */
  const FIRST_SLOT := SlotOf(0, 2)
  const PERIOD := 4 * HOUR

  /** A time on the grid: 02:40 UTC and every four hours. */
  predicate OnGrid(t: int) {
    (t - FIRST_SLOT) % PERIOD == 0
  }

  /** The closed form of the scan: the floor on the grid. */
  function GridFloor(ts: int): int {
    FIRST_SLOT + (ts - FIRST_SLOT) / PERIOD * PERIOD
  }

  lemma HourOf(k: nat)
    requires k < |SLOT_HOURS|
    ensures SLOT_HOURS[k] == 2 + 4 * k
  {
    assert SLOT_HOURS == [2, 6, 10, 14, 18, 22];
  }

  /** The `k`-th slot of a day is a whole number of periods after the first. */
  lemma SlotInPeriods(day: int, k: nat)
    requires k < |SLOT_HOURS|
    ensures SlotOf(day, SLOT_HOURS[k]) == FIRST_SLOT + (6 * day + k) * PERIOD
  {
    HourOf(k);
    hide SLOT_HOURS;
  }

  lemma PeriodsAreOnGrid(n: int)
    ensures OnGrid(FIRST_SLOT + n * PERIOD)
  {
  }

  lemma CandidateAt(ts: int, i: nat)
    requires i < 2 * |SLOT_HOURS|
    ensures var day, k := if i < 6 then Date(ts) else Date(ts) - 1, if i < 6 then i else i - 6;
      Candidates(ts)[i] == FIRST_SLOT + (6 * day + k) * PERIOD
  {
    SlotInPeriods(if i < 6 then Date(ts) else Date(ts) - 1, if i < 6 then i else i - 6);
    hide SlotOf, FIRST_SLOT, PERIOD, DAY;
  }

  lemma FloorIsACandidate(ts: int) returns (i: nat)
    ensures i < 2 * |SLOT_HOURS| && Candidates(ts)[i] == GridFloor(ts)
  {
    var k := (ts - FIRST_SLOT) / PERIOD - 6 * Date(ts);
    assert -1 <= k < 6;
    i := if k >= 0 then k else 11;
    CandidateAt(ts, i);
  }

  lemma FloorProperty(ts: int)
    ensures OnGrid(GridFloor(ts)) && GridFloor(ts) <= ts < GridFloor(ts) + PERIOD
  {
    PeriodsAreOnGrid((ts - FIRST_SLOT) / PERIOD);
  }

  lemma GridGap(a: int, b: int, ts: int)
    requires OnGrid(a) && OnGrid(b) && a <= ts < a + PERIOD && b <= ts && a <= b
    ensures a == b
  {
  }

  lemma CandidateOnGrid(ts: int, i: nat)
    requires i < 2 * |SLOT_HOURS|
    ensures OnGrid(Candidates(ts)[i])
  {
    hide SlotOf, FIRST_SLOT, PERIOD, DAY, Candidates, OnGrid;
    CandidateAt(ts, i);
    PeriodsAreOnGrid(6 * (if i < 6 then Date(ts) else Date(ts) - 1) + if i < 6 then i else i - 6);
  }

  /** The scan over two days always finds a slot, and it is the floor on the grid. */
  lemma {:induction false} ScanIsFloor(ts: int)
    ensures Latest(Candidates(ts), ts) == Some(GridFloor(ts))
  {
    hide SLOT_HOURS, FIRST_SLOT, PERIOD, DAY, SlotOf, OnGrid, Candidates, Latest, GridFloor, Date;
    var i := FloorIsACandidate(ts);
    FloorProperty(ts);
    var r := Latest(Candidates(ts), ts);
    var j :| 0 <= j < |Candidates(ts)| && Candidates(ts)[j] == r.value;
    CandidateOnGrid(ts, j);
    GridGap(GridFloor(ts), r.value, ts);
  }

  function SlotAtOrBefore(ts: int): (slot: int)
    ensures OnGrid(slot) && slot <= ts < slot + PERIOD
  {
    ScanIsFloor(ts);
    FloorProperty(ts);
    Latest(Candidates(ts), ts).value
  }

  function NextSlot(ts: int): int {
    SlotAtOrBefore(ts) + 4 * HOUR
  }

  /** The slot of an instant is the only grid time with the instant in its four hours. */
  lemma {:induction false} SlotIsUnique(ts: int, slot: int)
    ensures OnGrid(slot) && slot <= ts < slot + 4 * HOUR <==> slot == SlotAtOrBefore(ts)
  {
    hide SlotAtOrBefore;
    if OnGrid(slot) && slot <= ts < slot + 4 * HOUR {
      if slot <= SlotAtOrBefore(ts) {
        GridGap(slot, SlotAtOrBefore(ts), ts);
      } else {
        GridGap(SlotAtOrBefore(ts), slot, ts);
      }
    }
  }

  /** The next slot is the first grid time after the instant, and its own slot. */
  lemma {:induction false} NextSlotIsNext(ts: int)
    ensures OnGrid(NextSlot(ts)) && NextSlot(ts) > ts && SlotAtOrBefore(NextSlot(ts)) == NextSlot(ts)
    ensures forall t :: OnGrid(t) && t > ts ==> t >= NextSlot(ts)
  {
    hide SlotAtOrBefore;
    SlotIsUnique(NextSlot(ts), NextSlot(ts));
    forall t | OnGrid(t) && t > ts
      ensures t >= NextSlot(ts)
    {
      if t < NextSlot(ts) {
        GridGap(SlotAtOrBefore(ts), t, t);
      }
    }
  }

  /** The grid in hours and minutes: 02:40, 06:40, 10:40, 14:40, 18:40 and 22:40 of every day. */
  lemma GridInMinutes(t: int)
    ensures OnGrid(t) <==>
      exists day: int, k: int :: 0 <= k < 6 && t == ((day * 24 + 2 + 4 * k) * 60 + 40) * 60_000_000
  {
    var q := (t - FIRST_SLOT) / PERIOD;
    var day, k := q / 6, q % 6;
    if OnGrid(t) {
      assert t == FIRST_SLOT + q * PERIOD && q == 6 * day + k;
      assert t == ((day * 24 + 2 + 4 * k) * 60 + 40) * 60_000_000;
    }
    forall day: int, k: int | 0 <= k < 6 && t == ((day * 24 + 2 + 4 * k) * 60 + 40) * 60_000_000
      ensures OnGrid(t)
    {
      assert t == FIRST_SLOT + (6 * day + k) * PERIOD;
      PeriodsAreOnGrid(6 * day + k);
    }
  }

  // ------------------------------------------------------------------ market sessions, in local time

  datatype Session = Us | Lse | Fx | Crypto

  /** The exchange calendars and the CFD trade dates without a session, by day. */
  datatype Calendar = Calendar(usHolidays: set<int>, usEarly: set<int>, ukHolidays: set<int>, lseEarly: set<int>,
                               lastDay: int, fxClosed: int -> bool)

  datatype Hours = Hours(open: int, close: int)

  const US_OPEN := 9 * HOUR + 30 * MINUTE
  const US_CLOSE := 16 * HOUR
  const US_EARLY_CLOSE := 13 * HOUR
  const LSE_OPEN := 8 * HOUR
  const LSE_CLOSE := 16 * HOUR + 30 * MINUTE
  const LSE_EARLY_CLOSE := 12 * HOUR + 30 * MINUTE
  const FX_BREAK := 17 * HOUR
  const FX_REOPEN := 18 * HOUR

  /** The hours of an exchange on its local day; None when it is shut all day. */
  function SessionHours(cal: Calendar, session: Session, day: int, closing: bool): Option<Hours>
    requires session.Us? || session.Lse?
  {
    if Weekday(day) >= 5 then None else
    var start := if session.Lse? then LSE_OPEN else US_OPEN;
    var end := if session.Lse? then LSE_CLOSE else US_CLOSE;
    if day > cal.lastDay then
      if closing then Some(Hours(day * DAY + start, day * DAY + end)) else None
    else if day in (if session.Lse? then cal.ukHolidays else cal.usHolidays) then None
    else
      var end' := if session.Lse? && day in cal.lseEarly then LSE_EARLY_CLOSE
                  else if session.Us? && day in cal.usEarly then US_EARLY_CLOSE else end;
      Some(Hours(day * DAY + start, day * DAY + end'))
  }

  /** The exchanges' hours in minutes of the local day: New York from 9:30 to 16:00, on early days to 13:00; London
      from 8:00 to 16:30, on half days to 12:30; weekends and holidays shut. Past the calendars the regular hours
      hold for closing orders alone. */
  lemma HoursInMinutes(cal: Calendar, session: Session, day: int, closing: bool)
    requires session.Us? || session.Lse?
    ensures var hours, us := SessionHours(cal, session, day, closing), session.Us?;
      var known, weekend := day <= cal.lastDay, day % 7 == 5 || day % 7 == 6;
      var holiday, early := day in (if us then cal.usHolidays else cal.ukHolidays), day in (if us then cal.usEarly else cal.lseEarly);
      && (hours.None? <==> weekend || (known && holiday) || (!known && !closing))
      && (hours.Some? ==>
           var open := (if us then 570 else 480) * 60_000_000;
           var close := (if !known || !early then if us then 960 else 990 else if us then 780 else 750) * 60_000_000;
           hours.value == Hours(day * 86_400_000_000 + open, day * 86_400_000_000 + close))
  {
  }

  predicate DaySessionOpen(cal: Calendar, session: Session, ts: int, closing: bool)
    requires session.Us? || session.Lse?
  {
    var hours := SessionHours(cal, session, Date(ts), closing);
    hours.Some? && hours.value.open <= ts < hours.value.close
  }

  predicate FxOpen(cal: Calendar, ts: int) {
    var wd, t := Weekday(Date(ts)), TimeOfDay(ts);
    var tradeDate := if t >= FX_REOPEN then Date(ts) + 1 else Date(ts);
    if cal.fxClosed(tradeDate) then false
    else if wd == 5 then false
    else if wd == 6 then t >= FX_REOPEN
    else if wd == 4 && t >= FX_BREAK then false
    else !(FX_BREAK <= t < FX_REOPEN)
  }

  predicate SessionOpen(cal: Calendar, session: Session, ts: int, closing: bool) {
    match session
    case Crypto => true
    case Fx => FxOpen(cal, ts)
    case _ => DaySessionOpen(cal, session, ts, closing)
  }

  /** The close the scan finds on one day, if that day has a session. */
  function CloseOn(cal: Calendar, session: Session, day: int): Option<int>
    requires !session.Crypto?
  {
    if session.Fx? then
      if Weekday(day) >= 5 || cal.fxClosed(day) then None else Some(day * DAY + FX_BREAK)
    else
      var hours := SessionHours(cal, session, day, true);
      if hours.Some? then Some(hours.value.close) else None
  }

  /** The scan of `session_close_after` from the `offset`-th day; an error when no day is left. */
  function CloseFrom(cal: Calendar, session: Session, ts: int, offset: nat): Result<int, string>
    requires !session.Crypto?
    decreases 14 - offset
  {
    if offset >= 14 then Err("no close within two weeks") else
    var close := CloseOn(cal, session, Date(ts) + offset);
    if close.Some? && close.value > ts then Ok(close.value) else CloseFrom(cal, session, ts, offset + 1)
  }

  function SessionCloseAfter(cal: Calendar, session: Session, ts: int): Result<Option<int>, string> {
    if session.Crypto? then Ok(None) else
    match CloseFrom(cal, session, ts, 0)
    case Ok(close) => Ok(Some(close))
    case Err(e) => Err(e)
  }

  /** The session that opens on a local day: its opening and its close. */
  function OpensOn(cal: Calendar, session: Session, day: int): Option<Hours>
    requires !session.Crypto?
  {
    if session.Fx? then
      if !(Weekday(day) in {6, 0, 1, 2, 3}) || cal.fxClosed(day + 1) then None
      else Some(Hours(day * DAY + FX_REOPEN, (day + 1) * DAY + FX_BREAK))
    else SessionHours(cal, session, day, true)
  }

  function OpenFrom(cal: Calendar, session: Session, ts: int, offset: nat): Result<int, string>
    requires !session.Crypto?
    decreases 15 - offset
  {
    if offset >= 15 then Err("no session within two weeks") else
    var hours := OpensOn(cal, session, Date(ts) + offset);
    if hours.Some? && hours.value.open > ts then Ok(hours.value.close) else OpenFrom(cal, session, ts, offset + 1)
  }

  function NextSessionClose(cal: Calendar, session: Session, ts: int): Result<Option<int>, string> {
    if session.Crypto? then Ok(None) else
    match OpenFrom(cal, session, ts, 0)
    case Ok(close) => Ok(Some(close))
    case Err(e) => Err(e)
  }

  const NEXT_SLOT_MARGIN := 5 * MINUTE
  const LEG_CLOSE_MARGIN := 10 * MINUTE

  /** A time zone: the local time of a UTC instant, and the UTC instant of a local time. */
  datatype Zone = Zone(local: int -> int, utc: int -> int)

  /** A leg's approval deadline in UTC. */
  function LegValidUntil(cal: Calendar, session: Option<Session>, asof: int, zone: Zone): Result<int, string> {
    var limit := NextSlot(asof) - NEXT_SLOT_MARGIN;
    if session.None? || session.value.Crypto? then Ok(limit) else
    match SessionCloseAfter(cal, session.value, zone.local(asof))
    case Err(e) => Err(e)
    case Ok(None) => Ok(limit)
    case Ok(Some(close)) =>
      var margin := zone.utc(close) - LEG_CLOSE_MARGIN;
      Ok(if limit <= margin then limit else margin)
  }
}
