/** The sessions as intervals, and what the clock's scans promise about them. */
module Sessions {
  import opened Wrappers
  import opened Clock

  /** The session of a trading day: an exchange's day hours, or the CFD session that opens at 18:00 the
      evening before and closes at 17:00. */
  function SessionOf(cal: Calendar, session: Session, day: int): Option<Hours>
    requires !session.Crypto?
  {
    if session.Fx? then
      if Weekday(day) < 5 && !cal.fxClosed(day)
      then Some(Hours((day - 1) * DAY + FX_REOPEN, day * DAY + FX_BREAK)) else None
    else SessionHours(cal, session, day, true)
  }

  /** The exchange calendars know the day; a CFD session needs none. */
  predicate Known(cal: Calendar, session: Session, day: int) {
    session.Fx? || day <= cal.lastDay
  }

  predicate InSession(cal: Calendar, session: Session, day: int, ts: int)
    requires !session.Crypto?
  {
    var hours := SessionOf(cal, session, day);
    hours.Some? && hours.value.open <= ts < hours.value.close
  }

  /** The trading day an instant belongs to: a CFD evening from 18:00 counts for the next day. */
  function TradingDay(session: Session, ts: int): int {
    if session.Fx? && TimeOfDay(ts) >= FX_REOPEN then Date(ts) + 1 else Date(ts)
  }

  lemma InstantOfDay(ts: int)
    ensures ts == Date(ts) * DAY + TimeOfDay(ts) && 0 <= TimeOfDay(ts) < DAY
  {
  }

  lemma OnlyItsTradingDay(cal: Calendar, session: Session, day: int, ts: int)
    requires !session.Crypto? && InSession(cal, session, day, ts)
    ensures day == TradingDay(session, ts)
  {
    InstantOfDay(ts);
  }

  /** The market is open at an instant exactly when the instant lies in the session of some trading day. */
  lemma OpenExactlyInASession(cal: Calendar, session: Session, ts: int, closing: bool)
    requires !session.Crypto?
    ensures SessionOpen(cal, session, ts, closing) <==>
            exists day :: InSession(cal, session, day, ts) && (closing || Known(cal, session, day))
  {
    var day := TradingDay(session, ts);
    InstantOfDay(ts);
    assert SessionOpen(cal, session, ts, closing) <==>
           InSession(cal, session, day, ts) && (closing || Known(cal, session, day));
    forall d | InSession(cal, session, d, ts)
      ensures d == day
    {
      OnlyItsTradingDay(cal, session, d, ts);
    }
  }

  lemma ClosesItsSession(cal: Calendar, session: Session, day: int)
    requires !session.Crypto?
    ensures CloseOn(cal, session, day) ==
            if SessionOf(cal, session, day).Some? then Some(SessionOf(cal, session, day).value.close) else None
  {
  }

  /** In minutes of New York time: from 18:00 of the evening before to 17:00 of a weekday that is no closed trade
      date. */
  predicate InCfdHours(cal: Calendar, day: int, ts: int) {
    day % 7 != 5 && day % 7 != 6 && !cal.fxClosed(day) &&
    (day * 1440 - 360) * 60_000_000 <= ts < (day * 1440 + 1020) * 60_000_000
  }

  /** The CFD market is open in those hours of some day and at no other time. */
  lemma {:induction false} CfdHoursInMinutes(cal: Calendar, ts: int, closing: bool)
    ensures SessionOpen(cal, Fx, ts, closing) <==> exists day :: InCfdHours(cal, day, ts)
  {
    OpenExactlyInASession(cal, Fx, ts, closing);
    forall day: int
      ensures InSession(cal, Fx, day, ts) <==> InCfdHours(cal, day, ts)
    {
    }
    hide SessionOpen, InSession, InCfdHours;
    if day :| InCfdHours(cal, day, ts) {
      assert InSession(cal, Fx, day, ts);
    }
  }

  lemma {:induction false} CloseScan(cal: Calendar, session: Session, ts: int, offset: nat, day: int)
    requires !session.Crypto? && Date(ts) + offset <= day < Date(ts) + 14 && offset < 14
    requires CloseOn(cal, session, day).Some? && CloseOn(cal, session, day).value > ts
    requires forall d :: Date(ts) + offset <= d < day ==>
      CloseOn(cal, session, d).None? || CloseOn(cal, session, d).value <= ts
    ensures CloseFrom(cal, session, ts, offset) == Ok(CloseOn(cal, session, day).value)
    decreases 14 - offset
  {
    hide CloseOn, Date;
    if Date(ts) + offset < day {
      CloseScan(cal, session, ts, offset + 1, day);
    }
  }

  lemma {:induction false} ScanFindsSession(cal: Calendar, session: Session, day: int, ts: int)
    requires !session.Crypto? && InSession(cal, session, day, ts)
    ensures SessionCloseAfter(cal, session, ts) == Ok(Some(SessionOf(cal, session, day).value.close))
  {
    InstantOfDay(ts);
    OnlyItsTradingDay(cal, session, day, ts);
    assert CloseOn(cal, session, day) == Some(SessionOf(cal, session, day).value.close);
    if day > Date(ts) {
      assert session.Fx? && day == Date(ts) + 1 && TimeOfDay(ts) >= FX_REOPEN;
      assert CloseOn(cal, session, Date(ts)).Some? ==> CloseOn(cal, session, Date(ts)).value <= ts;
    }
    hide CloseFrom, SessionOf, CloseOn, InSession, Date;
    CloseScan(cal, session, ts, 0, day);
  }

  lemma ShutAtClose(cal: Calendar, session: Session, day: int, d: int)
    requires !session.Crypto? && SessionOf(cal, session, day).Some?
    ensures !InSession(cal, session, d, SessionOf(cal, session, day).value.close)
  {
    if d < day {
      if SessionOf(cal, session, d).Some? {
        ClosesAscend(cal, session, d, day);
      }
    } else if day < d && SessionOf(cal, session, d).Some? {
      ClosesAscend(cal, session, day, d);
    }
  }

  /** If a session is open it is open until the close the clock names, and shut then: across midnight,
      weekends and closed trade dates. */
  lemma {:induction false} OpenUntilItsClose(cal: Calendar, session: Session, ts: int, closing: bool)
    requires !session.Crypto? && SessionOpen(cal, session, ts, closing)
    ensures SessionCloseAfter(cal, session, ts).Ok? && SessionCloseAfter(cal, session, ts).value.Some?
    ensures var close := SessionCloseAfter(cal, session, ts).value.value;
      && close > ts
      && (forall t :: ts <= t < close ==> SessionOpen(cal, session, t, closing))
      && !SessionOpen(cal, session, close, closing)
  {
    hide SessionOpen, SessionOf, SessionCloseAfter, Known;
    OpenExactlyInASession(cal, session, ts, closing);
    var day :| InSession(cal, session, day, ts) && (closing || Known(cal, session, day));
    ScanFindsSession(cal, session, day, ts);
    var close := SessionOf(cal, session, day).value.close;
    forall t | ts <= t < close
      ensures SessionOpen(cal, session, t, closing)
    {
      OpenExactlyInASession(cal, session, t, closing);
      assert InSession(cal, session, day, t);
    }
    OpenExactlyInASession(cal, session, close, closing);
    forall d
      ensures !InSession(cal, session, d, close)
    {
      ShutAtClose(cal, session, day, d);
    }
  }

  lemma {:induction false} CloseFromIsFirst(cal: Calendar, session: Session, ts: int, offset: nat) returns (day: int)
    requires !session.Crypto? && CloseFrom(cal, session, ts, offset).Ok?
    ensures Date(ts) + offset <= day && SessionOf(cal, session, day).Some?
    ensures CloseFrom(cal, session, ts, offset) == Ok(SessionOf(cal, session, day).value.close)
    ensures SessionOf(cal, session, day).value.close > ts
    ensures forall d :: Date(ts) + offset <= d < day && SessionOf(cal, session, d).Some? ==>
      SessionOf(cal, session, d).value.close <= ts
    decreases 14 - offset
  {
    hide SessionOf, CloseOn, Date;
    var here := Date(ts) + offset;
    ClosesItsSession(cal, session, here);
    if CloseOn(cal, session, here).Some? && CloseOn(cal, session, here).value > ts {
      day := here;
    } else {
      day := CloseFromIsFirst(cal, session, ts, offset + 1);
    }
  }

  lemma EarlierDaysClosed(cal: Calendar, session: Session, ts: int, d: int)
    requires !session.Crypto? && d < Date(ts) && SessionOf(cal, session, d).Some?
    ensures SessionOf(cal, session, d).value.close <= ts
  {
    InstantOfDay(ts);
  }

  /** The close the clock names is the first close of any session strictly after the instant. */
  lemma CloseAfterIsFirst(cal: Calendar, session: Session, ts: int) returns (day: int)
    requires !session.Crypto? && SessionCloseAfter(cal, session, ts).Ok?
    ensures SessionOf(cal, session, day).Some?
    ensures SessionCloseAfter(cal, session, ts) == Ok(Some(SessionOf(cal, session, day).value.close))
    ensures SessionOf(cal, session, day).value.close > ts
    ensures forall d :: d < day && SessionOf(cal, session, d).Some? ==> SessionOf(cal, session, d).value.close <= ts
  {
    day := CloseFromIsFirst(cal, session, ts, 0);
    forall d | d < Date(ts) && SessionOf(cal, session, d).Some?
      ensures SessionOf(cal, session, d).value.close <= ts
    {
      EarlierDaysClosed(cal, session, ts, d);
    }
  }

  /** The trading day of the session that opens on a local day. */
  function DayOpened(session: Session, day: int): int {
    if session.Fx? then day + 1 else day
  }

  lemma OpensItsSession(cal: Calendar, session: Session, day: int)
    requires !session.Crypto?
    ensures OpensOn(cal, session, day) == SessionOf(cal, session, DayOpened(session, day))
  {
  }

  lemma {:induction false} OpenFromIsFirst(cal: Calendar, session: Session, ts: int, offset: nat) returns (day: int)
    requires !session.Crypto? && OpenFrom(cal, session, ts, offset).Ok?
    ensures Date(ts) + offset <= day && OpensOn(cal, session, day).Some?
    ensures OpenFrom(cal, session, ts, offset) == Ok(OpensOn(cal, session, day).value.close)
    ensures OpensOn(cal, session, day).value.open > ts
    ensures forall d :: Date(ts) + offset <= d < day && OpensOn(cal, session, d).Some? ==>
      OpensOn(cal, session, d).value.open <= ts
    decreases 15 - offset
  {
    hide OpensOn, Date;
    var hours := OpensOn(cal, session, Date(ts) + offset);
    if hours.Some? && hours.value.open > ts {
      day := Date(ts) + offset;
    } else {
      day := OpenFromIsFirst(cal, session, ts, offset + 1);
    }
  }

  /** `next_session_close` is the close of the first session that opens strictly after the instant. */
  lemma NextCloseIsFirstOpening(cal: Calendar, session: Session, ts: int) returns (day: int)
    requires !session.Crypto? && NextSessionClose(cal, session, ts).Ok?
    ensures SessionOf(cal, session, day).Some?
    ensures NextSessionClose(cal, session, ts) == Ok(Some(SessionOf(cal, session, day).value.close))
    ensures SessionOf(cal, session, day).value.open > ts
    ensures forall d :: d < day && SessionOf(cal, session, d).Some? ==> SessionOf(cal, session, d).value.open <= ts
  {
    var evening := OpenFromIsFirst(cal, session, ts, 0);
    OpensItsSession(cal, session, evening);
    day := DayOpened(session, evening);
    hide SessionOf, OpensOn;
    forall d | d < day && SessionOf(cal, session, d).Some?
      ensures SessionOf(cal, session, d).value.open <= ts
    {
      var o := if session.Fx? then d - 1 else d;
      OpensItsSession(cal, session, o);
      if o < Date(ts) {
        EarlierOpening(cal, session, ts, o);
      }
    }
  }

  lemma EarlierOpening(cal: Calendar, session: Session, ts: int, o: int)
    requires !session.Crypto? && o < Date(ts) && OpensOn(cal, session, o).Some?
    ensures OpensOn(cal, session, o).value.open <= ts
  {
    InstantOfDay(ts);
  }

  /** Every two weeks hold a trading day after the first: then no scan fails. */
  predicate TradesWithin(cal: Calendar, session: Session, from: int, days: nat)
    requires !session.Crypto?
  {
    exists d :: from <= d < from + days && SessionOf(cal, session, d).Some?
  }

  lemma {:induction false} ScanFails(cal: Calendar, session: Session, ts: int, offset: nat, day: int)
    requires !session.Crypto? && CloseFrom(cal, session, ts, offset).Err?
    requires Date(ts) + offset <= day < Date(ts) + 14 && SessionOf(cal, session, day).Some?
    ensures SessionOf(cal, session, day).value.close <= ts
    decreases 14 - offset
  {
    hide SessionOf, CloseOn, Date;
    ClosesItsSession(cal, session, Date(ts) + offset);
    if Date(ts) + offset < day {
      ScanFails(cal, session, ts, offset + 1, day);
    }
  }

  /** The close scan raises exactly when the fourteen days from the instant's day hold no session that
      is still to close. */
  lemma {:induction false} CloseScanFailsExactly(cal: Calendar, session: Session, ts: int)
    requires !session.Crypto?
    ensures SessionCloseAfter(cal, session, ts).Err? <==>
            !TradesWithin(cal, session, Date(ts) + 1, 13) &&
            (SessionOf(cal, session, Date(ts)).Some? ==> SessionOf(cal, session, Date(ts)).value.close <= ts)
  {
    if SessionCloseAfter(cal, session, ts).Err? {
      forall d | Date(ts) <= d < Date(ts) + 14 && SessionOf(cal, session, d).Some?
        ensures SessionOf(cal, session, d).value.close <= ts && d == Date(ts)
      {
        ScanFails(cal, session, ts, 0, d);
        LaterDaysOpen(cal, session, ts, d);
      }
    } else {
      var day := CloseFromIsFirst(cal, session, ts, 0);
      FoundWithinScan(cal, session, ts, 0, day);
      hide SessionOf, Date, CloseFrom;
      assert day == Date(ts) || TradesWithin(cal, session, Date(ts) + 1, 13);
    }
  }

  lemma LaterDaysOpen(cal: Calendar, session: Session, ts: int, d: int)
    requires !session.Crypto? && d >= Date(ts) && SessionOf(cal, session, d).Some?
    requires SessionOf(cal, session, d).value.close <= ts
    ensures d == Date(ts)
  {
    InstantOfDay(ts);
  }

  lemma {:induction false} FoundWithinScan(cal: Calendar, session: Session, ts: int, offset: nat, day: int)
    requires !session.Crypto? && CloseFrom(cal, session, ts, offset).Ok? && Date(ts) + offset <= day
    requires SessionOf(cal, session, day).Some?
    requires CloseFrom(cal, session, ts, offset) == Ok(SessionOf(cal, session, day).value.close)
    ensures day < Date(ts) + 14
    decreases 14 - offset
  {
    hide SessionOf, CloseOn, Date;
    ClosesItsSession(cal, session, Date(ts) + offset);
    if day == Date(ts) + offset {
    } else if CloseOn(cal, session, Date(ts) + offset).Some? && CloseOn(cal, session, Date(ts) + offset).value > ts {
      ClosesAscend(cal, session, Date(ts) + offset, day);
    } else {
      FoundWithinScan(cal, session, ts, offset + 1, day);
    }
  }

  lemma ClosesAscend(cal: Calendar, session: Session, a: int, b: int)
    requires !session.Crypto? && a < b && SessionOf(cal, session, a).Some? && SessionOf(cal, session, b).Some?
    ensures SessionOf(cal, session, a).value.close < SessionOf(cal, session, b).value.open
    ensures SessionOf(cal, session, a).value.close < SessionOf(cal, session, b).value.close
  {
  }

  /** The open scan raises exactly when none of the fifteen days from the instant's day opens a session that
      is still to open: no session opens on the fourteen days after, and the day's own is no longer to open. */
  lemma {:induction false} OpenScanFailsExactly(cal: Calendar, session: Session, ts: int)
    requires !session.Crypto?
    ensures var today := DayOpened(session, Date(ts));
      NextSessionClose(cal, session, ts).Err? <==>
        !TradesWithin(cal, session, today + 1, 14) &&
        (SessionOf(cal, session, today).Some? ==> SessionOf(cal, session, today).value.open <= ts)
  {
    hide SessionOf, OpensOn, OpenFrom, Date, DayOpened, TradesWithin;
    OpenScanFails(cal, session, ts, 0);
    OpensItsSession(cal, session, Date(ts));
    LaterOpenings(cal, session, ts);
    assert StillToOpen(cal, session, Date(ts), ts) <==>
           OpensOn(cal, session, Date(ts)).Some? && OpensOn(cal, session, Date(ts)).value.open > ts;
  }

  lemma {:induction false} LaterOpenings(cal: Calendar, session: Session, ts: int)
    requires !session.Crypto?
    ensures TradesWithin(cal, session, DayOpened(session, Date(ts)) + 1, 14) <==>
            exists d :: Date(ts) < d < Date(ts) + 15 && StillToOpen(cal, session, d, ts)
  {
    var day, today := Date(ts), DayOpened(session, Date(ts));
    DaysOpened(session, day);
    forall d | day < d < day + 15
      ensures StillToOpen(cal, session, d, ts) <==> SessionOf(cal, session, DayOpened(session, d)).Some?
    {
      LaterDaysToOpen(cal, session, ts, d);
    }
    hide SessionOf, OpensOn, Date, DayOpened, StillToOpen;
    if d :| today + 1 <= d < today + 15 && SessionOf(cal, session, d).Some? {
      assert StillToOpen(cal, session, d - (today - day), ts);
    }
  }

  lemma DaysOpened(session: Session, day: int)
    ensures forall d :: DayOpened(session, d) == d + (DayOpened(session, day) - day)
  {
  }

  /** The local day opens a session strictly after the instant. */
  predicate StillToOpen(cal: Calendar, session: Session, day: int, ts: int)
    requires !session.Crypto?
  {
    OpensOn(cal, session, day).Some? && OpensOn(cal, session, day).value.open > ts
  }

  lemma {:induction false} OpenScanFails(cal: Calendar, session: Session, ts: int, offset: nat)
    requires !session.Crypto?
    ensures OpenFrom(cal, session, ts, offset).Err? <==>
            forall d :: Date(ts) + offset <= d < Date(ts) + 15 ==> !StillToOpen(cal, session, d, ts)
    decreases 15 - offset
  {
    hide OpensOn, Date;
    if offset < 15 {
      OpenScanFails(cal, session, ts, offset + 1);
      var here := Date(ts) + offset;
      var hours := OpensOn(cal, session, here);
      assert StillToOpen(cal, session, here, ts) <==> hours.Some? && hours.value.open > ts;
    }
  }

  lemma LaterDaysToOpen(cal: Calendar, session: Session, ts: int, d: int)
    requires !session.Crypto? && d > Date(ts)
    ensures StillToOpen(cal, session, d, ts) <==> SessionOf(cal, session, DayOpened(session, d)).Some?
  {
    InstantOfDay(ts);
    OpensItsSession(cal, session, d);
  }

  // ------------------------------------------------------------------ the deadline of a leg

  /** The zone's clock runs evenly from an instant to the close of the session then open: no session holds a
      change of the zone's offset, though the offsets of two sessions may differ. */
  ghost predicate SteadyUntilClose(cal: Calendar, session: Session, zone: Zone, asof: int) {
    !session.Crypto? && SessionCloseAfter(cal, session, zone.local(asof)).Ok? ==>
      match SessionCloseAfter(cal, session, zone.local(asof)).value
      case None => true
      case Some(close) =>
        && zone.utc(close) - asof == close - zone.local(asof)
        && forall u :: asof <= u <= zone.utc(close) ==> zone.local(u) - u == zone.local(asof) - asof
  }

  /** A leg approved by its deadline has ten minutes of the session left that was open when it was
      proposed, and is approved five minutes before the next slot at the latest. */
  lemma {:induction false} LegLeavesTenMinutes(cal: Calendar, session: Session, asof: int, zone: Zone, closing: bool, t: int, u: int)
    requires SessionOpen(cal, session, zone.local(asof), closing) && SteadyUntilClose(cal, session, zone, asof)
    requires LegValidUntil(cal, Some(session), asof, zone).Ok?
    requires asof <= t <= LegValidUntil(cal, Some(session), asof, zone).value && t <= u < t + 600_000_000
    ensures SessionOpen(cal, session, zone.local(u), closing)
    ensures t <= NextSlot(asof) - 300_000_000
  {
    hide NextSlot, SessionCloseAfter;
    if !session.Crypto? {
      OpenUntilItsClose(cal, session, zone.local(asof), closing);
    }
  }

  /** The deadline is no earlier than it must be: it is the slot's, or the session shuts ten minutes later. */
  lemma {:induction false} DeadlineIsTight(cal: Calendar, session: Session, asof: int, zone: Zone, closing: bool)
    requires SessionOpen(cal, session, zone.local(asof), closing) && SteadyUntilClose(cal, session, zone, asof)
    requires LegValidUntil(cal, Some(session), asof, zone).Ok?
    ensures var limit := LegValidUntil(cal, Some(session), asof, zone).value;
      limit == NextSlot(asof) - 300_000_000 || !SessionOpen(cal, session, zone.local(limit + 600_000_000), closing)
  {
    hide NextSlot, SessionCloseAfter;
    if !session.Crypto? {
      OpenUntilItsClose(cal, session, zone.local(asof), closing);
    }
  }

  /** A leg whose market is open always gets a deadline. */
  lemma {:induction false} OpenLegHasDeadline(cal: Calendar, session: Session, asof: int, zone: Zone, closing: bool)
    requires SessionOpen(cal, session, zone.local(asof), closing)
    ensures LegValidUntil(cal, Some(session), asof, zone).Ok?
  {
    hide NextSlot, SessionCloseAfter;
    if !session.Crypto? {
      OpenUntilItsClose(cal, session, zone.local(asof), closing);
    }
  }
}
