/** Which lines have new material evidence: fingerprints consumed line by line, across cycles. */
module EvidenceLedger {
  import opened Wrappers

  type Line = string
  type Print = string
  type Prints = map<Line, Print>

  /** The key of the market-wide fingerprint. */
  const GLOBAL: Line := "_global"

  /** A stored value: a digest, kept as the pair it digests since a digest tells any two pairs apart, or
      the market-wide fingerprint, stored for reference. */
  datatype Entry = Digest(marketWide: Option<Print>, own: Option<Print>) | Reference(value: Print)

  type Stored = map<Line, Entry>

  function Get<V>(m: map<Line, V>, k: Line): Option<V> {
    if k in m then Some(m[k]) else None
  }

  function Lines(current: Prints): set<Line> {
    current.Keys - {GLOBAL}
  }

  /** A line's material evidence: its own fingerprint together with the market-wide one. */
  function MaterialKey(current: Prints, s: Line): Entry {
    Digest(Get(current, GLOBAL), Get(current, s))
  }

  /** `not stored`: nothing was stored yet, or only the legacy fingerprint. */
  predicate Unwritten(stored: Option<Stored>) {
    stored.None? || stored.value == map[]
  }

  function CanAct(current: Prints, stored: Option<Stored>, lines: set<Line>): set<Line> {
    if Unwritten(stored) then Lines(current) else lines
  }

  function Consume(current: Prints, stored: Option<Stored>, lines: set<Line>): (out: Stored)
    requires GLOBAL in current
    ensures GLOBAL in out
  {
    var can := CanAct(current, stored, lines);
    (map s | s in Lines(current) && (s in can || (!Unwritten(stored) && s in stored.value)) ::
      if s in can then MaterialKey(current, s) else stored.value[s])
    [GLOBAL := Reference(current[GLOBAL])]
  }

  function MaterialChanges(current: Prints, stored: Option<Stored>, legacyEqual: Option<bool>): (flags: map<Line, bool>)
    ensures flags.Keys == Lines(current)
  {
    map s | s in Lines(current) ::
      if Unwritten(stored) then legacyEqual != Some(true) else Some(MaterialKey(current, s)) != Get(stored.value, s)
  }

  // ------------------------------------------------------------------ runs of cycles

  /** A cycle whose proposal issued: the fingerprints it saw and the lines that could act on them. */
  datatype Cycle = Cycle(current: Prints, lines: set<Line>)

  predicate Complete(run: seq<Cycle>) {
    forall i :: 0 <= i < |run| ==> GLOBAL in run[i].current
  }

  /** What the ledger stores after a run that starts with nothing stored. */
  function After(run: seq<Cycle>): (stored: Option<Stored>)
    requires Complete(run)
    ensures stored.Some? == (|run| > 0) && Unwritten(stored) == (|run| == 0)
  {
    if |run| == 0 then None else
    var last := run[|run| - 1];
    Some(Consume(last.current, After(run[..|run| - 1]), last.lines))
  }

  /** The cycle at which a line last consumed its evidence without having left the map since; the first
      write consumes for every line. */
  function LastConsumed(run: seq<Cycle>, s: Line): (i: Option<nat>)
    ensures i.Some? ==> i.value < |run| && s in run[i.value].current
  {
    if |run| == 0 then None else
    var n := |run| - 1;
    if s !in run[n].current then None
    else if n == 0 || s in run[n].lines then Some(n)
    else LastConsumed(run[..n], s)
  }

  lemma {:induction false} StoredIsLastConsumed(run: seq<Cycle>, s: Line)
    requires Complete(run) && |run| > 0 && s != GLOBAL
    ensures Get(After(run).value, s) ==
            var i := LastConsumed(run, s); if i.Some? then Some(MaterialKey(run[i.value].current, s)) else None
  {
    var n := |run| - 1;
    if n > 0 && s in run[n].current && s !in run[n].lines {
      StoredIsLastConsumed(run[..n], s);
    }
  }

  /** After any run of cycles a line is flagged exactly when it never consumed since it (re)appeared, or
      its own or the market-wide fingerprint differs from the ones it consumed last. */
  lemma FlagsAreSinceLastConsumed(run: seq<Cycle>, current: Prints, s: Line, legacyEqual: Option<bool>)
    requires Complete(run) && |run| > 0 && s in Lines(current) && GLOBAL in current
    ensures MaterialChanges(current, After(run), legacyEqual)[s] <==>
            var i := LastConsumed(run, s);
            i.None? || run[i.value].current[s] != current[s] || run[i.value].current[GLOBAL] != current[GLOBAL]
  {
    StoredIsLastConsumed(run, s);
  }

  /** Before anything is stored, every line is flagged, unless the ledger kept the one legacy fingerprint and it
      still matches: then none is. An empty map counts as nothing stored. */
  lemma FirstCycleFlags(current: Prints, stored: Option<Stored>, s: Line, legacyEqual: Option<bool>)
    requires stored.None? || |stored.value| == 0
    ensures s in MaterialChanges(current, stored, legacyEqual) <==> s in current && s != "_global"
    ensures s in current && s != "_global" ==>
      (MaterialChanges(current, stored, legacyEqual)[s] <==> legacyEqual.None? || legacyEqual.value == false)
  {
  }

  /** The first write stores every line's evidence, whatever the lines that can act: the same fingerprints are then
      new to none. */
  lemma FirstWriteConsumesAll(current: Prints, stored: Option<Stored>, lines: set<Line>, s: Line, legacyEqual: Option<bool>)
    requires (stored.None? || |stored.value| == 0) && GLOBAL in current && s in Lines(current)
    ensures !MaterialChanges(current, Some(Consume(current, stored, lines)), legacyEqual)[s]
  {
  }

  /** What is stored: a key for every line of the current map that could act now or had one, taken now by those that
      could act and kept by the others; and the market-wide fingerprint for reference. */
  lemma ConsumedExactly(current: Prints, stored: Stored, lines: set<Line>, s: Line)
    requires GLOBAL in current && stored != map[]
    ensures var out := Consume(current, Some(stored), lines);
      && out["_global"] == Reference(current["_global"])
      && (s != "_global" ==>
           && (s in out <==> s in current && (s in lines || s in stored))
           && (s in out ==> out[s] == if s in lines then Digest(Some(current["_global"]), Some(current[s])) else stored[s]))
  {
  }

  /** A line that left the map counts as changed when it returns. */
  lemma ReturningLineIsFlagged(run: seq<Cycle>, current: Prints, s: Line, legacyEqual: Option<bool>)
    requires Complete(run) && |run| > 0 && s in Lines(current) && s !in run[|run| - 1].current
    ensures MaterialChanges(current, After(run), legacyEqual)[s]
  {
    StoredIsLastConsumed(run, s);
  }

  /** Consuming for some lines never alters another surviving line's flag. */
  lemma ConsumingLeavesOthers(stored: Stored, seen: Prints, lines: set<Line>, current: Prints, s: Line,
                              legacyEqual: Option<bool>)
    requires stored != map[] && GLOBAL in seen && s in Lines(seen) && s in Lines(current) && s !in lines
    ensures MaterialChanges(current, Some(Consume(seen, Some(stored), lines)), legacyEqual)[s]
         == MaterialChanges(current, Some(stored), legacyEqual)[s]
  {
    assert Get(Consume(seen, Some(stored), lines), s) == Get(stored, s);
  }

  /** A session opening is not evidence: a line that consumed sees nothing new in the same fingerprints,
      and one that could not act keeps seeing what it saw. */
  lemma SameEvidenceAgain(run: seq<Cycle>, lines: set<Line>, s: Line, legacyEqual: Option<bool>)
    requires Complete(run) && |run| > 0 && s in Lines(run[|run| - 1].current)
    ensures var last := run[|run| - 1];
      var before := MaterialChanges(last.current, After(run[..|run| - 1]), None);
      MaterialChanges(last.current, After(run), legacyEqual)[s] ==
        (|run| > 1 && s !in last.lines && before[s])
  {
    var n := |run| - 1;
    StoredIsLastConsumed(run, s);
    if n > 0 {
      StoredIsLastConsumed(run[..n], s);
    }
  }

  /** The market-wide fingerprint is consumed by each line for itself: when it moves, every line that has
      consumed is flagged until it acts. */
  lemma MarketWideEvidenceReachesEveryLine(run: seq<Cycle>, current: Prints, s: Line, legacyEqual: Option<bool>)
    requires Complete(run) && |run| > 0 && s in Lines(current) && GLOBAL in current
    requires forall i :: 0 <= i < |run| ==> run[i].current[GLOBAL] != current[GLOBAL]
    ensures MaterialChanges(current, After(run), legacyEqual)[s]
  {
    FlagsAreSinceLastConsumed(run, current, s, legacyEqual);
  }
}
