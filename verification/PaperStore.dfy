/** Saving and loading the paper book, and the migration of version-1 books. */
module PaperStore {
  import opened Wrappers
  import opened Vectors
  import opened PaperLedger

  const VERSION := 2

  /** A JSON value the book keeps as it is when it is a mapping. */
  datatype Blob = Mapping(text: string) | OtherJson(text: string)

  /** What the file keeps beside the accounts. */
  datatype Header = Header(startedAt: Option<string>, lastCycle: Option<string>, markedAt: Option<string>,
                           funding: string, buildPhase: Option<Blob>)

  datatype Stored = Stored(book: Book, head: Header)

  /** book.json: any key may be missing. */
  datatype Raw = Raw(version: Option<int>, startedAt: Option<string>, startNav: Option<real>, cash: Option<real>,
                     core: Option<seq<Position>>, swing: Option<seq<Swing>>, lastCycle: Option<string>,
                     markedAt: Option<string>, funding: Option<string>, declared: Option<real>,
                     peakNav: Option<real>, buildPhase: Option<Blob>)

  /** Python's `x or default`: an absent value and zero give the default. */
  function Or(x: Option<real>, default: real): real {
    if x.Some? && x.value != 0.0 then x.value else default
  }

  function OpenNotional(swing: seq<Swing>): real {
    if |swing| == 0 then 0.0 else
    var t := swing[|swing| - 1];
    OpenNotional(swing[..|swing| - 1]) + if t.status.Open? then t.notional else 0.0
  }

  /** The book as the file spells it, before any migration. */
  function Parsed(raw: Raw, ledger: seq<LedgerRow>): Book {
    Book(Or(raw.startNav, 0.0), Or(raw.cash, 0.0),
         if raw.core.Some? then raw.core.value else [], if raw.swing.Some? then raw.swing.value else [],
         Or(raw.declared, 1.25), Or(raw.peakNav, Or(raw.startNav, 0.0)), ledger)
  }

  function VersionOf(raw: Raw): int {
    if raw.version.Some? && raw.version.value != 0 then raw.version.value else 1
  }

  /** A version-1 book left an open trade's notional in cash; loading it moves the notional out. */
  function Load(raw: Raw, ledger: seq<LedgerRow>): Stored {
    var b := Parsed(raw, ledger);
    Stored(if VersionOf(raw) < 2 then b.(cash := b.cash - OpenNotional(b.swing)) else b,
           Header(raw.startedAt, raw.lastCycle, raw.markedAt,
                  if raw.funding.Some? && raw.funding.value != "" then raw.funding.value else "funded",
                  if raw.buildPhase.Some? && raw.buildPhase.value.Mapping? then raw.buildPhase else None))
  }

  function ToJson(s: Stored): Raw {
    Raw(Some(VERSION), s.head.startedAt, Some(s.book.startNav), Some(s.book.cash), Some(s.book.core),
        Some(s.book.swing), s.head.lastCycle, s.head.markedAt, Some(s.head.funding), Some(s.book.declared),
        Some(s.book.peakNav), s.head.buildPhase)
  }

  /** `save`: the peak is raised to the current equity, then the book is written. */
  function Saved(s: Stored): Stored
    requires s.book.Valid()
  {
    s.(book := s.book.(peakNav := Max(s.book.peakNav, s.book.Equity())))
  }

  // ------------------------------------------------------------------ migration

  function OpenPnl(swing: seq<Swing>): real
    requires Priced(swing)
  {
    if |swing| == 0 then 0.0 else
    var t := swing[|swing| - 1];
    OpenPnl(swing[..|swing| - 1]) + if t.status.Open? then t.Pnl() else 0.0
  }

  /** Version 1's equity: the notional was still in cash, so a trade added only its P&L. */
  function OldEquity(b: Book): real
    requires Priced(b.swing)
  {
    b.cash + CoreValue(b.core) + OpenPnl(b.swing)
  }

  lemma {:induction false} InvestedIsNotionalPlusPnl(swing: seq<Swing>)
    requires Priced(swing)
    ensures SwingValue(swing) == OpenNotional(swing) + OpenPnl(swing)
  {
    if |swing| > 0 {
      hide Swing.PnlAt;
      InvestedIsNotionalPlusPnl(swing[..|swing| - 1]);
    }
  }

  /** Loading keeps the equity: the old formula on a version-1 file, the current one on any later. */
  lemma LoadKeepsEquity(raw: Raw, ledger: seq<LedgerRow>)
    requires Priced(Parsed(raw, ledger).swing)
    ensures Load(raw, ledger).book.Equity() ==
            if VersionOf(raw) < 2 then OldEquity(Parsed(raw, ledger)) else Parsed(raw, ledger).Equity()
  {
    InvestedIsNotionalPlusPnl(Parsed(raw, ledger).swing);
  }

  /** What loading makes of keys that are missing or zero: no NAV, no cash, the default leg, and the start NAV for
      the peak; a version below 2 is migrated, and a missing or zero one counts as 1. */
  lemma LoadDefaults(raw: Raw, ledger: seq<LedgerRow>)
    ensures var b, head := Load(raw, ledger).book, Load(raw, ledger).head;
      && b.startNav == (if raw.startNav.Some? then raw.startNav.value else 0.0)
      && b.declared == (if raw.declared.Some? && raw.declared.value != 0.0 then raw.declared.value else 1.25)
      && b.peakNav == (if raw.peakNav.Some? && raw.peakNav.value != 0.0 then raw.peakNav.value else b.startNav)
      && b.core == (if raw.core.Some? then raw.core.value else []) && b.swing == (if raw.swing.Some? then raw.swing.value else [])
      && b.ledger == ledger
      && b.cash == (if raw.cash.Some? then raw.cash.value else 0.0) -
           (if raw.version.None? || raw.version.value < 2 then OpenNotional(b.swing) else 0.0)
      && head.funding == (if raw.funding.Some? && raw.funding.value != "" then raw.funding.value else "funded")
      && head.buildPhase == (if raw.buildPhase.Some? && raw.buildPhase.value.Mapping? then raw.buildPhase else None)
  {
  }

  /** A file the program can spell back: nothing that `or` would replace by a default. */
  predicate Spelled(s: Stored) {
    && s.book.declared != 0.0
    && (s.book.peakNav != 0.0 || s.book.startNav == 0.0)
    && s.head.funding != ""
    && (s.head.buildPhase.Some? ==> s.head.buildPhase.value.Mapping?)
  }

  /** Loading what was written gives the book back exactly when no field is one that `or` replaces: a zero
      declared cost comes back as the default leg. */
  lemma RoundTripExactly(s: Stored)
    ensures Load(ToJson(s), s.book.ledger) == s <==> Spelled(s)
  {
  }

  /** Saving and loading a started book is the identity once its peak is raised, unless no cost is declared. */
  lemma LoadAfterSave(s: Stored)
    requires s.book.Valid() && s.book.startNav > 0.0 && s.book.peakNav > 0.0
    requires s.head.funding != "" && (s.head.buildPhase.Some? ==> s.head.buildPhase.value.Mapping?)
    ensures Load(ToJson(Saved(s)), s.book.ledger) == Saved(s) <==> s.book.declared != 0.0
    ensures Saved(s).book.peakNav >= s.book.peakNav && Saved(s).book.Equity() == s.book.Equity()
  {
    hide Book.Equity;
    assert Saved(s).book.peakNav > 0.0;
    SameEquity(s.book, Max(s.book.peakNav, s.book.Equity()));
  }

  lemma SameEquity(b: Book, peak: real)
    requires b.Valid()
    ensures b.(peakNav := peak).Equity() == b.Equity()
  {
  }

  /** A version-1 book is migrated once: what is saved after the migration loads with the same cash. */
  lemma MigratesOnce(raw: Raw, ledger: seq<LedgerRow>)
    requires Load(raw, ledger).book.Valid()
    ensures var once := Saved(Load(raw, ledger));
      && VersionOf(ToJson(once)) == 2
      && Load(ToJson(once), ledger).book.cash == once.book.cash
      && Load(ToJson(once), ledger).book.swing == once.book.swing
      && Load(ToJson(once), ledger).book.Equity() == once.book.Equity()
  {
    hide CoreValue, SwingValue;
  }

  // ------------------------------------------------------------------ rows without a cost

  function WithoutCost(r: LedgerRow): LedgerRow {
    match r
    case CoreFill(_, _) => r
    case SwingEntry(t, _) => SwingEntry(t, None)
    case SwingExit(t, _) => SwingExit(t, None)
  }

  /** The ledger as it was before swing rows carried their cost. */
  function Legacy(rows: seq<LedgerRow>): (old': seq<LedgerRow>)
    ensures |old'| == |rows|
  {
    seq(|rows|, k requires 0 <= k < |rows| => WithoutCost(rows[k]))
  }

  /** Every swing row carries its trade's declared leg. */
  predicate RowsAtLeg(rows: seq<LedgerRow>, swing: seq<Swing>, leg: real) {
    forall k :: 0 <= k < |rows| && !rows[k].CoreFill? ==>
      var i := FindTrade(swing, rows[k].trade);
      i < |swing| && rows[k].cost == Some(swing[i].LegCost(leg)) && swing[i].LegCost(leg) >= 0.0
  }

  /** The costs re-derived for rows without one are the costs those rows would carry. */
  lemma {:induction false} LegacyRowsCostTheSame(rows: seq<LedgerRow>, swing: seq<Swing>, leg: real)
    requires RowsAtLeg(rows, swing, leg)
    ensures CostsOf(Legacy(rows), swing, leg) == CostsOf(rows, swing, leg)
  {
    if |rows| > 0 {
      var n := |rows| - 1;
      assert Legacy(rows)[..n] == Legacy(rows[..n]);
      LegacyRowsCostTheSame(rows[..n], swing, leg);
    }
  }
}
