/** The policy universe: one owner for every symbol, and the weight of the reference book. */
module UniversePolicy {
  import opened Wrappers
  import opened Vectors

  type Symbol = string

  datatype AssetClass = Stock | Etf | Coin | Index | Commodity | Currency
  datatype Sleeve = Core | CryptoSleeve | Overlay | Satellite
  datatype Role = Selected | Shortlist | Retiring
  datatype Settlement = RealShares | Cfd

  datatype Vehicle = Vehicle(symbol: Symbol, settlement: Settlement)

  datatype StockMeta = StockMeta(role: Role, cik: string, aliases: seq<Symbol>)

  datatype LineSpec = LineSpec(symbol: Symbol, assetClass: AssetClass, sleeve: Sleeve, inReference: bool,
                               baseWeight: real, longs: seq<Vehicle>, shorts: seq<Vehicle>, stock: Option<StockMeta>)

  datatype SleeveLine = SleeveLine(symbol: Symbol, role: Role, cik: string, etoroSymbol: Symbol, aliases: seq<Symbol>)

  /** The quarter's stock file: its lines and the CIKs of its retired registry. */
  datatype StockSleeve = StockSleeve(sleeveWeight: real, namesTarget: int, retired: seq<string>, lines: seq<SleeveLine>)

  datatype Universe = Universe(referenceGrossMax: real, lines: seq<LineSpec>, sleeve: Option<StockSleeve>)

  const WEIGHT_EPS := 0.000000001

  // ------------------------------------------------------------------ owners

  function VehicleSymbols(vs: seq<Vehicle>): (s: seq<Symbol>)
    ensures |s| == |vs|
  {
    seq(|vs|, k requires 0 <= k < |vs| => vs[k].symbol)
  }

  /** What a line claims: its id, its vehicles and, with `aliases`, its former ids. */
  function Claims(line: LineSpec, aliases: bool): seq<Symbol> {
    [line.symbol] + VehicleSymbols(line.longs) + VehicleSymbols(line.shorts) +
      if aliases && line.stock.Some? then line.stock.value.aliases else []
  }

  predicate ClaimsSymbol(lines: seq<LineSpec>, i: nat, aliases: bool, s: Symbol)
    requires i < |lines|
  {
    s in Claims(lines[i], aliases)
  }

  datatype Collision = Collision(symbol: Symbol, owner: Symbol, line: Symbol)

  /** The id of the first line that claims a symbol owns it. */
  ghost predicate OwnedBy(lines: seq<LineSpec>, aliases: bool, s: Symbol, owner: Symbol) {
    exists i :: 0 <= i < |lines| && ClaimsSymbol(lines, i, aliases, s) && lines[i].symbol == owner &&
      forall j :: 0 <= j < i ==> !ClaimsSymbol(lines, j, aliases, s)
  }

  /** Two lines that claim the same symbol have the same id. */
  ghost predicate UniqueOwnership(lines: seq<LineSpec>, aliases: bool) {
    forall i, j, s |
      0 <= i < |lines| && 0 <= j < |lines| && ClaimsSymbol(lines, i, aliases, s) && ClaimsSymbol(lines, j, aliases, s) ::
      lines[i].symbol == lines[j].symbol
  }

  ghost predicate OwnersOf(owners: map<Symbol, Symbol>, lines: seq<LineSpec>, aliases: bool) {
    && (forall s :: s in owners ==> OwnedBy(lines, aliases, s, owners[s]))
    && (forall i, s :: 0 <= i < |lines| && ClaimsSymbol(lines, i, aliases, s) ==> s in owners)
  }

  predicate CollidesAt(owners: map<Symbol, Symbol>, lines: seq<LineSpec>, aliases: bool, c: Collision, i: nat)
    requires i < |lines|
  {
    lines[i].symbol == c.line && ClaimsSymbol(lines, i, aliases, c.symbol) &&
    c.symbol in owners && owners[c.symbol] == c.owner && c.owner != c.line
  }

  /** The collisions are exactly the claims of a line on a symbol another line's id owns. */
  ghost predicate CollisionsOf(collisions: seq<Collision>, owners: map<Symbol, Symbol>, lines: seq<LineSpec>, aliases: bool) {
    forall c: Collision :: c in collisions <==> exists i :: 0 <= i < |lines| && CollidesAt(owners, lines, aliases, c, i)
  }

  lemma OwnersGrow(owners: map<Symbol, Symbol>, lines: seq<LineSpec>, aliases: bool, line: LineSpec)
    requires OwnersOf(owners, lines, aliases)
    ensures forall s :: s in owners ==> OwnedBy(lines + [line], aliases, s, owners[s])
    ensures forall s :: s !in owners && s in Claims(line, aliases) ==> OwnedBy(lines + [line], aliases, s, line.symbol)
  {
    var all := lines + [line];
    assert forall i, s :: 0 <= i < |lines| ==> ClaimsSymbol(all, i, aliases, s) == ClaimsSymbol(lines, i, aliases, s);
    forall s | s in owners
      ensures OwnedBy(all, aliases, s, owners[s])
    {
      var i :| 0 <= i < |lines| && ClaimsSymbol(lines, i, aliases, s) && lines[i].symbol == owners[s] &&
        forall j :: 0 <= j < i ==> !ClaimsSymbol(lines, j, aliases, s);
      assert ClaimsSymbol(all, i, aliases, s);
    }
    forall s | s !in owners && s in Claims(line, aliases)
      ensures OwnedBy(all, aliases, s, line.symbol)
    {
      assert ClaimsSymbol(all, |lines|, aliases, s);
    }
  }

  /** The owners and messages once a line has claimed the symbols `seen`: `setdefault` for each, and a
      message where another id was first. */
  ghost predicate Claimed(owners: map<Symbol, Symbol>, collisions: seq<Collision>, line: Symbol, seen: seq<Symbol>,
                          owners': map<Symbol, Symbol>, collisions': seq<Collision>)
  {
    && owners'.Keys == owners.Keys + (set s | s in seen)
    && (forall s :: s in owners ==> owners'[s] == owners[s])
    && (forall s :: s in owners' && s !in owners ==> owners'[s] == line)
    && (forall c :: c in collisions' <==>
          c in collisions || (c.line == line && c.symbol in seen && c.symbol in owners
                              && owners[c.symbol] == c.owner && c.owner != c.line))
  }

  lemma ClaimedAgain(owners: map<Symbol, Symbol>, collisions: seq<Collision>, line: Symbol, seen: seq<Symbol>,
                     symbol: Symbol, owners': map<Symbol, Symbol>, collisions': seq<Collision>)
    requires Claimed(owners, collisions, line, seen, owners', collisions') && symbol in seen
    ensures Claimed(owners, collisions, line, seen + [symbol], owners', collisions')
  {
    assert forall s :: s in seen + [symbol] <==> s in seen;
  }

  lemma ClaimedNext(owners: map<Symbol, Symbol>, collisions: seq<Collision>, line: Symbol, seen: seq<Symbol>,
                    symbol: Symbol, owners': map<Symbol, Symbol>, collisions': seq<Collision>)
    requires Claimed(owners, collisions, line, seen, owners', collisions') && symbol !in seen
    ensures var with := if symbol in owners' then owners' else owners'[symbol := line];
      Claimed(owners, collisions, line, seen + [symbol], with,
              if with[symbol] == line then collisions' else collisions' + [Collision(symbol, with[symbol], line)])
  {
    assert forall s :: s in seen + [symbol] <==> s in seen || s == symbol;
  }

  method ClaimLine(owners: map<Symbol, Symbol>, collisions: seq<Collision>, line: LineSpec, aliases: bool)
    returns (owners': map<Symbol, Symbol>, collisions': seq<Collision>)
    ensures Claimed(owners, collisions, line.symbol, Claims(line, aliases), owners', collisions')
  {
    owners', collisions' := owners, collisions;
    var symbols := Claims(line, aliases);
    assert Claimed(owners, collisions, line.symbol, symbols[..0], owners', collisions');
    hide Claimed, Claims;
    for k := 0 to |symbols|
      invariant Claimed(owners, collisions, line.symbol, symbols[..k], owners', collisions')
    {
      var symbol := symbols[k];
      assert symbols[..k + 1] == symbols[..k] + [symbol];
      if symbol in symbols[..k] {
        ClaimedAgain(owners, collisions, line.symbol, symbols[..k], symbol, owners', collisions');
      } else {
        ClaimedNext(owners, collisions, line.symbol, symbols[..k], symbol, owners', collisions');
        if symbol !in owners' {
          owners' := owners'[symbol := line.symbol];
        }
        var owner := owners'[symbol];
        if owner != line.symbol {
          collisions' := collisions' + [Collision(symbol, owner, line.symbol)];
        }
      }
    }
    assert symbols[..|symbols|] == symbols;
  }

  method SymbolOwners(lines: seq<LineSpec>, aliases: bool) returns (owners: map<Symbol, Symbol>, collisions: seq<Collision>)
    ensures OwnersOf(owners, lines, aliases)
    ensures CollisionsOf(collisions, owners, lines, aliases)
    ensures collisions == [] <==> UniqueOwnership(lines, aliases)
  {
    owners, collisions := map[], [];
    hide OwnersOf, CollisionsOf, UniqueOwnership, Claimed;
    NoOwners(lines[..0], aliases);
    for n := 0 to |lines|
      invariant OwnersOf(owners, lines[..n], aliases)
      invariant CollisionsOf(collisions, owners, lines[..n], aliases)
    {
      assert lines[..n + 1] == lines[..n] + [lines[n]];
      ghost var before, known := owners, collisions;
      owners, collisions := ClaimLine(owners, collisions, lines[n], aliases);
      LineClaimed(lines[..n], lines[n], aliases, before, known, owners, collisions);
    }
    assert lines[..|lines|] == lines;
    NoCollisionExactly(lines, aliases, owners, collisions);
  }

  lemma NoOwners(none: seq<LineSpec>, aliases: bool)
    requires none == []
    ensures OwnersOf(map[], none, aliases) && CollisionsOf([], map[], none, aliases)
  {
  }

  lemma LineClaimed(lines: seq<LineSpec>, line: LineSpec, aliases: bool, owners: map<Symbol, Symbol>,
                    collisions: seq<Collision>, owners': map<Symbol, Symbol>, collisions': seq<Collision>)
    requires OwnersOf(owners, lines, aliases) && CollisionsOf(collisions, owners, lines, aliases)
    requires Claimed(owners, collisions, line.symbol, Claims(line, aliases), owners', collisions')
    ensures OwnersOf(owners', lines + [line], aliases) && CollisionsOf(collisions', owners', lines + [line], aliases)
  {
    OwnersAfter(lines, line, aliases, owners, owners');
    hide OwnersOf, CollisionsOf;
    CollisionsAfter(lines, line, aliases, owners, collisions, owners', collisions');
  }

  lemma OwnersAfter(lines: seq<LineSpec>, line: LineSpec, aliases: bool, owners: map<Symbol, Symbol>,
                    owners': map<Symbol, Symbol>)
    requires OwnersOf(owners, lines, aliases)
    requires owners'.Keys == owners.Keys + set s | s in Claims(line, aliases)
    requires forall s :: s in owners ==> owners'[s] == owners[s]
    requires forall s :: s in owners' && s !in owners ==> owners'[s] == line.symbol
    ensures OwnersOf(owners', lines + [line], aliases)
  {
    var all := lines + [line];
    OwnersGrow(owners, lines, aliases, line);
    hide OwnedBy, Claims;
    forall i, s | 0 <= i < |all| && ClaimsSymbol(all, i, aliases, s)
      ensures s in owners'
    {
      if i < |lines| {
        assert ClaimsSymbol(lines, i, aliases, s);
      }
    }
  }

  lemma CollisionsAfter(lines: seq<LineSpec>, line: LineSpec, aliases: bool, owners: map<Symbol, Symbol>,
                        collisions: seq<Collision>, owners': map<Symbol, Symbol>, collisions': seq<Collision>)
    requires OwnersOf(owners, lines, aliases) && CollisionsOf(collisions, owners, lines, aliases)
    requires Claimed(owners, collisions, line.symbol, Claims(line, aliases), owners', collisions')
    ensures CollisionsOf(collisions', owners', lines + [line], aliases)
  {
    hide Claims, OwnedBy, OwnersOf, ClaimsSymbol;
    var all := lines + [line];
    forall c: Collision
      ensures c in collisions' <==> exists i :: 0 <= i < |all| && CollidesAt(owners', all, aliases, c, i)
    {
      LastCollision(owners, owners', lines, line, aliases, c);
      hide CollidesAt;
      forall i | 0 <= i < |lines|
        ensures CollidesAt(owners', all, aliases, c, i) == CollidesAt(owners, lines, aliases, c, i)
      {
        SameCollision(owners, owners', lines, line, aliases, c, i);
      }
    }
  }

  lemma LastCollision(owners: map<Symbol, Symbol>, owners': map<Symbol, Symbol>, lines: seq<LineSpec>, line: LineSpec,
                      aliases: bool, c: Collision)
    requires owners'.Keys == owners.Keys + set s | s in Claims(line, aliases)
    requires forall s :: s in owners ==> owners'[s] == owners[s]
    requires forall s :: s in owners' && s !in owners ==> owners'[s] == line.symbol
    ensures CollidesAt(owners', lines + [line], aliases, c, |lines|) <==>
      c.line == line.symbol && c.symbol in Claims(line, aliases) && c.symbol in owners
      && owners[c.symbol] == c.owner && c.owner != c.line
  {
    hide Claims;
  }

  lemma SameCollision(owners: map<Symbol, Symbol>, owners': map<Symbol, Symbol>, lines: seq<LineSpec>, line: LineSpec,
                      aliases: bool, c: Collision, i: nat)
    requires OwnersOf(owners, lines, aliases) && i < |lines|
    requires forall s :: s in owners ==> s in owners' && owners'[s] == owners[s]
    ensures CollidesAt(owners', lines + [line], aliases, c, i) == CollidesAt(owners, lines, aliases, c, i)
  {
    hide Claims, OwnedBy;
    if ClaimsSymbol(lines, i, aliases, c.symbol) {
      assert c.symbol in owners;
    }
  }

  lemma NoCollisionExactly(lines: seq<LineSpec>, aliases: bool, owners: map<Symbol, Symbol>, collisions: seq<Collision>)
    requires OwnersOf(owners, lines, aliases) && CollisionsOf(collisions, owners, lines, aliases)
    ensures collisions == [] <==> UniqueOwnership(lines, aliases)
  {
    hide Claims;
    if collisions != [] {
      var c := collisions[0];
      assert c in collisions;
      var i :| 0 <= i < |lines| && CollidesAt(owners, lines, aliases, c, i);
      assert OwnedBy(lines, aliases, c.symbol, c.owner);
      var j :| 0 <= j < |lines| && ClaimsSymbol(lines, j, aliases, c.symbol) && lines[j].symbol == c.owner;
      assert ClaimsSymbol(lines, i, aliases, c.symbol) && lines[i].symbol != lines[j].symbol;
    }
    if !UniqueOwnership(lines, aliases) {
      var i, j, s :| 0 <= i < |lines| && 0 <= j < |lines| && ClaimsSymbol(lines, i, aliases, s)
        && ClaimsSymbol(lines, j, aliases, s) && lines[i].symbol != lines[j].symbol;
      var k := if owners[s] == lines[i].symbol then j else i;
      var c := Collision(s, owners[s], lines[k].symbol);
      assert CollidesAt(owners, lines, aliases, c, k);
      assert c in collisions;
    }
  }

  // ------------------------------------------------------------------ validation

  /** Each row of the stock file: a real, long-only satellite line; only selected rows are in the reference. */
  function Expand(sleeve: StockSleeve): (lines: seq<LineSpec>)
    requires sleeve.namesTarget >= 1
    ensures |lines| == |sleeve.lines|
  {
    var unit := sleeve.sleeveWeight / sleeve.namesTarget as real;
    seq(|sleeve.lines|, k requires 0 <= k < |sleeve.lines| =>
      var row := sleeve.lines[k];
      LineSpec(row.symbol, Stock, Satellite, row.role.Selected?, unit, [Vehicle(row.etoroSymbol, RealShares)], [],
               Some(StockMeta(row.role, row.cik, row.aliases))))
  }

  /** Line ids are defined once, and no two lines claim a symbol. */
  ghost predicate IdentityValid(lines: seq<LineSpec>) {
    (forall i, j :: 0 <= i < j < |lines| ==> lines[i].symbol != lines[j].symbol) && UniqueOwnership(lines, true)
  }

  predicate IsStock(line: LineSpec) {
    line.assetClass.Stock? || line.stock.Some?
  }

  predicate StockLineValid(line: LineSpec) {
    && line.assetClass.Stock? && line.stock.Some? && line.sleeve.Satellite?
    && |line.longs| > 0 && (forall k :: 0 <= k < |line.longs| ==> line.longs[k].settlement.RealShares?)
    && line.shorts == []
  }

  function SelectedCount(lines: seq<LineSpec>): nat {
    if |lines| == 0 then 0 else
    var line := lines[|lines| - 1];
    SelectedCount(lines[..|lines| - 1]) + if line.stock.Some? && line.stock.value.role.Selected? then 1 else 0
  }

  predicate OneLinePerCompany(lines: seq<LineSpec>, retired: seq<string>) {
    && (forall i, j :: 0 <= i < j < |lines| && lines[i].stock.Some? && lines[j].stock.Some? ==>
          lines[i].stock.value.cik != lines[j].stock.value.cik)
    && (forall i, j :: 0 <= i < j < |retired| ==> retired[i] != retired[j])
    && (forall i :: 0 <= i < |lines| && lines[i].stock.Some? ==> lines[i].stock.value.cik !in retired)
  }

  predicate StocksValid(lines: seq<LineSpec>, sleeve: Option<StockSleeve>) {
    && (forall i :: 0 <= i < |lines| && IsStock(lines[i]) ==> StockLineValid(lines[i]) && sleeve.Some?)
    && (sleeve.Some? ==> SelectedCount(lines) <= sleeve.value.namesTarget && OneLinePerCompany(lines, sleeve.value.retired))
  }

  function CoreWeight(lines: seq<LineSpec>): real {
    if |lines| == 0 then 0.0 else
    var line := lines[|lines| - 1];
    CoreWeight(lines[..|lines| - 1]) + if line.inReference && !line.assetClass.Stock? then line.baseWeight else 0.0
  }

  predicate WeightsValid(u: Universe) {
    CoreWeight(u.lines) + (if u.sleeve.Some? then u.sleeve.value.sleeveWeight else 0.0) <= u.referenceGrossMax + WEIGHT_EPS
  }

  /** The universe the policy accepts. */
  ghost predicate Validates(u: Universe) {
    IdentityValid(u.lines) && StocksValid(u.lines, u.sleeve) && WeightsValid(u)
  }

  // ------------------------------------------------------------------ what validation buys

  /** In a valid universe every id, vehicle symbol and alias belongs to exactly one line. */
  lemma OneOwnerEach(u: Universe, i: nat, j: nat, s: Symbol)
    requires Validates(u) && i < |u.lines| && j < |u.lines|
    requires ClaimsSymbol(u.lines, i, true, s) && ClaimsSymbol(u.lines, j, true, s)
    ensures i == j
  {
  }

  /** The vehicle map of a valid universe never fails: without the aliases there is no collision either. */
  lemma VehicleMapNeverFails(u: Universe)
    requires Validates(u)
    ensures UniqueOwnership(u.lines, false)
  {
    forall i, s | 0 <= i < |u.lines| && ClaimsSymbol(u.lines, i, false, s)
      ensures ClaimsSymbol(u.lines, i, true, s)
    {
    }
  }

  /** The weight of the whole reference book. */
  function ReferenceWeight(lines: seq<LineSpec>): real {
    if |lines| == 0 then 0.0 else
    var line := lines[|lines| - 1];
    ReferenceWeight(lines[..|lines| - 1]) + if line.inReference then line.baseWeight else 0.0
  }

  predicate AtUnit(line: LineSpec, unit: real) {
    line.assetClass.Stock? && line.stock.Some? && line.baseWeight == unit
    && line.inReference == line.stock.value.role.Selected?
  }

  lemma AppendLine(lines: seq<LineSpec>, line: LineSpec)
    ensures ReferenceWeight(lines + [line]) == ReferenceWeight(lines) + if line.inReference then line.baseWeight else 0.0
    ensures CoreWeight(lines + [line]) ==
            CoreWeight(lines) + if line.inReference && !line.assetClass.Stock? then line.baseWeight else 0.0
    ensures SelectedCount(lines + [line]) ==
            SelectedCount(lines) + if line.stock.Some? && line.stock.value.role.Selected? then 1 else 0
  {
    assert (lines + [line])[..|lines|] == lines;
  }

  lemma {:induction false} WeightsSplit(core: seq<LineSpec>, stocks: seq<LineSpec>, unit: real)
    requires forall k :: 0 <= k < |core| ==> !IsStock(core[k])
    requires forall k :: 0 <= k < |stocks| ==> AtUnit(stocks[k], unit)
    ensures ReferenceWeight(core + stocks) == CoreWeight(core + stocks) + Units(SelectedCount(core + stocks), unit)
    decreases |core| + |stocks|
  {
    hide Units;
    if |stocks| > 0 {
      hide ReferenceWeight, CoreWeight, SelectedCount;
      var before, last := stocks[..|stocks| - 1], stocks[|stocks| - 1];
      assert AtUnit(last, unit);
      assert core + stocks == (core + before) + [last];
      WeightsSplit(core, before, unit);
      AppendLine(core + before, last);
      OneMoreUnit(SelectedCount(core + before), unit);
    } else if |core| > 0 {
      hide ReferenceWeight, CoreWeight, SelectedCount;
      var before, last := core[..|core| - 1], core[|core| - 1];
      assert core + stocks == (before + stocks) + [last];
      assert !IsStock(last);
      WeightsSplit(before, stocks, unit);
      AppendLine(before + stocks, last);
    } else {
      assert core + stocks == [];
      OneMoreUnit(0, unit);
    }
  }

  lemma OneMoreUnit(count: nat, unit: real)
    ensures Units(count + 1, unit) == Units(count, unit) + unit && Units(0, unit) == 0.0
  {
  }

  function Units(count: nat, unit: real): real {
    count as real * unit
  }

  /** A universe that validates, with the stock lines the sleeve file expands to, never weighs more in the
      reference book than its gross limit, within the tolerance. */
  lemma {:induction false} ReferenceWithinGross(core: seq<LineSpec>, sleeve: StockSleeve, grossMax: real)
    requires sleeve.namesTarget >= 1 && sleeve.sleeveWeight > 0.0
    requires forall k :: 0 <= k < |core| ==> !IsStock(core[k])
    requires Validates(Universe(grossMax, core + Expand(sleeve), Some(sleeve)))
    ensures ReferenceWeight(core + Expand(sleeve)) <= grossMax + 0.000000001
  {
    hide IdentityValid, OneLinePerCompany, StockLineValid, ReferenceWeight, CoreWeight, SelectedCount;
    var unit := sleeve.sleeveWeight / sleeve.namesTarget as real;
    var lines := core + Expand(sleeve);
    forall k | 0 <= k < |sleeve.lines|
      ensures AtUnit(Expand(sleeve)[k], unit)
    {
    }
    assert SelectedCount(lines) <= sleeve.namesTarget && CoreWeight(lines) + sleeve.sleeveWeight <= grossMax + WEIGHT_EPS;
    hide Validates, Expand;
    WeightsSplit(core, Expand(sleeve), unit);
    UnitsFit(SelectedCount(lines), sleeve.namesTarget, sleeve.sleeveWeight);
  }

  lemma UnitsFit(count: nat, target: int, weight: real)
    requires 1 <= target && count <= target && weight > 0.0
    ensures Units(count, weight / target as real) <= weight
  {
    var t, n := target as real, count as real;
    var unit := weight / t;
    assert unit * t == weight;
    QuotientOrder(weight, 0.0, t);
    QuotientIs(0.0, t, 0.0);
    assert (t - n) * unit >= 0.0;
    assert (t - n) * unit == t * unit - n * unit;
  }

  /** Each row becomes one line that claims its id, its broker symbol and its former ids, weighs one part in
      `namesTarget` of the sleeve, and is in the reference book if and only if the row is selected. */
  lemma ExpandedExactly(sleeve: StockSleeve, k: nat)
    requires sleeve.namesTarget >= 1 && k < |sleeve.lines|
    ensures |Expand(sleeve)| == |sleeve.lines|
    ensures var line, row := Expand(sleeve)[k], sleeve.lines[k];
      && line.baseWeight * sleeve.namesTarget as real == sleeve.sleeveWeight
      && (line.inReference <==> row.role.Selected?)
      && line.stock == Some(StockMeta(row.role, row.cik, row.aliases))
      && forall s :: s in Claims(line, true) <==> s == row.symbol || s == row.etoroSymbol || s in row.aliases
  {
    var line, row := Expand(sleeve)[k], sleeve.lines[k];
    assert VehicleSymbols(line.longs) == [row.etoroSymbol] && VehicleSymbols(line.shorts) == [];
    assert Claims(line, true) == [row.symbol] + [row.etoroSymbol] + [] + row.aliases;
  }

  /** What a line claims, in so many words. */
  lemma ClaimsExactly(line: LineSpec, aliases: bool, s: Symbol)
    ensures s in Claims(line, aliases) <==>
      || s == line.symbol
      || (exists v :: v in line.longs && v.symbol == s)
      || (exists v :: v in line.shorts && v.symbol == s)
      || (aliases && line.stock.Some? && s in line.stock.value.aliases)
  {
    NamedVehicle(line.longs, s);
    NamedVehicle(line.shorts, s);
    hide VehicleSymbols;
  }

  lemma NamedVehicle(vs: seq<Vehicle>, s: Symbol)
    ensures s in VehicleSymbols(vs) <==> exists v :: v in vs && v.symbol == s
  {
    if v :| v in vs && v.symbol == s {
      var k :| 0 <= k < |vs| && vs[k] == v;
      assert VehicleSymbols(vs)[k] == s;
    }
    if s in VehicleSymbols(vs) {
      var k :| 0 <= k < |vs| && VehicleSymbols(vs)[k] == s;
      assert vs[k] in vs;
    }
  }

  /** A reference book weighs its core and `count` parts, in `target`, of the sleeve's weight. */
  predicate WeighsParts(reference: real, core: real, count: nat, weight: real, target: int) {
    && (reference - core) * target as real == count as real * weight
    && (count == target ==> reference == core + weight)
  }

  /** The reference book weighs its core lines and one part of the sleeve for each selected stock: the whole sleeve
      once the target is filled. */
  lemma {:induction false} ReferenceExactly(core: seq<LineSpec>, sleeve: StockSleeve)
    requires sleeve.namesTarget >= 1 && forall k :: 0 <= k < |core| ==> !IsStock(core[k])
    ensures WeighsParts(ReferenceWeight(core + Expand(sleeve)), CoreWeight(core), SelectedCount(Expand(sleeve)),
                        sleeve.sleeveWeight, sleeve.namesTarget)
  {
    var unit, stocks := sleeve.sleeveWeight / sleeve.namesTarget as real, Expand(sleeve);
    forall k | 0 <= k < |stocks|
      ensures AtUnit(stocks[k], unit)
    {
    }
    hide Expand, ReferenceWeight, CoreWeight, SelectedCount, Units, WeighsParts, AtUnit;
    WeightsSplit(core, stocks, unit);
    StocksAddNothingToCore(core, stocks, unit);
    UnitsOf(SelectedCount(stocks), unit, sleeve.sleeveWeight, sleeve.namesTarget, ReferenceWeight(core + stocks), CoreWeight(core));
  }

  lemma UnitsOf(count: nat, unit: real, weight: real, target: int, reference: real, core: real)
    requires target >= 1 && unit == weight / target as real && reference == core + Units(count, unit)
    ensures WeighsParts(reference, core, count, weight, target)
  {
    var t, n := target as real, count as real;
    assert unit * t == weight;
    assert n * unit * t == n * (unit * t);
  }

  lemma {:induction false} StocksAddNothingToCore(core: seq<LineSpec>, stocks: seq<LineSpec>, unit: real)
    requires forall k :: 0 <= k < |core| ==> !IsStock(core[k])
    requires forall k :: 0 <= k < |stocks| ==> AtUnit(stocks[k], unit)
    ensures CoreWeight(core + stocks) == CoreWeight(core) && SelectedCount(core + stocks) == SelectedCount(stocks)
    decreases |core| + |stocks|
  {
    if |stocks| > 0 {
      var before, last := stocks[..|stocks| - 1], stocks[|stocks| - 1];
      assert AtUnit(last, unit) && core + stocks == (core + before) + [last];
      StocksAddNothingToCore(core, before, unit);
      AppendLine(core + before, last);
    } else {
      assert core + stocks == core;
      NoneSelected(core);
    }
  }

  lemma {:induction false} NoneSelected(core: seq<LineSpec>)
    requires forall k :: 0 <= k < |core| ==> !IsStock(core[k])
    ensures SelectedCount(core) == 0
  {
    if |core| > 0 {
      assert !IsStock(core[|core| - 1]);
      NoneSelected(core[..|core| - 1]);
    }
  }

  /** The selected lines of a universe. */
  ghost function SelectedAt(lines: seq<LineSpec>): set<nat> {
    set k | 0 <= k < |lines| && lines[k].stock.Some? && lines[k].stock.value.role == Selected
  }

  lemma {:induction false} SelectedCountIsSize(lines: seq<LineSpec>)
    ensures SelectedCount(lines) == |SelectedAt(lines)|
  {
    if |lines| == 0 {
      assert SelectedAt(lines) == {};
    } else {
      var n := |lines| - 1;
      SelectedCountIsSize(lines[..n]);
      assert SelectedAt(lines) == SelectedAt(lines[..n]) +
        if lines[n].stock.Some? && lines[n].stock.value.role == Selected then {n} else {};
    }
  }

  /** The weight the reference rule counts: every reference line that is no stock. */
  ghost predicate CountsAsCore(line: LineSpec) {
    line.inReference && line.assetClass != Stock
  }

  lemma {:induction false} CoreWeightOneMore(lines: seq<LineSpec>, line: LineSpec)
    ensures CoreWeight([]) == 0.0
    ensures CoreWeight(lines + [line]) == CoreWeight(lines) + if CountsAsCore(line) then line.baseWeight else 0.0
  {
    assert (lines + [line])[..|lines|] == lines;
  }

  /** Exactly which universes the stock and weight rules accept, and not one that fails a rule of theirs: each stock
      line in order, a sleeve for them, no more selected than places, each live and each retired company once and no
      company both, and a core weight that leaves room for the whole sleeve. */
  lemma {:induction false} RulesExactly(u: Universe)
    ensures StocksValid(u.lines, u.sleeve) <==>
      && (forall i :: 0 <= i < |u.lines| ==> LineFollowsRules(u, i))
      && (u.sleeve.Some? ==>
           && |SelectedAt(u.lines)| <= u.sleeve.value.namesTarget
           && (forall i, j :: 0 <= i < j < |u.lines| ==> !SameCompany(u.lines[i], u.lines[j]))
           && (forall i, j :: 0 <= i < |u.sleeve.value.retired| && 0 <= j < |u.sleeve.value.retired| && i != j ==>
                u.sleeve.value.retired[i] != u.sleeve.value.retired[j])
           && (forall i :: 0 <= i < |u.lines| && u.lines[i].stock.Some? ==> u.lines[i].stock.value.cik !in u.sleeve.value.retired))
    ensures WeightsValid(u) <==>
      match u.sleeve
      case Some(sleeve) => CoreWeight(u.lines) + sleeve.sleeveWeight - u.referenceGrossMax <= 0.000000001
      case None => CoreWeight(u.lines) - u.referenceGrossMax <= 0.000000001
  {
    SelectedCountIsSize(u.lines);
    forall i | 0 <= i < |u.lines|
      ensures LineFollowsRules(u, i) <==> (IsStock(u.lines[i]) ==> StockLineValid(u.lines[i]) && u.sleeve.Some?)
    {
    }
    hide SelectedCount, SelectedAt, CoreWeight, LineFollowsRules, StockLineValid, IsStock;
    if u.sleeve.Some? {
      CompaniesExactly(u.lines, u.sleeve.value.retired);
    }
    hide OneLinePerCompany;
  }

  lemma CompaniesExactly(lines: seq<LineSpec>, retired: seq<string>)
    ensures OneLinePerCompany(lines, retired) <==>
      && (forall i, j :: 0 <= i < j < |lines| ==> !SameCompany(lines[i], lines[j]))
      && (forall i, j :: 0 <= i < |retired| && 0 <= j < |retired| && i != j ==> retired[i] != retired[j])
      && (forall i :: 0 <= i < |lines| && lines[i].stock.Some? ==> lines[i].stock.value.cik !in retired)
  {
    assert (forall i, j :: 0 <= i < j < |lines| ==> !SameCompany(lines[i], lines[j])) <==>
      (forall i, j :: 0 <= i < j < |lines| && lines[i].stock.Some? && lines[j].stock.Some? ==>
         lines[i].stock.value.cik != lines[j].stock.value.cik);
  }

  predicate SameCompany(a: LineSpec, b: LineSpec) {
    a.stock.Some? && b.stock.Some? && a.stock.value.cik == b.stock.value.cik
  }

  /** A line that is a stock by class or by metadata is both, and a long-only satellite in real shares of a universe
      with a sleeve. */
  predicate LineFollowsRules(u: Universe, i: nat)
    requires i < |u.lines|
  {
    var line := u.lines[i];
    (line.assetClass != Stock && line.stock.None?) ||
      (line.assetClass == Stock && line.stock.Some? && line.sleeve == Satellite && line.shorts == [] && line.longs != []
       && u.sleeve.Some? && forall k :: 0 <= k < |line.longs| ==> line.longs[k].settlement == RealShares)
  }

  /** What a valid universe promises of its stocks: every line that is a stock by class or by metadata is both, a
      satellite, long only in real shares; there is a sleeve, no more lines are selected than it has places, and no
      company has two live lines or is live and retired at once. */
  lemma {:induction false} ValidStocks(u: Universe, i: nat, j: nat)
    requires Validates(u) && i < |u.lines| && j < |u.lines|
    requires u.lines[i].assetClass == Stock || u.lines[i].stock.Some?
    ensures var line := u.lines[i];
      && line.assetClass == Stock && line.stock.Some? && line.sleeve == Satellite && line.shorts == []
      && line.longs != [] && forall v :: v in line.longs ==> v.settlement == RealShares
    ensures u.sleeve.Some? && |SelectedAt(u.lines)| <= u.sleeve.value.namesTarget
    ensures u.lines[i].stock.value.cik !in u.sleeve.value.retired
    ensures i != j && u.lines[j].stock.Some? ==> u.lines[i].stock.value.cik != u.lines[j].stock.value.cik
  {
    hide IdentityValid, WeightsValid, SelectedCount;
    SelectedCountIsSize(u.lines);
    assert IsStock(u.lines[i]);
    if j < i && u.lines[j].stock.Some? {
      assert u.lines[j].stock.value.cik != u.lines[i].stock.value.cik;
    }
  }

  /** The sleeve file cannot express a line the stock rules refuse. */
  lemma ExpandedLinesAreValid(sleeve: StockSleeve, k: nat)
    requires sleeve.namesTarget >= 1 && k < |sleeve.lines|
    ensures StockLineValid(Expand(sleeve)[k])
  {
  }
}
