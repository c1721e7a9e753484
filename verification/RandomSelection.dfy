/** The turnover-matched random selection under sector limits. */
module RandomSelection {

  type Name = string
  type Sector = string

  /** A sector quota table, or one cap for every sector. */
  datatype Limits = Quota(table: map<Sector, int>) | Cap(cap: int) {
    function Of(s: Sector): int {
      match this
      case Quota(table) => if s in table then table[s] else 0
      case Cap(cap) => cap
    }
  }

  /** The eligible names with their sectors, and the limits they are chosen under. */
  datatype Pool = Pool(sector: map<Name, Sector>, limits: Limits) {
    ghost function InSector(names: set<Name>, s: Sector): set<Name> {
      set k | k in names && k in sector && sector[k] == s
    }

    predicate Known(names: seq<Name>) {
      forall k :: k in names ==> k in sector
    }

    ghost predicate Eligible(names: set<Name>) {
      names <= sector.Keys
    }

    /** No name stands in a sector filled beyond its limit. */
    ghost predicate Meets(names: set<Name>)
      requires Eligible(names)
    {
      forall k :: k in names ==> |InSector(names, sector[k])| <= limits.Of(sector[k])
    }

    ghost predicate Room(names: set<Name>, k: Name)
      requires k in sector
    {
      |InSector(names, sector[k])| < limits.Of(sector[k])
    }
  }

  predicate Distinct(names: seq<Name>) {
    forall i, j :: 0 <= i < j < |names| ==> names[i] != names[j]
  }

  ghost function Names(names: seq<Name>): set<Name> {
    set k | k in names
  }

  /** Of the chosen names, those that come before position `i` of the order. */
  ghost function Before(chosen: set<Name>, order: seq<Name>, i: nat): set<Name>
    requires i <= |order|
  {
    set k | k in chosen && k in order[..i]
  }

  lemma {:induction false} DistinctSize(names: seq<Name>)
    requires Distinct(names)
    ensures |Names(names)| == |names|
  {
    if |names| > 0 {
      var n := |names| - 1;
      DistinctSize(names[..n]);
      assert Names(names) == Names(names[..n]) + {names[n]};
    }
  }

  // ------------------------------------------------------------------ greedy choices are optimal

  lemma AddName(p: Pool, c: set<Name>, k: Name)
    requires k in p.sector && k !in c
    ensures forall s :: p.InSector(c + {k}, s) == p.InSector(c, s) + if p.sector[k] == s then {k} else {}
    ensures |p.InSector(c + {k}, p.sector[k])| == |p.InSector(c, p.sector[k])| + 1
  {
    assert forall s :: p.InSector(c + {k}, s) == p.InSector(c, s) + if p.sector[k] == s then {k} else {};
  }

  lemma AddKeepsLimits(p: Pool, c: set<Name>, k: Name)
    requires k in p.sector && k !in c && p.Eligible(c) && p.Meets(c) && p.Room(c, k)
    ensures p.Meets(c + {k})
  {
    AddName(p, c, k);
    forall l | l in c + {k}
      ensures |p.InSector(c + {k}, p.sector[l])| <= p.limits.Of(p.sector[l])
    {
      if p.sector[l] != p.sector[k] {
        assert p.InSector(c + {k}, p.sector[l]) == p.InSector(c, p.sector[l]);
      }
    }
  }

  lemma SubsetSize<T>(a: set<T>, b: set<T>)
    requires a <= b
    ensures |a| <= |b|
  {
    assert b == a + (b - a);
  }

  /** A set at most as large as another in every sector is at most as large. */
  lemma {:induction false} SectorBySector(p: Pool, t: set<Name>, c: set<Name>)
    requires p.Eligible(t) && p.Eligible(c)
    requires forall s :: |p.InSector(t, s)| <= |p.InSector(c, s)|
    ensures |t| <= |c|
    decreases |t|
  {
    if t != {} {
      var k :| k in t;
      var s := p.sector[k];
      var ts, cs := p.InSector(t, s), p.InSector(c, s);
      var t', c' := t - ts, c - cs;
      assert t == t' + ts && c == c' + cs;
      assert k in ts;
      forall u
        ensures |p.InSector(t', u)| <= |p.InSector(c', u)|
      {
        if u == s {
          assert p.InSector(t', u) == {};
        } else {
          assert p.InSector(t', u) == p.InSector(t, u) && p.InSector(c', u) == p.InSector(c, u);
        }
      }
      SectorBySector(p, t', c');
    }
  }

  /** Nothing in the pool could still be added: it is chosen, or its sector is full. */
  ghost predicate Exhausted(p: Pool, c: set<Name>, pool: set<Name>)
    requires p.Eligible(pool)
  {
    forall k :: k in pool ==> k in c || !p.Room(c, k)
  }

  /** A greedy choice that exhausted its pool is as large as any set from the pool within the limits. */
  lemma GreedyIsLargest(p: Pool, c: set<Name>, pool: set<Name>, t: set<Name>)
    requires p.Eligible(c) && p.Eligible(pool) && Exhausted(p, c, pool)
    requires t <= pool && p.Meets(t)
    ensures |t| <= |c|
  {
    forall s
      ensures |p.InSector(t, s)| <= |p.InSector(c, s)|
    {
      if p.InSector(t, s) <= p.InSector(c, s) {
        SubsetSize(p.InSector(t, s), p.InSector(c, s));
      } else {
        var k :| k in p.InSector(t, s) && k !in p.InSector(c, s);
        assert !p.Room(c, k);
      }
    }
    SectorBySector(p, t, c);
  }

  // ------------------------------------------------------------------ one pass over the order

  /** What one pass does at position `i`: the candidate there is taken exactly when the choice so far is
      below `most` names and (when limits apply) its sector has room. A name met again stays as it was. */
  ghost predicate Turn(p: Pool, order: seq<Name>, candidates: set<Name>, start: set<Name>, most: int, limited: bool,
                       chosen: set<Name>, i: nat)
    requires i < |order| && order[i] in p.sector
  {
    var soFar := start + Before(chosen, order, i);
    order[i] in chosen <==>
      order[i] in soFar || (order[i] in candidates && |soFar| < most && (limited ==> p.Room(soFar, order[i])))
  }

  /** A pass over the order up to a position: every turn is decided so, and nothing else is added. */
  ghost predicate Pass(p: Pool, order: seq<Name>, candidates: set<Name>, start: set<Name>, most: int, limited: bool,
                       chosen: set<Name>, upTo: nat)
    requires upTo <= |order| && p.Known(order)
  {
    && start <= chosen
    && (forall k :: k in chosen ==> k in start || (k in candidates && k in order[..upTo]))
    && (forall i :: 0 <= i < upTo ==> Turn(p, order, candidates, start, most, limited, chosen, i))
  }

  lemma TurnStays(p: Pool, order: seq<Name>, candidates: set<Name>, start: set<Name>, most: int, limited: bool,
                  chosen: set<Name>, j: nat, k: Name)
    requires j < |order| && order[j] in p.sector && k !in order[..j + 1]
    requires Turn(p, order, candidates, start, most, limited, chosen, j)
    ensures Turn(p, order, candidates, start, most, limited, chosen + {k}, j)
  {
    assert order[..j + 1] == order[..j] + [order[j]];
    assert Before(chosen + {k}, order, j) == Before(chosen, order, j);
  }

  lemma SoFar(order: seq<Name>, start: set<Name>, chosen: set<Name>, i: nat)
    requires i <= |order| && start <= chosen && forall k :: k in chosen ==> k in start || k in order[..i]
    ensures start + Before(chosen, order, i) == chosen
  {
  }

  /** The condition under which the name at `i` joins the choice. */
  ghost predicate Joins(p: Pool, k: Name, candidates: set<Name>, most: int, limited: bool, chosen: set<Name>)
    requires k in p.sector
  {
    k in candidates && k !in chosen && |chosen| < most && (limited ==> p.Room(chosen, k))
  }

  /** A name passed over at its first turn is passed over at every later one: the choice only grows. */
  lemma PassedOverStays(p: Pool, order: seq<Name>, candidates: set<Name>, start: set<Name>, most: int, limited: bool,
                        chosen: set<Name>, i: nat, j: nat)
    requires j < i <= |order| && p.Known(order) && order[j] !in chosen
    requires Pass(p, order, candidates, start, most, limited, chosen, i)
    ensures !Joins(p, order[j], candidates, most, limited, chosen)
  {
    var soFar, k := start + Before(chosen, order, j), order[j];
    assert Turn(p, order, candidates, start, most, limited, chosen, j);
    SubsetSize(soFar, chosen);
    SubsetSize(p.InSector(soFar, p.sector[k]), p.InSector(chosen, p.sector[k]));
  }

  lemma JoinsAtFirstTurn(p: Pool, order: seq<Name>, candidates: set<Name>, start: set<Name>, most: int, limited: bool,
                         chosen: set<Name>, i: nat)
    requires i < |order| && p.Known(order)
    requires Pass(p, order, candidates, start, most, limited, chosen, i)
    requires Joins(p, order[i], candidates, most, limited, chosen)
    ensures order[i] !in order[..i]
  {
    if order[i] in order[..i] {
      var j :| 0 <= j < i && order[j] == order[i];
      PassedOverStays(p, order, candidates, start, most, limited, chosen, i, j);
    }
  }

  lemma TurnTaken(p: Pool, order: seq<Name>, candidates: set<Name>, start: set<Name>, most: int, limited: bool,
                  chosen: set<Name>, i: nat, chosen': set<Name>)
    requires i < |order| && order[i] in p.sector && start + Before(chosen, order, i) == chosen
    requires chosen' == if Joins(p, order[i], candidates, most, limited, chosen) then chosen + {order[i]} else chosen
    requires chosen' != chosen ==> order[i] !in order[..i]
    ensures Turn(p, order, candidates, start, most, limited, chosen', i)
  {
    hide Pool.Room;
    assert Before(chosen', order, i) == Before(chosen, order, i);
  }

  lemma PassStep(p: Pool, order: seq<Name>, candidates: set<Name>, start: set<Name>, most: int, limited: bool,
                 chosen: set<Name>, i: nat, chosen': set<Name>)
    requires i < |order| && p.Known(order)
    requires Pass(p, order, candidates, start, most, limited, chosen, i)
    requires chosen' == if Joins(p, order[i], candidates, most, limited, chosen) then chosen + {order[i]} else chosen
    ensures Pass(p, order, candidates, start, most, limited, chosen', i + 1)
  {
    hide Turn, Pool.Room, Before;
    var k := order[i];
    assert order[..i + 1] == order[..i] + [k];
    SoFar(order, start, chosen, i);
    if Joins(p, k, candidates, most, limited, chosen) {
      JoinsAtFirstTurn(p, order, candidates, start, most, limited, chosen, i);
    }
    forall j | 0 <= j <= i
      ensures Turn(p, order, candidates, start, most, limited, chosen', j)
    {
      if j == i {
        TurnTaken(p, order, candidates, start, most, limited, chosen, i, chosen');
      } else if chosen' != chosen {
        assert k !in order[..j + 1];
        TurnStays(p, order, candidates, start, most, limited, chosen, j, k);
      }
    }
  }

  /** Once the choice holds `most` names, the rest of the order adds nothing. */
  lemma PassFull(p: Pool, order: seq<Name>, candidates: set<Name>, start: set<Name>, most: int, limited: bool,
                 chosen: set<Name>, i: nat)
    requires i <= |order| && p.Known(order)
    requires Pass(p, order, candidates, start, most, limited, chosen, i) && |chosen| >= most
    ensures Pass(p, order, candidates, start, most, limited, chosen, |order|)
  {
    assert forall k :: k in order[..i] ==> k in order[..|order|];
    forall j | i <= j < |order|
      ensures Turn(p, order, candidates, start, most, limited, chosen, j)
    {
      assert forall k :: k in order[..i] ==> k in order[..j];
      SoFar(order, start, chosen, j);
    }
  }

  // ------------------------------------------------------------------ select_random

  /** How many of the names, repeats counted, are in a sector. */
  function CountIn(p: Pool, names: seq<Name>, s: Sector): nat
    requires p.Known(names)
  {
    if |names| == 0 then 0 else
    CountIn(p, names[..|names| - 1], s) + if p.sector[names[|names| - 1]] == s then 1 else 0
  }

  lemma {:induction false} CountOfDistinct(p: Pool, names: seq<Name>, s: Sector)
    requires Distinct(names) && p.Known(names)
    ensures CountIn(p, names, s) == |p.InSector(Names(names), s)|
  {
    if |names| == 0 {
      assert p.InSector(Names(names), s) == {};
    } else {
      var n := |names| - 1;
      CountOfDistinct(p, names[..n], s);
      assert Names(names) == Names(names[..n]) + {names[n]};
      assert names[n] !in Names(names[..n]);
      AddName(p, Names(names[..n]), names[n]);
    }
  }

  /** The limit test of the source's loops: the names chosen so far leave room in the name's sector. */
  predicate HasRoom(p: Pool, chosen: seq<Name>, k: Name)
    requires k in p.sector && p.Known(chosen)
  {
    CountIn(p, chosen, p.sector[k]) < p.limits.Of(p.sector[k])
  }

  lemma RoomOfDistinct(p: Pool, chosen: seq<Name>, k: Name)
    requires k in p.sector && Distinct(chosen) && p.Known(chosen)
    ensures HasRoom(p, chosen, k) == p.Room(Names(chosen), k)
  {
    CountOfDistinct(p, chosen, p.sector[k]);
  }

  ghost predicate Counted(p: Pool, counts: map<Sector, int>, names: seq<Name>)
    requires p.Known(names)
  {
    forall s :: (if s in counts then counts[s] else 0) == CountIn(p, names, s)
  }

  method RoomFor(p: Pool, counts: map<Sector, int>, k: Name, ghost names: seq<Name>) returns (room: bool)
    requires k in p.sector && p.Known(names) && Counted(p, counts, names)
    ensures room == HasRoom(p, names, k)
  {
    var s := p.sector[k];
    room := (if s in counts then counts[s] else 0) < p.limits.Of(s);
  }

  method CountName(p: Pool, counts: map<Sector, int>, k: Name, ghost names: seq<Name>) returns (counts': map<Sector, int>)
    requires k in p.sector && p.Known(names) && Counted(p, counts, names)
    ensures Counted(p, counts', names + [k])
  {
    var s := p.sector[k];
    assert (names + [k])[..|names|] == names;
    counts' := counts[s := (if s in counts then counts[s] else 0) + 1];
  }

  /** One of the source's limited passes as a function: the names of the order it appends to `start`. The
      pass over the held names does not look at what is chosen already; the pass over the others does. */
  function Taken(p: Pool, candidates: set<Name>, start: seq<Name>, most: int, check: bool, order: seq<Name>): (chosen: seq<Name>)
    requires p.Known(order) && p.Known(start)
    ensures start <= chosen && forall k :: k in chosen ==> k in start || (k in candidates && k in order)
  {
    if |order| == 0 then start else
    var before, k := Taken(p, candidates, start, most, check, order[..|order| - 1]), order[|order| - 1];
    if |before| < most && k in candidates && (check ==> k !in before) && HasRoom(p, before, k) then before + [k] else before
  }

  lemma TakenOneMore(p: Pool, candidates: set<Name>, start: seq<Name>, most: int, check: bool, order: seq<Name>, i: nat)
    requires p.Known(order) && p.Known(start) && i < |order|
    ensures order[i] in p.sector
    ensures var before, k := Taken(p, candidates, start, most, check, order[..i]), order[i];
      Taken(p, candidates, start, most, check, order[..i + 1]) ==
        if |before| < most && k in candidates && (check ==> k !in before) && HasRoom(p, before, k) then before + [k] else before
  {
    assert order[..i + 1][..i] == order[..i];
  }

  lemma {:induction false} TakenFull(p: Pool, candidates: set<Name>, start: seq<Name>, most: int, check: bool,
                                     order: seq<Name>, i: nat)
    requires p.Known(order) && p.Known(start) && i <= |order|
    requires |Taken(p, candidates, start, most, check, order[..i])| >= most
    ensures Taken(p, candidates, start, most, check, order) == Taken(p, candidates, start, most, check, order[..i])
    decreases |order|
  {
    if i == |order| {
      assert order[..i] == order;
    } else {
      assert order[..|order| - 1][..i] == order[..i];
      TakenFull(p, candidates, start, most, check, order[..|order| - 1], i);
    }
  }

  lemma AppendName(names: seq<Name>, k: Name)
    requires Distinct(names) && k !in names
    ensures Distinct(names + [k]) && Names(names + [k]) == Names(names) + {k}
  {
  }

  /** What a pass keeps while it stands at position `i`. */
  ghost predicate Taking(p: Pool, order: seq<Name>, candidates: set<Name>, start: seq<Name>, most: int, limited: bool,
                         chosen: seq<Name>, i: nat)
    requires i <= |order| && p.Known(order)
  {
    && start <= chosen && Distinct(chosen) && p.Eligible(Names(chosen)) && Names(chosen) <= Names(start) + candidates
    && (limited ==> p.Meets(Names(chosen)))
    && Pass(p, order, candidates, Names(start), most, limited, Names(chosen), i)
    && (forall k :: k in order[..i] && k in candidates ==> k in chosen || (limited && !p.Room(Names(chosen), k)))
    && (|chosen| <= most || chosen == start)
  }

  lemma TakeStart(p: Pool, order: seq<Name>, candidates: set<Name>, start: seq<Name>, most: int, limited: bool)
    requires Distinct(start) && p.Known(order)
    requires p.Eligible(Names(start)) && (limited ==> p.Meets(Names(start)))
    ensures Taking(p, order, candidates, start, most, limited, start, 0)
  {
    PassStart(p, order, candidates, Names(start), most, limited);
  }

  /** One turn: the candidate at `i` is appended when it is new and, under limits, has room. */
  lemma TakeStep(p: Pool, order: seq<Name>, candidates: set<Name>, start: seq<Name>, most: int, limited: bool,
                 chosen: seq<Name>, i: nat, chosen': seq<Name>)
    requires i < |order| && p.Known(order) && candidates <= Names(order)
    requires Taking(p, order, candidates, start, most, limited, chosen, i) && |chosen| < most
    requires chosen' == if order[i] in candidates && order[i] !in chosen && (limited ==> p.Room(Names(chosen), order[i]))
                        then chosen + [order[i]] else chosen
    ensures Taking(p, order, candidates, start, most, limited, chosen', i + 1)
  {
    hide Pass, Pool.Meets, Pool.Room;
    var k := order[i];
    TurnAtStep(p, order, candidates, start, most, limited, chosen, i, chosen');
    assert order[..i + 1] == order[..i] + [k];
    if chosen' != chosen {
      AppendName(chosen, k);
      if limited {
        AddKeepsLimits(p, Names(chosen), k);
      }
      StillFull(p, Names(chosen), k, candidates);
    }
    hide Distinct;
  }

  lemma TurnAtStep(p: Pool, order: seq<Name>, candidates: set<Name>, start: seq<Name>, most: int, limited: bool,
                   chosen: seq<Name>, i: nat, chosen': seq<Name>)
    requires i < |order| && p.Known(order)
    requires Taking(p, order, candidates, start, most, limited, chosen, i) && |chosen| < most
    requires chosen' == if order[i] in candidates && order[i] !in chosen && (limited ==> p.Room(Names(chosen), order[i]))
                        then chosen + [order[i]] else chosen
    ensures Pass(p, order, candidates, Names(start), most, limited, Names(chosen'), i + 1)
  {
    hide Pass, Pool.Meets, Pool.Room, Distinct, Pool.Eligible, Names, Taking;
    var k := order[i];
    TakenSoFar(p, order, candidates, start, most, limited, chosen, i);
    DistinctSize(chosen);
    NamesAppend(chosen, k);
    assert k in p.sector;
    hide Pool.Known;
    PassStep(p, order, candidates, Names(start), most, limited, Names(chosen), i, Names(chosen'));
  }

  lemma NamesAppend(names: seq<Name>, k: Name)
    ensures Names(names + [k]) == Names(names) + {k} && (k in Names(names) <==> k in names)
  {
  }

  lemma TakeDone(p: Pool, order: seq<Name>, candidates: set<Name>, start: seq<Name>, most: int, limited: bool,
                 chosen: seq<Name>, i: nat)
    requires i <= |order| && p.Known(order) && candidates <= Names(order)
    requires Taking(p, order, candidates, start, most, limited, chosen, i) && (i == |order| || |chosen| >= most)
    ensures Pass(p, order, candidates, Names(start), most, limited, Names(chosen), |order|)
    ensures |chosen| < most ==>
      forall k :: k in candidates ==> k in chosen || (limited && !p.Room(Names(chosen), k))
  {
    hide Pool.Meets, Pool.Room;
    DistinctSize(chosen);
    PassDone(p, order, candidates, Names(start), most, limited, Names(chosen), i);
    assert i == |order| ==> order[..i] == order;
  }

  /** What a distinct choice of a limited pass is worth, after all of its turns. */
  ghost predicate Greedy(p: Pool, order: seq<Name>, candidates: set<Name>, start: seq<Name>, most: int, chosen: seq<Name>)
    requires p.Known(order) && candidates <= Names(order)
  {
    && p.Eligible(Names(chosen)) && p.Meets(Names(chosen)) && Names(chosen) <= Names(start) + candidates
    && Pass(p, order, candidates, Names(start), most, true, Names(chosen), |order|)
    && (|chosen| < most ==> Exhausted(p, Names(chosen), candidates))
    && (|chosen| <= most || chosen == start)
  }

  /** One of the first two loops. It computes `Taken` on every order; a choice without repeats is greedy. */
  method Take(p: Pool, order: seq<Name>, candidates: set<Name>, start: seq<Name>, counts: map<Sector, int>, most: int, check: bool)
    returns (chosen: seq<Name>, counts': map<Sector, int>)
    requires p.Known(order) && p.Known(start)
    requires Counted(p, counts, start) && candidates !! Names(start) && candidates <= Names(order)
    requires Distinct(start) ==> p.Meets(Names(start))
    ensures chosen == Taken(p, candidates, start, most, check, order)
    ensures Counted(p, counts', chosen)
    ensures Distinct(chosen) ==> Distinct(start) && Greedy(p, order, candidates, start, most, chosen)
    ensures check && Distinct(start) ==> Distinct(chosen)
  {
    hide Taking, Taken, Counted, Pool.Meets, Pool.Known, Distinct, HasRoom, Names, Greedy, TakingOrRepeats;
    chosen, counts' := start, counts;
    StartTaking(p, order, candidates, start, most, check);
    var i := 0;
    while i < |order| && |chosen| < most
      invariant i <= |order| && p.Known(chosen) && Counted(p, counts', chosen)
      invariant TakingOrRepeats(p, order, candidates, start, most, check, chosen, i)
    {
      ghost var before := chosen;
      KnownAt(p, order, i);
      chosen, counts' := TryName(p, candidates, chosen, counts', order[i], check);
      KeepTaking(p, order, candidates, start, most, check, before, i, chosen);
      i := i + 1;
    }
    StopTaking(p, order, candidates, start, most, check, chosen, i);
  }

  /** What the loop keeps at position `i`: it has computed `Taken` so far, and greedily while nothing repeats. */
  ghost predicate TakingOrRepeats(p: Pool, order: seq<Name>, candidates: set<Name>, start: seq<Name>, most: int, check: bool,
                                  chosen: seq<Name>, i: nat)
    requires i <= |order| && p.Known(order) && p.Known(start)
  {
    && chosen == Taken(p, candidates, start, most, check, order[..i])
    && (Distinct(chosen) ==> Distinct(start) && Taking(p, order, candidates, start, most, true, chosen, i))
    && (check && Distinct(start) ==> Distinct(chosen))
  }

  lemma KnownAt(p: Pool, names: seq<Name>, i: nat)
    requires p.Known(names) && i < |names|
    ensures names[i] in p.sector
  {
  }

  lemma StartTaking(p: Pool, order: seq<Name>, candidates: set<Name>, start: seq<Name>, most: int, check: bool)
    requires p.Known(order) && p.Known(start) && (Distinct(start) ==> p.Meets(Names(start)))
    ensures TakingOrRepeats(p, order, candidates, start, most, check, start, 0)
  {
    hide Taking, Pool.Meets, Distinct;
    if Distinct(start) {
      TakeStart(p, order, candidates, start, most, true);
    }
  }

  lemma KeepTaking(p: Pool, order: seq<Name>, candidates: set<Name>, start: seq<Name>, most: int, check: bool,
                   chosen: seq<Name>, i: nat, chosen': seq<Name>)
    requires i < |order| && p.Known(order) && p.Known(start) && p.Known(chosen) && candidates <= Names(order)
    requires TakingOrRepeats(p, order, candidates, start, most, check, chosen, i) && |chosen| < most && order[i] in p.sector
    requires chosen' == if order[i] in candidates && (check ==> order[i] !in chosen) && HasRoom(p, chosen, order[i])
                        then chosen + [order[i]] else chosen
    ensures TakingOrRepeats(p, order, candidates, start, most, check, chosen', i + 1)
  {
    hide Taken, Taking, Pool.Known, Distinct, HasRoom, Names;
    TakenOneMore(p, candidates, start, most, check, order, i);
    TakeTurn(p, order, candidates, start, most, check, chosen, i, chosen');
  }

  lemma StopTaking(p: Pool, order: seq<Name>, candidates: set<Name>, start: seq<Name>, most: int, check: bool,
                   chosen: seq<Name>, i: nat)
    requires i <= |order| && p.Known(order) && p.Known(start) && candidates <= Names(order)
    requires TakingOrRepeats(p, order, candidates, start, most, check, chosen, i) && (i == |order| || |chosen| >= most)
    ensures chosen == Taken(p, candidates, start, most, check, order)
    ensures Distinct(chosen) ==> Distinct(start) && Greedy(p, order, candidates, start, most, chosen)
    ensures check && Distinct(start) ==> Distinct(chosen)
  {
    hide Taken, Taking, Pool.Known, Distinct, Names, Greedy;
    TakenFull'(p, candidates, start, most, check, order, i, chosen);
    if Distinct(chosen) {
      GreedyWhenDone(p, order, candidates, start, most, chosen, i);
    }
  }

  /** The body of the loop: the name joins when it is a candidate with room, and new where that is checked. */
  method TryName(p: Pool, candidates: set<Name>, before: seq<Name>, counts: map<Sector, int>, k: Name, check: bool)
    returns (chosen: seq<Name>, counts': map<Sector, int>)
    requires k in p.sector && p.Known(before) && Counted(p, counts, before)
    ensures chosen == if k in candidates && (check ==> k !in before) && HasRoom(p, before, k) then before + [k] else before
    ensures p.Known(chosen) && Counted(p, counts', chosen)
  {
    hide Counted, HasRoom;
    chosen, counts' := before, counts;
    var room := RoomFor(p, counts, k, before);
    if k in candidates && (check ==> k !in before) && room {
      counts' := CountName(p, counts, k, before);
      chosen := before + [k];
    }
  }

  lemma TakenFull'(p: Pool, candidates: set<Name>, start: seq<Name>, most: int, check: bool, order: seq<Name>, i: nat,
                   chosen: seq<Name>)
    requires p.Known(order) && p.Known(start) && i <= |order|
    requires chosen == Taken(p, candidates, start, most, check, order[..i]) && (i == |order| || |chosen| >= most)
    ensures chosen == Taken(p, candidates, start, most, check, order)
  {
    hide Taken;
    if |chosen| >= most {
      TakenFull(p, candidates, start, most, check, order, i);
    } else {
      assert order[..i] == order;
    }
  }

  lemma GreedyWhenDone(p: Pool, order: seq<Name>, candidates: set<Name>, start: seq<Name>, most: int, chosen: seq<Name>, i: nat)
    requires i <= |order| && p.Known(order) && candidates <= Names(order)
    requires Taking(p, order, candidates, start, most, true, chosen, i) && (i == |order| || |chosen| >= most)
    ensures Greedy(p, order, candidates, start, most, chosen)
  {
    TakeDone(p, order, candidates, start, most, true, chosen, i);
    TakenSoFar(p, order, candidates, start, most, true, chosen, i);
    hide Taking, Pass, Pool.Meets, Pool.Room;
  }

  /** One turn of a limited loop, as long as the choice stays without repeats. */
  lemma TakeTurn(p: Pool, order: seq<Name>, candidates: set<Name>, start: seq<Name>, most: int, check: bool,
                 chosen: seq<Name>, i: nat, chosen': seq<Name>)
    requires i < |order| && p.Known(order) && candidates <= Names(order)
    requires p.Known(chosen) && |chosen| < most
    requires chosen' == if order[i] in candidates && (check ==> order[i] !in chosen) && HasRoom(p, chosen, order[i])
                        then chosen + [order[i]] else chosen
    requires Distinct(chosen) ==> Distinct(start) && Taking(p, order, candidates, start, most, true, chosen, i)
    ensures Distinct(chosen') ==> Distinct(start) && Taking(p, order, candidates, start, most, true, chosen', i + 1)
    ensures check && Distinct(chosen) ==> Distinct(chosen')
  {
    var k := order[i];
    if check && Distinct(chosen) && chosen' != chosen {
      AppendName(chosen, k);
    }
    if Distinct(chosen') {
      PrefixDistinct(chosen, k, chosen');
      RoomOfDistinct(p, chosen, k);
      hide Taking, Pool.Room, HasRoom, Distinct;
      TakeStep(p, order, candidates, start, most, true, chosen, i, chosen');
    }
  }

  lemma PrefixDistinct(chosen: seq<Name>, k: Name, chosen': seq<Name>)
    requires Distinct(chosen') && (chosen' == chosen || chosen' == chosen + [k])
    ensures Distinct(chosen) && (chosen' == chosen + [k] ==> k !in chosen)
  {
    if chosen' == chosen + [k] {
      assert forall i :: 0 <= i < |chosen| ==> chosen'[i] == chosen[i];
      assert chosen'[|chosen|] == k;
    }
  }

  lemma TakenSoFar(p: Pool, order: seq<Name>, candidates: set<Name>, start: seq<Name>, most: int, limited: bool,
                   chosen: seq<Name>, i: nat)
    requires i <= |order| && p.Known(order)
    requires Taking(p, order, candidates, start, most, limited, chosen, i)
    ensures start <= chosen && Distinct(chosen) && p.Eligible(Names(chosen)) && Names(chosen) <= Names(start) + candidates
    ensures Pass(p, order, candidates, Names(start), most, limited, Names(chosen), i)
    ensures limited ==> p.Meets(Names(chosen))
    ensures |chosen| <= most || chosen == start
  {
    hide Pass, Pool.Meets, Distinct;
  }

  lemma PassDone(p: Pool, order: seq<Name>, candidates: set<Name>, start: set<Name>, most: int, limited: bool,
                 chosen: set<Name>, i: nat)
    requires i <= |order| && p.Known(order)
    requires Pass(p, order, candidates, start, most, limited, chosen, i) && (|chosen| >= most || i == |order|)
    ensures Pass(p, order, candidates, start, most, limited, chosen, |order|)
  {
    if i < |order| {
      PassFull(p, order, candidates, start, most, limited, chosen, i);
    }
  }

  lemma PassStart(p: Pool, order: seq<Name>, candidates: set<Name>, start: set<Name>, most: int, limited: bool)
    requires p.Known(order)
    ensures Pass(p, order, candidates, start, most, limited, start, 0)
  {
  }

  /** A full sector stays full. */
  lemma StillFull(p: Pool, names: set<Name>, k: Name, pool: set<Name>)
    requires k in p.sector && k !in names && p.Eligible(pool)
    ensures forall l :: l in pool && !p.Room(names, l) ==> !p.Room(names + {k}, l)
  {
    forall l | l in pool && !p.Room(names, l)
      ensures !p.Room(names + {k}, l)
    {
      SubsetSize(p.InSector(names, p.sector[l]), p.InSector(names + {k}, p.sector[l]));
    }
  }

  /** What the last loop adds to a choice without repeats. */
  ghost predicate FilledUp(p: Pool, order: seq<Name>, candidates: set<Name>, start: seq<Name>, most: int, chosen: seq<Name>)
    requires p.Known(order)
  {
    && Distinct(chosen) && Names(chosen) <= Names(start) + candidates
    && Pass(p, order, candidates, Names(start), most, false, Names(chosen), |order|)
    && (|chosen| < most ==> candidates <= Names(chosen))
    && (|chosen| <= most || chosen == start)
  }

  /** The last loop: fill the empty slots from the order, without the limits. */
  method FillUp(p: Pool, order: seq<Name>, candidates: set<Name>, start: seq<Name>, most: int)
    returns (chosen: seq<Name>)
    requires p.Known(order) && p.Known(start)
    requires candidates <= Names(order)
    ensures start <= chosen
    ensures Distinct(start) ==> FilledUp(p, order, candidates, start, most, chosen)
  {
    chosen := start;
    if Distinct(start) {
      TakeStart(p, order, candidates, start, most, false);
    }
    var i := 0;
    hide Taking, Pass, Distinct, Pool.Eligible, FilledUp, Names;
    while i < |order| && |chosen| < most
      invariant i <= |order| && start <= chosen
      invariant Distinct(start) ==> Taking(p, order, candidates, start, most, false, chosen, i)
    {
      var k := order[i];
      ghost var before := chosen;
      if k in candidates && k !in chosen {
        chosen := chosen + [k];
      }
      if Distinct(start) {
        TakeStep(p, order, candidates, start, most, false, before, i, chosen);
      }
      i := i + 1;
    }
    if Distinct(start) {
      FilledWhenDone(p, order, candidates, start, most, chosen, i);
    }
  }

  lemma FilledWhenDone(p: Pool, order: seq<Name>, candidates: set<Name>, start: seq<Name>, most: int, chosen: seq<Name>, i: nat)
    requires i <= |order| && p.Known(order) && candidates <= Names(order)
    requires Taking(p, order, candidates, start, most, false, chosen, i) && (i == |order| || |chosen| >= most)
    ensures FilledUp(p, order, candidates, start, most, chosen)
  {
    TakeDone(p, order, candidates, start, most, false, chosen, i);
    TakenSoFar(p, order, candidates, start, most, false, chosen, i);
    hide Taking, Pass, Pool.Room;
  }

  function Min(a: int, b: int): int {
    if a <= b then a else b
  }

  /** The order restricted to the eligible names. */
  function Eligibles(p: Pool, order: seq<Name>): (o: seq<Name>)
    ensures forall k :: k in o <==> k in order && k in p.sector
  {
    if |order| == 0 then [] else
    Eligibles(p, order[..|order| - 1]) + if order[|order| - 1] in p.sector then [order[|order| - 1]] else []
  }

  /** The positions below `n` of the eligible names. */
  function EligibleAt(p: Pool, order: seq<Name>, n: nat): (at: seq<nat>)
    requires n <= |order|
    ensures forall k :: 0 <= k < |at| ==> at[k] < n
  {
    if n == 0 then [] else EligibleAt(p, order, n - 1) + if order[n - 1] in p.sector then [n - 1] else []
  }

  /** The names `o` are those of the first `n` of the order at increasing positions, every eligible one among them. */
  ghost predicate StandAt(p: Pool, order: seq<Name>, n: nat, at: seq<nat>, o: seq<Name>)
    requires n <= |order|
  {
    && |at| == |o|
    && (forall k :: 0 <= k < |at| ==> at[k] < n && o[k] == order[at[k]] && o[k] in p.sector)
    && (forall k, l :: 0 <= k < l < |at| ==> at[k] < at[l])
    && (forall i :: 0 <= i < n && order[i] in p.sector ==> i in at)
  }

  /** `o` is the order itself with only the ineligible names left out. */
  ghost predicate OnlyIneligibleLeftOut(p: Pool, order: seq<Name>, o: seq<Name>) {
    exists at: seq<nat> :: StandAt(p, order, |order|, at, o)
  }

  lemma OneMoreStands(p: Pool, order: seq<Name>, n: nat, at: seq<nat>, o: seq<Name>)
    requires n < |order| && StandAt(p, order, n, at, o)
    ensures order[n] in p.sector ==> StandAt(p, order, n + 1, at + [n], o + [order[n]])
    ensures order[n] !in p.sector ==> StandAt(p, order, n + 1, at, o)
  {
    var at', o' := at + [n], o + [order[n]];
    assert forall k :: 0 <= k < |at| ==> at'[k] == at[k] && o'[k] == o[k];
    assert forall i :: i in at ==> i in at';
    assert at'[|at|] == n;
  }

  lemma {:induction false} EligiblesStandAt(p: Pool, order: seq<Name>, n: nat)
    requires n <= |order|
    ensures StandAt(p, order, n, EligibleAt(p, order, n), Eligibles(p, order[..n]))
  {
    if n > 0 {
      assert order[..n][..n - 1] == order[..n - 1];
      EligiblesStandAt(p, order, n - 1);
      hide StandAt;
      OneMoreStands(p, order, n - 1, EligibleAt(p, order, n - 1), Eligibles(p, order[..n - 1]));
      if order[n - 1] !in p.sector {
        assert EligibleAt(p, order, n - 1) + [] == EligibleAt(p, order, n - 1);
        assert Eligibles(p, order[..n - 1]) + [] == Eligibles(p, order[..n - 1]);
      }
    }
  }

  lemma EligiblesKeepTheOrder(p: Pool, order: seq<Name>)
    ensures OnlyIneligibleLeftOut(p, order, Eligibles(p, order))
  {
    EligiblesStandAt(p, order, |order|);
    assert order[..|order|] == order;
    hide StandAt;
  }

  /** The limits in the variant's own terms: under a cap no sector of the names holds more than it; under quotas
      every sector of the names has a quota and holds no more than it. */
  lemma {:induction false} LimitsExactly(p: Pool, names: set<Name>)
    requires p.Eligible(names)
    ensures p.Meets(names) <==> forall k :: k in names ==>
      var here := |set l | l in names && p.sector[l] == p.sector[k]|;
      match p.limits
      case Cap(cap) => here <= cap
      case Quota(table) => p.sector[k] in table && here <= table[p.sector[k]]
  {
    forall k | k in names
      ensures p.InSector(names, p.sector[k]) == (set l | l in names && p.sector[l] == p.sector[k])
      ensures |p.InSector(names, p.sector[k])| > 0
    {
      assert k in p.InSector(names, p.sector[k]);
    }
  }

  /** The held names kept are as many as any set of held names within the target and the limits. */
  ghost predicate KeepsTheMost(p: Pool, held: set<Name>, most: int, kept: set<Name>) {
    forall t: set<Name> :: t <= held && p.Eligible(t) && p.Meets(t) && |t| <= most ==> |t| <= |kept|
  }

  /** No set of names that extends the kept ones with other names within the limits has `size` names. */
  ghost predicate NoneOfSize(p: Pool, kept: set<Name>, others: set<Name>, size: int) {
    forall t: set<Name> :: kept <= t <= kept + others && p.Eligible(t) && p.Meets(t) ==> |t| != size
  }

  function HeldIn(o: seq<Name>, held: set<Name>): (names: set<Name>)
    ensures names == Names(o) * held
  {
    set k | k in o && k in held
  }

  function OthersIn(o: seq<Name>, held: set<Name>): (names: set<Name>)
    ensures names == Names(o) - held
  {
    set k | k in o && k !in held
  }

  /** What the selection over the eligible order `o` promises: three passes, the kept names as many as the
      limits allow, the limits relaxed only when they leave a slot empty, and the slots filled. */
  ghost predicate Selected(p: Pool, held: set<Name>, n: int, keptTarget: int, o: seq<Name>,
                           kept: seq<Name>, met: seq<Name>, chosen: seq<Name>)
    requires p.Known(o)
  {
    var most, heldIn, others := Min(keptTarget, n), HeldIn(o, held), OthersIn(o, held);
    && Pass(p, o, heldIn, {}, most, true, Names(kept), |o|)
    && Pass(p, o, others, Names(kept), n, true, Names(met), |o|)
    && Pass(p, o, others, Names(met), n, false, Names(chosen), |o|)
    && KeepsTheMost(p, heldIn, most, Names(kept))
    && (|chosen| > |met| ==> NoneOfSize(p, Names(kept), others, n))
    && |chosen| == (if n <= 0 then 0 else Min(n, |kept| + |others|))
  }

  /** The two passes under the limits and the one that relaxes them, on any order at all: `kept`, then `met`
      and then `chosen` extend one another. The choice has no repeats if and only if the names kept from the
      holdings have none, and then the selection is as good as the limits allow. */
  method SelectRandom(p: Pool, held: set<Name>, n: int, keptTarget: int, order: seq<Name>)
    returns (chosen: seq<Name>, ghost kept: seq<Name>, ghost met: seq<Name>)
    ensures OnlyIneligibleLeftOut(p, order, Eligibles(p, order))
    ensures kept <= met <= chosen && Distinct(chosen) == Distinct(kept)
    ensures kept == Taken(p, HeldIn(Eligibles(p, order), held), [], Min(keptTarget, n), false, Eligibles(p, order))
    ensures Distinct(kept) ==>
      Names(chosen) <= Names(Eligibles(p, order)) && Selected(p, held, n, keptTarget, Eligibles(p, order), kept, met, chosen)
  {
    var o := Eligibles(p, order);
    EligiblesKeepTheOrder(p, order);
    var heldSet, others := HeldIn(o, held), OthersIn(o, held);
    TargetBelow(keptTarget, n);
    hide Pass, Distinct, KeepsTheMost, NoneOfSize, Names, HeldIn, OthersIn, Min, Pool.Meets, Pool.Eligible, Greedy, FilledUp,
         Counted, Selected, Taken, Eligibles, OnlyIneligibleLeftOut;
    NothingYet(p);
    NoNames();
    var counts: map<Sector, int>;
    chosen, counts := Take(p, o, heldSet, [], map[], Min(keptTarget, n), false);
    kept := chosen;
    HeldAreNotOthers(heldSet, others, kept);
    if Distinct(kept) {
      assert p.Meets(Names(kept)) by { GreedyMeets(p, o, heldSet, [], Min(keptTarget, n), kept); }
    }
    chosen, counts := Take(p, o, others, chosen, counts, n, true);
    met := chosen;
    chosen := FillUp(p, o, others, chosen, n);
    if Distinct(kept) {
      SelectedInThree(p, held, n, keptTarget, o, kept, met, chosen);
    } else {
      NotDistinct(kept, chosen);
    }
  }

  lemma GreedyMeets(p: Pool, order: seq<Name>, candidates: set<Name>, start: seq<Name>, most: int, chosen: seq<Name>)
    requires p.Known(order) && candidates <= Names(order)
    requires Greedy(p, order, candidates, start, most, chosen)
    ensures p.Eligible(Names(chosen)) && p.Meets(Names(chosen))
  {
  }

  lemma HeldAreNotOthers(held: set<Name>, others: set<Name>, kept: seq<Name>)
    requires held !! others && forall k :: k in kept ==> k in held
    ensures others !! Names(kept)
  {
  }

  lemma NotDistinct(a: seq<Name>, b: seq<Name>)
    requires a <= b && !Distinct(a)
    ensures !Distinct(b)
  {
    var i, j :| 0 <= i < j < |a| && a[i] == a[j];
    assert b[i] == a[i] && b[j] == a[j];
  }

  /** What the three passes make of each other. */
  lemma SelectedInThree(p: Pool, held: set<Name>, n: int, keptTarget: int, o: seq<Name>,
                        kept: seq<Name>, met: seq<Name>, chosen: seq<Name>)
    requires p.Known(o) && kept <= met <= chosen && Distinct(kept) && Distinct(met)
    requires Greedy(p, o, HeldIn(o, held), [], Min(keptTarget, n), kept)
    requires Greedy(p, o, OthersIn(o, held), kept, n, met)
    requires FilledUp(p, o, OthersIn(o, held), met, n, chosen)
    ensures Distinct(chosen) && Names(chosen) <= Names(o)
    ensures Selected(p, held, n, keptTarget, o, kept, met, chosen)
  {
    hide Pass, KeepsTheMost, NoneOfSize, Distinct, Names, Greedy, FilledUp, Pool.Known, Selected;
    var most, heldIn, others := Min(keptTarget, n), HeldIn(o, held), OthersIn(o, held);
    assert heldIn !! others && heldIn <= Names(o) && others <= Names(o) && most <= n;
    hide HeldIn, OthersIn, Min;
    KeptParts(p, o, heldIn, most, kept);
    MetParts(p, o, others, kept, n, met);
    SizeParts(p, o, heldIn, others, kept, met, chosen, most, n);
    GreedyParts(p, o, heldIn, [], most, kept);
    GreedyParts(p, o, others, kept, n, met);
    FilledParts(p, o, others, met, n, chosen);
    NoNames();
    SelectedFrom(p, held, n, keptTarget, o, kept, met, chosen);
  }

  lemma SizeParts(p: Pool, o: seq<Name>, held: set<Name>, others: set<Name>, kept: seq<Name>, met: seq<Name>,
                  chosen: seq<Name>, most: int, n: int)
    requires p.Known(o) && kept <= met <= chosen && Distinct(kept) && most <= n
    requires held !! others && held <= Names(o) && others <= Names(o)
    requires Greedy(p, o, held, [], most, kept) && Greedy(p, o, others, kept, n, met)
    requires FilledUp(p, o, others, met, n, chosen)
    ensures Names(chosen) <= Names(o) && (|chosen| > |met| ==> |met| < n)
    ensures |chosen| == (if n <= 0 then 0 else Min(n, |kept| + |others|))
  {
    hide Pass, Distinct, Names, Greedy, FilledUp, Pool.Known, Min, Exhausted;
    NoNames();
    GreedyParts(p, o, held, [], most, kept);
    GreedyParts(p, o, others, kept, n, met);
    FilledParts(p, o, others, met, n, chosen);
    SizesInThree(kept, met, chosen, most, n);
    NamesInThree(Names(o), held, others, Names(kept), Names(met), Names(chosen));
    SelectionSize(kept, others, chosen, n);
  }

  lemma SelectedFrom(p: Pool, held: set<Name>, n: int, keptTarget: int, o: seq<Name>,
                     kept: seq<Name>, met: seq<Name>, chosen: seq<Name>)
    requires p.Known(o)
    requires Pass(p, o, HeldIn(o, held), {}, Min(keptTarget, n), true, Names(kept), |o|)
    requires Pass(p, o, OthersIn(o, held), Names(kept), n, true, Names(met), |o|)
    requires Pass(p, o, OthersIn(o, held), Names(met), n, false, Names(chosen), |o|)
    requires KeepsTheMost(p, HeldIn(o, held), Min(keptTarget, n), Names(kept))
    requires |chosen| > |met| ==> |met| < n
    requires |met| < n ==> NoneOfSize(p, Names(kept), OthersIn(o, held), n)
    requires |chosen| == (if n <= 0 then 0 else Min(n, |kept| + |OthersIn(o, held)|))
    ensures Selected(p, held, n, keptTarget, o, kept, met, chosen)
  {
    hide Pass, KeepsTheMost, NoneOfSize, HeldIn, OthersIn, Names, Min;
  }

  lemma KeptParts(p: Pool, o: seq<Name>, held: set<Name>, most: int, kept: seq<Name>)
    requires p.Known(o) && held <= Names(o) && Distinct(kept) && Greedy(p, o, held, [], most, kept)
    ensures KeepsTheMost(p, held, most, Names(kept))
  {
    hide Names, Distinct, Pass, KeepsTheMost, Exhausted, Pool.Meets, Greedy;
    GreedyParts(p, o, held, [], most, kept);
    KeptIsLargest(p, held, most, kept);
  }

  lemma MetParts(p: Pool, o: seq<Name>, others: set<Name>, kept: seq<Name>, n: int, met: seq<Name>)
    requires p.Known(o) && others <= Names(o) && kept <= met && Distinct(met) && Greedy(p, o, others, kept, n, met)
    ensures |met| < n ==> NoneOfSize(p, Names(kept), others, n)
  {
    hide Names, Distinct, Pass, NoneOfSize, Exhausted, Pool.Meets, Greedy;
    GreedyParts(p, o, others, kept, n, met);
    NamesOfPrefix(kept, met);
    if |met| < n {
      LargestExtension(p, Names(kept), Names(met), others, met, n);
    }
  }

  lemma NamesInThree(all: set<Name>, held: set<Name>, others: set<Name>, kept: set<Name>, met: set<Name>, chosen: set<Name>)
    requires held !! others && held <= all && others <= all
    requires kept <= held && met <= kept + others && chosen <= met + others
    ensures kept !! others && chosen <= kept + others && chosen <= all
  {
  }

  lemma SizesInThree(kept: seq<Name>, met: seq<Name>, chosen: seq<Name>, most: int, n: int)
    requires kept <= met <= chosen && most <= n
    requires (|kept| <= most || kept == []) && (|met| <= n || met == kept) && (|chosen| <= n || chosen == met)
    ensures |chosen| <= n || chosen == []
    ensures |chosen| > |met| ==> |met| < n
  {
  }

  lemma FilledParts(p: Pool, order: seq<Name>, candidates: set<Name>, start: seq<Name>, most: int, chosen: seq<Name>)
    requires p.Known(order) && FilledUp(p, order, candidates, start, most, chosen)
    ensures Distinct(chosen) && Names(chosen) <= Names(start) + candidates
    ensures Pass(p, order, candidates, Names(start), most, false, Names(chosen), |order|)
    ensures |chosen| < most ==> candidates <= Names(chosen)
    ensures |chosen| <= most || chosen == start
  {
    hide Pass, Distinct;
  }

  lemma NamesOfPrefix(a: seq<Name>, b: seq<Name>)
    requires a <= b
    ensures Names(a) <= Names(b)
  {
    assert forall k :: k in a ==> k in b;
  }

  lemma GreedyParts(p: Pool, order: seq<Name>, candidates: set<Name>, start: seq<Name>, most: int, chosen: seq<Name>)
    requires p.Known(order) && candidates <= Names(order)
    requires Greedy(p, order, candidates, start, most, chosen)
    ensures p.Eligible(Names(chosen)) && p.Eligible(candidates) && Names(chosen) <= Names(start) + candidates
    ensures Pass(p, order, candidates, Names(start), most, true, Names(chosen), |order|)
    ensures |chosen| < most ==> Exhausted(p, Names(chosen), candidates)
    ensures |chosen| <= most || chosen == start
  {
    hide Pass, Exhausted, Pool.Meets;
  }

  lemma NoNames()
    ensures Distinct([]) && Names([]) == {}
  {
  }

  lemma KeptIsLargest(p: Pool, held: set<Name>, most: int, kept: seq<Name>)
    requires p.Eligible(held) && p.Eligible(Names(kept)) && Distinct(kept)
    requires |kept| < most ==> Exhausted(p, Names(kept), held)
    ensures KeepsTheMost(p, held, most, Names(kept))
  {
    DistinctSize(kept);
    forall t: set<Name> | t <= held && p.Eligible(t) && p.Meets(t) && |t| <= most
      ensures |t| <= |Names(kept)|
    {
      if |kept| < most {
        GreedyIsLargest(p, Names(kept), held, t);
      }
    }
  }

  lemma SelectionSize(kept: seq<Name>, others: set<Name>, chosen: seq<Name>, n: int)
    requires kept <= chosen && Distinct(kept) && Distinct(chosen) && Names(kept) !! others
    requires Names(chosen) <= Names(kept) + others
    requires |chosen| < n ==> others <= Names(chosen)
    requires |chosen| <= n || chosen == []
    ensures |chosen| == (if n <= 0 then 0 else Min(n, |kept| + |others|))
  {
    DistinctSize(kept);
    DistinctSize(chosen);
    SubsetSize(Names(chosen), Names(kept) + others);
    assert |Names(kept) + others| == |kept| + |others|;
    if |chosen| < n {
      assert forall k :: k in kept ==> k in chosen;
      assert Names(chosen) == Names(kept) + others;
    }
  }

  lemma TargetBelow(a: int, b: int)
    ensures Min(a, b) <= b
  {
  }

  lemma NothingYet(p: Pool)
    ensures p.Eligible({}) && p.Meets({}) && Counted(p, map[], [])
  {
    assert forall s :: p.InSector({}, s) == {};
  }

  lemma {:induction false} LargestExtension(p: Pool, kept: set<Name>, met: set<Name>, others: set<Name>, names: seq<Name>, n: int)
    requires p.Eligible(met) && p.Eligible(others) && kept <= met && Exhausted(p, met, others)
    requires Distinct(names) && Names(names) == met && |names| < n
    ensures NoneOfSize(p, kept, others, n)
  {
    DistinctSize(names);
    forall t: set<Name> | kept <= t <= kept + others && p.Eligible(t) && p.Meets(t)
      ensures |t| != n
    {
      GreedyIsLargest(p, met, kept + others, t);
    }
  }

  // ------------------------------------------------------------------ orders that repeat a name

  /** A name that the order repeats stands in a sector with room for one name at most. */
  predicate Harmless(p: Pool, order: seq<Name>)
    requires p.Known(order)
  {
    forall i, j :: 0 <= i < j < |order| && order[i] == order[j] ==> p.limits.Of(p.sector[order[i]]) <= 1
  }

  lemma {:induction false} CountsWhatIsThere(p: Pool, names: seq<Name>, k: Name)
    requires p.Known(names) && k in names
    ensures CountIn(p, names, p.sector[k]) >= 1
  {
    if names[|names| - 1] != k {
      CountsWhatIsThere(p, names[..|names| - 1], k);
    }
  }

  lemma {:induction false} HarmlessIsDistinct(p: Pool, held: set<Name>, most: int, order: seq<Name>)
    requires p.Known(order) && Harmless(p, order)
    ensures Distinct(Taken(p, held, [], most, false, order))
  {
    if |order| > 0 {
      var n := |order| - 1;
      var before, k := Taken(p, held, [], most, false, order[..n]), order[n];
      HarmlessIsDistinct(p, held, most, order[..n]);
      if k in before {
        assert k in order[..n];
        CountsWhatIsThere(p, before, k);
      }
    }
  }

  function Occurrences(order: seq<Name>, k: Name): nat {
    if |order| == 0 then 0 else Occurrences(order[..|order| - 1], k) + if order[|order| - 1] == k then 1 else 0
  }

  lemma {:induction false} OccursAt(order: seq<Name>, k: Name, i: nat)
    requires i < |order| && order[i] == k
    ensures Occurrences(order, k) >= 1
  {
    if i < |order| - 1 {
      OccursAt(order[..|order| - 1], k, i);
    }
  }

  lemma {:induction false} OccursTwice(order: seq<Name>, k: Name, i: nat, j: nat)
    requires i < j < |order| && order[i] == k && order[j] == k
    ensures Occurrences(order, k) >= 2
  {
    if j < |order| - 1 {
      OccursTwice(order[..|order| - 1], k, i, j);
    } else {
      OccursAt(order[..j], k, i);
    }
  }

  lemma {:induction false} CountOfCopies(p: Pool, names: seq<Name>, k: Name)
    requires k in p.sector && forall i :: 0 <= i < |names| ==> names[i] == k
    ensures CountIn(p, names, p.sector[k]) == |names|
  {
    if |names| > 0 {
      CountOfCopies(p, names[..|names| - 1], k);
    }
  }

  lemma OnlyCopies(p: Pool, k: Name, order: seq<Name>)
    requires p.Known(order)
    ensures var kept := Taken(p, {k}, [], 2, false, order); forall i :: 0 <= i < |kept| ==> kept[i] == k
  {
    var kept := Taken(p, {k}, [], 2, false, order);
    forall i | 0 <= i < |kept|
      ensures kept[i] == k
    {
      assert kept[i] in kept;
    }
  }

  /** Two places for one held name, in a sector with room for two: it is kept as often as it is met. */
  lemma {:induction false} KeptTwice(p: Pool, k: Name, order: seq<Name>)
    requires p.Known(order) && k in p.sector && p.limits.Of(p.sector[k]) >= 2
    ensures |Taken(p, {k}, [], 2, false, order)| == Min(2, Occurrences(order, k))
  {
    if |order| > 0 {
      var before := Taken(p, {k}, [], 2, false, order[..|order| - 1]);
      KeptTwice(p, k, order[..|order| - 1]);
      OnlyCopies(p, k, order[..|order| - 1]);
      CountOfCopies(p, before, k);
    }
  }

  /** Exactly the orders on which no holdings and no target make the selection repeat a name: those whose
      repeated names stand in sectors with room for one at most, so every permutation among them. */
  lemma {:induction false} RepeatsAreHarmlessExactly(p: Pool, order: seq<Name>)
    requires p.Known(order)
    ensures (forall held: set<Name>, most: int :: Distinct(Taken(p, held, [], most, false, order))) <==> Harmless(p, order)
  {
    if Harmless(p, order) {
      hide Harmless, Taken, Distinct;
      forall held: set<Name>, most: int
        ensures Distinct(Taken(p, held, [], most, false, order))
      {
        HarmlessIsDistinct(p, held, most, order);
      }
    } else {
      var i, j :| 0 <= i < j < |order| && order[i] == order[j] && p.limits.Of(p.sector[order[i]]) >= 2;
      hide Harmless, Taken, Distinct;
      HarmfulRepeat(p, order, i, j);
    }
  }

  lemma HarmfulRepeat(p: Pool, order: seq<Name>, i: nat, j: nat)
    requires p.Known(order) && i < j < |order| && order[i] == order[j] && p.limits.Of(p.sector[order[i]]) >= 2
    ensures !Distinct(Taken(p, {order[i]}, [], 2, false, order))
  {
    hide Taken;
    var k := order[i];
    var kept := Taken(p, {k}, [], 2, false, order);
    OccursTwice(order, k, i, j);
    KeptTwice(p, k, order);
    OnlyCopies(p, k, order);
    assert kept[0] == kept[1];
  }
}
