/** The symbols a membership symbol replaced: ticker changes after a date, chained backwards. */
module SymbolHistory {

  type Symbol = string

  datatype Change = Change(oldSymbol: Symbol, newSymbol: Symbol, date: int)

  /** After `when`, `s` replaced `before`. */
  ghost predicate Replaced(table: seq<Change>, when: int, s: Symbol, before: Symbol) {
    exists i :: 0 <= i < |table| && table[i] == Change(before, s, table[i].date) && table[i].date > when
  }

  /** A chain of replacements, newest symbol first. */
  ghost predicate Chain(table: seq<Change>, when: int, path: seq<Symbol>) {
    |path| > 0 && forall k :: 0 <= k < |path| - 1 ==> Replaced(table, when, path[k], path[k + 1])
  }

  /** `before` is `s` itself or a symbol it replaced through some chain. */
  ghost predicate Reaches(table: seq<Change>, when: int, s: Symbol, before: Symbol) {
    exists path :: Chain(table, when, path) && path[0] == s && path[|path| - 1] == before
  }

  predicate Distinct(symbols: seq<Symbol>) {
    forall i, j :: 0 <= i < j < |symbols| ==> symbols[i] != symbols[j]
  }

  /** Every symbol after the first was replaced by one listed before it. */
  ghost predicate Chained(table: seq<Change>, when: int, symbols: seq<Symbol>) {
    forall k :: 0 < k < |symbols| ==> HasParent(table, when, symbols, k)
  }

  ghost predicate HasParent(table: seq<Change>, when: int, symbols: seq<Symbol>, k: nat)
    requires k < |symbols|
  {
    exists j :: 0 <= j < k && Replaced(table, when, symbols[j], symbols[k])
  }

  /** Whatever a listed symbol replaced is listed too. */
  ghost predicate ClosedAt(table: seq<Change>, when: int, symbols: seq<Symbol>, s: Symbol) {
    forall before :: Replaced(table, when, s, before) ==> before in symbols
  }

  lemma ReachesSelf(table: seq<Change>, when: int, s: Symbol)
    ensures Reaches(table, when, s, s)
  {
    assert Chain(table, when, [s]);
  }

  lemma ReachesNext(table: seq<Change>, when: int, s: Symbol, t: Symbol, before: Symbol)
    requires Reaches(table, when, s, t) && Replaced(table, when, t, before)
    ensures Reaches(table, when, s, before)
  {
    var path :| Chain(table, when, path) && path[0] == s && path[|path| - 1] == t;
    var longer := path + [before];
    assert Chain(table, when, longer);
  }

  lemma {:induction false} ClosedContainsReachable(table: seq<Change>, when: int, symbols: seq<Symbol>, path: seq<Symbol>)
    requires Chain(table, when, path) && path[0] in symbols
    requires forall s :: s in symbols ==> ClosedAt(table, when, symbols, s)
    ensures path[|path| - 1] in symbols
    decreases |path|
  {
    if |path| > 1 {
      var shorter := path[..|path| - 1];
      assert Chain(table, when, shorter);
      ClosedContainsReachable(table, when, symbols, shorter);
      assert ClosedAt(table, when, symbols, path[|path| - 2]);
    }
  }

  lemma {:induction false} ChainedIsReachable(table: seq<Change>, when: int, symbols: seq<Symbol>, k: nat)
    requires Chained(table, when, symbols) && k < |symbols|
    ensures Reaches(table, when, symbols[0], symbols[k])
    decreases k
  {
    if k == 0 {
      ReachesSelf(table, when, symbols[0]);
    } else {
      assert HasParent(table, when, symbols, k);
      var j :| 0 <= j < k && Replaced(table, when, symbols[j], symbols[k]);
      ChainedIsReachable(table, when, symbols, j);
      ReachesNext(table, when, symbols[0], symbols[j], symbols[k]);
    }
  }

  ghost function Known(table: seq<Change>, symbol: Symbol): set<Symbol> {
    {symbol} + set i | 0 <= i < |table| :: table[i].oldSymbol
  }

  lemma {:induction false} SizeOfDistinct(symbols: seq<Symbol>, all: set<Symbol>)
    requires Distinct(symbols) && forall s :: s in symbols ==> s in all
    ensures |symbols| <= |all|
  {
    if |symbols| > 0 {
      var n := |symbols| - 1;
      SizeOfDistinct(symbols[..n], all - {symbols[n]});
    }
  }

  /** The membership symbol, then the symbols it replaced after `when`: terminates on every table, even
      one whose changes go round in a circle. */
  method SymbolsAt(table: seq<Change>, symbol: Symbol, when: int) returns (out: seq<Symbol>)
    ensures |out| > 0 && out[0] == symbol && Distinct(out) && Chained(table, when, out)
    ensures forall s :: s in out <==> Reaches(table, when, symbol, s)
  {
    hide Chained, ClosedAt, Replaced, Reaches, Chain;
    assert Chained(table, when, [symbol]) by { ChainStart(table, when, symbol); }
    out := [symbol];
    var frontier := [symbol];
    ghost var all := Known(table, symbol);
    while |frontier| > 0
      invariant |out| > 0 && out[0] == symbol && Distinct(out) && Chained(table, when, out)
      invariant forall s :: s in out ==> s in all
      invariant forall s :: s in frontier ==> s in out
      invariant forall s :: s in out ==> s in frontier || ClosedAt(table, when, out, s)
      invariant |out| <= |all|
      decreases |all| - |out|, |frontier|
    {
      var s := frontier[|frontier| - 1];
      frontier := frontier[..|frontier| - 1];
      ghost var known, queue := out, frontier;
      for i := 0 to |table|
        invariant s in out
        invariant |out| > 0 && out[0] == symbol && Distinct(out) && Chained(table, when, out)
        invariant known <= out && |out| - |known| == |frontier| - |queue|
        invariant forall t :: t in out ==> t in all
        invariant forall t :: t in frontier ==> t in out
        invariant forall t :: t in known && t != s ==> t in frontier || ClosedAt(table, when, out, t)
        invariant forall t :: t in out && t !in known ==> t in frontier
        invariant forall k :: 0 <= k < i && table[k].newSymbol == s && table[k].date > when ==> table[k].oldSymbol in out
      {
        var row := table[i];
        if row.newSymbol == s && row.date > when && row.oldSymbol !in out {
          ClosedGrows(table, when, out, row.oldSymbol);
          ChainGrows(table, when, out, s, row.oldSymbol, i);
          out := out + [row.oldSymbol];
          frontier := frontier + [row.oldSymbol];
        }
      }
      ClosedByRows(table, when, out, s);
      SizeOfDistinct(out, all);
    }
    OutIsReachable(table, when, out);
  }

  lemma ChainStart(table: seq<Change>, when: int, symbol: Symbol)
    ensures Chained(table, when, [symbol])
  {
  }

  lemma OutIsReachable(table: seq<Change>, when: int, out: seq<Symbol>)
    requires |out| > 0 && Chained(table, when, out) && forall s :: s in out ==> ClosedAt(table, when, out, s)
    ensures forall t :: t in out <==> Reaches(table, when, out[0], t)
  {
    forall t
      ensures t in out <==> Reaches(table, when, out[0], t)
    {
      if t in out {
        var k :| 0 <= k < |out| && out[k] == t;
        ChainedIsReachable(table, when, out, k);
      }
      if Reaches(table, when, out[0], t) {
        var path :| Chain(table, when, path) && path[0] == out[0] && path[|path| - 1] == t;
        ClosedContainsReachable(table, when, out, path);
      }
    }
  }

  lemma ChainGrows(table: seq<Change>, when: int, out: seq<Symbol>, s: Symbol, before: Symbol, i: nat)
    requires Chained(table, when, out) && s in out && i < |table|
    requires table[i] == Change(before, s, table[i].date) && table[i].date > when
    ensures Chained(table, when, out + [before])
  {
    var j :| 0 <= j < |out| && out[j] == s;
    assert Replaced(table, when, s, before);
    var longer := out + [before];
    forall k | 0 < k < |longer|
      ensures HasParent(table, when, longer, k)
    {
      if k < |out| {
        assert HasParent(table, when, out, k);
        var l :| 0 <= l < k && Replaced(table, when, out[l], out[k]);
        assert Replaced(table, when, longer[l], longer[k]);
      } else {
        assert Replaced(table, when, longer[j], longer[k]);
      }
    }
  }

  lemma ClosedGrows(table: seq<Change>, when: int, out: seq<Symbol>, before: Symbol)
    ensures forall t :: ClosedAt(table, when, out, t) ==> ClosedAt(table, when, out + [before], t)
  {
  }

  lemma ClosedByRows(table: seq<Change>, when: int, out: seq<Symbol>, s: Symbol)
    requires forall k :: 0 <= k < |table| && table[k].newSymbol == s && table[k].date > when ==> table[k].oldSymbol in out
    ensures ClosedAt(table, when, out, s)
  {
  }
}
