/** The recursive merge of the calendar files. */
module CalendarMerge {
  import opened Wrappers

  /** A parsed file: scalars, lists and mappings. */
  datatype Tree = Value(v: string) | List(items: seq<Tree>) | Mapping(keys: map<string, Tree>)

  type Calendar = map<string, Tree>

  predicate SameKind(a: Tree, b: Tree) {
    a.Value? == b.Value? && a.List? == b.List?
  }

  /** The items of `more` that `items` does not hold yet. */
  function Missing(more: seq<Tree>, items: seq<Tree>): seq<Tree> {
    if |more| == 0 then [] else
    Missing(more[..|more| - 1], items) + if more[|more| - 1] in items then [] else [more[|more| - 1]]
  }

  /** Two trees merge unless a key changes its kind somewhere below. */
  predicate Mergeable(a: Tree, b: Tree)
    decreases a
  {
    SameKind(a, b) &&
    (a.Mapping? ==> forall k :: k in a.keys && k in b.keys ==> Mergeable(a.keys[k], b.keys[k]))
  }

  function Merge(a: Tree, b: Tree): (c: Tree)
    requires Mergeable(a, b)
    ensures SameKind(a, c)
    decreases a
  {
    match a
    case Value(_) => b
    case List(items) => List(items + Missing(b.items, items))
    case Mapping(keys) =>
      Mapping(map k | k in keys.Keys + b.keys.Keys ::
        if k in keys && k in b.keys then Merge(keys[k], b.keys[k])
        else if k in keys then keys[k] else b.keys[k])
  }

  function TryMerge(a: Tree, b: Tree): Option<Tree> {
    if Mergeable(a, b) then Some(Merge(a, b)) else None
  }

  // ------------------------------------------------------------------ lists

  lemma {:induction false} MissingIn(more: seq<Tree>, items: seq<Tree>, v: Tree)
    ensures v in Missing(more, items) <==> v in more && v !in items
  {
    if |more| > 0 {
      MissingIn(more[..|more| - 1], items, v);
    }
  }

  lemma {:induction false} MissingOfConcat(x: seq<Tree>, y: seq<Tree>, items: seq<Tree>)
    ensures Missing(x + y, items) == Missing(x, items) + Missing(y, items)
  {
    if |y| == 0 {
      assert x + y == x;
    } else {
      assert (x + y)[..|x + y| - 1] == x + y[..|y| - 1];
      MissingOfConcat(x, y[..|y| - 1], items);
    }
  }

  lemma {:induction false} MissingTwice(c: seq<Tree>, b: seq<Tree>, a: seq<Tree>)
    ensures Missing(Missing(c, b), a) == Missing(c, a + Missing(b, a))
  {
    if |c| > 0 {
      var last, before := c[|c| - 1], Missing(c[..|c| - 1], b);
      MissingTwice(c[..|c| - 1], b, a);
      MissingIn(b, a, last);
      assert last in a + Missing(b, a) <==> last in a || last in b;
      if last in b {
        assert Missing(c, b) == before;
      } else {
        assert Missing(c, b) == before + [last];
        MissingOfConcat(before, [last], a);
        assert [last][..0] == [];
      }
    }
  }

  lemma {:induction false} NothingMissing(more: seq<Tree>, items: seq<Tree>)
    requires forall v :: v in more ==> v in items
    ensures Missing(more, items) == []
  {
    if |more| > 0 {
      NothingMissing(more[..|more| - 1], items);
    }
  }

  lemma ListsAssociate(a: seq<Tree>, b: seq<Tree>, c: seq<Tree>)
    ensures (a + Missing(b, a)) + Missing(c, a + Missing(b, a)) == a + Missing(b + Missing(c, b), a)
  {
    MissingOfConcat(b, Missing(c, b), a);
    MissingTwice(c, b, a);
    hide Missing;
    var x, y := Missing(b, a), Missing(c, a + Missing(b, a));
    assert (a + x) + y == a + (x + y);
  }

  // ------------------------------------------------------------------ trees

  /** Merging a file with itself changes nothing, and never fails. */
  lemma {:induction false} MergeIdempotent(a: Tree)
    ensures Mergeable(a, a) && Merge(a, a) == a
    decreases a
  {
    match a {
      case Value(_) =>
      case List(items) => NothingMissing(items, items);
      case Mapping(keys) =>
        forall k | k in keys
          ensures Mergeable(keys[k], keys[k]) && Merge(keys[k], keys[k]) == keys[k]
        {
          MergeIdempotent(keys[k]);
        }
        assert Merge(a, a).keys == keys;
    }
  }

  ghost predicate LeftGrouped(a: Tree, b: Tree, c: Tree) {
    Mergeable(a, b) && Mergeable(Merge(a, b), c)
  }

  ghost predicate RightGrouped(a: Tree, b: Tree, c: Tree) {
    Mergeable(b, c) && Mergeable(a, Merge(b, c))
  }

  /** Both groupings fail on the same inputs. */
  lemma {:induction false} SameFailures(a: Tree, b: Tree, c: Tree)
    ensures LeftGrouped(a, b, c) <==> RightGrouped(a, b, c)
    decreases a
  {
    if a.Mapping? && b.Mapping? && c.Mapping? {
      forall k | k in a.keys && k in b.keys && k in c.keys
        ensures LeftGrouped(a.keys[k], b.keys[k], c.keys[k]) <==> RightGrouped(a.keys[k], b.keys[k], c.keys[k])
      {
        SameFailures(a.keys[k], b.keys[k], c.keys[k]);
      }
      if LeftGrouped(a, b, c) {
        LeftToRight(a, b, c);
      }
      if RightGrouped(a, b, c) {
        RightToLeft(a, b, c);
      }
    }
  }

  ghost predicate KeysAgree(a: Tree, b: Tree, c: Tree)
    requires a.Mapping? && b.Mapping? && c.Mapping?
  {
    forall k :: k in a.keys && k in b.keys && k in c.keys ==>
      (LeftGrouped(a.keys[k], b.keys[k], c.keys[k]) <==> RightGrouped(a.keys[k], b.keys[k], c.keys[k]))
  }

  lemma LeftToRight(a: Tree, b: Tree, c: Tree)
    requires a.Mapping? && b.Mapping? && c.Mapping? && KeysAgree(a, b, c) && LeftGrouped(a, b, c)
    ensures RightGrouped(a, b, c)
  {
    var ab := Merge(a, b);
    forall k | k in b.keys && k in c.keys
      ensures Mergeable(b.keys[k], c.keys[k])
    {
      assert Mergeable(ab.keys[k], c.keys[k]);
      if k in a.keys {
        assert LeftGrouped(a.keys[k], b.keys[k], c.keys[k]);
      }
    }
    assert Mergeable(b, c);
    var bc := Merge(b, c);
    forall k | k in a.keys && k in bc.keys
      ensures Mergeable(a.keys[k], bc.keys[k])
    {
      if k in c.keys {
        assert Mergeable(ab.keys[k], c.keys[k]);
        if k in b.keys {
          assert LeftGrouped(a.keys[k], b.keys[k], c.keys[k]);
        }
      }
    }
  }

  lemma RightToLeft(a: Tree, b: Tree, c: Tree)
    requires a.Mapping? && b.Mapping? && c.Mapping? && KeysAgree(a, b, c) && RightGrouped(a, b, c)
    ensures LeftGrouped(a, b, c)
  {
    var bc := Merge(b, c);
    forall k | k in a.keys && k in b.keys
      ensures Mergeable(a.keys[k], b.keys[k])
    {
      assert Mergeable(a.keys[k], bc.keys[k]);
      if k in c.keys {
        assert RightGrouped(a.keys[k], b.keys[k], c.keys[k]);
      }
    }
    assert Mergeable(a, b);
    var ab := Merge(a, b);
    forall k | k in ab.keys && k in c.keys
      ensures Mergeable(ab.keys[k], c.keys[k])
    {
      if k in a.keys {
        assert Mergeable(a.keys[k], bc.keys[k]);
        if k in b.keys {
          assert RightGrouped(a.keys[k], b.keys[k], c.keys[k]);
        }
      }
    }
  }

  lemma {:induction false} SameMerges(a: Tree, b: Tree, c: Tree)
    requires LeftGrouped(a, b, c) && RightGrouped(a, b, c)
    ensures Merge(Merge(a, b), c) == Merge(a, Merge(b, c))
    decreases a
  {
    match a {
      case Value(_) =>
      case List(items) => ListsAssociate(items, b.items, c.items);
      case Mapping(keys) =>
        var left, right := Merge(Merge(a, b), c), Merge(a, Merge(b, c));
        assert left.keys.Keys == right.keys.Keys;
        forall k | k in left.keys
          ensures left.keys[k] == right.keys[k]
        {
          if k in a.keys && k in b.keys && k in c.keys {
            assert Mergeable(Merge(a, b).keys[k], c.keys[k]);
            assert Mergeable(a.keys[k], Merge(b, c).keys[k]);
            SameMerges(a.keys[k], b.keys[k], c.keys[k]);
          }
        }
        assert left.keys == right.keys;
    }
  }

  /** Merging is associative, failures included. */
  lemma MergeAssociates(a: Tree, b: Tree, c: Tree)
    ensures LeftGrouped(a, b, c) <==> RightGrouped(a, b, c)
    ensures LeftGrouped(a, b, c) ==> Merge(Merge(a, b), c) == Merge(a, Merge(b, c))
  {
    SameFailures(a, b, c);
    if LeftGrouped(a, b, c) {
      SameMerges(a, b, c);
    }
  }

  // ------------------------------------------------------------------ what a merge says at each path

  /** What a tree holds under a path of keys. */
  function At(t: Tree, path: seq<string>): Option<Tree> {
    if |path| == 0 then Some(t)
    else if t.Mapping? && path[0] in t.keys then At(t.keys[path[0]], path[1..])
    else None
  }

  /** A merge works path by path: what only one file holds is kept, what both hold is merged. */
  lemma {:induction false} MergedAt(a: Tree, b: Tree, path: seq<string>)
    requires Mergeable(a, b)
    ensures var x, y := At(a, path), At(b, path);
      && (x.None? ==> At(Merge(a, b), path) == y)
      && (y.None? ==> At(Merge(a, b), path) == x)
      && (x.Some? && y.Some? ==> Mergeable(x.value, y.value) && At(Merge(a, b), path) == Some(Merge(x.value, y.value)))
    decreases |path|
  {
    if |path| > 0 && a.Mapping? {
      var k := path[0];
      if k in a.keys && k in b.keys {
        MergedAt(a.keys[k], b.keys[k], path[1..]);
      }
    }
  }

  /** Two trees merge exactly when no path both hold leads to different kinds: scalar, list or mapping. */
  lemma {:induction false} MergeableExactly(a: Tree, b: Tree)
    ensures Mergeable(a, b) <==> forall path :: KindsAgreeAt(a, b, path)
    decreases a
  {
    assert KindsAgreeAt(a, b, []) <==> (a.Value? && b.Value?) || (a.List? && b.List?) || (a.Mapping? && b.Mapping?);
    if Mergeable(a, b) {
      forall path
        ensures KindsAgreeAt(a, b, path)
      {
        MergedAt(a, b, path);
      }
    } else if KindsAgreeAt(a, b, []) && a.Mapping? && b.Mapping? {
      var k :| k in a.keys && k in b.keys && !Mergeable(a.keys[k], b.keys[k]);
      MergeableExactly(a.keys[k], b.keys[k]);
      var path :| !KindsAgreeAt(a.keys[k], b.keys[k], path);
      assert ([k] + path)[1..] == path;
      assert !KindsAgreeAt(a, b, [k] + path);
    }
  }

  /** What both trees hold under a path is of one kind. */
  predicate KindsAgreeAt(a: Tree, b: Tree, path: seq<string>) {
    var x, y := At(a, path), At(b, path);
    x.Some? && y.Some? ==>
      (x.value.Value? && y.value.Value?) || (x.value.List? && y.value.List?) || (x.value.Mapping? && y.value.Mapping?)
  }

  /** The items of `more` at increasing positions `at`: exactly those that `items` does not hold. */
  ghost predicate AppendedAt(more: seq<Tree>, n: nat, items: seq<Tree>, at: seq<nat>, added: seq<Tree>)
    requires n <= |more|
  {
    && |at| == |added|
    && (forall k :: 0 <= k < |at| ==> at[k] < n && added[k] == more[at[k]] && added[k] !in items)
    && (forall k, l :: 0 <= k < l < |at| ==> at[k] < at[l])
    && (forall i :: 0 <= i < n && more[i] !in items ==> i in at)
  }

  lemma OneMoreAppended(more: seq<Tree>, n: nat, items: seq<Tree>, at: seq<nat>, added: seq<Tree>)
    requires n < |more| && AppendedAt(more, n, items, at, added)
    ensures more[n] !in items ==> AppendedAt(more, n + 1, items, at + [n], added + [more[n]])
    ensures more[n] in items ==> AppendedAt(more, n + 1, items, at, added)
  {
    var at', added' := at + [n], added + [more[n]];
    assert forall k :: 0 <= k < |at| ==> at'[k] == at[k] && added'[k] == added[k];
    assert forall i :: i in at ==> i in at';
    assert at'[|at|] == n;
  }

  lemma {:induction false} MissingAppended(more: seq<Tree>, n: nat, items: seq<Tree>) returns (at: seq<nat>)
    requires n <= |more|
    ensures AppendedAt(more, n, items, at, Missing(more[..n], items))
  {
    if n == 0 {
      at := [];
    } else {
      assert more[..n][..n - 1] == more[..n - 1];
      at := MissingAppended(more, n - 1, items);
      hide AppendedAt;
      OneMoreAppended(more, n - 1, items, at, Missing(more[..n - 1], items));
      if more[n - 1] in items {
        assert Missing(more[..n - 1], items) + [] == Missing(more[..n - 1], items);
      } else {
        at := at + [n - 1];
      }
    }
  }

  /** A merged list is the list there was, followed by the new file's items that it did not hold, in their order. */
  lemma {:induction false} ListsAppendInOrder(a: seq<Tree>, b: seq<Tree>) returns (at: seq<nat>)
    ensures Mergeable(List(a), List(b)) && Merge(List(a), List(b)).List?
    ensures var items := Merge(List(a), List(b)).items;
      |items| >= |a| && items[..|a|] == a && AppendedAt(b, |b|, a, at, items[|a|..])
  {
    at := MissingAppended(b, |b|, a);
    assert b[..|b|] == b;
  }

  /** Any other value comes from the latest file that sets it. */
  lemma {:induction false} LatestValueWins(files: seq<Tree>, path: seq<string>, i: nat)
    requires MergeAll(files).Some? && i < |files| && |path| > 0
    requires At(files[i], path).Some? && At(files[i], path).value.Value?
    requires forall k :: i < k < |files| ==> At(files[k], path).None?
    ensures At(MergeAll(files).value, path) == At(files[i], path)
    decreases |files|
  {
    var n := |files| - 1;
    MergedAt(MergeAll(files[..n]).value, files[n], path);
    if i < n {
      LatestValueWins(files[..n], path, i);
    }
  }

  /** A merged list holds exactly what some file lists there. */
  lemma {:induction false} ListsAreUnited(files: seq<Tree>, path: seq<string>, v: Tree)
    requires MergeAll(files).Some? && |path| > 0
    requires At(MergeAll(files).value, path).Some? && At(MergeAll(files).value, path).value.List?
    ensures v in At(MergeAll(files).value, path).value.items <==>
            exists k :: 0 <= k < |files| && At(files[k], path).Some? && At(files[k], path).value.List?
              && v in At(files[k], path).value.items
    decreases |files|
  {
    if |files| > 0 {
      var n := |files| - 1;
      var before, last := At(MergeAll(files[..n]).value, path), At(files[n], path);
      MergedAt(MergeAll(files[..n]).value, files[n], path);
      assert forall k :: 0 <= k < n ==> files[..n][k] == files[k];
      if before.Some? {
        ListsAreUnited(files[..n], path, v);
        if last.Some? {
          MissingIn(last.value.items, before.value.items, v);
        }
      } else {
        NothingThere(files[..n], path);
      }
    }
  }

  lemma {:induction false} NothingThere(files: seq<Tree>, path: seq<string>)
    requires MergeAll(files).Some? && At(MergeAll(files).value, path).None?
    ensures forall k :: 0 <= k < |files| ==> At(files[k], path).None?
    decreases |files|
  {
    if |files| > 0 {
      var n := |files| - 1;
      MergedAt(MergeAll(files[..n]).value, files[n], path);
      NothingThere(files[..n], path);
      assert forall k :: 0 <= k < n ==> files[..n][k] == files[k];
    }
  }

  // ------------------------------------------------------------------ the files in order

  const EMPTY := Mapping(map[])

  /** The files merged one by one into an empty calendar. */
  function MergeAll(files: seq<Tree>): Option<Tree> {
    if |files| == 0 then Some(EMPTY) else
    var before := MergeAll(files[..|files| - 1]);
    if before.None? then None else TryMerge(before.value, files[|files| - 1])
  }

  lemma MergeEmpty(a: Tree)
    requires a.Mapping?
    ensures TryMerge(EMPTY, a) == Some(a) && TryMerge(a, EMPTY) == Some(a)
  {
    assert Merge(EMPTY, a).keys == a.keys;
    assert Merge(a, EMPTY).keys == a.keys;
  }

  lemma {:induction false} MergeAllIsMapping(files: seq<Tree>)
    ensures MergeAll(files).Some? ==> MergeAll(files).value.Mapping?
  {
    if |files| > 0 {
      MergeAllIsMapping(files[..|files| - 1]);
    }
  }

  /** How files are grouped never matters, only their order: merging a run of files into a calendar is
      merging in their own merge, and one fails exactly when the other does. A group that fails on its
      own fails in every calendar it is merged into. */
  lemma {:induction false} GroupingDoesNotMatter(x: seq<Tree>, y: seq<Tree>)
    requires forall f :: f in y ==> f.Mapping?
    ensures MergeAll(x + y) ==
            if MergeAll(x).None? || MergeAll(y).None? then None else TryMerge(MergeAll(x).value, MergeAll(y).value)
    decreases |y|
  {
    MergeAllIsMapping(x);
    if |y| == 0 {
      assert x + y == x;
      if MergeAll(x).Some? {
        MergeEmpty(MergeAll(x).value);
      }
    } else {
      var y', f := y[..|y| - 1], y[|y| - 1];
      assert (x + y)[..|x + y| - 1] == x + y';
      GroupingDoesNotMatter(x, y');
      MergeAllIsMapping(y');
      if MergeAll(x).Some? && MergeAll(y').Some? {
        MergeAssociates(MergeAll(x).value, MergeAll(y').value, f);
      }
    }
  }

  // ------------------------------------------------------------------ the loops

  /** A merge that raised: the key it names, and the calendar it leaves half merged. */
  datatype Outcome = Merged(calendar: Calendar) | KindChanges(key: string, left: Calendar)

  /** What a failed merge leaves, once it had merged the keys `done`: those are merged, `key` is where it failed,
      and every other key is as it was. `bad` is the key whose kind changes, here or further down. */
  ghost predicate HalfMergedAt(into: Calendar, more: Calendar, left: Calendar, bad: string, done: set<string>, key: string)
    decreases Mapping(into), 0
  {
    && done <= more.Keys && key in into && key in more && key !in done
    && left.Keys == into.Keys + done
    && (forall k :: k in done && k !in into ==> left[k] == more[k])
    && (forall k :: k in done && k in into ==> Mergeable(into[k], more[k]) && left[k] == Merge(into[k], more[k]))
    && (forall k :: k in into && k !in done && k != key ==> left[k] == into[k])
    && BrokenOff(into[key], more[key], left[key], bad, key)
  }

  /** One key where a merge breaks off: kinds that differ leave it alone, a mapping is left half merged below. */
  ghost predicate BrokenOff(known: Tree, value: Tree, left: Tree, bad: string, key: string)
    decreases known, 1
  {
    if !SameKind(known, value) then left == known && bad == key
    else
      && known.Mapping? && value.Mapping? && left.Mapping?
      && exists done, below :: HalfMergedAt(known.keys, value.keys, left.keys, bad, done, below)
  }

  ghost predicate HalfMerged(into: Calendar, more: Calendar, left: Calendar, bad: string) {
    exists done, key :: HalfMergedAt(into, more, left, bad, done, key)
  }

  /** What the loop has done once the keys still to come are `left`. */
  ghost predicate MergedBut(into: Calendar, more: Calendar, merged: Calendar, left: set<string>) {
    && left <= more.Keys
    && merged.Keys == into.Keys + (more.Keys - left)
    && (forall k :: k in into && (k in left || k !in more) ==> merged[k] == into[k])
    && (forall k :: k in more && k !in left && k !in into ==> merged[k] == more[k])
    && (forall k :: k in more && k !in left && k in into ==>
          Mergeable(into[k], more[k]) && merged[k] == Merge(into[k], more[k]))
  }

  lemma MergedStep(into: Calendar, more: Calendar, merged: Calendar, left: set<string>, key: string, value: Tree)
    requires MergedBut(into, more, merged, left) && key in left
    requires key !in into ==> value == more[key]
    requires key in into ==> Mergeable(into[key], more[key]) && value == Merge(into[key], more[key])
    ensures MergedBut(into, more, merged[key := value], left - {key})
  {
    hide Mergeable, Merge;
  }

  lemma MergedAll(into: Calendar, more: Calendar, merged: Calendar)
    requires MergedBut(into, more, merged, {})
    ensures Mergeable(Mapping(into), Mapping(more)) && Mapping(merged) == Merge(Mapping(into), Mapping(more))
  {
    assert merged == Merge(Mapping(into), Mapping(more)).keys;
  }

  lemma NotMerged(into: Calendar, more: Calendar, key: string)
    requires key in into && key in more && !Mergeable(into[key], more[key])
    ensures !Mergeable(Mapping(into), Mapping(more))
  {
  }

  lemma BreaksOff(into: Calendar, more: Calendar, merged: Calendar, todo: set<string>, key: string, value: Tree, bad: string)
    requires MergedBut(into, more, merged, todo) && key in todo && key in into
    requires BrokenOff(into[key], more[key], value, bad, key)
    ensures HalfMerged(into, more, merged[key := value], bad)
  {
    hide Mergeable, Merge, BrokenOff;
    assert HalfMergedAt(into, more, merged[key := value], bad, more.Keys - todo, key);
  }

  /** The loop over the new file's keys, in any order: every key merged, or a key whose kind differs and the
      calendar left half merged. */
  method MergeCalendar(into: Calendar, more: Calendar) returns (r: Outcome)
    ensures r.Merged? <==> Mergeable(Mapping(into), Mapping(more))
    ensures r.Merged? ==> Mapping(r.calendar) == Merge(Mapping(into), Mapping(more))
    ensures r.KindChanges? ==> HalfMerged(into, more, r.left, r.key)
    decreases Mapping(more), 0
  {
    var merged := into;
    var keys := more.Keys;
    while keys != {}
      invariant MergedBut(into, more, merged, keys)
      decreases keys
    {
      var key :| key in keys;
      var value := more[key];
      if key in into {
        assert merged[key] == into[key];
        var both, bad := MergeValue(key, merged[key], value);
        if bad.Some? {
          NotMerged(into, more, key);
          hide MergedBut, HalfMerged, BrokenOff;
          BreaksOff(into, more, merged, keys, key, both, bad.value);
          return KindChanges(bad.value, merged[key := both]);
        }
        value := both;
      }
      hide MergedBut;
      MergedStep(into, more, merged, keys, key, value);
      merged := merged[key := value];
      keys := keys - {key};
    }
    MergedAll(into, more, merged);
    r := Merged(merged);
  }

  /** One key of both: different kinds fail, lists are extended, mappings merged below, values replaced. */
  method MergeValue(key: string, known: Tree, value: Tree) returns (both: Tree, bad: Option<string>)
    ensures bad.None? <==> Mergeable(known, value)
    ensures bad.None? ==> both == Merge(known, value)
    ensures bad.Some? ==> BrokenOff(known, value, both, bad.value, key)
    decreases value, 1
  {
    if !SameKind(known, value) {
      return known, Some(key);
    }
    bad := None;
    match value
    case Value(_) =>
      both := value;
    case List(items) =>
      both := List(known.items + Missing(items, known.items));
    case Mapping(below) =>
      var inner := MergeCalendar(known.keys, below);
      assert Mapping(known.keys) == known && Mapping(below) == value;
      match inner {
        case Merged(calendar) => both := Mapping(calendar);
        case KindChanges(k, left) => both, bad := Mapping(left), Some(k);
      }
  }

  /** Why a directory's calendars do not load. */
  datatype LoadFailure = NoFiles | BadFile(number: nat, key: string)

  /** The calendars of a directory in file-name order: without a file it fails, and at the first file that does
      not merge into those before it. */
  method LoadCalendars(files: seq<Calendar>) returns (r: Result<Calendar, LoadFailure>)
    ensures (r.Ok? <==> |files| > 0 && MergeAll(Trees(files)).Some?)
    ensures r.Ok? ==> MergeAll(Trees(files)) == Some(Mapping(r.value))
    ensures r == Err(NoFiles) <==> |files| == 0
    ensures r.Err? && r.error.BadFile? ==> FirstBadFile(files, r.error.number)
  {
    if |files| == 0 {
      return Err(NoFiles);
    }
    hide MergeAll, Trees, Merge, Mergeable, HalfMerged;
    var merged: Calendar := map[];
    NoFileMerged(files);
    for i := 0 to |files|
      invariant MergeAll(Trees(files)[..i]) == Some(Mapping(merged))
    {
      OneMoreFile(files, i);
      var next := MergeCalendar(merged, files[i]);
      if next.KindChanges? {
        FailureStays(Trees(files), i + 1);
        return Err(BadFile(i, next.key));
      }
      merged := next.calendar;
    }
    assert Trees(files)[..|files|] == Trees(files);
    r := Ok(merged);
  }

  function Trees(files: seq<Calendar>): (trees: seq<Tree>)
    ensures |trees| == |files|
  {
    seq(|files|, i requires 0 <= i < |files| => Mapping(files[i]))
  }

  /** The files before it merge, and with it they do not. */
  ghost predicate FirstBadFile(files: seq<Calendar>, number: nat) {
    number < |files| && MergeAll(Trees(files)[..number]).Some? && MergeAll(Trees(files)[..number + 1]).None?
  }

  lemma NoFileMerged(files: seq<Calendar>)
    ensures MergeAll(Trees(files)[..0]) == Some(Mapping(map[]))
  {
  }

  lemma OneMoreFile(files: seq<Calendar>, i: nat)
    requires i < |files|
    ensures var before := MergeAll(Trees(files)[..i]);
      MergeAll(Trees(files)[..i + 1]) == if before.None? then None else TryMerge(before.value, Mapping(files[i]))
  {
    assert Trees(files)[..i + 1][..i] == Trees(files)[..i];
    hide TryMerge;
  }

  lemma {:induction false} FailureStays(files: seq<Tree>, i: nat)
    requires i <= |files| && MergeAll(files[..i]).None?
    ensures MergeAll(files).None?
    decreases |files|
  {
    if i < |files| {
      assert files[..|files| - 1][..i] == files[..i];
      FailureStays(files[..|files| - 1], i);
    } else {
      assert files[..i] == files;
    }
  }
}
