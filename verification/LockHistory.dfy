/** What moves LOCK and gate.json over whole histories: who is refused, what a killed run leaves behind, and what
    no history can undo. */
module LockHistory {
  import opened RunOnce

  /** Every action of the history can happen where it stands, whoever removes LOCK and whenever. */
  ghost predicate Possible(s: State, run: seq<Action>)
    decreases |run|
  {
    |run| == 0 || (Enabled(s, run[0]) && Possible(Next(s, run[0]), run[1..]))
  }

  /** LOCK appears only when a run takes it, and disappears only when a run leaves `with run_lock` or someone
      removes it: a kill leaves it behind. */
  lemma LockMovesExactly(s: State, a: Action)
    requires Enabled(s, a)
    ensures !s.lock && Next(s, a).lock <==> !s.lock && a.Acquire?
    ensures s.lock && !Next(s, a).lock <==> s.lock && (a.Release? || a.RemoveLock?)
  {
  }

  /** A run takes the lock exactly when LOCK is not there; else it is refused and nothing else changes. */
  lemma AcquiresExactly(s: State, p: nat)
    requires Enabled(s, Acquire(p))
    ensures var t := Next(s, Acquire(p));
      && (t.At(p).Holding() <==> !s.lock)
      && (s.lock ==> t.At(p).Gone? && t.lock && SameResults(s, t))
      && (!s.lock ==> t.lock && SameResults(s, t))
  {
  }

  /** The folders, the writers and the verdicts are the same. */
  predicate SameResults(s: State, t: State) {
    s.folders == t.folders && s.writers == t.writers && s.verdicts == t.verdicts
  }

  /** A history in which no run leaves the lock and nobody removes LOCK keeps it. */
  lemma {:induction false} LockStays(s: State, run: seq<Action>)
    requires s.lock && Possible(s, run) && forall i :: 0 <= i < |run| ==> !run[i].Release? && !run[i].RemoveLock?
    ensures After(s, run).lock
    decreases |run|
  {
    if |run| > 0 {
      LockStays(Next(s, run[0]), run[1..]);
    }
  }

  /** A run killed inside the lock leaves LOCK there, and no run alive if it was the only one. */
  lemma KillLeavesLock(s: State, p: nat)
    requires OneHolder(s) && s.At(p).Holding()
    ensures Enabled(s, Kill(p)) && Next(s, Kill(p)).lock && Next(s, Kill(p)).NoneAlive()
  {
    forall q
      ensures !Next(s, Kill(p)).At(q).Holding()
    {
      OthersStay(s, Kill(p));
    }
  }

  lemma {:induction false} BlockedStep(s: State, a: Action)
    requires s.lock && s.NoneAlive() && Enabled(s, a) && !a.RemoveLock?
    ensures var t := Next(s, a); t.lock && t.NoneAlive() && SameResults(s, t)
    ensures a.Acquire? || a.Kill?
  {
    OthersStay(s, a);
    assert !s.At(Actor(a)).Holding();
  }

  /** With LOCK there and no run alive, every continuation refuses every run until LOCK is removed: nobody gets
      inside, and no folder, gate, result or verdict changes. */
  lemma {:induction false} AbandonedLockBlocks(s: State, run: seq<Action>)
    requires s.lock && s.NoneAlive() && Possible(s, run) && forall i :: 0 <= i < |run| ==> !run[i].RemoveLock?
    ensures var t := After(s, run); t.lock && t.NoneAlive() && SameResults(s, t)
    decreases |run|
  {
    if |run| > 0 {
      hide State.NoneAlive, Next, Enabled;
      BlockedStep(s, run[0]);
      AbandonedLockBlocks(Next(s, run[0]), run[1..]);
    }
  }

  /** So a killed run blocks the study: whatever is tried after it, no run gets inside until LOCK is removed. */
  lemma {:induction false} KilledRunBlocks(s: State, p: nat, run: seq<Action>)
    requires OneHolder(s) && s.At(p).Holding() && Possible(Next(s, Kill(p)), run)
    requires forall i :: 0 <= i < |run| ==> !run[i].RemoveLock?
    ensures var t := After(Next(s, Kill(p)), run);
      && t.lock && t.NoneAlive() && SameResults(s, t)
      && forall q :: t.At(q).Ready? ==> Next(t, Acquire(q)).At(q).Gone?
  {
    KillLeavesLock(s, p);
    AbandonedLockBlocks(Next(s, Kill(p)), run);
  }

  // ------------------------------------------------------------------ what a study can do

  lemma {:induction false} FollowedBy(s: State, a: Action, rest: seq<Action>)
    requires Enabled(s, a)
    ensures Possible(s, [a] + rest) == Possible(Next(s, a), rest)
    ensures After(s, [a] + rest) == After(Next(s, a), rest)
  {
    assert ([a] + rest)[1..] == rest;
  }

  /** From its own folder on, a run can write its gate, show the verdict, write the result and leave. */
  lemma {:induction false} RunCanFinish(s: State, p: nat, n: nat) returns (run: seq<Action>)
    requires s.At(p) == Opened(n) && n in s.folders && s.folders[n] == Folder(Absent, false)
    ensures Possible(s, run) && forall i :: 0 <= i < |run| ==> !run[i].RemoveLock? && !run[i].Raise? && !run[i].Kill?
    ensures var t := After(s, run);
      && !t.lock && t.At(p).Gone?
      && t.folders == s.folders[n := Folder(Complete, true)]
      && t.writers == s.writers + {p} && t.verdicts == s.verdicts + {n}
  {
    var s4 := Next(s, CreateGate(p));
    var s5 := Next(s4, WriteGate(p));
    var s6 := Next(s5, ShowVerdict(p));
    var s7 := Next(s6, WriteResult(p));
    var s8 := Next(s7, Release(p));
    assert s8.folders == s.folders[n := Folder(Complete, true)];
    hide Next;
    FollowedBy(s7, Release(p), []);
    run := [Release(p)] + [];
    FollowedBy(s6, WriteResult(p), run);
    run := [WriteResult(p)] + run;
    FollowedBy(s5, ShowVerdict(p), run);
    run := [ShowVerdict(p)] + run;
    FollowedBy(s4, WriteGate(p), run);
    run := [WriteGate(p)] + run;
    FollowedBy(s, CreateGate(p), run);
    run := [CreateGate(p)] + run;
  }

  /** A study that has not run, with LOCK free, can run: it ends with its folder's gate complete and result
      written, its verdict shown, itself the writer, and LOCK gone again. */
  lemma {:induction false} StudyCanRun(s: State, p: nat, n: nat) returns (run: seq<Action>)
    requires !s.lock && s.CompletedRuns() == {} && s.At(p).Ready? && n !in s.folders
    ensures Possible(s, run) && forall i :: 0 <= i < |run| ==> !run[i].RemoveLock? && !run[i].Raise? && !run[i].Kill?
    ensures var t := After(s, run);
      && !t.lock && t.At(p).Gone?
      && t.folders == s.folders[n := Folder(Complete, true)]
      && t.writers == s.writers + {p} && t.verdicts == s.verdicts + {n}
  {
    var s1 := Next(s, Acquire(p));
    assert s1.CompletedRuns() == s.CompletedRuns();
    var s2 := Next(s1, Check(p));
    var s3 := Next(s2, Open(p, n));
    assert s3.folders[n := Folder(Complete, true)] == s.folders[n := Folder(Complete, true)];
    run := RunCanFinish(s3, p, n);
    hide Next, After, Possible;
    FollowedBy(s2, Open(p, n), run);
    run := [Open(p, n)] + run;
    FollowedBy(s1, Check(p), run);
    run := [Check(p)] + run;
    FollowedBy(s, Acquire(p), run);
    run := [Acquire(p)] + run;
  }

  /** A run that fails before its gate leaves the lock behind it and no trace that counts: the study can be
      tried again. */
  lemma {:induction false} FailureBeforeGateCanRetry(s: State, p: nat)
    requires s.lock && s.CompletedRuns() == {} && s.At(p).Holding() && !s.At(p).Releasing? && !s.At(p).Finished?
    ensures Possible(s, [Raise(p), Release(p)])
    ensures var t := After(s, [Raise(p), Release(p)]);
      !t.lock && t.At(p).Gone? && t.CompletedRuns() == {} && SameResults(s, t)
  {
    var s1 := Next(s, Raise(p));
    FollowedBy(s1, Release(p), []);
    assert [Release(p)] + [] == [Release(p)];
    FollowedBy(s, Raise(p), [Release(p)]);
    assert [Raise(p)] + [Release(p)] == [Raise(p), Release(p)];
  }

  /** A run passes the check exactly when no folder holds a gate or a result; else it leaves, and nothing but its
      own place changes. */
  lemma ChecksExactly(s: State, p: nat)
    requires Enabled(s, Check(p))
    ensures var t := Next(s, Check(p));
      && (t.At(p).Checked? <==> forall f :: f in s.folders ==> s.folders[f].gate.Absent? && !s.folders[f].result)
      && (!t.At(p).Checked? ==> t.At(p).Releasing?)
      && t.lock == s.lock && SameResults(s, t)
  {
    if s.CompletedRuns() == {} {
      forall f | f in s.folders
        ensures s.folders[f].gate.Absent? && !s.folders[f].result
      {
        assert f !in s.CompletedRuns();
      }
    }
  }

  /** A run opens a folder of its own exactly when the name is new; a name already there stops it. */
  lemma OpensExactly(s: State, p: nat, n: nat)
    requires Enabled(s, Open(p, n))
    ensures var t := Next(s, Open(p, n));
      && (n !in s.folders ==> t.At(p) == Opened(n) && t.folders == s.folders[n := Folder(Absent, false)])
      && (n in s.folders ==> t.At(p).Releasing? && t.folders == s.folders)
      && t.lock == s.lock && t.writers == s.writers && t.verdicts == s.verdicts
  {
  }

  // ------------------------------------------------------------------ what no history undoes

  predicate Reached(before: Gate, after: Gate) {
    before.Absent? || after.Complete? || (before.Partial? && after.Partial?)
  }

  /** Nothing that was recorded is taken back. */
  ghost predicate Kept(s: State, t: State) {
    && s.writers <= t.writers && s.verdicts <= t.verdicts
    && forall f :: f in s.folders ==>
         f in t.folders && Reached(s.folders[f].gate, t.folders[f].gate) && (s.folders[f].result ==> t.folders[f].result)
  }

  lemma KeptStep(s: State, a: Action)
    requires Inv(s) && Enabled(s, a)
    ensures Kept(s, Next(s, a))
  {
    if !a.RemoveLock? {
      assert Fits(s, Actor(a));
    }
  }

  lemma KeptOn(s: State, t: State, u: State)
    requires Kept(s, t) && Kept(t, u)
    ensures Kept(s, u)
  {
  }

  /** Over every history a folder stays, its gate only moves on, and no result, writer or verdict is lost. */
  lemma {:induction false} GatesOnlyMoveOn(s: State, run: seq<Action>)
    requires Inv(s) && Disciplined(s, run)
    ensures Kept(s, After(s, run))
    decreases |run|
  {
    if |run| > 0 {
      hide Inv, Kept, Next, Enabled;
      KeptStep(s, run[0]);
      StepKeepsInv(s, run[0]);
      GatesOnlyMoveOn(Next(s, run[0]), run[1..]);
      KeptOn(s, Next(s, run[0]), After(s, run));
    } else {
      assert Kept(s, s);
    }
  }

  /** Once a gate is known the study has run for good: on every history at all, LOCK removed at will, no run
      opens a folder or becomes a writer. */
  lemma {:induction false} KnownGateIsFinal(s: State, run: seq<Action>)
    requires Inv(s) && s.CompletedRuns() != {} && Possible(s, run)
    ensures Disciplined(s, run)
    ensures var t := After(s, run);
      t.CompletedRuns() == s.CompletedRuns() && t.writers == s.writers && t.folders.Keys == s.folders.Keys
    decreases |run|
  {
    if |run| > 0 {
      var t := Next(s, run[0]);
      FinalStep(s, run[0]);
      hide Inv, Next, Enabled, State.CompletedRuns;
      KnownGateIsFinal(t, run[1..]);
    }
  }

  lemma {:induction false} FinalStep(s: State, a: Action)
    requires Inv(s) && s.CompletedRuns() != {} && Enabled(s, a)
    ensures var t := Next(s, a);
      && Inv(t) && t.CompletedRuns() == s.CompletedRuns() && t.writers == s.writers && t.folders.Keys == s.folders.Keys
      && SafeToRemove(s)
  {
    StepKeepsInv(s, a);
    if a.RemoveLock? {
      assert Next(s, a).CompletedRuns() == s.CompletedRuns();
    } else {
      assert Fits(s, Actor(a));
      assert !a.CreateGate? && !a.Open?;
      SameRuns(s, a);
    }
  }
}
