/** The once-only protocol of a real study run: results/LOCK, the run folders and gate.json, over every
    interleaving of processes, exceptions, kills and an operator who may remove LOCK. */
module RunOnce {

  /** gate.json is created empty, then written. */
  datatype Gate = Absent | Partial | Complete

  datatype Folder = Folder(gate: Gate, result: bool)

  /** Where a run stands. From Locked to Releasing it is inside `with run_lock`; a killed run stays put. */
  datatype Phase =
    | Ready
    | Locked
    | Checked
    | Opened(name: nat)
    | Creating(name: nat)
    | Gated(name: nat)
    | Printed(name: nat)
    | Finished(name: nat)
    | Releasing
    | Gone
  {
    predicate Holding() {
      !Ready? && !Gone?
    }

    predicate Named() {
      Opened? || Creating? || Gated? || Printed? || Finished?
    }
  }

  /** `writers` and `verdicts` record which runs created a gate.json and which folders' verdicts were shown. */
  datatype State = State(lock: bool, folders: map<nat, Folder>, phase: map<nat, Phase>,
                         writers: set<nat>, verdicts: set<nat>)
  {
    /** A process not seen before is ready to start. */
    function At(p: nat): Phase {
      if p in phase then phase[p] else Ready
    }

    function Move(p: nat, to: Phase): State {
      this.(phase := phase[p := to])
    }

    /** The folders that count as a completed run: gate.json is there, complete or not, or result.json. */
    function CompletedRuns(): set<nat> {
      set f | f in folders && (folders[f].gate != Absent || folders[f].result)
    }

    /** No run is inside the lock. */
    ghost predicate NoneAlive() {
      forall p :: !At(p).Holding()
    }
  }

  datatype Action =
    | Acquire(p: nat)
    | Check(p: nat)
    | Open(p: nat, name: nat)
    | CreateGate(p: nat)
    | WriteGate(p: nat)
    | ShowVerdict(p: nat)
    | WriteResult(p: nat)
    | Release(p: nat)
    | Raise(p: nat)
    | Kill(p: nat)
    | RemoveLock

  predicate Enabled(s: State, a: Action) {
    match a
    case Acquire(p) => s.At(p).Ready?
    case Check(p) => s.At(p).Locked?
    case Open(p, _) => s.At(p).Checked?
    case CreateGate(p) => s.At(p).Opened? && s.At(p).name in s.folders
    case WriteGate(p) => s.At(p).Creating? && s.At(p).name in s.folders
    case ShowVerdict(p) => s.At(p).Gated?
    case WriteResult(p) => s.At(p).Printed? && s.At(p).name in s.folders
    case Release(p) => s.At(p).Finished? || s.At(p).Releasing?
    case Raise(p) => s.At(p).Holding() && !s.At(p).Releasing? && !s.At(p).Finished?
    case Kill(p) => !s.At(p).Gone?
    case RemoveLock => true
  }

  function Next(s: State, a: Action): State
    requires Enabled(s, a)
  {
    match a
    case Acquire(p) => if s.lock then s.Move(p, Gone) else s.Move(p, Locked).(lock := true)
    case Check(p) => s.Move(p, if s.CompletedRuns() == {} then Checked else Releasing)
    case Open(p, name) =>
      if name in s.folders then s.Move(p, Releasing)
      else s.Move(p, Opened(name)).(folders := s.folders[name := Folder(Absent, false)])
    case CreateGate(p) =>
      var n := s.At(p).name;
      s.Move(p, Creating(n)).(folders := s.folders[n := s.folders[n].(gate := Partial)], writers := s.writers + {p})
    case WriteGate(p) =>
      var n := s.At(p).name;
      s.Move(p, Gated(n)).(folders := s.folders[n := s.folders[n].(gate := Complete)])
    case ShowVerdict(p) => s.Move(p, Printed(s.At(p).name)).(verdicts := s.verdicts + {s.At(p).name})
    case WriteResult(p) =>
      var n := s.At(p).name;
      s.Move(p, Finished(n)).(folders := s.folders[n := s.folders[n].(result := true)])
    case Release(p) => s.Move(p, Gone).(lock := false)
    case Raise(p) => s.Move(p, Releasing)
    case Kill(p) => s.Move(p, Gone)
    case RemoveLock => s.(lock := false)
  }

  const START := State(false, map[], map[], {}, {})

  /** When an operator's removal of LOCK can do no harm: a gate is already known, or no run is alive. */
  ghost predicate SafeToRemove(s: State) {
    s.CompletedRuns() != {} || s.NoneAlive()
  }

  /** The run is enabled step by step, and LOCK is only ever removed when that is safe. */
  ghost predicate Disciplined(s: State, run: seq<Action>)
    decreases |run|
  {
    |run| == 0 ||
    (Enabled(s, run[0]) && (run[0].RemoveLock? ==> SafeToRemove(s)) && Disciplined(Next(s, run[0]), run[1..]))
  }

  function After(s: State, run: seq<Action>): State
    decreases |run|
  {
    if |run| == 0 || !Enabled(s, run[0]) then s else After(Next(s, run[0]), run[1..])
  }

  // ------------------------------------------------------------------ safety

  /** At most one run ever created a gate.json, and at most one folder holds one. */
  ghost predicate RunsOnce(s: State) {
    && |s.writers| <= 1
    && (forall f, g :: f in s.folders && g in s.folders && s.folders[f].gate != Absent && s.folders[g].gate != Absent ==> f == g)
  }

  /** A verdict was shown only for a folder whose gate.json is complete. */
  ghost predicate VerdictsRecorded(s: State) {
    forall n :: n in s.verdicts ==> n in s.folders && s.folders[n].gate == Complete
  }

  ghost predicate Fits(s: State, p: nat) {
    var f := s.At(p);
    && (f.Named() ==> f.name in s.folders)
    && (f.Opened? ==> s.folders[f.name].gate == Absent)
    && (f.Creating? ==> s.folders[f.name].gate == Partial)
    && (f.Gated? || f.Printed? || f.Finished? ==> s.folders[f.name].gate == Complete)
  }

  /** At most one run is inside the lock, and LOCK is there for it. */
  ghost predicate OneHolder(s: State) {
    (forall p :: s.At(p).Holding() ==> s.lock) &&
    (forall p, q :: s.At(p).Holding() && s.At(q).Holding() ==> p == q)
  }

  /** No run is about to create a gate, and only a writer has a folder of its own. */
  ghost predicate NoMoreGates(s: State) {
    forall p :: !s.At(p).Checked? && (s.At(p).Named() ==> !s.At(p).Opened? && p in s.writers)
  }

  /** Before any gate one run at most is inside the lock; once a gate exists there is one writer and no
      run is about to create another. */
  ghost predicate Inv(s: State) {
    && VerdictsRecorded(s)
    && (forall p :: Fits(s, p))
    && (forall f :: f in s.folders && s.folders[f].result ==> s.folders[f].gate != Absent)
    && (s.CompletedRuns() == {} ==> s.writers == {} && OneHolder(s))
    && (s.CompletedRuns() != {} ==> NoMoreGates(s) && exists p, f :: s.writers == {p} && s.CompletedRuns() == {f})
  }

  lemma InvRunsOnce(s: State)
    requires Inv(s)
    ensures RunsOnce(s)
  {
    forall f, g | f in s.folders && g in s.folders && s.folders[f].gate != Absent && s.folders[g].gate != Absent
      ensures f == g
    {
      assert f in s.CompletedRuns() && g in s.CompletedRuns();
    }
  }

  lemma RemovalKeepsInv(s: State)
    requires Inv(s) && SafeToRemove(s)
    ensures Inv(Next(s, RemoveLock))
  {
    var t := Next(s, RemoveLock);
    assert t.CompletedRuns() == s.CompletedRuns();
    assert forall p :: t.At(p) == s.At(p);
    assert forall p :: Fits(s, p) ==> Fits(t, p);
  }

  lemma GateKeepsInv(s: State, p: nat)
    requires Inv(s) && Enabled(s, CreateGate(p))
    ensures Inv(Next(s, CreateGate(p)))
  {
    var t, n := Next(s, CreateGate(p)), s.At(p).name;
    assert Fits(s, p);
    OthersStay(s, CreateGate(p));
    assert t.CompletedRuns() == {n} by { OnlyNewGate(s, n); }
    assert t.writers == {p};
    FitsStep(s, CreateGate(p));
  }

  lemma FitsStep(s: State, a: Action)
    requires Inv(s) && Enabled(s, a) && !a.RemoveLock?
    ensures forall q :: Fits(Next(s, a), q)
  {
    var p := Actor(a);
    assert Fits(s, p);
    OthersStay(s, a);
    forall q
      ensures Fits(Next(s, a), q)
    {
      assert Fits(s, q);
      if q != p {
        assert Next(s, a).At(q) == s.At(q);
      }
    }
  }

  lemma StepKeepsInv(s: State, a: Action)
    requires Inv(s) && Enabled(s, a) && (a.RemoveLock? ==> SafeToRemove(s))
    ensures Inv(Next(s, a))
  {
    if a.RemoveLock? {
      RemovalKeepsInv(s);
    } else if a.CreateGate? {
      GateKeepsInv(s, a.p);
    } else {
      SameRuns(s, a);
      FitsStep(s, a);
      HoldersStep(s, a);
      VerdictsStep(s, a);
    }
  }

  /** Every other action leaves the completed runs, their writers and the results' gates alone. */
  lemma {:induction false} SameRuns(s: State, a: Action)
    requires Inv(s) && Enabled(s, a) && !a.RemoveLock? && !a.CreateGate?
    ensures Next(s, a).CompletedRuns() == s.CompletedRuns() && Next(s, a).writers == s.writers
    ensures forall f :: f in Next(s, a).folders && Next(s, a).folders[f].result ==> Next(s, a).folders[f].gate != Absent
  {
    assert Fits(s, Actor(a));
    if a.WriteGate? || a.WriteResult? || a.ShowVerdict? {
      assert s.At(Actor(a)).name in s.CompletedRuns();
    }
  }

  lemma {:induction false} HoldersStep(s: State, a: Action)
    requires Inv(s) && Enabled(s, a) && !a.RemoveLock? && !a.CreateGate?
    ensures s.CompletedRuns() == {} ==> OneHolder(Next(s, a))
    ensures s.CompletedRuns() != {} ==> NoMoreGates(Next(s, a))
  {
    hide Fits, VerdictsRecorded, State.CompletedRuns;
    var p := Actor(a);
    OthersStay(s, a);
  }

  lemma {:induction false} VerdictsStep(s: State, a: Action)
    requires Inv(s) && Enabled(s, a) && !a.RemoveLock? && !a.CreateGate?
    ensures VerdictsRecorded(Next(s, a))
  {
    assert Fits(s, Actor(a));
  }

  function Actor(a: Action): nat
    requires !a.RemoveLock?
  {
    a.p
  }

  lemma {:induction false} OthersStay(s: State, a: Action)
    requires Enabled(s, a) && !a.RemoveLock?
    ensures forall q :: q != Actor(a) ==> Next(s, a).At(q) == s.At(q)
  {
  }

  lemma {:induction false} OnlyNewGate(s: State, n: nat)
    requires s.CompletedRuns() == {} && n in s.folders
    ensures s.(folders := s.folders[n := s.folders[n].(gate := Partial)]).CompletedRuns() == {n}
  {
    assert forall f :: f in s.folders ==> f !in s.CompletedRuns();
  }

  lemma {:induction false} InvThroughout(s: State, run: seq<Action>)
    requires Inv(s) && Disciplined(s, run)
    ensures Inv(After(s, run))
    decreases |run|
  {
    if |run| > 0 {
      StepKeepsInv(s, run[0]);
      InvThroughout(Next(s, run[0]), run[1..]);
    }
  }

  /** Over every interleaving, exception and kill, at most one real run ever writes gate.json, and a
      verdict is shown only once its gate.json is complete. */
  lemma {:induction false} StudyRunsOnce(run: seq<Action>)
    requires Disciplined(START, run)
    ensures RunsOnce(After(START, run)) && VerdictsRecorded(After(START, run))
  {
    assert Inv(START);
    InvThroughout(START, run);
    InvRunsOnce(After(START, run));
  }

  // ------------------------------------------------------------------ the discipline is needed

  lemma {:induction false} Fresh(used: set<nat>) returns (n: nat)
    ensures forall k :: k in used ==> k < n
  {
    if used == {} {
      n := 0;
    } else {
      var k :| k in used;
      var m := Fresh(used - {k});
      n := if m > k then m else k + 1;
      assert forall i :: i in used ==> i == k || i in used - {k};
    }
  }

  lemma {:induction false} FirstStep(s: State, a: Action, rest: seq<Action>)
    requires Enabled(s, a) && !a.RemoveLock?
    ensures Disciplined(s, [a] + rest) == Disciplined(Next(s, a), rest)
    ensures After(s, [a] + rest) == After(Next(s, a), rest)
  {
    assert ([a] + rest)[1..] == rest;
  }

  /** Two runs that are both past the check create two gates. */
  lemma {:induction false} TwoGates(s: State, q: nat, r: nat, n: nat) returns (run: seq<Action>)
    requires q != r && s.At(q).Locked? && s.At(r).Locked? && s.CompletedRuns() == {}
    requires n !in s.folders && n + 1 !in s.folders && s.writers == {}
    ensures Disciplined(s, run) && !RunsOnce(After(s, run))
  {
    var s1 := Next(s, Check(q));
    assert s1.CompletedRuns() == s.CompletedRuns();
    var s2 := Next(s1, Check(r));
    var s3 := Next(s2, Open(q, n));
    var s4 := Next(s3, Open(r, n + 1));
    var s5 := Next(s4, CreateGate(q));
    var s6 := Next(s5, CreateGate(r));
    assert s6.writers == {q, r};
    assert |{q, r}| == 2;
    FirstStep(s5, CreateGate(r), []);
    FirstStep(s4, CreateGate(q), [CreateGate(r)] + []);
    run := [CreateGate(q)] + ([CreateGate(r)] + []);
    FirstStep(s3, Open(r, n + 1), run);
    run := [Open(r, n + 1)] + run;
    FirstStep(s2, Open(q, n), run);
    run := [Open(q, n)] + run;
    FirstStep(s1, Check(r), run);
    run := [Check(r)] + run;
    FirstStep(s, Check(q), run);
    run := [Check(q)] + run;
  }

  /** Removing LOCK under a live run before any gate exists lets two later runs hold it at once: the
      live run's own exit deletes the LOCK of the first of them. */
  lemma {:induction false} UnsafeRemoval(s: State) returns (run: seq<Action>)
    requires Inv(s) && !SafeToRemove(s)
    ensures Disciplined(Next(s, RemoveLock), run) && !RunsOnce(After(Next(s, RemoveLock), run))
  {
    var h :| s.At(h).Holding();
    assert Fits(s, h);
    assert s.At(h).Named() && !s.At(h).Opened? ==> s.At(h).name in s.CompletedRuns();
    var q := Fresh(s.phase.Keys);
    var r := q + 1;
    var n := Fresh(s.folders.Keys);
    var s0 := Next(s, RemoveLock);
    var s1 := Next(s0, Acquire(q));
    assert s1.At(h) == s.At(h);
    var s2 := if s1.At(h).Releasing? then s1 else Next(s1, Raise(h));
    var s3 := Next(s2, Release(h));
    assert !s3.lock && s3.At(q).Locked? && s3.At(r).Ready?;
    var s4 := Next(s3, Acquire(r));
    assert s4.CompletedRuns() == s.CompletedRuns();
    run := TwoGates(s4, q, r, n);
    FirstStep(s3, Acquire(r), run);
    run := [Acquire(r)] + run;
    FirstStep(s2, Release(h), run);
    run := [Release(h)] + run;
    if !s1.At(h).Releasing? {
      FirstStep(s1, Raise(h), run);
      run := [Raise(h)] + run;
    }
    FirstStep(s0, Acquire(q), run);
    run := [Acquire(q)] + run;
  }

  /** Exactly when an operator may remove LOCK: the study still runs once on every later history if and
      only if a gate is already known or no run is alive. */
  lemma {:induction false} RemovalIsSafeExactly(s: State)
    requires Inv(s)
    ensures SafeToRemove(s) <==>
            forall run :: Disciplined(Next(s, RemoveLock), run) ==> RunsOnce(After(Next(s, RemoveLock), run))
  {
    var t := Next(s, RemoveLock);
    if SafeToRemove(s) {
      RemovalKeepsInv(s);
      forall run | Disciplined(t, run)
        ensures RunsOnce(After(t, run))
      {
        InvThroughout(t, run);
        InvRunsOnce(After(t, run));
      }
    } else {
      var run := UnsafeRemoval(s);
    }
  }
}
