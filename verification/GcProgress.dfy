/** Steps of the collector alone: every cycle comes to its end, and what is left then is exact. */
module GcProgress {
  import opened GcHeap
  import opened GcMarking
  import opened GcInvariant
  import opened GcSweeping
  import opened GcMutator
  import opened GcExact

  /** n steps of the collector, with nothing done by the program. */
  function Collects(n: nat): (es: seq<Event>)
    ensures |es| == n
  {
    if n == 0 then [] else [Collect] + Collects(n - 1)
  }

  function After(s: State, n: nat): State { Run(s, Collects(n)) }

  lemma AfterStep(s: State, n: nat)
    ensures After(s, n + 1) == After(SingleStep(s), n)
  {
    hide SingleStep;
    assert Collects(n + 1)[1..] == Collects(n);
  }

  lemma {:induction false} AfterSum(s: State, n: nat, k: nat)
    ensures After(s, n + k) == After(After(s, n), k)
    decreases n
  {
    hide SingleStep;
    if n > 0 {
      AfterStep(s, n - 1);
      AfterStep(s, n + k - 1);
      AfterSum(SingleStep(s), n - 1, k);
    }
  }

  // ---- The mark phase ends ----

  /** Marking has ended in r: nothing but colours has changed, and the sweep begins. */
  ghost predicate MarkingDone(s: State, r: State) {
    && Inv(r) && r.gcstate == SweepString
    && r.body == s.body && r.roots == s.roots && r.fixed == s.fixed
    && (Within(s.col, ReachSet(s.body, s.roots)) ==> Kept(r) == Survivors(s))
  }

  lemma {:induction false} MarkingEnds(s: State) returns (n: nat)
    requires Inv(s) && s.gcstate == Propagate
    ensures MarkingDone(s, After(s, n))
    decreases Whites(s.col), |s.col.gray|
  {
    hide InvBut, Within, Kept, Survivors, PropagateMark, Atomic, ReachSet;
    var t := SingleStep(s);
    SingleStepInv(s);
    if |s.col.gray| > 0 {
      if Within(s.col, ReachSet(s.body, s.roots)) {
        PropagateExact(s);
      }
      assert Whites(t.col) == Whites(s.col) || Whites(t.col) < Whites(s.col);
      var k := MarkingEnds(t);
      AfterStep(s, k);
      SurvivorsSame(s, t);
      n := k + 1;
    } else {
      if Within(s.col, ReachSet(s.body, s.roots)) {
        AtomicExact(s);
      }
      AtomicSame(s);
      AfterStep(s, 0);
      n := 1;
    }
  }

  lemma AtomicSame(s: State)
    ensures var r := Atomic(s);
            r.gcstate == SweepString && r.body == s.body && r.roots == s.roots && r.fixed == s.fixed
  {
  }

  // ---- The sweep ends ----

  lemma {:induction false} SweepEnds(s: State) returns (n: nat)
    requires Inv(s) && (s.gcstate == SweepString || s.gcstate == Sweep || s.gcstate == Finalize)
    ensures var r := After(s, n); Inv(r) && r.gcstate == Finalize && Sweeps(s, r)
    decreases SweepMeasure(s).0, SweepMeasure(s).1
  {
    hide InvBut, SingleStep, Kept, Values;
    if s.gcstate == Finalize {
      n := 0;
    } else {
      SingleStepInv(s);
      SweepStepSweeps(s);
      SweepStepProgress(s);
      var k := SweepEnds(SingleStep(s));
      AfterStep(s, k);
      SweepsTransitive(s, SingleStep(s), After(SingleStep(s), k));
      n := k + 1;
    }
  }

  /** From the sweep to the pause. */
  lemma SweepThenPause(s: State) returns (n: nat)
    requires Inv(s) && (s.gcstate == SweepString || s.gcstate == Sweep || s.gcstate == Finalize)
    ensures var r := After(s, n); Inv(r) && r.gcstate == Pause && Sweeps(s, r) && r.body.Keys == Kept(s)
  {
    hide InvBut, Kept, Values, SingleStep, After, Sweeps;
    var k := SweepEnds(s);
    var t := After(s, k);
    SweptAll(t);
    SingleStepInv(t);
    AfterSum(s, k, 1);
    AfterOne(t);
    FinalStep(t);
    SweepsTransitive(s, t, After(s, k + 1));
    n := k + 1;
  }

  lemma AfterOne(s: State)
    ensures After(s, 1) == SingleStep(s)
  {
    hide SingleStep;
    AfterStep(s, 0);
  }

  lemma FinalStep(s: State)
    requires s.gcstate == Finalize
    ensures var r := SingleStep(s); r.gcstate == Pause && r.body == s.body && Sweeps(s, r)
  {
  }

  // ---- Cycles ----

  /** r is exactly what the program could reach in s, and what is fixed, and it refers to what it did. */
  ghost predicate Collected(s: State, r: State) {
    && Inv(r) && r.roots == s.roots && r.fixed == s.fixed
    && r.body.Keys == Survivors(s)
    && ReachSet(r.body, r.roots) == ReachSet(s.body, s.roots)
    && forall a :: a in r.body ==> Values(r.body, a) == Values(s.body, a)
  }

  /** From any phase finitely many steps lead to the pause, and the program sees no difference. */
  lemma PauseReached(s: State) returns (n: nat)
    requires Inv(s)
    ensures var r := After(s, n);
            && Inv(r) && r.gcstate == Pause && r.roots == s.roots && r.fixed == s.fixed
            && ReachSet(r.body, r.roots) == ReachSet(s.body, s.roots)
            && forall a :: a in r.body ==> a in s.body && Values(r.body, a) == Values(s.body, a)
  {
    hide InvBut, Kept, Values, Within, Survivors;
    if s.gcstate == Pause {
      n := 0;
    } else if s.gcstate == Propagate {
      var k := MarkingEnds(s);
      var t := After(s, k);
      var m := SweepThenPause(t);
      AfterSum(s, k, m);
      ReachKept(t, After(t, m));
      n := k + m;
    } else {
      n := SweepThenPause(s);
      ReachKept(s, After(s, n));
    }
  }

  lemma ReachKept(s: State, r: State)
    requires Inv(s) && Inv(r) && Sweeps(s, r)
    ensures ReachSet(r.body, r.roots) == ReachSet(s.body, s.roots)
  {
    hide ChainsOK, RootsOK, PhaseOK, BlackKinds, Solid, ReachSet;
    SweepsReach(s, r);
  }

  /** The collector leaves the pause, and comes back to it after a whole cycle with an exact heap. */
  lemma CycleCompletes(s: State) returns (n: nat)
    requires Inv(s) && s.gcstate == Pause
    ensures n > 0 && After(s, n).gcstate == Pause && Collected(s, After(s, n))
  {
    hide InvBut, Kept, Values, Within, Survivors, MarkRootSet;
    var t := SingleStep(s);
    assert t == MarkRoot(s) && t.gcstate == Propagate;
    PauseFresh(s);
    MarkRootExact(s);
    SingleStepInv(s);
    var k := MarkingEnds(t);
    var u := After(t, k);
    SurvivorsSame(s, t);
    var m := SweepThenPause(u);
    AfterSum(t, k, m);
    AfterStep(s, k + m);
    ReachKept(u, After(u, m));
    n := k + m + 1;
  }

  lemma PauseFresh(s: State)
    requires Inv(s) && s.gcstate == Pause
    ensures AllFresh(s.col, s.currentwhite)
  {
  }

  /** From every state, finitely many steps free all that the program cannot reach, and only that. */
  lemma GarbageGoes(s: State)
    requires Inv(s)
    ensures exists n: nat :: After(s, n).gcstate == Pause && Collected(s, After(s, n))
  {
    hide InvBut, Values, Within;
    var k := PauseReached(s);
    var t := After(s, k);
    var m := CycleCompletes(t);
    AfterSum(s, k, m);
    assert Survivors(t) == Survivors(s) by {
      SurvivorsKept(s, t);
    }
    assert Collected(s, After(s, k + m));
  }

  lemma SurvivorsKept(s: State, t: State)
    requires Inv(s) && Inv(t) && t.fixed == s.fixed && ReachSet(t.body, t.roots) == ReachSet(s.body, s.roots)
    ensures Survivors(t) == Survivors(s)
  {
    hide ChainsOK, PhaseOK, BlackKinds, ReachSet, Solid;
    ReachSetInHeap(s);
    ReachSetInHeap(t);
    forall o ensures o in Survivors(s) <==> o in Survivors(t) {
    }
  }
}
