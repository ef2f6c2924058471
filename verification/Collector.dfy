/**
 The collector as lgc.c runs it: one object holding global_State, whose methods update its fields in
 place.  Each method is tied to the step of GcHeap it performs; a full collection is proved exact.
 */
module Collector {
  import opened Base
  import opened GcHeap
  import opened GcMarking
  import opened GcInvariant
  import opened GcClosing
  import opened GcSweeping
  import opened GcSafety
  import opened GcExact

  lemma FirstIsOpen(s: State, t: Ref)
    requires UpvalChainsOK(s.body, s.lists.openupval, s.lists.uvhead) && t in s.lists.openupval
    ensures |s.lists.openupval[t]| > 0 ==>
              s.lists.openupval[t][0] in s.body && s.body[s.lists.openupval[t][0]].Open?
  {
    if |s.lists.openupval[t]| > 0 {
      assert s.lists.openupval[t][0] in s.lists.openupval[t];
    }
  }

  lemma CloseFirstChains(s: State, t: Ref)
    requires UpvalChainsOK(s.body, s.lists.openupval, s.lists.uvhead)
    requires t in s.lists.openupval && |s.lists.openupval[t]| > 0
    ensures var r := CloseFirst(s, t);
            && UpvalChainsOK(r.body, r.lists.openupval, r.lists.uvhead)
            && r.lists.openupval == s.lists.openupval[t := s.lists.openupval[t][1..]]
  {
    var uv, v := FirstUpval(s, t);
    UnchainUpvals(s.body, CloseFirst(s, t).body, s.lists, t);
  }

  lemma ThreadLists(s: State)
    requires UpvalChainsOK(s.body, s.lists.openupval, s.lists.uvhead)
    ensures forall t :: t in s.body && s.body[t].Thread? ==> t in s.lists.openupval
  {
  }

  class GlobalState {
    var body: map<Ref, Body>
    var mark: map<Ref, Colour>
    var gray: seq<Ref>
    var grayagain: seq<Ref>
    var rootgc: seq<Ref>
    var sweepgc: nat
    var strt: seq<seq<Ref>>
    var sweepstrgc: nat
    var openupval: map<Ref, seq<Ref>>
    var uvhead: seq<Ref>
    var roots: Roots
    var fixed: set<Ref>
    var currentwhite: bool
    var gcstate: Phase

    function Col(): Colours
      reads this
    {
      Colours(mark, gray, grayagain)
    }

    function Lists(): Chains
      reads this
    {
      Chains(rootgc, sweepgc, strt, sweepstrgc, openupval, uvhead)
    }

    function View(): State
      reads this
    {
      State(body, Col(), Lists(), roots, fixed, currentwhite, gcstate)
    }

    constructor (mainthread: Ref, globals: Ref, registry: Ref, buckets: nat, tags: nat)
      requires mainthread != globals && mainthread != registry && globals != registry && buckets > 0
      ensures View() == Initial(mainthread, globals, registry, buckets, tags) && Inv(View())
    {
      var s := Initial(mainthread, globals, registry, buckets, tags);
      body := s.body;
      mark, gray, grayagain := s.col.mark, [], [];
      rootgc, sweepgc := s.lists.rootgc, 0;
      strt, sweepstrgc := s.lists.strt, 0;
      openupval, uvhead := s.lists.openupval, [];
      roots, fixed, currentwhite, gcstate := s.roots, s.fixed, false, Pause;
      new;
      InitialInv(mainthread, globals, registry, buckets, tags);
      hide Inv;
    }

    // ---- Marking ----

    /** markobject. */
    method Mark(o: Ref)
      modifies this
      ensures View() == old(View()).(col := MarkObject(old(body), old(Col()), o))
      decreases Whites(Col()), 1
    {
      if o in body && o in mark && mark[o].White? {
        ReallyMarkObject(o);
      }
    }

    /** reallymarkobject. */
    method ReallyMarkObject(o: Ref)
      requires o in body && IsWhite(Col(), o)
      modifies this
      ensures View() == old(View()).(col := MarkObject(old(body), old(Col()), o))
      decreases Whites(Col()), 0
    {
      ghost var w := Whites(Col());
      mark := mark[o := Gray];
      assert o in w && o !in Whites(Col());
      match body[o] {
        case Str(_) =>
        case Udata(slots) =>
          mark := mark[o := Black];
          assert Whites(Col()) < w;
          MarkSlots(slots);
        case Closed(v) =>
          MarkSlots([v]);
          mark := mark[o := Black];
        case Open(_, _) =>
          MarkSlots(Values(body, o));
        case Table(_) => gray := [o] + gray;
        case Func(_) => gray := [o] + gray;
        case Proto(_) => gray := [o] + gray;
        case Thread(_) => gray := [o] + gray;
      }
    }

    /** The traversal loops: mark what each slot holds. */
    method MarkSlots(vs: seq<Value>)
      modifies this
      ensures View() == old(View()).(col := MarkValues(old(body), old(Col()), vs))
      decreases Whites(Col()), |vs| + 1
    {
      var i := 0;
      while i < |vs|
        invariant i <= |vs|
        invariant View() == old(View()).(col := Col())
        invariant Whites(Col()) <= old(Whites(Col()))
        invariant MarkValues(body, Col(), vs[i..]) == MarkValues(old(body), old(Col()), vs)
      {
        assert vs[i..][0] == vs[i] && vs[i..][1..] == vs[i + 1..];
        assert Whites(Col()) == old(Whites(Col())) || Whites(Col()) < old(Whites(Col()));
        if vs[i].Some? {
          Mark(vs[i].value);
        }
        i := i + 1;
      }
    }

    /** propagatemark. */
    method PropagateMarkStep()
      requires |gray| > 0 && gray[0] in body
      modifies this
      ensures View() == old(View()).(col := PropagateMark(old(body), old(Col())))
    {
      var o := gray[0];
      gray := gray[1..];
      if body[o].Thread? {
        grayagain := [o] + grayagain;
      } else {
        mark := mark[o := Black];
      }
      MarkSlots(Values(body, o));
    }

    /** propagateall. */
    method PropagateAllSteps()
      requires TriColour(body, Col(), {})
      modifies this
      ensures View() == old(View()).(col := PropagateAll(old(body), old(Col())))
    {
      while |gray| > 0
        invariant TriColour(body, Col(), {})
        invariant View() == old(View()).(col := Col())
        invariant PropagateAll(body, Col()) == PropagateAll(old(body), old(Col()))
        decreases Whites(Col()), |gray|
      {
        ghost var w := Whites(Col());
        PropagateMarkTriColour(body, Col());
        assert gray[0] in gray;
        PropagateMarkStep();
        assert Whites(Col()) == w || Whites(Col()) < w;
      }
    }

    /** remarkupvals: around the ring of open upvalues. */
    method RemarkOpenUpvals()
      modifies this
      ensures View() == old(View()).(col := RemarkUpvals(old(body), old(Col()), old(uvhead)))
    {
      var i := 0;
      while i < |uvhead|
        invariant i <= |uvhead|
        invariant View() == old(View()).(col := Col())
        invariant RemarkUpvals(body, Col(), uvhead[i..]) == RemarkUpvals(old(body), old(Col()), old(uvhead))
      {
        var uv := uvhead[i];
        assert uvhead[i..][0] == uv && uvhead[i..][1..] == uvhead[i + 1..];
        if uv in mark && mark[uv].Gray? {
          MarkSlots(Values(body, uv));
        }
        i := i + 1;
      }
    }

    /** markroot. */
    method MarkRoots()
      modifies this
      ensures View() == MarkRoot(old(View()))
    {
      gray, grayagain := [], [];
      Mark(roots.mainthread);
      MarkSlots(GlobalTable(body, roots.mainthread));
      Mark(roots.registry);
      MarkSlots(roots.mt);
      gcstate := Propagate;
    }

    /** atomic. */
    method AtomicStep()
      requires TriColour(body, Col(), {}) && forall x :: x in body && body[x].Open? ==> x in uvhead
      modifies this
      ensures View() == Atomic(old(View()))
    {
      hide TriColour, MarkObject, MarkValues, RemarkUpvals, PropagateAll, Coloured, BlackKinds, GrayLists, Listed,
           Whites, Values;
      AtomicStages(body, Col(), roots, uvhead);
      RemarkOpenUpvals();
      PropagateAllSteps();
      Mark(roots.running);
      MarkSlots(roots.mt);
      PropagateAllSteps();
      gray, grayagain := grayagain, [];
      PropagateAllSteps();
      currentwhite := !currentwhite;
      sweepstrgc, sweepgc := 0, 0;
      gcstate := SweepString;
    }

    // ---- Sweeping ----

    /** One turn of sweeplist: keep the object, white again, or free it. */
    method SweepOne(o: Ref) returns (kept: bool)
      requires Coloured(body, Col()) && o in body
      modifies this
      ensures Coloured(body, Col()) && body.Keys == if kept then old(body.Keys) else old(body.Keys) - {o}
      ensures kept == Survives(old(View()), o) && View() == if kept then Whiten(old(View()), o)
        else FreeLeaf(old(View()), o)
    {
      if mark[o] != White(!currentwhite) || o in fixed {
        mark := mark[o := White(currentwhite)];
        return true;
      }
      if body[o].Open? {
        uvhead := Without(uvhead, o);
      }
      body, mark := body - {o}, mark - {o};
      return false;
    }

    /** sweeplist over a whole chain of strings or open upvalues; `kept` is what is left of the chain. */
    method SweepWholeList(chain: seq<Ref>) returns (kept: seq<Ref>)
      requires Coloured(body, Col()) && NoDup(chain) && forall o :: o in chain ==> o in body
      modifies this
      ensures (View(), kept) == SweepChain(old(View()), chain)
      ensures Coloured(body, Col())
    {
      hide Coloured, Survives, Whiten, FreeLeaf;
      kept := [];
      var i := 0;
      assert chain[0..] == chain && kept + SweepChain(View(), chain).1 == SweepChain(View(), chain).1;
      while i < |chain|
        invariant i <= |chain|
        invariant Coloured(body, Col()) && forall j :: i <= j < |chain| ==> chain[j] in body
        invariant (SweepChain(View(), chain[i..]).0, kept + SweepChain(View(), chain[i..]).1) ==
                  SweepChain(old(View()), chain)
      {
        var o := chain[i];
        ghost var rest := SweepChain(View(), chain[i..]).1;
        assert chain[i..][0] == o && chain[i..][1..] == chain[i + 1..];
        var keep := SweepOne(o);
        if keep {
          assert kept + rest == kept + [o] + rest[1..];
          kept := kept + [o];
        }
        i := i + 1;
      }
      assert chain[i..] == [] && kept + [] == kept;
    }

    /** GCSsweepstring: sweep one bucket of the string table. */
    method SweepStringStep()
      requires Inv(View()) && gcstate == SweepString
      modifies this
      ensures View() == SweepBucket(old(View()))
    {
      hide Inv, SweepChain, Coloured;
      BucketFacts(View());
      var kept := SweepWholeList(strt[sweepstrgc]);
      strt := strt[sweepstrgc := kept];
      sweepstrgc := sweepstrgc + 1;
    }

    /** luaC_link, luaC_linkupval: chain o at the head of `rootgc`. */
    method LinkHead(o: Ref)
      modifies this
      ensures View() == old(View()).(lists := Link(old(Lists()), o, 0))
    {
      rootgc := [o] + rootgc;
      if sweepgc > 0 {
        sweepgc := sweepgc + 1;
      }
      assert rootgc == old(rootgc)[..0] + [o] + old(rootgc)[0..];
    }

    /** luaC_barrier and luaC_barrierf. */
    method BarrierF(o: Ref, v: Value)
      modifies this
      ensures View() == BarrierForward(old(View()), o, v)
    {
      if v.Some? && v.value in mark && mark[v.value].White? && o in mark && mark[o].Black? {
        if gcstate == Propagate {
          Mark(v.value);
        } else {
          mark := mark[o := White(currentwhite)];  // no further barrier will fire for o
        }
      }
    }

    /** luaC_barriert and luaC_barrierback. */
    method BarrierB(t: Ref, v: Value)
      modifies this
      ensures View() == BarrierBack(old(View()), t, v)
    {
      if v.Some? && v.value in mark && mark[v.value].White? && t in mark && mark[t].Black? {
        mark := mark[t := Gray];
        grayagain := [t] + grayagain;
      }
    }

    /** luaC_linkupval. */
    method LinkUpvalue(uv: Ref, v: Value)
      modifies this
      ensures View() == LinkUpval(old(View()), uv, v)
    {
      LinkHead(uv);
      if uv in mark && mark[uv].Gray? {
        if gcstate == Propagate {
          mark := mark[uv := Black];  // from now on it must not refer to a white object
          BarrierF(uv, v);
        } else {
          mark := mark[uv := White(currentwhite)];
        }
      }
    }

    /** One turn of luaF_close. */
    method CloseOne(t: Ref)
      requires UpvalChainsOK(body, openupval, uvhead) && t in openupval && |openupval[t]| > 0
      modifies this
      ensures View() == CloseFirst(old(View()), t)
      ensures UpvalChainsOK(body, openupval, uvhead)
      ensures openupval == old(openupval)[t := old(openupval[t])[1..]]
    {
      hide UpvalChainsOK, BarrierForward;
      ghost var uv0, v0 := FirstUpval(View(), t);
      var uv := openupval[t][0];
      var v := Values(body, uv)[0];
      CloseFirstChains(View(), t);
      openupval := openupval[t := openupval[t][1..]];
      uvhead := Without(uvhead, uv);
      if uv in mark && mark[uv] == White(!currentwhite) {
        body, mark := body - {uv}, mark - {uv};
      } else {
        body := body[uv := Closed(v)];
        LinkUpvalue(uv, v);
      }
    }

    /** luaF_close. */
    method CloseUpvals(t: Ref, level: nat)
      requires UpvalChainsOK(body, openupval, uvhead) && t in openupval
      modifies this
      ensures View() == Close(old(View()), t, level)
    {
      hide UpvalChainsOK, CloseFirst;
      FirstIsOpen(View(), t);
      while |openupval[t]| > 0 && body[openupval[t][0]].index >= level
        invariant UpvalChainsOK(body, openupval, uvhead) && t in openupval
        invariant |openupval[t]| > 0 ==> openupval[t][0] in body && body[openupval[t][0]].Open?
        invariant Close(View(), t, level) == Close(old(View()), t, level)
        decreases |openupval[t]|
      {
        CloseOne(t);
        FirstIsOpen(View(), t);
      }
    }

    /** sweeplist over `rootgc`, for at most `count` objects. */
    method SweepList(count: nat)
      requires Inv(View()) && gcstate == Sweep
      modifies this
      ensures View() == SweepRoots(old(View()), count)
    {
      hide Inv, SweepRoot;
      var n := count;
      while n > 0 && sweepgc < |rootgc|
        invariant Inv(View()) && gcstate == Sweep
        invariant SweepRoots(View(), n) == SweepRoots(old(View()), count)
        decreases n
      {
        SweepRootInv(View());
        SweepObject();
        n := n - 1;
      }
    }

    /** One turn of sweeplist over `rootgc`. */
    method SweepObject()
      requires Inv(View()) && gcstate == Sweep && sweepgc < |rootgc|
      modifies this
      ensures View() == SweepRoot(old(View()))
    {
      hide StringChainsOK, RootChainOK, UpvalChainsOK, Solid, PhaseOK, RootsOK, BlackKinds, SweepChain, SweepHere;
      var o := rootgc[sweepgc];
      UnderPointer(View());
      if body[o].Thread? {
        SweepOpenChains(View(), o);
        OpenMembers(View(), o);
        var kept := SweepWholeList(openupval[o]);
        openupval := openupval[o := kept];
      }
      SweepUnderPointer();
    }

    /** Keep the object under `sweepgc`, white again, or free it. */
    method SweepUnderPointer()
      requires sweepgc < |rootgc| && rootgc[sweepgc] in body && Coloured(body, Col())
      requires UpvalChainsOK(body, openupval, uvhead)
      modifies this
      ensures View() == SweepHere(old(View()))
    {
      hide UpvalChainsOK, Close;
      ThreadLists(View());
      var o := rootgc[sweepgc];
      if mark[o] != White(!currentwhite) || o in fixed {
        mark := mark[o := White(currentwhite)];
        sweepgc := sweepgc + 1;
      } else {
        rootgc := rootgc[..sweepgc] + rootgc[sweepgc + 1..];
        if body[o].Thread? {
          CloseUpvals(o, 0);
        }
        body, mark := body - {o}, mark - {o};
        openupval := openupval - {o};
      }
    }

    // ---- The string table ----

    /** luaS_resize. */
    method ResizeStrings(newsize: nat)
      requires newsize > 0
      modifies this
      ensures View() == Resized(old(View()), newsize)
    {
      if gcstate == SweepString {
        return;
      }
      var newhash: seq<seq<Ref>> := seq(newsize, _ => []);
      var i := 0;
      assert strt[0..] == strt;
      while i < |strt|
        invariant unchanged(this) && i <= |strt| && |newhash| == newsize
        invariant AllRechained(body, strt[i..], newhash) == AllRechained(body, strt, seq(newsize, _ => []))
      {
        assert strt[i..][0] == strt[i] && strt[i..][1..] == strt[i + 1..];
        newhash := RechainBucket(strt[i], newhash);
        i := i + 1;
      }
      strt := newhash;
    }

    /** The inner loop of luaS_resize: the strings of one bucket, each to the head of its new one. */
    method RechainBucket(chain: seq<Ref>, newhash0: seq<seq<Ref>>) returns (newhash: seq<seq<Ref>>)
      requires |newhash0| > 0
      ensures newhash == Rechained(body, chain, newhash0)
    {
      newhash := newhash0;
      var p := 0;
      assert chain[0..] == chain;
      while p < |chain|
        invariant p <= |chain| && |newhash| == |newhash0|
        invariant Rechained(body, chain[p..], newhash) == Rechained(body, chain, newhash0)
      {
        assert chain[p..][0] == chain[p] && chain[p..][1..] == chain[p + 1..];
        var h := if chain[p] in body && body[chain[p]].Str? then body[chain[p]].hash else 0;
        var h1 := Bucket(h, |newhash|);
        newhash := newhash[h1 := [chain[p]] + newhash[h1]];
        p := p + 1;
      }
    }

    /** checkSizes. */
    method CheckTableSize()
      modifies this
      ensures View() == CheckSizes(old(View()))
    {
      if StringCount(strt) < |strt| / 4 && |strt| > MINSTRTABSIZE * 2 {
        ResizeStrings(|strt| / 2);
      }
    }

    /** singlestep. */
    method SingleStepMethod()
      requires Inv(View())
      modifies this
      ensures View() == SingleStep(old(View())) && Inv(View())
    {
      hide InvBut, MarkRoot, Atomic, SweepBucket, SweepRoots, PropagateMark, CheckSizes;
      SingleStepInv(View());
      match gcstate {
        case Pause => MarkRoots();
        case Propagate =>
          StepReady(View());
          if |gray| > 0 {
            PropagateMarkStep();
          } else {
            AtomicStep();
          }
        case SweepString =>
          StepReady(View());
          SweepStringStep();
          if sweepstrgc >= |strt| {
            gcstate := Sweep;
          }
        case Sweep =>
          SweepList(GCSWEEPMAX);
          if sweepgc >= |rootgc| {
            CheckTableSize();
            gcstate := Finalize;
          }
        case Finalize => gcstate := Pause;
      }
    }

    /** Finish a pending sweep: what the last marking kept stays, the rest goes. */
    method FinishSweep()
      requires Inv(View()) && (gcstate == SweepString || gcstate == Sweep || gcstate == Finalize)
      modifies this
      ensures Inv(View()) && gcstate == Finalize && Sweeps(old(View()), View())
      ensures body.Keys == Kept(old(View()))
    {
      hide Inv, SingleStep;
      while gcstate != Finalize
        invariant Inv(View()) && (gcstate == SweepString || gcstate == Sweep || gcstate == Finalize)
        invariant Sweeps(old(View()), View())
        decreases SweepMeasure(View()).0, SweepMeasure(View()).1
      {
        ghost var s := View();
        SweepStepSweeps(s);
        SweepStepProgress(s);
        SingleStepMethod();
        SweepsTransitive(old(View()), s, View());
      }
      SweptAll(View());
    }

    /** The mark phase of a full collection, up to the atomic step. */
    method FinishMark()
      requires Inv(View()) && gcstate == Propagate && Within(Col(), ReachSet(body, roots))
      modifies this
      ensures Inv(View()) && gcstate == SweepString
      ensures body == old(body) && roots == old(roots) && fixed == old(fixed)
      ensures Kept(View()) == Survivors(old(View()))
    {
      hide Inv, Within, PropagateMark, Kept, Survivors;
      while |gray| > 0
        invariant Inv(View()) && gcstate == Propagate && Within(Col(), ReachSet(body, roots))
        invariant body == old(body) && roots == old(roots) && fixed == old(fixed)
        decreases Whites(Col()), |gray|
      {
        ghost var w := Whites(Col());
        PropagateExact(View());
        SingleStepMethod();
        assert Whites(Col()) == w || Whites(Col()) < w;
      }
      AtomicExact(View());
      SurvivorsSame(old(View()), View());
      SingleStepMethod();
    }

    /** luaC_fullgc drops an unfinished mark phase: the sweep that follows frees nothing. */
    method AbandonMark()
      requires Inv(View())
      modifies this
      ensures Inv(View()) && (gcstate == SweepString || gcstate == Sweep || gcstate == Finalize)
      ensures Sweeps(old(View()), View())
      ensures old(gcstate) == Pause || old(gcstate) == Propagate ==> Kept(View()) == old(body.Keys)
    {
      hide Kept, InvBut;
      if gcstate == Pause || gcstate == Propagate {
        AbandonKeeps(View());
        sweepstrgc, sweepgc := 0, 0;
        gray, grayagain := [], [];
        gcstate := SweepString;
      }
    }

    /**
     luaC_fullgc, from any state of the collector: what is left is exactly what the program could
     reach, and what is fixed; and what it can reach has not changed.
     */
    method FullGc()
      requires Inv(View())
      modifies this
      ensures Inv(View()) && gcstate == Pause && roots == old(roots) && fixed == old(fixed)
      ensures body.Keys == Survivors(old(View()))
      ensures ReachSet(body, roots) == old(ReachSet(body, roots))
      ensures forall a :: a in body ==> Values(body, a) == Values(old(body), a)
    {
      hide Inv, Kept, Within, Survivors;
      ghost var s0 := View();
      AbandonMark();
      ghost var s1 := View();
      FinishSweep();
      SweepsTransitive(s0, s1, View());
      ghost var s2 := View();
      MarkAgain(s0, s2);
      MarkRoots();
      SurvivorsSame(s2, View());
      FinishMark();
      ghost var s4 := View();
      FinishSweep();
      FullExact(s0, s2, s4, View());
      SingleStepMethod();
    }
  }
}
