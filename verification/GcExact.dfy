/** A full collection keeps exactly what is reachable, and what is fixed. */
module GcExact {
  import opened Base
  import opened GcHeap
  import opened GcMarking
  import opened GcInvariant
  import opened GcClosing
  import opened GcSweeping
  import opened GcMutator
  import opened GcSafety

  // ---- Marking does not go further than reachability ----

  ghost predicate EdgeClosed(heap: map<Ref, Body>, all: iset<Ref>) {
    forall a, b :: a in all && Edge(heap, a, b) ==> b in all
  }

  ghost predicate Within(c: Colours, all: iset<Ref>) {
    forall x :: x in c.mark && !IsWhite(c, x) ==> x in all
  }

  lemma {:induction false} MarkObjectWithin(heap: map<Ref, Body>, c: Colours, o: Ref, all: iset<Ref>)
    requires EdgeClosed(heap, all) && Within(c, all) && o in all
    ensures Within(MarkObject(heap, c, o), all)
    decreases Whites(c), 0
  {
    if o in heap && IsWhite(c, o) {
      var c1 := SetMark(c, o, Gray);
      assert o in Whites(c) && o !in Whites(c1);
      assert forall b :: Some(b) in Values(heap, o) ==> Edge(heap, o, b);
      match heap[o]
      case Udata(slots) => MarkValuesWithin(heap, SetMark(c1, o, Black), slots, all);
      case Closed(v) => MarkValuesWithin(heap, c1, [v], all);
      case Open(_, _) => MarkValuesWithin(heap, c1, Values(heap, o), all);
      case _ =>
    }
  }

  lemma {:induction false} MarkValuesWithin(heap: map<Ref, Body>, c: Colours, vs: seq<Value>, all: iset<Ref>)
    requires EdgeClosed(heap, all) && Within(c, all) && forall b :: Some(b) in vs ==> b in all
    ensures Within(MarkValues(heap, c, vs), all)
    decreases Whites(c), |vs| + 1
  {
    if |vs| > 0 {
      var c1 := if vs[0].Some? then MarkObject(heap, c, vs[0].value) else c;
      assert Whites(c1) == Whites(c) || Whites(c1) < Whites(c);
      if vs[0].Some? {
        assert Some(vs[0].value) in vs;
        MarkObjectWithin(heap, c, vs[0].value, all);
      }
      MarkValuesWithin(heap, c1, vs[1..], all);
    }
  }

  lemma PropagateMarkWithin(heap: map<Ref, Body>, c: Colours, all: iset<Ref>)
    requires TriColour(heap, c, {}) && EdgeClosed(heap, all) && Within(c, all) && |c.gray| > 0
    ensures Within(PropagateMark(heap, c), all)
  {
    var o := c.gray[0];
    assert o in c.gray && o in all;
    assert forall b :: Some(b) in Values(heap, o) ==> Edge(heap, o, b);
    MarkValuesWithin(heap, TakeGray(heap, c), Values(heap, o), all);
  }

  lemma {:induction false} PropagateAllWithin(heap: map<Ref, Body>, c: Colours, all: iset<Ref>)
    requires TriColour(heap, c, {}) && EdgeClosed(heap, all) && Within(c, all)
    ensures Within(PropagateAll(heap, c), all)
    decreases Whites(c), |c.gray|
  {
    if |c.gray| > 0 {
      var c1 := PropagateMark(heap, c);
      assert Whites(c1) == Whites(c) || Whites(c1) < Whites(c);
      PropagateMarkTriColour(heap, c);
      PropagateMarkWithin(heap, c, all);
      PropagateAllWithin(heap, c1, all);
    }
  }

  lemma {:induction false} RemarkUpvalsWithin(heap: map<Ref, Body>, c: Colours, uvs: seq<Ref>, all: iset<Ref>)
    requires EdgeClosed(heap, all) && Within(c, all)
    ensures Within(RemarkUpvals(heap, c, uvs), all)
    decreases |uvs|
  {
    if |uvs| > 0 {
      if IsGray(c, uvs[0]) {
        assert forall b :: Some(b) in Values(heap, uvs[0]) ==> Edge(heap, uvs[0], b);
        MarkValuesWithin(heap, c, Values(heap, uvs[0]), all);
      }
      RemarkUpvalsWithin(heap, if IsGray(c, uvs[0]) then MarkValues(heap, c, Values(heap, uvs[0]))
                         else c, uvs[1..], all);
    }
  }

  lemma AtomicMarkWithin(heap: map<Ref, Body>, c: Colours, g: Roots, uvs: seq<Ref>, all: iset<Ref>)
    requires TriColour(heap, c, {}) && forall x :: x in heap && heap[x].Open? ==> x in uvs
    requires EdgeClosed(heap, all) && Within(c, all) && forall o :: Root(g, o) ==> o in all
    ensures Within(AtomicMark(heap, c, g, uvs), all)
  {
    RemarkUpvalsMarking(heap, c, uvs);
    RemarkUpvalsWithin(heap, c, uvs, all);
    var c0 := RemarkUpvals(heap, c, uvs);
    PropagateAllMarking(heap, c0, true, false);
    PropagateAllWithin(heap, c0, all);
    var c1 := PropagateAll(heap, c0);
    MarkObjectMarking(heap, c1, g.running, true, false);
    assert Root(g, g.running);
    MarkObjectWithin(heap, c1, g.running, all);
    var c2 := MarkObject(heap, c1, g.running);
    MarkValuesMarking(heap, c2, g.mt, true, false);
    assert forall b :: Some(b) in g.mt ==> Root(g, b);
    MarkValuesWithin(heap, c2, g.mt, all);
    var m2 := MarkValues(heap, c2, g.mt);
    PropagateAllMarking(heap, m2, true, false);
    PropagateAllWithin(heap, m2, all);
    var c3 := PropagateAll(heap, m2);
    RevisitGrayAgain(heap, c3);
    PropagateAllWithin(heap, c3.(gray := c3.grayagain, grayagain := []), all);
  }

  lemma MarkRootSetWithin(heap: map<Ref, Body>, c: Colours, g: Roots, all: iset<Ref>)
    requires forall x :: x in c.mark ==> IsWhite(c, x)
    requires EdgeClosed(heap, all) && forall o :: Root(g, o) ==> o in all
    ensures Within(MarkRootSet(heap, c, g), all)
  {
    var c0 := c.(gray := [], grayagain := []);
    assert Root(g, g.mainthread) && Root(g, g.registry);
    MarkObjectWithin(heap, c0, g.mainthread, all);
    var c1 := MarkObject(heap, c0, g.mainthread);
    assert forall b :: Some(b) in GlobalTable(heap, g.mainthread) ==> Edge(heap, g.mainthread, b);
    MarkValuesWithin(heap, c1, GlobalTable(heap, g.mainthread), all);
    var c2 := MarkValues(heap, c1, GlobalTable(heap, g.mainthread));
    MarkObjectWithin(heap, c2, g.registry, all);
    assert forall b :: Some(b) in g.mt ==> Root(g, b);
    MarkValuesWithin(heap, MarkObject(heap, c2, g.registry), g.mt, all);
  }

  // ---- Reachability as a set ----

  ghost function ReachSet(heap: map<Ref, Body>, g: Roots): iset<Ref> {
    iset o: Ref | Reachable(heap, g, o)
  }

  lemma ReachSetClosed(heap: map<Ref, Body>, g: Roots)
    ensures EdgeClosed(heap, ReachSet(heap, g)) && forall o :: Root(g, o) ==> o in ReachSet(heap, g)
  {
    forall a: Ref, b: Ref | a in ReachSet(heap, g) && Edge(heap, a, b) ensures b in ReachSet(heap, g) {
      var p :| Path(heap, g, p) && p[|p| - 1] == a;
      assert Path(heap, g, p + [b]);
      assert (p + [b])[|p + [b]| - 1] == b;
    }
    forall o: Ref | Root(g, o) ensures o in ReachSet(heap, g) {
      assert Path(heap, g, [o]) && [o][|[o]| - 1] == o;
    }
  }

  lemma {:induction false} PathWithin(heap: map<Ref, Body>, g: Roots, p: seq<Ref>, all: iset<Ref>)
    requires Path(heap, g, p) && EdgeClosed(heap, all) && forall o :: Root(g, o) ==> o in all
    ensures p[|p| - 1] in all
    decreases |p|
  {
    if |p| > 1 {
      var q := p[..|p| - 1];
      assert Path(heap, g, q);
      PathWithin(heap, g, q, all);
      assert Edge(heap, q[|q| - 1], p[|p| - 1]);
    }
  }

  /** Reachability is the least set that holds the roots and follows every reference. */
  lemma ReachSetLeast(heap: map<Ref, Body>, g: Roots, all: iset<Ref>)
    requires EdgeClosed(heap, all) && forall o :: Root(g, o) ==> o in all
    ensures ReachSet(heap, g) <= all
  {
    forall o | o in ReachSet(heap, g) ensures o in all {
      var p :| Path(heap, g, p) && p[|p| - 1] == o;
      PathWithin(heap, g, p, all);
    }
  }

  // ---- The sweep frees exactly what is dead ----

  /** What the sweep will leave. */
  ghost function Kept(s: State): set<Ref> { set o | o in s.body && !Freed(s, o) }

  /** One or more steps of the sweep: the same objects are to be kept, and they refer to the same objects. */
  ghost predicate Sweeps(s: State, r: State) {
    && r.roots == s.roots && r.fixed == s.fixed && r.currentwhite == s.currentwhite
    && Kept(r) == Kept(s)
    && (forall a :: a in r.body ==> a in s.body && Values(r.body, a) == Values(s.body, a))
  }

  lemma SweepsTransitive(s: State, t: State, r: State)
    requires Sweeps(s, t) && Sweeps(t, r)
    ensures Sweeps(s, r)
  {
  }

  lemma SweptOutSweeps(s: State, r: State, l: set<Ref>)
    requires SweptOut(s, r, l) && s.col.mark.Keys == s.body.Keys
    requires forall o :: o in l && o in s.body ==> !s.body[o].Thread?
    ensures Sweeps(s, r)
  {
    forall o ensures o in Kept(r) <==> o in Kept(s) {
    }
    forall a | a in r.body ensures Values(r.body, a) == Values(s.body, a) {
    }
  }

  lemma CloseFirstSweeps(s: State, t: Ref)
    requires Coloured(s.body, s.col) && UpvalChainsOK(s.body, s.lists.openupval, s.lists.uvhead)
    requires forall o :: o in s.fixed && o in s.body ==> !s.body[o].Open?
    requires s.gcstate == Sweep && t in s.lists.openupval && |s.lists.openupval[t]| > 0
    ensures Sweeps(s, CloseFirst(s, t))
  {
    var uv, v := FirstUpval(s, t);
    var r := CloseFirst(s, t);
    CloseValues(s.body, uv, v);
    LinkUpvalResult(s.(lists := Unchain(s.lists, t), body := s.body[uv := Closed(v)]), uv, v);
    forall o ensures o in Kept(r) <==> o in Kept(s) {
    }
    forall a | a in r.body ensures Values(r.body, a) == Values(s.body, a) {
    }
  }

  lemma {:induction false} CloseSweeps(s: State, t: Ref, gone: set<Ref>)
    requires InvBut(s, gone) && s.gcstate == Sweep && t in s.lists.openupval
    requires forall x :: x in gone && x in s.body ==> s.body[x].Thread?
    ensures Sweeps(s, Close(s, t, 0))
    decreases OpenCount(s, t)
  {
    if OpenCount(s, t) > 0 {
      CloseFirstSweeps(s, t);
      hide RootChainOK, StringChainsOK, UpvalChainsOK, RootsOK, Solid, PhaseOK, BlackKinds, CloseFirst, Sweeps;
      CloseStep(s, t, gone);
      CloseSweeps(CloseFirst(s, t), t, gone);
      SweepsTransitive(s, CloseFirst(s, t), Close(s, t, 0));
    }
  }

  lemma FreeRootSweeps(s: State, o: Ref)
    requires InvBut(s, {o}) && s.gcstate == Sweep && o in s.body && s.body[o].InRootList()
    requires Dead(s.col, s.currentwhite, o) && o !in s.fixed
    requires o in s.lists.openupval ==> |s.lists.openupval[o]| == 0
    ensures Sweeps(s, FreeRoot(s, o))
  {
    hide StringChainsOK, RootChainOK, Solid, PhaseOK, UpvalChainsOK, RootsOK, BlackKinds;
    FreeRootChains(s.body, s.lists, o);
    var r := FreeRoot(s, o);
    forall x ensures x in Kept(r) <==> x in Kept(s) {
    }
  }

  lemma FreeThreadSweeps(s: State, o: Ref)
    requires InvBut(s, {o}) && s.gcstate == Sweep && o in s.body && s.body[o].Thread?
    requires Dead(s.col, s.currentwhite, o) && o !in s.fixed
    ensures Sweeps(s, FreeRoot(Close(s, o, 0), o))
  {
    assert o in s.lists.openupval;
    hide InvBut, Close, RootChainOK, UpvalChainsOK, StringChainsOK, Solid;
    CloseInv(s, o, 0, {o});
    CloseSweeps(s, o, {o});
    FreeRootSweeps(Close(s, o, 0), o);
    SweepsTransitive(s, Close(s, o, 0), FreeRoot(Close(s, o, 0), o));
  }

  lemma CutAndFreeSweeps(s: State, o: Ref)
    requires Inv(s) && s.gcstate == Sweep && s.lists.sweepgc < |s.lists.rootgc| && o == s.lists.rootgc[s.lists.sweepgc]
    requires !Survives(s, o)
    ensures Sweeps(s, SweepHere(s))
  {
    hide Inv, InvBut, Close, RootChainOK, UpvalChainsOK, StringChainsOK, Solid, FreeRoot;
    UnderPointer(s);
    CutRootInv(s, o);
    var s1 := s.(lists := Cut(s.lists));
    if s.body[o].Thread? {
      FreeThreadSweeps(s1, o);
    } else {
      FreeRootSweeps(s1, o);
    }
    assert Kept(s1) == Kept(s);
    SweepsTransitive(s, s1, SweepHere(s));
  }

  lemma SweepHereSweeps(s: State)
    requires Inv(s) && s.gcstate == Sweep && s.lists.sweepgc < |s.lists.rootgc|
    ensures Sweeps(s, SweepHere(s))
  {
    hide RootChainOK, UpvalChainsOK, StringChainsOK, Solid, PhaseOK, Close;
    var o := s.lists.rootgc[s.lists.sweepgc];
    if Survives(s, o) {
      assert Kept(SweepHere(s)) == Kept(s);
    } else {
      CutAndFreeSweeps(s, o);
    }
  }

  lemma SweepRootSweeps(s: State)
    requires Inv(s) && s.gcstate == Sweep && s.lists.sweepgc < |s.lists.rootgc|
    ensures Sweeps(s, SweepRoot(s))
  {
    var o := s.lists.rootgc[s.lists.sweepgc];
    assert o in s.lists.rootgc;
    assert s.body[o].Thread? ==> o in s.lists.openupval;
    if s.body[o].Thread? {
      UpvalsOf(s.body, s.lists.openupval, s.lists.uvhead, o);
      hide RootChainOK, UpvalChainsOK, StringChainsOK, Solid, SweepHere, SweepOpenUpvals, PhaseOK;
      SweepOpenInv(s, o);
      SweptOutSweeps(s, SweepOpenUpvals(s, o), Elems(s.lists.openupval[o]));
      hide Inv, InvBut;
      SweepHereSweeps(SweepOpenUpvals(s, o));
      SweepsTransitive(s, SweepOpenUpvals(s, o), SweepRoot(s));
    } else {
      hide RootChainOK, UpvalChainsOK, StringChainsOK, Solid, SweepHere;
      SweepHereSweeps(s);
    }
  }

  lemma {:induction false} SweepRootsSweeps(s: State, count: nat)
    requires Inv(s) && s.gcstate == Sweep
    ensures Sweeps(s, SweepRoots(s, count))
    decreases count
  {
    hide Inv, SweepRoot;
    if count > 0 && s.lists.sweepgc < |s.lists.rootgc| {
      SweepRootInv(s);
      SweepRootSweeps(s);
      SweepRootsSweeps(SweepRoot(s), count - 1);
      SweepsTransitive(s, SweepRoot(s), SweepRoots(s, count));
    }
  }

  lemma SweepBucketSweeps(s: State)
    requires Inv(s) && s.gcstate == SweepString
    ensures Sweeps(s, SweepBucket(s))
  {
    hide UpvalChainsOK, Solid, PhaseOK, RootsOK, BlackKinds, SweepBucket;
    assert s.lists.sweepstrgc < |s.lists.strt| by { BucketLeft(s); }
    SweepBucketChains(s);
    SweptOutSweeps(s, SweepBucket(s), Elems(s.lists.strt[s.lists.sweepstrgc]));
  }

  lemma BucketLeft(s: State)
    requires PhaseOK(s) && s.gcstate == SweepString
    ensures s.lists.sweepstrgc < |s.lists.strt|
  {
  }

  /** A step of either sweep phase. */
  lemma SweepStepSweeps(s: State)
    requires Inv(s) && (s.gcstate == SweepString || s.gcstate == Sweep)
    ensures Sweeps(s, SingleStep(s))
  {
    hide Inv, SweepRoots, SweepBucket;
    if s.gcstate == SweepString {
      SweepBucketSweeps(s);
    } else {
      SweepRootsSweeps(s, GCSWEEPMAX);
    }
  }

  // ---- A full collection ----

  lemma SweepsSide(h1: map<Ref, Body>, h2: map<Ref, Body>, g: Roots)
    requires forall o :: Reachable(h1, g, o) ==> o in h1 && o in h2
    requires forall a :: a in h1 && a in h2 ==> Values(h2, a) == Values(h1, a)
    ensures ReachSet(h2, g) <= ReachSet(h1, g)
  {
    ReachSetClosed(h1, g);
    forall a: Ref, b: Ref | a in ReachSet(h1, g) && Edge(h2, a, b) ensures b in ReachSet(h1, g) {
      assert Edge(h1, a, b);
    }
    ReachSetLeast(h2, g, ReachSet(h1, g));
  }

  /** The sweep does not change what is reachable. */
  lemma SweepsReach(s: State, r: State)
    requires Coloured(s.body, s.col) && Solid(s.body, s.col, s.currentwhite, s.roots)
    requires Solid(r.body, r.col, r.currentwhite, r.roots) && Sweeps(s, r)
    ensures ReachSet(r.body, r.roots) == ReachSet(s.body, s.roots)
  {
    forall o | Reachable(s.body, s.roots, o) ensures o in s.body && o in r.body {
      ReachableSolid(s.body, s.col, s.currentwhite, s.roots, o);
      assert o in Kept(s);
    }
    SweepsSide(s.body, r.body, s.roots);
    forall o | Reachable(r.body, s.roots, o) ensures o in r.body && o in s.body {
      ReachableSolid(r.body, r.col, r.currentwhite, r.roots, o);
    }
    SweepsSide(r.body, s.body, s.roots);
  }

  /** What a full collection has to leave. */
  ghost function Survivors(s: State): set<Ref> {
    set o | o in s.body && (o in ReachSet(s.body, s.roots) || o in s.fixed)
  }

  lemma ReachSetInHeap(s: State)
    requires Inv(s)
    ensures forall o :: o in ReachSet(s.body, s.roots) ==> o in s.body
  {
    forall o | o in ReachSet(s.body, s.roots) ensures o in s.body {
      ReachableSolid(s.body, s.col, s.currentwhite, s.roots, o);
    }
  }

  /** When marking is over, what is not marked is exactly what is not reachable. */
  lemma AtomicMarkExact(heap: map<Ref, Body>, c: Colours, g: Roots, uvs: seq<Ref>)
    requires TriColour(heap, c, {}) && |c.gray| == 0 && !IsWhite(c, g.mainthread) && !IsWhite(c, g.registry)
    requires forall x :: x in heap && heap[x].Open? ==> x in uvs
    requires Within(c, ReachSet(heap, g)) && forall o :: o in ReachSet(heap, g) ==> o in heap
    ensures var r := AtomicMark(heap, c, g, uvs);
            && Darkens(c, r)
            && forall x :: x in heap ==> (IsWhite(r, x) <==> x !in ReachSet(heap, g))
  {
    ReachSetClosed(heap, g);
    AtomicMarkCompletes(heap, c, g, uvs);
    AtomicMarkWithin(heap, c, g, uvs, ReachSet(heap, g));
    var r := AtomicMark(heap, c, g, uvs);
    hide AtomicMark, TriColour;
    var marked: iset<Ref> := iset o: Ref | !IsWhite(r, o) && o in ReachSet(heap, g);
    forall a: Ref, b: Ref | a in marked && Edge(heap, a, b) ensures b in marked {
    }
    ReachSetLeast(heap, g, marked);
  }

  lemma AtomicExact(s: State)
    requires Inv(s) && s.gcstate == Propagate && |s.col.gray| == 0
    requires Within(s.col, ReachSet(s.body, s.roots))
    ensures Kept(Atomic(s)) == Survivors(s)
  {
    hide RootChainOK, StringChainsOK, Solid, RootsOK, AtomicMark, GrayLists, Listed, NoWhiteChild;
    ReachSetInHeap(s);
    UpvalMembers(s.body, s.lists.openupval, s.lists.uvhead);
    AtomicMarkExact(s.body, s.col, s.roots, s.lists.uvhead);
    var c := AtomicMark(s.body, s.col, s.roots, s.lists.uvhead);
    assert forall x :: x in c.mark && IsWhite(c, x) ==> c.mark[x] == White(s.currentwhite);
    forall o ensures o in Kept(Atomic(s)) <==> o in Survivors(s) {
    }
  }

  lemma MarkRootExact(s: State)
    requires Inv(s) && AllFresh(s.col, s.currentwhite)
    ensures Within(MarkRoot(s).col, ReachSet(s.body, s.roots))
  {
    ReachSetClosed(s.body, s.roots);
    assert forall x :: x in s.col.mark ==> Fresh(s.col, s.currentwhite, x);
    MarkRootSetWithin(s.body, s.col, s.roots, ReachSet(s.body, s.roots));
  }

  lemma PropagateExact(s: State)
    requires Inv(s) && s.gcstate == Propagate && |s.col.gray| > 0
    requires Within(s.col, ReachSet(s.body, s.roots))
    ensures Within(PropagateMark(s.body, s.col), ReachSet(s.body, s.roots))
  {
    ReachSetClosed(s.body, s.roots);
    PropagateMarkWithin(s.body, s.col, ReachSet(s.body, s.roots));
  }

  /** Once everything has been swept, what was to be kept is all there is. */
  lemma SweptAll(s: State)
    requires Inv(s) && s.gcstate == Finalize
    ensures Kept(s) == s.body.Keys
  {
    assert forall x :: x in s.col.mark ==> Fresh(s.col, s.currentwhite, x);
  }

  /** An abandoned mark phase has made nothing dead: the sweep that follows frees nothing. */
  lemma AbandonKeeps(s: State)
    requires Inv(s) && (s.gcstate == Pause || s.gcstate == Propagate)
    ensures Inv(DropMarks(s)) && Sweeps(s, DropMarks(s))
    ensures Kept(DropMarks(s)) == s.body.Keys
  {
    hide RootChainOK, StringChainsOK, UpvalChainsOK, RootsOK, Solid, BlackKinds, TriColour;
    AbandonInv(s);
    assert forall o :: !Dead(s.col, s.currentwhite, o);
  }

  // ---- How long the sweep takes ----

  ghost function SweepWork(l: Chains): int { |l.uvhead| + |l.rootgc| - l.sweepgc }

  lemma WithoutShorter(l: seq<Ref>, o: Ref)
    ensures |Without(l, o)| <= |l| && (o in l ==> |Without(l, o)| < |l|)
  {
  }

  lemma {:induction false} SweepChainWork(s: State, l: seq<Ref>)
    ensures |SweepChain(s, l).0.lists.uvhead| <= |s.lists.uvhead|
    decreases |l|
  {
    if |l| > 0 {
      WithoutShorter(s.lists.uvhead, l[0]);
      SweepChainWork(if Survives(s, l[0]) then Whiten(s, l[0]) else FreeLeaf(s, l[0]), l[1..]);
    }
  }

  lemma CloseFirstWork(s: State, t: Ref)
    requires UpvalChainsOK(s.body, s.lists.openupval, s.lists.uvhead) && s.lists.sweepgc <= |s.lists.rootgc|
    requires t in s.lists.openupval && |s.lists.openupval[t]| > 0
    ensures SweepWork(CloseFirst(s, t).lists) <= SweepWork(s.lists)
  {
    var uv, v := FirstUpval(s, t);
    assert uv in s.lists.uvhead;
    WithoutShorter(s.lists.uvhead, uv);
  }

  lemma {:induction false} CloseWork(s: State, t: Ref, gone: set<Ref>)
    requires InvBut(s, gone) && t in s.lists.openupval
    requires forall x :: x in gone && x in s.body ==> s.body[x].Thread?
    ensures SweepWork(Close(s, t, 0).lists) <= SweepWork(s.lists)
    decreases OpenCount(s, t)
  {
    hide RootChainOK, StringChainsOK, UpvalChainsOK, RootsOK, Solid, PhaseOK, BlackKinds, CloseFirst;
    if OpenCount(s, t) > 0 {
      CloseFirstWork(s, t);
      CloseStep(s, t, gone);
      CloseWork(CloseFirst(s, t), t, gone);
    }
  }

  lemma SweepHereWork(s: State)
    requires Inv(s) && s.gcstate == Sweep && s.lists.sweepgc < |s.lists.rootgc|
    ensures SweepWork(SweepHere(s).lists) < SweepWork(s.lists)
  {
    hide Coloured, BlackKinds, ChainsOK, RootsOK, Solid, PhaseOK, Close;
    var o := s.lists.rootgc[s.lists.sweepgc];
    UnderPointer(s);
    if !Survives(s, o) && s.body[o].Thread? {
      CutRootInv(s, o);
      CloseWork(s.(lists := Cut(s.lists)), o, {o});
    }
  }

  /** Every turn of sweeplist brings the end of the sweep nearer, even where it closes upvalues. */
  lemma SweepRootWork(s: State)
    requires Inv(s) && s.gcstate == Sweep && s.lists.sweepgc < |s.lists.rootgc|
    ensures SweepWork(SweepRoot(s).lists) < SweepWork(s.lists)
  {
    var o := s.lists.rootgc[s.lists.sweepgc];
    assert o in s.lists.rootgc;
    if s.body[o].Thread? {
      SweepChainWork(s, s.lists.openupval[o]);
      hide InvBut, RootChainOK, StringChainsOK, UpvalChainsOK, Solid, PhaseOK, SweepHere, SweepChain;
      SweepOpenInv(s, o);
      SweepHereWork(SweepOpenUpvals(s, o));
    } else {
      SweepHereWork(s);
    }
  }

  lemma {:induction false} SweepRootsWork(s: State, count: nat)
    requires Inv(s) && s.gcstate == Sweep
    ensures SweepWork(SweepRoots(s, count).lists) <= SweepWork(s.lists)
    ensures count > 0 && s.lists.sweepgc < |s.lists.rootgc| ==>
              SweepWork(SweepRoots(s, count).lists) < SweepWork(s.lists)
    decreases count
  {
    hide Inv, SweepRoot;
    if count > 0 && s.lists.sweepgc < |s.lists.rootgc| {
      SweepRootInv(s);
      SweepRootWork(s);
      SweepRootsWork(SweepRoot(s), count - 1);
    }
  }

  /** A measure of what a sweep has still to do. */
  ghost function SweepMeasure(s: State): (int, int) {
    match s.gcstate
    case SweepString => (2, |s.lists.strt| - s.lists.sweepstrgc)
    case Sweep => (1, SweepWork(s.lists))
    case _ => (0, 0)
  }

  lemma SweepStepProgress(s: State)
    requires Inv(s) && (s.gcstate == SweepString || s.gcstate == Sweep)
    ensures var r := SingleStep(s);
            && (r.gcstate == SweepString || r.gcstate == Sweep || r.gcstate == Finalize)
            && (SweepMeasure(r).0 < SweepMeasure(s).0 ||
                (SweepMeasure(r).0 == SweepMeasure(s).0 && SweepMeasure(r).1 < SweepMeasure(s).1))
            && SweepMeasure(s).1 >= 0
  {
    hide UpvalChainsOK, RootChainOK, StringChainsOK, Solid, RootsOK, BlackKinds, SweepBucket, Swept, StringCount,
         Resized;
    if s.gcstate == SweepString {
      SweepBucketChains(s);
    } else {
      SweepRootsWork(s, GCSWEEPMAX);
    }
  }

  lemma SurvivorsSame(s: State, r: State)
    requires s.body == r.body && s.roots == r.roots && s.fixed == r.fixed
    ensures Survivors(s) == Survivors(r)
  {
  }

  lemma StepReady(s: State)
    requires Inv(s)
    ensures s.gcstate == Propagate ==> TriColour(s.body, s.col, {})
    ensures s.gcstate == Propagate && |s.col.gray| > 0 ==> s.col.gray[0] in s.body
    ensures forall x :: x in s.body && s.body[x].Open? ==> x in s.lists.uvhead
    ensures s.gcstate == SweepString ==> s.lists.sweepstrgc < |s.lists.strt|
  {
    if s.gcstate == Propagate && |s.col.gray| > 0 {
      assert s.col.gray[0] in s.col.gray;
    }
  }

  /** After the pending sweep everything is white, and what is reachable is what it was. */
  lemma MarkAgain(s0: State, s: State)
    requires Inv(s0) && Inv(s) && Sweeps(s0, s) && s.gcstate == Finalize
    ensures Inv(MarkRoot(s)) && Within(MarkRoot(s).col, ReachSet(s.body, s.roots))
    ensures ReachSet(s.body, s.roots) == ReachSet(s0.body, s0.roots)
    ensures Survivors(s) == Survivors(s0)
  {
    MarkRootInv(s);
    MarkRootExact(s);
    SweepsReach(s0, s);
    hide RootChainOK, StringChainsOK, UpvalChainsOK, Solid, PhaseOK;
    ReachSetInHeap(s);
    forall o ensures o in Survivors(s) <==> o in Survivors(s0) {
    }
  }

  /** The second sweep of a full collection: s2 was marked, s4 is ready for the sweep, s5 is what it leaves. */
  lemma FullExact(s0: State, s2: State, s4: State, s5: State)
    requires Inv(s4) && Inv(s5) && s5.gcstate == Finalize
    requires Sweeps(s0, s2) && Survivors(s2) == Survivors(s0)
    requires ReachSet(s2.body, s2.roots) == ReachSet(s0.body, s0.roots)
    requires s4.body == s2.body && s4.roots == s2.roots && s4.fixed == s2.fixed && Kept(s4) == Survivors(s2)
    requires Sweeps(s4, s5)
    ensures s5.body.Keys == Survivors(s0)
    ensures ReachSet(s5.body, s5.roots) == ReachSet(s0.body, s0.roots)
    ensures forall a :: a in s5.body ==> Values(s5.body, a) == Values(s0.body, a)
  {
    SweptAll(s5);
    SweepsReach(s4, s5);
  }
}
