/** The invariant of the collector, and the proof that every collector step keeps it. */
module GcInvariant {
  import opened Base
  import opened GcHeap
  import opened GcMarking

  /** `rootgc` chains every object but strings and open upvalues, except that `gone` has left it. */
  ghost predicate RootChainOK(heap: map<Ref, Body>, rootgc: seq<Ref>, gone: set<Ref>) {
    && NoDup(rootgc)
    && (forall o :: o in rootgc <==> o in heap && heap[o].InRootList() && o !in gone)
  }

  ghost predicate InBucket(heap: map<Ref, Body>, strt: seq<seq<Ref>>, o: Ref)
    requires o in heap && heap[o].Str?
  {
    |strt| > 0 && o in strt[Bucket(heap[o].hash, |strt|)]
  }

  /** o is a string whose bucket is i. */
  predicate BelongsIn(heap: map<Ref, Body>, o: Ref, i: nat, size: nat) {
    o in heap && heap[o].Str? && size > 0 && Bucket(heap[o].hash, size) == i
  }

  /** Every string is chained in its bucket of the string table. */
  ghost predicate StringChainsOK(heap: map<Ref, Body>, strt: seq<seq<Ref>>) { StringChainsBut(heap, strt, {}) }

  /** The same, but for the strings in `todo`, which are in no bucket. */
  ghost predicate StringChainsBut(heap: map<Ref, Body>, strt: seq<seq<Ref>>, todo: set<Ref>) {
    && (forall i :: 0 <= i < |strt| ==> NoDup(strt[i]))
    && (forall i, o {:trigger o in strt[i]} :: 0 <= i < |strt| && o in strt[i] ==>
          BelongsIn(heap, o, i, |strt|) && o !in todo)
    && (forall o {:trigger InBucket(heap, strt, o)} :: o in heap && heap[o].Str? ==>
          o in todo || InBucket(heap, strt, o))
  }

  /** The open upvalue u is listed by its thread and refers to a slot of that thread. */
  ghost predicate HasHome(heap: map<Ref, Body>, openupval: map<Ref, seq<Ref>>, u: Ref)
    requires u in heap && heap[u].Open?
  {
    var t := heap[u].thread;
    t in openupval && u in openupval[t] && t in heap && heap[t].Thread? && heap[u].index < |heap[t].slots|
  }

  /** The open upvalues: each is listed by its thread and in the ring, and refers to a stack slot. */
  ghost predicate UpvalChainsOK(heap: map<Ref, Body>, openupval: map<Ref, seq<Ref>>, uvhead: seq<Ref>) {
    && (forall t :: t in openupval <==> t in heap && heap[t].Thread?)
    && (forall t :: t in openupval ==> NoDup(openupval[t]))
    && (forall t, u {:trigger u in openupval[t]} ::
         t in openupval && u in openupval[t] ==> u in heap && heap[u].Open? && heap[u].thread == t)
    && (forall u {:trigger HasHome(heap, openupval, u)} ::
         u in heap && heap[u].Open? ==> HasHome(heap, openupval, u))
    && NoDup(uvhead)
    && (forall u :: u in uvhead <==> u in heap && heap[u].Open?)
  }

  /** Every object is chained in exactly one list. */
  ghost predicate ChainsOK(heap: map<Ref, Body>, l: Chains, gone: set<Ref>) {
    && RootChainOK(heap, l.rootgc, gone)
    && StringChainsOK(heap, l.strt)
    && UpvalChainsOK(heap, l.openupval, l.uvhead)
    && l.sweepgc <= |l.rootgc| && |l.strt| > 0
  }

  ghost predicate RootsOK(heap: map<Ref, Body>, g: Roots, fixed: set<Ref>) {
    && g.mainthread in heap && heap[g.mainthread].Thread?
    && g.running in heap && heap[g.running].Thread?
    && g.mainthread in fixed
    && (forall o :: o in fixed ==> o in heap && (heap[o].Str? || o == g.mainthread))
  }

  /** What is not dead refers only to objects that exist and are not dead. */
  ghost predicate Solid(heap: map<Ref, Body>, c: Colours, w: bool, g: Roots) {
    && (forall o :: Root(g, o) ==> o in heap && !Dead(c, w, o))
    && (forall a, b :: a in heap && !Dead(c, w, a) && Edge(heap, a, b) ==> b in heap && !Dead(c, w, b))
  }

  ghost predicate AllFresh(c: Colours, w: bool) { forall o :: o in c.mark ==> Fresh(c, w, o) }

  ghost predicate NoOtherWhite(c: Colours, w: bool) {
    forall o :: o in c.mark ==> c.mark[o] != White(!w)
  }

  /** The sweep has passed the strings of this hash: `all`, or those before the pointer into the string table. */
  predicate Passed(l: Chains, all: bool, hash: nat) { all || (|l.strt| > 0 && Bucket(hash, |l.strt|) < l.sweepstrgc) }

  /** What the sweep has passed is back to the current white. */
  ghost predicate Swept(heap: map<Ref, Body>, c: Colours, w: bool, l: Chains, all: bool) {
    && (forall o :: o in heap && heap[o].Str? && Passed(l, all, heap[o].hash) ==> Fresh(c, w, o))
    && (forall o :: l.sweepgc <= |l.rootgc| && o in l.rootgc[..l.sweepgc] ==> Fresh(c, w, o))
    && (forall u | u in heap && heap[u].Open? && l.sweepgc <= |l.rootgc| ::
         heap[u].thread in l.rootgc[..l.sweepgc] ==> Fresh(c, w, u))
  }

  ghost predicate PhaseOK(s: State) {
    match s.gcstate
    case Pause => AllFresh(s.col, s.currentwhite)
    case Propagate =>
      && TriColour(s.body, s.col, {})
      && NoOtherWhite(s.col, s.currentwhite)
      && !IsWhite(s.col, s.roots.mainthread) && !IsWhite(s.col, s.roots.registry)
    case SweepString =>
      && s.lists.sweepgc == 0 && s.lists.sweepstrgc < |s.lists.strt|
      && Swept(s.body, s.col, s.currentwhite, s.lists, false)
    case Sweep => Swept(s.body, s.col, s.currentwhite, s.lists, true)
    case Finalize => AllFresh(s.col, s.currentwhite)
  }

  /** The invariant, but for the objects in `gone`, which are about to be freed. */
  ghost predicate InvBut(s: State, gone: set<Ref>) {
    && Coloured(s.body, s.col)
    && BlackKinds(s.body, s.col)
    && ChainsOK(s.body, s.lists, gone)
    && RootsOK(s.body, s.roots, s.fixed)
    && Solid(s.body, s.col, s.currentwhite, s.roots)
    && PhaseOK(s)
  }

  ghost predicate Inv(s: State) { InvBut(s, {}) }

  /** The bucket that is swept next. */
  lemma BucketFacts(s: State)
    requires Inv(s) && s.gcstate == SweepString
    ensures Coloured(s.body, s.col) && s.lists.sweepstrgc < |s.lists.strt|
    ensures var chain := s.lists.strt[s.lists.sweepstrgc]; NoDup(chain) && forall o :: o in chain ==> o in s.body
  {
    hide Swept, Solid, RootsOK, BlackKinds, RootChainOK, UpvalChainsOK;
  }

  // ---- The mark phase ----

  /** markroot, on a heap that is all white. */
  lemma MarkRootSetMarks(heap: map<Ref, Body>, c: Colours, g: Roots)
    requires Coloured(heap, c) && forall x :: x in c.mark ==> IsWhite(c, x)
    ensures var r := MarkRootSet(heap, c, g);
            && TriColour(heap, r, {}) && Darkens(c.(gray := [], grayagain := []), r)
            && !IsWhite(r, g.mainthread) && !IsWhite(r, g.registry)
  {
    var c0 := c.(gray := [], grayagain := []);
    assert forall x :: x in c0.mark ==> IsWhite(c0, x);
    assert Marking(heap, c0, false, false);
    var c1 := MarkObject(heap, c0, g.mainthread);
    MarkObjectMarking(heap, c0, g.mainthread, false, false);
    var c2 := MarkValues(heap, c1, GlobalTable(heap, g.mainthread));
    MarkValuesMarking(heap, c1, GlobalTable(heap, g.mainthread), false, false);
    var c3 := MarkObject(heap, c2, g.registry);
    MarkObjectMarking(heap, c2, g.registry, false, false);
    MarkValuesMarking(heap, c3, g.mt, false, false);
  }

  lemma MarkRootInv(s: State)
    requires Inv(s) && (s.gcstate == Pause || s.gcstate == Finalize)
    ensures Inv(MarkRoot(s))
  {
    assert forall x :: x in s.col.mark ==> Fresh(s.col, s.currentwhite, x);
    MarkRootSetMarks(s.body, s.col, s.roots);
    DarkensInv(s, MarkRoot(s));
  }

  /** Marking makes no object dead, so it leaves the rest of the invariant alone. */
  lemma DarkensInv(s: State, r: State)
    requires Inv(s) && NoOtherWhite(s.col, s.currentwhite)
    requires r == s.(col := r.col, gcstate := Propagate)
    requires TriColour(r.body, r.col, {})
    requires Darkens(s.col.(gray := [], grayagain := []), r.col)
    requires !IsWhite(r.col, s.roots.mainthread) && !IsWhite(r.col, s.roots.registry)
    ensures Inv(r)
  {
    assert forall o :: o in r.col.mark && IsWhite(r.col, o) ==> r.col.mark[o] == s.col.mark[o];
    assert forall o :: !Dead(s.col, s.currentwhite, o) && !Dead(r.col, r.currentwhite, o);
  }

  lemma PropagateMarkInv(s: State)
    requires Inv(s) && s.gcstate == Propagate && |s.col.gray| > 0
    ensures Inv(s.(col := PropagateMark(s.body, s.col)))
  {
    PropagateMarkTriColour(s.body, s.col);
    DarkensInv(s, s.(col := PropagateMark(s.body, s.col)));
  }

  /** At the flip, what was marked is not dead and refers only to marked objects. */
  lemma FlipSolid(heap: map<Ref, Body>, c: Colours, w: bool, g: Roots)
    requires c.mark.Keys == heap.Keys && NoOtherWhite(c, w) && Solid(heap, c, w, g)
    requires MarkedClosed(heap, c)
    requires forall o :: Root(g, o) ==> !IsWhite(c, o)
    ensures Solid(heap, c, !w, g)
    ensures forall o :: o in c.mark ==> Dead(c, !w, o) == IsWhite(c, o)
  {
    assert forall o :: o in c.mark ==> Dead(c, !w, o) == IsWhite(c, o);
    forall a, b | a in heap && !Dead(c, !w, a) && Edge(heap, a, b) ensures b in heap && !Dead(c, !w, b) {
      assert !Dead(c, w, a);
    }
  }

  lemma MoveSweepPointers(heap: map<Ref, Body>, l: Chains, gone: set<Ref>, i: nat, j: nat)
    requires ChainsOK(heap, l, gone) && i <= |l.rootgc|
    ensures ChainsOK(heap, l.(sweepgc := i, sweepstrgc := j), gone)
  {
  }

  lemma FlipInv(s: State)
    requires Inv(s) && s.gcstate == Propagate
    requires MarkedClosed(s.body, s.col)
    requires forall o :: Root(s.roots, o) ==> !IsWhite(s.col, o)
    ensures Inv(Flip(s))
  {
    FlipSolid(s.body, s.col, s.currentwhite, s.roots);
    MoveSweepPointers(s.body, s.lists, {}, 0, 0);
    assert Swept(s.body, s.col, !s.currentwhite, Flip(s).lists, false);
  }

  lemma AtomicInv(s: State)
    requires Inv(s) && s.gcstate == Propagate && |s.col.gray| == 0
    ensures Inv(Atomic(s))
  {
    var c := AtomicMark(s.body, s.col, s.roots, s.lists.uvhead);
    AtomicMarkCompletes(s.body, s.col, s.roots, s.lists.uvhead);
    DarkensInv(s, s.(col := c));
    FlipInv(s.(col := c));
  }

  // ---- The sweep phases ----

  /** The sweep frees o. */
  predicate Freed(s: State, o: Ref) { Dead(s.col, s.currentwhite, o) && o !in s.fixed }

  /** r comes from s by sweeping the objects in `l`: the dead ones are gone, the others white again. */
  ghost predicate SweptOut(s: State, r: State, l: set<Ref>) {
    && r.roots == s.roots && r.fixed == s.fixed && r.currentwhite == s.currentwhite && r.gcstate == s.gcstate
    && (forall o :: o in r.body <==> o in s.body && !(o in l && Freed(s, o)))
    && (forall o :: o in r.col.mark <==> o in s.col.mark && !(o in l && Freed(s, o)))
    && (forall o :: o in r.body ==> r.body[o] == s.body[o])
    && (forall o :: o in r.col.mark ==> r.col.mark[o] == if o in l then White(s.currentwhite) else s.col.mark[o])
  }

  ghost function Elems(l: seq<Ref>): set<Ref> { set o | o in l }

  lemma WithoutMembers(l: seq<Ref>, o: Ref)
    requires NoDup(l)
    ensures NoDup(Without(l, o)) && forall x :: x in Without(l, o) <==> x in l && x != o
  {
    if |l| > 0 && l[0] != o {
      assert l == [l[0]] + l[1..];
      WithoutMembers(l[1..], o);
      NoDupConcat([l[0]], Without(l[1..], o));
    } else if |l| > 0 {
      assert l == [o] + l[1..];
    }
  }

  /** The ring of open upvalues, after a sweep of the objects in l. */
  ghost predicate RingSwept(s: State, r: State, l: set<Ref>) {
    && NoDup(r.lists.uvhead)
    && (forall u :: u in r.lists.uvhead <==>
         u in s.lists.uvhead && !(u in l && Freed(s, u) && u in s.body && s.body[u].Open?))
  }

  lemma SweepOne(s: State, o: Ref)
    requires o in s.body && o in s.col.mark && NoDup(s.lists.uvhead)
    ensures var r := if Survives(s, o) then Whiten(s, o) else FreeLeaf(s, o);
            SweptOut(s, r, {o}) && RingSwept(s, r, {o})
  {
    WithoutMembers(s.lists.uvhead, o);
  }

  lemma SweptOutTransitive(s: State, t: State, r: State, l1: set<Ref>, l2: set<Ref>)
    requires SweptOut(s, t, l1) && SweptOut(t, r, l2) && l1 !! l2
    ensures SweptOut(s, r, l1 + l2)
    ensures RingSwept(s, t, l1) && RingSwept(t, r, l2) ==> RingSwept(s, r, l1 + l2)
  {
    assert forall x :: x in l2 ==> Freed(t, x) == Freed(s, x);
  }

  /** What sweeplist does to one chain: the survivors stay, in order, and are white again. */
  lemma {:induction false} SweepChainSweeps(s: State, l: seq<Ref>)
    requires NoDup(l) && forall o :: o in l ==> o in s.body && o in s.col.mark
    requires NoDup(s.lists.uvhead)
    ensures var (r, rest) := SweepChain(s, l);
            && SweptOut(s, r, Elems(l)) && RingSwept(s, r, Elems(l))
            && NoDup(rest) && (forall o :: o in rest <==> o in l && !Freed(s, o))
    decreases |l|
  {
    if |l| > 0 {
      var o := l[0];
      assert l == [o] + l[1..];
      var s1 := if Survives(s, o) then Whiten(s, o) else FreeLeaf(s, o);
      SweepOne(s, o);
      assert o !in l[1..];
      assert Elems(l) == {o} + Elems(l[1..]);
      SweepChainSweeps(s1, l[1..]);
      var (r, rest) := SweepChain(s1, l[1..]);
      SweptOutTransitive(s, s1, r, {o}, Elems(l[1..]));
      assert forall x :: x in l[1..] ==> Freed(s1, x) == Freed(s, x);
      if Survives(s, o) {
        NoDupConcat([o], rest);
      }
    }
  }

  /** Sweeping strings and open upvalues keeps what is solid solid. */
  lemma SweptOutSolid(s: State, r: State, l: set<Ref>)
    requires Coloured(s.body, s.col) && BlackKinds(s.body, s.col) && RootsOK(s.body, s.roots, s.fixed)
    requires Solid(s.body, s.col, s.currentwhite, s.roots)
    requires SweptOut(s, r, l)
    requires forall o :: o in l && o in s.body ==> !s.body[o].Thread?
    ensures Coloured(r.body, r.col) && BlackKinds(r.body, r.col) && RootsOK(r.body, r.roots, r.fixed)
    ensures Solid(r.body, r.col, r.currentwhite, r.roots)
    ensures forall o :: o in r.col.mark && (o in l || Fresh(s.col, s.currentwhite, o)) ==>
              Fresh(r.col, r.currentwhite, o)
    ensures forall o :: o in r.body ==> Values(r.body, o) == Values(s.body, o)
  {
    forall o | o in r.body ensures Values(r.body, o) == Values(s.body, o) {
    }
    forall a, b | a in r.body && !Dead(r.col, r.currentwhite, a) && Edge(r.body, a, b)
      ensures b in r.body && !Dead(r.col, r.currentwhite, b)
    {
      assert Edge(s.body, a, b) && !s.body[a].Str?;
      assert Root(s.roots, s.roots.mainthread);
    }
    assert forall o :: Root(r.roots, o) ==> Root(s.roots, o);
  }

  /** The string table, once bucket i has been swept. */
  lemma StringChainsSwept(heap: map<Ref, Body>, heap': map<Ref, Body>, strt: seq<seq<Ref>>, i: nat, rest: seq<Ref>)
    requires StringChainsOK(heap, strt) && i < |strt|
    requires NoDup(rest) && forall o :: o in rest <==> o in strt[i] && o in heap'
    requires forall o :: o in heap' ==> o in heap && heap'[o] == heap[o]
    requires forall o :: o in heap && o !in strt[i] ==> o in heap'
    ensures StringChainsOK(heap', strt[i := rest])
  {
    var strt' := strt[i := rest];
    forall j, o | 0 <= j < |strt'| && o in strt'[j] ensures BelongsIn(heap', o, j, |strt'|) {
      assert o in strt[j];
    }
    forall o | o in heap' && heap'[o].Str? ensures InBucket(heap', strt', o) {
      assert InBucket(heap, strt, o);
    }
  }

  /** The open upvalues do not notice the loss of other objects. */
  lemma UpvalChainsShrink(heap: map<Ref, Body>, heap': map<Ref, Body>, openupval: map<Ref, seq<Ref>>, uvhead: seq<Ref>)
    requires UpvalChainsOK(heap, openupval, uvhead)
    requires forall o :: o in heap' ==> o in heap && heap'[o] == heap[o]
    requires forall o :: o in heap && (heap[o].Open? || heap[o].Thread?) ==> o in heap'
    ensures UpvalChainsOK(heap', openupval, uvhead)
  {
    forall u | u in heap' && heap'[u].Open? ensures HasHome(heap', openupval, u) {
      assert HasHome(heap, openupval, u);
    }
  }

  lemma SweepBucketChains(s: State)
    requires s.col.mark.Keys == s.body.Keys
    requires ChainsOK(s.body, s.lists, {}) && s.lists.sweepstrgc < |s.lists.strt|
    ensures var r := SweepBucket(s);
            && ChainsOK(r.body, r.lists, {})
            && SweptOut(s, r, Elems(s.lists.strt[s.lists.sweepstrgc]))
            && (forall o :: o in s.lists.strt[s.lists.sweepstrgc] ==> o in s.body && s.body[o].Str?)
            && r.lists.sweepgc == s.lists.sweepgc && |r.lists.strt| == |s.lists.strt|
            && r.lists.rootgc == s.lists.rootgc && r.lists.sweepstrgc == s.lists.sweepstrgc + 1
  {
    hide SweepChain, StringChainsOK, UpvalChainsOK, RootChainOK, RingSwept;
    var i := s.lists.sweepstrgc;
    var chain := s.lists.strt[i];
    BucketMembers(s.body, s.lists.strt, i);
    UpvalMembers(s.body, s.lists.openupval, s.lists.uvhead);
    SweepChainSweeps(s, chain);
    var (t, rest) := SweepChain(s, chain);
    SweptStrings(s, t, chain);
    StringChainsSwept(s.body, t.body, s.lists.strt, i, rest);
    UpvalChainsShrink(s.body, t.body, s.lists.openupval, t.lists.uvhead);
  }

  lemma BucketMembers(heap: map<Ref, Body>, strt: seq<seq<Ref>>, i: nat)
    requires StringChainsOK(heap, strt) && i < |strt|
    ensures NoDup(strt[i]) && forall o :: o in strt[i] ==> o in heap && heap[o].Str?
  {
    assert forall o :: o in strt[i] ==> BelongsIn(heap, o, i, |strt|);
  }

  lemma UpvalMembers(heap: map<Ref, Body>, openupval: map<Ref, seq<Ref>>, uvhead: seq<Ref>)
    requires UpvalChainsOK(heap, openupval, uvhead)
    ensures NoDup(uvhead) && forall u :: u in uvhead <==> u in heap && heap[u].Open?
  {
  }

  /** Sweeping strings leaves the other lists alone. */
  lemma SweptStrings(s: State, t: State, chain: seq<Ref>)
    requires SweptOut(s, t, Elems(chain)) && RingSwept(s, t, Elems(chain))
    requires forall o :: o in chain ==> o in s.body && s.body[o].Str?
    requires UpvalChainsOK(s.body, s.lists.openupval, s.lists.uvhead) && RootChainOK(s.body, s.lists.rootgc, {})
    ensures UpvalChainsOK(s.body, s.lists.openupval, t.lists.uvhead) && RootChainOK(t.body, s.lists.rootgc, {})
    ensures forall o :: o in t.body <==> o in s.body && !(o in chain && Freed(s, o))
    ensures forall o :: o in t.body ==> t.body[o] == s.body[o]
  {
    hide HasHome;
  }

  lemma SweptBucket(heap: map<Ref, Body>, c: Colours, c': Colours, w: bool, l: Chains, l': Chains)
    requires StringChainsOK(heap, l.strt) && Swept(heap, c, w, l, false) && |l'.strt| == |l.strt|
    requires l.sweepstrgc < |l.strt| && l'.sweepstrgc == l.sweepstrgc + 1
    requires forall o :: o in c'.mark && (o in Elems(l.strt[l.sweepstrgc]) || Fresh(c, w, o)) ==> Fresh(c', w, o)
    ensures forall o :: o in c'.mark && o in heap && heap[o].Str? && Passed(l', false, heap[o].hash) ==> Fresh(c', w, o)
  {
    forall o | o in c'.mark && o in heap && heap[o].Str? && Passed(l', false, heap[o].hash) ensures Fresh(c', w, o) {
      assert InBucket(heap, l.strt, o);
    }
  }

  /** Once a bucket has been swept, with its chain and its strings accounted for, the invariant holds again. */
  lemma SweptBucketInv(s: State, r: State)
    requires Inv(s) && s.gcstate == SweepString
    requires var chain := s.lists.strt[s.lists.sweepstrgc];
             SweptOut(s, r, Elems(chain)) && forall o :: o in chain ==> o in s.body && s.body[o].Str?
    requires r.lists.sweepstrgc == s.lists.sweepstrgc + 1 && r.lists.sweepgc == 0 && |r.lists.strt| == |s.lists.strt|
    ensures Coloured(r.body, r.col) && BlackKinds(r.body, r.col) && RootsOK(r.body, r.roots, r.fixed)
    ensures Solid(r.body, r.col, r.currentwhite, r.roots) && Swept(r.body, r.col, r.currentwhite, r.lists, false)
  {
    SweptOutSolid(s, r, Elems(s.lists.strt[s.lists.sweepstrgc]));
    SweptBucket(s.body, s.col, r.col, s.currentwhite, s.lists, r.lists);
  }

  lemma SweepBucketInv(s: State)
    requires Inv(s) && s.gcstate == SweepString
    ensures Inv(var r := SweepBucket(s); if r.lists.sweepstrgc >= |r.lists.strt| then r.(gcstate := Sweep) else r)
  {
    hide SweepBucket, Solid, BlackKinds, Swept, RootChainOK, UpvalChainsOK, StringChainsOK, RootsOK, SweptOut;
    SweepBucketChains(s);
    var r := SweepBucket(s);
    SweptBucketInv(s, r);
    if r.lists.sweepstrgc >= |r.lists.strt| {
      SweptTable(r.body, r.col, r.currentwhite, r.lists);
    }
  }

  /** After the last bucket every string has been swept. */
  lemma SweptTable(heap: map<Ref, Body>, c: Colours, w: bool, l: Chains)
    requires Swept(heap, c, w, l, false) && 0 < |l.strt| <= l.sweepstrgc
    ensures Swept(heap, c, w, l, true)
  {
    assert forall hash :: Passed(l, true, hash) ==> Passed(l, false, hash);
  }
}
