/** In every interleaving of collector and program, nothing reachable is ever freed. */
module GcSafety {
  import opened Base
  import opened GcHeap
  import opened GcMarking
  import opened GcInvariant
  import opened GcClosing
  import opened GcSweeping
  import opened GcMutator

  lemma {:induction false} PathSolid(heap: map<Ref, Body>, c: Colours, w: bool, g: Roots, p: seq<Ref>)
    requires Solid(heap, c, w, g) && Path(heap, g, p)
    ensures p[|p| - 1] in heap && !Dead(c, w, p[|p| - 1])
    decreases |p|
  {
    if |p| > 1 {
      var q := p[..|p| - 1];
      assert Path(heap, g, q);
      PathSolid(heap, c, w, g, q);
      assert Edge(heap, q[|q| - 1], p[|p| - 1]);
    }
  }

  lemma ReachableSolid(heap: map<Ref, Body>, c: Colours, w: bool, g: Roots, o: Ref)
    requires Solid(heap, c, w, g) && Reachable(heap, g, o)
    ensures o in heap && !Dead(c, w, o)
  {
    var p :| Path(heap, g, p) && p[|p| - 1] == o;
    PathSolid(heap, c, w, g, p);
  }

  /** A value the program may store: it exists and is not dead. */
  ghost predicate Sound(heap: map<Ref, Body>, c: Colours, w: bool, v: Value) {
    v.Some? ==> v.value in heap && !Dead(c, w, v.value)
  }

  lemma HeldSound(s: State, v: Value)
    requires Solid(s.body, s.col, s.currentwhite, s.roots) && Held(s, v)
    ensures Sound(s.body, s.col, s.currentwhite, v)
  {
    if v.Some? {
      ReachableSolid(s.body, s.col, s.currentwhite, s.roots, v.value);
    }
  }

  // ---- Writing into an object ----

  /** b' is the same object as b, with other contents. */
  ghost predicate SameKind(b: Body, b': Body) {
    match b
    case Udata(_) => b'.Udata?
    case Table(_) => b'.Table?
    case Func(_) => b'.Func?
    case Proto(_) => b'.Proto?
    case Thread(_) => b'.Thread?
    case Closed(_) => b'.Closed?
    case _ => false
  }

  lemma WriteChains(heap: map<Ref, Body>, l: Chains, o: Ref, b': Body)
    requires ChainsOK(heap, l, {}) && o in heap && SameKind(heap[o], b')
    requires b'.Thread? ==> forall u :: u in heap && heap[u].Open? && heap[u].thread == o ==> heap[u].index < |b'.slots|
    ensures ChainsOK(heap[o := b'], l, {})
  {
    var heap' := heap[o := b'];
    forall u | u in heap' && heap'[u].Open? ensures HasHome(heap', l.openupval, u) {
      assert HasHome(heap, l.openupval, u);
    }
    forall x | x in heap' && heap'[x].Str? ensures InBucket(heap', l.strt, x) {
      assert InBucket(heap, l.strt, x);
    }
  }

  lemma WriteRoots(heap: map<Ref, Body>, g: Roots, fixed: set<Ref>, o: Ref, b': Body)
    requires RootsOK(heap, g, fixed) && o in heap && SameKind(heap[o], b')
    ensures RootsOK(heap[o := b'], g, fixed)
  {
  }

  /** What can be read through an object after the write: what was there, or a value of b'. */
  lemma WriteValues(heap: map<Ref, Body>, o: Ref, b': Body, a: Ref, b: Ref)
    requires o in heap && SameKind(heap[o], b')
    requires Edge(heap[o := b'], a, b)
    ensures Some(b) in Slots(b') || Edge(heap, a, b)
    ensures a != o && Some(b) in Slots(b') && !Edge(heap, a, b) ==> heap[o].Thread? && a in heap && heap[a].Open?
  {
  }

  lemma WriteSolid(heap: map<Ref, Body>, c: Colours, w: bool, g: Roots, o: Ref, b': Body)
    requires Solid(heap, c, w, g) && o in heap && SameKind(heap[o], b')
    requires forall v :: v in Slots(b') ==> Sound(heap, c, w, v)
    ensures Solid(heap[o := b'], c, w, g)
  {
    var heap' := heap[o := b'];
    forall a: Ref, b: Ref | a in heap' && !Dead(c, w, a) && Edge(heap', a, b)
      ensures b in heap' && !Dead(c, w, b)
    {
      WriteValues(heap, o, b', a, b);
      if Some(b) in Slots(b') {
        assert Sound(heap, c, w, Some(b));
      }
    }
  }

  /** Writing to a stack, or to an object that is not black, needs no barrier. */
  lemma WriteTriColour(heap: map<Ref, Body>, c: Colours, o: Ref, b': Body, busy: set<Ref>)
    requires TriColour(heap, c, {}) && o in heap && SameKind(heap[o], b')
    requires IsBlack(c, o) ==> o in busy
    ensures TriColour(heap[o := b'], c, busy)
  {
    var heap' := heap[o := b'];
    forall x | IsBlack(c, x) && x !in busy ensures NoWhiteChild(heap', c, x) {
      assert NoWhiteChild(heap, c, x);
      forall b | Edge(heap', x, b) ensures !IsWhite(c, b) {
        WriteValues(heap, o, b', x, b);
      }
    }
    forall x | IsGray(c, x) ensures Listed(heap', c, x) {
      assert Listed(heap, c, x);
    }
  }

  lemma WriteSwept(heap: map<Ref, Body>, c: Colours, w: bool, l: Chains, o: Ref, b': Body, all: bool)
    requires Swept(heap, c, w, l, all) && o in heap && SameKind(heap[o], b')
    ensures Swept(heap[o := b'], c, w, l, all)
  {
  }

  /** The stack of a thread takes other values: no barrier runs. */
  lemma WriteStackInv(s: State, t: Ref, slots: seq<Value>)
    requires Inv(s) && t in s.body && s.body[t].Thread?
    requires forall v :: v in slots ==> Sound(s.body, s.col, s.currentwhite, v)
    requires forall u :: u in s.body && s.body[u].Open? && s.body[u].thread == t ==> s.body[u].index < |slots|
    ensures Inv(s.(body := s.body[t := Thread(slots)]))
  {
    hide Solid, RootsOK, Swept, TriColour;
    WriteSolid(s.body, s.col, s.currentwhite, s.roots, t, Thread(slots));
    WriteRoots(s.body, s.roots, s.fixed, t, Thread(slots));
    if s.gcstate == Propagate {
      WriteTriColour(s.body, s.col, t, Thread(slots), {});
    } else if s.gcstate == SweepString || s.gcstate == Sweep {
      WriteSwept(s.body, s.col, s.currentwhite, s.lists, t, Thread(slots), s.gcstate == Sweep);
    }
    WriteChains(s.body, s.lists, t, Thread(slots));
  }

  lemma UpvalIndex(heap: map<Ref, Body>, l: Chains, t: Ref)
    requires UpvalChainsOK(heap, l.openupval, l.uvhead) && t in heap && heap[t].Thread?
    ensures forall u :: u in heap && heap[u].Open? && heap[u].thread == t ==> heap[u].index < |heap[t].slots|
  {
    forall u | u in heap && heap[u].Open? && heap[u].thread == t ensures heap[u].index < |heap[t].slots| {
      assert HasHome(heap, l.openupval, u);
    }
  }

  /** What lies on the stack of a live thread is sound. */
  lemma StackSound(s: State, t: Ref)
    requires Solid(s.body, s.col, s.currentwhite, s.roots)
    requires t in s.body && s.body[t].Thread? && !Dead(s.col, s.currentwhite, t)
    ensures forall v :: v in s.body[t].slots ==> Sound(s.body, s.col, s.currentwhite, v)
  {
    forall v | v in s.body[t].slots ensures Sound(s.body, s.col, s.currentwhite, v) {
      if v.Some? {
        assert Edge(s.body, t, v.value);
      }
    }
  }

  lemma RunningAlive(s: State)
    requires Inv(s)
    ensures var t := s.roots.running; t in s.body && s.body[t].Thread? && !Dead(s.col, s.currentwhite, t)
  {
    hide ChainsOK, PhaseOK, BlackKinds, Coloured;
    assert Root(s.roots, s.roots.running);
  }

  lemma PushInv(s: State, v: Value)
    requires Inv(s) && Sound(s.body, s.col, s.currentwhite, v)
    ensures Inv(Push(s, v))
  {
    var t := s.roots.running;
    assert Root(s.roots, t);
    StackSound(s, t);
    UpvalIndex(s.body, s.lists, t);
    hide Solid, UpvalChainsOK, PhaseOK;
    WriteStackInv(s, t, s.body[t].slots + [v]);
  }

  // ---- New objects ----

  /** What a new object needs to be: a fresh address, and sound values. */
  ghost predicate Newcomer(s: State, o: Ref, b: Body) {
    o !in s.body && forall v :: v in Values(s.body[o := b], o) ==> Sound(s.body, s.col, s.currentwhite, v)
  }

  lemma ExtendValues(heap: map<Ref, Body>, openupval: map<Ref, seq<Ref>>, uvhead: seq<Ref>, o: Ref, b: Body)
    requires o !in heap && UpvalChainsOK(heap, openupval, uvhead)
    ensures forall a :: a != o ==> Values(heap[o := b], a) == Values(heap, a)
  {
    forall a | a != o ensures Values(heap[o := b], a) == Values(heap, a) {
      if a in heap && heap[a].Open? {
        assert HasHome(heap, openupval, a);
      }
    }
  }

  lemma ExtendSolid(heap: map<Ref, Body>, c: Colours, w: bool, g: Roots, o: Ref, b: Body)
    requires Solid(heap, c, w, g) && o !in heap
    requires forall a :: a != o ==> Values(heap[o := b], a) == Values(heap, a)
    requires forall v :: v in Values(heap[o := b], o) ==> Sound(heap, c, w, v)
    ensures Solid(heap[o := b], SetMark(c, o, White(w)), w, g)
  {
    var heap', c' := heap[o := b], SetMark(c, o, White(w));
    forall x: Ref, y: Ref | x in heap' && !Dead(c', w, x) && Edge(heap', x, y) ensures y in heap' && !Dead(c', w, y) {
      if x == o {
        assert Sound(heap, c, w, Some(y));
      } else {
        assert Edge(heap, x, y) && !Dead(c, w, x);
      }
    }
  }

  /** A new object is white, so it breaks nothing while the collector marks. */
  lemma ExtendTriColour(heap: map<Ref, Body>, c: Colours, w: bool, g: Roots, o: Ref, b: Body)
    requires TriColour(heap, c, {}) && o !in heap && Solid(heap, c, w, g) && NoOtherWhite(c, w)
    requires forall a :: a != o ==> Values(heap[o := b], a) == Values(heap, a)
    ensures TriColour(heap[o := b], SetMark(c, o, White(w)), {})
  {
    var heap', c' := heap[o := b], SetMark(c, o, White(w));
    assert o !in c.gray && o !in c.grayagain;
    forall x | IsBlack(c', x) ensures NoWhiteChild(heap', c', x) {
      assert NoWhiteChild(heap, c, x);
      forall y | Edge(heap', x, y) ensures !IsWhite(c', y) {
        assert Edge(heap, x, y);
      }
    }
    forall x | IsGray(c', x) ensures Listed(heap', c', x) {
      assert Listed(heap, c, x);
    }
  }

  /** Before `sweepgc` lie the objects that lay there before, and perhaps the new one. */
  ghost predicate SamePrefix(l: Chains, l': Chains, o: Ref) {
    && l.sweepgc <= |l.rootgc| && l'.sweepgc <= |l'.rootgc| && l'.sweepstrgc == l.sweepstrgc
    && (forall x :: x in l'.rootgc[..l'.sweepgc] ==> x == o || x in l.rootgc[..l.sweepgc])
    && (l.sweepgc == 0 ==> l'.sweepgc == 0) && |l'.strt| == |l.strt|
  }

  lemma ExtendSwept(heap: map<Ref, Body>, c: Colours, w: bool, l: Chains, l': Chains, o: Ref, b: Body, all: bool)
    requires Swept(heap, c, w, l, all) && SamePrefix(l, l', o)
    requires UpvalChainsOK(heap, l.openupval, l.uvhead) && o !in heap
    ensures Swept(heap[o := b], SetMark(c, o, White(w)), w, l', all)
  {
    UpvalThreads(heap, l);
  }

  /** r is s with the new object o. */
  ghost predicate Extended(s: State, r: State, o: Ref, b: Body) {
    && o !in s.body
    && r == s.(body := s.body[o := b], col := SetMark(s.col, o, White(s.currentwhite)), lists := r.lists)
    && SamePrefix(s.lists, r.lists, o)
  }

  lemma ExtendPhase(s: State, r: State, o: Ref, b: Body)
    requires Inv(s) && Extended(s, r, o, b)
    ensures Coloured(r.body, r.col) && BlackKinds(r.body, r.col) && PhaseOK(r)
    ensures forall a :: a != o ==> Values(r.body, a) == Values(s.body, a)
  {
    ExtendValues(s.body, s.lists.openupval, s.lists.uvhead, o, b);
    if s.gcstate == Propagate {
      ExtendTriColour(s.body, s.col, s.currentwhite, s.roots, o, b);
    } else if s.gcstate == SweepString || s.gcstate == Sweep {
      ExtendSwept(s.body, s.col, s.currentwhite, s.lists, r.lists, o, b, s.gcstate == Sweep);
    }
  }

  lemma ExtendInv(s: State, r: State, o: Ref, b: Body)
    requires Inv(s) && Extended(s, r, o, b) && Newcomer(s, o, b)
    requires ChainsOK(r.body, r.lists, {})
    ensures Inv(r)
  {
    hide PhaseOK, RootChainOK, StringChainsOK, UpvalChainsOK, BlackKinds, Solid;
    ExtendPhase(s, r, o, b);
    ExtendSolid(s.body, s.col, s.currentwhite, s.roots, o, b);
  }

  lemma LinkPrefix(l: Chains, l': Chains, o: Ref, k: nat)
    requires k <= |l.rootgc| && l.sweepgc <= |l.rootgc| && l'.sweepstrgc == l.sweepstrgc && l'.strt == l.strt
    requires l'.rootgc == Link(l, o, k).rootgc && l'.sweepgc == Link(l, o, k).sweepgc
    ensures SamePrefix(l, l', o)
  {
    var i := l.sweepgc;
    forall x | x in l'.rootgc[..l'.sweepgc] ensures x == o || x in l.rootgc[..i] {
      if k < i {
        assert l'.rootgc[..i + 1] == l.rootgc[..k] + [o] + l.rootgc[k..i];
        assert l.rootgc[..i] == l.rootgc[..k] + l.rootgc[k..i];
      } else {
        assert l'.rootgc[..i] == l.rootgc[..i];
      }
    }
  }

  lemma CreateChains(s: State, o: Ref, b: Body)
    requires ChainsOK(s.body, s.lists, {}) && o !in s.body && b.InRootList()
    ensures ChainsOK(Create(s, o, b).body, Create(s, o, b).lists, {})
  {
    hide RootChainOK, StringChainsOK, UpvalChainsOK;
    ExtendRootChain(s, o, b);
    StringsExtended(s.body, s.lists.strt, o, b);
    UpvalsExtended(s.body, s.lists.openupval, s.lists.uvhead, o, b);
  }

  lemma ExtendRootChain(s: State, o: Ref, b: Body)
    requires RootChainOK(s.body, s.lists.rootgc, {}) && s.lists.sweepgc <= |s.lists.rootgc| && o !in s.body
    requires b.InRootList()
    ensures var r := Create(s, o, b); RootChainOK(r.body, r.lists.rootgc, {}) && r.lists.sweepgc <= |r.lists.rootgc|
  {
    LinkRootChain(s.body, s.body[o := b], s.lists, {}, o, LinkPlace(s, b));
  }

  lemma StringsExtended(heap: map<Ref, Body>, strt: seq<seq<Ref>>, o: Ref, b: Body)
    requires StringChainsOK(heap, strt) && o !in heap && !b.Str?
    ensures StringChainsOK(heap[o := b], strt)
  {
    var heap' := heap[o := b];
    forall x | x in heap' && heap'[x].Str? ensures InBucket(heap', strt, x) {
      assert InBucket(heap, strt, x);
    }
  }

  lemma UpvalsExtended(heap: map<Ref, Body>, openupval: map<Ref, seq<Ref>>, uvhead: seq<Ref>, o: Ref, b: Body)
    requires UpvalChainsOK(heap, openupval, uvhead) && o !in heap && !b.Open?
    ensures UpvalChainsOK(heap[o := b], if b.Thread? then openupval[o := []] else openupval, uvhead)
  {
    var heap', upvals' := heap[o := b], if b.Thread? then openupval[o := []] else openupval;
    forall u | u in heap' && heap'[u].Open? ensures HasHome(heap', upvals', u) {
      assert HasHome(heap, openupval, u);
    }
  }

  lemma CreateInv(s: State, o: Ref, b: Body)
    requires Inv(s) && Newcomer(s, o, b) && b.InRootList()
    ensures Inv(Create(s, o, b))
  {
    hide Solid, PhaseOK, RootsOK, BlackKinds, RootChainOK, StringChainsOK, UpvalChainsOK;
    var r := Create(s, o, b);
    LinkPrefix(s.lists, r.lists, o, LinkPlace(s, b));
    CreateChains(s, o, b);
    ExtendInv(s, r, o, b);
  }

  lemma CreateStringChains(s: State, o: Ref, hash: nat)
    requires ChainsOK(s.body, s.lists, {}) && o !in s.body
    ensures ChainsOK(CreateString(s, o, hash).body, CreateString(s, o, hash).lists, {})
  {
    var r, i := CreateString(s, o, hash), Bucket(hash, |s.lists.strt|);
    assert o !in s.lists.strt[i];
    NoDupConcat([o], s.lists.strt[i]);
    forall j, x | 0 <= j < |r.lists.strt| && x in r.lists.strt[j] ensures BelongsIn(r.body, x, j, |r.lists.strt|) {
      assert x == o || x in s.lists.strt[j];
    }
    forall x | x in r.body && r.body[x].Str? ensures InBucket(r.body, r.lists.strt, x) {
      if x != o {
        assert InBucket(s.body, s.lists.strt, x);
      }
    }
    forall u | u in r.body && r.body[u].Open? ensures HasHome(r.body, r.lists.openupval, u) {
      assert HasHome(s.body, s.lists.openupval, u);
    }
  }

  lemma CreateStringInv(s: State, o: Ref, hash: nat)
    requires Inv(s) && o !in s.body
    ensures |s.lists.strt| > 0 && Inv(CreateString(s, o, hash))
  {
    hide Solid, PhaseOK, RootsOK, BlackKinds, RootChainOK, StringChainsOK, UpvalChainsOK;
    CreateStringChains(s, o, hash);
    ExtendInv(s, CreateString(s, o, hash), o, Str(hash));
  }

  lemma ResurrectSolid(heap: map<Ref, Body>, c: Colours, w: bool, g: Roots, o: Ref)
    requires Solid(heap, c, w, g)
    requires forall v :: v in Values(heap, o) ==> Sound(heap, c, w, v)
    ensures Solid(heap, SetMark(c, o, White(w)), w, g)
  {
    var c' := SetMark(c, o, White(w));
    forall a: Ref, b: Ref | a in heap && !Dead(c', w, a) && Edge(heap, a, b) ensures b in heap && !Dead(c', w, b) {
      if a == o {
        assert Sound(heap, c, w, Some(b));
      }
    }
  }

  lemma WhitenSwept(heap: map<Ref, Body>, c: Colours, w: bool, l: Chains, o: Ref, all: bool)
    requires Swept(heap, c, w, l, all)
    ensures Swept(heap, SetMark(c, o, White(w)), w, l, all)
  {
  }

  /** Whatever turns to the current white is not dead any more. */
  lemma ResurrectInv(s: State, o: Ref)
    requires Inv(s) && o in s.body && (s.body[o].Str? || s.body[o].Open?)
    requires forall v :: v in Values(s.body, o) ==> Sound(s.body, s.col, s.currentwhite, v)
    ensures Inv(Resurrect(s, o)) && !Dead(Resurrect(s, o).col, s.currentwhite, o)
  {
    hide RootsOK, RootChainOK, StringChainsOK, UpvalChainsOK, Swept, Solid;
    if Dead(s.col, s.currentwhite, o) {
      assert s.gcstate == SweepString || s.gcstate == Sweep;
      WhitenSwept(s.body, s.col, s.currentwhite, s.lists, o, s.gcstate == Sweep);
      ResurrectSolid(s.body, s.col, s.currentwhite, s.roots, o);
    }
  }

  // ---- Writes with a barrier ----

  /** A table turned back to gray, or another object that stays black with its new value marked. */
  lemma BarrierMarking(heap: map<Ref, Body>, c: Colours, o: Ref, b': Body, v: Value)
    requires TriColour(heap, c, {}) && o in heap && SameKind(heap[o], b') && !b'.Thread?
    requires IsBlack(c, o) ==> forall b :: Some(b) in Slots(b') ==> Some(b) in Slots(heap[o]) || v == Some(b)
    ensures var heap' := heap[o := b'];
            var hit := v.Some? && IsWhite(c, v.value) && IsBlack(c, o);
            && (!hit ==> TriColour(heap', c, {}))
            && (hit && b'.Table? ==> TriColour(heap', SetMark(c, o, Gray).(grayagain := [o] + c.grayagain), {}))
            && (hit ==> TriColour(heap', MarkObject(heap', c, v.value), {}))
            && (hit ==> Darkens(c, MarkObject(heap', c, v.value)))
  {
    var heap' := heap[o := b'];
    var hit := v.Some? && IsWhite(c, v.value) && IsBlack(c, o);
    WriteTriColour(heap, c, o, b', {o});
    if IsBlack(c, o) {
      forall b: Ref | Edge(heap', o, b) && v != Some(b) ensures !IsWhite(c, b) {
        assert NoWhiteChild(heap, c, o);
        assert Edge(heap, o, b);
      }
    }
    if hit {
      if b'.Table? {
        BackTriColour(heap', c, o);
      }
      MarkObjectMarks(heap', c, v.value);
      MarkedTriColour(heap', c, MarkObject(heap', c, v.value), {o});
    }
  }

  /** luaC_barrierback: the black table joins `grayagain`. */
  lemma BackTriColour(heap: map<Ref, Body>, c: Colours, t: Ref)
    requires TriColour(heap, c, {t}) && t in heap && heap[t].Table? && IsBlack(c, t)
    ensures TriColour(heap, SetMark(c, t, Gray).(grayagain := [t] + c.grayagain), {})
  {
    var c' := SetMark(c, t, Gray).(grayagain := [t] + c.grayagain);
    assert t !in c.gray && t !in c.grayagain;
    NoDupConcat([t], c.grayagain);
    forall x | IsGray(c', x) ensures Listed(heap, c', x) {
      if x != t {
        assert Listed(heap, c, x);
      }
    }
    forall x | IsBlack(c', x) ensures NoWhiteChild(heap, c', x) {
      assert NoWhiteChild(heap, c, x);
    }
  }

  /** While sweeping, a black object has not been passed: changing its colour does not matter. */
  lemma BarrierSwept(heap: map<Ref, Body>, c: Colours, w: bool, l: Chains, o: Ref, k: Colour, all: bool)
    requires Swept(heap, c, w, l, all) && IsBlack(c, o)
    ensures Swept(heap, SetMark(c, o, k), w, l, all)
  {
  }

  /** The result of a write with its barrier. */
  function Written(s: State, o: Ref, b': Body, v: Value): State {
    var s1 := s.(body := s.body[o := b']);
    if b'.Table? then BarrierBack(s1, o, v) else BarrierForward(s1, o, v)
  }

  lemma WrittenWhileMarking(s: State, o: Ref, b': Body, v: Value)
    requires Inv(s) && s.gcstate == Propagate && o in s.body && SameKind(s.body[o], b') && !b'.Thread?
    requires forall x :: x in Slots(b') ==> x in Slots(s.body[o]) || x == v || x == None
    ensures var r := Written(s, o, b', v);
            && Coloured(r.body, r.col) && BlackKinds(r.body, r.col) && PhaseOK(r)
            && forall x :: Dead(r.col, s.currentwhite, x) == Dead(s.col, s.currentwhite, x)
  {
    hide Solid, RootsOK, ChainsOK, GrayLists, Listed, NoWhiteChild, MarkObject, Swept, AllFresh, Edge, Values,
         BlackKinds, Coloured, Slots, Whites;
    BarrierMarking(s.body, s.col, o, b', v);
    var r := Written(s, o, b', v);
    assert TriColour(r.body, r.col, {});
    assert forall x :: x in r.col.mark && IsWhite(r.col, x) ==> r.col.mark[x] == s.col.mark[x];
  }

  /** Away from the mark phase a barrier changes only the colour of a black object. */
  lemma WrittenColours(s: State, o: Ref, b': Body, v: Value)
    requires s.gcstate != Propagate
    ensures var r := Written(s, o, b', v);
            && r == s.(body := s.body[o := b'], col := r.col)
            && (r.col != s.col ==> IsBlack(s.col, o))
            && (r.col == s.col || r.col == SetMark(s.col, o, White(s.currentwhite))
                || r.col == SetMark(s.col, o, Gray).(grayagain := [o] + s.col.grayagain))
  {
  }

  lemma WrittenWhileSweeping(s: State, o: Ref, b': Body, v: Value)
    requires Inv(s) && s.gcstate != Propagate && o in s.body && SameKind(s.body[o], b') && !b'.Thread?
    ensures var r := Written(s, o, b', v);
            && Coloured(r.body, r.col) && BlackKinds(r.body, r.col) && PhaseOK(r)
            && forall x :: Dead(r.col, s.currentwhite, x) == Dead(s.col, s.currentwhite, x)
  {
    hide Solid, RootsOK, ChainsOK, Swept, TriColour, Written;
    WrittenColours(s, o, b', v);
    var all := s.gcstate == Sweep;
    if s.gcstate == SweepString || s.gcstate == Sweep {
      WriteSwept(s.body, s.col, s.currentwhite, s.lists, o, b', all);
      if IsBlack(s.col, o) {
        BarrierSwept(s.body[o := b'], s.col, s.currentwhite, s.lists, o, Gray, all);
        BarrierSwept(s.body[o := b'], s.col, s.currentwhite, s.lists, o, White(s.currentwhite), all);
        SweptIgnoresGray(s.body[o := b'], SetMark(s.col, o, Gray), s.currentwhite, s.lists, [o] + s.col.grayagain, all);
      }
    }
  }

  lemma SweptIgnoresGray(heap: map<Ref, Body>, c: Colours, w: bool, l: Chains, again: seq<Ref>, all: bool)
    requires Swept(heap, c, w, l, all)
    ensures Swept(heap, c.(grayagain := again), w, l, all)
  {
  }

  lemma SameDeadSolid(heap: map<Ref, Body>, c: Colours, c': Colours, w: bool, g: Roots)
    requires Solid(heap, c, w, g) && forall x :: Dead(c', w, x) == Dead(c, w, x)
    ensures Solid(heap, c', w, g)
  {
  }

  lemma WrittenInv(s: State, o: Ref, b': Body, v: Value)
    requires Inv(s) && o in s.body && SameKind(s.body[o], b') && !b'.Thread?
    requires forall x :: x in Slots(b') ==> x in Slots(s.body[o]) || x == v || x == None
    requires forall x :: x in Slots(b') ==> Sound(s.body, s.col, s.currentwhite, x)
    ensures Inv(Written(s, o, b', v))
  {
    hide PhaseOK, BlackKinds, RootChainOK, StringChainsOK, UpvalChainsOK, Solid, RootsOK;
    if s.gcstate == Propagate {
      WrittenWhileMarking(s, o, b', v);
    } else {
      WrittenWhileSweeping(s, o, b', v);
    }
    WriteChains(s.body, s.lists, o, b');
    WriteRoots(s.body, s.roots, s.fixed, o, b');
    WriteSolid(s.body, s.col, s.currentwhite, s.roots, o, b');
    SameDeadSolid(s.body[o := b'], s.col, Written(s, o, b', v).col, s.currentwhite, s.roots);
  }

  /** What a live object holds is sound. */
  lemma SlotsSound(s: State, o: Ref)
    requires Solid(s.body, s.col, s.currentwhite, s.roots)
    requires o in s.body && !s.body[o].Open? && !Dead(s.col, s.currentwhite, o)
    ensures forall x :: x in Slots(s.body[o]) ==> Sound(s.body, s.col, s.currentwhite, x)
  {
    forall x | x in Slots(s.body[o]) ensures Sound(s.body, s.col, s.currentwhite, x) {
      if x.Some? {
        assert Edge(s.body, o, x.value);
      }
    }
  }

  lemma SetSlotInv(s: State, o: Ref, i: nat, v: Value)
    requires Inv(s) && Allowed(s, SetSlot(o, i, v))
    ensures Inv(Apply(s, SetSlot(o, i, v)))
  {
    hide Solid, PhaseOK, ChainsOK, RootsOK, BlackKinds, Coloured;
    HeldSound(s, v);
    ReachableSolid(s.body, s.col, s.currentwhite, s.roots, o);
    SlotsSound(s, o);
    var b' := WithSlots(s.body[o], Store(Slots(s.body[o]), i, v));
    assert Apply(s, SetSlot(o, i, v)) == Written(s, o, b', v);
    WrittenInv(s, o, b', v);
  }

  /** One stack slot takes another value; the thread itself may be dead already. */
  lemma StoreSolid(heap: map<Ref, Body>, c: Colours, w: bool, g: Roots, t: Ref, i: nat, v: Value)
    requires Solid(heap, c, w, g) && t in heap && heap[t].Thread? && i < |heap[t].slots| && Sound(heap, c, w, v)
    ensures Solid(heap[t := Thread(heap[t].slots[i := v])], c, w, g)
  {
    var heap' := heap[t := Thread(heap[t].slots[i := v])];
    forall a: Ref, b: Ref | a in heap' && !Dead(c, w, a) && Edge(heap', a, b) ensures b in heap' && !Dead(c, w, b) {
      assert v == Some(b) || Edge(heap, a, b);
    }
  }

  lemma StoreStackInv(s: State, t: Ref, i: nat, v: Value)
    requires Inv(s) && t in s.body && s.body[t].Thread? && i < |s.body[t].slots|
    requires Sound(s.body, s.col, s.currentwhite, v)
    ensures Inv(s.(body := s.body[t := Thread(s.body[t].slots[i := v])]))
  {
    hide Solid, Swept, TriColour, RootsOK;
    var b' := Thread(s.body[t].slots[i := v]);
    UpvalIndex(s.body, s.lists, t);
    StoreSolid(s.body, s.col, s.currentwhite, s.roots, t, i, v);
    if s.gcstate == Propagate {
      WriteTriColour(s.body, s.col, t, b', {});
    } else if s.gcstate == SweepString || s.gcstate == Sweep {
      WriteSwept(s.body, s.col, s.currentwhite, s.lists, t, b', s.gcstate == Sweep);
    }
    WriteRoots(s.body, s.roots, s.fixed, t, b');
    WriteChains(s.body, s.lists, t, b');
  }

  lemma SetUpvalInv(s: State, o: Ref, v: Value)
    requires Inv(s) && Allowed(s, SetUpval(o, v))
    ensures Inv(Apply(s, SetUpval(o, v)))
  {
    hide StringChainsOK, RootChainOK, PhaseOK, RootsOK, Coloured;
    HeldSound(s, v);
    ReachableSolid(s.body, s.col, s.currentwhite, s.roots, o);
    if s.body[o].Closed? {
      hide Inv, Solid;
      WrittenInv(s, o, Closed(v), v);
    } else {
      assert HasHome(s.body, s.lists.openupval, o);
      assert !IsBlack(s.col, o);
      hide Inv, Solid, UpvalChainsOK;
      StoreStackInv(s, s.body[o].thread, s.body[o].index, v);
    }
  }

  // ---- luaF_findupval ----

  lemma OpenPlaceSplit(us: seq<Ref>, k: nat, o: Ref)
    requires NoDup(us) && k <= |us| && o !in us
    ensures NoDup(us[..k] + [o] + us[k..])
    ensures forall x :: x in us[..k] + [o] + us[k..] <==> x == o || x in us
  {
    assert us == us[..k] + us[k..];
    NoDupConcat([o], us[k..]);
    NoDupConcat(us[..k], [o] + us[k..]);
    assert us[..k] + [o] + us[k..] == us[..k] + ([o] + us[k..]);
  }

  lemma NewUpvalChains(s: State, o: Ref, i: nat, k: nat)
    requires ChainsOK(s.body, s.lists, {}) && o !in s.body
    requires var t := s.roots.running;
             && t in s.lists.openupval && k <= |s.lists.openupval[t]|
             && t in s.body && s.body[t].Thread? && i < |s.body[t].slots|
    ensures ChainsOK(NewUpval(s, o, i, k).body, NewUpval(s, o, i, k).lists, {})
  {
    var t, r := s.roots.running, NewUpval(s, o, i, k);
    assert o !in s.lists.openupval[t] && o !in s.lists.uvhead;
    OpenPlaceSplit(s.lists.openupval[t], k, o);
    NoDupConcat([o], s.lists.uvhead);
    forall x, u | x in r.lists.openupval && u in r.lists.openupval[x]
      ensures u in r.body && r.body[u].Open? && r.body[u].thread == x
    {
      assert (u == o && x == t) || u in s.lists.openupval[x];
    }
    forall u | u in r.body && r.body[u].Open? ensures HasHome(r.body, r.lists.openupval, u) {
      if u != o {
        assert HasHome(s.body, s.lists.openupval, u);
      }
    }
    forall x | x in r.body && r.body[x].Str? ensures InBucket(r.body, r.lists.strt, x) {
      assert InBucket(s.body, s.lists.strt, x);
    }
  }

  lemma NewUpvalInv(s: State, o: Ref, i: nat, k: nat)
    requires Inv(s) && o !in s.body
    requires var t := s.roots.running;
             t in s.lists.openupval && k <= |s.lists.openupval[t]| && i < |Values(s.body, t)|
    ensures Inv(NewUpval(s, o, i, k))
  {
    hide Solid, PhaseOK, RootsOK, BlackKinds, RootChainOK, StringChainsOK, UpvalChainsOK;
    var t := s.roots.running;
    RunningAlive(s);
    StackSound(s, t);
    assert Newcomer(s, o, Open(t, i));
    NewUpvalChains(s, o, i, k);
    ExtendInv(s, NewUpval(s, o, i, k), o, Open(t, i));
  }

  /** luaF_findupval: an upvalue found dead in the list of a live thread comes back to life. */
  lemma FoundInv(s: State, u: Ref)
    requires Inv(s) && s.roots.running in s.lists.openupval && u in s.lists.openupval[s.roots.running]
    ensures Inv(Push(Resurrect(s, u), Some(u)))
  {
    assert HasHome(s.body, s.lists.openupval, u);
    assert Root(s.roots, s.roots.running);
    StackSound(s, s.roots.running);
    hide Inv, Solid, UpvalChainsOK;
    ResurrectInv(s, u);
    PushInv(Resurrect(s, u), Some(u));
  }

  lemma FindInv(s: State, o: Ref, i: nat)
    requires Inv(s) && Allowed(s, FindUpval(o, i))
    ensures Inv(Find(s, o, i))
  {
    hide Solid, PhaseOK, BlackKinds, Coloured, RootChainOK, StringChainsOK;
    var t := s.roots.running;
    var us := s.lists.openupval[t];
    var k := OpenPlace(s.body, us, i);
    assert k < |us| ==> us[k] in us;
    if k < |us| && us[k] in s.body && s.body[us[k]].Open? && s.body[us[k]].index == i {
      FoundInv(s, us[k]);
    } else {
      NewUpvalInv(s, o, i, k);
      PushInv(NewUpval(s, o, i, k), Some(o));
    }
  }

  // ---- Every event ----

  lemma NewInv(s: State, o: Ref, b: Body)
    requires Inv(s) && Allowed(s, New(o, b))
    ensures Inv(Apply(s, New(o, b)))
  {
    forall v | v in Slots(b) ensures Sound(s.body, s.col, s.currentwhite, v) {
      HeldSound(s, v);
    }
    assert Values(s.body[o := b], o) == Slots(b);
    hide Inv, Solid, Create;
    CreateInv(s, o, b);
    assert Create(s, o, b).body == s.body[o := b] && Create(s, o, b).col == SetMark(s.col, o, White(s.currentwhite)) &&
      Create(s, o, b).currentwhite == s.currentwhite by { CreateResult(s, o, b); }
    PushInv(Create(s, o, b), Some(o));
  }

  lemma CreateResult(s: State, o: Ref, b: Body)
    ensures var r := Create(s, o, b);
            r.body == s.body[o := b] && r.col == SetMark(s.col, o, White(s.currentwhite))
                && r.currentwhite == s.currentwhite
  {
  }

  lemma NewStringInv(s: State, o: Ref, hash: nat)
    requires Inv(s) && Allowed(s, NewString(o, hash))
    ensures Inv(Apply(s, NewString(o, hash)))
  {
    hide Inv;
    CreateStringInv(s, o, hash);
    PushInv(CreateString(s, o, hash), Some(o));
  }

  lemma InternInv(s: State, o: Ref)
    requires Inv(s) && Allowed(s, Intern(o))
    ensures Inv(Apply(s, Intern(o)))
  {
    hide Inv;
    ResurrectInv(s, o);
    PushInv(Resurrect(s, o), Some(o));
  }

  lemma SetStackInv(s: State, t: Ref, slots: seq<Value>)
    requires Inv(s) && Allowed(s, SetStack(t, slots))
    ensures Inv(Apply(s, SetStack(t, slots)))
  {
    forall v | v in slots ensures Sound(s.body, s.col, s.currentwhite, v) {
      HeldSound(s, v);
    }
    hide Inv, Solid;
    WriteStackInv(s, t, slots);
  }

  lemma AbandonInv(s: State)
    requires Inv(s) && (s.gcstate == Pause || s.gcstate == Propagate)
    ensures Inv(DropMarks(s))
  {
    hide RootChainOK, StringChainsOK, UpvalChainsOK, RootsOK;
    MoveSweepPointers(s.body, s.lists, {}, 0, 0);
    assert forall o :: !Dead(s.col.(gray := [], grayagain := []), s.currentwhite, o);
  }

  lemma RootChangeInv(s: State, g: Roots)
    requires Inv(s) && g.mainthread == s.roots.mainthread && g.registry == s.roots.registry
    requires g.running in s.body && s.body[g.running].Thread?
    requires forall o :: Root(g, o) ==> Root(s.roots, o) || Sound(s.body, s.col, s.currentwhite, Some(o))
    ensures Inv(s.(roots := g))
  {
    hide RootChainOK, StringChainsOK, UpvalChainsOK;
  }

  lemma SetMetatableInv(s: State, i: nat, v: Value)
    requires Inv(s) && Allowed(s, SetMetatable(i, v))
    ensures Inv(Apply(s, SetMetatable(i, v)))
  {
    hide Solid;
    HeldSound(s, v);
    RootChangeInv(s, s.roots.(mt := s.roots.mt[i := v]));
  }

  lemma ResumeInv(s: State, t: Ref)
    requires Inv(s) && Allowed(s, Resume(t))
    ensures Inv(Apply(s, Resume(t)))
  {
    hide Solid;
    ReachableSolid(s.body, s.col, s.currentwhite, s.roots, t);
    RootChangeInv(s, s.roots.(running := t));
  }

  lemma CloseFromInv(s: State, level: nat)
    requires Inv(s)
    ensures Inv(Apply(s, CloseFrom(level)))
  {
    hide RootChainOK, StringChainsOK, Solid, PhaseOK, BlackKinds, Close, SingleStep;
    assert s.roots.running in s.lists.openupval;
    CloseInv(s, s.roots.running, level, {});
  }

  /** Every event keeps the invariant. */
  lemma ApplyInv(s: State, e: Event)
    requires Inv(s) && Allowed(s, e)
    ensures Inv(Apply(s, e))
  {
    hide InvBut, SingleStep, MarkRoot, Push, Close, Find;
    match e
    case Collect => SingleStepInv(s);
    case Abandon => AbandonInv(s);
    case Restart => MarkRootInv(s);
    case New(o, b) => NewInv(s, o, b);
    case NewString(o, hash) => NewStringInv(s, o, hash);
    case ResizeStrings(n) => ResizedInv(s, n);
    case Intern(o) => InternInv(s, o);
    case Fix(o) => FixInv(s, o);
    case SetStack(t, slots) => SetStackInv(s, t, slots);
    case SetSlot(o, i, v) => SetSlotInv(s, o, i, v);
    case SetUpval(o, v) => SetUpvalInv(s, o, v);
    case FindUpval(o, i) => FindInv(s, o, i);
    case CloseFrom(level) => CloseFromInv(s, level);
    case SetMetatable(i, v) => SetMetatableInv(s, i, v);
    case Resume(t) => ResumeInv(s, t);
  }

  lemma FixInv(s: State, o: Ref)
    requires Inv(s) && Allowed(s, Fix(o))
    ensures Inv(Apply(s, Fix(o)))
  {
    hide RootChainOK, StringChainsOK, UpvalChainsOK, Solid, Swept, TriColour;
  }

  lemma {:induction false} RunInv(s: State, es: seq<Event>)
    requires Inv(s) && AllowedRun(s, es)
    ensures Inv(Run(s, es))
    decreases |es|
  {
    hide Inv, Allowed, Apply;
    if |es| > 0 {
      ApplyInv(s, es[0]);
      RunInv(Apply(s, es[0]), es[1..]);
    }
  }

  /** lua_newstate: the main thread with its table of globals, the registry, and empty string buckets. */
  function Initial(mainthread: Ref, globals: Ref, registry: Ref, buckets: nat, tags: nat): State {
    State(
      map[mainthread := Thread([Some(globals)]), globals := Table([]), registry := Table([])],
      Colours(map[mainthread := White(false), globals := White(false), registry := White(false)], [], []),
      Chains([registry, globals, mainthread], 0, seq(buckets, _ => []), 0, map[mainthread := []], []),
      Roots(mainthread, registry, seq(tags, _ => None), mainthread),
      {mainthread}, false, Pause)
  }

  lemma InitialInv(m: Ref, g: Ref, r: Ref, buckets: nat, tags: nat)
    requires m != g && m != r && g != r && buckets > 0
    ensures Inv(Initial(m, g, r, buckets, tags))
  {
    hide RootChainOK, UpvalChainsOK, Solid, RootsOK, Coloured, BlackKinds, AllFresh, StringChainsOK;
    var s := Initial(m, g, r, buckets, tags);
    InitialHeap(s, m, g, r);
    InitialChains(s.body, m, g, r);
    assert forall i :: 0 <= i < buckets ==> s.lists.strt[i] == [];
    InitialStrings(s.body, s.lists.strt);
  }

  lemma InitialChains(heap: map<Ref, Body>, m: Ref, g: Ref, r: Ref)
    requires m != g && m != r && g != r && heap == map[m := Thread([Some(g)]), g := Table([]), r := Table([])]
    ensures RootChainOK(heap, [r, g, m], {}) && UpvalChainsOK(heap, map[m := []], [])
  {
  }

  lemma InitialStrings(heap: map<Ref, Body>, strt: seq<seq<Ref>>)
    requires (forall o :: o in heap ==> !heap[o].Str?) && forall i :: 0 <= i < |strt| ==> strt[i] == []
    ensures StringChainsOK(heap, strt)
  {
  }

  lemma InitialHeap(s: State, m: Ref, g: Ref, r: Ref)
    requires m != g && m != r && g != r
    requires s.body == map[m := Thread([Some(g)]), g := Table([]), r := Table([])]
    requires s.roots.mainthread == s.roots.running == m && s.roots.registry == r && forall v :: v in s.roots.mt ==>
               v == None
    requires s.col == Colours(map[m := White(false), g := White(false), r := White(false)], [], [])
    ensures Coloured(s.body, s.col) && BlackKinds(s.body, s.col) && AllFresh(s.col, false)
    ensures Solid(s.body, s.col, false, s.roots) && RootsOK(s.body, s.roots, {m})
  {
    assert forall a, b :: Edge(s.body, a, b) ==> a == m && b == g;
  }

  /**
   Safety, over whole runs: from the initial state, whatever the collector and the program do and in
   whatever order, every object the program can reach is still there, and is not marked for the sweep.
   */
  lemma ReachableNeverFreed(m: Ref, g: Ref, r: Ref, buckets: nat, tags: nat, es: seq<Event>, o: Ref)
    requires m != g && m != r && g != r && buckets > 0
    requires var s := Initial(m, g, r, buckets, tags); AllowedRun(s, es)
    requires var t := Run(Initial(m, g, r, buckets, tags), es); Reachable(t.body, t.roots, o)
    ensures var t := Run(Initial(m, g, r, buckets, tags), es); o in t.body && !Dead(t.col, t.currentwhite, o)
  {
    hide Initial, Run, AllowedRun, InvBut, Reachable;
    InitialInv(m, g, r, buckets, tags);
    RunInv(Initial(m, g, r, buckets, tags), es);
    LiveIfReachable(Run(Initial(m, g, r, buckets, tags), es), o);
  }

  lemma LiveIfReachable(s: State, o: Ref)
    requires Inv(s) && Reachable(s.body, s.roots, o)
    ensures o in s.body && !Dead(s.col, s.currentwhite, o)
  {
    hide Coloured, BlackKinds, ChainsOK, RootsOK, PhaseOK, Solid;
    ReachableSolid(s.body, s.col, s.currentwhite, s.roots, o);
  }

  /** The tri-colour invariant, over whole runs: while marking, no black object refers to a white one. */
  lemma NoBlackToWhite(m: Ref, g: Ref, r: Ref, buckets: nat, tags: nat, es: seq<Event>, a: Ref, b: Ref)
    requires m != g && m != r && g != r && buckets > 0
    requires var s := Initial(m, g, r, buckets, tags); AllowedRun(s, es)
    requires var t := Run(Initial(m, g, r, buckets, tags), es);
             t.gcstate == Propagate && IsBlack(t.col, a) && Edge(t.body, a, b)
    ensures var t := Run(Initial(m, g, r, buckets, tags), es); b in t.body && !IsWhite(t.col, b)
  {
    hide Initial, Run, AllowedRun, InvBut, Edge;
    InitialInv(m, g, r, buckets, tags);
    RunInv(Initial(m, g, r, buckets, tags), es);
    BlackChild(Run(Initial(m, g, r, buckets, tags), es), a, b);
  }

  lemma BlackChild(s: State, a: Ref, b: Ref)
    requires Inv(s) && s.gcstate == Propagate && IsBlack(s.col, a) && Edge(s.body, a, b)
    ensures b in s.body && !IsWhite(s.col, b)
  {
    hide ChainsOK, RootsOK, BlackKinds, GrayLists, Listed, Values;
    assert NoWhiteChild(s.body, s.col, a);
    assert !Dead(s.col, s.currentwhite, a);
  }
}
