/** Closing upvalues keeps the invariant, in every phase and whatever the colour of the upvalue. */
module GcClosing {
  import opened Base
  import opened GcHeap
  import opened GcMarking
  import opened GcInvariant

  /** Nothing but uv changed, and uv is no open upvalue any more. */
  ghost predicate OnlyClosed(heap: map<Ref, Body>, heap': map<Ref, Body>, uv: Ref) {
    && (forall o :: o != uv ==> (o in heap <==> o in heap'))
    && (forall o :: o != uv && o in heap ==> heap'[o] == heap[o])
    && (uv in heap' ==> heap'[uv].Closed?)
  }

  lemma UnchainHomes(heap: map<Ref, Body>, heap': map<Ref, Body>, upvals: map<Ref, seq<Ref>>, t: Ref)
    requires forall u {:trigger HasHome(heap, upvals, u)} :: u in heap && heap[u].Open? ==> HasHome(heap, upvals, u)
    requires t in upvals && |upvals[t]| > 0
    requires upvals[t][0] in heap && heap[upvals[t][0]].Open? && OnlyClosed(heap, heap', upvals[t][0])
    ensures var upvals' := upvals[t := upvals[t][1..]];
            forall u {:trigger HasHome(heap', upvals', u)} :: u in heap' && heap'[u].Open? ==>
              HasHome(heap', upvals', u)
  {
    var us := upvals[t];
    var upvals' := upvals[t := us[1..]];
    assert us == [us[0]] + us[1..];
    forall u | u in heap' && heap'[u].Open? ensures HasHome(heap', upvals', u) {
      assert HasHome(heap, upvals, u);
    }
  }

  lemma UnchainUpvals(heap: map<Ref, Body>, heap': map<Ref, Body>, l: Chains, t: Ref)
    requires UpvalChainsOK(heap, l.openupval, l.uvhead)
    requires t in l.openupval && |l.openupval[t]| > 0
    requires OnlyClosed(heap, heap', l.openupval[t][0])
    ensures UpvalChainsOK(heap', Unchain(l, t).openupval, Unchain(l, t).uvhead)
  {
    hide HasHome, Without;
    WithoutMembers(l.uvhead, l.openupval[t][0]);
    assert l.openupval[t][0] in l.openupval[t];
    UnchainHomes(heap, heap', l.openupval, t);
    UnchainThreads(heap, heap', l.openupval, t);
  }

  lemma UnchainThreads(heap: map<Ref, Body>, heap': map<Ref, Body>, upvals: map<Ref, seq<Ref>>, t: Ref)
    requires t in upvals && |upvals[t]| > 0 && OnlyClosed(heap, heap', upvals[t][0])
    requires forall x :: x in upvals ==> NoDup(upvals[x])
    requires forall x, u {:trigger u in upvals[x]} ::
               x in upvals && u in upvals[x] ==> u in heap && heap[u].Open? && heap[u].thread == x
    ensures var upvals' := upvals[t := upvals[t][1..]];
            && (forall x :: x in upvals' ==> NoDup(upvals'[x]))
            && forall x, u {:trigger u in upvals'[x]} ::
                 x in upvals' && u in upvals'[x] ==> u in heap' && heap'[u].Open? && heap'[u].thread == x
  {
    var us, uv := upvals[t], upvals[t][0];
    assert us == [uv] + us[1..];
    assert uv in us && uv !in us[1..];
    var upvals' := upvals[t := us[1..]];
    forall x, u | x in upvals' && u in upvals'[x] ensures u in heap' && heap'[u].Open? && heap'[u].thread == x {
      assert u in upvals[x];
      assert u != uv by { assert heap[uv].thread == t; }
    }
  }

  lemma CloseValues(heap: map<Ref, Body>, uv: Ref, v: Value)
    requires uv in heap && heap[uv].Open? && Values(heap, uv) == [v]
    ensures forall a :: Values(heap[uv := Closed(v)], a) == Values(heap, a)
  {
  }

  lemma SameValuesSolid(heap: map<Ref, Body>, heap': map<Ref, Body>, c: Colours, w: bool, g: Roots)
    requires Solid(heap, c, w, g) && heap'.Keys == heap.Keys
    requires forall a :: Values(heap', a) == Values(heap, a)
    ensures Solid(heap', c, w, g)
  {
    forall a, b | a in heap' && !Dead(c, w, a) && Edge(heap', a, b) ensures b in heap' && !Dead(c, w, b) {
      assert Edge(heap, a, b);
    }
  }

  /** Freeing a dead object that no one reads through. */
  lemma FreeSolid(heap: map<Ref, Body>, c: Colours, w: bool, g: Roots, o: Ref)
    requires Solid(heap, c, w, g) && Dead(c, w, o)
    requires forall a :: a in heap && a != o ==> Values(heap - {o}, a) == Values(heap, a)
    ensures Solid(heap - {o}, c.(mark := c.mark - {o}), w, g)
  {
    var heap', c' := heap - {o}, c.(mark := c.mark - {o});
    forall a, b | a in heap' && !Dead(c', w, a) && Edge(heap', a, b) ensures b in heap' && !Dead(c', w, b) {
      assert Edge(heap, a, b) && !Dead(c, w, a);
    }
  }

  lemma LinkRootChain(heap: map<Ref, Body>, heap': map<Ref, Body>, l: Chains, gone: set<Ref>, o: Ref, k: nat)
    requires RootChainOK(heap, l.rootgc, gone) && k <= |l.rootgc|
    requires o !in l.rootgc && o !in gone && o in heap' && heap'[o].InRootList()
    requires forall x :: x != o ==> ((x in heap && heap[x].InRootList()) <==> (x in heap' && heap'[x].InRootList()))
    ensures RootChainOK(heap', Link(l, o, k).rootgc, gone)
  {
    var a, b := l.rootgc[..k], l.rootgc[k..];
    assert l.rootgc == a + b;
    assert forall x :: x in a ==> x in l.rootgc;
    assert forall x :: x in b ==> x in l.rootgc;
    forall x | x in a ensures x !in b {
    }
    NoDupConcat([o], b);
    NoDupConcat(a, [o] + b);
    assert a + [o] + b == a + ([o] + b);
    forall x ensures x in a + [o] + b <==> x == o || x in l.rootgc {
    }
  }

  // ---- One turn of luaF_close ----

  /** An upvalue closed while marking: black, with its value marked, if it had been marked. */
  lemma CloseMarking(heap: map<Ref, Body>, c: Colours, uv: Ref, v: Value)
    requires TriColour(heap, c, {}) && uv in heap && heap[uv].Open? && Values(heap, uv) == [v]
    ensures var heap' := heap[uv := Closed(v)];
            var c1 := SetMark(c, uv, Black);
            var c2 := if v.Some? && IsWhite(c1, v.value) then MarkObject(heap', c1, v.value) else c1;
            && (IsGray(c, uv) ==> TriColour(heap', c2, {}) && Darkens(c, c2))
            && (!IsGray(c, uv) ==> TriColour(heap', c, {}))
  {
    hide TriColour, NoWhiteChild, MarkObject, Edge, Marked;
    var heap' := heap[uv := Closed(v)];
    if IsGray(c, uv) {
      var c1 := SetMark(c, uv, Black);
      CloseGray(heap, c, uv, v);
      if v.Some? {
        CloseMarksValue(heap', c1, uv, v.value);
      } else {
        ClosedNil(heap', c1, uv);
      }
    } else {
      CloseWhite(heap, c, uv, v);
    }
  }

  lemma CloseWhite(heap: map<Ref, Body>, c: Colours, uv: Ref, v: Value)
    requires TriColour(heap, c, {}) && uv in heap && heap[uv].Open? && Values(heap, uv) == [v] && !IsGray(c, uv)
    ensures TriColour(heap[uv := Closed(v)], c, {})
  {
    hide Values;
    CloseValues(heap, uv, v);
    assert forall x :: NoWhiteChild(heap, c, x) ==> NoWhiteChild(heap[uv := Closed(v)], c, x);
    assert forall x :: IsGray(c, x) ==> Listed(heap, c, x);
  }

  lemma CloseGray(heap: map<Ref, Body>, c: Colours, uv: Ref, v: Value)
    requires TriColour(heap, c, {}) && uv in heap && heap[uv].Open? && Values(heap, uv) == [v] && IsGray(c, uv)
    ensures TriColour(heap[uv := Closed(v)], SetMark(c, uv, Black), {uv}) && Darkens(c, SetMark(c, uv, Black))
  {
    CloseValues(heap, uv, v);
    var heap', c1 := heap[uv := Closed(v)], SetMark(c, uv, Black);
    assert uv !in c.gray && uv !in c.grayagain;
    assert forall x :: NoWhiteChild(heap, c, x) ==> NoWhiteChild(heap', c, x);
    assert forall x :: NoWhiteChild(heap', c, x) ==> NoWhiteChild(heap', c1, x);
    forall x | IsGray(c1, x) ensures Listed(heap', c1, x) {
      assert Listed(heap, c, x);
    }
  }

  lemma CloseMarksValue(heap: map<Ref, Body>, c: Colours, uv: Ref, o: Ref)
    requires TriColour(heap, c, {uv}) && uv in heap && heap[uv] == Closed(Some(o))
    ensures var r := if IsWhite(c, o) then MarkObject(heap, c, o) else c; TriColour(heap, r, {}) && Darkens(c, r)
  {
    hide MarkObject, Marked;
    MarkObjectMarks(heap, c, o);
    MarkedTriColour(heap, c, MarkObject(heap, c, o), {uv});
    var r := if IsWhite(c, o) then MarkObject(heap, c, o) else c;
    NotBusy(heap, r, uv);
  }

  lemma ClosedNil(heap: map<Ref, Body>, c: Colours, uv: Ref)
    requires TriColour(heap, c, {uv}) && uv in heap && heap[uv] == Closed(None)
    ensures TriColour(heap, c, {})
  {
    NotBusy(heap, c, uv);
  }

  lemma NotBusy(heap: map<Ref, Body>, c: Colours, o: Ref)
    requires TriColour(heap, c, {o}) && NoWhiteChild(heap, c, o)
    ensures TriColour(heap, c, {})
  {
  }

  /** Where sweepgc is after a new head, and what lies before it. */
  lemma LinkSwept(heap: map<Ref, Body>, heap': map<Ref, Body>, c: Colours, c': Colours, w: bool, l: Chains, l': Chains,
                  o: Ref, k: nat, all: bool)
    requires Swept(heap, c, w, l, all) && l'.strt == l.strt && l.sweepgc <= |l.rootgc| && k <= |l.rootgc|
    requires l'.rootgc == Link(l, o, k).rootgc && l'.sweepgc == Link(l, o, k).sweepgc && l'.sweepstrgc == l.sweepstrgc
    requires Fresh(c', w, o) && forall x :: Fresh(c, w, x) && x in heap' ==> Fresh(c', w, x)
    requires forall x :: x != o && x in heap' ==> x in heap && heap'[x] == heap[x]
    requires o in heap' ==> heap'[o].InRootList()
    requires forall x :: x in c.mark && x in l.rootgc ==> x in heap'
    requires forall u :: u in heap' && heap'[u].Open? ==> heap'[u].thread != o
    ensures Swept(heap', c', w, l', all)
  {
    var p, p' := l.rootgc[..l.sweepgc], l'.rootgc[..l'.sweepgc];
    forall x | x in p' ensures x == o || x in p {
      if k < l.sweepgc {
        assert p' == l.rootgc[..k] + [o] + l.rootgc[k..l.sweepgc];
        assert p == l.rootgc[..k] + l.rootgc[k..l.sweepgc];
      } else {
        assert p' == p;
      }
    }
  }

  /** The upvalue at the head of t's list, and the value read through it. */
  lemma FirstUpval(s: State, t: Ref) returns (uv: Ref, v: Value)
    requires UpvalChainsOK(s.body, s.lists.openupval, s.lists.uvhead)
    requires t in s.lists.openupval && |s.lists.openupval[t]| > 0
    ensures uv == s.lists.openupval[t][0] && uv in s.body && s.body[uv].Open? && s.body[uv].thread == t
    ensures Values(s.body, uv) == [v]
    ensures CloseFirst(s, t) ==
            var s1 := s.(lists := Unchain(s.lists, t));
            if Dead(s.col, s.currentwhite, uv) then Free(s1, uv)
            else LinkUpval(s1.(body := s.body[uv := Closed(v)]), uv, v)
  {
    uv := s.lists.openupval[t][0];
    assert uv in s.lists.openupval[t];
    assert HasHome(s.body, s.lists.openupval, uv);
    v := Values(s.body, uv)[0];
  }

  lemma CloseChains(heap: map<Ref, Body>, heap': map<Ref, Body>, l: Chains, gone: set<Ref>, t: Ref)
    requires ChainsOK(heap, l, gone)
    requires t in l.openupval && |l.openupval[t]| > 0
    requires var uv := l.openupval[t][0]; uv in heap && heap[uv].Open? && uv !in gone && OnlyClosed(heap, heap', uv)
    ensures var uv := l.openupval[t][0];
            && (uv !in heap' ==> ChainsOK(heap', Unchain(l, t), gone))
            && (uv in heap' ==> ChainsOK(heap', Link(Unchain(l, t), uv, 0), gone))
  {
    var uv := l.openupval[t][0];
    UnchainUpvals(heap, heap', l, t);
    assert StringChainsOK(heap', l.strt) by {
      forall o | o in heap' && heap'[o].Str? ensures InBucket(heap', l.strt, o) {
        assert InBucket(heap, l.strt, o);
      }
    }
    if uv in heap' {
      LinkRootChain(heap, heap', Unchain(l, t), gone, uv, 0);
    }
  }

  lemma WhitenSolid(heap: map<Ref, Body>, c: Colours, w: bool, g: Roots, o: Ref)
    requires Solid(heap, c, w, g) && !Dead(c, w, o)
    ensures Solid(heap, SetMark(c, o, White(w)), w, g)
  {
    assert forall x :: Dead(SetMark(c, o, White(w)), w, x) == Dead(c, w, x);
  }

  lemma DarkensSolid(heap: map<Ref, Body>, c: Colours, c': Colours, w: bool, g: Roots)
    requires Solid(heap, c, w, g) && NoOtherWhite(c, w) && Darkens(c, c')
    ensures Solid(heap, c', w, g) && NoOtherWhite(c', w)
  {
    assert forall x :: x in c'.mark && IsWhite(c', x) ==> c'.mark[x] == c.mark[x];
    assert forall x :: !Dead(c, w, x) && !Dead(c', w, x);
  }

  lemma FreeSwept(heap: map<Ref, Body>, c: Colours, w: bool, l: Chains, l': Chains, o: Ref, all: bool)
    requires Swept(heap, c, w, l, all)
    requires l'.strt == l.strt && l'.rootgc == l.rootgc && l'.sweepgc == l.sweepgc && l'.sweepstrgc == l.sweepstrgc
    requires !Fresh(c, w, o)
    ensures Swept(heap - {o}, c.(mark := c.mark - {o}), w, l', all)
  {
  }

  lemma CloseRoots(heap: map<Ref, Body>, heap': map<Ref, Body>, g: Roots, fixed: set<Ref>, uv: Ref)
    requires RootsOK(heap, g, fixed) && uv in heap && heap[uv].Open? && OnlyClosed(heap, heap', uv)
    ensures RootsOK(heap', g, fixed)
  {
  }

  /** The upvalue is dead: it is freed. */
  lemma CloseDeadInv(s: State, r: State, t: Ref, uv: Ref, gone: set<Ref>)
    requires InvBut(s, gone) && t in s.lists.openupval && |s.lists.openupval[t]| > 0
    requires uv == s.lists.openupval[t][0] && uv in s.body && s.body[uv].Open? && uv !in gone
    requires Dead(s.col, s.currentwhite, uv)
    requires r == s.(body := s.body - {uv}, col := s.col.(mark := s.col.mark - {uv}), lists := Unchain(s.lists, t))
    ensures InvBut(r, gone)
  {
    hide RootChainOK, StringChainsOK, UpvalChainsOK, Without, Swept, RootsOK, Solid;
    assert s.gcstate == SweepString || s.gcstate == Sweep;
    FreeSwept(s.body, s.col, s.currentwhite, s.lists, r.lists, uv, s.gcstate == Sweep);
    CloseRoots(s.body, r.body, s.roots, s.fixed, uv);
    FreeSolid(s.body, s.col, s.currentwhite, s.roots, uv);
    CloseChains(s.body, r.body, s.lists, gone, t);
  }

  /** The colours after luaC_linkupval. */
  function LinkUpvalColours(heap: map<Ref, Body>, c: Colours, p: Phase, w: bool, uv: Ref, v: Value): Colours {
    if !IsGray(c, uv) then c
    else if p != Propagate then SetMark(c, uv, White(w))
    else
      var c1 := SetMark(c, uv, Black);
      if v.Some? && IsWhite(c1, v.value) then MarkObject(heap, c1, v.value) else c1
  }

  lemma LinkUpvalResult(s: State, uv: Ref, v: Value)
    ensures LinkUpval(s, uv, v) ==
            s.(lists := Link(s.lists, uv, 0), col := LinkUpvalColours(s.body, s.col, s.gcstate, s.currentwhite, uv, v))
  {
  }

  /** r is s with its upvalue uv closed, and chained as a closed one. */
  ghost predicate ClosedUpval(s: State, r: State, t: Ref, uv: Ref, v: Value)
    requires t in s.lists.openupval && |s.lists.openupval[t]| > 0
  {
    && uv == s.lists.openupval[t][0] && uv in s.body && s.body[uv].Open? && Values(s.body, uv) == [v]
    && r.body == s.body[uv := Closed(v)]
    && r.lists == Link(Unchain(s.lists, t), uv, 0)
    && r.col == LinkUpvalColours(r.body, s.col, s.gcstate, s.currentwhite, uv, v)
    && r.roots == s.roots && r.fixed == s.fixed && r.currentwhite == s.currentwhite && r.gcstate == s.gcstate
  }

  lemma CloseSolid(heap: map<Ref, Body>, c: Colours, w: bool, g: Roots, uv: Ref, v: Value)
    requires Solid(heap, c, w, g) && uv in heap && heap[uv].Open? && Values(heap, uv) == [v]
    ensures Solid(heap[uv := Closed(v)], c, w, g)
  {
    CloseValues(heap, uv, v);
    SameValuesSolid(heap, heap[uv := Closed(v)], c, w, g);
  }

  lemma CloseSwept(heap: map<Ref, Body>, c: Colours, w: bool, l: Chains, gone: set<Ref>, t: Ref, uv: Ref, v: Value,
                   all: bool)
    requires RootChainOK(heap, l.rootgc, gone) && UpvalChainsOK(heap, l.openupval, l.uvhead)
    requires l.sweepgc <= |l.rootgc| && Swept(heap, c, w, l, all)
    requires t in l.openupval && |l.openupval[t]| > 0 && uv in heap && heap[uv].Open?
    ensures Swept(heap[uv := Closed(v)], SetMark(c, uv, White(w)), w, Link(Unchain(l, t), uv, 0), all)
  {
    var heap' := heap[uv := Closed(v)];
    forall u | u in heap' && heap'[u].Open? ensures heap'[u].thread != uv {
      assert HasHome(heap, l.openupval, u);
    }
    LinkSwept(heap, heap', c, SetMark(c, uv, White(w)), w, l, Link(Unchain(l, t), uv, 0), uv, 0, all);
  }

  /** The upvalue is alive and the collector is marking. */
  lemma CloseWhileMarkingInv(s: State, r: State, t: Ref, uv: Ref, v: Value, gone: set<Ref>)
    requires InvBut(s, gone) && t in s.lists.openupval && |s.lists.openupval[t]| > 0
    requires ClosedUpval(s, r, t, uv, v) && s.gcstate == Propagate && uv !in gone
    ensures InvBut(r, gone)
  {
    CloseRoots(s.body, r.body, s.roots, s.fixed, uv);
    CloseSolid(s.body, s.col, s.currentwhite, s.roots, uv, v);
    CloseMarking(s.body, s.col, uv, v);
    if IsGray(s.col, uv) {
      DarkensSolid(r.body, s.col, r.col, s.currentwhite, s.roots);
    }
    hide Solid, NoOtherWhite, RootsOK;
    CloseChains(s.body, r.body, s.lists, gone, t);
  }

  lemma CloseWhileSweepingPhase(s: State, r: State, t: Ref, uv: Ref, v: Value, gone: set<Ref>)
    requires InvBut(s, gone) && t in s.lists.openupval && |s.lists.openupval[t]| > 0
    requires ClosedUpval(s, r, t, uv, v) && s.gcstate != Propagate && uv !in gone
    requires !Dead(s.col, s.currentwhite, uv)
    ensures r.col == SetMark(s.col, uv, White(s.currentwhite))
    ensures Coloured(r.body, r.col) && BlackKinds(r.body, r.col) && PhaseOK(r)
  {
    hide Swept, Solid, RootsOK, StringChainsOK, TriColour;
    assert r.col == SetMark(s.col, uv, White(s.currentwhite)) by {
      assert IsGray(s.col, uv) || s.col.mark == s.col.mark[uv := White(s.currentwhite)];
    }
    if s.gcstate == SweepString || s.gcstate == Sweep {
      CloseSwept(s.body, s.col, s.currentwhite, s.lists, gone, t, uv, v, s.gcstate == Sweep);
    }
  }

  /** The upvalue is alive and the collector is not marking. */
  lemma CloseWhileSweepingInv(s: State, r: State, t: Ref, uv: Ref, v: Value, gone: set<Ref>)
    requires InvBut(s, gone) && t in s.lists.openupval && |s.lists.openupval[t]| > 0
    requires ClosedUpval(s, r, t, uv, v) && s.gcstate != Propagate && uv !in gone
    requires !Dead(s.col, s.currentwhite, uv)
    ensures InvBut(r, gone)
  {
    hide Swept, PhaseOK, BlackKinds, Solid, RootsOK;
    CloseWhileSweepingPhase(s, r, t, uv, v, gone);
    CloseRoots(s.body, r.body, s.roots, s.fixed, uv);
    CloseSolid(s.body, s.col, s.currentwhite, s.roots, uv, v);
    WhitenSolid(r.body, s.col, s.currentwhite, s.roots, uv);
    CloseChains(s.body, r.body, s.lists, gone, t);
  }

  lemma CloseFirstInv(s: State, t: Ref, gone: set<Ref>)
    requires InvBut(s, gone) && t in s.lists.openupval && |s.lists.openupval[t]| > 0
    requires forall x :: x in gone && x in s.body ==> s.body[x].Thread?
    ensures InvBut(CloseFirst(s, t), gone)
  {
    var uv, v := FirstUpval(s, t);
    if Dead(s.col, s.currentwhite, uv) {
      CloseDeadInv(s, CloseFirst(s, t), t, uv, gone);
    } else {
      LinkUpvalResult(s.(lists := Unchain(s.lists, t), body := s.body[uv := Closed(v)]), uv, v);
      if s.gcstate == Propagate {
        CloseWhileMarkingInv(s, CloseFirst(s, t), t, uv, v, gone);
      } else {
        CloseWhileSweepingInv(s, CloseFirst(s, t), t, uv, v, gone);
      }
    }
  }
}
