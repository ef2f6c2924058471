/** The sweep of `rootgc`, with the open upvalues of each thread it passes. */
module GcSweeping {
  import opened Base
  import opened GcHeap
  import opened GcMarking
  import opened GcInvariant
  import opened GcClosing

  // ---- luaF_close ----

  /** What closing upvalues leaves alone. */
  ghost predicate OnlyUpvals(s: State, r: State) {
    && r.roots == s.roots && r.fixed == s.fixed && r.currentwhite == s.currentwhite && r.gcstate == s.gcstate
    && (forall o :: o in s.body && !s.body[o].Open? ==> o in r.body && r.body[o] == s.body[o])
    && (forall o :: o in r.body ==> o in s.body)
    && (forall o :: o in s.body && s.body[o].Thread? && o in s.col.mark && s.gcstate == Sweep ==>
         o in r.col.mark && r.col.mark[o] == s.col.mark[o])
  }

  lemma CloseFirstOnlyUpvals(s: State, t: Ref)
    requires UpvalChainsOK(s.body, s.lists.openupval, s.lists.uvhead)
    requires t in s.lists.openupval && |s.lists.openupval[t]| > 0
    ensures OnlyUpvals(s, CloseFirst(s, t))
    ensures CloseFirst(s, t).lists.openupval == s.lists.openupval[t := s.lists.openupval[t][1..]]
    ensures s.lists.openupval[t][0] in s.body && s.body[s.lists.openupval[t][0]].Open?
  {
    var uv, v := FirstUpval(s, t);
    LinkUpvalResult(s.(lists := Unchain(s.lists, t), body := s.body[uv := Closed(v)]), uv, v);
  }

  lemma CloseStep(s: State, t: Ref, gone: set<Ref>)
    requires InvBut(s, gone) && t in s.lists.openupval && |s.lists.openupval[t]| > 0
    requires forall x :: x in gone && x in s.body ==> s.body[x].Thread?
    ensures InvBut(CloseFirst(s, t), gone) && OnlyUpvals(s, CloseFirst(s, t))
    ensures CloseFirst(s, t).lists.openupval == s.lists.openupval[t := s.lists.openupval[t][1..]]
    ensures s.lists.openupval[t][0] in s.body && s.body[s.lists.openupval[t][0]].Open?
  {
    hide Solid, PhaseOK, RootsOK, BlackKinds, RootChainOK, StringChainsOK, UpvalChainsOK, CloseFirst;
    CloseFirstOnlyUpvals(s, t);
    CloseFirstInv(s, t, gone);
  }

  lemma OnlyUpvalsTransitive(s: State, t: State, r: State)
    requires OnlyUpvals(s, t) && OnlyUpvals(t, r)
    ensures OnlyUpvals(s, r)
  {
  }

  /** luaF_close keeps the invariant; at level 0 it leaves the thread without open upvalues. */
  lemma {:induction false} CloseInv(s: State, t: Ref, level: nat, gone: set<Ref>)
    requires InvBut(s, gone) && t in s.lists.openupval
    requires forall x :: x in gone && x in s.body ==> s.body[x].Thread?
    ensures InvBut(Close(s, t, level), gone) && OnlyUpvals(s, Close(s, t, level))
    ensures var r := Close(s, t, level);
            t in r.lists.openupval && (level == 0 ==> |r.lists.openupval[t]| == 0)
    decreases OpenCount(s, t)
  {
    hide InvBut, CloseFirst;
    if OpenCount(s, t) > 0 {
      CloseStep(s, t, gone);
      if s.body[s.lists.openupval[t][0]].index >= level {
        CloseInv(CloseFirst(s, t), t, level, gone);
        OnlyUpvalsTransitive(s, CloseFirst(s, t), Close(s, t, level));
      }
    }
  }

  // ---- One turn of sweeplist over `rootgc` ----

  lemma SweepOpenChains(s: State, t: Ref)
    requires s.col.mark.Keys == s.body.Keys && UpvalChainsOK(s.body, s.lists.openupval, s.lists.uvhead)
    requires t in s.lists.openupval
    ensures var r := SweepOpenUpvals(s, t);
            && UpvalChainsOK(r.body, r.lists.openupval, r.lists.uvhead)
            && SweptOut(s, r, Elems(s.lists.openupval[t]))
            && r.lists == s.lists.(openupval := r.lists.openupval, uvhead := r.lists.uvhead)
  {
    hide UpvalChainsOK, SweepChain;
    var us := s.lists.openupval[t];
    OpenMembers(s, t);
    SweepChainSweeps(s, us);
    var (r, rest) := SweepChain(s, us);
    SweptUpvals(s.body, r.body, s.lists.openupval, s.lists.uvhead, r.lists.uvhead, t, rest);
  }

  lemma OpenMembers(s: State, t: Ref)
    requires UpvalChainsOK(s.body, s.lists.openupval, s.lists.uvhead) && t in s.lists.openupval
    ensures NoDup(s.lists.uvhead) && NoDup(s.lists.openupval[t])
    ensures forall u :: u in s.lists.openupval[t] ==> u in s.body && s.body[u].Open?
  {
  }

  /** The open upvalues, once those of the thread t have been swept. */
  lemma SweptUpvals(heap: map<Ref, Body>, heap': map<Ref, Body>, upvals: map<Ref, seq<Ref>>,
                    uvhead: seq<Ref>, uvhead': seq<Ref>, t: Ref, rest: seq<Ref>)
    requires UpvalChainsOK(heap, upvals, uvhead) && t in upvals
    requires NoDup(rest) && forall u :: u in rest ==> u in upvals[t]
    requires forall o :: o in heap' <==> o in heap && (o in upvals[t] ==> o in rest)
    requires forall o :: o in heap' ==> heap'[o] == heap[o]
    requires NoDup(uvhead') && forall u :: u in uvhead' <==> u in uvhead && (u in upvals[t] ==> u in rest)
    ensures UpvalChainsOK(heap', upvals[t := rest], uvhead')
  {
    var upvals' := upvals[t := rest];
    forall x, u | x in upvals' && u in upvals'[x] ensures u in heap' && heap'[u].Open? && heap'[u].thread == x {
      assert u in upvals[x];
    }
    forall u | u in heap' && heap'[u].Open? ensures HasHome(heap', upvals', u) {
      assert HasHome(heap, upvals, u);
    }
  }

  lemma SweptOutChains(s: State, r: State, l: set<Ref>)
    requires RootChainOK(s.body, s.lists.rootgc, {}) && StringChainsOK(s.body, s.lists.strt)
    requires SweptOut(s, r, l) && forall o :: o in l && o in s.body ==> s.body[o].Open?
    ensures RootChainOK(r.body, s.lists.rootgc, {}) && StringChainsOK(r.body, s.lists.strt)
  {
    forall o | o in r.body && r.body[o].Str? ensures InBucket(r.body, s.lists.strt, o) {
      assert InBucket(s.body, s.lists.strt, o);
    }
  }

  lemma UpvalsOf(heap: map<Ref, Body>, openupval: map<Ref, seq<Ref>>, uvhead: seq<Ref>, t: Ref)
    requires UpvalChainsOK(heap, openupval, uvhead) && t in openupval
    ensures forall u :: u in Elems(openupval[t]) <==> u in heap && heap[u].Open? && heap[u].thread == t
  {
    forall u | u in heap && heap[u].Open? && heap[u].thread == t ensures u in openupval[t] {
      assert HasHome(heap, openupval, u);
    }
  }

  lemma SweptUpvalsInv(s: State, r: State, l: set<Ref>)
    requires Inv(s) && s.gcstate == Sweep
    requires SweptOut(s, r, l) && forall o :: o in l ==> o in s.body && s.body[o].Open?
    requires UpvalChainsOK(r.body, r.lists.openupval, r.lists.uvhead)
    requires r.lists == s.lists.(openupval := r.lists.openupval, uvhead := r.lists.uvhead)
    ensures Inv(r)
  {
    hide UpvalChainsOK, RootChainOK, StringChainsOK;
    SweptOutChains(s, r, l);
    SweptOutSolid(s, r, l);
  }

  lemma SweepOpenInv(s: State, t: Ref)
    requires Inv(s) && s.gcstate == Sweep && t in s.lists.openupval
    ensures var r := SweepOpenUpvals(s, t);
            && Inv(r) && SweptOut(s, r, Elems(s.lists.openupval[t]))
            && r.lists == s.lists.(openupval := r.lists.openupval, uvhead := r.lists.uvhead)
            && forall u :: u in r.body && r.body[u].Open? && r.body[u].thread == t ==> Fresh(r.col, r.currentwhite, u)
  {
    hide UpvalChainsOK, RootChainOK, StringChainsOK, RootsOK, Solid, PhaseOK, SweepOpenUpvals;
    SweepOpenChains(s, t);
    UpvalsOf(s.body, s.lists.openupval, s.lists.uvhead, t);
    SweptUpvalsInv(s, SweepOpenUpvals(s, t), Elems(s.lists.openupval[t]));
  }

  /** The object under `sweepgc` survives: it turns white, and the sweep moves past it. */
  lemma PassSwept(heap: map<Ref, Body>, c: Colours, w: bool, l: Chains, o: Ref)
    requires RootChainOK(heap, l.rootgc, {}) && Swept(heap, c, w, l, true)
    requires l.sweepgc < |l.rootgc| && o == l.rootgc[l.sweepgc] && c.mark.Keys == heap.Keys
    requires forall u :: u in heap && heap[u].Open? && heap[u].thread == o ==> Fresh(c, w, u)
    ensures Swept(heap, SetMark(c, o, White(w)), w, l.(sweepgc := l.sweepgc + 1), true)
  {
    var i := l.sweepgc;
    assert l.rootgc[..i + 1] == l.rootgc[..i] + [o];
    assert o in l.rootgc;
  }

  lemma PassRootInv(s: State, o: Ref)
    requires Inv(s) && s.gcstate == Sweep && s.lists.sweepgc < |s.lists.rootgc| && o == s.lists.rootgc[s.lists.sweepgc]
    requires Survives(s, o)
    requires forall u :: u in s.body && s.body[u].Open? && s.body[u].thread == o ==> Fresh(s.col, s.currentwhite, u)
    ensures Inv(s.(col := SetMark(s.col, o, White(s.currentwhite)),
                   lists := s.lists.(sweepgc := s.lists.sweepgc + 1)))
  {
    hide Swept, UpvalChainsOK, StringChainsOK, RootChainOK, Solid, RootsOK;
    PassedAlive(s, o);
    PassSwept(s.body, s.col, s.currentwhite, s.lists, o);
    WhitenSolid(s.body, s.col, s.currentwhite, s.roots, o);
  }

  lemma PassedAlive(s: State, o: Ref)
    requires Inv(s) && s.lists.sweepgc < |s.lists.rootgc| && o == s.lists.rootgc[s.lists.sweepgc] && Survives(s, o)
    ensures o in s.body && o in s.col.mark && !s.body[o].Str? && !Dead(s.col, s.currentwhite, o)
  {
    hide StringChainsOK, UpvalChainsOK, PhaseOK, BlackKinds;
    assert o in s.lists.rootgc;
    assert Root(s.roots, s.roots.mainthread);
  }

  lemma CutRootChain(heap: map<Ref, Body>, l: Chains, o: Ref)
    requires RootChainOK(heap, l.rootgc, {}) && l.sweepgc < |l.rootgc| && o == l.rootgc[l.sweepgc]
    ensures RootChainOK(heap, Cut(l).rootgc, {o})
    ensures Cut(l).rootgc[..l.sweepgc] == l.rootgc[..l.sweepgc]
  {
    var i := l.sweepgc;
    var a, b := l.rootgc[..i], l.rootgc[i + 1..];
    assert l.rootgc == a + [o] + b;
    forall x ensures x in a + b <==> x in l.rootgc && x != o {
    }
  }

  lemma CutSwept(heap: map<Ref, Body>, c: Colours, w: bool, l: Chains)
    requires Swept(heap, c, w, l, true) && l.sweepgc < |l.rootgc|
    ensures Swept(heap, c, w, Cut(l), true)
  {
    assert Cut(l).rootgc[..l.sweepgc] == l.rootgc[..l.sweepgc];
  }

  lemma RootMember(heap: map<Ref, Body>, chain: seq<Ref>, i: nat)
    requires RootChainOK(heap, chain, {}) && i < |chain|
    ensures chain[i] in heap && heap[chain[i]].InRootList()
  {
    assert chain[i] in chain;
  }

  lemma CutRootInv(s: State, o: Ref)
    requires Inv(s) && s.gcstate == Sweep && s.lists.sweepgc < |s.lists.rootgc| && o == s.lists.rootgc[s.lists.sweepgc]
    ensures InvBut(s.(lists := Cut(s.lists)), {o})
    ensures o in s.body && s.body[o].InRootList()
  {
    hide Coloured, Solid, RootsOK, BlackKinds, RootChainOK, UpvalChainsOK, StringChainsOK, Swept;
    CutRootChain(s.body, s.lists, o);
    CutSwept(s.body, s.col, s.currentwhite, s.lists);
    RootMember(s.body, s.lists.rootgc, s.lists.sweepgc);
  }

  lemma FreeRootChains(heap: map<Ref, Body>, l: Chains, o: Ref)
    requires ChainsOK(heap, l, {o}) && o in heap && heap[o].InRootList()
    requires o in l.openupval ==> |l.openupval[o]| == 0
    ensures ChainsOK(heap - {o}, l.(openupval := l.openupval - {o}), {})
    ensures forall a :: a in heap && a != o ==> Values(heap - {o}, a) == Values(heap, a)
  {
    var heap', upvals' := heap - {o}, l.openupval - {o};
    forall u | u in heap' && heap'[u].Open? ensures HasHome(heap', upvals', u) && heap'[u].thread != o {
      assert HasHome(heap, l.openupval, u);
    }
    forall x | x in heap' && heap'[x].Str? ensures InBucket(heap', l.strt, x) {
      assert InBucket(heap, l.strt, x);
    }
  }

  lemma FreeRootSolid(heap: map<Ref, Body>, c: Colours, w: bool, g: Roots, fixed: set<Ref>, o: Ref)
    requires RootsOK(heap, g, fixed) && Solid(heap, c, w, g) && Dead(c, w, o) && o !in fixed
    requires forall a :: a in heap && a != o ==> Values(heap - {o}, a) == Values(heap, a)
    ensures RootsOK(heap - {o}, g, fixed) && Solid(heap - {o}, c.(mark := c.mark - {o}), w, g)
  {
    FreeSolid(heap, c, w, g, o);
    assert Root(g, g.mainthread) && Root(g, g.running);
  }

  lemma FreeRootInv(s: State, o: Ref)
    requires InvBut(s, {o}) && s.gcstate == Sweep && o in s.body && s.body[o].InRootList()
    requires Dead(s.col, s.currentwhite, o) && o !in s.fixed
    requires o in s.lists.openupval ==> |s.lists.openupval[o]| == 0
    ensures Inv(FreeRoot(s, o))
  {
    hide Swept, RootsOK, Solid, RootChainOK, UpvalChainsOK, StringChainsOK;
    var r := FreeRoot(s, o);
    FreeSwept(s.body, s.col, s.currentwhite, s.lists, r.lists, o, true);
    FreeRootChains(s.body, s.lists, o);
    FreeRootSolid(s.body, s.col, s.currentwhite, s.roots, s.fixed, o);
  }

  lemma UpvalThreads(heap: map<Ref, Body>, l: Chains)
    requires UpvalChainsOK(heap, l.openupval, l.uvhead)
    ensures forall u :: u in heap && heap[u].Open? ==> heap[u].thread in heap && heap[heap[u].thread].Thread?
  {
    forall u | u in heap && heap[u].Open? ensures heap[u].thread in heap && heap[heap[u].thread].Thread? {
      assert HasHome(heap, l.openupval, u);
    }
  }

  lemma CutAndFreeInv(s: State, o: Ref)
    requires Inv(s) && s.gcstate == Sweep && s.lists.sweepgc < |s.lists.rootgc| && o == s.lists.rootgc[s.lists.sweepgc]
    requires Dead(s.col, s.currentwhite, o) && o !in s.fixed
    ensures var s1 := s.(lists := Cut(s.lists));
            o in s.body && Inv(FreeRoot(if s.body[o].Thread? then Close(s1, o, 0) else s1, o))
  {
    CutRootInv(s, o);
    var s1 := s.(lists := Cut(s.lists));
    if s.body[o].Thread? {
      CloseInv(s1, o, 0, {o});
      hide InvBut, Close;
      FreeRootInv(Close(s1, o, 0), o);
    } else {
      FreeRootInv(s1, o);
    }
  }

  lemma UnderPointer(s: State)
    requires Inv(s) && s.lists.sweepgc < |s.lists.rootgc|
    ensures var o := s.lists.rootgc[s.lists.sweepgc];
            o in s.body && o in s.col.mark && s.body[o].InRootList() && (s.body[o].Thread? <==> o in s.lists.openupval)
  {
    hide StringChainsOK, PhaseOK, RootsOK, Solid;
    assert s.lists.rootgc[s.lists.sweepgc] in s.lists.rootgc;
  }

  lemma SweepHereInv(s: State)
    requires Inv(s) && s.gcstate == Sweep && s.lists.sweepgc < |s.lists.rootgc|
    requires forall u :: u in s.body && s.body[u].Open? && s.body[u].thread == s.lists.rootgc[s.lists.sweepgc] ==>
               Fresh(s.col, s.currentwhite, u)
    ensures Inv(SweepHere(s))
  {
    hide Coloured, BlackKinds, ChainsOK, RootsOK, Solid, PhaseOK, Close, FreeRoot;
    var o := s.lists.rootgc[s.lists.sweepgc];
    UnderPointer(s);
    if Survives(s, o) {
      PassRootInv(s, o);
    } else {
      CutAndFreeInv(s, o);
    }
  }

  /** One turn of sweeplist over `rootgc` keeps the invariant. */
  lemma SweepRootInv(s: State)
    requires Inv(s) && s.gcstate == Sweep && s.lists.sweepgc < |s.lists.rootgc|
    ensures Inv(SweepRoot(s))
  {
    var o := s.lists.rootgc[s.lists.sweepgc];
    assert o in s.lists.rootgc;
    UpvalThreads(s.body, s.lists);
    assert s.body[o].Thread? ==> o in s.lists.openupval;
    hide InvBut, SweepHere, SweepOpenUpvals;
    if s.body[o].Thread? {
      SweepOpenInv(s, o);
      SweepHereInv(SweepOpenUpvals(s, o));
    } else {
      SweepHereInv(s);
    }
  }

  lemma {:induction false} SweepRootsInv(s: State, count: nat)
    requires Inv(s) && s.gcstate == Sweep
    ensures Inv(SweepRoots(s, count))
    decreases count
  {
    hide Inv, SweepRoot;
    if count > 0 && s.lists.sweepgc < |s.lists.rootgc| {
      SweepRootInv(s);
      SweepRootsInv(SweepRoot(s), count - 1);
    }
  }

  // ---- A string table of another size ----

  /** The strings of one old bucket are chained into the new table. */
  lemma {:induction false} RechainedKeeps(heap: map<Ref, Body>, l: seq<Ref>, strt: seq<seq<Ref>>, more: set<Ref>)
    requires NoDup(l) && forall o :: o in l ==> o in heap && heap[o].Str? && o !in more
    requires |strt| > 0 && StringChainsBut(heap, strt, Elems(l) + more)
    ensures StringChainsBut(heap, Rechained(heap, l, strt), more)
    decreases |l|
  {
    if |l| == 0 {
      assert Elems(l) + more == more;
    } else {
      var o, rest := l[0], l[1..];
      assert l == [o] + rest;
      RechainOne(heap, o, strt, Elems(rest) + more);
      assert Elems(l) + more == Elems(rest) + more + {o};
      RechainedKeeps(heap, rest, ChainIn(heap, o, strt), more);
    }
  }

  lemma RechainOne(heap: map<Ref, Body>, o: Ref, strt: seq<seq<Ref>>, more: set<Ref>)
    requires o in heap && heap[o].Str? && o !in more && |strt| > 0 && StringChainsBut(heap, strt, more + {o})
    ensures StringChainsBut(heap, ChainIn(heap, o, strt), more)
  {
    var i := Bucket(heap[o].hash, |strt|);
    var strt' := ChainIn(heap, o, strt);
    assert o !in strt[i];
    NoDupConcat([o], strt[i]);
    forall j, x | 0 <= j < |strt'| && x in strt'[j] ensures BelongsIn(heap, x, j, |strt'|) && x !in more {
      assert x == o || x in strt[j];
    }
    forall x | x in heap && heap[x].Str? ensures x in more || InBucket(heap, strt', x) {
      if x != o {
        assert x in more || InBucket(heap, strt, x);
      }
    }
  }

  ghost function Chained(strt: seq<seq<Ref>>): set<Ref> { set i, o | 0 <= i < |strt| && o in strt[i] :: o }

  lemma {:induction false} AllRechainedKeeps(heap: map<Ref, Body>, buckets: seq<seq<Ref>>, strt: seq<seq<Ref>>)
    requires forall i :: 0 <= i < |buckets| ==> NoDup(buckets[i])
    requires forall i, o {:trigger o in buckets[i]} :: 0 <= i < |buckets| && o in buckets[i] ==>
               o in heap && heap[o].Str?
    requires forall i, j, o :: 0 <= i < j < |buckets| && o in buckets[i] ==> o !in buckets[j]
    requires |strt| > 0 && StringChainsBut(heap, strt, Chained(buckets))
    ensures StringChainsOK(heap, AllRechained(heap, buckets, strt))
    decreases |buckets|
  {
    if |buckets| == 0 {
      assert Chained(buckets) == {};
    } else {
      var l, rest := buckets[0], buckets[1..];
      assert Chained(buckets) == Elems(l) + Chained(rest) by {
        forall o | o in Chained(buckets) ensures o in Elems(l) + Chained(rest) {
          var i :| 0 <= i < |buckets| && o in buckets[i];
          assert i > 0 ==> rest[i - 1] == buckets[i];
        }
        forall o | o in Chained(rest) ensures o in Chained(buckets) {
          var i :| 0 <= i < |rest| && o in rest[i];
          assert o in buckets[i + 1];
        }
      }
      forall o | o in l ensures o !in Chained(rest) {
        assert forall i :: 0 <= i < |rest| ==> rest[i] == buckets[i + 1];
      }
      RechainedKeeps(heap, l, strt, Chained(rest));
      AllRechainedKeeps(heap, rest, Rechained(heap, l, strt));
    }
  }

  /** A new size for the string table: every string is chained in its new bucket. */
  lemma ResizedChains(heap: map<Ref, Body>, strt: seq<seq<Ref>>, n: nat)
    requires StringChainsOK(heap, strt) && n > 0
    ensures StringChainsOK(heap, AllRechained(heap, strt, seq(n, _ => [])))
  {
    assert forall i, o :: 0 <= i < |strt| && o in strt[i] ==> BelongsIn(heap, o, i, |strt|);
    forall o | o in heap && heap[o].Str? ensures o in Chained(strt) {
      assert InBucket(heap, strt, o);
    }
    AllRechainedKeeps(heap, strt, seq(n, _ => []));
  }

  /** luaS_resize; without its guard the pointer into the string table would skip strings. */
  lemma ResizedInv(s: State, n: nat)
    requires Inv(s) && n > 0
    ensures Inv(Resized(s, n))
  {
    hide RootChainOK, UpvalChainsOK, RootsOK, Solid, BlackKinds, StringChainsOK;
    if s.gcstate != SweepString {
      ResizedChains(s.body, s.lists.strt, n);
    }
  }

  lemma CheckSizesInv(s: State)
    requires Inv(s)
    ensures Inv(CheckSizes(s))
  {
    hide Inv, Resized, StringCount;
    if |s.lists.strt| > MINSTRTABSIZE * 2 {
      ResizedInv(s, |s.lists.strt| / 2);
    }
  }

  lemma EndSweepInv(s: State)
    requires Inv(s) && s.gcstate == Sweep && s.lists.sweepgc == |s.lists.rootgc|
    ensures Inv(s.(gcstate := Finalize))
  {
    hide Solid, RootsOK, BlackKinds;
    assert s.lists.rootgc[..s.lists.sweepgc] == s.lists.rootgc;
    UpvalThreads(s.body, s.lists);
    forall o | o in s.col.mark ensures Fresh(s.col, s.currentwhite, o) {
      if s.body[o].Str? {
        assert InBucket(s.body, s.lists.strt, o);
      } else if s.body[o].Open? {
        assert s.body[o].thread in s.lists.rootgc;
      } else {
        assert o in s.lists.rootgc;
      }
    }
  }

  /** Every single step of the collector keeps the invariant. */
  lemma SingleStepInv(s: State)
    requires Inv(s)
    ensures Inv(SingleStep(s))
  {
    match s.gcstate
    case Pause => MarkRootInv(s);
    case Propagate =>
      if |s.col.gray| > 0 {
        PropagateMarkInv(s);
      } else {
        AtomicInv(s);
      }
    case SweepString => SweepBucketInv(s);
    case Sweep =>
      SweepRootsInv(s, GCSWEEPMAX);
      var r := SweepRoots(s, GCSWEEPMAX);
      assert r.gcstate == Sweep;
      if r.lists.sweepgc >= |r.lists.rootgc| {
        CheckSizesInv(r);
        EndSweepInv(CheckSizes(r));
      }
    case Finalize =>
  }
}
