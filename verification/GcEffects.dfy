/** What each event does to the heap, as the program reads it. */
module GcEffects {
  import opened Base
  import opened GcHeap
  import opened GcMarking
  import opened GcInvariant
  import opened GcClosing
  import opened GcSweeping
  import opened GcMutator
  import opened GcSafety
  import opened GcExact

  /** What can be read through the objects of s, but for those in `but`, can be read as before. */
  ghost predicate ReadsSame(s: State, r: State, but: set<Ref>) {
    forall a :: a in s.body && a !in but ==> a in r.body && Values(r.body, a) == Values(s.body, a)
  }

  /** The place that is read through slot j of a: an open upvalue stands for a stack slot. */
  function Place(heap: map<Ref, Body>, a: Ref, j: nat): (Ref, nat) {
    if a in heap && heap[a].Open? then (heap[a].thread, heap[a].index) else (a, j)
  }

  /** The same objects exist, but v is read from one place, by everyone who reads it, and nothing else has changed. */
  ghost predicate Writes(s: State, r: State, place: (Ref, nat), v: Value) {
    && r.body.Keys == s.body.Keys && r.roots == s.roots && r.fixed == s.fixed
    && forall a :: a in s.body ==>
         && |Values(r.body, a)| == |Values(s.body, a)|
         && forall j :: 0 <= j < |Values(s.body, a)| ==>
              Values(r.body, a)[j] == if Place(s.body, a, j) == place then v else Values(s.body, a)[j]
  }

  // ---- Writes ----

  /** A slot of a table, a function, a prototype or a userdata. */
  lemma SetSlotEffect(s: State, o: Ref, i: nat, v: Value)
    requires Inv(s) && Allowed(s, SetSlot(o, i, v))
    ensures var r := Apply(s, SetSlot(o, i, v));
            && r.body.Keys == s.body.Keys && r.roots == s.roots && r.fixed == s.fixed && ReadsSame(s, r, {o})
            && SameKind(s.body[o], r.body[o])
            && i < |Values(r.body, o)| && Values(r.body, o)[i] == v
            && |Values(r.body, o)| == (if i < |Values(s.body, o)| then |Values(s.body, o)| else i + 1)
            && forall j :: 0 <= j < |Values(s.body, o)| && j != i ==> Values(r.body, o)[j] == Values(s.body, o)[j]
  {
    hide Reachable, Inv, BarrierForward, BarrierBack, Held;
    var r := Apply(s, SetSlot(o, i, v));
    forall a | a in s.body && a != o ensures a in r.body && Values(r.body, a) == Values(s.body, a) {
      if s.body[a].Open? {
        assert s.body[a].thread == o ==> !s.body[o].Thread?;
      }
    }
  }

  /** A new field may be added; an old one is overwritten. */
  lemma SetSlotWrites(s: State, o: Ref, i: nat, v: Value)
    requires Inv(s) && Allowed(s, SetSlot(o, i, v)) && i < |Values(s.body, o)|
    ensures Writes(s, Apply(s, SetSlot(o, i, v)), (o, i), v)
  {
    hide Inv, Apply, Allowed, Values;
    SetSlotEffect(s, o, i, v);
    var r := Apply(s, SetSlot(o, i, v));
    forall a | a in s.body
      ensures |Values(r.body, a)| == |Values(s.body, a)|
      ensures forall j :: 0 <= j < |Values(s.body, a)| ==>
                Values(r.body, a)[j] == if Place(s.body, a, j) == (o, i) then v else Values(s.body, a)[j]
    {
      SlotOwner(s, o, i, v, a);
    }
  }

  /** No open upvalue stands for a slot of an object that is not a thread. */
  lemma SlotOwner(s: State, o: Ref, i: nat, v: Value, a: Ref)
    requires Inv(s) && Allowed(s, SetSlot(o, i, v)) && a in s.body
    ensures forall j: nat :: Place(s.body, a, j).0 == o ==> a == o && Place(s.body, a, j) == (o, j)
  {
    hide RootChainOK, StringChainsOK, RootsOK, Solid, PhaseOK, BlackKinds, Reachable;
    if s.body[a].Open? {
      assert HasHome(s.body, s.lists.openupval, a);
    }
  }

  /** One place of the heap takes another value. */
  lemma WritePlace(s: State, r: State, o: Ref, v: Value, t: Ref, i: nat)
    requires UpvalChainsOK(s.body, s.lists.openupval, s.lists.uvhead) && r.roots == s.roots && r.fixed == s.fixed
    requires t in s.body && Place(s.body, o, 0) == (t, i) && o in s.body
    requires if s.body[o].Open? then s.body[t].Thread? && i < |s.body[t].slots|
      else o == t && i == 0 && s.body[o].Closed?
    requires r.body == s.body[t := if s.body[o].Open? then Thread(s.body[t].slots[i := v]) else Closed(v)]
    ensures Writes(s, r, (t, i), v) && Values(r.body, o) == [v]
  {
    forall a | a in s.body
      ensures |Values(r.body, a)| == |Values(s.body, a)|
      ensures forall j :: 0 <= j < |Values(s.body, a)| ==>
                Values(r.body, a)[j] == if Place(s.body, a, j) == (t, i) then v else Values(s.body, a)[j]
    {
      if s.body[a].Open? {
        assert HasHome(s.body, s.lists.openupval, a);
      }
    }
  }

  /** An upvalue: everyone who reads its variable, through it, through the stack or otherwise, reads v. */
  lemma SetUpvalWrites(s: State, o: Ref, v: Value)
    requires Inv(s) && Allowed(s, SetUpval(o, v))
    ensures Writes(s, Apply(s, SetUpval(o, v)), Place(s.body, o, 0), v)
    ensures Values(Apply(s, SetUpval(o, v)).body, o) == [v]
  {
    hide RootChainOK, StringChainsOK, UpvalChainsOK, RootsOK, Solid, PhaseOK, BlackKinds, Reachable, Writes, Values;
    if s.body[o].Open? {
      OpenHome(s, o);
    }
    var place := Place(s.body, o, 0);
    WritePlace(s, Apply(s, SetUpval(o, v)), o, v, place.0, place.1);
  }

  lemma OpenHome(s: State, u: Ref)
    requires Inv(s) && u in s.body && s.body[u].Open?
    ensures var t := s.body[u].thread; t in s.body && s.body[t].Thread? && s.body[u].index < |s.body[t].slots|
    ensures var t := s.body[u].thread; t in s.lists.openupval && u in s.lists.openupval[t]
  {
    hide RootChainOK, StringChainsOK, RootsOK, Solid, PhaseOK, BlackKinds;
    assert HasHome(s.body, s.lists.openupval, u);
  }

  /** The stack of a thread: its slots, and the open upvalues that stand for them, read the given values. */
  lemma SetStackEffect(s: State, t: Ref, slots: seq<Value>)
    requires Inv(s) && Allowed(s, SetStack(t, slots))
    ensures var r := Apply(s, SetStack(t, slots));
            && r.body.Keys == s.body.Keys && r.roots == s.roots && r.fixed == s.fixed
            && Values(r.body, t) == slots
            && (forall u :: u in s.body && s.body[u].Open? && s.body[u].thread == t ==>
                  s.body[u].index < |slots| && Values(r.body, u) == [slots[s.body[u].index]])
            && forall a :: a in s.body && a != t && !(s.body[a].Open? && s.body[a].thread == t) ==>
                 Values(r.body, a) == Values(s.body, a)
  {
    hide Reachable, Inv;
  }

  /** The metatable of a basic type. */
  lemma SetMetatableEffect(s: State, i: nat, v: Value)
    requires Allowed(s, SetMetatable(i, v))
    ensures var r := Apply(s, SetMetatable(i, v));
            && r.body == s.body && |r.roots.mt| == |s.roots.mt| && r.roots.mt[i] == v
            && (forall j :: 0 <= j < |s.roots.mt| && j != i ==> r.roots.mt[j] == s.roots.mt[j])
            && r.roots.mainthread == s.roots.mainthread && r.roots.registry == s.roots.registry
            && r.roots.running == s.roots.running && r.fixed == s.fixed
            && (v.Some? ==> Reachable(r.body, r.roots, v.value))
  {
    if v.Some? {
      var r := Apply(s, SetMetatable(i, v));
      assert r.roots.mt[i] in r.roots.mt;
      RootReachable(r.body, r.roots, v.value);
    }
  }

  /** A string with the bit FIXEDBIT; another running thread. */
  lemma FixResumeEffect(s: State, o: Ref, t: Ref)
    ensures var r := Apply(s, Fix(o)); r.body == s.body && r.roots == s.roots && r.fixed == s.fixed + {o}
    ensures var r := Apply(s, Resume(t));
            r.body == s.body && r.fixed == s.fixed && r.roots.running == t
            && r.roots.mainthread == s.roots.mainthread && r.roots.registry == s.roots.registry
            && r.roots.mt == s.roots.mt
            && Reachable(r.body, r.roots, t)
  {
    RootReachable(s.body, Apply(s, Resume(t)).roots, t);
  }

  lemma RootReachable(heap: map<Ref, Body>, g: Roots, o: Ref)
    requires Root(g, o)
    ensures Reachable(heap, g, o)
  {
    assert Path(heap, g, [o]) && [o][|[o]| - 1] == o;
  }

  lemma EdgeReachable(heap: map<Ref, Body>, g: Roots, a: Ref, b: Ref)
    requires Reachable(heap, g, a) && Edge(heap, a, b)
    ensures Reachable(heap, g, b)
  {
    ReachSetClosed(heap, g);
    assert a in ReachSet(heap, g);
  }

  /** What has been stored in a reachable object is reachable itself. */
  lemma SetSlotReaches(s: State, o: Ref, i: nat, v: Value)
    requires Inv(s) && Allowed(s, SetSlot(o, i, v)) && v.Some?
    ensures var r := Apply(s, SetSlot(o, i, v)); Reachable(r.body, r.roots, o) && Reachable(r.body, r.roots, v.value)
  {
    hide Apply, Inv, Values;
    var r := Apply(s, SetSlot(o, i, v));
    SetSlotEffect(s, o, i, v);
    var p :| Path(s.body, s.roots, p) && p[|p| - 1] == o;
    PathKept(s, r, o, p);
    assert Edge(r.body, o, v.value) by {
      assert Values(r.body, o)[i] in Values(r.body, o);
    }
    EdgeReachable(r.body, r.roots, o, v.value);
  }

  /** A path to o is still there, up to where it first meets o. */
  lemma {:induction false} PathKept(s: State, r: State, o: Ref, p: seq<Ref>)
    requires Path(s.body, s.roots, p) && p[|p| - 1] == o && r.roots == s.roots && ReadsSame(s, r, {o})
    ensures Reachable(r.body, r.roots, o)
    decreases |p|
  {
    if k :| 0 <= k < |p| - 1 && p[k] == o {
      PathKept(s, r, o, p[..k + 1]);
    } else {
      forall i | 0 < i < |p| ensures Edge(r.body, p[i - 1], p[i]) {
        assert Edge(s.body, p[i - 1], p[i]) && p[i - 1] != o;
      }
      assert Path(r.body, r.roots, p);
    }
  }

  // ---- New objects ----

  /** v has been left on top of the stack of the running thread; everything else reads as before. */
  ghost predicate Pushes(s: State, r: State, v: Value) {
    && r.roots == s.roots && r.fixed == s.fixed
    && s.roots.running in s.body && s.roots.running in r.body
    && Values(r.body, s.roots.running) == Values(s.body, s.roots.running) + [v]
    && ReadsSame(s, r, {s.roots.running})
    && (v.Some? ==> Reachable(r.body, r.roots, v.value))
  }

  /** Pushing leaves the slots below, and the upvalues that stand for them. */
  lemma PushPushes(s: State, m: State, v: Value)
    requires Inv(s) && m.roots == s.roots && m.fixed == s.fixed && ReadsSame(s, m, {})
    requires s.roots.running in m.body && m.body[s.roots.running] == s.body[s.roots.running]
    requires forall u :: u in m.body && m.body[u].Open? && m.body[u].thread == s.roots.running ==>
               m.body[u].index < |Values(s.body, s.roots.running)|
    ensures Pushes(s, Push(m, v), v) && Push(m, v).body.Keys == m.body.Keys
    ensures forall a :: a in m.body && a != s.roots.running ==> Push(m, v).body[a] == m.body[a]
    ensures forall a :: a in m.body && a != s.roots.running ==> Values(Push(m, v).body, a) == Values(m.body, a)
  {
    hide ChainsOK, Solid, PhaseOK, BlackKinds;
    var t, r := s.roots.running, Push(m, v);
    assert r.body == m.body[t := Thread(m.body[t].slots + [v])];
    if v.Some? {
      RootReachable(r.body, r.roots, t);
      assert Values(r.body, t)[|Values(r.body, t)| - 1] == v;
      assert Edge(r.body, t, v.value);
      EdgeReachable(r.body, r.roots, t, v.value);
    }
  }

  /** The open upvalues of the running thread stand for slots of its stack. */
  lemma RunningUpvals(s: State)
    requires Inv(s)
    ensures var t := s.roots.running;
            && t in s.body && s.body[t].Thread? && t in s.lists.openupval
            && forall u :: u in s.body && s.body[u].Open? && s.body[u].thread == t ==>
                 u in s.lists.openupval[t] && s.body[u].index < |Values(s.body, t)|
  {
    hide RootChainOK, StringChainsOK, Solid, PhaseOK, BlackKinds;
    forall u | u in s.body && s.body[u].Open? ensures HasHome(s.body, s.lists.openupval, u) {
    }
  }

  lemma ExtendReads(s: State, m: State, o: Ref, b: Body)
    requires Inv(s) && o !in s.body && m.body == s.body[o := b]
    ensures ReadsSame(s, m, {})
  {
    hide RootChainOK, StringChainsOK, Solid, PhaseOK, BlackKinds, RootsOK, UpvalChainsOK;
    ExtendValues(s.body, s.lists.openupval, s.lists.uvhead, o, b);
  }

  /** A new object. */
  lemma NewEffect(s: State, o: Ref, b: Body)
    requires Inv(s) && Allowed(s, New(o, b))
    ensures var r := Apply(s, New(o, b));
            Pushes(s, r, Some(o)) && r.body.Keys == s.body.Keys + {o} && r.body[o] == b
  {
    hide Inv, Create, Push, Reachable;
    var m := Create(s, o, b);
    assert m.body == s.body[o := b] && m.roots == s.roots && m.fixed == s.fixed by {
      CreateFrame(s, o, b);
    }
    RunningUpvals(s);
    ExtendReads(s, m, o, b);
    PushPushes(s, m, Some(o));
  }

  lemma CreateFrame(s: State, o: Ref, b: Body)
    ensures var m := Create(s, o, b); m.body == s.body[o := b] && m.roots == s.roots && m.fixed == s.fixed
  {
  }

  /** A userdata is chained right after the main thread, everything else at the head of the list. */
  lemma NewPlace(s: State, o: Ref, b: Body)
    requires Inv(s) && Allowed(s, New(o, b))
    ensures var l, r := s.lists.rootgc, Apply(s, New(o, b)).lists.rootgc;
            if b.Udata? then
              exists k :: 0 <= k < |l| && l[k] == s.roots.mainthread && r == l[..k + 1] + [o] + l[k + 1..]
            else r == [o] + l
  {
    hide StringChainsOK, Solid, PhaseOK, BlackKinds, UpvalChainsOK, Reachable;
    var l, k := s.lists.rootgc, IndexOf(s.lists.rootgc, s.roots.mainthread);
    IndexFinds(l, s.roots.mainthread);
    var r := Apply(s, New(o, b)).lists.rootgc;
    assert r == Create(s, o, b).lists.rootgc;
    if b.Udata? {
      assert r == l[..k + 1] + [o] + l[k + 1..];
    } else {
      assert r == l[..0] + [o] + l[0..];
    }
  }

  lemma {:induction false} IndexFinds(l: seq<Ref>, o: Ref)
    requires o in l
    ensures IndexOf(l, o) < |l| && l[IndexOf(l, o)] == o
    decreases |l|
  {
    if l[0] != o {
      IndexFinds(l[1..], o);
    }
  }

  /** A new string. */
  lemma NewStringEffect(s: State, o: Ref, hash: nat)
    requires Inv(s) && Allowed(s, NewString(o, hash))
    ensures var r := Apply(s, NewString(o, hash));
            Pushes(s, r, Some(o)) && r.body.Keys == s.body.Keys + {o} && r.body[o] == Str(hash)
  {
    hide Inv, Push, Reachable;
    assert |s.lists.strt| > 0 by {
      HasBuckets(s);
    }
    var m := CreateString(s, o, hash);
    RunningUpvals(s);
    ExtendReads(s, m, o, Str(hash));
    PushPushes(s, m, Some(o));
  }

  lemma HasBuckets(s: State)
    requires Inv(s)
    ensures |s.lists.strt| > 0
  {
  }

  /** A string that is found in the string table. */
  lemma InternEffect(s: State, o: Ref)
    requires Inv(s) && Allowed(s, Intern(o))
    ensures var r := Apply(s, Intern(o)); Pushes(s, r, Some(o)) && r.body.Keys == s.body.Keys && r.body[o] == s.body[o]
  {
    hide Inv, Push, Reachable;
    RunningUpvals(s);
    PushPushes(s, Resurrect(s, o), Some(o));
  }

  /** u is an open upvalue for slot i of the running thread, and reads what that slot holds. */
  ghost predicate Stands(s: State, r: State, u: Ref, i: nat) {
    && u in r.body && r.body[u] == Open(s.roots.running, i)
    && i < |Values(s.body, s.roots.running)| && Values(r.body, u) == [Values(s.body, s.roots.running)[i]]
  }

  /** luaF_findupval: an upvalue of the slot, one that there was or a new one. */
  lemma FindUpvalEffect(s: State, o: Ref, i: nat)
    requires Inv(s) && Allowed(s, FindUpval(o, i))
    ensures var r := Apply(s, FindUpval(o, i));
            exists u :: Pushes(s, r, Some(u)) && Stands(s, r, u, i)
                        && (u in s.body || u == o) && r.body.Keys == s.body.Keys + {u}
  {
    hide Inv, Push, Reachable, Pushes, NewUpval, Stands, Resurrect;
    var t := s.roots.running;
    RunningUpvals(s);
    var us := s.lists.openupval[t];
    var k := OpenPlace(s.body, us, i);
    var r := Apply(s, FindUpval(o, i));
    if k < |us| && us[k] in s.body && s.body[us[k]].Open? && s.body[us[k]].index == i {
      FoundEffect(s, us[k], i);
      assert Pushes(s, r, Some(us[k])) && Stands(s, r, us[k], i) && r.body.Keys == s.body.Keys + {us[k]};
    } else {
      MadeEffect(s, o, i, k);
      assert Pushes(s, r, Some(o)) && Stands(s, r, o, i) && r.body.Keys == s.body.Keys + {o};
    }
  }

  lemma FoundEffect(s: State, u: Ref, i: nat)
    requires Inv(s) && s.roots.running in s.lists.openupval && u in s.lists.openupval[s.roots.running]
    requires u in s.body && s.body[u].Open? && s.body[u].index == i < |Values(s.body, s.roots.running)|
    ensures var r := Push(Resurrect(s, u), Some(u));
            Pushes(s, r, Some(u)) && Stands(s, r, u, i) && r.body.Keys == s.body.Keys
  {
    hide Inv, Push, Reachable, Pushes;
    OpenOwner(s, s.roots.running, u);
    RunningUpvals(s);
    PushPushes(s, Resurrect(s, u), Some(u));
  }

  lemma MadeEffect(s: State, o: Ref, i: nat, k: nat)
    requires Inv(s) && o !in s.body && i < |Values(s.body, s.roots.running)|
    requires s.roots.running in s.lists.openupval && k <= |s.lists.openupval[s.roots.running]|
    ensures var r := Push(NewUpval(s, o, i, k), Some(o));
            Pushes(s, r, Some(o)) && Stands(s, r, o, i) && r.body.Keys == s.body.Keys + {o}
  {
    hide Inv, Push, Reachable, Pushes, NewUpval;
    NewUpvalFrame(s, o, i, k);
    RunningUpvals(s);
    ExtendReads(s, NewUpval(s, o, i, k), o, Open(s.roots.running, i));
    PushPushes(s, NewUpval(s, o, i, k), Some(o));
  }

  lemma OpenOwner(s: State, t: Ref, u: Ref)
    requires Inv(s) && t in s.lists.openupval && u in s.lists.openupval[t]
    ensures u in s.body && s.body[u].Open? && s.body[u].thread == t
  {
  }

  lemma NewUpvalFrame(s: State, o: Ref, i: nat, k: nat)
    requires s.roots.running in s.lists.openupval && k <= |s.lists.openupval[s.roots.running]|
    ensures var m := NewUpval(s, o, i, k);
            m.body == s.body[o := Open(s.roots.running, i)] && m.roots == s.roots && m.fixed == s.fixed
  {
  }

  // ---- What the program cannot see ----

  /** Objects may be gone; what is left reads as before, and the program can reach what it could. */
  ghost predicate Unseen(s: State, r: State) {
    && r.roots == s.roots && r.fixed == s.fixed
    && (forall a :: a in r.body ==> a in s.body && Values(r.body, a) == Values(s.body, a))
    && ReachSet(r.body, r.roots) == ReachSet(s.body, s.roots)
  }

  /** Where what is left reads as before, nothing reachable is lost. */
  lemma UnseenReach(s: State, r: State)
    requires Inv(r) && r.roots == s.roots && r.fixed == s.fixed
    requires forall a :: a in r.body ==> a in s.body && Values(r.body, a) == Values(s.body, a)
    ensures Unseen(s, r)
  {
    hide Inv, Values, Reachable;
    forall o | Reachable(r.body, r.roots, o) ensures o in r.body {
      LiveIfReachable(r, o);
    }
    SweepsSide(r.body, s.body, s.roots);
    PartReach(s.body, r.body, s.roots);
  }

  lemma PartReach(h1: map<Ref, Body>, h2: map<Ref, Body>, g: Roots)
    requires forall a :: a in h2 ==> a in h1 && Values(h2, a) == Values(h1, a)
    ensures ReachSet(h2, g) <= ReachSet(h1, g)
  {
    hide Values, ReachSet;
    ReachSetClosed(h1, g);
    forall a: Ref, b: Ref | a in ReachSet(h1, g) && Edge(h2, a, b) ensures b in ReachSet(h1, g) {
      NoEdgeOutside(h2, a, b);
      assert Edge(h1, a, b);
    }
    ReachSetLeast(h2, g, ReachSet(h1, g));
  }

  lemma NoEdgeOutside(heap: map<Ref, Body>, a: Ref, b: Ref)
    requires Edge(heap, a, b)
    ensures a in heap
  {
  }

  /** A step of the collector, and the other events in which only the collector acts. */
  lemma CollectUnseen(s: State, e: Event)
    requires Inv(s) && Allowed(s, e) && (e.Collect? || e.Abandon? || e.Restart? || e.ResizeStrings?)
    ensures Unseen(s, Apply(s, e))
  {
    hide InvBut, Unseen, SweepBucket, SweepRoots, MarkRootSet, PropagateMark, AtomicMark, AllRechained, ReachSet;
    ApplyInv(s, e);
    var r := Apply(s, e);
    if e.Collect? && (s.gcstate == SweepString || s.gcstate == Sweep) {
      SweepStepSweeps(s);
    }
    UnseenReach(s, r);
  }

  // ---- Closing ----

  /** The first k open upvalues of t, which are at or above `level`, are closed with their values, or gone. */
  ghost predicate ClosedDown(s: State, r: State, t: Ref, level: nat, k: nat) {
    && t in s.lists.openupval && k <= |s.lists.openupval[t]|
    && r.lists.openupval == s.lists.openupval[t := s.lists.openupval[t][k..]]
    && (forall j :: 0 <= j < k ==> Shut(s, r, level, s.lists.openupval[t][j]))
    && (forall a :: a in s.body && a !in s.lists.openupval[t][..k] ==> a in r.body && r.body[a] == s.body[a])
    && (forall a :: a in r.body ==> a in s.body)
  }

  ghost predicate Shut(s: State, r: State, level: nat, u: Ref) {
    && u in s.body && s.body[u].Open? && s.body[u].index >= level && |Values(s.body, u)| == 1
    && (u in r.body ==> r.body[u] == Closed(Values(s.body, u)[0]))
  }

  predicate OpenBelow(s: State, u: Ref, level: nat) { u in s.body && s.body[u].Open? && s.body[u].index < level }

  lemma CloseFirstDown(s: State, t: Ref, level: nat)
    requires UpvalChainsOK(s.body, s.lists.openupval, s.lists.uvhead)
    requires t in s.lists.openupval && |s.lists.openupval[t]| > 0
    requires var u := s.lists.openupval[t][0]; u in s.body && s.body[u].Open? ==> s.body[u].index >= level
    ensures ClosedDown(s, CloseFirst(s, t), t, level, 1)
  {
    var uv, v := FirstUpval(s, t);
    LinkUpvalResult(s.(lists := Unchain(s.lists, t), body := s.body[uv := Closed(v)]), uv, v);
    assert s.lists.openupval[t][..1] == [uv];
  }

  lemma ClosedDownMore(s: State, m: State, r: State, t: Ref, level: nat, k: nat)
    requires ClosedDown(s, m, t, level, 1) && ClosedDown(m, r, t, level, k)
    requires forall a :: a in m.body ==> a in s.body && Values(m.body, a) == Values(s.body, a)
    requires NoDup(s.lists.openupval[t])
    ensures ClosedDown(s, r, t, level, k + 1)
  {
    hide Values;
    var us := s.lists.openupval[t];
    assert m.lists.openupval[t] == us[1..] && us[1..][k..] == us[k + 1..];
    forall j | 0 <= j < k + 1 ensures Shut(s, r, level, us[j]) {
      if j == 0 {
        FirstStaysShut(s, m, r, t, level, k);
      } else {
        assert us[1..][j - 1] == us[j];
        assert Shut(m, r, level, us[j]);
        assert us[j] !in us[..1];
      }
    }
    forall a | a in s.body && a !in us[..k + 1] ensures a in r.body && r.body[a] == s.body[a] {
      assert forall j :: 0 <= j < k ==> us[1..][j] == us[..k + 1][j + 1];
      assert us[..1][0] == us[..k + 1][0];
    }
  }

  lemma FirstStaysShut(s: State, m: State, r: State, t: Ref, level: nat, k: nat)
    requires ClosedDown(s, m, t, level, 1) && ClosedDown(m, r, t, level, k) && NoDup(s.lists.openupval[t])
    ensures Shut(s, r, level, s.lists.openupval[t][0])
  {
    hide Values;
    var us := s.lists.openupval[t];
    assert Shut(s, m, level, us[0]);
    assert us[0] !in us[1..][..k] by {
      assert forall j :: 0 <= j < k ==> us[1..][j] == us[j + 1];
    }
  }

  /** luaF_close: the list is closed down to the first upvalue below the level. */
  lemma {:induction false} CloseDown(s: State, t: Ref, level: nat) returns (k: nat)
    requires Inv(s) && t in s.lists.openupval
    ensures ClosedDown(s, Close(s, t, level), t, level, k)
    ensures k < |s.lists.openupval[t]| ==> OpenBelow(s, s.lists.openupval[t][k], level)
    decreases OpenCount(s, t)
  {
    hide ChainsOK, RootChainOK, StringChainsOK, UpvalChainsOK, RootsOK, Solid, PhaseOK, Coloured, CloseFirst, ClosedDown,
      Values;
    assert UpvalChainsOK(s.body, s.lists.openupval, s.lists.uvhead) by {
      UpvalChains(s);
    }
    if OpenCount(s, t) == 0 {
      k := 0;
      NothingClosed(s, t, level);
    } else {
      var u := s.lists.openupval[t][0];
      OpenOwner(s, t, u);
      if OpenBelow(s, u, level) {
        k := 0;
        NothingClosed(s, t, level);
      } else {
        var m := CloseFirst(s, t);
        CloseFirstDown(s, t, level);
        CloseStep(s, t, {});
        CloseFirstValues(s, t);
        var n := CloseDown(m, t, level);
        OpenDistinct(s, t);
        ClosedDownMore(s, m, Close(m, t, level), t, level, n);
        k := n + 1;
        if k < |s.lists.openupval[t]| {
          NextKept(s, m, t, level, k);
        }
      }
    }
  }

  lemma UpvalChains(s: State)
    requires Inv(s)
    ensures UpvalChainsOK(s.body, s.lists.openupval, s.lists.uvhead)
  {
    hide RootChainOK, StringChainsOK, UpvalChainsOK, RootsOK, Solid, PhaseOK, BlackKinds;
  }

  lemma NothingClosed(s: State, t: Ref, level: nat)
    requires t in s.lists.openupval
    ensures ClosedDown(s, s, t, level, 0)
  {
    assert s.lists.openupval[t][..0] == [];
  }

  lemma OpenDistinct(s: State, t: Ref)
    requires Inv(s) && t in s.lists.openupval
    ensures NoDup(s.lists.openupval[t]) && forall u :: u in s.lists.openupval[t] ==> u in s.body && s.body[u].Open?
  {
  }

  lemma NextKept(s: State, m: State, t: Ref, level: nat, k: nat)
    requires Inv(s) && ClosedDown(s, m, t, level, 1) && 0 < k < |s.lists.openupval[t]|
    requires OpenBelow(m, m.lists.openupval[t][k - 1], level)
    ensures OpenBelow(s, s.lists.openupval[t][k], level)
  {
    hide RootChainOK, StringChainsOK, UpvalChainsOK, RootsOK, Solid, PhaseOK, BlackKinds;
    OpenDistinct(s, t);
    assert s.lists.openupval[t][1..][k - 1] == s.lists.openupval[t][k];
    assert s.lists.openupval[t][k] != s.lists.openupval[t][0];
  }

  lemma CloseFirstValues(s: State, t: Ref)
    requires Inv(s) && t in s.lists.openupval && |s.lists.openupval[t]| > 0
    ensures var m := CloseFirst(s, t); forall a :: a in m.body ==> a in s.body && Values(m.body, a) == Values(s.body, a)
  {
    hide RootChainOK, StringChainsOK, RootsOK, Solid, PhaseOK, BlackKinds;
    var uv, v := FirstUpval(s, t);
    CloseValues(s.body, uv, v);
    LinkUpvalResult(s.(lists := Unchain(s.lists, t), body := s.body[uv := Closed(v)]), uv, v);
  }

  lemma {:induction false} CloseReads(s: State, t: Ref, level: nat)
    requires Inv(s) && t in s.lists.openupval
    ensures var r := Close(s, t, level); forall a :: a in r.body ==>
              a in s.body && Values(r.body, a) == Values(s.body, a)
    decreases OpenCount(s, t)
  {
    hide RootChainOK, StringChainsOK, UpvalChainsOK, RootsOK, Solid, PhaseOK, BlackKinds, CloseFirst, Values;
    if OpenCount(s, t) > 0 {
      CloseFirstValues(s, t);
      CloseStep(s, t, {});
      CloseReads(CloseFirst(s, t), t, level);
    }
  }

  /** luaF_close on the running thread: variables outlive their slots, and the program reads what it did. */
  lemma CloseFromEffect(s: State, level: nat)
    requires Inv(s)
    ensures var t, r := s.roots.running, Apply(s, CloseFrom(level));
            && Unseen(s, r)
            && exists k: nat :: ClosedDown(s, r, t, level, k)
                  && (k < |s.lists.openupval[t]| ==> OpenBelow(r, s.lists.openupval[t][k], level))
  {
    hide InvBut, Close, Unseen, ReachSet, Values;
    var t, r := s.roots.running, Apply(s, CloseFrom(level));
    RunningUpvals(s);
    ApplyInv(s, CloseFrom(level));
    CloseReads(s, t, level);
    CloseGlobals(s, t, level);
    UnseenReach(s, r);
    var k := CloseDown(s, t, level);
    if k < |s.lists.openupval[t]| {
      OpenDistinct(s, t);
      assert s.lists.openupval[t][k] !in s.lists.openupval[t][..k];
    }
    assert ClosedDown(s, r, t, level, k);
  }

  lemma CloseGlobals(s: State, t: Ref, level: nat)
    ensures SameGlobals(s, Close(s, t, level))
  {
  }
  // ---- The string table ----

  ghost function Strings(heap: map<Ref, Body>): set<Ref> { set o | o in heap && heap[o].Str? }

  /** Every string is in the bucket of its hash, once, and nothing else is in the table. */
  ghost predicate Hashed(heap: map<Ref, Body>, strt: seq<seq<Ref>>) {
    && |strt| > 0 && Chained(strt) == Strings(heap)
    && (forall o :: o in Strings(heap) ==> o in strt[heap[o].hash % |strt|])
    && StringCount(strt) == |Strings(heap)|
  }

  lemma {:induction false} ChainedSize(strt: seq<seq<Ref>>)
    requires forall i :: 0 <= i < |strt| ==> NoDup(strt[i])
    requires forall i, j, o :: 0 <= i < j < |strt| && o in strt[i] ==> o !in strt[j]
    ensures |Chained(strt)| == StringCount(strt)
    decreases |strt|
  {
    if |strt| > 0 {
      var l, rest := strt[0], strt[1..];
      assert Chained(strt) == Elems(l) + Chained(rest) && Elems(l) !! Chained(rest) by {
        assert forall i :: 0 <= i < |rest| ==> rest[i] == strt[i + 1];
        assert forall i :: 0 < i < |strt| ==> strt[i] == rest[i - 1];
      }
      ChainedSize(rest);
      ElemsSize(l);
    }
  }

  lemma {:induction false} ElemsSize(l: seq<Ref>)
    requires NoDup(l)
    ensures |Elems(l)| == |l|
    decreases |l|
  {
    if |l| > 0 {
      assert Elems(l) == {l[0]} + Elems(l[1..]);
      ElemsSize(l[1..]);
    }
  }

  lemma AlwaysHashed(s: State)
    requires Inv(s)
    ensures Hashed(s.body, s.lists.strt)
  {
    hide RootChainOK, UpvalChainsOK, RootsOK, Solid, PhaseOK, BlackKinds, StringChainsOK, Hashed;
    HasBuckets(s);
    ChainsHashed(s.body, s.lists.strt);
  }

  lemma ChainsHashed(heap: map<Ref, Body>, strt: seq<seq<Ref>>)
    requires StringChainsOK(heap, strt) && |strt| > 0
    ensures Hashed(heap, strt)
  {
    assert forall i, o :: 0 <= i < |strt| && o in strt[i] ==> BelongsIn(heap, o, i, |strt|);
    assert Chained(strt) == Strings(heap) by {
      forall o | o in Strings(heap) ensures o in Chained(strt) {
        assert InBucket(heap, strt, o);
      }
    }
    forall o | o in Strings(heap) ensures o in strt[heap[o].hash % |strt|] {
      assert InBucket(heap, strt, o);
    }
    ChainedSize(strt);
  }

  /** A table of another size holds the same strings; while the buckets are swept the size stays. */
  lemma ResizeEffect(s: State, n: nat)
    requires Inv(s) && Allowed(s, ResizeStrings(n))
    ensures var r := Apply(s, ResizeStrings(n));
            && r == s.(lists := s.lists.(strt := r.lists.strt)) && Hashed(r.body, r.lists.strt)
            && |r.lists.strt| == if s.gcstate == SweepString then |s.lists.strt| else n
  {
    hide Inv, Hashed, AllRechained;
    ApplyInv(s, ResizeStrings(n));
    AlwaysHashed(Apply(s, ResizeStrings(n)));
  }

  /** The end of the sweep halves the table if fewer strings are left than a quarter of its size, which is over 64. */
  lemma SweepEndShrinks(s: State)
    requires Inv(s) && s.gcstate == Sweep
    ensures var r, size := SingleStep(s), |s.lists.strt|;
            && (r.gcstate == Sweep ==> r.lists.strt == s.lists.strt)
            && (r.gcstate != Sweep ==>
                  && Hashed(r.body, r.lists.strt)
                  && |r.lists.strt| == if |Strings(r.body)| < size / 4 && size > 64 then size / 2 else size)
  {
    hide Inv, Hashed, AllRechained, StringCount, SweepRoots;
    var m := SweepRoots(s, GCSWEEPMAX);
    SweepRootsInv(s, GCSWEEPMAX);
    SweepRootsStrings(s, GCSWEEPMAX);
    AlwaysHashed(m);
    HashedCount(m);
    SingleStepInv(s);
    AlwaysHashed(SingleStep(s));
  }

  lemma HashedCount(s: State)
    requires Hashed(s.body, s.lists.strt)
    ensures StringCount(s.lists.strt) == |Strings(s.body)|
  {
  }

  lemma {:induction false} SweepRootsStrings(s: State, count: nat)
    requires Inv(s) && s.gcstate == Sweep
    ensures SweepRoots(s, count).lists.strt == s.lists.strt
    decreases count
  {
    hide Inv, SweepRoot;
    if count > 0 && s.lists.sweepgc < |s.lists.rootgc| {
      SweepRootInv(s);
      SweepRootStrings(s);
      SweepRootsStrings(SweepRoot(s), count - 1);
    }
  }

  lemma SweepRootStrings(s: State)
    requires s.lists.sweepgc < |s.lists.rootgc|
    ensures SweepRoot(s).lists.strt == s.lists.strt
  {
    hide SweepChain, Close;
    var o := s.lists.rootgc[s.lists.sweepgc];
    var t := if o in s.body && s.body[o].Thread? then SweepOpenUpvals(s, o) else s;
    assert t.lists.strt == s.lists.strt;
    CloseStrings(t.(lists := Cut(t.lists)), o, 0);
  }

  lemma CloseStrings(s: State, t: Ref, level: nat)
    ensures Close(s, t, level).lists.strt == s.lists.strt
    decreases if t in s.lists.openupval then |s.lists.openupval[t]| else 0
  {
  }
}
