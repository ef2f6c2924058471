/**
 * The lists of open upvalues stay sorted by stack level, so that luaF_findupval finds the upvalue of a slot if there is
 * one: a slot never has two.
 */
module GcUpvalOrder {
  import opened Base
  import opened GcHeap
  import opened GcMarking
  import opened GcInvariant
  import opened GcMutator
  import opened GcSafety
  import opened GcEffects

  /** From the top of the stack downwards. */
  ghost predicate Descends(heap: map<Ref, Body>, l: seq<Ref>) {
    forall i, j :: 0 <= i < j < |l| && OpenAt(heap, l[i]) && OpenAt(heap, l[j]) ==> heap[l[i]].index > heap[l[j]].index
  }

  predicate OpenAt(heap: map<Ref, Body>, u: Ref) { u in heap && heap[u].Open? }

  predicate AllOpen(heap: map<Ref, Body>, l: seq<Ref>) { forall j :: 0 <= j < |l| ==> OpenAt(heap, l[j]) }

  ghost predicate Sorted(s: State) {
    forall t :: t in s.lists.openupval ==> Descends(s.body, s.lists.openupval[t])
  }

  /** No upvalue is opened, or moved. */
  ghost predicate OpensFewer(heap: map<Ref, Body>, heap': map<Ref, Body>) {
    forall u :: OpenAt(heap', u) ==> OpenAt(heap, u) && heap'[u] == heap[u]
  }

  lemma SortedFewer(s: State, r: State)
    requires Sorted(s) && OpensFewer(s.body, r.body)
    requires forall t :: t in r.lists.openupval ==>
               r.lists.openupval[t] == [] || (t in s.lists.openupval && r.lists.openupval[t] == s.lists.openupval[t])
    ensures Sorted(r)
  {
  }

  // ---- The collector ----

  lemma {:induction false} ChainDescends(s: State, l: seq<Ref>)
    requires Descends(s.body, l)
    ensures var (r, l') := SweepChain(s, l);
            Descends(r.body, l') && OpensFewer(s.body, r.body) && forall u :: u in l' ==> u in l
    decreases |l|
  {
    if |l| > 0 {
      var o := l[0];
      assert forall i :: 0 <= i < |l[1..]| ==> l[1..][i] == l[i + 1];
      if Survives(s, o) {
        ChainDescends(Whiten(s, o), l[1..]);
        HeadDescends(s.body, l, SweepChain(Whiten(s, o), l[1..]).0.body, SweepChain(Whiten(s, o), l[1..]).1);
      } else {
        assert OpensFewer(s.body, FreeLeaf(s, o).body);
        ChainDescends(FreeLeaf(s, o), l[1..]);
      }
    }
  }

  lemma HeadDescends(heap: map<Ref, Body>, l: seq<Ref>, heap': map<Ref, Body>, rest: seq<Ref>)
    requires |l| > 0 && Descends(heap, l) && OpensFewer(heap, heap') && Descends(heap', rest)
    requires forall j :: 0 <= j < |rest| ==> rest[j] in l[1..]
    ensures Descends(heap', [l[0]] + rest)
  {
    forall j | 0 <= j < |rest| && OpenAt(heap', l[0]) && OpenAt(heap', rest[j])
      ensures heap'[l[0]].index > heap'[rest[j]].index
    {
      var k :| 0 <= k < |l[1..]| && l[1..][k] == rest[j];
      assert l[k + 1] == rest[j];
    }
  }

  lemma SweepBucketSorted(s: State)
    requires Sorted(s) && s.lists.sweepstrgc < |s.lists.strt|
    requires forall u :: u in s.lists.strt[s.lists.sweepstrgc] ==> !OpenAt(s.body, u)
    ensures Sorted(SweepBucket(s))
  {
    var l := s.lists.strt[s.lists.sweepstrgc];
    assert Descends(s.body, l);
    ChainDescends(s, l);
    SortedFewer(s, SweepBucket(s));
  }

  lemma SweepOpenSorted(s: State, t: Ref)
    requires Sorted(s)
    ensures Sorted(SweepOpenUpvals(s, t)) && OpensFewer(s.body, SweepOpenUpvals(s, t).body)
  {
    if t in s.lists.openupval {
      ChainDescends(s, s.lists.openupval[t]);
    }
  }

  lemma SweepOpenLists(s: State, t: Ref)
    ensures var r := SweepOpenUpvals(s, t).lists; r.rootgc == s.lists.rootgc && r.sweepgc == s.lists.sweepgc
  {
  }

  lemma CloseFirstSorted(s: State, t: Ref)
    requires Sorted(s) && t in s.lists.openupval && |s.lists.openupval[t]| > 0
    ensures Sorted(CloseFirst(s, t))
  {
    var l := s.lists.openupval[t];
    assert forall i :: 0 <= i < |l[1..]| ==> l[1..][i] == l[i + 1];
  }

  lemma {:induction false} CloseSorted(s: State, t: Ref, level: nat)
    requires Sorted(s)
    ensures Sorted(Close(s, t, level))
    decreases OpenCount(s, t)
  {
    hide Sorted, CloseFirst;
    if OpenCount(s, t) > 0 {
      CloseFirstSorted(s, t);
      CloseFirstCount(s, t);
      CloseSorted(CloseFirst(s, t), t, level);
    }
  }

  lemma CloseFirstCount(s: State, t: Ref)
    requires t in s.lists.openupval && |s.lists.openupval[t]| > 0
    ensures OpenCount(CloseFirst(s, t), t) < OpenCount(s, t)
  {
  }

  lemma SweepHereSorted(s: State)
    requires Sorted(s) && s.lists.sweepgc < |s.lists.rootgc|
    ensures Sorted(SweepHere(s))
  {
    hide Close;
    var o := s.lists.rootgc[s.lists.sweepgc];
    var s1 := s.(lists := Cut(s.lists));
    CloseSorted(s1, o, 0);
    var s2 := if o in s.body && s.body[o].Thread? then Close(s1, o, 0) else s1;
    SortedFewer(s2, FreeRoot(s2, o));
  }

  lemma {:induction false} SweepRootsSorted(s: State, count: nat)
    requires Sorted(s)
    ensures Sorted(SweepRoots(s, count))
    decreases count
  {
    hide Sorted, SweepOpenUpvals, SweepHere;
    if count > 0 && s.lists.sweepgc < |s.lists.rootgc| {
      var o := s.lists.rootgc[s.lists.sweepgc];
      SweepOpenSorted(s, o);
      SweepOpenLists(s, o);
      SweepHereSorted(if o in s.body && s.body[o].Thread? then SweepOpenUpvals(s, o) else s);
      SweepRootsSorted(SweepRoot(s), count - 1);
    }
  }

  lemma StepSorted(s: State)
    requires Inv(s) && Sorted(s)
    ensures Sorted(SingleStep(s))
  {
    hide InvBut, Sorted, SweepBucket, SweepRoots, MarkRootSet, PropagateMark, AtomicMark, AllRechained, StringCount;
    if s.gcstate == SweepString {
      BucketClosed(s);
      SweepBucketSorted(s);
      SameSorted(SweepBucket(s), SingleStep(s));
    } else if s.gcstate == Sweep {
      SweepRootsSorted(s, GCSWEEPMAX);
      SameSorted(SweepRoots(s, GCSWEEPMAX), SingleStep(s));
    } else {
      SameSorted(s, SingleStep(s));
    }
  }

  lemma SameSorted(s: State, r: State)
    requires Sorted(s) && r.body == s.body && r.lists.openupval == s.lists.openupval
    ensures Sorted(r)
  {
  }

  lemma BucketClosed(s: State)
    requires Inv(s) && s.gcstate == SweepString
    ensures s.lists.sweepstrgc < |s.lists.strt|
    ensures forall u :: u in s.lists.strt[s.lists.sweepstrgc] ==> !OpenAt(s.body, u)
  {
    hide RootChainOK, UpvalChainsOK, RootsOK, Solid, BlackKinds;
    BucketFacts(s);
    var i := s.lists.sweepstrgc;
    assert forall u :: u in s.lists.strt[i] ==> BelongsIn(s.body, u, i, |s.lists.strt|);
  }

  // ---- The program ----

  lemma PushSorted(s: State, v: Value)
    requires Sorted(s)
    ensures Sorted(Push(s, v))
  {
    SortedFewer(s, Push(s, v));
  }

  /** The place that luaF_findupval walks to. */
  lemma {:induction false} PlaceSplits(heap: map<Ref, Body>, us: seq<Ref>, i: nat)
    requires Descends(heap, us) && AllOpen(heap, us)
    ensures var k := OpenPlace(heap, us, i);
            && (forall j :: 0 <= j < k ==> heap[us[j]].index > i)
            && (forall j :: k <= j < |us| ==> heap[us[j]].index <= i)
    decreases |us|
  {
    if |us| > 0 && heap[us[0]].index > i {
      var rest := us[1..];
      assert forall j :: 0 <= j < |rest| ==> rest[j] == us[j + 1];
      PlaceSplits(heap, rest, i);
      assert forall j :: 0 < j < |us| ==> us[j] == rest[j - 1];
    }
  }

  lemma {:induction false} PlaceFinds(heap: map<Ref, Body>, us: seq<Ref>, i: nat, j: nat)
    requires Descends(heap, us) && AllOpen(heap, us) && j < |us| && heap[us[j]].index == i
    ensures OpenPlace(heap, us, i) == j
    decreases |us|
  {
    if j > 0 {
      var rest := us[1..];
      assert forall n :: 0 <= n < |rest| ==> rest[n] == us[n + 1];
      PlaceFinds(heap, rest, i, j - 1);
    }
  }

  lemma InsertDescends(heap: map<Ref, Body>, us: seq<Ref>, o: Ref, t: Ref, i: nat)
    requires Descends(heap, us) && AllOpen(heap, us) && !OpenAt(heap, o)
    requires var k := OpenPlace(heap, us, i); k < |us| ==> heap[us[k]].index != i
    ensures var k := OpenPlace(heap, us, i); Descends(heap[o := Open(t, i)], us[..k] + [o] + us[k..])
  {
    PlaceSplits(heap, us, i);
    var k := OpenPlace(heap, us, i);
    assert forall j :: k < j < |us| ==> heap[us[j]].index < heap[us[k]].index;
    assert forall j :: 0 <= j < |us| ==> us[j] != o;
  }

  lemma NewUpvalSorted(s: State, o: Ref, i: nat, k: nat)
    requires Sorted(s) && o !in s.body && s.roots.running in s.lists.openupval
    requires var us := s.lists.openupval[s.roots.running];
             && k == OpenPlace(s.body, us, i) && AllOpen(s.body, us) && (k < |us| ==> s.body[us[k]].index != i)
    requires forall t, u :: t in s.lists.openupval && u in s.lists.openupval[t] ==> OpenAt(s.body, u)
    ensures Sorted(NewUpval(s, o, i, k))
  {
    hide OpenPlace;
    var t := s.roots.running;
    InsertDescends(s.body, s.lists.openupval[t], o, t, i);
    var r := NewUpval(s, o, i, k);
    forall x | x in r.lists.openupval && x != t ensures Descends(r.body, r.lists.openupval[x]) {
      var l := s.lists.openupval[x];
      assert forall j :: 0 <= j < |l| ==> l[j] in l;
    }
  }

  lemma OpenFacts(s: State)
    requires Inv(s)
    ensures s.roots.running in s.lists.openupval && AllOpen(s.body, s.lists.openupval[s.roots.running])
    ensures forall t, u :: t in s.lists.openupval && u in s.lists.openupval[t] ==>
              OpenAt(s.body, u) && s.body[u].thread == t
    ensures forall u :: OpenAt(s.body, u) ==>
              s.body[u].thread in s.lists.openupval && u in s.lists.openupval[s.body[u].thread]
  {
    hide RootChainOK, StringChainsOK, Solid, PhaseOK, BlackKinds;
    var us := s.lists.openupval[s.roots.running];
    assert forall j :: 0 <= j < |us| ==> us[j] in us;
    forall u | OpenAt(s.body, u)
      ensures s.body[u].thread in s.lists.openupval && u in s.lists.openupval[s.body[u].thread]
    {
      assert HasHome(s.body, s.lists.openupval, u);
    }
  }

  lemma FindSorted(s: State, o: Ref, i: nat)
    requires Inv(s) && Sorted(s) && o !in s.body
    ensures Sorted(Find(s, o, i))
  {
    hide InvBut, Sorted, OpenPlace, NewUpval, Push, Resurrect;
    OpenFacts(s);
    var us := s.lists.openupval[s.roots.running];
    var k := OpenPlace(s.body, us, i);
    if k < |us| && s.body[us[k]].index == i {
      SameSorted(s, Resurrect(s, us[k])) by {
        ResurrectSame(s, us[k]);
      }
      PushSorted(Resurrect(s, us[k]), Some(us[k]));
    } else {
      NewUpvalSorted(s, o, i, k);
      PushSorted(NewUpval(s, o, i, k), Some(o));
    }
  }

  lemma ResurrectSame(s: State, o: Ref)
    ensures Resurrect(s, o).body == s.body && Resurrect(s, o).lists == s.lists
  {
  }

  /** Every event keeps the lists sorted. */
  lemma ApplySorted(s: State, e: Event)
    requires Inv(s) && Sorted(s) && Allowed(s, e)
    ensures Sorted(Apply(s, e))
  {
    hide InvBut, Sorted, SingleStep, Find, Close, Push, Create, CreateString, AllRechained, MarkRootSet, MarkObject,
      Reachable;
    match e
    case Collect => StepSorted(s);
    case FindUpval(o, i) => FindSorted(s, o, i);
    case CloseFrom(level) => CloseSorted(s, s.roots.running, level);
    case New(o, b) =>
      CreateSorted(s, o, b);
      PushSorted(Create(s, o, b), Some(o));
    case NewString(o, hash) =>
      if |s.lists.strt| > 0 {
        CreateStringSorted(s, o, hash);
        PushSorted(CreateString(s, o, hash), Some(o));
      }
    case Intern(o) =>
      SameSorted(s, Resurrect(s, o));
      PushSorted(Resurrect(s, o), Some(o));
    case SetStack(_, _) => WriteSorted(s, e);
    case SetSlot(_, _, _) => WriteSorted(s, e);
    case SetUpval(_, _) => WriteSorted(s, e);
    case _ => SameSorted(s, Apply(s, e));
  }

  lemma CreateSorted(s: State, o: Ref, b: Body)
    requires Sorted(s) && o !in s.body && b.InRootList()
    ensures Sorted(Create(s, o, b))
  {
    SortedFewer(s, Create(s, o, b));
  }

  lemma CreateStringSorted(s: State, o: Ref, hash: nat)
    requires Sorted(s) && o !in s.body && |s.lists.strt| > 0
    ensures Sorted(CreateString(s, o, hash))
  {
    SortedFewer(s, CreateString(s, o, hash));
  }

  lemma WriteSorted(s: State, e: Event)
    requires Inv(s) && Sorted(s) && Allowed(s, e) && (e.SetStack? || e.SetSlot? || e.SetUpval?)
    ensures Sorted(Apply(s, e))
  {
    hide ChainsOK, Solid, PhaseOK, BlackKinds, MarkObject, Reachable, RootsOK, Sorted, AllHeld, Held;
    var r := Apply(s, e);
    if e.SetUpval? && s.body[e.o].Open? {
      OpenHome(s, e.o);
    }
    assert OpensFewer(s.body, r.body) && r.lists == s.lists;
    SortedOn(s, r);
  }

  lemma SortedOn(s: State, r: State)
    requires Sorted(s) && OpensFewer(s.body, r.body) && r.lists == s.lists
    ensures Sorted(r)
  {
  }

  /** Whatever the program and the collector do, the lists stay sorted. */
  lemma {:induction false} RunSorted(s: State, es: seq<Event>)
    requires Inv(s) && Sorted(s) && AllowedRun(s, es)
    ensures Sorted(Run(s, es))
    decreases |es|
  {
    hide InvBut, Sorted, Apply, Allowed;
    if |es| > 0 {
      ApplyInv(s, es[0]);
      ApplySorted(s, es[0]);
      RunSorted(Apply(s, es[0]), es[1..]);
    }
  }

  /** In every state that a new interpreter can get to, a slot of a stack has at most one open upvalue. */
  lemma OneUpvalPerSlot(m: Ref, g: Ref, r: Ref, buckets: nat, tags: nat, es: seq<Event>, u: Ref, w: Ref)
    requires m != g && m != r && g != r && buckets > 0 && AllowedRun(Initial(m, g, r, buckets, tags), es)
    requires var t := Run(Initial(m, g, r, buckets, tags), es);
             OpenAt(t.body, u) && OpenAt(t.body, w) && t.body[u] == t.body[w]
    ensures u == w
  {
    hide InvBut, Run, AllowedRun;
    var s := Initial(m, g, r, buckets, tags);
    InitialInv(m, g, r, buckets, tags);
    RunInv(s, es);
    RunSorted(s, es);
    SortedOne(Run(s, es), u, w);
  }

  lemma SortedOne(s: State, u: Ref, w: Ref)
    requires Inv(s) && Sorted(s) && OpenAt(s.body, u) && OpenAt(s.body, w) && s.body[u] == s.body[w]
    ensures u == w
  {
    hide InvBut;
    OpenFacts(s);
    var l := s.lists.openupval[s.body[u].thread];
    var i :| 0 <= i < |l| && l[i] == u;
    var j :| 0 <= j < |l| && l[j] == w;
    assert Descends(s.body, l);
  }

  /** An open upvalue of the slot is found, and no other is made. */
  lemma FindReuses(s: State, o: Ref, i: nat, u: Ref)
    requires Inv(s) && Sorted(s) && Allowed(s, FindUpval(o, i)) && u in s.body && s.body[u] == Open(s.roots.running, i)
    ensures var r := Apply(s, FindUpval(o, i)); Pushes(s, r, Some(u)) && r.body.Keys == s.body.Keys
  {
    hide InvBut, Push, Pushes, Resurrect, NewUpval, Stands;
    OpenFacts(s);
    var us := s.lists.openupval[s.roots.running];
    var k := OpenPlace(s.body, us, i);
    var j :| 0 <= j < |us| && us[j] == u;
    PlaceFinds(s.body, us, i, j);
    FoundEffect(s, u, i);
  }
}
