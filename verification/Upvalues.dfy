/** Open upvalues (lfunc.c): the list of each thread, sorted by stack level, and the one ring through all of them. */
module Upvalues {
  import opened Base

  type Value = nat

  type Ref = nat

  const NULL: int := -1
  const UVHEAD: Ref := 0

  /** A stack slot: the number of a thread, and a level of its stack. */
  type Slot = (nat, nat)

  /** The fields of the upvalues, one map each; `v` is a stack slot while an upvalue is open. */
  datatype Memory = Memory(v: map<Ref, Option<Slot>>, value: map<Ref, Value>, next: map<Ref, int>, prev: map<Ref, Ref>,
                           link: map<Ref, Ref>)

  function V(m: Memory, u: Ref): Option<Slot> { if u in m.v then m.v[u] else None }
  function Next(m: Memory, u: Ref): int { if u in m.next then m.next[u] else NULL }
  function Prev(m: Memory, u: Ref): Ref { if u in m.prev then m.prev[u] else UVHEAD }
  function Link(m: Memory, u: Ref): Ref { if u in m.link then m.link[u] else UVHEAD }
  function Own(m: Memory, u: Ref): Value { if u in m.value then m.value[u] else 0 }

  /** The ring from the head through the upvalues and back. */
  ghost predicate RingOK(m: Memory, ring: seq<Ref>) {
    && NoDup(ring) && UVHEAD !in ring
    && forall i :: 0 <= i <= |ring| ==> Linked(m, Around(ring, i), Around(ring, i + 1))
  }

  /** The ring as a cycle that starts and ends at its head. */
  function Around(ring: seq<Ref>, i: int): Ref { if 1 <= i <= |ring| then ring[i - 1] else UVHEAD }

  predicate Linked(m: Memory, a: Ref, b: Ref) { Link(m, a) == b && Prev(m, b) == a }

  /** The list of open upvalues of thread t: strictly descending levels below n. */
  ghost predicate ListOK(m: Memory, t: nat, first: int, open: seq<Ref>, n: nat) {
    && first == At(open, 0)
    && (forall i :: 0 <= i < |open| ==> Next(m, open[i]) == At(open, i + 1))
    && Descends(m, t, open, n)
  }

  ghost predicate Descends(m: Memory, t: nat, open: seq<Ref>, n: nat) {
    && (forall i :: 0 <= i < |open| ==> V(m, open[i]).Some? && V(m, open[i]).value.0 == t && V(m, open[i]).value.1 < n)
    && (forall i, j :: 0 <= i < j < |open| ==> V(m, open[i]).value.1 > V(m, open[j]).value.1)
  }

  /** The lists of all threads. */
  ghost predicate ListsOK(m: Memory, first: seq<int>, opens: seq<seq<Ref>>, stacks: seq<seq<Value>>) {
    && |first| == |opens| == |stacks|
    && forall t :: 0 <= t < |opens| ==> ListOK(m, t, first[t], opens[t], |stacks[t]|)
  }

  function At(s: seq<Ref>, i: int): int { if 0 <= i < |s| then s[i] else NULL }

  // ---- The list ----

  function Inserted(open: seq<Ref>, k: nat, u: Ref): seq<Ref>
    requires k <= |open|
  {
    open[..k] + [u] + open[k..]
  }

  lemma InsertedAt(open: seq<Ref>, k: nat, u: Ref, i: int)
    requires k <= |open|
    ensures At(Inserted(open, k, u), i) == if i < k then At(open, i) else if i == k then u else At(open, i - 1)
  {
  }

  /** The level of u belongs at position k. */
  ghost predicate Fits(m: Memory, t: nat, open: seq<Ref>, k: nat, u: Ref, n: nat) {
    && k <= |open| && u !in open && V(m, u).Some? && V(m, u).value.0 == t && V(m, u).value.1 < n
    && (forall i :: 0 <= i < k ==> V(m, open[i]).Some? && V(m, open[i]).value.1 > V(m, u).value.1)
    && (k < |open| ==> V(m, open[k]).Some? && V(m, open[k]).value.1 < V(m, u).value.1)
  }

  lemma InsertDescends(m: Memory, t: nat, open: seq<Ref>, n: nat, k: nat, u: Ref)
    requires Descends(m, t, open, n) && Fits(m, t, open, k, u, n)
    ensures Descends(m, t, Inserted(open, k, u), n)
  {
    var o := Inserted(open, k, u);
    forall i | 0 <= i < |o| ensures o[i] == if i < k then open[i] else if i == k then u else open[i - 1] {
    }
  }

  lemma DistinctOpen(m: Memory, t: nat, open: seq<Ref>, n: nat)
    requires Descends(m, t, open, n)
    ensures NoDup(open)
  {
  }

  lemma InsertList(m: Memory, t: nat, first: int, open: seq<Ref>, n: nat, k: nat, u: Ref, m': Memory)
    requires ListOK(m, t, first, open, n) && Fits(m, t, open, k, u, n) && m'.v == m.v
    requires m'.next == (if k == 0 then m.next[u := At(open, k)] else m.next[u := At(open, k)][open[k - 1] := u])
    ensures ListOK(m', t, if k == 0 then u else first, Inserted(open, k, u), n)
  {
    hide Descends;
    var o := Inserted(open, k, u);
    DistinctOpen(m, t, open, n);
    InsertDescends(m, t, open, n, k, u);
    SameLevels(m, m', t, o, n);
    InsertedAt(open, k, u, 0);
    forall i | 0 <= i < |o| ensures Next(m', o[i]) == At(o, i + 1) {
      InsertedAt(open, k, u, i);
      InsertedAt(open, k, u, i + 1);
      assert o[i] == At(o, i);
    }
  }

  lemma SameLevels(m: Memory, m': Memory, t: nat, open: seq<Ref>, n: nat)
    requires Descends(m, t, open, n) && forall i :: 0 <= i < |open| ==> V(m', open[i]) == V(m, open[i])
    ensures Descends(m', t, open, n)
  {
  }

  /** The first upvalue leaves the list. */
  lemma DropFirst(m: Memory, t: nat, first: int, open: seq<Ref>, n: nat, m': Memory)
    requires ListOK(m, t, first, open, n) && |open| > 0
    requires m'.next == m.next && forall u: Ref :: u != open[0] ==> V(m', u) == V(m, u)
    ensures ListOK(m', t, Next(m, open[0]), open[1..], n)
  {
    DistinctOpen(m, t, open, n);
    var o := open[1..];
    forall i | 0 <= i < |o| ensures o[i] == open[i + 1] && o[i] != open[0] {
    }
    assert forall i :: 0 <= i <= |o| ==> At(o, i) == At(open, i + 1);
  }

  // ---- The ring ----

  lemma LinkRing(m: Memory, ring: seq<Ref>, u: Ref, m': Memory)
    requires RingOK(m, ring) && u !in ring && u != UVHEAD
    requires m'.prev == m.prev[u := UVHEAD][Link(m, UVHEAD) := u]
    requires m'.link == m.link[u := Link(m, UVHEAD)][UVHEAD := u]
    ensures RingOK(m', [u] + ring)
  {
    var r := [u] + ring;
    assert Linked(m, Around(ring, 0), Around(ring, 1));
    forall i | 0 <= i <= |r| ensures Linked(m', Around(r, i), Around(r, i + 1)) {
      if i >= 2 {
        assert Around(r, i) == Around(ring, i - 1) && Around(r, i + 1) == Around(ring, i);
        assert Linked(m, Around(ring, i - 1), Around(ring, i));
      }
    }
  }

  function Without(ring: seq<Ref>, k: nat): seq<Ref>
    requires k < |ring|
  {
    ring[..k] + ring[k + 1..]
  }

  lemma UnlinkRing(m: Memory, ring: seq<Ref>, k: nat, m': Memory)
    requires RingOK(m, ring) && k < |ring|
    requires m'.prev == m.prev[Link(m, ring[k]) := Prev(m, ring[k])]
    requires m'.link == m.link[Prev(m, ring[k]) := Link(m, ring[k])]
    ensures RingOK(m', Without(ring, k))
  {
    var r := Without(ring, k);
    assert Linked(m, Around(ring, k), Around(ring, k + 1)) && Linked(m, Around(ring, k + 1), Around(ring, k + 2));
    forall i | 0 <= i <= |r| ensures Linked(m', Around(r, i), Around(r, i + 1)) {
      assert Around(r, i) == (if i <= k then Around(ring, i) else Around(ring, i + 1));
      assert Around(r, i + 1) == (if i + 1 <= k then Around(ring, i + 1) else Around(ring, i + 2));
      assert Linked(m, Around(ring, i), Around(ring, i + 1));
      assert i < |ring| ==> Linked(m, Around(ring, i + 1), Around(ring, i + 2));
    }
  }

  // ---- Closing ----

  /** The value read through an upvalue. */
  function ReadIn(m: Memory, stacks: seq<seq<Value>>, u: Ref): Value {
    match V(m, u)
    case Some((t, level)) => if t < |stacks| && level < |stacks[t]| then stacks[t][level] else Own(m, u)
    case None => Own(m, u)
  }

  /** The memory, dead upvalues and ring; closing changes nothing else but the list of a thread. */
  datatype Snapshot = Snapshot(m: Memory, dead: set<Ref>, ring: seq<Ref>)

  /**
   * Between a and b exactly the upvalues of `gone` were closed; those that were not dead keep the value read through
   * them.
   */
  ghost predicate Shut(a: Snapshot, b: Snapshot, stacks: seq<seq<Value>>, gone: set<Ref>) {
    && (forall u :: u in gone ==> V(b.m, u) == None && (u !in a.dead ==> Own(b.m, u) == ReadIn(a.m, stacks, u)))
    && (forall u: Ref :: u !in gone ==> V(b.m, u) == V(a.m, u) && Own(b.m, u) == Own(a.m, u))
    && (forall u :: u in b.ring <==> u in a.ring && u !in gone)
    && b.dead == a.dead - gone
  }

  lemma ShutThen(a: Snapshot, b: Snapshot, c: Snapshot, stacks: seq<seq<Value>>, gone: set<Ref>, more: set<Ref>)
    requires Shut(a, b, stacks, gone) && Shut(b, c, stacks, more) && gone !! more
    ensures Shut(a, c, stacks, gone + more)
  {
    forall u | u in gone ensures V(c.m, u) == None && Own(c.m, u) == Own(b.m, u) {
      assert u !in more;
    }
    forall u | u in more ensures ReadIn(b.m, stacks, u) == ReadIn(a.m, stacks, u) && (u in b.dead <==> u in a.dead) {
      assert u !in gone;
    }
  }

  lemma ShutNone(a: Snapshot, stacks: seq<seq<Value>>)
    ensures Shut(a, a, stacks, {})
  {
  }

  /** The open upvalues at or above a level are a first part of the list. */
  ghost function Above(m: Memory, open: seq<Ref>, level: nat): set<Ref> {
    set u | u in open && V(m, u).Some? && V(m, u).value.1 >= level
  }

  ghost function Elements(open: seq<Ref>): set<Ref> { set u | u in open }

  lemma AboveIs(m: Memory, t: nat, open: seq<Ref>, n: nat, level: nat, i: nat)
    requires Descends(m, t, open, n) && i <= |open|
    requires forall j :: 0 <= j < i ==> V(m, open[j]).value.1 >= level
    requires i < |open| ==> V(m, open[i]).value.1 < level
    ensures Elements(open[..i]) == Above(m, open, level)
    ensures forall u :: u in open[i..] <==> u in open && u !in Above(m, open, level)
  {
    DistinctOpen(m, t, open, n);
    forall j | i <= j < |open| ensures V(m, open[j]).value.1 < level {
    }
    forall u | u in Above(m, open, level) ensures u in open[..i] {
      var j :| 0 <= j < |open| && open[j] == u;
      assert j < i && open[..i][j] == u;
    }
    forall u | u in open && u !in Above(m, open, level) ensures u in open[i..] {
      var j :| 0 <= j < |open| && open[j] == u;
      assert j >= i && open[i..][j - i] == u;
    }
  }

  // ---- What closures mean ----

  /**
   * The variables of a program: each stack slot is used by one variable after another.  `sizes` are the sizes of the
   * stacks, `epoch` counts the variables of each slot, `store` gives the value of the e-th variable of a slot, and
   * `names` says which variable a closure holds.
   */
  datatype Variables = Variables(sizes: seq<nat>, epoch: Slot -> nat, store: (Slot, nat) -> Value, names: map<nat,
                                 (Slot, nat)>)
  {
    predicate Has(p: Slot) { p.0 < |sizes| && p.1 < sizes[p.0] }

    /** The slots of thread t from a level on. */
    predicate From(t: nat, level: nat, p: Slot) { p.0 == t && p.1 >= level && Has(p) }
  }

  datatype Op =
    | Capture(p: Slot)                  // a closure takes the variable in a slot
    | Forget(h: nat)                    // a closure disappears
    | Kill(u: Ref)                      // the collector finds an upvalue that no closure holds
    | CloseFrom(t: nat, level: nat)     // a block of a thread ends
    | SetSlot(p: Slot, v: Value)
    | SetUp(h: nat, v: Value)           // assignment through a closure
    | NewThread(n: nat)                 // a thread with a stack of n slots
    | FreeThread(t: nat)                // the collector frees a thread

  function Assigned(store: (Slot, nat) -> Value, slot: Slot, e: nat, v: Value): (Slot, nat) -> Value {
    (p: Slot, d: nat) => if p == slot && d == e then v else store(p, d)
  }

  /** Before there are any threads. */
  function NoVariables(): Variables { Variables([], (p: Slot) => 0, (p: Slot, e: nat) => 0, map[]) }

  /** From a level on every slot of thread t gets another variable, at first with the value the slot has. */
  function Ended(a: Variables, t: nat, level: nat): Variables {
    Variables(a.sizes, (p: Slot) => if a.From(t, level, p) then a.epoch(p) + 1 else a.epoch(p),
              (p: Slot, e: nat) => if a.From(t, level, p) && e == a.epoch(p) + 1 then a.store(p, e - 1)
                else a.store(p, e),
              a.names)
  }

  /** The effect of an operation on the variables; n counts the closures made so far. */
  function Effect(a: Variables, op: Op, n: nat): Variables {
    match op
    case Capture(p) => if a.Has(p) then a.(names := a.names[n := (p, a.epoch(p))]) else a
    case Forget(h) => a.(names := a.names - {h})
    case Kill(_) => a
    case CloseFrom(t, level) => Ended(a, t, level)
    case SetSlot(p, v) => if a.Has(p) then a.(store := Assigned(a.store, p, a.epoch(p), v)) else a
    case SetUp(h, v) => if h in a.names then a.(store := Assigned(a.store, a.names[h].0, a.names[h].1, v)) else a
    case NewThread(k) =>
      var t := |a.sizes|;
      Variables(a.sizes + [k], (p: Slot) => if p.0 == t then 0 else a.epoch(p),
                (p: Slot, e: nat) => if p.0 == t then 0 else a.store(p, e), a.names)
    case FreeThread(t) => if t < |a.sizes| then Ended(a, t, 0).(sizes := a.sizes[t := 0]) else a
  }

  function Effects(a: Variables, ops: seq<Op>, n: nat): Variables
    decreases |ops|
  {
    if |ops| == 0 then a
    else Effects(Effect(a, ops[0], n), ops[1..], n + 1)
  }

  // ---- The threads ----

  /** Addresses from `next` on are free; the ring holds the upvalues of all lists. */
  ghost predicate Bounded(m: Memory, opens: seq<seq<Ref>>, ring: seq<Ref>, dead: set<Ref>, next: Ref) {
    && next > UVHEAD
    && (forall t, u {:trigger u in opens[t]} :: 0 <= t < |opens| && u in opens[t] ==> u in ring)
    && (forall u :: u in ring || u in m.v || u in dead ==> u < next)
    && (forall u :: u in ring ==> V(m, u).Some? && V(m, u).value.0 < |opens| && u in opens[V(m, u).value.0])
  }

  /** The threads of a state, by number, and what they share: the upvalues and their ring. */
  class Threads {
    var stacks: seq<seq<Value>>
    var openupval: seq<int>
    var m: Memory
    var dead: set<Ref>                  // upvalues the collector has found unreachable, and not swept yet
    var nextRef: Ref                    // the next address luaM_new gives
    var captured: map<nat, Ref>         // the upvalues of the closures
    ghost var opens: seq<seq<Ref>>      // the lists openupval
    ghost var ring: seq<Ref>            // the ring uvhead: the open upvalues of all threads

    constructor ()
      ensures Valid() && stacks == [] && ring == [] && dead == {} && captured == map[] && Models(NoVariables(), 0)
    {
      stacks, openupval, opens, dead, nextRef := [], [], [], {}, 1;
      m := Memory(map[], map[], map[], map[UVHEAD := UVHEAD], map[UVHEAD := UVHEAD]);
      ring, captured := [], map[];
    }

    ghost predicate Valid()
      reads this
    {
      && RingOK(m, ring) && ListsOK(m, openupval, opens, stacks)
      && Bounded(m, opens, ring, dead, nextRef)
    }

    /** The value read through an upvalue. */
    function Read(u: Ref): Value
      reads this
    {
      ReadIn(m, stacks, u)
    }

    predicate Has(p: Slot)
      reads this
    {
      p.0 < |stacks| && p.1 < |stacks[p.0]|
    }

    /** The loop of luaF_findupval: stops at the upvalue of the level, or where it would be. */
    method Search(t: nat, level: nat) returns (pp: int, p: int, ghost k: nat)
      requires t < |opens| == |openupval| == |stacks| && ListOK(m, t, openupval[t], opens[t], |stacks[t]|)
      ensures k <= |opens[t]| && p == At(opens[t], k) && pp == At(opens[t], k - 1)
      ensures forall i :: 0 <= i < k ==> V(m, opens[t][i]).value.1 > level
      ensures p != NULL ==> V(m, p).value.1 <= level
    {
      ghost var open := opens[t];
      pp, p, k := NULL, openupval[t], 0;
      while p != NULL && V(m, p).value.1 > level
        invariant k <= |open| && p == At(open, k) && pp == At(open, k - 1)
        invariant forall i :: 0 <= i < k ==> V(m, open[i]).value.1 > level
        decreases |open| - k
      {
        pp, p, k := p, Next(m, p), k + 1;
      }
    }

    /** luaF_findupval: the upvalue of a stack slot, the one there is or a new one. */
    method FindUpval(t: nat, level: nat) returns (u: Ref)
      requires Valid() && Has((t, level))
      modifies this
      ensures Valid() && stacks == old(stacks) && captured == old(captured) && u < nextRef && nextRef >= old(nextRef)
      ensures u in opens[t] && V(m, u) == Some((t, level)) && dead == old(dead) - {u}
      ensures |opens| == |old(opens)| && forall x :: 0 <= x < |opens| && x != t ==> opens[x] == old(opens)[x]
      ensures forall w :: w in opens[t] <==> w in old(opens)[t] || w == u
      ensures u in old(opens)[t] || u == old(nextRef)
      ensures forall w: Ref :: w != old(nextRef) ==> V(m, w) == old(V(m, w)) && Own(m, w) == old(Own(m, w))
    {
      hide RingOK, ListOK, Descends, NoDup, Fits, Bounded, Inserted;
      var pp, p, k := Search(t, level);
      Addresses(m, opens, ring, dead, nextRef);
      ListOpens(m, t, openupval[t], opens[t], |stacks[t]|, k);
      if p != NULL && V(m, p).value.1 == level {
        assert p in opens[t];
        FewerDead(m, opens, ring, dead, dead - {p}, nextRef);
        dead := dead - {p};
        return p;
      }
      u := nextRef;
      nextRef := nextRef + 1;
      ghost var m0 := m.(v := m.v[u := Some((t, level))]);
      KeepBut(m, m0, openupval, opens, stacks, ring, u);
      KeepRing(m, m0, ring);
      FitsHere(m0, t, openupval[t], opens[t], k, u, |stacks[t]|, level);
      m := m.(v := m.v[u := Some((t, level))]);
      InsertOpen(t, u, pp, p, k);
      LinkUpval(u);
      InsertedMembers(old(opens)[t], k, u);
      GrownBounded(old(m), m, old(opens), opens, old(ring), dead, u, t, level);
    }

    /** The new upvalue goes into the list of thread t, between pp and p. */
    method InsertOpen(t: nat, u: Ref, pp: int, p: int, ghost k: nat)
      requires ListsOK(m, openupval, opens, stacks) && RingOK(m, ring) && t < |opens|
      requires Fits(m, t, opens[t], k, u, |stacks[t]|)
      requires p == At(opens[t], k) && pp == At(opens[t], k - 1)
      modifies `m, `openupval, `opens
      ensures ListsOK(m, openupval, opens, stacks) && RingOK(m, ring)
      ensures opens == old(opens)[t := Inserted(old(opens)[t], k, u)]
      ensures m.v == old(m.v) && m.value == old(m.value)
    {
      hide RingOK, ListOK, Fits;
      ghost var open, first, n := opens[t], openupval[t], |stacks[t]|;
      FitsInside(m, t, open, k, u, n);
      ListOpens(m, t, first, open, n, k);
      assert pp != NULL ==> pp == open[k - 1];
      m := m.(next := m.next[u := p]);
      if pp == NULL {
        openupval := openupval[t := u];
      } else {
        m := m.(next := m.next[pp := u]);
      }
      InsertList(old(m), t, first, open, n, k, u, m);
      OtherLists(old(m), m, old(openupval), opens, stacks, t);
      KeepRing(old(m), m, ring);
      opens := opens[t := Inserted(open, k, u)];
    }

    /** The new upvalue goes into the ring, after its head. */
    method LinkUpval(u: Ref)
      requires ListsOK(m, openupval, opens, stacks) && RingOK(m, ring) && u !in ring && u != UVHEAD
      modifies `m, `ring
      ensures ListsOK(m, openupval, opens, stacks) && RingOK(m, ring) && ring == [u] + old(ring)
      ensures m.v == old(m.v) && m.value == old(m.value)
    {
      hide RingOK, ListsOK;
      m := m.(prev := m.prev[u := UVHEAD], link := m.link[u := Link(m, UVHEAD)]);
      m := m.(prev := m.prev[Link(m, u) := u]);
      m := m.(link := m.link[UVHEAD := u]);
      LinkRing(old(m), ring, u, m);
      KeepLists(old(m), m, openupval, opens, stacks);
      ring := [u] + ring;
    }

    /** unlinkupval. */
    method Unlink(u: Ref, ghost k: nat)
      requires RingOK(m, ring) && k < |ring| && ring[k] == u
      modifies `m, `ring
      ensures RingOK(m, ring) && ring == Without(old(ring), k)
      ensures m.v == old(m.v) && m.value == old(m.value) && m.next == old(m.next)
    {
      hide RingOK;
      ghost var m1 := m.(prev := m.prev[Link(m, u) := Prev(m, u)], link := m.link[Prev(m, u) := Link(m, u)]);
      UnlinkRing(m, ring, k, m1);
      NotItsOwnNeighbour(m, ring, k);
      m := m.(prev := m.prev[Link(m, u) := Prev(m, u)]);
      m := m.(link := m.link[Prev(m, u) := Link(m, u)]);
      ring := Without(ring, k);
    }

    ghost function Now(): Snapshot
      reads this
    {
      Snapshot(m, dead, ring)
    }

    /** One turn of luaF_close: the first upvalue of the list is closed, or freed if it is dead. */
    method CloseFirst(t: nat)
      requires Valid() && t < |opens| && |opens[t]| > 0
      modifies this
      ensures Valid() && stacks == old(stacks) && captured == old(captured) && nextRef == old(nextRef)
      ensures opens == old(opens)[t := old(opens)[t][1..]]
      ensures Shut(old(Now()), Now(), stacks, {old(opens)[t][0]})
    {
      hide RingOK, ListOK, Descends, NoDup, Bounded, Shut;
      ghost var open, n := opens[t], |stacks[t]|;
      ListOpens(m, t, openupval[t], open, n, 0);
      FirstIs(m, t, openupval[t], open, n);
      var u: Ref := openupval[t];
      InRing(m, opens, ring, dead, nextRef, t);
      ghost var k :| 0 <= k < |ring| && ring[k] == u;
      RingWithout(m, ring, k);
      openupval := openupval[t := Next(m, u)];
      Unlink(u, k);
      ghost var m1 := m;
      if u in dead {
        dead := dead - {u};
        m := m.(v := m.v - {u}, value := m.value - {u});
      } else {
        m := m.(value := m.value[u := stacks[t][V(m, u).value.1]]);
        m := m.(v := m.v[u := None]);
      }
      KeepRing(m1, m, ring);
      DropFirst(old(m), t, u, open, n, m);
      DistinctList(old(m), t, u, open, n);
      OtherLists(old(m), m, old(openupval), opens, stacks, t);
      FirstLeaves(open);
      ShutOne(old(Now()), Now(), stacks, u);
      ListMembers(old(m), old(openupval), opens, stacks);
      StillBounded(old(m), m, opens, old(ring), ring, old(dead), dead, nextRef, t, u);
      opens := opens[t := open[1..]];
    }

    /** luaF_close: exactly the upvalues of the thread at or above the level are closed. */
    method Close(t: nat, level: nat)
      requires Valid() && t < |opens|
      modifies this
      ensures Valid() && stacks == old(stacks) && captured == old(captured) && nextRef == old(nextRef)
      ensures Shut(old(Now()), Now(), stacks, Above(old(m), old(opens)[t], level))
      ensures |opens| == |old(opens)| && forall x :: 0 <= x < |opens| && x != t ==> opens[x] == old(opens)[x]
      ensures level == 0 ==> opens[t] == []
      ensures forall u :: u in opens[t] <==> u in old(opens)[t] && u !in Above(old(m), old(opens)[t], level)
    {
      hide Bounded, RingOK, ListOK, Shut;
      ghost var all, i, n := opens[t], 0, |stacks[t]|;
      OpenLevels(m, t, openupval[t], all, n);
      FirstIs(m, t, openupval[t], all, n);
      ShutNone(Now(), stacks);
      assert all[0..] == all && Elements(all[..0]) == {};
      while openupval[t] != NULL && V(m, openupval[t]).value.1 >= level
        invariant 0 <= i <= |all| && Valid() && stacks == old(stacks) && captured == old(captured)
        invariant nextRef == old(nextRef)
        invariant opens == old(opens)[t := all[i..]]
        invariant openupval[t] == At(opens[t], 0)
        invariant |opens[t]| > 0 ==> V(m, opens[t][0]).Some? && V(m, opens[t][0]) == old(V(m, all[i]))
        invariant forall j :: 0 <= j < i ==> old(V(m, all[j])).value.1 >= level
        invariant Shut(old(Now()), Now(), stacks, Elements(all[..i]))
        decreases |all| - i
      {
        ghost var before := Now();
        assert all[..i + 1] == all[..i] + [all[i]];
        assert Elements(all[..i + 1]) == Elements(all[..i]) + {all[i]};
        CloseFirst(t);
        ShutThen(old(Now()), before, Now(), stacks, Elements(all[..i]), {all[i]});
        i := i + 1;
        FirstIs(m, t, openupval[t], opens[t], n);
        ShutKeeps(old(Now()), Now(), stacks, all, i);
      }
      AboveIs(old(m), t, all, n, level, i);
    }

    /** The closure h holds the variable (p, e): shared while the variable lives in its slot, and its own afterwards. */
    ghost predicate Holds(a: Variables, h: nat)
      requires h in captured && h in a.names
      reads this
    {
      var (p, e) := a.names[h];
      var u := captured[h];
      && p.0 < |a.sizes| && e <= a.epoch(p) && u !in dead && u < nextRef
      && if e == a.epoch(p) then a.Has(p) && p.0 < |opens| && u in opens[p.0] && V(m, u) == Some(p)
         else V(m, u) == None && Own(m, u) == a.store(p, e)
    }

    /** The state of the threads represents the variables. */
    ghost predicate Models(a: Variables, n: nat)
      reads this
    {
      && |a.sizes| == |stacks| && (forall t :: 0 <= t < |stacks| ==> a.sizes[t] == |stacks[t]|)
      && captured.Keys == a.names.Keys && (forall h :: h in captured ==> h < n)
      && (forall t: nat, s: nat {:trigger stacks[t][s]} ::
            t < |stacks| && s < |stacks[t]| ==> stacks[t][s] == a.store((t, s), a.epoch((t, s))))
      && (forall h :: h in captured ==> Holds(a, h))
      && (forall h, h' :: h in captured && h' in captured ==>
            (captured[h] == captured[h'] <==> a.names[h] == a.names[h']))
    }

    /** Every closure reads the value of its variable. */
    lemma ClosuresRead(a: Variables, n: nat)
      requires Valid() && Models(a, n)
      ensures forall h :: h in captured ==> Read(captured[h]) == a.store(a.names[h].0, a.names[h].1)
    {
      forall h | h in captured ensures Read(captured[h]) == a.store(a.names[h].0, a.names[h].1) {
        assert Holds(a, h);
        var p := a.names[h].0;
        assert a.Has(p) ==> stacks[p.0][p.1] == a.store((p.0, p.1), a.epoch((p.0, p.1)));
      }
    }

    /** A closure captures the variable in a slot. */
    method CaptureSlot(p: Slot, n: nat, ghost a: Variables)
      requires Valid() && Models(a, n) && Has(p)
      modifies this
      ensures Valid() && Models(Effect(a, Capture(p), n), n + 1)
    {
      hide Bounded, RingOK, ListOK, Descends, NoDup;
      var u := FindUpval(p.0, p.1);
      OpenLevels(m, p.0, openupval[p.0], opens[p.0], |stacks[p.0]|);
      captured := captured[n := u];
      ghost var b := Effect(a, Capture(p), n);
      assert n !in old(captured);
      forall h | h in captured ensures Holds(b, h) {
        if h != n {
          assert old(Holds(a, h));
        }
      }
      forall h | h in old(captured) ensures old(captured)[h] == u <==> a.names[h] == b.names[n] {
        assert old(Holds(a, h)) && Holds(b, h);
        OneUpvalue(m, p.0, opens[p.0], |stacks[p.0]|, u, old(captured)[h]);
      }
    }

    /** The block that ends closes its variables; their slots are free for others. */
    method EndBlock(t: nat, level: nat, n: nat, ghost a: Variables)
      requires Valid() && Models(a, n) && t < |stacks|
      modifies this
      ensures Valid() && Models(Effect(a, CloseFrom(t, level), n), n + 1)
      ensures stacks == old(stacks) && (level == 0 ==> opens[t] == [])
    {
      hide Bounded, RingOK, ListOK, Descends, NoDup;
      ListMembers(m, openupval, opens, stacks);
      Close(t, level);
      ghost var b := Effect(a, CloseFrom(t, level), n);
      forall h | h in captured ensures Holds(b, h) {
        assert old(Holds(a, h));
        ghost var (p, e) := a.names[h];
        ghost var u := captured[h];
        assert a.Has(p) ==> old(stacks)[p.0][p.1] == a.store((p.0, p.1), a.epoch((p.0, p.1)));
        assert u in Above(old(m), old(opens)[t], level) <==> e == a.epoch(p) && a.From(t, level, p);
      }
    }

    /** luaE_newthread: a stack of n slots, which nothing refers to. */
    method MakeThread(size: nat, n: nat, ghost a: Variables)
      requires Valid() && Models(a, n)
      modifies this
      ensures Valid() && Models(Effect(a, NewThread(size), n), n + 1)
    {
      hide RingOK, ListOK, Descends, NoDup;
      EmptyList(m, |stacks|, size);
      stacks, openupval, opens := stacks + [seq(size, _ => 0)], openupval + [NULL], opens + [[]];
      ghost var b := Effect(a, NewThread(size), n);
      forall h | h in captured ensures Holds(b, h) {
        assert old(Holds(a, h));
      }
    }

    /** luaE_freethread: its variables live on in the closures of other threads. */
    method DropThread(t: nat, n: nat, ghost a: Variables)
      requires Valid() && Models(a, n) && t < |stacks|
      modifies this
      ensures Valid() && t < |opens| && opens[t] == [] && Models(Effect(a, FreeThread(t), n), n + 1)
    {
      hide RingOK, ListOK, Descends, NoDup, Bounded, Effect;
      EndBlock(t, 0, n, a);
      FirstIs(m, t, openupval[t], opens[t], |stacks[t]|);
      EmptyList(m, t, 0);
      stacks := stacks[t := []];
      FreedThread(a, Effect(a, CloseFrom(t, 0), n), t, n);
      ghost var c, b := Effect(a, CloseFrom(t, 0), n), Effect(a, FreeThread(t), n);
      forall h | h in captured ensures Holds(b, h) {
        assert Holds(c, h);
      }
    }

    /** An assignment to the variable in a slot. */
    method WriteSlot(p: Slot, v: Value, n: nat, ghost a: Variables)
      requires Valid() && Models(a, n) && Has(p)
      modifies this
      ensures Valid() && Models(Effect(a, SetSlot(p, v), n), n + 1)
    {
      hide Bounded, RingOK, ListOK, Descends, NoDup;
      var stack: seq<Value> := stacks[p.0][p.1 := v];
      stacks := stacks[p.0 := stack];
      ghost var b := Effect(a, SetSlot(p, v), n);
      forall h | h in captured ensures Holds(b, h) {
        assert old(Holds(a, h));
      }
    }

    /** An assignment through a closure (OP_SETUPVAL). */
    method WriteUpvalue(h: nat, v: Value, n: nat, ghost a: Variables)
      requires Valid() && Models(a, n) && h in captured
      modifies this
      ensures Valid() && Models(Effect(a, SetUp(h, v), n), n + 1)
    {
      hide RingOK, ListOK, Descends, NoDup, Bounded, Models, Effect;
      HoldsWhere(a, h, n);
      var u := captured[h];
      if V(m, u).Some? {
        SameVariable(a, h, V(m, u).value, v, n);
        WriteSlot(V(m, u).value, v, n, a);
      } else {
        WriteClosed(h, u, v, n, a);
      }
    }

    lemma HoldsWhere(a: Variables, h: nat, n: nat)
      requires Models(a, n) && h in captured
      ensures h in a.names
      ensures V(m, captured[h]).Some? ==>
                var p := V(m, captured[h]).value; Has(p) && a.Has(p) && a.names[h] == (p, a.epoch(p))
    {
      assert Holds(a, h);
    }

    /** The upvalue is closed: the assignment goes to its own value. */
    method WriteClosed(h: nat, u: Ref, v: Value, n: nat, ghost a: Variables)
      requires Valid() && Models(a, n) && h in captured && u == captured[h] && V(m, u).None?
      modifies this
      ensures Valid() && Models(Effect(a, SetUp(h, v), n), n + 1)
    {
      hide RingOK, ListsOK;
      assert Holds(a, h);
      m := m.(value := m.value[u := v]);
      KeepRing(old(m), m, ring);
      KeepLists(old(m), m, openupval, opens, stacks);
      ghost var b := Effect(a, SetUp(h, v), n);
      forall g | g in captured ensures Holds(b, g) {
        assert old(Holds(a, g));
      }
    }

    /** A closure disappears. */
    method ForgetClosure(h: nat, n: nat, ghost a: Variables)
      requires Valid() && Models(a, n)
      modifies `captured
      ensures Valid() && Models(Effect(a, Forget(h), n), n + 1)
    {
      hide RingOK, ListsOK, Bounded;
      captured := captured - {h};
      forall g | g in captured ensures Holds(Effect(a, Forget(h), n), g) {
        assert old(Holds(a, g));
      }
    }

    /** The collector finds an upvalue dead, which it may once no closure holds it. */
    method FindDead(u: Ref, n: nat, ghost a: Variables)
      requires Valid() && Models(a, n)
      modifies `dead
      ensures Valid() && Models(Effect(a, Kill(u), n), n + 1)
    {
      hide RingOK, ListsOK;
      if u in m.v && u !in captured.Values {
        dead := dead + {u};
      }
      forall g | g in captured ensures Holds(Effect(a, Kill(u), n), g) {
        assert old(Holds(a, g));
        assert captured[g] in captured.Values;
      }
    }

    /**
     * Any program of captures, blocks, assignments and threads: in the end every closure reads the value its variable
     * has, whether the variable still lives in a slot of its thread or not, also when the thread is gone, and closures
     * over the same variable share it.
     */
    method Run(ops: seq<Op>, ghost a: Variables) returns (ghost b: Variables)
      requires Valid() && Models(a, 0)
      modifies this
      ensures Valid() && b == Effects(a, ops, 0) && Models(b, |ops|)
      ensures forall h :: h in captured ==> h in b.names && Read(captured[h]) == b.store(b.names[h].0, b.names[h].1)
      ensures forall h, h' :: h in captured && h' in captured ==>
                (captured[h] == captured[h'] <==> b.names[h] == b.names[h'])
    {
      hide RingOK, ListsOK, Effect;
      b := a;
      var i := 0;
      assert ops[0..] == ops;
      while i < |ops|
        invariant 0 <= i <= |ops| && Valid() && Models(b, i)
        invariant Effects(b, ops[i..], i) == Effects(a, ops, 0)
      {
        assert ops[i..][0] == ops[i] && ops[i..][1..] == ops[i + 1..];
        Step(ops[i], i, b);
        b, i := Effect(b, ops[i], i), i + 1;
      }
      ClosuresRead(b, |ops|);
    }

    /** One operation; those on slots, threads and closures that do not exist do nothing. */
    method Step(op: Op, n: nat, ghost a: Variables)
      requires Valid() && Models(a, n)
      modifies this
      ensures Valid() && Models(Effect(a, op, n), n + 1)
    {
      hide RingOK, ListOK, Bounded;
      match op {
        case Capture(p) => if Has(p) { CaptureSlot(p, n, a); }
        case CloseFrom(t, level) => if t < |stacks| { EndBlock(t, level, n, a); } else { Untouched(a, op, n); }
        case SetSlot(p, v) => if Has(p) { WriteSlot(p, v, n, a); }
        case SetUp(h, v) => if h in captured { WriteUpvalue(h, v, n, a); }
        case Forget(h) => ForgetClosure(h, n, a);
        case Kill(u) => FindDead(u, n, a);
        case NewThread(k) => MakeThread(k, n, a);
        case FreeThread(t) => if t < |stacks| { DropThread(t, n, a); }
      }
    }

    /** The end of a block of a thread that does not exist. */
    lemma Untouched(a: Variables, op: Op, n: nat)
      requires Models(a, n) && op.CloseFrom? && op.t >= |stacks|
      ensures Models(Effect(a, op, n), n + 1)
    {
      var b := Effect(a, op, n);
      forall h | h in captured ensures Holds(b, h) {
        assert Holds(a, h);
      }
    }
  }

  /** To assign through a closure to a variable in its slot is to assign to the slot. */
  lemma SameVariable(a: Variables, h: nat, slot: Slot, v: Value, n: nat)
    requires h in a.names && a.Has(slot) && a.names[h] == (slot, a.epoch(slot))
    ensures Effect(a, SetUp(h, v), n) == Effect(a, SetSlot(slot, v), n)
  {
  }

  lemma FreedThread(a: Variables, c: Variables, t: nat, n: nat)
    requires t < |a.sizes| && c == Effect(a, CloseFrom(t, 0), n)
    ensures Effect(a, FreeThread(t), n) == c.(sizes := a.sizes[t := 0])
  {
  }

  lemma EmptyList(m: Memory, t: nat, n: nat)
    ensures ListOK(m, t, NULL, [], n)
  {
  }

  lemma ListMembers(m: Memory, first: seq<int>, opens: seq<seq<Ref>>, stacks: seq<seq<Value>>)
    requires ListsOK(m, first, opens, stacks)
    ensures forall x, w {:trigger w in opens[x]} :: 0 <= x < |opens| && w in opens[x] ==>
              V(m, w).Some? && V(m, w).value.0 == x
  {
    forall x, w | 0 <= x < |opens| && w in opens[x] ensures V(m, w).Some? && V(m, w).value.0 == x {
      ListOpens(m, x, first[x], opens[x], |stacks[x]|, 0);
    }
  }

  lemma InRing(m: Memory, opens: seq<seq<Ref>>, ring: seq<Ref>, dead: set<Ref>, next: Ref, t: nat)
    requires Bounded(m, opens, ring, dead, next) && t < |opens| && |opens[t]| > 0
    ensures opens[t][0] in ring
  {
    assert opens[t][0] in opens[t];
  }

  /** The upvalue u leaves the list of its thread, and the ring. */
  lemma StillBounded(m: Memory, m': Memory, opens: seq<seq<Ref>>, ring: seq<Ref>, ring': seq<Ref>, dead: set<Ref>,
                     dead': set<Ref>,
                     next: Ref, t: nat, u: Ref)
    requires Bounded(m, opens, ring, dead, next) && t < |opens| && |opens[t]| > 0 && u == opens[t][0]
    requires (forall w :: w in ring' <==> w in ring && w != u) && dead' <= dead
    requires forall w :: w in opens[t][1..] <==> w in opens[t] && w != u
    requires forall w: Ref :: w != u ==> V(m', w) == V(m, w) && (w in m'.v ==> w in m.v)
    requires forall x, w {:trigger w in opens[x]} :: 0 <= x < |opens| && w in opens[x] ==>
               V(m, w).Some? && V(m, w).value.0 == x
    ensures Bounded(m', opens[t := opens[t][1..]], ring', dead', next)
  {
    var opens' := opens[t := opens[t][1..]];
    forall x, w | 0 <= x < |opens'| && w in opens'[x] ensures w in ring' {
      assert w in opens[x];
      assert u in opens[t];
    }
  }

  lemma Addresses(m: Memory, opens: seq<seq<Ref>>, ring: seq<Ref>, dead: set<Ref>, next: Ref)
    requires Bounded(m, opens, ring, dead, next)
    ensures next !in ring && next != UVHEAD && next !in dead && V(m, next).None?
    ensures forall t, u {:trigger u in opens[t]} :: 0 <= t < |opens| && u in opens[t] ==> u in ring && u < next
  {
  }

  lemma FewerDead(m: Memory, opens: seq<seq<Ref>>, ring: seq<Ref>, dead: set<Ref>, dead': set<Ref>, next: Ref)
    requires Bounded(m, opens, ring, dead, next) && dead' <= dead
    ensures Bounded(m, opens, ring, dead', next)
  {
  }

  /** The new upvalue u, for a slot of thread t. */
  lemma GrownBounded(m: Memory, m': Memory, opens: seq<seq<Ref>>, opens': seq<seq<Ref>>, ring: seq<Ref>,
                     dead: set<Ref>, u: Ref,
                     t: nat, level: nat)
    requires Bounded(m, opens, ring, dead, u) && t < |opens| == |opens'|
    requires forall w :: w in opens'[t] <==> w in opens[t] || w == u
    requires forall x :: 0 <= x < |opens| && x != t ==> opens'[x] == opens[x]
    requires m'.v == m.v[u := Some((t, level))]
    ensures Bounded(m', opens', [u] + ring, dead, u + 1)
  {
    forall x, w | 0 <= x < |opens'| && w in opens'[x] ensures w in [u] + ring {
      assert w == u || w in opens[x];
    }
  }

  lemma ShutOne(a: Snapshot, b: Snapshot, stacks: seq<seq<Value>>, u: Ref)
    requires V(a.m, u).Some? && b.dead == a.dead - {u} && V(b.m, u).None?
    requires u !in a.dead ==> Own(b.m, u) == ReadIn(a.m, stacks, u)
    requires forall w: Ref :: w != u ==> V(b.m, w) == V(a.m, w) && Own(b.m, w) == Own(a.m, w)
    requires forall w :: w in b.ring <==> w in a.ring && w != u
    ensures Shut(a, b, stacks, {u})
  {
  }

  lemma InsertedMembers(open: seq<Ref>, k: nat, u: Ref)
    requires k <= |open|
    ensures forall w :: w in Inserted(open, k, u) <==> w in open || w == u
  {
    assert open == open[..k] + open[k..];
  }

  lemma FirstLeaves(open: seq<Ref>)
    requires |open| > 0 && NoDup(open)
    ensures forall w :: w in open[1..] <==> w in open && w != open[0]
  {
    assert open == [open[0]] + open[1..];
  }

  /** A new upvalue changes no list. */
  lemma KeepBut(m: Memory, m': Memory, first: seq<int>, opens: seq<seq<Ref>>, stacks: seq<seq<Value>>, ring: seq<Ref>,
                u: Ref)
    requires ListsOK(m, first, opens, stacks) && m'.next == m.next && u !in ring
    requires forall t, w {:trigger w in opens[t]} :: 0 <= t < |opens| && w in opens[t] ==> w in ring
    requires forall w: Ref :: w != u ==> V(m', w) == V(m, w)
    ensures ListsOK(m', first, opens, stacks)
  {
    forall x | 0 <= x < |opens| ensures ListOK(m', x, first[x], opens[x], |stacks[x]|) {
      KeepList(m, m', x, first[x], opens[x], |stacks[x]|);
    }
  }

  lemma FitsInside(m: Memory, t: nat, open: seq<Ref>, k: nat, u: Ref, n: nat)
    requires Fits(m, t, open, k, u, n)
    ensures k <= |open| && (At(open, k - 1) == NULL <==> k == 0) && V(m, u).Some? && V(m, u).value.0 == t
  {
  }

  lemma ListOpens(m: Memory, t: nat, first: int, open: seq<Ref>, n: nat, k: nat)
    requires ListOK(m, t, first, open, n) && k <= |open|
    ensures forall i :: 0 <= i < |open| ==>
              V(m, open[i]).Some? && V(m, open[i]).value.0 == t && V(m, open[i]).value.1 < n
    ensures At(open, k) != NULL ==> k < |open|
  {
  }

  lemma FitsHere(m: Memory, t: nat, first: int, open: seq<Ref>, k: nat, u: Ref, n: nat, level: nat)
    requires ListOK(m, t, first, open, n) && k <= |open| && u !in open && V(m, u) == Some((t, level)) && level < n
    requires (forall i :: 0 <= i < k ==> V(m, open[i]).value.1 > level)
    requires (k < |open| ==> V(m, open[k]).value.1 < level)
    ensures Fits(m, t, open, k, u, n)
  {
  }

  lemma KeepList(m: Memory, m': Memory, t: nat, first: int, open: seq<Ref>, n: nat)
    requires ListOK(m, t, first, open, n)
    requires forall u: Ref :: u in open ==> V(m', u) == V(m, u) && Next(m', u) == Next(m, u)
    ensures ListOK(m', t, first, open, n)
  {
    hide Descends;
    forall i | 0 <= i < |open| ensures V(m', open[i]) == V(m, open[i]) && Next(m', open[i]) == Next(m, open[i]) {
      assert open[i] in open;
    }
    SameLevels(m, m', t, open, n);
  }

  lemma KeepRing(m: Memory, m': Memory, ring: seq<Ref>)
    requires RingOK(m, ring) && m'.prev == m.prev && m'.link == m.link
    ensures RingOK(m', ring)
  {
    forall i | 0 <= i <= |ring| ensures Linked(m', Around(ring, i), Around(ring, i + 1)) {
      assert Linked(m, Around(ring, i), Around(ring, i + 1));
    }
  }

  lemma NotItsOwnNeighbour(m: Memory, ring: seq<Ref>, k: nat)
    requires RingOK(m, ring) && k < |ring|
    ensures Link(m, ring[k]) != ring[k] && Prev(m, ring[k]) != ring[k]
  {
    assert Linked(m, Around(ring, k), Around(ring, k + 1)) && Linked(m, Around(ring, k + 1), Around(ring, k + 2));
  }

  lemma FirstIs(m: Memory, t: nat, first: int, open: seq<Ref>, n: nat)
    requires ListOK(m, t, first, open, n)
    ensures first == At(open, 0) && (first == NULL <==> open == []) && (|open| > 0 ==> V(m, open[0]).Some?)
  {
  }

  lemma DistinctList(m: Memory, t: nat, first: int, open: seq<Ref>, n: nat)
    requires ListOK(m, t, first, open, n)
    ensures NoDup(open)
  {
    DistinctOpen(m, t, open, n);
  }

  lemma RingWithout(m: Memory, ring: seq<Ref>, k: nat)
    requires RingOK(m, ring) && k < |ring|
    ensures forall w :: w in Without(ring, k) <==> w in ring && w != ring[k]
  {
    forall w | w in ring && w != ring[k] ensures w in Without(ring, k) {
      var i :| 0 <= i < |ring| && ring[i] == w;
      assert w == if i < k then ring[..k][i] else ring[k + 1..][i - k - 1];
    }
  }

  lemma OpenLevels(m: Memory, t: nat, first: int, open: seq<Ref>, n: nat)
    requires ListOK(m, t, first, open, n)
    ensures NoDup(open) && Descends(m, t, open, n)
  {
    DistinctOpen(m, t, open, n);
  }

  lemma ShutKeeps(a: Snapshot, b: Snapshot, stacks: seq<seq<Value>>, all: seq<Ref>, i: nat)
    requires i <= |all| && Shut(a, b, stacks, Elements(all[..i])) && NoDup(all)
    ensures i < |all| ==> V(b.m, all[i]) == V(a.m, all[i])
  {
  }

  /** At most one open upvalue for a slot. */
  lemma OneUpvalue(m: Memory, t: nat, open: seq<Ref>, n: nat, u: Ref, w: Ref)
    requires Descends(m, t, open, n)
    ensures u in open && w in open && V(m, u) == V(m, w) ==> u == w
  {
  }

  /** The lists of the other threads do not notice what happens to the upvalues of thread t. */
  lemma OtherLists(m: Memory, m': Memory, first: seq<int>, opens: seq<seq<Ref>>, stacks: seq<seq<Value>>, t: nat)
    requires ListsOK(m, first, opens, stacks)
    requires forall u: Ref :: V(m, u).Some? && V(m, u).value.0 != t ==> V(m', u) == V(m, u) && Next(m', u) == Next(m, u)
    ensures forall x :: 0 <= x < |opens| && x != t ==> ListOK(m', x, first[x], opens[x], |stacks[x]|)
  {
    forall x | 0 <= x < |opens| && x != t ensures ListOK(m', x, first[x], opens[x], |stacks[x]|) {
      ListOpens(m, x, first[x], opens[x], |stacks[x]|, 0);
      KeepList(m, m', x, first[x], opens[x], |stacks[x]|);
    }
  }

  lemma KeepLists(m: Memory, m': Memory, first: seq<int>, opens: seq<seq<Ref>>, stacks: seq<seq<Value>>)
    requires ListsOK(m, first, opens, stacks) && m'.v == m.v && m'.next == m.next
    ensures ListsOK(m', first, opens, stacks)
  {
    forall x | 0 <= x < |opens| ensures ListOK(m', x, first[x], opens[x], |stacks[x]|) {
      KeepList(m, m', x, first[x], opens[x], |stacks[x]|);
    }
  }
}
