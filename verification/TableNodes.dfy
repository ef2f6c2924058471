/**
 * The hash part of a table (ltable.c): nodes in one vector, chained through `next` from the main positions of their
 * keys.
 */
module TableNodes {

  /**
   * Keys: nil, an integral number, an object at some address, or any other value.  The collector turns the key of a
   * node without a value into a dead key, which keeps the address of its object.
   */
  datatype TKey = KNil | KInt(n: int) | KOther(id: nat) | KObject(id: nat) | KDead(id: nat) {
    predicate Live() { !KNil? && !KDead? }
  }

  /** The keys that a program can hold. */
  type Key = k: TKey | !k.KDead? witness KNil

  /** What a key compares as when a traversal resumes: a dead key as its object. */
  function Ident(k: TKey): TKey { if k.KDead? then KObject(k.id) else k }

  datatype Value = Nil | Val(id: nat)

  datatype Node = Node(key: TKey, val: Value, next: int)

  const NONE: int := -1
  const EMPTY_NODE := Node(KNil, Nil, NONE)

  type Nodes = seq<Node>

  /** A hash function; the main position of a key also depends on the number of nodes. */
  type Hash = (TKey, nat) -> nat

  function MainPosition(h: Hash, k: TKey, size: nat): (p: nat)
    requires size > 0
    ensures p < size
  {
    h(Ident(k), size) % size
  }

  /** From node a, following `next` some number of times leads to node b. */
  ghost predicate Hops(s: Nodes, a: int, b: int, n: nat)
    decreases n
  {
    && 0 <= a < |s|
    && if n == 0 then a == b else Hops(s, s[a].next, b, n - 1)
  }

  ghost predicate Reach(s: Nodes, a: int, b: int) { exists n: nat :: Hops(s, a, b, n) }

  /** The links form disjoint acyclic paths over the nodes with a key; rank goes down along them. */
  ghost predicate Linked(s: Nodes, rank: seq<nat>) {
    && |rank| == |s|
    && (forall i :: 0 <= i < |s| ==> NONE <= s[i].next < |s|)
    && (forall i :: 0 <= i < |s| && s[i].key.KNil? ==> s[i] == EMPTY_NODE)
    && (forall i :: 0 <= i < |s| && s[i].next >= 0 ==> !s[s[i].next].key.KNil? && rank[s[i].next] < rank[i])
    && (forall i, j :: 0 <= i < j < |s| && s[i].next == s[j].next ==> s[i].next == NONE)
  }

  ghost predicate Distinct(s: Nodes) {
    forall i, j :: 0 <= i < j < |s| && s[i].key == s[j].key ==> !s[i].key.Live()
  }

  /** A dead key does not come before the live key of the same object. */
  ghost predicate Behind(s: Nodes, d: nat, e: nat)
    requires d < |s| && e < |s|
  {
    s[d].key.KDead? && s[e].key == Ident(s[d].key) ==> !Reach(s, d, e)
  }

  ghost predicate Fronted(s: Nodes) {
    forall d: nat, e: nat {:trigger Behind(s, d, e)} :: d < |s| && e < |s| ==> Behind(s, d, e)
  }

  /** The key of node i is on the path from its main position, where some key with that main position is. */
  ghost predicate Placed(h: Hash, s: Nodes, i: nat)
    requires i < |s|
  {
    !s[i].key.KNil? ==>
      var m := MainPosition(h, s[i].key, |s|);
      Reach(s, m, i) && !s[m].key.KNil? && MainPosition(h, s[m].key, |s|) == m
  }

  ghost predicate WellFormed(h: Hash, s: Nodes, rank: seq<nat>) {
    && |s| > 0
    && Linked(s, rank)
    && Distinct(s)
    && (forall i: nat :: i < |s| ==> Placed(h, s, i))
    && Fronted(s)
  }

  /** The node that has the key k, or none. */
  ghost predicate IsNode(s: Nodes, k: TKey, p: int) {
    if p == NONE then forall i :: 0 <= i < |s| ==> s[i].key != k
    else 0 <= p < |s| && s[p].key == k
  }

  // ---- Three ways to place a new key ----

  /** The main position holds no value: the key goes there. */
  function PlaceFree(s: Nodes, mp: nat, k: TKey): Nodes
    requires mp < |s|
  {
    s[mp := s[mp].(key := k)]
  }

  /** The main position holds a key that belongs there: the new key goes to the free node n, after it in the path. */
  function PlaceAfter(s: Nodes, mp: nat, n: nat, k: TKey): Nodes
    requires mp < |s| && n < |s|
  {
    s[n := Node(k, Nil, s[mp].next)][mp := s[mp].(next := n)]
  }

  /** The main position holds a key from elsewhere: it moves to the free node n, and `prev` now leads there. */
  function PlaceMoved(s: Nodes, mp: nat, n: nat, prev: nat, k: TKey): Nodes
    requires mp < |s| && n < |s| && prev < |s|
  {
    s[prev := s[prev].(next := n)][n := s[mp]][mp := Node(k, Nil, NONE)]
  }

  // ---- Paths ----

  /** Every hop is at least one hop in the new vector, where node x has become y. */
  ghost predicate Follows(s: Nodes, s': Nodes, x: int, y: int) {
    forall i :: 0 <= i < |s| && s[i].next != NONE && 0 <= s[i].next < |s| ==>
      Reach(s', Moved(i, x, y), Moved(s[i].next, x, y))
  }

  function Moved(i: int, x: int, y: int): int { if i == x then y else i }

  lemma {:induction false} HopsThen(s: Nodes, a: int, b: int, c: int, n: nat, m: nat)
    requires Hops(s, a, b, n) && Hops(s, b, c, m)
    ensures Hops(s, a, c, n + m)
    decreases n
  {
    if n > 0 {
      HopsThen(s, s[a].next, b, c, n - 1, m);
    }
  }

  lemma ReachThen(s: Nodes, a: int, b: int, c: int)
    requires Reach(s, a, b) && Reach(s, b, c)
    ensures Reach(s, a, c)
  {
    var n: nat :| Hops(s, a, b, n);
    var m: nat :| Hops(s, b, c, m);
    HopsThen(s, a, b, c, n, m);
  }

  lemma ReachSelf(s: Nodes, a: nat)
    requires a < |s|
    ensures Reach(s, a, a)
  {
    assert Hops(s, a, a, 0);
  }

  lemma ReachNext(s: Nodes, a: nat)
    requires a < |s| && 0 <= s[a].next < |s|
    ensures Reach(s, a, s[a].next)
  {
    assert Hops(s, s[a].next, s[a].next, 0);
    assert Hops(s, a, s[a].next, 1);
  }

  lemma {:induction false} HopsRank(s: Nodes, rank: seq<nat>, a: int, b: int, n: nat)
    requires Linked(s, rank) && Hops(s, a, b, n)
    ensures 0 <= b < |s| && rank[b] <= rank[a] && (n > 0 ==> rank[b] < rank[a])
    decreases n
  {
    if n > 0 {
      assert Hops(s, s[a].next, b, n - 1);
      HopsRank(s, rank, s[a].next, b, n - 1);
    }
  }

  /** The paths are acyclic. */
  lemma ReachRank(s: Nodes, rank: seq<nat>, a: int, b: int)
    requires Linked(s, rank) && Reach(s, a, b) && Reach(s, b, a)
    ensures a == b
  {
    var n: nat :| Hops(s, a, b, n);
    var m: nat :| Hops(s, b, a, m);
    HopsRank(s, rank, a, b, n);
    HopsRank(s, rank, b, a, m);
  }

  /** The other way to see a path: one hop, then the rest. */
  lemma ReachStep(s: Nodes, a: int, b: int)
    requires Reach(s, a, b) && a != b
    ensures 0 <= a < |s| && Reach(s, s[a].next, b)
  {
    var n: nat :| Hops(s, a, b, n);
    assert Hops(s, s[a].next, b, n - 1);
  }

  lemma {:induction false} HopsFollow(s: Nodes, s': Nodes, x: int, y: int, a: int, b: int, n: nat)
    requires |s'| == |s| && Follows(s, s', x, y) && Hops(s, a, b, n) && 0 <= Moved(b, x, y) < |s|
    ensures Reach(s', Moved(a, x, y), Moved(b, x, y))
    decreases n
  {
    if n == 0 {
      ReachSelf(s', Moved(b, x, y));
    } else {
      HopsFollow(s, s', x, y, s[a].next, b, n - 1);
      assert Hops(s, s[a].next, b, n - 1);
      ReachThen(s', Moved(a, x, y), Moved(s[a].next, x, y), Moved(b, x, y));
    }
  }

  lemma ReachFollows(s: Nodes, s': Nodes, x: int, y: int, a: int, b: int)
    requires |s'| == |s| && Follows(s, s', x, y) && Reach(s, a, b) && 0 <= Moved(b, x, y) < |s|
    ensures Reach(s', Moved(a, x, y), Moved(b, x, y))
  {
    var n: nat :| Hops(s, a, b, n);
    HopsFollow(s, s', x, y, a, b, n);
  }

  // ---- Placing a key keeps the structure ----

  lemma LinksKept(s: Nodes, s': Nodes)
    requires |s'| == |s| && forall i :: 0 <= i < |s| ==> s'[i].next == s[i].next
    requires forall i :: 0 <= i < |s| ==> NONE <= s[i].next < |s|
    ensures Follows(s, s', NONE, NONE)
  {
    forall i | 0 <= i < |s| && s[i].next != NONE && 0 <= s[i].next < |s|
      ensures Reach(s', Moved(i, NONE, NONE), Moved(s[i].next, NONE, NONE)) {
      ReachNext(s', i);
    }
  }

  lemma SameLinks(s: Nodes, s': Nodes, d: nat, e: nat)
    requires |s'| == |s| && forall i :: 0 <= i < |s| ==> s'[i].next == s[i].next
    requires forall i :: 0 <= i < |s| ==> NONE <= s[i].next < |s|
    requires d < |s| && e < |s|
    ensures Reach(s', d, e) <==> Reach(s, d, e)
  {
    LinksKept(s, s');
    LinksKept(s', s);
    if Reach(s', d, e) {
      ReachFollows(s', s, NONE, NONE, d, e);
    }
    if Reach(s, d, e) {
      ReachFollows(s, s', NONE, NONE, d, e);
    }
  }

  lemma FreeWellFormed(h: Hash, s: Nodes, rank: seq<nat>, mp: nat, k: TKey)
    requires WellFormed(h, s, rank) && IsNode(s, k, NONE) && k.Live()
    requires MainPosition(h, k, |s|) == mp
    ensures WellFormed(h, PlaceFree(s, mp, k), rank)
  {
    hide Reach, Fronted;
    var s' := PlaceFree(s, mp, k);
    LinksKept(s, s');
    forall i: nat | i < |s'| ensures Placed(h, s', i) {
      assert Placed(h, s, i);
      if i == mp {
        ReachSelf(s', mp);
      } else if !s[i].key.KNil? {
        ReachFollows(s, s', NONE, NONE, MainPosition(h, s[i].key, |s|), i);
      }
    }
    FreeFronted(h, s, rank, mp, k);
  }

  lemma FreeFronted(h: Hash, s: Nodes, rank: seq<nat>, mp: nat, k: TKey)
    requires WellFormed(h, s, rank) && k.Live() && MainPosition(h, k, |s|) == mp
    ensures Fronted(PlaceFree(s, mp, k))
  {
    hide Reach, Distinct;
    var s' := PlaceFree(s, mp, k);
    forall d: nat, e: nat | d < |s'| && e < |s'| ensures Behind(s', d, e) {
      SameLinks(s, s', d, e);
      assert Behind(s, d, e) && Placed(h, s, d);
      if e == mp && s'[d].key.KDead? && k == Ident(s'[d].key) && Reach(s', d, e) {
        ReachRank(s, rank, d, mp);
      }
    }
  }

  /** Ranks after node n has been inserted behind mp. */
  function RanksAfter(rank: seq<nat>, mp: nat, n: nat): (r: seq<nat>)
    requires mp < |rank| && n < |rank|
    ensures |r| == |rank|
  {
    seq(|rank|, i requires 0 <= i < |rank| => 2 * rank[i] + 1)[n := 2 * rank[mp]]
  }

  lemma AfterFollows(s: Nodes, rank: seq<nat>, mp: nat, n: nat, k: TKey)
    requires Linked(s, rank) && mp < |s| && n < |s| && s[n].key.KNil? && !s[mp].key.KNil?
    ensures Follows(s, PlaceAfter(s, mp, n, k), NONE, NONE)
  {
    hide Reach;
    var s' := PlaceAfter(s, mp, n, k);
    forall i | 0 <= i < |s| && s[i].next != NONE && 0 <= s[i].next < |s|
      ensures Reach(s', Moved(i, NONE, NONE), Moved(s[i].next, NONE, NONE)) {
      ReachNext(s', i);
      if i == mp {
        ReachNext(s', n);
        ReachThen(s', mp, n, s[mp].next);
      }
    }
  }

  lemma AfterLinked(s: Nodes, rank: seq<nat>, mp: nat, n: nat, k: TKey)
    requires Linked(s, rank) && mp < |s| && n < |s| && s[n].key.KNil? && !s[mp].key.KNil? && !k.KNil?
    ensures Linked(PlaceAfter(s, mp, n, k), RanksAfter(rank, mp, n))
  {
    hide RanksAfter;
    NoLinkTo(s, rank, n);
    AfterOnce(s, mp, n, k);
    var s', rank' := PlaceAfter(s, mp, n, k), RanksAfter(rank, mp, n);
    forall i | 0 <= i < |s'| ensures s'[i].next >= 0 ==> !s'[s'[i].next].key.KNil? && rank'[s'[i].next] < rank'[i] {
      AfterRank(s, rank, mp, n, k, i);
    }
  }

  lemma NoLinkTo(s: Nodes, rank: seq<nat>, n: nat)
    requires Linked(s, rank) && n < |s| && s[n].key.KNil?
    ensures forall q :: 0 <= q < |s| ==> s[q].next != n
  {
  }

  lemma AfterRank(s: Nodes, rank: seq<nat>, mp: nat, n: nat, k: TKey, i: nat)
    requires Linked(s, rank) && mp < |s| && n < |s| && i < |s| && !s[mp].key.KNil? && s[n].key.KNil? && !k.KNil?
    requires forall q :: 0 <= q < |s| ==> s[q].next != n
    ensures var s', rank' := PlaceAfter(s, mp, n, k), RanksAfter(rank, mp, n);
            s'[i].next >= 0 ==> s'[i].next < |s| && !s'[s'[i].next].key.KNil? && rank'[s'[i].next] < rank'[i]
  {
    var o := if i == n then mp else i;
    assert s[o].next >= 0 ==> !s[s[o].next].key.KNil? && rank[s[o].next] < rank[o];
    assert s[o].next != n;
  }

  lemma AfterOnce(s: Nodes, mp: nat, n: nat, k: TKey)
    requires mp < |s| && n < |s| && mp != n && s[n].next == NONE
    requires forall i, j :: 0 <= i < j < |s| && s[i].next == s[j].next ==> s[i].next == NONE
    requires forall q :: 0 <= q < |s| ==> s[q].next != n
    ensures var s' := PlaceAfter(s, mp, n, k);
            forall i, j :: 0 <= i < j < |s'| && s'[i].next == s'[j].next ==> s'[i].next == NONE
  {
    var s' := PlaceAfter(s, mp, n, k);
    forall i, j | 0 <= i < j < |s'| && s'[i].next == s'[j].next ensures s'[i].next == NONE {
      var i0 := if i == n then mp else i;
      var j0 := if j == n then mp else j;
      if i != mp && j != mp {
        assert s'[i].next == s[i0].next && s'[j].next == s[j0].next;
      }
    }
  }

  /** Every path in the new vector was one before, with the key at mp in place of the new one. */
  lemma AfterBack(s: Nodes, rank: seq<nat>, mp: nat, n: nat, k: TKey)
    requires Linked(s, rank) && mp < |s| && n < |s| && s[n].key.KNil? && !s[mp].key.KNil?
    ensures Follows(PlaceAfter(s, mp, n, k), s, n, mp)
  {
    hide Reach;
    var s' := PlaceAfter(s, mp, n, k);
    forall i | 0 <= i < |s'| && s'[i].next != NONE && 0 <= s'[i].next < |s'|
      ensures Reach(s, Moved(i, n, mp), Moved(s'[i].next, n, mp)) {
      if i == mp {
        ReachSelf(s, mp);
      } else if i == n {
        ReachNext(s, mp);
      } else {
        ReachNext(s, i);
      }
    }
  }

  lemma AfterFronted(h: Hash, s: Nodes, rank: seq<nat>, mp: nat, n: nat, k: TKey)
    requires WellFormed(h, s, rank) && k.Live() && MainPosition(h, k, |s|) == mp && n < |s| && s[n].key.KNil?
    requires s[mp].key.Live()
    ensures Fronted(PlaceAfter(s, mp, n, k))
  {
    hide Reach, Distinct, Follows;
    var s' := PlaceAfter(s, mp, n, k);
    AfterBack(s, rank, mp, n, k);
    forall d: nat, e: nat | d < |s'| && e < |s'| ensures Behind(s', d, e) {
      assert Placed(h, s, d) && Behind(s, d, e);
      if s'[d].key.KDead? && s'[e].key == Ident(s'[d].key) && Reach(s', d, e) {
        ReachFollows(s', s, n, mp, d, e);
        if e == n {
          ReachRank(s, rank, d, mp);
        }
      }
    }
  }

  lemma AfterWellFormed(h: Hash, s: Nodes, rank: seq<nat>, mp: nat, n: nat, k: TKey)
    requires WellFormed(h, s, rank) && IsNode(s, k, NONE) && k.Live()
    requires MainPosition(h, k, |s|) == mp && n < |s| && s[n].key.KNil?
    requires s[mp].key.Live() && MainPosition(h, s[mp].key, |s|) == mp
    ensures WellFormed(h, PlaceAfter(s, mp, n, k), RanksAfter(rank, mp, n))
  {
    hide Reach, Linked, Fronted;
    AfterFronted(h, s, rank, mp, n, k);
    var s' := PlaceAfter(s, mp, n, k);
    AfterFollows(s, rank, mp, n, k);
    AfterLinked(s, rank, mp, n, k);
    forall i: nat | i < |s'| ensures Placed(h, s', i) {
      assert Placed(h, s, i);
      if i == n {
        ReachNext(s', mp);
      } else if !s[i].key.KNil? {
        ReachFollows(s, s', NONE, NONE, MainPosition(h, s[i].key, |s|), i);
      }
    }
  }

  /** Where the colliding key sits, its chain can be walked to the node before it. */
  lemma MovedFollows(s: Nodes, rank: seq<nat>, mp: nat, n: nat, prev: nat, k: TKey)
    requires Linked(s, rank) && mp < |s| && n < |s| && s[n].key.KNil? && !s[mp].key.KNil?
    requires prev < |s| && s[prev].next == mp
    ensures prev != mp && Follows(s, PlaceMoved(s, mp, n, prev, k), mp, n)
  {
    hide Reach;
    var s' := PlaceMoved(s, mp, n, prev, k);
    forall i | 0 <= i < |s| && s[i].next != NONE && 0 <= s[i].next < |s|
      ensures Reach(s', Moved(i, mp, n), Moved(s[i].next, mp, n)) {
      assert i != n && i != s[i].next;
      if i < prev {
        assert s[i].next != mp;
      } else if prev < i {
        assert s[i].next != mp;
      }
      ReachNext(s', Moved(i, mp, n));
    }
  }

  lemma MovedLinked(s: Nodes, rank: seq<nat>, mp: nat, n: nat, prev: nat, k: TKey)
    requires Linked(s, rank) && mp < |s| && n < |s| && s[n].key.KNil? && !s[mp].key.KNil? && !k.KNil?
    requires prev < |s| && s[prev].next == mp
    ensures Linked(PlaceMoved(s, mp, n, prev, k), rank[n := rank[mp]][mp := 0])
  {
    var s' := PlaceMoved(s, mp, n, prev, k);
    var rank' := rank[n := rank[mp]][mp := 0];
    assert prev != mp && prev != n;
    forall q | 0 <= q < |s| ensures s[q].next != n && (q != prev ==> s[q].next != mp) {
      if q < prev {
        assert s[q].next != mp;
      }
    }
    MovedOnce(s, mp, n, prev, k);
    forall i | 0 <= i < |s'| ensures s'[i].next >= 0 ==> !s'[s'[i].next].key.KNil? && rank'[s'[i].next] < rank'[i] {
      MovedRank(s, rank, mp, n, prev, k, i);
    }
  }

  lemma MovedRank(s: Nodes, rank: seq<nat>, mp: nat, n: nat, prev: nat, k: TKey, i: nat)
    requires Linked(s, rank) && mp < |s| && n < |s| && prev < |s| && i < |s| && !s[mp].key.KNil? && s[n].key.KNil?
    requires !k.KNil?
    requires prev != mp && prev != n && mp != n && s[prev].next == mp
    requires s[i].next != n && (i != prev ==> s[i].next != mp) && s[mp].next != n && s[mp].next != mp
    ensures var s' := PlaceMoved(s, mp, n, prev, k);
            var rank' := rank[n := rank[mp]][mp := 0];
            s'[i].next >= 0 ==> s'[i].next < |s| && !s'[s'[i].next].key.KNil? && rank'[s'[i].next] < rank'[i]
  {
    if i == n {
      assert s[mp].next >= 0 ==> rank[s[mp].next] < rank[mp];
    } else {
      assert s[i].next >= 0 ==> rank[s[i].next] < rank[i];
    }
  }

  lemma MovedOnce(s: Nodes, mp: nat, n: nat, prev: nat, k: TKey)
    requires mp < |s| && n < |s| && prev < |s| && prev != mp && prev != n && mp != n && s[prev].next == mp
    requires forall i, j :: 0 <= i < j < |s| && s[i].next == s[j].next ==> s[i].next == NONE
    requires forall q :: 0 <= q < |s| ==> s[q].next != n && (q != prev ==> s[q].next != mp)
    requires s[n].next == NONE
    ensures var s' := PlaceMoved(s, mp, n, prev, k);
            forall i, j :: 0 <= i < j < |s'| && s'[i].next == s'[j].next ==> s'[i].next == NONE
  {
    var s' := PlaceMoved(s, mp, n, prev, k);
    forall i, j | 0 <= i < j < |s'| && s'[i].next == s'[j].next ensures s'[i].next == NONE {
      var i0 := if i == n then mp else i;
      var j0 := if j == n then mp else j;
      if i != mp && j != mp && i != prev && j != prev {
        assert s'[i].next == s[i0].next && s'[j].next == s[j0].next;
        assert i0 != j0;
      }
    }
  }

  lemma MovedBack(s: Nodes, rank: seq<nat>, mp: nat, n: nat, prev: nat, k: TKey)
    requires Linked(s, rank) && mp < |s| && n < |s| && s[n].key.KNil? && !s[mp].key.KNil? && prev < |s|
    requires s[prev].next == mp
    ensures Follows(PlaceMoved(s, mp, n, prev, k), s, n, mp)
  {
    hide Reach;
    var s' := PlaceMoved(s, mp, n, prev, k);
    forall i | 0 <= i < |s'| && s'[i].next != NONE && 0 <= s'[i].next < |s'|
      ensures Reach(s, Moved(i, n, mp), Moved(s'[i].next, n, mp)) {
      var o := if i == n then mp else i;
      assert s[o].next != n;
      ReachNext(s, o);
    }
  }

  lemma MovedFronted(h: Hash, s: Nodes, rank: seq<nat>, mp: nat, n: nat, prev: nat, k: TKey)
    requires WellFormed(h, s, rank) && k.Live() && MainPosition(h, k, |s|) == mp && n < |s| && s[n].key.KNil?
    requires s[mp].key.Live() && MainPosition(h, s[mp].key, |s|) != mp && prev < |s| && s[prev].next == mp && prev != mp
    ensures Fronted(PlaceMoved(s, mp, n, prev, k))
  {
    MovedBack(s, rank, mp, n, prev, k);
    hide Reach, Distinct, Follows, Linked;
    var s' := PlaceMoved(s, mp, n, prev, k);
    forall d: nat, e: nat | d < |s'| && e < |s'| ensures Behind(s', d, e) {
      if s'[d].key.KDead? && s'[e].key == Ident(s'[d].key) && Reach(s', d, e) {
        var d0, e0 := if d == n then mp else d, if e == n then mp else e;
        assert Placed(h, s, d0) && Behind(s, d0, e0);
        if e != mp {
          ReachFollows(s', s, n, mp, d, e);
        }
      }
    }
  }

  lemma MovedWellFormed(h: Hash, s: Nodes, rank: seq<nat>, mp: nat, n: nat, prev: nat, k: TKey)
    requires WellFormed(h, s, rank) && IsNode(s, k, NONE) && k.Live()
    requires MainPosition(h, k, |s|) == mp && n < |s| && s[n].key.KNil?
    requires s[mp].key.Live() && MainPosition(h, s[mp].key, |s|) != mp && prev < |s| && s[prev].next == mp
    ensures WellFormed(h, PlaceMoved(s, mp, n, prev, k), rank[n := rank[mp]][mp := 0])
  {
    hide Reach, Fronted;
    var s' := PlaceMoved(s, mp, n, prev, k);
    MovedFollows(s, rank, mp, n, prev, k);
    MovedLinked(s, rank, mp, n, prev, k);
    MovedKeys(s, rank, mp, n, prev, k);
    MovedFronted(h, s, rank, mp, n, prev, k);
    forall i: nat | i < |s'| ensures Placed(h, s', i) {
      MovedPlaced(h, s, rank, mp, n, prev, k, i);
    }
  }

  lemma MovedKeys(s: Nodes, rank: seq<nat>, mp: nat, n: nat, prev: nat, k: TKey)
    requires Distinct(s) && IsNode(s, k, NONE) && mp < |s| && n < |s| && prev < |s| && prev != mp && s[n].key.KNil?
    requires !s[mp].key.KNil?
    ensures var s' := PlaceMoved(s, mp, n, prev, k);
            Distinct(s') && forall i :: 0 <= i < |s| ==> s'[i].key == if i == mp then k else if i == n then s[mp].key
              else s[i].key
  {
    var s' := PlaceMoved(s, mp, n, prev, k);
    forall i, j | 0 <= i < j < |s'| && s'[i].key == s'[j].key ensures !s'[i].key.Live() {
    }
  }

  lemma MovedPlaced(h: Hash, s: Nodes, rank: seq<nat>, mp: nat, n: nat, prev: nat, k: TKey, i: nat)
    requires WellFormed(h, s, rank) && i < |s|
    requires MainPosition(h, k, |s|) == mp && n < |s| && s[n].key.KNil?
    requires !s[mp].key.KNil? && MainPosition(h, s[mp].key, |s|) != mp && prev < |s| && prev != mp
    requires Follows(s, PlaceMoved(s, mp, n, prev, k), mp, n)
    ensures Placed(h, PlaceMoved(s, mp, n, prev, k), i)
  {
    hide Reach, Linked, Distinct, Follows, Fronted;
    var s' := PlaceMoved(s, mp, n, prev, k);
    if i == mp {
      ReachSelf(s', mp);
    } else {
      var o := if i == n then mp else i;
      assert Placed(h, s, o);
      if !s[o].key.KNil? {
        var m := MainPosition(h, s[o].key, |s|);
        assert m != mp && m != n;
        ReachFollows(s, s', mp, n, m, o);
      }
    }
  }

  // ---- Dead keys ----

  /** removeentry: a node without a value whose key is an object gets a dead key. */
  function Buried(s: Nodes, p: nat): Nodes
    requires p < |s|
  {
    if s[p].key.KObject? && s[p].val == Nil then s[p := s[p].(key := KDead(s[p].key.id))] else s
  }

  lemma BuriedWellFormed(h: Hash, s: Nodes, rank: seq<nat>, p: nat)
    requires WellFormed(h, s, rank) && p < |s|
    ensures WellFormed(h, Buried(s, p), rank) && SameShape(s, Buried(s, p))
  {
    hide Reach, Linked, Buried;
    var s' := Buried(s, p);
    BuriedKeepsNodes(s, rank, p);
    forall i: nat | i < |s'| ensures Placed(h, s', i) {
      assert Placed(h, s, i);
      SameLinks(s, s', MainPosition(h, s[i].key, |s|), i);
    }
    forall d: nat, e: nat | d < |s'| && e < |s'| ensures Behind(s', d, e) {
      assert Behind(s, d, e);
      SameLinks(s, s', d, e);
    }
  }

  lemma BuriedKeepsNodes(s: Nodes, rank: seq<nat>, p: nat)
    requires Linked(s, rank) && Distinct(s) && p < |s|
    ensures var s' := Buried(s, p);
            && Linked(s', rank) && Distinct(s') && SameShape(s, s')
            && forall i :: 0 <= i < |s| ==> NONE <= s[i].next < |s| && s'[i].key.KNil? == s[i].key.KNil?
                                            && (s'[i].key.KDead? || s'[i] == s[i])
  {
    assert forall i :: 0 <= i < |s| ==> NONE <= s[i].next < |s|;
    LinkedKept(s, Buried(s, p), rank);
  }

  lemma LinkedKept(s: Nodes, s': Nodes, rank: seq<nat>)
    requires Linked(s, rank) && |s'| == |s|
    requires forall i :: 0 <= i < |s| ==> s'[i].next == s[i].next && s'[i].key.KNil? == s[i].key.KNil?
    requires forall i :: 0 <= i < |s| && s[i].key.KNil? ==> s'[i] == s[i]
    ensures Linked(s', rank)
  {
    forall i | 0 <= i < |s'| && s'[i].next >= 0 ensures !s'[s'[i].next].key.KNil? && rank[s'[i].next] < rank[i] {
      assert s[i].next == s'[i].next;
    }
  }

  /** The same links, and the same keys but for burials. */
  ghost predicate SameShape(s: Nodes, s': Nodes) {
    |s'| == |s| && forall i :: 0 <= i < |s| ==> s'[i].next == s[i].next && Ident(s'[i].key) == Ident(s[i].key)
  }

  /** The first node, on its path, whose key is k or was k when it was buried; or none. */
  ghost predicate IsFirst(s: Nodes, k: TKey, p: int) {
    if p == NONE then forall i :: 0 <= i < |s| ==> Ident(s[i].key) != k
    else 0 <= p < |s| && Ident(s[p].key) == k && forall i: nat :: i < |s| && Ident(s[i].key) == k ==> Reach(s, p, i)
  }

  lemma FirstOnce(s: Nodes, rank: seq<nat>, k: TKey, p: int, q: int)
    requires Linked(s, rank) && IsFirst(s, k, p) && IsFirst(s, k, q)
    ensures p == q
  {
    if p != NONE && q != NONE {
      ReachRank(s, rank, p, q);
    }
  }

  lemma FirstKept(s: Nodes, s': Nodes, rank: seq<nat>, k: TKey, p: int)
    requires Linked(s, rank) && SameShape(s, s') && IsFirst(s, k, p)
    ensures IsFirst(s', k, p)
  {
    if p != NONE {
      forall i: nat | i < |s'| && Ident(s'[i].key) == k ensures Reach(s', p, i) {
        SameLinks(s, s', p, i);
      }
    }
  }

  lemma {:induction false} HopsSplit(s: Nodes, m: int, a: int, b: int, n: nat, n': nat)
    requires Hops(s, m, a, n) && Hops(s, m, b, n') && n <= n'
    ensures Hops(s, a, b, n' - n)
    decreases n
  {
    if n > 0 {
      HopsSplit(s, s[m].next, a, b, n - 1, n' - 1);
    }
  }

  /** Paths do not branch. */
  lemma ReachEither(s: Nodes, m: int, a: int, b: int)
    requires Reach(s, m, a) && Reach(s, m, b)
    ensures Reach(s, a, b) || Reach(s, b, a)
  {
    var n: nat :| Hops(s, m, a, n);
    var n': nat :| Hops(s, m, b, n');
    if n <= n' {
      HopsSplit(s, m, a, b, n, n');
    } else {
      HopsSplit(s, m, b, a, n', n);
    }
  }

  /** A live key comes before every dead key of its object: a traversal that resumes at it resumes at its own node. */
  lemma LiveIsFirst(h: Hash, s: Nodes, rank: seq<nat>, e: nat)
    requires WellFormed(h, s, rank) && e < |s| && s[e].key.Live()
    ensures IsFirst(s, s[e].key, e)
  {
    hide Reach, Linked;
    assert Placed(h, s, e);
    forall i: nat | i < |s| && Ident(s[i].key) == s[e].key ensures Reach(s, e, i) {
      assert Placed(h, s, i) && Behind(s, i, e);
      ReachEither(s, MainPosition(h, s[e].key, |s|), e, i);
      if i == e {
        ReachSelf(s, e);
      }
    }
  }
}
