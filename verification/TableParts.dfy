/**
 * What the two parts of a table mean (ltable.c): an array part and a hash part that together agree with a finite map.
 */
module TableParts {
  import opened Base
  import opened TableNodes
  import opened TableSizes
  import opened TableCount

  // array parts may be this large here, so that together with the nodes the entries can be counted up to MAX_INT
  const MAX_ITEMS: int := MAX_INT - MAXASIZE

  type Contents = map<TKey, Value>

  function At(m: Contents, k: TKey): Value { if k in m then m[k] else Nil }

  /** The two parts hold exactly the entries of the map. */
  ghost predicate Agrees(m: Contents, a: seq<Value>, s: Nodes) {
    && (forall k :: k in m ==> m[k] != Nil && k.Live())
    && (forall i :: 0 <= i < |a| ==> At(m, KInt(i + 1)) == a[i])
    && (forall i :: 0 <= i < |s| ==> At(m, s[i].key) == s[i].val)
    && (forall k :: k in m && !InArrayRange(k, |a|) ==> k in NodeKeys(s))
    && (forall i :: 0 <= i < |s| ==> !InArrayRange(s[i].key, |a|))
  }

  /** Every node from `lastfree` on has a key. */
  ghost predicate Full(s: Nodes, lastfree: int) {
    lastfree <= |s| && forall i :: 0 <= i < |s| && lastfree <= i ==> !s[i].key.KNil?
  }

  ghost predicate HasFree(s: Nodes) { exists i :: 0 <= i < |s| && s[i].key.KNil? }

  ghost predicate NoneDead(s: Nodes) { forall i :: 0 <= i < |s| ==> !s[i].key.KDead? }

  /** How many entries a hash part asked to have `size` nodes can take. */
  function Capacity(size: nat): (c: nat) { if size == 0 then 0 else Pow2(CeilLog2(size)) }

  /** The place of a value: what the search functions of the source return a pointer to. */
  datatype Slot = NoSlot | InArray(i: nat) | InNode(p: nat)

  predicate SlotOf(slot: Slot, k: TKey, a: seq<Value>, s: Nodes) {
    match slot
    case NoSlot => false
    case InArray(i) => i < |a| && k == KInt(i + 1)
    case InNode(p) => p < |s| && s[p].key == k && k.Live()
  }

  function Read(slot: Slot, a: seq<Value>, s: Nodes): Value {
    match slot
    case NoSlot => Nil
    case InArray(i) => if i < |a| then a[i] else Nil
    case InNode(p) => if p < |s| then s[p].val else Nil
  }

  /** What searching for k must find. */
  ghost predicate Found(slot: Slot, k: TKey, a: seq<Value>, s: Nodes) {
    if slot.NoSlot? then !InArrayRange(k, |a|) && k !in NodeKeys(s) else SlotOf(slot, k, a, s)
  }

  lemma FoundReads(m: Contents, slot: Slot, k: TKey, a: seq<Value>, s: Nodes)
    requires Agrees(m, a, s) && Found(slot, k, a, s)
    ensures Read(slot, a, s) == At(m, k)
  {
  }

  lemma Absent(m: Contents, k: TKey, a: seq<Value>, s: Nodes)
    requires Agrees(m, a, s) && Found(NoSlot, k, a, s)
    ensures k !in m
  {
  }

  lemma FoundInside(slot: Slot, k: TKey, a: seq<Value>, s: Nodes)
    requires Found(slot, k, a, s) && !slot.NoSlot?
    ensures !Found(NoSlot, k, a, s)
  {
    HasNode(s, k);
  }

  lemma UsedLive(m: Contents, a: seq<Value>, s: Nodes, p: nat)
    requires Agrees(m, a, s) && p < |s| && s[p].val != Nil
    ensures s[p].key.Live()
  {
    assert At(m, s[p].key) == s[p].val;
  }

  lemma NotNode(s: Nodes, k: TKey, p: int)
    requires IsNode(s, k, p) && k.Live()
    ensures p == NONE <==> k !in NodeKeys(s)
  {
    if p == NONE {
      assert k !in NodeKeys(s);
    } else {
      assert s[p].key in NodeKeys(s);
    }
  }

  function Put(m: Contents, k: TKey, v: Value): Contents { if v == Nil then m - {k} else m[k := v] }

  function PutAll(m: Contents, ops: seq<(TKey, Value)>): Contents
    decreases |ops|
  {
    if |ops| == 0 then m else PutAll(Put(m, ops[0].0, ops[0].1), ops[1..])
  }

  lemma {:induction false} PutNext(m: Contents, ops: seq<(TKey, Value)>, i: nat)
    requires i < |ops|
    ensures PutAll(m, ops[..i + 1]) == Put(PutAll(m, ops[..i]), ops[i].0, ops[i].1)
    decreases i
  {
    if i > 0 {
      PutNext(Put(m, ops[0].0, ops[0].1), ops[1..], i - 1);
      assert ops[..i + 1][1..] == ops[1..][..i] && ops[..i][1..] == ops[1..][..i - 1];
    }
  }

  lemma StoreItem(m: Contents, k: TKey, v: Value, a: seq<Value>, s: Nodes, i: nat)
    requires Agrees(m, a, s) && i < |a| && k == KInt(i + 1)
    ensures Agrees(Put(m, k, v), a[i := v], s)
  {
    assert InArrayRange(k, |a|);
  }

  lemma StoreNode(m: Contents, k: TKey, v: Value, a: seq<Value>, h: Hash, s: Nodes, rank: seq<nat>, p: nat)
    requires Agrees(m, a, s) && WellFormed(h, s, rank) && p < |s| && s[p].key == k && k.Live()
    ensures var s' := s[p := s[p].(val := v)];
            Agrees(Put(m, k, v), a, s') && WellFormed(h, s', rank) && NodeKeys(s') == NodeKeys(s)
  {
    hide Agrees, WellFormed, Put, NodeKeys;
    StoreStructure(h, s, rank, p, v);
    SameKeys(s, s[p := s[p].(val := v)]);
    StoreAgrees(m, k, v, a, h, s, rank, p);
  }

  lemma StoreAgrees(m: Contents, k: TKey, v: Value, a: seq<Value>, h: Hash, s: Nodes, rank: seq<nat>, p: nat)
    requires Agrees(m, a, s) && WellFormed(h, s, rank) && p < |s| && s[p].key == k && k.Live()
    requires NodeKeys(s[p := s[p].(val := v)]) == NodeKeys(s)
    ensures Agrees(Put(m, k, v), a, s[p := s[p].(val := v)])
  {
    hide Placed, Linked, NodeKeys;
    var s' := s[p := s[p].(val := v)];
    var m' := Put(m, k, v);
    assert !InArrayRange(k, |a|);
    NotNode(s, k, p);
    forall i | 0 <= i < |s'| ensures At(m', s'[i].key) == s'[i].val {
      if i != p {
        assert s[i].key != k;
      }
    }
  }

  lemma StoreStructure(h: Hash, s: Nodes, rank: seq<nat>, p: nat, v: Value)
    requires WellFormed(h, s, rank) && p < |s| && !s[p].key.KNil?
    ensures WellFormed(h, s[p := s[p].(val := v)], rank)
  {
    hide Reach, MainPosition;
    var s' := s[p := s[p].(val := v)];
    LinksKept(s, s');
    forall i: nat | i < |s'| ensures Placed(h, s', i) {
      assert Placed(h, s, i);
      if !s[i].key.KNil? {
        ReachFollows(s, s', NONE, NONE, MainPosition(h, s[i].key, |s|), i);
      }
    }
    forall d: nat, e: nat | d < |s'| && e < |s'| ensures Behind(s', d, e) {
      assert Behind(s, d, e);
      SameLinks(s, s', d, e);
    }
  }

  lemma SameKeys(s: Nodes, s': Nodes)
    requires |s'| == |s| && forall i :: 0 <= i < |s| ==> s'[i].key == s[i].key
    ensures NodeKeys(s') == NodeKeys(s)
  {
    forall k | k in NodeKeys(s) ensures k in NodeKeys(s') {
      var i :| 0 <= i < |s| && s[i].key.Live() && s[i].key == k;
      assert s'[i].key == k;
    }
    forall k | k in NodeKeys(s') ensures k in NodeKeys(s) {
      var i :| 0 <= i < |s'| && s'[i].key.Live() && s'[i].key == k;
      assert s[i].key == k;
    }
  }

  lemma StoreFull(s: Nodes, p: nat, v: Value, lastfree: int)
    requires p < |s|
    ensures var s' := s[p := s[p].(val := v)];
            Full(s, lastfree) ==> Full(s', lastfree)
  {
  }

  // ---- A new key leaves the contents ----

  /** s' is s with the key k added, possibly over a key without a value. */
  ghost predicate Added(s: Nodes, s': Nodes, k: TKey) {
    && |s'| == |s|
    && k in NodeKeys(s') && NodeKeys(s') <= NodeKeys(s) + {k}
    && (forall i :: 0 <= i < |s'| ==> (s'[i].key == k && s'[i].val == Nil) || Holds(s, s'[i].key, s'[i].val))
    && (forall i :: 0 <= i < |s| && s[i].val != Nil && s[i].key.Live() ==> s[i].key in NodeKeys(s'))
    && (NoneDead(s) ==> NoneDead(s'))
  }

  ghost predicate Holds(s: Nodes, k: TKey, v: Value) { exists i :: 0 <= i < |s| && s[i].key == k && s[i].val == v }

  lemma AddedAgrees(m: Contents, a: seq<Value>, s: Nodes, s': Nodes, k: TKey)
    requires Agrees(m, a, s) && Added(s, s', k) && k.Live() && Found(NoSlot, k, a, s)
    ensures Agrees(m, a, s')
  {
    hide NodeKeys;
    assert At(m, k) == Nil;
    forall i | 0 <= i < |s'| ensures At(m, s'[i].key) == s'[i].val && !InArrayRange(s'[i].key, |a|) {
      if !(s'[i].key == k && s'[i].val == Nil) {
        assert Holds(s, s'[i].key, s'[i].val);
      }
    }
    forall j | j in m && !InArrayRange(j, |a|) ensures j in NodeKeys(s') {
      HasNode(s, j);
    }
  }

  lemma HasNode(s: Nodes, k: TKey)
    ensures k in NodeKeys(s) <==> k.Live() && exists i :: 0 <= i < |s| && s[i].key == k
  {
  }

  lemma FreeAdds(s: Nodes, mp: nat, k: TKey)
    requires mp < |s| && s[mp].val == Nil && k.Live()
    ensures Added(s, PlaceFree(s, mp, k), k)
  {
    var s' := PlaceFree(s, mp, k);
    assert s'[mp].key == k;
    forall i | 0 <= i < |s'| && i != mp ensures Holds(s, s'[i].key, s'[i].val) {
      assert s[i] == s'[i];
    }
    forall i | 0 <= i < |s| && s[i].val != Nil && s[i].key.Live() ensures s[i].key in NodeKeys(s') {
      assert s'[i] == s[i];
    }
  }

  lemma AfterAdds(s: Nodes, mp: nat, n: nat, k: TKey)
    requires mp < |s| && n < |s| && mp != n && s[n].key.KNil? && k.Live()
    ensures Added(s, PlaceAfter(s, mp, n, k), k)
  {
    var s' := PlaceAfter(s, mp, n, k);
    assert s'[n].key == k;
    forall i | 0 <= i < |s'| && i != n ensures Holds(s, s'[i].key, s'[i].val) {
      assert s[i].key == s'[i].key && s[i].val == s'[i].val;
    }
    forall i | 0 <= i < |s| && s[i].val != Nil && s[i].key.Live() ensures s[i].key in NodeKeys(s') {
      assert s'[i].key == s[i].key;
    }
  }

  lemma MovedAdds(s: Nodes, mp: nat, n: nat, prev: nat, k: TKey)
    requires mp < |s| && n < |s| && prev < |s| && mp != n && prev != mp && s[n].key.KNil? && k.Live()
    requires !s[prev].key.KNil?
    ensures Added(s, PlaceMoved(s, mp, n, prev, k), k)
  {
    var s' := PlaceMoved(s, mp, n, prev, k);
    assert s'[mp].key == k;
    forall i | 0 <= i < |s'| && i != mp ensures Holds(s, s'[i].key, s'[i].val) {
      var o := if i == n then mp else i;
      assert s[o].key == s'[i].key && s[o].val == s'[i].val;
    }
    forall i | 0 <= i < |s| && s[i].val != Nil && s[i].key.Live() ensures s[i].key in NodeKeys(s') {
      var o := if i == mp then n else i;
      assert s'[o].key == s[i].key;
    }
  }

  lemma NoNode(s: Nodes, k: TKey)
    requires k !in NodeKeys(s) && k.Live()
    ensures IsNode(s, k, NONE)
  {
    HasNode(s, k);
  }

  lemma ReachInside(s: Nodes, a: int, b: int)
    requires Reach(s, a, b)
    ensures 0 <= a < |s|
  {
    var n: nat :| Hops(s, a, b, n);
  }

  lemma OverflowIff(size: nat)
    requires size > 0
    ensures CeilLog2(size) > MAXBITS <==> size > MAXASIZE
    ensures Pow2(CeilLog2(size)) >= size
  {
    hide CeilLog2, Pow2;
    assert InSlice(size, CeilLog2(size));
    Pow2Max();
    if CeilLog2(size) > MAXBITS {
      Pow2Monotone(MAXBITS, CeilLog2(size) - 1);
    } else {
      Pow2Monotone(CeilLog2(size), MAXBITS);
    }
  }

  /** The entries of the array part. */
  ghost function ArrayContents(m: Contents, n: nat): Contents { map k | k in m && InArrayRange(k, n) :: m[k] }

  lemma FreshAgrees(m: Contents, a: seq<Value>, s: Nodes, a': seq<Value>, s': Nodes, nasize: nat)
    requires Agrees(m, a, s) && |a'| == nasize
    requires forall i :: 0 <= i < |a'| ==> a'[i] == if i < |a| then a[i] else Nil
    requires forall i :: 0 <= i < |s'| ==> s'[i] == EMPTY_NODE
    ensures Agrees(ArrayContents(m, if nasize < |a| then nasize else |a|), a', s') && NodeKeys(s') == {} && NoneDead(s')
  {
  }

  lemma AllMoved(m: Contents, a: seq<Value>, s: Nodes, m': Contents)
    requires Agrees(m, a, s) && forall k :: k in m' ==> k in m && m'[k] == m[k]
    requires forall k :: k in m && InArrayRange(k, |a|) ==> k in m'
    requires forall j :: 0 <= j < |s| && s[j].val != Nil ==> s[j].key in m'
    ensures m' == m
  {
    forall k | k in m ensures k in m' {
      HasNode(s, k);
    }
  }

  lemma FreshWellFormed(h: Hash, s: Nodes, rank: seq<nat>)
    requires |s| > 0 && |rank| == |s| && forall i :: 0 <= i < |s| ==> s[i] == EMPTY_NODE
    ensures WellFormed(h, s, rank)
  {
  }

  /** Without dead keys, the nodes that are not free have as many keys. */
  lemma RoomLeft(h: Hash, s: Nodes, rank: seq<nat>)
    requires WellFormed(h, s, rank) && NoneDead(s)
    ensures |NodeKeys(s)| <= |s| && (HasFree(s) <==> |NodeKeys(s)| < |s|)
  {
    CountKeys(s);
  }

  lemma {:induction false} CountKeys(s: Nodes)
    requires Distinct(s) && NoneDead(s)
    ensures |NodeKeys(s)| <= |s| && (HasFree(s) <==> |NodeKeys(s)| < |s|)
  {
    hide NodeKeys, HasFree;
    if |s| == 0 {
      NoKeys(s);
    } else {
      CountKeys(s[..|s| - 1]);
      LastKey(s, s[..|s| - 1]);
    }
  }

  lemma NoKeys(s: Nodes)
    requires |s| == 0
    ensures NodeKeys(s) == {} && !HasFree(s)
  {
  }

  lemma LastKey(s: Nodes, t: Nodes)
    requires Distinct(s) && NoneDead(s) && |s| == |t| + 1 && t == s[..|t|]
    ensures var last := s[|t|].key;
            && NodeKeys(s) == (if last.KNil? then NodeKeys(t) else NodeKeys(t) + {last})
            && (!last.KNil? ==> last !in NodeKeys(t))
            && (HasFree(s) <==> HasFree(t) || last.KNil?)
  {
    assert forall i :: 0 <= i < |t| ==> s[i] == t[i];
    var last := s[|t|].key;
    forall k | k in NodeKeys(s) ensures k in NodeKeys(t) || k == last {
      HasNode(s, k);
      HasNode(t, k);
    }
    forall k | k in NodeKeys(t) ensures k in NodeKeys(s) && k != last {
      HasNode(s, k);
      HasNode(t, k);
    }
    HasNode(s, last);
    if HasFree(t) {
      var i :| 0 <= i < |t| && t[i].key.KNil?;
      assert s[i].key.KNil?;
    }
  }

  lemma OldEntries(h: Hash, m: Contents, a: seq<Value>, s: Nodes, rank: seq<nat>)
    requires Agrees(m, a, s) && WellFormed(h, s, rank)
    ensures forall i :: 0 <= i < |a| ==> At(m, KInt(i + 1)) == a[i]
    ensures forall j :: 0 <= j < |s| && s[j].val != Nil ==> At(m, s[j].key) == s[j].val && s[j].key.Live()
    ensures forall k :: k in m ==> m[k] != Nil
  {
  }

  lemma KeysOutside(m: Contents, a: seq<Value>, s: Nodes)
    requires Agrees(m, a, s)
    ensures forall k :: k in NodeKeys(s) ==> !InArrayRange(k, |a|)
  {
  }

  /**
   * The keys of the table are those in use in the array part, up to MAXASIZE and beyond, and those of the live nodes.
   */
  lemma Parts(m: Contents, h: Hash, a: seq<Value>, s: Nodes, rank: seq<nat>, k: TKey)
    requires Agrees(m, a, s) && WellFormed(h, s, rank) && Found(NoSlot, k, a, s)
    ensures var live := LiveKeys(s) + IntKeys(Beyond(a));
            m.Keys == IntKeys(ArrayInts(a, MAXASIZE)) + live && IntKeys(ArrayInts(a, MAXASIZE)) !! live
    ensures IntKeys(Beyond(a)) !! LiveKeys(s) && forall i :: i in Beyond(a) ==> i > MAXASIZE
    ensures forall i :: i in ArrayInts(a, MAXASIZE) ==> 1 <= i <= MAXASIZE
    ensures k !in m && (forall j :: j in LiveKeys(s) && j.KInt? ==> j.n !in ArrayInts(a, MAXASIZE))
    ensures Distinct(s) && forall i :: 0 <= i < |s| ==> (!s[i].key.Live() ==> s[i].val == Nil)
  {
    hide Placed;
    assert At(m, k) == Nil;
    forall j | j in m ensures j in IntKeys(ArrayInts(a, MAXASIZE)) || j in IntKeys(Beyond(a)) || j in LiveKeys(s) {
      if InArrayRange(j, |a|) {
        assert j == KInt((j.n - 1) + 1) && Used(a, j.n);
      } else {
        HasNode(s, j);
      }
    }
    forall i | Used(a, i) ensures KInt(i) in m && KInt(i) !in LiveKeys(s) {
      assert At(m, KInt((i - 1) + 1)) == a[i - 1];
    }
    forall j | j in LiveKeys(s) ensures j in m {
    }
  }

  // ---- Where the count of a rehash goes wrong ----

  /**
   * A rehash for the key k asks for too few nodes: the size of the array part is right, but the slots in use beyond
   * MAXASIZE, whose entries must all go to the hash part, are not counted.
   */
  ghost predicate Starves(m: Contents, a: seq<Value>, k: TKey) {
    exists n: nat :: Optimal(Indices(m.Keys + {k}), n) && TooFew(m, a, k, n)
  }

  ghost predicate TooFew(m: Contents, a: seq<Value>, k: TKey, n: nat) {
    var asked := |Outside(m.Keys + {k}, n)| - |Beyond(a)|;
    0 <= asked <= MAXASIZE && |Outside(m.Keys, n)| > Capacity(asked)
  }

  lemma OverlookedStarve(m: Contents, a: seq<Value>, k: TKey, v: Value)
    requires |a| == MAXASIZE + 2 && a[MAXASIZE] == v && a[MAXASIZE + 1] == v && v != Nil && k.KOther?
    requires m == map[KInt(MAXASIZE + 1) := v, KInt(MAXASIZE + 2) := v]
    ensures Starves(m, a, k)
  {
    assert Indices(m.Keys + {k}) == {};
    assert forall i: nat :: Upto({}, Pow2(i)) == {};
    assert Optimal({}, 0);
    assert Beyond(a) == {MAXASIZE + 1, MAXASIZE + 2} by {
      assert Used(a, MAXASIZE + 1) && Used(a, MAXASIZE + 2);
    }
    assert Outside(m.Keys, 0) == {KInt(MAXASIZE + 1), KInt(MAXASIZE + 2)};
    assert Outside(m.Keys + {k}, 0) == {KInt(MAXASIZE + 1), KInt(MAXASIZE + 2), k};
    assert TooFew(m, a, k, 0);
  }

  lemma AskedOnce(m: Contents, a: seq<Value>, k: TKey, n: nat)
    requires Optimal(Indices(m.Keys + {k}), n)
    ensures Starves(m, a, k) <==> TooFew(m, a, k, n)
  {
    hide TooFew, Optimal;
    if Starves(m, a, k) {
      var n': nat :| Optimal(Indices(m.Keys + {k}), n') && TooFew(m, a, k, n');
      OptimalUnique(Indices(m.Keys + {k}), n, n');
    }
  }

  lemma IndicesBound(ks: set<TKey>)
    ensures |Indices(ks)| <= |ks|
  {
    IntKeysSize(Indices(ks));
    SubsetSize(IntKeys(Indices(ks)), ks);
  }

  lemma InOutside(ks: set<TKey>, n: int, k: TKey)
    requires k in ks && !InArrayRange(k, n)
    ensures k in Outside(ks, n)
  {
  }

  /** The entries outside an array part that is not smaller are in the nodes. */
  lemma OutsideNodes(m: Contents, h: Hash, a: seq<Value>, s: Nodes, rank: seq<nat>, n: nat)
    requires Agrees(m, a, s) && WellFormed(h, s, rank) && n >= |a|
    ensures |Outside(m.Keys, n)| <= |s| && (s == [EMPTY_NODE] ==> |Outside(m.Keys, n)| == 0)
  {
    var keys := seq(|s|, i requires 0 <= i < |s| => s[i].key);
    forall k | k in Outside(m.Keys, n) ensures k in keys && s != [EMPTY_NODE] {
      HasNode(s, k);
      var i :| 0 <= i < |s| && s[i].key == k;
      assert keys[i] == k;
    }
    SubsetSize(Outside(m.Keys, n), set k | k in keys);
    ElementsBound(keys);
    if s == [EMPTY_NODE] {
      assert Outside(m.Keys, n) == {};
    }
  }

  lemma NeverStarves(m: Contents, a: seq<Value>, k: TKey)
    requires NoneBeyond(a)
    ensures !Starves(m, a, k)
  {
    hide Outside, Optimal, Indices;
    CountedAll(a);
    forall n: nat ensures !TooFew(m, a, k, n) {
      OutsideGrows(m.Keys, k, n);
      CapacityEnough(|Outside(m.Keys + {k}, n)|);
    }
  }

  lemma OutsideGrows(ks: set<TKey>, k: TKey, n: int)
    ensures |Outside(ks, n)| <= |Outside(ks + {k}, n)|
  {
    SubsetSize(Outside(ks, n), Outside(ks + {k}, n));
  }

  lemma CapacityEnough(size: nat)
    ensures Capacity(size) >= size
  {
    if size > 0 {
      assert InSlice(size, CeilLog2(size));
    }
  }

  lemma IndicesRange(ks: set<TKey>)
    ensures forall i :: i in Indices(ks) ==> 1 <= i <= MAXASIZE
  {
  }

  lemma OutsideAdd(ks: set<TKey>, k: TKey, n: int)
    requires k !in ks
    ensures Outside(ks, n) <= Outside(ks + {k}, n) && k !in Outside(ks, n)
    ensures |Outside(ks, n)| + (if InArrayRange(k, n) then 0 else 1) == |Outside(ks + {k}, n)| <= |ks| + 1
    ensures !InArrayRange(k, n) ==> k in Outside(ks + {k}, n)
  {
    if InArrayRange(k, n) {
      assert Outside(ks + {k}, n) == Outside(ks, n);
    } else {
      assert Outside(ks + {k}, n) == Outside(ks, n) + {k};
    }
    SubsetSize(Outside(ks, n), ks);
  }

  /** The values of a table in the order of a traversal, and their keys. */
  function ValuesOf(a: seq<Value>, s: Nodes): (r: seq<Value>)
    ensures |r| == |a| + |s|
  {
    a + seq(|s|, i requires 0 <= i < |s| => s[i].val)
  }

  function KeysOf(a: seq<Value>, s: Nodes): (r: seq<TKey>)
    ensures |r| == |a| + |s|
  {
    seq(|a|, i => KInt(i + 1)) + seq(|s|, i requires 0 <= i < |s| => s[i].key)
  }

  /** p is the first position after i with a value, or the end. */
  ghost predicate FirstAfter(vals: seq<Value>, i: int, p: int) {
    && -1 <= i < p <= |vals|
    && (p < |vals| ==> vals[p] != Nil)
    && forall q :: i < q < p ==> vals[q] == Nil
  }

  /** The position of the key k in a traversal; nil is where it starts. */
  ghost predicate Where(a: seq<Value>, s: Nodes, k: TKey, i: int) {
    if k.KNil? then i == -1
    else if InArrayRange(k, |a|) then i == k.n - 1
    else i >= |a| && IsFirst(s, k, i - |a|)
  }

  /** A key that a traversal cannot resume at: no position has it, or had it when it was buried. */
  ghost predicate Nowhere(a: seq<Value>, s: Nodes, k: TKey) {
    !k.KNil? && !InArrayRange(k, |a|) && IsFirst(s, k, NONE)
  }

  lemma WhereOnce(h: Hash, a: seq<Value>, s: Nodes, rank: seq<nat>, k: TKey, i: int)
    requires WellFormed(h, s, rank) && Where(a, s, k, i)
    ensures !Nowhere(a, s, k) && forall j :: Where(a, s, k, j) ==> j == i
  {
    if !k.KNil? && !InArrayRange(k, |a|) {
      forall p | IsFirst(s, k, p) ensures p == i - |a| {
        FirstOnce(s, rank, k, p, i - |a|);
      }
    }
  }

  lemma WhereKept(h: Hash, a: seq<Value>, s: Nodes, a': seq<Value>, s': Nodes, rank: seq<nat>, k: TKey, i: int)
    requires WellFormed(h, s, rank) && SameShape(s, s') && |a'| == |a| && Where(a, s, k, i)
    ensures Where(a', s', k, i)
  {
    if !k.KNil? && !InArrayRange(k, |a|) {
      FirstKept(s, s', rank, k, i - |a|);
    }
  }

  lemma WhereInside(a: seq<Value>, s: Nodes, k: TKey, i: int)
    requires Where(a, s, k, i)
    ensures -1 <= i < |a| + |s|
  {
  }

  /** An entry that a traversal returns is where the traversal will resume. */
  lemma WhereEntry(m: Contents, h: Hash, a: seq<Value>, s: Nodes, rank: seq<nat>, p: nat)
    requires Agrees(m, a, s) && WellFormed(h, s, rank) && p < |a| + |s| && ValuesOf(a, s)[p] != Nil
    ensures var k := KeysOf(a, s)[p]; k.Live() && k in m && Where(a, s, k, p)
  {
    hide Placed, Linked, Distinct, Fronted, IsFirst;
    if p >= |a| {
      assert At(m, s[p - |a|].key) == s[p - |a|].val;
      LiveIsFirst(h, s, rank, p - |a|);
    } else {
      assert At(m, KInt(p + 1)) == a[p];
    }
  }

  // ---- What may happen to a table during a traversal ----

  /** The program assigns to a field that exists, also nil; or the collector buries a key that has no value. */
  datatype Change = Assign(k: Key, v: Value) | Bury(i: nat)

  function Faded(m: Contents, fields: seq<TKey>, i: nat): seq<TKey> {
    if i < |fields| && fields[i].KObject? && fields[i] !in m then fields[i := KDead(fields[i].id)] else fields
  }

  /** The contents and the fields after some changes. */
  function Changed(m: Contents, fields: seq<TKey>, cs: seq<Change>): (Contents, seq<TKey>)
    decreases |cs|
  {
    if |cs| == 0 then (m, fields)
    else match cs[0]
      case Assign(k, v) => Changed(if !k.KNil? && k in fields then Put(m, k, v) else m, fields, cs[1..])
      case Bury(i) => Changed(m, Faded(m, fields, i), cs[1..])
  }

  /** The same fields, but for burials. */
  ghost predicate Fewer(fields: seq<TKey>, fields': seq<TKey>) {
    && |fields'| == |fields|
    && forall i :: 0 <= i < |fields| ==>
      fields'[i] == fields[i] || (fields[i].KObject? && fields'[i] == KDead(fields[i].id))
  }

  lemma FewerFewer(f0: seq<TKey>, f1: seq<TKey>, f2: seq<TKey>)
    requires Fewer(f0, f1) && Fewer(f1, f2)
    ensures Fewer(f0, f2)
  {
  }

  lemma FewerLive(fields: seq<TKey>, fields': seq<TKey>, i: nat)
    requires Fewer(fields, fields') && i < |fields| && fields'[i].Live()
    ensures fields[i] == fields'[i]
  {
  }

  lemma {:induction false} ChangedKeeps(m: Contents, fields: seq<TKey>, cs: seq<Change>)
    ensures var (m', fields') := Changed(m, fields, cs);
            Fewer(fields, fields') && forall k: Key :: k in m && Assign(k, Nil) !in cs ==> k in m'
    decreases |cs|
  {
    if |cs| > 0 {
      match cs[0]
      case Assign(k, v) => ChangedKeeps(if !k.KNil? && k in fields then Put(m, k, v) else m, fields, cs[1..]);
      case Bury(i) => ChangedKeeps(m, Faded(m, fields, i), cs[1..]);
    }
  }

  lemma FoundIsKey(slot: Slot, k: TKey, a: seq<Value>, s: Nodes)
    requires Found(slot, k, a, s) && !k.KDead?
    ensures slot.NoSlot? <==> k !in KeysOf(a, s) || k.KNil?
  {
    var keys := KeysOf(a, s);
    match slot
    case NoSlot =>
      HasNode(s, k);
      forall i | 0 <= i < |keys| ensures keys[i] != k || k.KNil? {
        assert keys[i] == if i < |a| then KInt(i + 1) else s[i - |a|].key;
      }
    case InArray(i) => assert keys[i] == k;
    case InNode(p) => assert keys[|a| + p] == k;
  }

  lemma SameKeysOf(a: seq<Value>, s: Nodes, a': seq<Value>, s': Nodes)
    requires |a'| == |a| && |s'| == |s| && forall j :: 0 <= j < |s| ==> s'[j].key == s[j].key
    ensures KeysOf(a', s') == KeysOf(a, s)
  {
  }

  /** Burying a node is burying its key. */
  lemma BuriedKeys(m: Contents, a: seq<Value>, s: Nodes, i: nat)
    requires Agrees(m, a, s)
    ensures KeysOf(a, if |a| <= i < |a| + |s| then Buried(s, i - |a|) else s) == Faded(m, KeysOf(a, s), i)
  {
    if |a| <= i < |a| + |s| {
      assert KeysOf(a, s)[i] == s[i - |a|].key;
    }
  }

  lemma BuriedAgrees(m: Contents, a: seq<Value>, s: Nodes, p: nat)
    requires Agrees(m, a, s) && p < |s|
    ensures Agrees(m, a, Buried(s, p))
  {
    forall k | k in m && !InArrayRange(k, |a|) ensures k in NodeKeys(Buried(s, p)) {
      HasNode(s, k);
      var i :| 0 <= i < |s| && s[i].key == k;
      assert Buried(s, p)[i].key == k;
    }
  }

  /** No change assigns nil to k. */
  ghost predicate NeverCleared(changes: seq<seq<Change>>, k: TKey) {
    !k.KDead? && forall cs :: cs in changes ==> Assign(k, Nil) !in cs
  }

  ghost predicate Increasing(at: seq<nat>) { forall i, j :: 0 <= i < j < |at| ==> at[i] < at[j] }

  /** No two positions have the same live key, and every entry has a position. */
  lemma TraversalKeys(m: Contents, h: Hash, a: seq<Value>, s: Nodes, rank: seq<nat>)
    requires Agrees(m, a, s) && WellFormed(h, s, rank)
    ensures var keys, vals := KeysOf(a, s), ValuesOf(a, s);
            && Once(keys)
            && (forall i :: 0 <= i < |keys| ==> At(m, keys[i]) == vals[i])
            && (forall k :: k in m ==> exists i :: 0 <= i < |keys| && keys[i] == k)
            && (forall k :: k in m ==> m[k] != Nil && k.Live())
  {
    hide Agrees, WellFormed, KeysOf, ValuesOf, Once;
    PositionsOnce(m, h, a, s, rank);
    PositionsCover(m, a, s);
    PositionsAgree(m, a, s);
  }

  ghost predicate Once(keys: seq<TKey>) { forall i, j :: 0 <= i < j < |keys| && keys[i] == keys[j] ==> !keys[i].Live() }

  lemma PositionsAgree(m: Contents, a: seq<Value>, s: Nodes)
    requires Agrees(m, a, s)
    ensures var keys, vals := KeysOf(a, s), ValuesOf(a, s);
            && (forall i :: 0 <= i < |keys| ==> At(m, keys[i]) == vals[i])
            && (forall k :: k in m ==> m[k] != Nil && k.Live())
  {
  }

  lemma PositionsOnce(m: Contents, h: Hash, a: seq<Value>, s: Nodes, rank: seq<nat>)
    requires Agrees(m, a, s) && WellFormed(h, s, rank)
    ensures Once(KeysOf(a, s))
  {
    hide Placed, Linked, Fronted;
    var keys := KeysOf(a, s);
    forall i, j | 0 <= i < j < |keys| && keys[i] == keys[j] ensures !keys[i].Live() {
      if |a| <= i {
        assert keys[i] == s[i - |a|].key && keys[j] == s[j - |a|].key;
      }
    }
  }

  lemma PositionsCover(m: Contents, a: seq<Value>, s: Nodes)
    requires Agrees(m, a, s)
    ensures var keys := KeysOf(a, s); forall k :: k in m ==> exists i :: 0 <= i < |keys| && keys[i] == k
  {
    var keys := KeysOf(a, s);
    forall k | k in m ensures exists i :: 0 <= i < |keys| && keys[i] == k {
      if InArrayRange(k, |a|) {
        assert keys[k.n - 1] == k;
      } else {
        HasNode(s, k);
        var i :| 0 <= i < |s| && s[i].key == k;
        assert keys[|a| + i] == k;
      }
    }
  }

  /**
   * A traversal up to the position pos has returned the keys `seen`, at the positions `at`, and skipped no lasting
   * entry.
   */
  ghost predicate Visited(m0: Contents, keys0: seq<TKey>, changes: seq<seq<Change>>, pos: int, seen: seq<TKey>,
                          at: seq<nat>) {
    && |at| == |seen| && Increasing(at)
    && (forall i :: 0 <= i < |at| ==> at[i] <= pos && at[i] < |keys0| && keys0[at[i]] == seen[i] && seen[i].Live())
    && forall q :: 0 <= q <= pos && q < |keys0| && keys0[q] in m0 && NeverCleared(changes, keys0[q]) ==>
      keys0[q] in seen
  }

  /** The entries that are never cleared are still there. */
  ghost predicate Kept(m0: Contents, m: Contents, changes: seq<seq<Change>>) {
    forall k :: k in m0 && NeverCleared(changes, k) ==> k in m
  }

  lemma NothingVisited(m0: Contents, keys0: seq<TKey>, changes: seq<seq<Change>>)
    ensures Visited(m0, keys0, changes, -1, [], []) && Kept(m0, m0, changes) && Fewer(keys0, keys0)
  {
  }

  lemma KeptNext(m0: Contents, m: Contents, keys: seq<TKey>, changes: seq<seq<Change>>, t: nat)
    requires Kept(m0, m, changes) && t < |changes|
    ensures var (m', keys') := Changed(m, keys, changes[t]); Kept(m0, m', changes) && Fewer(keys, keys')
  {
    ChangedKeeps(m, keys, changes[t]);
  }

  /** One step of the traversal, from the position pos to p; at the end there is no key to add. */
  lemma VisitedNext(m0: Contents, keys0: seq<TKey>, m: Contents, h: Hash, a: seq<Value>, s: Nodes, rank: seq<nat>,
                    changes: seq<seq<Change>>, pos: int, p: nat, seen: seq<TKey>, at: seq<nat>)
    requires Agrees(m, a, s) && WellFormed(h, s, rank) && Fewer(keys0, KeysOf(a, s)) && Once(keys0)
    requires Visited(m0, keys0, changes, pos, seen, at) && Kept(m0, m, changes) && FirstAfter(ValuesOf(a, s), pos, p)
    ensures p < |keys0| ==> Visited(m0, keys0, changes, p, seen + [KeysOf(a, s)[p]], at + [p])
    ensures p == |keys0| ==> Visited(m0, keys0, changes, p, seen, at)
  {
    hide Agrees, WellFormed, KeysOf, ValuesOf, Once, NeverCleared;
    var keys, vals := KeysOf(a, s), ValuesOf(a, s);
    TraversalKeys(m, h, a, s, rank);
    forall q | pos < q < p ensures keys0[q] !in m {
      SkippedAbsent(m, keys0, keys, vals, q);
    }
    if p < |keys0| {
      assert At(m, keys[p]) == vals[p];
      FewerLive(keys0, keys, p);
    }
  }

  lemma VisitedAll(m0: Contents, h: Hash, a: seq<Value>, s: Nodes, rank: seq<nat>, changes: seq<seq<Change>>,
                   seen: seq<TKey>, at: seq<nat>)
    requires Agrees(m0, a, s) && WellFormed(h, s, rank) && Visited(m0, KeysOf(a, s), changes, |a| + |s|, seen, at)
    ensures NoDup(seen) && Increasing(at) && |at| == |seen|
    ensures forall i :: 0 <= i < |at| ==> at[i] < |a| + |s| && KeysOf(a, s)[at[i]] == seen[i]
    ensures forall k :: k in m0 && NeverCleared(changes, k) ==> k in seen
  {
    hide Agrees, WellFormed, KeysOf, ValuesOf, NeverCleared;
    var keys := KeysOf(a, s);
    TraversalKeys(m0, h, a, s, rank);
    forall k | k in m0 && NeverCleared(changes, k) ensures k in seen {
      var q :| 0 <= q < |keys| && keys[q] == k;
    }
    forall i, j | 0 <= i < j < |seen| ensures seen[i] != seen[j] {
      assert keys[at[i]] == seen[i] && keys[at[j]] == seen[j] && at[i] < at[j];
    }
  }

  /** A position that is skipped held no entry that is there from the start to the end. */
  lemma SkippedAbsent(m: Contents, keys0: seq<TKey>, keys: seq<TKey>, vals: seq<Value>, q: nat)
    requires Once(keys0) && Fewer(keys0, keys) && q < |keys| == |vals| && vals[q] == Nil
    requires forall i :: 0 <= i < |keys| ==> At(m, keys[i]) == vals[i]
    requires forall k :: k in m ==> (exists i :: 0 <= i < |keys| && keys[i] == k) && m[k] != Nil && k.Live()
    ensures keys0[q] !in m
  {
  }

  /** A border: t[n] is there, or n is zero, and t[n + 1] is not. */
  predicate Border(m: Contents, n: nat) { (n == 0 || KInt(n) in m) && KInt(n + 1) !in m }

  lemma ItemsBorder(m: Contents, a: seq<Value>, s: Nodes, i: nat)
    requires Agrees(m, a, s) && i < |a| && (i == 0 || a[i - 1] != Nil) && a[i] == Nil
    ensures Border(m, i)
  {
    assert At(m, KInt(i + 1)) == a[i];
    assert i > 0 ==> At(m, KInt((i - 1) + 1)) == a[i - 1];
  }

  lemma DummyBorder(m: Contents, a: seq<Value>, s: Nodes)
    requires Agrees(m, a, s) && s == [EMPTY_NODE] && (|a| == 0 || a[|a| - 1] != Nil)
    ensures Border(m, |a|)
  {
    assert |a| > 0 ==> At(m, KInt((|a| - 1) + 1)) == a[|a| - 1];
    HasNode(s, KInt(|a| + 1));
  }

  /** A table has at most as many entries as places. */
  lemma Bounded(m: Contents, h: Hash, a: seq<Value>, s: Nodes, rank: seq<nat>)
    requires Agrees(m, a, s) && WellFormed(h, s, rank)
    ensures |m| <= |a| + |s|
  {
    hide Agrees, WellFormed;
    PositionsCover(m, a, s);
    var keys := KeysOf(a, s);
    assert m.Keys <= (set k | k in keys);
    SubsetSize(m.Keys, set k | k in keys);
    ElementsBound(keys);
  }

  lemma {:induction false} ElementsBound<T>(s: seq<T>)
    ensures |set x | x in s| <= |s|
  {
    if s == [] {
      assert (set x | x in s) == {};
    } else {
      var t := s[..|s| - 1];
      ElementsBound(t);
      assert (set x | x in s) == (set x | x in t) + {s[|s| - 1]} by {
        assert s == t + [s[|s| - 1]];
      }
    }
  }

  /** The keys 1 to n. */
  ghost function FirstKeys(n: nat): (r: set<TKey>)
    ensures |r| == n && forall k :: k in r <==> InArrayRange(k, n)
  {
    if n == 0 then {} else FirstKeys(n - 1) + {KInt(n)}
  }

  lemma ConsecutiveKeys(m: Contents, n: nat)
    requires forall q :: 1 <= q <= n ==> KInt(q) in m
    ensures n <= |m|
  {
    forall k | k in FirstKeys(n) ensures k in m.Keys {
      assert KInt(k.n) in m;
    }
    SubsetSize(FirstKeys(n), m.Keys);
  }
}
