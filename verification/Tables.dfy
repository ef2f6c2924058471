/** Lua tables (ltable.c): the operations on an array part and a hash part. */
module Tables {
  import opened Base
  import opened TableNodes
  import opened TableSizes
  import opened TableCount
  import opened TableParts

  /**
   * What an insertion comes to.  It fails for a nil key or a table that would be too large.  It starves if the table is
   * being resized and the new parts have no node left: the source then rehashes the half-filled table, which is not
   * part of this model.
   */
  datatype Outcome<+T> = Done(value: T) | Failed | Starved {
    predicate IsFailure() { !Done? }

    function PropagateFailure<U>(): Outcome<U>
      requires IsFailure()
    {
      if Failed? then Failed else Starved
    }

    function Extract(): T
      requires Done?
    {
      value
    }
  }

  class Table {
    var items: seq<Value>
    var nodes: Nodes
    var lsizenode: nat
    var dummy: bool
    var lastfree: int
    const hash: Hash
    // the largest array part that may be allocated (lmem.h, luaM_reallocv)
    const limit: nat
    ghost var rank: seq<nat>
    ghost var contents: Contents

    ghost predicate Valid()
      reads this
    {
      && |items| <= limit && MAXASIZE <= limit <= MAX_ITEMS && lsizenode <= MAXBITS && |nodes| == Pow2(lsizenode)
      && WellFormed(hash, nodes, rank)
      && (if dummy then nodes == [EMPTY_NODE] && lastfree <= 0 else Full(nodes, lastfree))
      && Agrees(contents, items, nodes)
    }

    /** The chain of a key, from its main position: luaH_getstr, and the generic part of luaH_get. */
    method Search(k: Key) returns (p: int)
      requires Valid() && !k.KNil?
      ensures IsNode(nodes, k, p)
    {
      p := MainPosition(hash, k, |nodes|);
      ghost var where: int := NONE;
      if i :| 0 <= i < |nodes| && nodes[i].key == k {
        where := i;
        assert Placed(hash, nodes, i);
      }
      while p != NONE && nodes[p].key != k
        invariant NONE <= p < |nodes|
        invariant where != NONE ==> 0 <= where < |nodes| && nodes[where].key == k && Reach(nodes, p, where)
        invariant where == NONE ==> forall i :: 0 <= i < |nodes| ==> nodes[i].key != k
        decreases if p == NONE then 0 else rank[p] + 1
      {
        if where != NONE {
          ReachStep(nodes, p, where);
        }
        p := nodes[p].next;
      }
    }

    /** luaH_getnum. */
    method GetNum(k: int) returns (slot: Slot)
      requires Valid()
      ensures Found(slot, KInt(k), items, nodes)
    {
      if 1 <= k <= |items| {
        return InArray(k - 1);
      }
      var p := Search(KInt(k));
      NotNode(nodes, KInt(k), p);
      return if p == NONE then NoSlot else InNode(p);
    }

    /** luaH_get: where the value of a key is, if the table has the key. */
    method Get(k: Key) returns (slot: Slot)
      requires Valid()
      ensures Found(slot, k, items, nodes) && Read(slot, items, nodes) == At(contents, k)
    {
      if k.KNil? {
        slot := NoSlot;
      } else if k.KInt? && INT_MIN <= k.n <= INT_MAX {
        slot := GetNum(k.n);
      } else {
        var p := Search(k);
        NotNode(nodes, k, p);
        slot := if p == NONE then NoSlot else InNode(p);
      }
      FoundReads(contents, slot, k, items, nodes);
    }

    /** Assignment through the pointer that luaH_set returns. */
    method Store(slot: Slot, ghost k: TKey, v: Value)
      requires Valid() && SlotOf(slot, k, items, nodes)
      modifies this
      ensures Valid() && contents == if v == Nil then old(contents) - {k} else old(contents)[k := v]
      ensures |items| == |old(items)| && |nodes| == |old(nodes)| && NodeKeys(nodes) == NodeKeys(old(nodes))
      ensures forall j :: 0 <= j < |nodes| ==> nodes[j].key == old(nodes)[j].key && nodes[j].next == old(nodes)[j].next
      ensures dummy == old(dummy) && lsizenode == old(lsizenode) && rank == old(rank)
    {
      hide WellFormed, Full, Agrees;
      match slot {
        case InArray(i) =>
          StoreItem(contents, k, v, items, nodes, i);
          items := items[i := v];
        case InNode(p) =>
          StoreNode(contents, k, v, items, hash, nodes, rank, p);
          StoreFull(nodes, p, v, lastfree);
          nodes := nodes[p := nodes[p].(val := v)];
      }
      contents := if v == Nil then contents - {k} else contents[k := v];
    }

    /** getfreepos: the last node without a key, or none. */
    method GetFreePos() returns (p: int)
      requires Valid()
      modifies `lastfree
      ensures p == NONE <==> dummy || !HasFree(nodes)
      ensures p == NONE ==> Valid()
      ensures p != NONE ==> ValidButFree(p)
    {
      while true
        invariant if dummy then lastfree <= 0 else Full(nodes, lastfree)
        decreases lastfree
      {
        lastfree := lastfree - 1;
        if lastfree < 0 {
          return NONE;
        }
        if nodes[lastfree].key.KNil? {
          return lastfree;
        }
      }
    }

    /**
     * newkey.  Level 0 is inside a resize, where a table without free nodes is not rehashed again.  At level 2 a rehash
     * may leave no room for the key, so that it is followed by another one, of a table whose slots are all counted.
     */
    method NewKey(k: Key, level: nat) returns (r: Outcome<Slot>)
      requires Valid() && Found(NoSlot, k, items, nodes) && !k.KNil?
      requires level == 1 ==> NoneBeyond(items)
      modifies this
      ensures r.Done? ==> Valid() && contents == old(contents) && SlotOf(r.value, k, items, nodes)
      ensures r.Done? && |old(items)| <= MAXASIZE ==> |items| <= MAXASIZE
      ensures level == 0 ==> !r.Failed? && (r.Starved? <==> old(Crowded(k)))
      ensures level == 0 ==> AllInPlace(k, old(contents), old(items), old(nodes), old(lsizenode), old(dummy))
      ensures level > 0 ==> (r.Starved? <==> old(Crowded(k) && Starves(contents, items, k)))
      ensures r.Failed? ==> |old(contents)| >= MAXASIZE
      decreases level, 1
    {
      hide WellFormed, Agrees, Full, NodeKeys, Starves, Optimal, Indices, Crowded;
      r := Place(k);
      if r.Starved? && level > 0 {
        r := RehashAndSet(k, level);
      }
    }

    /** The part of newkey that finds a place for the key without a rehash: there is none if the table is crowded. */
    method Place(k: Key) returns (r: Outcome<Slot>)
      requires Valid() && Found(NoSlot, k, items, nodes) && !k.KNil?
      modifies `nodes, `rank, `lastfree
      ensures !r.Failed? && (r.Starved? <==> old(Crowded(k)))
      ensures Valid() && NodeKeys(nodes) <= NodeKeys(old(nodes)) + {k} && (NoneDead(old(nodes)) ==> NoneDead(nodes))
      ensures if r.Done? then SlotOf(r.value, k, items, nodes) else nodes == old(nodes) && rank == old(rank)
    {
      hide WellFormed, Agrees, Full, HasFree, NodeKeys, NoneDead;
      var mp := MainPosition(hash, k, |nodes|);
      if nodes[mp].val != Nil || dummy {
        var n := GetFreePos();
        if n == NONE {
          return Starved;
        }
        mp := PlaceColliding(k, mp, n);
      } else {
        PlaceHere(k, mp);
      }
      return Done(InNode(mp));
    }

    /** The table has no node for the key k without being rehashed. */
    ghost predicate Crowded(k: TKey)
      requires |nodes| > 0
      reads this
    {
      (nodes[MainPosition(hash, k, |nodes|)].val != Nil || dummy) && (dummy || !HasFree(nodes))
    }

    /** The parts of the table are as they were, but for nodes that moved and the new key k. */
    ghost predicate AllInPlace(k: TKey, m: Contents, a: seq<Value>, s: Nodes, lsize: nat, isDummy: bool)
      reads this
    {
      && Valid() && contents == m && items == a && lsizenode == lsize && dummy == isDummy
      && NodeKeys(nodes) <= NodeKeys(s) + {k} && (NoneDead(s) ==> NoneDead(nodes))
    }

    /** The end of newkey, for a table without free nodes. */
    method RehashAndSet(k: Key, level: nat) returns (r: Outcome<Slot>)
      requires Valid() && Found(NoSlot, k, items, nodes) && !k.KNil? && level > 0
      requires level == 1 ==> NoneBeyond(items)
      modifies this
      ensures r.Done? ==>
                Valid() && contents == old(contents) && SlotOf(r.value, k, items, nodes) && |items| <= MAXASIZE
      ensures r.Starved? <==> old(Starves(contents, items, k))
      ensures r.Failed? ==> |old(contents)| >= MAXASIZE
      decreases level, 0
    {
      hide WellFormed, Agrees, Full, NodeKeys, Starves, Optimal, Indices;
      if NoneBeyond(items) {
        NeverStarves(contents, items, k);
      }
      var _ :- Rehash(k);
      assert NoneBeyond(items);
      NeverStarves(contents, items, k);
      r := SetSlot(k, level - 1);
    }

    /** The key takes over a main position without a value. */
    method PlaceHere(k: TKey, mp: nat)
      requires Valid() && Found(NoSlot, k, items, nodes) && k.Live() && !dummy
      requires mp == MainPosition(hash, k, |nodes|) && nodes[mp].val == Nil
      modifies `nodes
      ensures Valid() && nodes[mp].key == k && NodeKeys(nodes) <= NodeKeys(old(nodes)) + {k}
      ensures NoneDead(old(nodes)) ==> NoneDead(nodes)
    {
      hide WellFormed, Agrees, NodeKeys;
      NoNode(nodes, k);
      FreeWellFormed(hash, nodes, rank, mp, k);
      FreeAdds(nodes, mp, k);
      AddedAgrees(contents, items, nodes, PlaceFree(nodes, mp, k), k);
      nodes := nodes[mp := nodes[mp].(key := k)];
    }

    /** The main position has a value: the key goes there if the node belongs elsewhere, or else behind it. */
    method PlaceColliding(k: TKey, mp: nat, n: nat) returns (p: nat)
      requires ValidButFree(n) && Found(NoSlot, k, items, nodes) && k.Live()
      requires mp == MainPosition(hash, k, |nodes|) && nodes[mp].val != Nil
      modifies `nodes, `rank
      ensures Valid() && p < |nodes| && nodes[p].key == k && NodeKeys(nodes) <= NodeKeys(old(nodes)) + {k}
      ensures NoneDead(old(nodes)) ==> NoneDead(nodes)
    {
      hide WellFormed, Agrees, NodeKeys, Full;
      UsedLive(contents, items, nodes, mp);
      var other := MainPosition(hash, nodes[mp].key, |nodes|);
      if other != mp {
        PlaceByMoving(k, mp, n, other);
        return mp;
      } else {
        PlaceBehind(k, mp, n);
        return n;
      }
    }

    /** The key goes to the free node n, chained after the key in its main position. */
    method PlaceBehind(k: TKey, mp: nat, n: nat)
      requires ValidButFree(n) && Found(NoSlot, k, items, nodes) && k.Live()
      requires mp == MainPosition(hash, k, |nodes|) && nodes[mp].key.Live()
      requires MainPosition(hash, nodes[mp].key, |nodes|) == mp
      modifies `nodes, `rank
      ensures Valid() && nodes[n].key == k && NodeKeys(nodes) <= NodeKeys(old(nodes)) + {k}
      ensures NoneDead(old(nodes)) ==> NoneDead(nodes)
    {
      hide Agrees, NodeKeys, Placed, Distinct;
      NoNode(nodes, k);
      AfterWellFormed(hash, nodes, rank, mp, n, k);
      AfterAdds(nodes, mp, n, k);
      AddedAgrees(contents, items, nodes, PlaceAfter(nodes, mp, n, k), k);
      rank := RanksAfter(rank, mp, n);
      nodes := nodes[n := nodes[n].(next := nodes[mp].next)];
      nodes := nodes[mp := nodes[mp].(next := n)];
      nodes := nodes[n := nodes[n].(key := k)];
      assert nodes == PlaceAfter(old(nodes), mp, n, k);
    }

    /** The node before mp in its chain. */
    method FindPrevious(mp: nat, other0: nat) returns (other: nat)
      requires WellFormed(hash, nodes, rank) && mp < |nodes| && !nodes[mp].key.KNil?
      requires other0 == MainPosition(hash, nodes[mp].key, |nodes|) != mp
      ensures other < |nodes| && nodes[other].next == mp
    {
      hide Distinct, Reach;
      assert Placed(hash, nodes, mp);
      other := other0;
      while nodes[other].next != mp
        invariant other < |nodes| && other != mp && Reach(nodes, other, mp)
        decreases rank[other]
      {
        ReachStep(nodes, other, mp);
        ReachInside(nodes, nodes[other].next, mp);
        other := nodes[other].next;
      }
    }

    /** The colliding key moves to the free node n, and the new key takes its place. */
    method PlaceByMoving(k: TKey, mp: nat, n: nat, other0: nat)
      requires ValidButFree(n) && Found(NoSlot, k, items, nodes) && k.Live()
      requires mp == MainPosition(hash, k, |nodes|) && nodes[mp].key.Live()
      requires other0 == MainPosition(hash, nodes[mp].key, |nodes|) != mp
      modifies `nodes, `rank
      ensures Valid() && nodes[mp].key == k && NodeKeys(nodes) <= NodeKeys(old(nodes)) + {k}
      ensures NoneDead(old(nodes)) ==> NoneDead(nodes)
    {
      hide Agrees, NodeKeys, Distinct, Placed, MainPosition;
      NoNode(nodes, k);
      var other := FindPrevious(mp, other0);
      MovedWellFormed(hash, nodes, rank, mp, n, other, k);
      MovedAdds(nodes, mp, n, other, k);
      AddedAgrees(contents, items, nodes, PlaceMoved(nodes, mp, n, other, k), k);
      rank := rank[n := rank[mp]][mp := 0];
      nodes := nodes[other := nodes[other].(next := n)];
      nodes := nodes[n := nodes[mp]];
      nodes := nodes[mp := nodes[mp].(next := NONE, val := Nil)];
      nodes := nodes[mp := nodes[mp].(key := k)];
      assert nodes == PlaceMoved(old(nodes), mp, n, other, k);
    }

    /** The state after getfreepos has found node n: only n may lack a key from `lastfree` on. */
    ghost predicate ValidButFree(n: int)
      reads this
    {
      && |items| <= limit && MAXASIZE <= limit <= MAX_ITEMS && lsizenode <= MAXBITS && |nodes| == Pow2(lsizenode)
      && WellFormed(hash, nodes, rank) && Agrees(contents, items, nodes)
      && !dummy && 0 <= n < |nodes| && nodes[n].key.KNil? && n == lastfree && Full(nodes, n + 1)
    }

    /** setarrayvector, to a larger size: it fails exactly beyond what may be allocated. */
    method SetArrayVector(size: nat) returns (r: Outcome<()>)
      requires size >= |items|
      modifies `items
      ensures r == if size <= limit then Done(()) else Failed
      ensures items == if size <= limit then old(items) + seq(size - |old(items)|, _ => Nil) else old(items)
    {
      if size > limit {
        return Failed;
      }
      items := items + seq(size - |items|, _ => Nil);
      return Done(());
    }

    /** setnodevector: all nodes are free. */
    method SetNodeVector(size: nat) returns (r: Outcome<()>)
      modifies `nodes, `lsizenode, `dummy, `lastfree, `rank
      ensures r == if size <= MAXASIZE then Done(()) else Failed
      ensures r.Done? ==> lsizenode <= MAXBITS && |nodes| == Pow2(lsizenode) && WellFormed(hash, nodes, rank)
                          && (forall i :: 0 <= i < |nodes| ==> nodes[i] == EMPTY_NODE) && dummy == (size == 0)
                          && (if dummy then nodes == [EMPTY_NODE] && lastfree == 0
                              else lastfree == |nodes| == Capacity(size))
    {
      hide WellFormed, CeilLog2;
      var lsize := 0;
      if size == 0 {
        dummy, nodes, lastfree := true, [EMPTY_NODE], 0;
      } else {
        lsize := CeilLog2(size);
        OverflowIff(size);
        if lsize > MAXBITS {
          return Failed;
        }
        dummy, nodes, lastfree := false, seq(Pow2(lsize), _ => EMPTY_NODE), Pow2(lsize);
      }
      lsizenode := lsize;
      rank := seq(|nodes|, _ => 0);
      FreshWellFormed(hash, nodes, rank);
      return Done(());
    }

    /**
     * resize: all entries move to the new parts, if and only if the new hash part can take those outside the array
     * part.
     */
    method Resize(nasize: nat, nhsize: nat) returns (r: Outcome<()>)
      requires Valid()
      modifies this
      ensures r.Failed? <==> nasize > limit || nhsize > MAXASIZE
      ensures r.Starved? <==> !r.Failed? && |Outside(old(contents).Keys, nasize)| > Capacity(nhsize)
      ensures r.Done? ==> contents == old(contents) && Moving(old(contents), nasize, nhsize)
      decreases 0, 4
    {
      hide WellFormed, Agrees, NodeKeys, Outside, Pow2, CeilLog2;
      ghost var orig := contents;
      var olditems, nold := items, nodes;
      OldEntries(hash, orig, items, nodes, rank);
      if nasize > |items| {
        var _ :- SetArrayVector(nasize);
      }
      var _ :- SetNodeVector(nhsize);
      if nasize < |olditems| {
        items := items[..nasize];
      }
      contents := ArrayContents(orig, if nasize < |olditems| then nasize else |olditems|);
      FreshAgrees(orig, olditems, nold, items, nodes, nasize);
      var i := nasize;
      while i < |olditems|
        invariant nasize <= i && (nasize <= |olditems| ==> i <= |olditems|)
        invariant Moving(orig, nasize, nhsize)
        invariant forall k :: k in orig && InArrayRange(k, if i < |olditems| then i else |olditems|) ==> k in contents
      {
        if olditems[i] != Nil {
          var _ :- Reinsert(KInt(i + 1), olditems[i], orig, nasize, nhsize);
        }
        i := i + 1;
      }
      i := |nold|;
      while i > 0
        invariant 0 <= i <= |nold| && Moving(orig, nasize, nhsize)
        invariant forall k :: k in orig && InArrayRange(k, |olditems|) ==> k in contents
        invariant forall j :: i <= j < |nold| && nold[j].val != Nil ==> nold[j].key in contents
      {
        i := i - 1;
        if nold[i].val != Nil {
          var _ :- Reinsert(nold[i].key, nold[i].val, orig, nasize, nhsize);
        }
      }
      AllMoved(orig, olditems, nold, contents);
      NodesTake(nasize, nhsize);
      return Done(());
    }

    /** While the table is being resized it holds some of its original entries. */
    ghost predicate Moving(orig: Contents, nasize: nat, nhsize: nat)
      reads this
    {
      && Valid() && |items| == nasize
      && (forall k :: k in contents ==> k in orig && contents[k] == orig[k])
      && NodeKeys(nodes) <= Outside(orig.Keys, nasize) && NoneDead(nodes)
      && (dummy <==> nhsize == 0) && (!dummy ==> |nodes| == Capacity(nhsize))
    }

    /** The nodes hold no more than they can. */
    lemma NodesTake(nasize: nat, nhsize: nat)
      requires Moving(contents, nasize, nhsize)
      ensures |Outside(contents.Keys, nasize)| <= Capacity(nhsize)
      ensures NodeKeys(nodes) == Outside(contents.Keys, nasize)
    {
      hide WellFormed, Full;
      RoomLeft(hash, nodes, rank);
      forall k | k in Outside(contents.Keys, nasize) ensures k in NodeKeys(nodes) {
        HasNode(nodes, k);
      }
      assert NodeKeys(nodes) == Outside(contents.Keys, nasize);
      if dummy {
        assert NodeKeys(nodes) == {};
      }
    }

    /** An entry goes back into the table, unless it needs a node and none is left. */
    method Reinsert(k: Key, v: Value, ghost orig: Contents, nasize: nat, nhsize: nat) returns (r: Outcome<()>)
      requires Moving(orig, nasize, nhsize) && k in orig && orig[k] == v && v != Nil && !k.KNil?
      modifies this
      ensures !r.Failed?
      ensures r.Done? ==> Moving(orig, nasize, nhsize) && contents == old(contents)[k := v]
      ensures r.Starved? ==> |Outside(orig.Keys, nasize)| > Capacity(nhsize)
      decreases 0, 3
    {
      hide WellFormed, Full, Agrees, NodeKeys, Outside, CeilLog2, Pow2;
      if Found(NoSlot, k, items, nodes) && Crowded(k) {
        OneMore(k, orig, nasize, nhsize);
      }
      var slot :- SetSlot(k, 0);
      KeysOutside(contents, items, nodes);
      assert NodeKeys(nodes) <= Outside(orig.Keys, nasize) by {
        if !InArrayRange(k, nasize) {
          InOutside(orig.Keys, nasize, k);
        }
      }
      Store(slot, k, v);
      return Done(());
    }

    /** If no node is left for one more entry, there are too many. */
    lemma OneMore(k: Key, orig: Contents, nasize: nat, nhsize: nat)
      requires Moving(orig, nasize, nhsize) && k in orig && !InArrayRange(k, nasize) && k !in NodeKeys(nodes)
      requires Crowded(k)
      ensures |Outside(orig.Keys, nasize)| > Capacity(nhsize)
    {
      hide WellFormed, Full, Agrees, CeilLog2;
      RoomLeft(hash, nodes, rank);
      SubsetSize(NodeKeys(nodes) + {k}, Outside(orig.Keys, nasize));
    }

    /**
     * The counting of a rehash: the best size for the array part, and a number of nodes that takes all other keys but
     * for those in slots that are not counted.
     */
    method RehashSizes(k: Key) returns (n: nat, nh: nat)
      requires Valid() && Found(NoSlot, k, items, nodes) && !k.KNil?
      ensures Optimal(Indices(contents.Keys + {k}), n) && n <= MAXASIZE && nh <= |contents| + 1
      ensures nh + |Beyond(items)| == |Outside(contents.Keys + {k}, n)|
    {
      hide WellFormed, Agrees, NodeKeys, Outside, Full, Indices, Counts, LiveKeys, ArrayInts, Optimal, Upto, Beyond,
           IntKeys;
      ghost var a, live, all := ArrayInts(items, MAXASIZE), LiveKeys(nodes), contents.Keys;
      Parts(contents, hash, items, nodes, rank, k);
      BeyondIndices(live, Beyond(items));
      Totals(all, a, live + IntKeys(Beyond(items)), k);
      var nums := new nat[MAXBITS + 1](_ => 0);
      var nasize := NumUseArray(items, nums);
      var totaluse := nasize;
      var inhash, inarray := NumUseHash(nodes, nums, a);
      totaluse, nasize := totaluse + inhash, nasize + inarray;
      var counted := CountInt(k, nums, a + Indices(live));
      totaluse, nasize := totaluse + 1, nasize + counted;
      IndicesRange(all + {k});
      var na;
      n, na := ComputeSizes(nums[..], nasize, Indices(all + {k}));
      OutsideSize(all + {k}, n);
      OutsideAdd(all, k, n);
      UptoAll(Indices(all + {k}), n);
      IndicesBound(live);
      nh := totaluse - na;
    }

    /** rehash: the table gets the sizes asked for; it starves exactly if too many slots in use are not counted. */
    method Rehash(k: Key) returns (r: Outcome<()>)
      requires Valid() && Found(NoSlot, k, items, nodes) && !k.KNil?
      modifies this
      ensures r.Failed? ==> |old(contents)| >= MAXASIZE
      ensures r.Starved? <==> old(Starves(contents, items, k))
      ensures r.Done? ==> Valid() && contents == old(contents) && Optimal(Indices(contents.Keys + {k}), |items|)
      ensures r.Done? ==> |items| <= MAXASIZE && k !in contents
      ensures r.Done? && NoneBeyond(old(items)) ==> InArrayRange(k, |items|) || (!dummy && HasFree(nodes))
      decreases 0, 5
    {
      hide WellFormed, Agrees, NodeKeys, Outside, Full, Indices, Optimal, CeilLog2, Pow2, HasFree, NoneBeyond;
      ghost var m, a := contents, items;
      Absent(m, k, items, nodes);
      CountedAll(a);
      var n, nh := RehashSizes(k);
      OutsideAdd(m.Keys, k, n);
      AskedOnce(m, a, k, n);
      r := Resize(n, nh);
      if r.Done? {
        NodesTake(n, nh);
        RoomLeft(hash, nodes, rank);
        CapacityEnough(nh);
      }
    }

    /** luaH_set. */
    method SetSlot(k: Key, level: nat) returns (r: Outcome<Slot>)
      requires Valid() && (level == 1 ==> NoneBeyond(items))
      modifies this
      ensures r.Done? ==> Valid() && contents == old(contents) && SlotOf(r.value, k, items, nodes)
      ensures r.Done? && |old(items)| <= MAXASIZE ==> |items| <= MAXASIZE
      ensures level == 0 && !k.KNil? ==>
                !r.Failed? && AllInPlace(k, old(contents), old(items), old(nodes), old(lsizenode), old(dummy))
      ensures level == 0 ==> (r.Starved? <==> !k.KNil? && old(Found(NoSlot, k, items, nodes) && Crowded(k)))
      ensures level > 0 ==> (r.Starved? <==> old(Starving(k)))
      ensures r.Failed? ==> k.KNil? || |old(contents)| >= MAXASIZE
      ensures k.KNil? ==> r.Failed? && unchanged(this)
      decreases level, 2
    {
      hide WellFormed, Agrees, Full, NodeKeys, Starves;
      var p := Get(k);
      if !p.NoSlot? {
        FoundInside(p, k, items, nodes);
        return Done(p);
      }
      if k.KNil? {
        return Failed;
      }
      r := NewKey(k, level);
    }

    /** Setting the key k makes the table rehash, and the rehash starves. */
    ghost predicate Starving(k: TKey)
      requires |nodes| > 0
      reads this
    {
      !k.KNil? && Found(NoSlot, k, items, nodes) && Crowded(k) && Starves(contents, items, k)
    }

    /** A table with no slot beyond MAXASIZE in use never starves. */
    lemma StarvingBeyond(k: TKey)
      requires Valid() && Starving(k)
      ensures |items| > MAXASIZE && exists i :: i > MAXASIZE && KInt(i) in contents
    {
      hide WellFormed, Full, Starves;
      if NoneBeyond(items) {
        NeverStarves(contents, items, k);
        assert false;
      }
      var i :| Used(items, i) && i > MAXASIZE;
      assert At(contents, KInt((i - 1) + 1)) == items[i - 1];
    }

    /** luaH_set and the assignment: the table behaves as a finite map, exactly if it does not starve. */
    method Set(k: Key, v: Value) returns (r: Outcome<()>)
      requires Valid()
      modifies this
      ensures r.Done? ==> Valid() && contents == Put(old(contents), k, v)
      ensures r.Done? && |old(items)| <= MAXASIZE ==> |items| <= MAXASIZE
      ensures r.Starved? <==> old(Starving(k))
      ensures r.Failed? ==> k.KNil? || |old(contents)| >= MAXASIZE
      ensures k.KNil? ==> r.Failed? && unchanged(this)
    {
      hide WellFormed, Agrees, Full, Starves, NodeKeys;
      var slot :- SetSlot(k, 2);
      Store(slot, k, v);
      return Done(());
    }

    /**
     * Any sequence of assignments has the effect it has on a map; it fails only at a nil key, or in a full table, and
     * starves only if the array part was made larger than MAXASIZE and an index beyond is in use.
     */
    method SetAll(ops: seq<(Key, Value)>) returns (r: Outcome<()>)
      requires Valid()
      modifies this
      ensures r.Done? ==> Valid() && contents == PutAll(old(contents), ops) && forall op :: op in ops ==> !op.0.KNil?
      ensures r.Failed? ==>
                exists i :: 0 <= i < |ops| && (ops[i].0.KNil? || |PutAll(old(contents), ops[..i])| >= MAXASIZE)
      ensures r.Starved? ==> |old(items)| > MAXASIZE
      ensures r.Starved? ==> exists i, j :: 0 <= i < |ops| && j > MAXASIZE && KInt(j) in PutAll(old(contents), ops[..i])
    {
      hide WellFormed, Agrees, Full, Starves, NodeKeys;
      var i := 0;
      while i < |ops|
        invariant 0 <= i <= |ops| && Valid() && contents == PutAll(old(contents), ops[..i])
        invariant |old(items)| <= MAXASIZE ==> |items| <= MAXASIZE
        invariant forall j :: 0 <= j < i ==> !ops[j].0.KNil?
      {
        if Starving(ops[i].0) {
          StarvingBeyond(ops[i].0);
        }
        var _ :- Set(ops[i].0, ops[i].1);
        PutNext(old(contents), ops, i);
        i := i + 1;
      }
      assert ops[..i] == ops;
      return Done(());
    }

    /** luaH_new. */
    constructor (hash: Hash, limit: nat)
      requires MAXASIZE <= limit <= MAX_ITEMS
      ensures Valid() && contents == map[] && items == [] && dummy && this.hash == hash && this.limit == limit
    {
      this.hash, this.limit := hash, limit;
      items, nodes, lsizenode, dummy, lastfree := [], [EMPTY_NODE], 0, true, 0;
      rank, contents := [0], map[];
      new;
      FreshWellFormed(hash, nodes, rank);
    }

    /** luaH_new: the parts get the sizes asked for, which for the array part may be more than MAXASIZE. */
    method Presize(narray: nat, nhash: nat) returns (r: Outcome<()>)
      requires Valid() && contents == map[] && items == []
      modifies this
      ensures r == if narray <= limit && nhash <= MAXASIZE then Done(()) else Failed
      ensures r.Done? ==> Valid() && contents == map[] && |items| == narray && dummy == (nhash == 0)
    {
      hide WellFormed;
      var _ :- SetArrayVector(narray);
      var _ :- SetNodeVector(nhash);
      return Done(());
    }

    /** luaH_resizearray, to a larger array part: the hash part keeps its size, and the table its contents. */
    method ResizeArray(nasize: nat) returns (r: Outcome<()>)
      requires Valid() && nasize >= |items|
      modifies this
      ensures r.Done? <==> nasize <= limit
      ensures r.Failed? <==> nasize > limit
      ensures r.Done? ==> Valid() && contents == old(contents) && |items| == nasize
    {
      hide WellFormed, Agrees, Full, Outside, CeilLog2, Pow2, NodeKeys;
      var nsize := if dummy then 0 else |nodes|;
      OutsideNodes(contents, hash, items, nodes, rank, nasize);
      Pow2Monotone(lsizenode, MAXBITS);
      Pow2Max();
      CapacityEnough(nsize);
      r := Resize(nasize, nsize);
    }

    /**
     * A table where a rehash asks for too few nodes: both of its entries are beyond MAXASIZE, so that a string key
     * makes the table ask for one node, for three entries.
     */
    static method OverlookedEntries(hash: Hash, limit: nat, v: Value, name: Key) returns (t: Table, r: Outcome<()>)
      requires MAXASIZE + 2 <= limit <= MAX_ITEMS && v != Nil && name.KOther?
      ensures fresh(t) && r.Starved?
    {
      hide WellFormed, Full, NodeKeys, Starves;
      t := new Table(hash, limit);
      r := t.Presize(MAXASIZE + 2, 0);
      t.SetItem(MAXASIZE, v);
      t.SetItem(MAXASIZE + 1, v);
      OverlookedStarve(t.contents, t.items, name, v);
      HasNode(t.nodes, name);
      r := t.Set(name, v);
    }

    /** Assignment to a slot of the array part, as lua_rawseti makes it. */
    method SetItem(i: nat, v: Value)
      requires Valid() && i < |items|
      modifies this
      ensures Valid() && contents == Put(old(contents), KInt(i + 1), v) && items == old(items)[i := v]
      ensures nodes == old(nodes) && dummy == old(dummy)
    {
      var slot := GetNum(i + 1);
      Store(slot, KInt(i + 1), v);
    }

    /** The collector finds node p without a value: removeentry. */
    method BuryNode(p: nat)
      requires Valid() && p < |nodes|
      modifies `nodes
      ensures Valid() && nodes == Buried(old(nodes), p)
    {
      hide WellFormed, Agrees;
      BuriedWellFormed(hash, nodes, rank, p);
      BuriedAgrees(contents, items, nodes, p);
      nodes := Buried(nodes, p);
    }

    // ---- Traversal ----

    /** findindex: the position of a key, also of one that was buried after the traversal had reached it. */
    method FindIndex(k: Key) returns (r: Result<int>)
      requires Valid()
      ensures r.Ok? ==> Where(items, nodes, k, r.value)
      ensures r.Err? <==> Nowhere(items, nodes, k)
    {
      hide Distinct, Fronted, Agrees, Full;
      if k.KNil? {
        return Ok(-1);
      }
      var i := ArrayIndex(k);
      if 0 < i <= |items| {
        return Ok(i - 1);
      }
      var p := FindInChain(k);
      if p == NONE {
        return Err;
      }
      if IsFirst(nodes, k, NONE) {
        FirstOnce(nodes, rank, k, p, NONE);
      }
      return Ok(p + |items|);
    }

    /** The first node in the chain of a key that has it, or had it when it was buried. */
    method FindInChain(k: Key) returns (p: int)
      requires WellFormed(hash, nodes, rank) && !k.KNil?
      ensures IsFirst(nodes, k, p)
    {
      hide Distinct, Fronted, Reach;
      p := MainPosition(hash, k, |nodes|);
      forall i: nat | i < |nodes| && Ident(nodes[i].key) == k ensures Reach(nodes, p, i) {
        assert Placed(hash, nodes, i);
      }
      while p != NONE && nodes[p].key != k && !(nodes[p].key.KDead? && k.KObject? && nodes[p].key.id == k.id)
        invariant NONE <= p < |nodes|
        invariant forall i: nat :: i < |nodes| && Ident(nodes[i].key) == k ==> Reach(nodes, p, i)
        decreases if p == NONE then 0 else rank[p] + 1
      {
        forall i: nat | i < |nodes| && Ident(nodes[i].key) == k ensures Reach(nodes, nodes[p].next, i) {
          ReachStep(nodes, p, i);
        }
        p := nodes[p].next;
      }
      if p == NONE {
        forall i: nat | i < |nodes| ensures Ident(nodes[i].key) != k {
          if Ident(nodes[i].key) == k {
            ReachInside(nodes, NONE, i);
          }
        }
      }
    }

    /** The first position after i that has a value: the loops of luaH_next. */
    method NextPosition(i0: int) returns (p: nat)
      requires Valid() && i0 >= -1 && i0 < |items| + |nodes|
      ensures FirstAfter(ValuesOf(items, nodes), i0, p)
    {
      var vals := ValuesOf(items, nodes);
      var i := i0 + 1;
      while i < |items|
        invariant i0 < i <= |vals| && forall q :: i0 < q < i ==> vals[q] == Nil
      {
        if items[i] != Nil {
          return i;
        }
        i := i + 1;
      }
      i := i - |items|;
      while i < |nodes|
        invariant i >= 0 && i0 < i + |items| <= |vals| && forall q :: i0 < q < i + |items| ==> vals[q] == Nil
      {
        if nodes[i].val != Nil {
          return i + |items|;
        }
        i := i + 1;
      }
      return |vals|;
    }

    /** luaH_next: the first entry after that of k, the array part first. */
    method Next(k: Key) returns (r: Result<Option<(Key, Value)>>, ghost p: int)
      requires Valid()
      ensures r.Err? <==> Nowhere(items, nodes, k)
      ensures r.Ok? ==> exists i: int :: Where(items, nodes, k, i) && FirstAfter(ValuesOf(items, nodes), i, p)
      ensures r.Ok? ==> r.value == if p < |items| + |nodes| then Some(Entry(p)) else None
    {
      hide WellFormed, Agrees, Full, Where;
      p := 0;
      var i :- FindIndex(k);
      WhereInside(items, nodes, k, i);
      var q := NextPosition(i);
      p := q;
      if q < |items| {
        r := Ok(Some((KInt(q + 1), items[q])));
      } else if q < |items| + |nodes| {
        WhereEntry(contents, hash, items, nodes, rank, q);
        var key: Key := nodes[q - |items|].key;
        r := Ok(Some((key, nodes[q - |items|].val)));
      } else {
        r := Ok(None);
      }
    }

    ghost function Entry(p: nat): (TKey, Value)
      requires p < |items| + |nodes|
      reads this
    {
      (KeysOf(items, nodes)[p], ValuesOf(items, nodes)[p])
    }

    /** What may happen to the table between two steps of a traversal. */
    method Change(cs: seq<Change>)
      requires Valid()
      modifies this
      ensures Valid() && |items| == |old(items)| && SameShape(old(nodes), nodes) && rank == old(rank)
      ensures (contents, KeysOf(items, nodes)) == Changed(old(contents), KeysOf(old(items), old(nodes)), cs)
    {
      hide WellFormed, Agrees, Full, KeysOf;
      var i := 0;
      assert cs[0..] == cs;
      while i < |cs|
        invariant 0 <= i <= |cs| && Valid() && |items| == |old(items)| && SameShape(old(nodes), nodes)
        invariant rank == old(rank)
        invariant Changed(contents, KeysOf(items, nodes), cs[i..]) ==
            Changed(old(contents), KeysOf(old(items), old(nodes)), cs)
      {
        assert cs[i..][0] == cs[i] && cs[i..][1..] == cs[i + 1..];
        match cs[i] {
          case Assign(k, v) =>
            AssignField(k, v);
          case Bury(p) =>
            BuriedKeys(contents, items, nodes, p);
            if |items| <= p < |items| + |nodes| {
              BuryNode(p - |items|);
            }
        }
        i := i + 1;
      }
    }

    /** An assignment to a field that exists. */
    method AssignField(k: Key, v: Value)
      requires Valid()
      modifies this
      ensures Valid() && |items| == |old(items)| && SameShape(old(nodes), nodes) && rank == old(rank)
      ensures KeysOf(items, nodes) == KeysOf(old(items), old(nodes))
      ensures contents == if !k.KNil? && k in KeysOf(old(items), old(nodes)) then Put(old(contents), k, v)
        else old(contents)
    {
      hide WellFormed, Agrees, Full, KeysOf;
      var slot := Get(k);
      FoundIsKey(slot, k, items, nodes);
      if !slot.NoSlot? {
        ghost var a, s := items, nodes;
        Store(slot, k, v);
        SameKeysOf(a, s, items, nodes);
      }
    }

    /**
     * A traversal with luaH_next, interleaved with changes: it never loses its place, even at a key that the collector
     * has buried; it ends, its positions only grow (so no entry is seen twice, and the array part comes first), and it
     * sees every entry that is never cleared.
     */
    method Traverse(changes: seq<seq<Change>>) returns (seen: seq<Key>, ghost at: seq<nat>)
      requires Valid()
      modifies this
      ensures Valid() && |at| == |seen| && NoDup(seen)
      ensures Increasing(at)
      ensures forall i :: 0 <= i < |at| ==>
                at[i] < |old(items)| + |old(nodes)| && KeysOf(old(items), old(nodes))[at[i]] == seen[i]
      ensures forall k :: k in old(contents) && NeverCleared(changes, k) ==> k in seen
    {
      hide WellFormed, Agrees, Full, KeysOf, ValuesOf, IsFirst, Visited, Kept, Fewer, Once;
      ghost var m0, keys0 := contents, KeysOf(items, nodes);
      NothingVisited(m0, keys0, changes);
      PositionsOnce(contents, hash, items, nodes, rank);
      var k: Key, t := KNil, 0;
      ghost var pos := -1;
      seen, at := [], [];
      while true
        invariant Valid() && |items| == |old(items)| && |nodes| == |old(nodes)| && |at| == |seen|
        invariant Fewer(keys0, KeysOf(items, nodes)) && Kept(m0, contents, changes)
        invariant Where(items, nodes, k, pos) && -1 <= pos < |keys0|
        invariant Visited(m0, keys0, changes, pos, seen, at)
        decreases |keys0| - pos
      {
        ghost var keys := KeysOf(items, nodes);
        WhereOnce(hash, items, nodes, rank, k, pos);
        var r, p := Next(k);
        VisitedNext(m0, keys0, contents, hash, items, nodes, rank, changes, pos, p, seen, at);
        if r.value.None? {
          VisitedAll(m0, hash, old(items), old(nodes), old(rank), changes, seen, at);
          return;
        }
        WhereEntry(contents, hash, items, nodes, rank, p);
        k, pos := r.value.value.0, p;
        seen, at := seen + [k], at + [p];
        if t < |changes| {
          ghost var m, a, s := contents, items, nodes;
          Change(changes[t]);
          KeptNext(m0, m, keys, changes, t);
          WhereKept(hash, a, s, items, nodes, rank, k, pos);
          FewerFewer(keys0, keys, KeysOf(items, nodes));
        }
        t := t + 1;
      }
    }

    // ---- The length of a table ----

    /** The value of an integer key. */
    method Present(k: int) returns (b: bool)
      requires Valid()
      ensures b <==> KInt(k) in contents
    {
      var slot := GetNum(k);
      FoundReads(contents, slot, KInt(k), items, nodes);
      return match slot
        case NoSlot => false
        case InArray(i) => items[i] != Nil
        case InNode(p) => nodes[p].val != Nil;
    }

    /** unbound_search: a border in the hash part, where i0 is zero or present. */
    method UnboundSearch(i0: nat) returns (n: nat)
      requires Valid() && i0 < MAX_INT && (i0 == 0 || KInt(i0) in contents)
      ensures Border(contents, n) && n <= MAX_INT
    {
      hide WellFormed, Full, Agrees;
      var i, j := i0, i0 + 1;
      var there := Present(j);
      while there
        invariant 0 <= i < j <= MAX_INT && (i == 0 || KInt(i) in contents) && (there <==> KInt(j) in contents)
        decreases MAX_INT - j
      {
        i := j;
        j := j * 2;
        if j > MAX_INT {
          n := LinearSearch();
          return;
        }
        there := Present(j);
      }
      while j - i > 1
        invariant 0 <= i < j <= MAX_INT && (i == 0 || KInt(i) in contents) && KInt(j) !in contents
        decreases j - i
      {
        var m := (i + j) / 2;
        there := Present(m);
        if !there { j := m; } else { i := m; }
      }
      return i;
    }

    /** The linear search of unbound_search; it ends because the table is finite. */
    method LinearSearch() returns (n: nat)
      requires Valid()
      ensures Border(contents, n) && n <= MAX_INT
    {
      hide WellFormed, Full, Agrees;
      var i := 1;
      Bounded(contents, hash, items, nodes, rank);
      Pow2Monotone(lsizenode, MAXBITS);
      Pow2Max();
      ConsecutiveKeys(contents, 0);
      var there := Present(i);
      while there
        invariant i >= 1 && (there <==> KInt(i) in contents) && forall q :: 1 <= q < i ==> KInt(q) in contents
        invariant i - 1 <= |contents|
        decreases |contents| - i
      {
        ConsecutiveKeys(contents, i);
        i := i + 1;
        there := Present(i);
      }
      return i - 1;
    }

    /** luaH_getn. */
    method Length() returns (n: nat)
      requires Valid()
      ensures (n == 0 || KInt(n) in contents) && KInt(n + 1) !in contents && n <= MAX_INT
    {
      var j := |items|;
      if j > 0 && items[j - 1] == Nil {
        var i := 0;
        while j - i > 1
          invariant 0 <= i < j <= |items| && (i == 0 || items[i - 1] != Nil) && items[j - 1] == Nil
          decreases j - i
        {
          var m := (i + j) / 2;
          if items[m - 1] == Nil { j := m; } else { i := m; }
        }
        ItemsBorder(contents, items, nodes, i);
        return i;
      } else if dummy {
        DummyBorder(contents, items, nodes);
        return j;
      } else {
        assert j > 0 ==> At(contents, KInt((j - 1) + 1)) == items[j - 1];
        n := UnboundSearch(j);
      }
    }
  }
}
