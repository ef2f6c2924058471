/** luaL_ref and luaL_unref (lauxlib.c): references into a table, with a free list threaded through its unused slots. */
module References {
  import opened Base

  /** The values of the table: integers, which also link the free list, and others. */
  datatype Value = Int(n: int) | Other(id: nat)

  type Entries = map<int, Value>

  const FREELIST_REF: int := 0
  const REFNIL: int := -1

  /** What the length operator may return: luaH_getn promises no more. */
  predicate Border(t: Entries, n: nat) { (n == 0 || n in t) && n + 1 !in t }

  /** Without holes the border is unique. */
  lemma OneBorder(t: Entries, n: nat, b: nat)
    requires (forall k: nat :: 1 <= k <= n ==> k in t) && (forall k :: k in t && k > 0 ==> k <= n) && Border(t, b)
    ensures b == n
  {
    assert b < n ==> b + 1 in t;
  }

  // ---- The free list ----

  predicate Holds(t: Entries, k: int, v: Option<Value>) {
    match v case Some(x) => k in t && t[k] == x case None => k !in t
  }

  /** The link to the i-th free reference; after the last one there is none. */
  function LinkTo(free: seq<int>, i: int): Option<Value> { if 0 <= i < |free| then Some(Int(free[i])) else None }

  /** The slots hold the live values and, from slot 0 on, the list of the free references. */
  ghost predicate Threaded(t: Entries, live: map<int, Value>, free: seq<int>) {
    && (forall k :: k in live ==> k in t && t[k] == live[k])
    && Holds(t, FREELIST_REF, LinkTo(free, 0))
    && (forall i :: 0 <= i < |free| ==> Holds(t, free[i], LinkTo(free, i + 1)))
  }

  /** The live and the free references together are 1 to n, and nothing else is in the table. */
  ghost predicate Numbered(t: Entries, live: map<int, Value>, free: seq<int>, n: nat) {
    && NoDup(free) && (forall k :: k in live ==> k !in free)
    && (forall k :: k in live || k in free <==> 1 <= k <= n)
    && (forall k :: k in t ==> 0 <= k <= n)
  }

  function Written(t: Entries, k: int, v: Option<Value>): Entries {
    match v case Some(x) => t[k := x] case None => t - {k}
  }

  lemma TakeFree(t: Entries, live: map<int, Value>, free: seq<int>, n: nat, v: Value)
    requires Threaded(t, live, free) && Numbered(t, live, free, n) && |free| > 0
    ensures var ref := free[0];
            var t' := Written(Written(t, FREELIST_REF, if ref in t then Some(t[ref]) else None), ref, Some(v));
            Threaded(t', live[ref := v], free[1..]) && Numbered(t', live[ref := v], free[1..], n)
  {
    TailMembers(free);
    TakeThreads(t, live, free, v);
    TakeNumbers(t, live, free, n, v);
  }

  lemma TailMembers(free: seq<int>)
    requires NoDup(free) && |free| > 0
    ensures NoDup(free[1..]) && forall k :: k in free[1..] <==> k in free && k != free[0]
  {
    var f := free[1..];
    assert forall i :: 0 <= i < |f| ==> f[i] == free[i + 1];
    forall k | k in free && k != free[0] ensures k in f {
      var i :| 0 <= i < |free| && free[i] == k;
      assert f[i - 1] == k;
    }
  }

  lemma TakeThreads(t: Entries, live: map<int, Value>, free: seq<int>, v: Value)
    requires Threaded(t, live, free) && |free| > 0 && NoDup(free) && (forall k :: k in live ==> k !in free)
    requires forall k :: k in live || k in free ==> k >= 1
    ensures var ref := free[0];
            Threaded(Written(Written(t, FREELIST_REF, if ref in t then Some(t[ref]) else None), ref, Some(v)),
                     live[ref := v], free[1..])
  {
    var ref := free[0];
    var t' := Written(Written(t, FREELIST_REF, if ref in t then Some(t[ref]) else None), ref, Some(v));
    var f := free[1..];
    assert ref in free && Holds(t, free[0], LinkTo(free, 1)) && LinkTo(f, 0) == LinkTo(free, 1);
    forall i | 0 <= i < |f| ensures Holds(t', f[i], LinkTo(f, i + 1)) {
      assert f[i] == free[i + 1] && free[i + 1] in free && free[i + 1] != free[0];
      assert Holds(t, free[i + 1], LinkTo(free, i + 2)) && LinkTo(f, i + 1) == LinkTo(free, i + 2);
    }
  }

  lemma TakeNumbers(t: Entries, live: map<int, Value>, free: seq<int>, n: nat, v: Value)
    requires Numbered(t, live, free, n) && |free| > 0
    ensures var ref := free[0];
            Numbered(Written(Written(t, FREELIST_REF, if ref in t then Some(t[ref]) else None), ref, Some(v)),
                     live[ref := v], free[1..], n)
  {
    TailMembers(free);
    assert free[0] in free;
  }

  lemma NewRef(t: Entries, live: map<int, Value>, n: nat, v: Value)
    requires Threaded(t, live, []) && Numbered(t, live, [], n)
    ensures Threaded(t[n + 1 := v], live[n + 1 := v], []) && Numbered(t[n + 1 := v], live[n + 1 := v], [], n + 1)
    ensures forall b: nat :: Border(t, b) ==> b == n
  {
    forall b: nat | Border(t, b) ensures b == n {
      OneBorder(t, n, b);
    }
  }

  lemma GiveBack(t: Entries, live: map<int, Value>, free: seq<int>, n: nat, ref: int)
    requires Threaded(t, live, free) && Numbered(t, live, free, n) && ref in live
    ensures var t' := Written(Written(t, ref, if FREELIST_REF in t then Some(t[FREELIST_REF]) else None), FREELIST_REF,
                              Some(Int(ref)));
            Threaded(t', live - {ref}, [ref] + free) && Numbered(t', live - {ref}, [ref] + free, n)
  {
    var f := [ref] + free;
    var t' := Written(Written(t, ref, if FREELIST_REF in t then Some(t[FREELIST_REF]) else None), FREELIST_REF,
                      Some(Int(ref)));
    assert forall i :: 1 <= i < |f| ==> f[i] == free[i - 1];
    forall i | 0 <= i < |f| ensures Holds(t', f[i], LinkTo(f, i + 1)) {
      if i > 0 {
        assert Holds(t, free[i - 1], LinkTo(free, i)) && free[i - 1] in free;
      }
    }
    assert forall k :: k in f <==> k == ref || k in free;
  }

  // ---- Whole runs ----

  /**
   * The references in use with their values, the freed ones (the last one first), and how many there have ever been.
   */
  datatype Usage = Usage(live: map<int, Value>, free: seq<int>, count: nat)

  datatype Op = Make(v: Option<Value>) | Drop(ref: int)

  /** The reference a value gets: the one freed last, or else a new one. */
  function Given(u: Usage, v: Option<Value>): int {
    if v.None? then REFNIL else if |u.free| == 0 then u.count + 1 else u.free[0]
  }

  function After(u: Usage, op: Op): Usage {
    match op
    case Make(None) => u
    case Make(Some(x)) =>
      if |u.free| == 0 then Usage(u.live[u.count + 1 := x], [], u.count + 1)
        else Usage(u.live[u.free[0] := x], u.free[1..], u.count)
    case Drop(ref) => if ref < 0 then u else Usage(u.live - {ref}, [ref] + u.free, u.count)
  }

  function AfterAll(u: Usage, ops: seq<Op>): Usage
    decreases |ops|
  {
    if |ops| == 0 then u else AfterAll(After(u, ops[0]), ops[1..])
  }

  /** Only references in use are given back. */
  predicate Proper(u: Usage, ops: seq<Op>)
    decreases |ops|
  {
    |ops| == 0 || ((ops[0].Drop? && ops[0].ref >= 0 ==> ops[0].ref in u.live) && Proper(After(u, ops[0]), ops[1..]))
  }

  /** What luaL_ref returns, call by call. */
  function Results(u: Usage, ops: seq<Op>): seq<int>
    decreases |ops|
  {
    if |ops| == 0 then []
    else (if ops[0].Make? then [Given(u, ops[0].v)] else []) + Results(After(u, ops[0]), ops[1..])
  }

  class RefTable {
    var t: Entries
    ghost var live: map<int, Value>     // the references in use and the values they hold
    ghost var free: seq<int>            // the freed references, the last one first
    ghost var count: nat                // how many references have ever been made

    constructor ()
      ensures Valid() && live == map[] && free == [] && count == 0
    {
      t, live, free, count := map[], map[], [], 0;
    }

    ghost predicate Valid()
      reads this
    {
      Threaded(t, live, free) && Numbered(t, live, free, count)
    }

    /** A live reference is positive and leads to its value. */
    method RawGet(ref: int) returns (v: Option<Value>)
      requires Valid()
      ensures ref in live ==> ref > 0 && v == Some(live[ref])
    {
      return if ref in t then Some(t[ref]) else None;
    }

    /** lua_objlen: its caller knows only that the result is a border. */
    method ObjLen() returns (n: nat)
      ensures Border(t, n)
    {
      n := 0;
      while n + 1 in t
        invariant n == 0 || n in t
        decreases |(set k | k in t && k > n)|
      {
        assert (set k | k in t && k > n) == (set k | k in t && k > n + 1) + {n + 1};
        n := n + 1;
      }
    }

    /** lua_rawseti. */
    method RawSet(k: int, v: Option<Value>)
      modifies `t
      ensures t == Written(old(t), k, v)
    {
      t := match v case Some(x) => t[k := x] case None => t - {k};
    }

    /**
     * luaL_ref, for a value that may be nil: the reference freed last, or else a new one.  The length of the table is
     * asked for only when no reference is free, and then it has just one border.
     */
    method Ref(v: Option<Value>) returns (ref: int)
      requires Valid()
      modifies this
      ensures Valid()
      ensures v.None? ==> ref == -1 && live == old(live) && free == old(free) && count == old(count)
      ensures v.Some? ==> ref >= 1 && ref !in old(live) && live == old(live)[ref := v.value]
      ensures v.Some? ==>
                if old(free) == [] then ref == count == old(count) + 1 && free == []
                else ref == old(free)[0] && free == old(free)[1..] && count == old(count)
    {
      hide Threaded, Numbered;
      if v.None? {
        return REFNIL;
      }
      FirstFree(t, live, free, count);
      ref := if FREELIST_REF in t && t[FREELIST_REF].Int? then t[FREELIST_REF].n else 0;
      if ref != 0 {
        TakeFree(t, live, free, count, v.value);
        RawSet(FREELIST_REF, if ref in t then Some(t[ref]) else None);
        free := free[1..];
      } else {
        assert free == [];
        NewRef(t, live, count, v.value);
        ref := ObjLen();
        ref := ref + 1;
        count := count + 1;
      }
      RawSet(ref, v);
      live := live[ref := v.value];
    }

    /** luaL_unref: the reference becomes the first free one; a negative reference holds nothing. */
    method Unref(ref: int)
      requires Valid() && (ref >= 0 ==> ref in live)
      modifies this
      ensures Valid() && count == old(count)
      ensures ref < 0 ==> live == old(live) && free == old(free)
      ensures ref >= 0 ==> live == old(live) - {ref} && free == [ref] + old(free)
    {
      hide Threaded, Numbered;
      if ref >= 0 {
        GiveBack(t, live, free, count, ref);
        FirstFree(t, live, free, count);
        RawSet(ref, if FREELIST_REF in t then Some(t[FREELIST_REF]) else None);
        RawSet(FREELIST_REF, Some(Int(ref)));
        live := live - {ref};
        free := [ref] + free;
      }
    }

    ghost function Used(): Usage
      reads this
    {
      Usage(live, free, count)
    }

    /** Any run: the references given out are those of the free list, last in first out, and hold their values. */
    method Run(ops: seq<Op>) returns (refs: seq<int>)
      requires Valid() && Proper(Used(), ops)
      modifies this
      ensures Valid() && Used() == AfterAll(old(Used()), ops) && refs == Results(old(Used()), ops)
      ensures forall ref :: ref in live ==> 1 <= ref <= count && ref in t && t[ref] == live[ref]
    {
      hide Threaded, Numbered;
      refs := [];
      var i := 0;
      assert ops[0..] == ops && [] + Results(Used(), ops) == Results(Used(), ops);
      while i < |ops|
        invariant 0 <= i <= |ops| && Valid() && Proper(Used(), ops[i..])
        invariant AfterAll(Used(), ops[i..]) == AfterAll(old(Used()), ops)
        invariant refs + Results(Used(), ops[i..]) == Results(old(Used()), ops)
      {
        assert ops[i..][0] == ops[i] && ops[i..][1..] == ops[i + 1..];
        ghost var u, more := Used(), Results(After(Used(), ops[i]), ops[i + 1..]);
        match ops[i] {
          case Make(v) =>
            var ref := Ref(v);
            assert Used() == After(u, ops[i]);
            assert refs + ([ref] + more) == refs + [ref] + more;
            refs := refs + [ref];
          case Drop(ref) =>
            Unref(ref);
            assert [] + more == more;
        }
        i := i + 1;
      }
      assert refs + [] == refs;
      LiveHeld(t, live, free, count);
    }
  }

  lemma LiveHeld(t: Entries, live: map<int, Value>, free: seq<int>, n: nat)
    requires Threaded(t, live, free) && Numbered(t, live, free, n)
    ensures forall ref :: ref in live ==> 1 <= ref <= n && ref in t && t[ref] == live[ref]
  {
  }

  /** What slot 0 says, and where the references are. */
  lemma FirstFree(t: Entries, live: map<int, Value>, free: seq<int>, n: nat)
    requires Threaded(t, live, free) && Numbered(t, live, free, n)
    ensures if free == [] then FREELIST_REF !in t
      else FREELIST_REF in t && t[FREELIST_REF] == Int(free[0]) && free[0] >= 1 && free[0] !in live
    ensures forall k :: k in live ==> k >= 1
    ensures n + 1 !in live
  {
    if free != [] {
      assert free[0] in free;
    }
  }
}
