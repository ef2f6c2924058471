/** Counting the keys of a table before it is rehashed (ltable.c, countint, numusearray, numusehash). */
module TableCount {
  import opened Base
  import opened TableNodes
  import opened TableSizes

  /** arrayindex: the key as a C int, or -1. */
  function ArrayIndex(k: TKey): (i: int)
    ensures i > 0 <==> k.KInt? && 0 < k.n <= INT_MAX
    ensures i > 0 ==> i == k.n
  {
    if k.KInt? && INT_MIN <= k.n <= INT_MAX then k.n else -1
  }

  /** Keys that may live in the array part. */
  predicate IsIndex(k: TKey) { k.KInt? && 1 <= k.n <= MAXASIZE }

  ghost function Indices(ks: set<TKey>): set<int> { set k | k in ks && IsIndex(k) :: k.n }

  /** The indices up to n of the array slots in use. */
  ghost function ArrayInts(a: seq<Value>, n: int): set<int> { set k | 1 <= k <= n && Used(a, k) }

  predicate Used(a: seq<Value>, k: int) { 1 <= k <= |a| && a[k - 1] != Nil }

  /** The keys of the nodes whose value is not nil. */
  ghost function LiveKeys(s: Nodes): set<TKey> { set i | 0 <= i < |s| && s[i].val != Nil :: s[i].key }

  /** The keys that can be found in the hash part. */
  ghost function NodeKeys(s: Nodes): set<TKey> { set i | 0 <= i < |s| && s[i].key.Live() :: s[i].key }

  lemma CountOne(nums: seq<nat>, c: set<int>, k: int, i: nat)
    requires Counts(nums, c) && k !in c && InSlice(k, i) && i <= MAXBITS
    ensures Counts(nums[i := nums[i] + 1], c + {k})
  {
    forall j | 0 <= j < |nums| ensures nums[i := nums[i] + 1][j] == |Slice(c + {k}, j)| {
      if j == i {
        assert Slice(c + {k}, j) == Slice(c, j) + {k};
      } else {
        if InSlice(k, j) {
          SliceUnique(k, i, j);
        }
        assert Slice(c + {k}, j) == Slice(c, j);
      }
    }
  }

  lemma CountNone(nums: seq<nat>)
    requires |nums| == MAXBITS + 1 && forall i :: 0 <= i < |nums| ==> nums[i] == 0
    ensures Counts(nums, {})
  {
    forall i | 0 <= i < |nums| ensures nums[i] == |Slice({}, i)| {
      assert Slice({}, i) == {};
    }
  }

  lemma SliceSmall(k: int, i: nat)
    requires InSlice(k, i) && k <= MAXASIZE
    ensures i <= MAXBITS
  {
    Pow2Max();
    if i > MAXBITS {
      Pow2Monotone(MAXBITS, i - 1);
    }
  }

  /** countint. */
  method CountInt(key: TKey, nums: array<nat>, ghost c: set<int>) returns (counted: nat)
    requires Counts(nums[..], c) && (IsIndex(key) ==> key.n !in c)
    modifies nums
    ensures counted == if IsIndex(key) then 1 else 0
    ensures Counts(nums[..], c + Indices({key}))
  {
    var k := ArrayIndex(key);
    if 0 < k <= MAXASIZE {
      var i := CeilLog2(k);
      SliceSmall(k, i);
      CountOne(nums[..], c, k, i);
      nums[i] := nums[i] + 1;
      assert nums[..] == old(nums[..])[i := old(nums[..])[i] + 1];
      assert Indices({key}) == {k};
      return 1;
    } else {
      assert c + Indices({key}) == c;
      return 0;
    }
  }

  lemma ArrayIntsNext(a: seq<Value>, k: int)
    requires k >= 1
    ensures ArrayInts(a, k) == (if Used(a, k) then ArrayInts(a, k - 1) + {k} else ArrayInts(a, k - 1))
    ensures k !in ArrayInts(a, k - 1)
  {
  }

  /** The inner loop of numusearray: the indices up to lim. */
  method CountSlice(a: seq<Value>, i0: nat, lim: nat, ghost lg: nat, ghost nums: seq<nat>) returns (i: nat, lc: nat)
    requires 1 <= i0 && lim <= |a| && lim <= Pow2(lg) && (lg > 0 ==> Pow2(lg - 1) < i0) && lg <= MAXBITS
    requires Counts(nums, ArrayInts(a, i0 - 1))
    ensures i == if i0 <= lim then lim + 1 else i0
    ensures Counts(nums[lg := nums[lg] + lc], ArrayInts(a, i - 1))
    ensures |ArrayInts(a, i0 - 1)| + lc == |ArrayInts(a, i - 1)|
  {
    hide ArrayInts, Slice;
    i, lc := i0, 0;
    assert nums[lg := nums[lg] + 0] == nums;
    while i <= lim
      invariant i0 <= i && (i0 <= lim ==> i <= lim + 1) && (i0 > lim ==> i == i0)
      invariant Counts(nums[lg := nums[lg] + lc], ArrayInts(a, i - 1))
      invariant |ArrayInts(a, i0 - 1)| + lc == |ArrayInts(a, i - 1)|
    {
      ArrayIntsNext(a, i);
      if a[i - 1] != Nil {
        CountOne(nums[lg := nums[lg] + lc], ArrayInts(a, i - 1), i, lg);
        assert nums[lg := nums[lg] + lc][lg := nums[lg] + lc + 1] == nums[lg := nums[lg] + (lc + 1)];
        lc := lc + 1;
      }
      i := i + 1;
    }
  }

  /** numusearray. */
  method NumUseArray(a: seq<Value>, nums: array<nat>) returns (ause: nat)
    requires nums.Length == MAXBITS + 1 && forall i :: 0 <= i < nums.Length ==> nums[i] == 0
    modifies nums
    ensures Counts(nums[..], ArrayInts(a, MAXASIZE)) && ause == |ArrayInts(a, MAXASIZE)|
  {
    hide ArrayInts, Slice;
    ause := 0;
    var i, lg, ttlg := 1, 0, 1;
    CountNone(nums[..]);
    NoInts(a);
    Pow2Max();
    while lg <= MAXBITS
      invariant lg <= MAXBITS + 1 && ttlg == Pow2(lg)
      invariant 1 <= i && i - 1 == (if lg == 0 then 0 else if Pow2(lg - 1) < |a| then Pow2(lg - 1) else |a|)
      invariant nums.Length == MAXBITS + 1 && Counts(nums[..], ArrayInts(a, i - 1)) && ause == |ArrayInts(a, i - 1)|
    {
      var lim := ttlg;
      if lim > |a| {
        lim := |a|;
        if i > lim {
          Pow2Monotone(lg, MAXBITS);
          break;
        }
      }
      ghost var before := nums[..];
      var lc;
      i, lc := CountSlice(a, i, lim, lg, before);
      nums[lg] := nums[lg] + lc;
      ause := ause + lc;
      assert nums[..] == before[lg := before[lg] + lc];
      lg, ttlg := lg + 1, ttlg * 2;
    }
    IntsBeyond(a, i - 1, MAXASIZE);
  }

  lemma NoInts(a: seq<Value>)
    ensures ArrayInts(a, 0) == {}
  {
  }

  lemma IntsBeyond(a: seq<Value>, n: int, m: int)
    requires n == m || (|a| <= n && |a| <= m)
    ensures ArrayInts(a, n) == ArrayInts(a, m)
  {
    forall k | Used(a, k) ensures k <= |a| {
    }
  }

  /** The slots in use that numusearray does not see: its slices end at MAXASIZE. */
  ghost function Beyond(a: seq<Value>): set<int> { set k | MAXASIZE < k <= |a| && Used(a, k) }

  ghost predicate NoneBeyond(a: seq<Value>) { forall k :: Used(a, k) ==> k <= MAXASIZE }

  /** The count of numusearray is right exactly if no slot beyond MAXASIZE is in use. */
  lemma CountedAll(a: seq<Value>)
    ensures |ArrayInts(a, MAXASIZE)| == |ArrayInts(a, |a|)| <==> NoneBeyond(a)
    ensures NoneBeyond(a) <==> |Beyond(a)| == 0
  {
    var some, all := ArrayInts(a, MAXASIZE), ArrayInts(a, |a|);
    SubsetSize(some, all);
    forall k | Used(a, k) ensures k in all && (k in some <==> k <= MAXASIZE) {
    }
    forall k | Used(a, k) && k > MAXASIZE ensures k in Beyond(a) {
    }
    if NoneBeyond(a) {
      assert some == all;
      assert Beyond(a) == {};
    }
  }

  /** An array part, as lua_createtable makes it when asked, whose one entry is not counted. */
  lemma CountMisses(v: Value)
    requires v != Nil
    ensures var a := seq(MAXASIZE, _ => Nil) + [v]; |ArrayInts(a, MAXASIZE)| == 0 && |ArrayInts(a, |a|)| == 1
  {
    var a := seq(MAXASIZE, _ => Nil) + [v];
    forall k ensures Used(a, k) <==> k == MAXASIZE + 1 {
    }
    assert ArrayInts(a, MAXASIZE) == {};
    assert ArrayInts(a, |a|) == {MAXASIZE + 1};
  }

  /** numusehash. */
  method NumUseHash(s: Nodes, nums: array<nat>, ghost c: set<int>) returns (totaluse: nat, ause: nat)
    requires Counts(nums[..], c) && Distinct(s) && forall i :: 0 <= i < |s| ==> (!s[i].key.Live() ==> s[i].val == Nil)
    requires forall k :: k in LiveKeys(s) && k.KInt? ==> k.n !in c
    modifies nums
    ensures Counts(nums[..], c + Indices(LiveKeys(s)))
    ensures totaluse == |LiveKeys(s)| && ause == |Indices(LiveKeys(s))|
  {
    hide Distinct, Indices, LiveKeys, Counts;
    totaluse, ause := 0, 0;
    var i := |s|;
    LiveNone(s[i..]);
    assert c + {} == c;
    while i > 0
      invariant 0 <= i <= |s|
      invariant Counts(nums[..], c + Indices(LiveKeys(s[i..])))
      invariant totaluse == |LiveKeys(s[i..])| && ause == |Indices(LiveKeys(s[i..]))|
    {
      i := i - 1;
      LiveNext(s, i);
      if s[i].val != Nil {
        LiveIn(s, i);
        ghost var rest := LiveKeys(s[i + 1..]);
        IndicesAdd(rest, s[i].key);
        var counted := CountInt(s[i].key, nums, c + Indices(rest));
        assert c + Indices(rest) + Indices({s[i].key}) == c + Indices(rest + {s[i].key});
        ause, totaluse := ause + counted, totaluse + 1;
      }
    }
    assert s[i..] == s;
  }

  lemma LiveNone(s: Nodes)
    requires |s| == 0
    ensures LiveKeys(s) == {} && Indices(LiveKeys(s)) == {}
  {
  }

  lemma LiveIn(s: Nodes, i: nat)
    requires i < |s| && s[i].val != Nil
    ensures s[i].key in LiveKeys(s)
  {
  }

  lemma LiveNext(s: Nodes, i: nat)
    requires i < |s| && Distinct(s) && forall i :: 0 <= i < |s| ==> (!s[i].key.Live() ==> s[i].val == Nil)
    ensures var rest := LiveKeys(s[i + 1..]);
            LiveKeys(s[i..]) == (if s[i].val != Nil then rest + {s[i].key} else rest)
                && (s[i].val != Nil ==> s[i].key !in rest)
  {
    var t := s[i..];
    assert t[1..] == s[i + 1..] && t[0] == s[i];
    assert forall j :: 0 <= j < |t| ==> t[j] == s[i + j];
    var u := s[i + 1..];
    assert forall j :: 0 <= j < |u| ==> u[j] == t[j + 1];
    forall k | k in LiveKeys(t) ensures k in LiveKeys(u) || (s[i].val != Nil && k == s[i].key) {
      var j :| 0 <= j < |t| && t[j].val != Nil && t[j].key == k;
      assert j > 0 ==> u[j - 1] == t[j];
    }
    forall k | k in LiveKeys(u) ensures k in LiveKeys(t) {
      var j :| 0 <= j < |u| && u[j].val != Nil && u[j].key == k;
      assert t[j + 1] == u[j];
    }
  }

  lemma IndicesAdd(ks: set<TKey>, k: TKey)
    requires k !in ks
    ensures Indices(ks + {k}) == Indices(ks) + Indices({k})
    ensures |Indices(ks + {k})| == |Indices(ks)| + (if IsIndex(k) then 1 else 0)
    ensures IsIndex(k) ==> k.n !in Indices(ks)
  {
    if IsIndex(k) {
      assert Indices({k}) == {k.n};
      forall j | j in ks && IsIndex(j) ensures j.n != k.n {
        assert j == k || j != k;
      }
    } else {
      assert Indices({k}) == {};
      assert Indices(ks + {k}) == Indices(ks);
    }
  }

  // ---- The totals ----

  ghost function IntKeys(c: set<int>): set<TKey> { set k | k in c :: KInt(k) }

  lemma Member<T>(c: set<T>) returns (x: T)
    requires c != {}
    ensures x in c
  {
    x :| x in c;
  }

  lemma {:induction false} IntKeysSize(c: set<int>)
    ensures |IntKeys(c)| == |c|
  {
    if c == {} {
      assert IntKeys(c) == {};
    } else {
      var k := Member(c);
      IntKeysSize(c - {k});
      assert IntKeys(c) == IntKeys(c - {k}) + {KInt(k)};
    }
  }

  /** Among the keys ks, those that do not go to an array part of size n. */
  ghost function Outside(ks: set<TKey>, n: int): set<TKey> { set k | k in ks && !InArrayRange(k, n) }

  predicate InArrayRange(k: TKey, n: int) { k.KInt? && 1 <= k.n <= n }

  lemma OutsideSize(ks: set<TKey>, n: int)
    requires n <= MAXASIZE
    ensures |Outside(ks, n)| == |ks| - |Upto(Indices(ks), n)|
  {
    var inside := IntKeys(Upto(Indices(ks), n));
    IntKeysSize(Upto(Indices(ks), n));
    forall k | k in ks && InArrayRange(k, n) ensures k in inside {
      assert IsIndex(k) && k.n in Indices(ks);
    }
    assert ks == Outside(ks, n) + inside;
    assert Outside(ks, n) !! inside;
  }

  /** The three counts of rehash add up to all keys and the new one. */
  lemma Totals(all: set<TKey>, a: set<int>, live: set<TKey>, k: TKey)
    requires all == IntKeys(a) + live && (forall i :: i in a ==> 1 <= i <= MAXASIZE) && IntKeys(a) !! live && k !in all
    ensures |all + {k}| == |a| + |live| + 1
    ensures a + Indices(live) + Indices({k}) == Indices(all + {k})
    ensures a !! Indices(live) && (IsIndex(k) ==> k.n !in a + Indices(live))
    ensures |Indices(all + {k})| == |a| + |Indices(live)| + (if IsIndex(k) then 1 else 0)
  {
    hide IntKeys, Indices;
    IntKeysSize(a);
    IndicesAdd(all, k);
    IndicesOf(a, live);
    assert |all| == |IntKeys(a)| + |live|;
    assert |a + Indices(live)| == |a| + |Indices(live)|;
  }

  /** Keys beyond the largest index are no indices. */
  lemma BeyondIndices(live: set<TKey>, b: set<int>)
    requires (forall i :: i in b ==> i > MAXASIZE) && IntKeys(b) !! live
    ensures Indices(live + IntKeys(b)) == Indices(live) && |live + IntKeys(b)| == |live| + |b|
  {
    IntKeysSize(b);
    forall k | k in live + IntKeys(b) && IsIndex(k) ensures k in live {
    }
  }

  lemma IndicesOf(a: set<int>, live: set<TKey>)
    requires (forall i :: i in a ==> 1 <= i <= MAXASIZE) && IntKeys(a) !! live
    ensures Indices(IntKeys(a) + live) == a + Indices(live) && a !! Indices(live)
  {
    var all := IntKeys(a) + live;
    forall i | i in a ensures i in Indices(all) && i !in Indices(live) {
      assert KInt(i) in IntKeys(a) && IsIndex(KInt(i));
      assert KInt(i) in all;
    }
    forall i | i in Indices(live) ensures i in Indices(all) {
      assert KInt(i) in live && KInt(i) in all;
    }
    forall i | i in Indices(all) ensures i in a + Indices(live) {
      assert KInt(i) in all;
    }
  }
}
