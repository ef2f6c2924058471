/** table.sort (ltablib.c, auxsort): quicksort in place, with sentinels instead of bounds checks. */
module Quicksort {
  import opened Base

  type Less<!T> = (T, T) -> bool

  /** A strict weak order: what sort asks of its order function. */
  ghost predicate StrictWeak<T(!new)>(lt: Less<T>) {
    && (forall x {:trigger lt(x, x)} :: !lt(x, x))
    && (forall x, y, z {:trigger lt(x, y), lt(y, z)} :: lt(x, y) && lt(y, z) ==> lt(x, z))
    && (forall x, y, z {:trigger lt(x, y), lt(y, z)} :: !lt(x, y) && !lt(y, z) ==> !lt(x, z))
  }

  /** s' is s with the elements from lo to hi permuted. */
  ghost predicate Permuted<T>(s: seq<T>, s': seq<T>, lo: int, hi: int) {
    && |s'| == |s|
    && multiset(s') == multiset(s)
    && forall k :: 0 <= k < |s| && !(lo <= k <= hi) ==> s'[k] == s[k]
  }

  function Swapped<T>(s: seq<T>, i: nat, j: nat): seq<T>
    requires i < |s| && j < |s|
  {
    s[i := s[j]][j := s[i]]
  }

  ghost predicate IsSwap<T(!new)>(s: seq<T>, s': seq<T>, i: nat, j: nat)
    requires i < |s| && j < |s|
  {
    |s'| == |s| && s'[i] == s[j] && s'[j] == s[i] && forall k :: 0 <= k < |s| && k != i && k != j ==> s'[k] == s[k]
  }

  lemma SwapPermutes<T>(s: seq<T>, i: nat, j: nat, lo: int, hi: int)
    requires i < |s| && j < |s| && lo <= i <= hi && lo <= j <= hi
    ensures Permuted(s, Swapped(s, i, j), lo, hi)
  {
  }

  lemma PermutedThen<T>(s: seq<T>, s': seq<T>, s'': seq<T>, lo: int, hi: int, lo': int, hi': int)
    requires Permuted(s, s', lo, hi) && Permuted(s', s'', lo', hi') && lo <= lo' && hi' <= hi
    ensures Permuted(s, s'', lo, hi)
  {
  }

  lemma Asymmetric<T(!new)>(lt: Less<T>, x: T, y: T)
    requires StrictWeak(lt)
    ensures !(lt(x, y) && lt(y, x))
  {
  }

  lemma PermutedSame<T>(s: seq<T>, lo: int, hi: int)
    ensures Permuted(s, s, lo, hi)
  {
  }

  /** Every element of the permuted range was there before. */
  lemma PermutedFrom<T>(s: seq<T>, s': seq<T>, lo: nat, hi: nat, k: nat) returns (j: nat)
    requires Permuted(s, s', lo, hi) && lo <= k <= hi < |s|
    ensures lo <= j <= hi && s[j] == s'[k]
  {
    var b, b' := s[lo..hi + 1], s'[lo..hi + 1];
    MiddlePermuted(s, s', lo, hi);
    assert b'[k - lo] in multiset(b');
    assert s'[k] in b;
    var i :| 0 <= i < |b| && b[i] == s'[k];
    j := lo + i;
  }

  lemma MiddlePermuted<T>(s: seq<T>, s': seq<T>, lo: nat, hi: nat)
    requires Permuted(s, s', lo, hi) && lo <= hi < |s|
    ensures multiset(s[lo..hi + 1]) == multiset(s'[lo..hi + 1])
  {
    SplitMultiset(s, lo, hi);
    SplitMultiset(s', lo, hi);
    assert s[..lo] == s'[..lo] && s[hi + 1..] == s'[hi + 1..];
  }

  lemma SplitMultiset<T>(s: seq<T>, lo: nat, hi: nat)
    requires lo <= hi < |s|
    ensures multiset(s[lo..hi + 1]) == multiset(s) - multiset(s[..lo]) - multiset(s[hi + 1..])
  {
    assert s == s[..lo] + s[lo..hi + 1] + s[hi + 1..];
  }

  /** Every pair of positions from lo to hi that does not lie within l..u is in order. */
  ghost predicate Around<T(!new)>(lt: Less<T>, s: seq<T>, lo: int, hi: int, l: int, u: int) {
    forall i, j {:trigger s[i], s[j]} :: 0 <= i < j < |s| && lo <= i && j <= hi && !(l <= i && j <= u) ==>
      !lt(s[j], s[i])
  }

  ghost predicate Sorted<T(!new)>(lt: Less<T>, s: seq<T>, lo: int, hi: int) { Around(lt, s, lo, hi, 0, -1) }

  lemma AroundPermuted<T(!new)>(lt: Less<T>, s: seq<T>, s': seq<T>, lo: int, hi: int, l: nat, u: nat)
    requires Around(lt, s, lo, hi, l, u) && Permuted(s, s', l, u) && u < |s| && lo <= l && u <= hi
    ensures Around(lt, s', lo, hi, l, u)
  {
    forall i, j | 0 <= i < j < |s'| && lo <= i && j <= hi && !(l <= i && j <= u) ensures !lt(s'[j], s'[i]) {
      var i0 := i;
      var j0 := j;
      if l <= i <= u {
        i0 := PermutedFrom(s, s', l, u, i);
      }
      if l <= j <= u {
        j0 := PermutedFrom(s, s', l, u, j);
      }
      assert s'[i] == s[i0] && s'[j] == s[j0];
    }
  }

  /** After partitioning around position p: nothing before it is larger, nothing after it smaller. */
  ghost predicate Partitioned<T(!new)>(lt: Less<T>, s: seq<T>, l: int, u: int, p: int)
    requires 0 <= p < |s|
  {
    && (forall k :: 0 <= k < |s| && l <= k <= p ==> !lt(s[p], s[k]))
    && (forall k :: 0 <= k < |s| && p <= k <= u ==> !lt(s[k], s[p]))
  }

  /** With one half of a partition sorted, only the other half is left. */
  lemma HalfSorted<T(!new)>(lt: Less<T>, s: seq<T>, s': seq<T>, lo: int, hi: int, l: nat, u: nat, p: nat, left: bool)
    requires StrictWeak(lt) && lo <= l <= p <= u <= hi && u < |s|
    requires Around(lt, s, lo, hi, l, u) && Partitioned(lt, s, l, u, p)
    requires if left then Permuted(s, s', l, p - 1) && Sorted(lt, s', l, p - 1)
      else Permuted(s, s', p + 1, u) && Sorted(lt, s', p + 1, u)
    ensures if left then Around(lt, s', lo, hi, p + 1, u) else Around(lt, s', lo, hi, l, p - 1)
  {
    assert Permuted(s, s', l, u);
    AroundPermuted(lt, s, s', lo, hi, l, u);
    PartitionKept(lt, s, s', l, u, p, left);
  }

  lemma PartitionKept<T(!new)>(lt: Less<T>, s: seq<T>, s': seq<T>, l: nat, u: nat, p: nat, left: bool)
    requires l <= p <= u < |s| && Partitioned(lt, s, l, u, p)
    requires if left then Permuted(s, s', l, p - 1) else Permuted(s, s', p + 1, u)
    ensures Partitioned(lt, s', l, u, p)
  {
    forall k | l <= k <= p ensures !lt(s'[p], s'[k]) {
      if left && k < p {
        var j := PermutedFrom(s, s', l, p - 1, k);
      }
    }
    forall k | p <= k <= u ensures !lt(s'[k], s'[p]) {
      if !left && k > p {
        var j := PermutedFrom(s, s', p + 1, u, k);
      }
    }
  }

  class Sorter<T(!new)> {
    const a: array<T>
    const lt: Less<T>

    constructor (a: array<T>, lt: Less<T>)
      ensures this.a == a && this.lt == lt
    {
      this.a, this.lt := a, lt;
    }

    /** set2 on two elements just read: they change places. */
    method Swap(i: nat, j: nat, ghost lo: nat, ghost hi: nat)
      requires lo <= i <= hi < a.Length && lo <= j <= hi
      modifies a
      ensures Permuted(old(a[..]), a[..], lo, hi)
      ensures IsSwap(old(a[..]), a[..], i, j)
    {
      SwapPermutes(a[..], i, j, lo, hi);
      a[i], a[j] := a[j], a[i];
      assert a[..] == Swapped(old(a[..]), i, j);
    }

    /** The first part of auxsort: the elements at l, i = (l + u) / 2 and u are put in order. */
    method MedianOfThree(l: nat, u: nat) returns (i: nat)
      requires l < u < a.Length && StrictWeak(lt)
      modifies a
      ensures Permuted(old(a[..]), a[..], l, u)
      ensures i == if u - l == 1 then l else (l + u) / 2
      ensures !lt(a[i], a[l]) && !lt(a[u], a[i]) && !lt(a[u], a[l])
    {
      hide Permuted;
      i := (l + u) / 2;
      PermutedSame(a[..], l, u);
      if lt(a[u], a[l]) {
        Swap(l, u, l, u);
      }
      if u - l == 1 {
        return l;
      }
      ghost var s := a[..];
      if lt(a[i], a[l]) {
        Swap(i, l, l, u);
      } else if lt(a[u], a[i]) {
        Swap(i, u, l, u);
      }
      PermutedThen(old(a[..]), s, a[..], l, u, l, u);
    }

    /** Repeat ++i until a[i] >= p; e is a sentinel. */
    method ScanUp(i0: nat, p: T, u: nat, ghost e: nat) returns (r: Result<nat>)
      requires i0 < e <= u < a.Length && !lt(a[e], p)
      ensures r.Ok? && i0 < r.value <= e && !lt(a[r.value], p)
      ensures forall k :: i0 < k < r.value ==> lt(a[k], p)
    {
      var i := i0 + 1;
      while lt(a[i], p)
        invariant i0 < i <= e && forall k :: i0 < k < i ==> lt(a[k], p)
        decreases e - i
      {
        if i > u {
          return Err;
        }
        i := i + 1;
      }
      return Ok(i);
    }

    /** Repeat --j until a[j] <= p; e is a sentinel. */
    method ScanDown(j0: nat, p: T, l: nat, ghost e: nat) returns (r: Result<nat>)
      requires l <= e < j0 <= a.Length && !lt(p, a[e])
      ensures r.Ok? && e <= r.value < j0 && !lt(p, a[r.value])
      ensures forall k :: r.value < k < j0 ==> lt(p, a[k])
    {
      var j := j0 - 1;
      while lt(p, a[j])
        invariant e <= j < j0 && forall k :: j < k < j0 ==> lt(p, a[k])
        decreases j
      {
        if j < l {
          return Err;
        }
        j := j - 1;
      }
      return Ok(j);
    }

    /** The second part: the elements are partitioned around the median, which ends at position i. */
    method Partition(l: nat, m: nat, u: nat) returns (r: Result<nat>)
      requires l < m < u - 1 && u < a.Length && StrictWeak(lt)
      requires !lt(a[m], a[l]) && !lt(a[u], a[m])
      modifies a
      ensures r.Ok? && l < r.value < u && Permuted(old(a[..]), a[..], l, u) && Partitioned(lt, a[..], l, u, r.value)
    {
      hide Permuted, StrictWeak, Low, High, Partitioned, IsSwap, Later, Earlier, Swapped;
      var p := a[m];
      ghost var s0 := a[..];
      Swap(m, u - 1, l, u);
      PivotHidden(lt, s0, a[..], l, m, u, p);
      var i, j := l, u - 1;
      while true
        invariant l <= i <= j <= u - 1 && (i == j ==> l < j < u - 1) && a[..][u - 1] == p
        invariant Permuted(old(a[..]), a[..], l, u)
        invariant Low(lt, a[..], l, i, p) && High(lt, a[..], j, u, p)
        decreases j - i
      {
        ghost var s, i0, j0 := a[..], i, j;
        Sentinels(lt, s, l, i, j, u, p);
        var up := ScanUp(i, p, u, Later(i, j));
        var down := ScanDown(j, p, l, Earlier(i, j));
        i, j := up.value, down.value;
        Scanned(lt, s, l, i0, i, j, j0, u, p);
        if j < i {
          break;
        }
        Swap(i, j, l, u);
        Exchanged(lt, s, a[..], l, i, j, u, p);
        PermutedThen(old(a[..]), s, a[..], l, u, l, u);
      }
      ghost var s := a[..];
      Swap(u - 1, i, l, u);
      PermutedThen(old(a[..]), s, a[..], l, u, l, u);
      PivotPlaced(lt, s, a[..], l, i, j, u, p);
      return Ok(i);
    }

    /**
     * auxsort: sorts the elements from l0 to u0. It never reports an invalid order function, and since only the
     * smaller part is sorted by a recursive call, the depth of the recursion is at most log2(n + 1).
     */
    method AuxSort(l0: int, u0: int) returns (r: Result<()>, ghost depth: nat)
      requires 0 <= l0 && u0 < a.Length && StrictWeak(lt)
      modifies a
      ensures r.Ok? && Permuted(old(a[..]), a[..], l0, u0) && Sorted(lt, a[..], l0, u0)
      ensures Pow2(depth) <= Size(l0, u0) + 1
      decreases u0 - l0 + 1
    {
      hide Permuted, StrictWeak, Partitioned, Around, Sorted, Pow2, Size;
      var l, u := l0, u0;
      depth := 0;
      PermutedSame(a[..], l0, u0);
      AroundAll(lt, a[..], l0, u0);
      DepthZero(l0, u0);
      while l < u
        invariant l0 <= l && u <= u0 && Permuted(old(a[..]), a[..], l0, u0) && Around(lt, a[..], l0, u0, l, u)
        invariant Pow2(depth) <= Size(l0, u0) + 1
        decreases u - l
      {
        ghost var s := a[..];
        var i := MedianOfThree(l, u);
        RangeKept(lt, old(a[..]), s, a[..], l0, u0, l, u);
        if u - l <= 2 {
          ThreeSorted(lt, a[..], l0, u0, l, u);
          return Ok(()), depth;
        }
        s := a[..];
        var p := Partition(l, i, u);
        i := p.value;
        RangeKept(lt, old(a[..]), s, a[..], l0, u0, l, u);
        ghost var d;
        var left := i - l < u - i;
        s := a[..];
        if left {
          r, d := AuxSort(l, i - 1);
        } else {
          r, d := AuxSort(i + 1, u);
        }
        HalfKept(lt, old(a[..]), s, a[..], l0, u0, l, u, i, left);
        SmallerHalf(d, l0, u0, l, u, i, left);
        depth := if d + 1 > depth then d + 1 else depth;
        if left { l := i + 1; } else { u := i - 1; }
      }
      NothingLeft(lt, a[..], l0, u0, l, u);
      return Ok(()), depth;
    }

    /** sort. */
    method Sort() returns (r: Result<()>, ghost depth: nat)
      requires StrictWeak(lt)
      modifies a
      ensures r.Ok? && multiset(a[..]) == multiset(old(a[..]))
      ensures forall i, j :: 0 <= i < j < a.Length ==> !lt(a[j], a[i])
      ensures Pow2(depth) <= a.Length + 1
    {
      r, depth := AuxSort(0, a.Length - 1);
      assert forall i, j :: 0 <= i < j < a.Length ==> !lt(a[..][j], a[..][i]);
    }
  }

  lemma AroundAll<T(!new)>(lt: Less<T>, s: seq<T>, lo: int, hi: int)
    ensures Around(lt, s, lo, hi, lo, hi)
  {
  }

  lemma NothingLeft<T(!new)>(lt: Less<T>, s: seq<T>, lo: int, hi: int, l: int, u: int)
    requires Around(lt, s, lo, hi, l, u) && l >= u
    ensures Sorted(lt, s, lo, hi)
  {
  }

  lemma ThreeSorted<T(!new)>(lt: Less<T>, s: seq<T>, lo: int, hi: int, l: nat, u: nat)
    requires Around(lt, s, lo, hi, l, u) && l < u <= l + 2 && u < |s|
    requires !lt(s[u], s[l]) && (u == l + 2 ==> !lt(s[l + 1], s[l]) && !lt(s[u], s[l + 1]))
    ensures Sorted(lt, s, lo, hi)
  {
  }

  function Size(l: int, u: int): nat { if l <= u then u - l + 1 else 0 }

  lemma DepthZero(l: int, u: int)
    ensures Pow2(0) <= Size(l, u) + 1
  {
  }

  /** The smaller part has less than half of the elements. */
  lemma SmallerHalf(d: nat, l0: int, u0: int, l: int, u: int, i: int, left: bool)
    requires l0 <= l < i < u <= u0 && left == (i - l < u - i)
    requires Pow2(d) <= (if left then Size(l, i - 1) else Size(i + 1, u)) + 1
    ensures Pow2(d + 1) <= Size(l0, u0) + 1
  {
  }

  lemma RangeKept<T(!new)>(lt: Less<T>, s0: seq<T>, s: seq<T>, s': seq<T>, lo: int, hi: int, l: nat, u: nat)
    requires Permuted(s0, s, lo, hi) && Around(lt, s, lo, hi, l, u) && Permuted(s, s', l, u) && u < |s| && lo <= l
    requires u <= hi
    ensures Permuted(s0, s', lo, hi) && Around(lt, s', lo, hi, l, u)
  {
    AroundPermuted(lt, s, s', lo, hi, l, u);
    PermutedThen(s0, s, s', lo, hi, l, u);
  }

  lemma HalfKept<T(!new)>(lt: Less<T>, s0: seq<T>, s: seq<T>, s': seq<T>, lo: int, hi: int, l: nat, u: nat, p: nat,
                   left: bool)
    requires StrictWeak(lt) && lo <= l <= p <= u <= hi && u < |s| && Permuted(s0, s, lo, hi)
    requires Around(lt, s, lo, hi, l, u) && Partitioned(lt, s, l, u, p)
    requires if left then Permuted(s, s', l, p - 1) && Sorted(lt, s', l, p - 1)
      else Permuted(s, s', p + 1, u) && Sorted(lt, s', p + 1, u)
    ensures Permuted(s0, s', lo, hi)
    ensures if left then Around(lt, s', lo, hi, p + 1, u) else Around(lt, s', lo, hi, l, p - 1)
  {
    HalfSorted(lt, s, s', lo, hi, l, u, p, left);
    PermutedThen(s0, s, s', lo, hi, if left then l else p + 1, if left then p - 1 else u);
  }

  // ---- The two scans of a partition ----

  ghost predicate Low<T(!new)>(lt: Less<T>, s: seq<T>, l: int, i: int, p: T) {
    0 <= l && i < |s| && forall k :: l <= k <= i ==> !lt(p, s[k])
  }

  ghost predicate High<T(!new)>(lt: Less<T>, s: seq<T>, j: int, u: int, p: T) {
    0 <= j && u < |s| && forall k :: j <= k <= u ==> !lt(s[k], p)
  }

  /** The sentinels: where each scan stops at the latest. */
  function Later(i: nat, j: nat): nat { if i < j then j else j + 1 }
  function Earlier(i: nat, j: nat): int { if i < j then i else i - 1 }

  lemma PivotHidden<T(!new)>(lt: Less<T>, s: seq<T>, s': seq<T>, l: nat, m: nat, u: nat, p: T)
    requires StrictWeak(lt) && l < m < u - 1 && u < |s| && s[m] == p && !lt(p, s[l]) && !lt(s[u], p)
    requires IsSwap(s, s', m, u - 1)
    ensures Low(lt, s', l, l, p) && High(lt, s', u - 1, u, p) && s'[u - 1] == p
  {
    Asymmetric(lt, p, p);
  }

  lemma Sentinels<T(!new)>(lt: Less<T>, s: seq<T>, l: nat, i: nat, j: nat, u: nat, p: T)
    requires l <= i <= j <= u - 1 && (i == j ==> l < j < u - 1) && Low(lt, s, l, i, p) && High(lt, s, j, u, p)
    ensures i < Later(i, j) <= u - 1 && l <= Earlier(i, j) < j
    ensures !lt(s[Later(i, j)], p) && !lt(p, s[Earlier(i, j)])
  {
  }

  lemma Scanned<T(!new)>(lt: Less<T>, s: seq<T>, l: nat, i0: nat, i: nat, j: nat, j0: nat, u: nat, p: T)
    requires StrictWeak(lt) && Low(lt, s, l, i0, p) && High(lt, s, j0, u, p) && l <= i0 < i < |s| && j < j0 <= u
    requires forall k :: i0 < k < i ==> lt(s[k], p)
    requires forall k :: j < k < j0 ==> lt(p, s[k])
    ensures Low(lt, s, l, i - 1, p) && High(lt, s, j + 1, u, p)
  {
    hide StrictWeak;
    forall k | i0 < k < i ensures !lt(p, s[k]) {
      Asymmetric(lt, s[k], p);
    }
    forall k | j < k < j0 ensures !lt(s[k], p) {
      Asymmetric(lt, p, s[k]);
    }
  }

  lemma Exchanged<T(!new)>(lt: Less<T>, s: seq<T>, s': seq<T>, l: nat, i: nat, j: nat, u: nat, p: T)
    requires Low(lt, s, l, i - 1, p) && High(lt, s, j + 1, u, p) && l <= i <= j <= u
    requires !lt(s[i], p) && !lt(p, s[j]) && IsSwap(s, s', i, j)
    requires j < u - 1
    ensures Low(lt, s', l, i, p) && High(lt, s', j, u, p) && s'[u - 1] == s[u - 1]
  {
  }

  lemma PivotPlaced<T(!new)>(lt: Less<T>, s: seq<T>, s': seq<T>, l: nat, i: nat, j: nat, u: nat, p: T)
    requires StrictWeak(lt) && Low(lt, s, l, i - 1, p) && High(lt, s, j + 1, u, p) && l < i <= u - 1 && j < i
    requires !lt(s[i], p) && s[u - 1] == p && IsSwap(s, s', u - 1, i)
    ensures Partitioned(lt, s', l, u, i)
  {
    Asymmetric(lt, p, p);
  }
}
