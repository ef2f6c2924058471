/** Choosing the size of the array part (ltable.c, computesizes): the counting of integer keys by powers of two. */
module TableSizes {
  import opened Base

  const MAXBITS: nat := 26
  const MAXASIZE: nat := 67108864

  lemma Pow2Max()
    ensures Pow2(MAXBITS) == MAXASIZE
  {
    assert Pow2(8) == 256;
    assert Pow2(16) == 65536;
    assert Pow2(24) == 16777216;
  }

  lemma {:induction false} Pow2Monotone(i: nat, j: nat)
    requires i <= j
    ensures Pow2(i) <= Pow2(j)
    decreases j - i
  {
    if i < j {
      Pow2Monotone(i, j - 1);
    }
  }

  /** ceillog2: the slice of powers of two that k belongs to. */
  function CeilLog2(k: nat): (i: nat)
    requires k >= 1
    ensures InSlice(k, i)
  {
    if k == 1 then 0 else CeilLog2((k + 1) / 2) + 1
  }

  /** k lies in (2^(i-1), 2^i]. */
  predicate InSlice(k: int, i: nat) { (if i == 0 then 0 else Pow2(i - 1)) < k <= Pow2(i) }

  lemma SliceUnique(k: int, i: nat, j: nat)
    requires InSlice(k, i) && InSlice(k, j)
    ensures i == j
  {
    if i < j {
      Pow2Monotone(i, j - 1);
    } else if j < i {
      Pow2Monotone(j, i - 1);
    }
  }

  ghost function Upto(c: set<int>, n: int): set<int> { set k | k in c && k <= n }

  ghost function Slice(c: set<int>, i: nat): set<int> { set k | k in c && InSlice(k, i) }

  /** nums[i] is the number of keys in the i-th slice. */
  ghost predicate Counts(nums: seq<nat>, c: set<int>) {
    |nums| == MAXBITS + 1 && forall i :: 0 <= i < |nums| ==> nums[i] == |Slice(c, i)|
  }

  ghost predicate Positive(c: set<int>) { forall k :: k in c ==> k >= 1 }

  /** At most n keys up to n. */
  lemma {:induction false} UptoBound(c: set<int>, n: nat)
    requires Positive(c)
    ensures |Upto(c, n)| <= n
  {
    if n == 0 {
      assert Upto(c, n) == {};
    } else {
      UptoBound(c, n - 1);
      assert Upto(c, n) <= Upto(c, n - 1) + {n};
      SubsetSize(Upto(c, n), Upto(c, n - 1) + {n});
    }
  }

  lemma {:induction false} SubsetSize<T>(a: set<T>, b: set<T>)
    requires a <= b
    ensures |a| <= |b|
    ensures |a| == |b| ==> a == b
  {
    if a != {} {
      var x :| x in a;
      SubsetSize(a - {x}, b - {x});
    }
  }

  lemma UptoSlice(c: set<int>, i: nat)
    requires Positive(c)
    ensures |Upto(c, Pow2(i))| == (if i == 0 then 0 else |Upto(c, Pow2(i - 1))|) + |Slice(c, i)|
  {
    var low := if i == 0 then {} else Upto(c, Pow2(i - 1));
    assert Upto(c, Pow2(i)) == low + Slice(c, i);
    assert low !! Slice(c, i);
  }

  lemma UptoAll(c: set<int>, n: int)
    ensures |Upto(c, n)| <= |c|
    ensures (forall k :: k in c ==> k <= n) ==> Upto(c, n) == c
    ensures |Upto(c, n)| == |c| ==> forall k :: k in c ==> k <= n
  {
    SubsetSize(Upto(c, n), c);
  }

  /** The number of keys is more than half of n. */
  ghost predicate Dense(c: set<int>, n: nat) { |Upto(c, n)| > n / 2 }

  /** n is the largest power of two more than half full, or 0 if there is none. */
  ghost predicate Optimal(c: set<int>, n: nat) {
    && (n == 0 || exists i: nat :: i <= MAXBITS && n == Pow2(i) && Dense(c, Pow2(i)))
    && forall i: nat :: Pow2(i) > n ==> !Dense(c, Pow2(i))
  }

  lemma OptimalUnique(c: set<int>, n: nat, n': nat)
    requires Optimal(c, n) && Optimal(c, n')
    ensures n == n'
  {
  }

  /** computesizes. */
  method ComputeSizes(nums: seq<nat>, narray: nat, ghost c: set<int>) returns (n: nat, na: nat)
    requires Counts(nums, c) && narray == |c| && forall k :: k in c ==> 1 <= k <= MAXASIZE
    ensures Optimal(c, n) && na == |Upto(c, n)| && n <= MAXASIZE
    ensures n / 2 <= na <= n
  {
    n, na := 0, 0;
    assert Upto(c, 0) == {};
    var a, i, twotoi := 0, 0, 1;
    Pow2Max();
    while twotoi / 2 < narray
      invariant twotoi == Pow2(i) && i <= MAXBITS + 1
      invariant a == if i == 0 then 0 else |Upto(c, Pow2(i - 1))|
      invariant i > 0 ==> a < narray
      invariant BestBelow(c, n, i) && n <= MAXASIZE
      invariant na == |Upto(c, n)|
      decreases MAXBITS + 1 - i
    {
      UptoAll(c, MAXASIZE);
      assert i <= MAXBITS;
      Pow2Monotone(i, MAXBITS);
      UptoSlice(c, i);
      if nums[i] > 0 {
        a := a + nums[i];
        if a > twotoi / 2 {
          n, na := twotoi, a;
        }
      } else if i > 0 {
        UptoBound(c, Pow2(i - 1));
      }
      assert a == |Upto(c, Pow2(i))|;
      assert BestBelow(c, n, i + 1) by {
        assert n == Pow2(i) ==> Dense(c, Pow2(i));
        assert n != Pow2(i) ==> !Dense(c, Pow2(i));
        assert forall j: nat :: j < i ==> Pow2(j) < Pow2(i) by {
          forall j: nat | j < i ensures Pow2(j) < Pow2(i) {
            Pow2Monotone(j, i - 1);
          }
        }
      }
      UptoAll(c, Pow2(i));
      if a == narray {
        AllCounted(c, n, i);
        break;
      }
      i, twotoi := i + 1, twotoi * 2;
    }
    if twotoi / 2 >= narray {
      TooFew(c, i);
    }
    UptoBound(c, n);
  }

  /** n is the best power of two below 2^i. */
  ghost predicate BestBelow(c: set<int>, n: nat, i: nat) {
    && (n == 0 || exists j: nat :: j < i && j <= MAXBITS && n == Pow2(j) && Dense(c, Pow2(j)))
    && forall j: nat :: j < i && Pow2(j) > n ==> !Dense(c, Pow2(j))
  }

  lemma TooFew(c: set<int>, i: nat)
    requires |c| <= Pow2(i) / 2
    ensures forall j: nat :: j >= i ==> !Dense(c, Pow2(j))
  {
    forall j: nat | j >= i ensures !Dense(c, Pow2(j)) {
      UptoAll(c, Pow2(j));
      Pow2Monotone(i, j);
    }
  }

  lemma AllCounted(c: set<int>, n: nat, i: nat)
    requires Positive(c) && |Upto(c, Pow2(i))| == |c|
    ensures forall j: nat :: j > i ==> !Dense(c, Pow2(j))
  {
    forall j: nat | j > i ensures !Dense(c, Pow2(j)) {
      UptoAll(c, Pow2(j));
      UptoBound(c, Pow2(i));
      Pow2Monotone(i, j - 1);
    }
  }
}
