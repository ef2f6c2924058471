/** Types and limits shared by the other modules. */
module Base {

  const INT_MAX: int := 0x7FFF_FFFF
  const INT_MIN: int := -0x8000_0000
  const MAX_INT: int := INT_MAX - 2     // llimits.h: a few values are kept away from the largest int
  const EOZ: int := -1                  // lzio.h: the end of a stream

  datatype Option<+T> = None | Some(value: T)

  /** What a C function that may raise an error gives back: the error is abstract. */
  datatype Result<+T> = Ok(value: T) | Err {
    predicate IsFailure() { Err? }

    function PropagateFailure<U>(): Result<U>
      requires Err?
    {
      Err
    }

    function Extract(): T
      requires Ok?
    {
      value
    }
  }

  ghost predicate NoDup<T>(s: seq<T>) {
    forall i, j :: 0 <= i < j < |s| ==> s[i] != s[j]
  }

  lemma NoDupConcat<T>(a: seq<T>, b: seq<T>)
    requires NoDup(a) && NoDup(b) && forall x :: x in a ==> x !in b
    ensures NoDup(a + b)
  {
    forall i, j | 0 <= i < j < |a + b| ensures (a + b)[i] != (a + b)[j] {
      if i < |a| <= j {
        assert (a + b)[i] in a && (a + b)[j] in b;
      }
    }
  }

  function Pow2(i: nat): (p: nat)
    ensures p >= 1
  {
    if i == 0 then 1 else 2 * Pow2(i - 1)
  }
}
