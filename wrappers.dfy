/** Optional values, used wherever the source answers "absent" with `None`, `-1` or `""`. */
module Wrappers {

  datatype Option<+T> = None | Some(value: T) {

    predicate IsFailure() {
      None?
    }

    function PropagateFailure<U>(): Option<U>
      requires None?
    {
      None
    }

    function Extract(): T
      requires Some?
    {
      value
    }
  }

  /** The elements of an optional value, as a sequence of length 0 or 1. */
  function AsSeq<T>(o: Option<T>): (s: seq<T>)
    ensures |s| <= 1
    ensures o.Some? <==> |s| == 1
    ensures o.Some? ==> s[0] == o.value
  {
    if o.Some? then [o.value] else []
  }

  /** A slice of a stretch of `data` that is known to equal `s`. */
  lemma SliceWithin<T>(data: seq<T>, pos: nat, s: seq<T>, a: nat, b: nat)
    requires pos + |s| <= |data| && data[pos..pos + |s|] == s
    requires a <= b <= |s|
    ensures data[pos + a..pos + b] == s[a..b]
  {
    forall k | 0 <= k < b - a
      ensures data[pos + a..pos + b][k] == s[a..b][k]
    {
      assert data[pos + a + k] == data[pos..pos + |s|][a + k];
    }
  }

  /** A stretch of `data` holding `a + b` holds `a`, then `b`. */
  lemma SplitConcat<T>(data: seq<T>, pos: nat, a: seq<T>, b: seq<T>)
    requires pos + |a| + |b| <= |data| && data[pos..pos + |a| + |b|] == a + b
    ensures data[pos..pos + |a|] == a
    ensures data[pos + |a|..pos + |a| + |b|] == b
  {
    SliceWithin(data, pos, a + b, 0, |a|);
    assert (a + b)[..|a|] == a;
    SliceWithin(data, pos, a + b, |a|, |a| + |b|);
    assert (a + b)[|a|..] == b;
  }

  function Min(a: int, b: int): (m: int)
    ensures m <= a && m <= b
    ensures m == a || m == b
  {
    if a <= b then a else b
  }
}
