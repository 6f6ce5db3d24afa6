/** Small shared vocabulary: optional values, results, integer helpers and
    subsequences. */
module Common {

  datatype Option<+T> = None | Some(value: T) {
    /** JavaScript's `x ?? d`: the value when present, the default otherwise. */
    function GetOr(default: T): T {
      match this
      case Some(v) => v
      case None => default
    }
  }

  datatype Result<+R, +E> = Ok(value: R) | Err(error: E)

  function Min(a: int, b: int): int { if a <= b then a else b }

  function Max(a: int, b: int): int { if a >= b then a else b }

  /** `idx` embeds `a` into `b`: strictly increasing positions of `b`
      at which the elements of `a` occur, in order. */
  ghost predicate EmbeddedBy<T>(idx: seq<nat>, a: seq<T>, b: seq<T>) {
    && |idx| == |a|
    && (forall i :: 0 <= i < |idx| ==> idx[i] < |b| && a[i] == b[idx[i]])
    && (forall i, j :: 0 <= i < j < |idx| ==> idx[i] < idx[j])
  }

  /** `a` is a subsequence of `b`: it keeps some of `b`'s elements in their order. */
  ghost predicate IsSubsequence<T>(a: seq<T>, b: seq<T>) {
    exists idx :: EmbeddedBy(idx, a, b)
  }

  lemma EmptySubsequence<T>(b: seq<T>)
    ensures IsSubsequence([], b)
  {
    assert EmbeddedBy([], [], b);
  }

  /** Appending an element to the larger sequence keeps a subsequence. */
  lemma SubsequenceSkip<T>(a: seq<T>, b: seq<T>, x: T)
    requires IsSubsequence(a, b)
    ensures IsSubsequence(a, b + [x])
  {
    var idx: seq<nat> :| EmbeddedBy(idx, a, b);
    assert EmbeddedBy(idx, a, b + [x]);
  }

  /** Appending the same element to both sides keeps a subsequence. */
  lemma SubsequenceKeep<T>(a: seq<T>, b: seq<T>, x: T)
    requires IsSubsequence(a, b)
    ensures IsSubsequence(a + [x], b + [x])
  {
    var idx: seq<nat> :| EmbeddedBy(idx, a, b);
    var idx': seq<nat> := idx + [|b|];
    assert EmbeddedBy(idx', a + [x], b + [x]);
  }
}
