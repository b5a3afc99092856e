/** Wrappers for missing values and raised exceptions, and small sequence helpers shared by the whole model. */
module Common {

  /** A value that may be missing: Python's `None` sentinel or a failed lookup. */
  datatype Option<+T> = None | Some(value: T)

  /** The outcome of an operation that the source lets raise an exception. */
  datatype Result<+T, +E> = Success(value: T) | Failure(error: E)

  /** Regrouping a concatenation of three sequences. */
  lemma Associative<T>(a: seq<T>, b: seq<T>, c: seq<T>)
    ensures (a + b) + c == a + (b + c)
  {
  }

  /** The numbers `lo`, `lo + 1`, ..., `hi - 1`. */
  function Range(lo: nat, hi: nat): (r: seq<nat>)
    ensures |r| == if lo < hi then hi - lo else 0
    decreases hi - lo
  {
    if lo < hi then [lo] + Range(lo + 1, hi) else []
  }

  /**
   * The last section a run through sections `i` to `total` reaches when every
   * section but the last pauses for one line of `input`: the last section, or
   * the one whose pause finds no line left.
   */
  function Reached(total: nat, i: nat, input: seq<string>): nat {
    if i + |input| < total then i + |input| else total
  }
}
