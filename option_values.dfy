/**
  The values that the `smoothness` and `num_elements` options can hold, and
  the normalisation `_initialize` applies to them before sizing the mesh
  (smt/methods/rmtc.py, lines 52-55 and 64).

  Numbers are carried as exact reals: every Python `int` and every finite
  `float` is one, and nothing here does arithmetic on them other than the
  truncating conversion to `int`.
 */
module OptionValues {
  import opened Arith

  datatype OptionValue =
    | PyNumber(x: real)       // a Python `int` or `float` (what `isinstance(v, (int, float))` accepts)
    | NumpyScalar(x: real)    // a numpy integer scalar or a 0-d array: a number that the isinstance test rejects
    | Sequence(xs: seq<real>) // a list or a 1-d array

  /** `np.atleast_1d`: a scalar becomes a one-entry array, a 1-d array stays as it is. */
  function AtLeast1d(v: OptionValue): seq<real>
  {
    match v
    case PyNumber(x) => [x]
    case NumpyScalar(x) => [x]
    case Sequence(xs) => xs
  }

  /** What one pass of the option loop stores for an option. */
  function Broadcast(v: OptionValue, nx: nat): (r: seq<real>)
    ensures v.PyNumber? ==> |r| == nx && forall i :: 0 <= i < |r| ==> r[i] == v.x
    ensures v.NumpyScalar? ==> r == [v.x]
    ensures v.Sequence? ==> r == v.xs
  {
    // only a Python number passes `isinstance(v, (int, float))` and is replicated
    AtLeast1d(if v.PyNumber? then Sequence(Repeat(v.x, nx)) else v)
  }

  /** Normalising an already normalised option for the same `nx` changes nothing. */
  lemma BroadcastIdempotent(v: OptionValue, nx: nat)
    ensures Broadcast(Sequence(Broadcast(v, nx)), nx) == Broadcast(v, nx)
  {
  }

  /**
    A scalar option is broadcast only once: after the first normalisation it
    is an array, which the `isinstance` test no longer catches, so a second
    normalisation for a different number of inputs `nx2` keeps the first
    length `nx`.
   */
  lemma ReinitializeKeepsLength(x: real, nx: nat, nx2: nat)
    ensures Broadcast(Sequence(Broadcast(PyNumber(x), nx)), nx2) == Repeat(x, nx)
  {
  }

  /** Conversion of one number by `np.array(..., int)`: truncation toward zero. */
  function Trunc(x: real): (r: int)
    ensures x >= 0.0 ==> 0 <= r && r as real <= x < r as real + 1.0
    ensures x < 0.0 ==> r <= 0 && x <= r as real < x + 1.0
  {
    if x >= 0.0 then x.Floor else -((-x).Floor)
  }

  /** `np.array(xs, int)`: every entry truncated toward zero. */
  function ToInts(xs: seq<real>): (r: seq<int>)
    ensures |r| == |xs|
    ensures forall i :: 0 <= i < |xs| ==> r[i] == Trunc(xs[i])
  {
    seq(|xs|, i requires 0 <= i < |xs| => Trunc(xs[i]))
  }

  /** Truncation leaves whole numbers alone. */
  lemma TruncWhole(n: int)
    ensures Trunc(n as real) == n
  {
    if n < 0 {
      assert -(n as real) == (-n) as real;
    }
  }

  /** A whole-number `num_elements` given as a Python number gives `nx` copies of itself. */
  lemma {:induction false} ScalarElementCount(n: int, nx: nat)
    ensures ToInts(Broadcast(PyNumber(n as real), nx)) == Repeat(n, nx)
  {
    TruncWhole(n);
  }
}
