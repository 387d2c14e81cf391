/**
  Integer arithmetic over sequences that the RMTC size table is built from:
  numpy's `np.prod`, Python's `**`, list replication `[x] * n` and the
  element-wise `+ 1` of an integer array.
 */
module Arith {

  /**
    `np.prod(s)`: the product of the entries, 1 for the empty sequence; a
    product of positive entries is positive.
   */
  function Prod(s: seq<int>): (r: int)
    ensures AllPositive(s) ==> r >= 1
  {
    if s == [] then 1
    else
      var p := Prod(s[1..]);
      assert AllPositive(s) ==> AllPositive(s[1..]) && s[0] >= 1 by {
        assert forall i :: 1 <= i < |s| ==> s[1..][i - 1] == s[i];
      }
      if AllPositive(s) then MulMono(1, s[0], p); s[0] * p else s[0] * p
  }

  /** `b ** e` for a natural exponent; a power of a positive base is positive. */
  function Pow(b: int, e: nat): (r: int)
    ensures b >= 1 ==> r >= 1
  {
    if e == 0 then 1
    else
      var p := Pow(b, e - 1);
      if b >= 1 then MulMono(1, b, p); b * p else b * p
  }

  /** `[x] * n`: a list of length `n` whose every entry is `x`. */
  function Repeat<T>(x: T, n: nat): (r: seq<T>)
    ensures |r| == n
    ensures forall i :: 0 <= i < n ==> r[i] == x
  {
    seq(n, _ => x)
  }

  /** `s + 1` on an integer array: every entry incremented. */
  function PlusOne(s: seq<int>): (r: seq<int>)
    ensures |r| == |s|
    ensures forall i :: 0 <= i < |s| ==> r[i] == s[i] + 1
  {
    seq(|s|, i requires 0 <= i < |s| => s[i] + 1)
  }

  /** Every entry is a positive integer. */
  predicate AllPositive(s: seq<int>)
  {
    forall i :: 0 <= i < |s| ==> s[i] >= 1
  }

  /** The product of `n` copies of `c` is `c ** n`. */
  lemma {:induction false} ProdRepeat(c: int, n: nat)
    ensures Prod(Repeat(c, n)) == Pow(c, n)
  {
    if n > 0 {
      assert Repeat(c, n)[1..] == Repeat(c, n - 1);
      ProdRepeat(c, n - 1);
    }
  }

  /** `4 ** n` is the square of `2 ** n`. */
  lemma {:induction false} Pow4IsSquare(n: nat)
    ensures Pow(4, n) == Pow(2, n) * Pow(2, n)
  {
    if n > 0 {
      Pow4IsSquare(n - 1);
      var w := Pow(2, n - 1);
      assert Pow(2, n) == 2 * w;
      assert Pow(4, n) == 4 * (w * w);
      assert (2 * w) * (2 * w) == 4 * (w * w);
    }
  }

  /** Multiplying by a non-negative factor keeps an inequality. */
  lemma MulMono(a: int, b: int, c: int)
    requires a <= b && c >= 0
    ensures a * c <= b * c
  {
  }

  /**
    For positive entries, incrementing every entry does not shrink the
    product, and at most doubles it per entry because `e + 1 <= 2 * e`
    for `e >= 1`.
   */
  lemma {:induction false} ProdPlusOneBounds(s: seq<int>)
    requires AllPositive(s)
    ensures Prod(s) <= Prod(PlusOne(s)) <= Pow(2, |s|) * Prod(s)
  {
    if s != [] {
      var rest := s[1..];
      assert PlusOne(s)[1..] == PlusOne(rest);
      ProdPlusOneBounds(rest);
      assert AllPositive(rest) by {
        assert forall i :: 1 <= i < |s| ==> rest[i - 1] == s[i];
      }
      var p, q, w := Prod(rest), Prod(PlusOne(rest)), Pow(2, |rest|);
      var e := s[0];
      assert Prod(s) == e * p;
      assert Prod(PlusOne(s)) == (e + 1) * q;
      assert Pow(2, |s|) == 2 * w;
      PlusOneStep(e, p, q, w);
    }
  }

  /** The arithmetic step of `ProdPlusOneBounds`, on abstract counts. */
  lemma PlusOneStep(e: int, p: int, q: int, w: int)
    requires e >= 1 && 1 <= p <= q <= w * p
    ensures e * p <= (e + 1) * q <= (2 * w) * (e * p)
  {
    MulMono(p, q, e);
    MulMono(e, e + 1, q);
    MulMono(e + 1, 2 * e, q);
    MulMono(q, w * p, 2 * e);
    assert (2 * e) * (w * p) == (2 * w) * (e * p);
  }

  /** For positive entries, the incremented product is at least `2 ** |s|`. */
  lemma {:induction false} ProdPlusOneAtLeastPow(s: seq<int>)
    requires AllPositive(s)
    ensures Pow(2, |s|) <= Prod(PlusOne(s))
  {
    if s != [] {
      var rest := s[1..];
      assert PlusOne(s)[1..] == PlusOne(rest);
      ProdPlusOneAtLeastPow(rest);
      MulMono(2, s[0] + 1, Prod(PlusOne(rest)));
      MulMono(Pow(2, |rest|), Prod(PlusOne(rest)), 2);
    }
  }
}
