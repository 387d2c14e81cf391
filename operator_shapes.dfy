/**
  Shapes and allotted non-zero counts of the sparse operators an RMTC model
  assembles (smt/methods/rmtc.py, lines 83-122): the raw Jacobian of the
  basis evaluator, the node sharing map `uniq2elem`, the block-diagonal
  `nodal2coeff`, and their product `dof2coeff`. Only the sizes are modelled;
  the entries come from the compiled RMTClib library.
 */
module OperatorShapes {
  import opened Wrappers
  import opened Arith
  import opened SizeTable

  /** Row and column counts of a matrix. */
  datatype Dims = Dims(rows: int, cols: int)

  /** A sparse matrix's dimensions and the number of entries allotted to it. */
  datatype SparseShape = SparseShape(dims: Dims, nnz: int)

  /**
    Shape of a sparse product `a * b`: defined only when the inner dimensions
    agree (scipy rejects the product otherwise).
   */
  function MulDims(a: Dims, b: Dims): Option<Dims>
  {
    if a.cols == b.rows then Some(Dims(a.rows, b.cols)) else None
  }

  /**
    The raw Jacobian of `n` query points (lines 83-87): allotted `n * term`
    entries, i.e. exactly `support` per point. Its dimensions, one row per
    point and one column per coefficient, are assumed of the compiled
    `compute_jac`, which builds the matrix.
   */
  function JacRawShape(num: Sizes, n: nat): (r: SparseShape)
    requires Consistent(num)
    ensures r.nnz == n * num.support
    ensures r.dims == Dims(n, num.coeff)
  {
    SparseShape(Dims(n, num.term * num.elem), n * num.term)
  }

  /** `full_uniq2elem` (lines 104-109); its allotment equals its row count. */
  function Uniq2ElemShape(num: Sizes): (r: SparseShape)
    ensures r.nnz == r.dims.rows
  {
    SparseShape(Dims(num.term * num.elem, num.uniq * Pow(2, num.x)), num.elem * num.term)
  }

  /** `full_nodal2coeff` (lines 113-118): square, with `term` entries allotted per row. */
  function Nodal2CoeffShape(num: Sizes): (r: SparseShape)
    ensures r.dims.rows == r.dims.cols
    ensures r.nnz == r.dims.rows * num.term
  {
    var nnz := Pow(num.term, 2) * num.elem;
    assert Pow(num.term, 2) == num.term * Pow(num.term, 1) == num.term * (num.term * Pow(num.term, 0));
    assert nnz == num.term * num.elem * num.term;
    SparseShape(Dims(num.term * num.elem, num.term * num.elem), nnz)
  }

  /**
    `full_dof2coeff = full_nodal2coeff * full_uniq2elem` (line 120): the
    product is always defined, whatever the table holds, because both
    factors are sized by `term * elem` on the shared side.
   */
  function Dof2CoeffDims(num: Sizes): (r: Option<Dims>)
    ensures r == Some(Dims(num.term * num.elem, num.uniq * Pow(2, num.x)))
  {
    MulDims(Nodal2CoeffShape(num).dims, Uniq2ElemShape(num).dims)
  }

  /** `uniq2elem` maps `dof` degrees of freedom to `coeff` local slots, one entry per slot. */
  lemma Uniq2ElemIsCoeffByDof(num: Sizes)
    requires Consistent(num)
    ensures Uniq2ElemShape(num).dims == Dims(num.coeff, num.dof)
    ensures Uniq2ElemShape(num).nnz == num.coeff
  {
  }

  /**
    On a well-formed grid the entries of `uniq2elem` average between 1 and
    `2 ** nx` per column, as a dof shared by between 1 and `2 ** nx`
    elements requires.
   */
  lemma Uniq2ElemSharing(num: Sizes)
    requires Consistent(num) && WellFormed(num.x, num.elemList)
    ensures var s := Uniq2ElemShape(num);
      s.dims.cols <= s.nnz <= s.dims.cols * Pow(2, num.x)
  {
    SlotsPerDof(num.x, num.y, num.elemList, num.t);
  }

  /** `nodal2coeff` is `coeff x coeff` with one dense `term x term` block per element. */
  lemma Nodal2CoeffBlocks(num: Sizes)
    requires Consistent(num)
    ensures Nodal2CoeffShape(num).dims == Dims(num.coeff, num.coeff)
    ensures Nodal2CoeffShape(num).nnz == num.elem * (num.term * num.term)
    ensures Nodal2CoeffShape(num).nnz == Pow(4, 2 * num.x) * num.elem
  {
    PowAdd(4, num.x, num.x);
  }

  /** Exponents add under multiplication. */
  lemma {:induction false} PowAdd(b: int, m: nat, n: nat)
    ensures Pow(b, m + n) == Pow(b, m) * Pow(b, n)
  {
    if m > 0 {
      PowAdd(b, m - 1, n);
    }
  }

  /**
    On a well-formed grid `nodal2coeff` is a single dense block, allotted as
    many entries as it has cells, exactly when the grid is one element.
   */
  lemma Nodal2CoeffDenseIffOneElement(num: Sizes)
    requires Consistent(num) && WellFormed(num.x, num.elemList)
    ensures var s := Nodal2CoeffShape(num);
      s.nnz == s.dims.rows * s.dims.cols <==> num.elem == 1
  {
    GridCounts(num.x, num.y, num.elemList, num.t);
    BlockDensity(num.term, num.elem);
  }

  /**
    The arithmetic step of `Nodal2CoeffDenseIffOneElement`: `e` blocks of
    `t x t` fill a `(t e) x (t e)` square exactly when `e == 1`.
   */
  lemma BlockDensity(t: int, e: int)
    requires t >= 1 && e >= 1
    ensures (t * t) * e == (t * e) * (t * e) <==> e == 1
  {
    var k := (t * t) * e;
    MulMono(1, t, t);
    MulMono(1, t * t, e);
    assert (t * e) * (t * e) == k * e;
    if e != 1 {
      MulMono(2, e, k);
    }
  }

  /** The assembled `dof2coeff` maps the `dof` degrees of freedom to the `coeff` coefficients. */
  lemma Dof2CoeffIsCoeffByDof(num: Sizes)
    requires Consistent(num)
    ensures Dof2CoeffDims(num) == Some(Dims(num.coeff, num.dof))
  {
  }

  /**
    The Jacobian of `n` points can be applied to the output of `dof2coeff`,
    giving an `n x dof` operator from degrees of freedom to point values.
   */
  lemma JacComposesWithDof2Coeff(num: Sizes, n: nat)
    requires Consistent(num)
    ensures MulDims(JacRawShape(num, n).dims, Dof2CoeffDims(num).value) == Some(Dims(n, num.dof))
  {
  }

  /** Two inputs on a single element: 4 nodes, 16 terms, and a `16 x 16` `dof2coeff`. */
  lemma SingleSquareElement(ny: nat, t: nat)
    ensures var num := ComputeSizes(2, ny, [1, 1], t);
      num.uniq == 4 && num.term == 16 && num.elem == 1 &&
      Dof2CoeffDims(num) == Some(Dims(16, 16)) &&
      Nodal2CoeffShape(num).nnz == 256
  {
    var num := ComputeSizes(2, ny, [1, 1], t);
    assert [1, 1][1..] == [1] && [1][1..] == [];
    assert PlusOne([1, 1]) == [2, 2] && [2, 2][1..] == [2] && [2][1..] == [];
    assert num.elem == Prod([1, 1]) == 1 * Prod([1]) == 1 * (1 * Prod([]));
    assert num.uniq == Prod([2, 2]) == 2 * Prod([2]) == 2 * (2 * Prod([]));
  }

  /** One input on two elements: `dof2coeff` is `8 x 6`, the middle node being shared. */
  lemma TwoIntervals(ny: nat, t: nat)
    ensures var num := ComputeSizes(1, ny, [2], t);
      Dof2CoeffDims(num) == Some(Dims(8, 6)) && Uniq2ElemShape(num).nnz == 8
  {
    OneDimension(2, ny, t);
  }
}
