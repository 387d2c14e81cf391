# RMTC size bookkeeping

A Dafny model of the size bookkeeping in the RMTC surrogate
(Regularized Minimal-energy Tensor-product Cubic Hermite spline) of the SMT
toolbox, file `smt/methods/rmtc.py`. An RMTC model splits an `nx`-dimensional
box into a grid of elements, `elem_list[i]` of them along axis `i`. Each
element carries a tensor-product cubic with `4 ** nx` terms. The nodes of
the grid share `2 ** nx` degrees of freedom each. The model covers three
things:

- `_initialize`: it broadcasts the `smoothness` and `num_elements` options
  to one value per input, counts the training points, and fills the `num`
  table (`elem`, `term`, `uniq`, `t`, `coeff`, `support`, `dof`, and the
  per-axis lists).
- `_compute_jac_raw` and `_compute_dof2coeff`: the number of entries they
  allot to the raw Jacobian, to the node sharing map `uniq2elem` and to the
  block-diagonal `nodal2coeff`, and the shapes of those matrices.
- The product `dof2coeff = nodal2coeff * uniq2elem`, with lemmas showing it
  is always well-shaped and comes out `coeff x dof`.

Modules:

- `Arith` (`arith.dfy`): `np.prod`, `**`, `[x] * n`, and `+ 1` on an array.
- `OptionValues` (`option_values.dfy`): option values and how they are normalised.
- `SizeTable` (`size_table.dfy`): the training-point dictionary, the `t`
  loop, the `num` table and its arithmetic facts.
- `OperatorShapes` (`operator_shapes.dfy`): the operator shapes and non-zero allotments.
- `Surrogate` (`rmtc.dfy`): the model object. Its `Initialize` method
  rewrites the option dictionary in place and stores `num`.
- `Wrappers` (`wrappers.dfy`): `Option`.

`_initialize` checks nothing about `num_elements`. Its list may have any
length and any entries, and the counts are still computed. So
`ComputeSizes` has no precondition. The grid conditions (`|elem_list| == nx`,
every entry at least 1) are a stated hypothesis (`WellFormed`) of the
lemmas that need them. Nothing in `rmtc.py` rejects invalid element
counts, and the model follows the code.

The Jacobian's entries are allotted in `rmtc.py`, but its matrix is built by
the compiled `compute_jac`. The model assumes its dimensions: one row per
point and one column per coefficient.

Two consequences of the broadcasting code are stated as lemmas:

- A scalar option is broadcast only once. After `_initialize` it holds an
  array, so a second `_initialize` with a different number of inputs keeps
  the first length (`ReinitializeKeepsLength`).
- A numpy integer `num_elements` passes the option's `Integral` type but not
  the `isinstance(v, (int, float))` test. It gives a one-entry element list
  for any number of inputs (`NumpyScalarElementCount`).

Inputs that come from outside the file are parameters of the model:

- the training-point dictionary `training_points[None]`, modelled only as
  the shape of each set;
- the option dictionary.

## Model

| member | source | states |
|---|---|---|
| `Arith.Prod` | smt/methods/rmtc.py:65 | `np.prod`; a product of positive entries is positive |
| `Arith.Pow` | smt/methods/rmtc.py:79 | `**`; a power of a positive base is positive |
| `Arith.Repeat` | smt/methods/rmtc.py:54 | `[x] * n` has length `n` and every entry is `x` |
| `Arith.PlusOne` | smt/methods/rmtc.py:70 | `elem_list + 1` keeps the length and increments every entry |
| `Arith.ProdRepeat` | smt/methods/rmtc.py:67-68 | the product of `n` copies of `c` is `c ** n`, so `term == 4 ** nx` |
| `OptionValues.Broadcast` | smt/methods/rmtc.py:52-55 | a Python number becomes `nx` copies of itself; a numpy scalar gives one entry; a list is left as it is |
| `OptionValues.BroadcastIdempotent` | smt/methods/rmtc.py:52-55 | normalising an already normalised option leaves it unchanged |
| `OptionValues.ReinitializeKeepsLength` | smt/methods/rmtc.py:52-55 | a Python number broadcast for `nx` inputs keeps length `nx` when normalised again for any other count |
| `OptionValues.Trunc` | smt/methods/rmtc.py:64 | conversion to `int` truncates toward zero: the result has the number's sign and lies within 1 of it, on the side of zero |
| `OptionValues.ToInts` | smt/methods/rmtc.py:64 | `np.array(xs, int)` keeps the length and truncates every entry |
| `OptionValues.ScalarElementCount` | smt/methods/rmtc.py:52-64 | a whole-number `num_elements` given as a Python number gives `elem_list == [n] * nx` |
| `SizeTable.Find` | smt/methods/rmtc.py:50 | dictionary lookup finds a set exactly when some entry has that key, and returns that entry's set |
| `SizeTable.FindUnique` | smt/methods/rmtc.py:50 | with distinct keys, as in a dictionary, the lookup returns the set stored under the key |
| `SizeTable.TotalRows` | smt/methods/rmtc.py:73-75 | the total that the `t` loop computes; it is zero exactly when every set is empty |
| `SizeTable.CountTrainingPoints` | smt/methods/rmtc.py:73-75 | the loop leaves `t` equal to the total row count of all training sets |
| `SizeTable.TotalRowsAppend` | smt/methods/rmtc.py:73-75 | the total over concatenated dictionaries is the sum of their totals |
| `SizeTable.TotalRowsSwap` | smt/methods/rmtc.py:74-75 | the total does not depend on the dictionary's insertion order |
| `SizeTable.TotalRowsCounts` | smt/methods/rmtc.py:73-75 | every set's row count is included in `t` |
| `SizeTable.ComputeSizes` | smt/methods/rmtc.py:59-79 | `elem == prod(elem_list)`, `term_list` is `nx` fours, `uniq == prod(uniq_list)`, `term == 4 ** nx`, `support == term`, `uniq_list[i] == elem_list[i] + 1`, `coeff == 4 ** nx * prod(elem_list)`, `dof == prod(elem_list + 1) * 2 ** nx` |
| `SizeTable.GridCounts` | smt/methods/rmtc.py:63-79 | on a well-formed grid all counts are positive, `elem <= uniq` and `uniq >= 2 ** nx` |
| `SizeTable.SlotsPerDof` | smt/methods/rmtc.py:77-79 | on a well-formed grid `dof <= coeff <= dof * 2 ** nx` |
| `SizeTable.NumpyScalarElementCount` | smt/methods/rmtc.py:43-64 | a numpy integer `num_elements` gives a one-entry element list, which is not a well-formed grid unless `nx == 1` |
| `SizeTable.DefaultGrid` | smt/methods/rmtc.py:43-71 | with the default `num_elements` of 4, `elem == 4 ** nx` and `uniq == 5 ** nx` |
| `SizeTable.OneDimension` | smt/methods/rmtc.py:63-79 | with `nx == 1` and `e` elements: `uniq == e + 1`, `term == 4`, `coeff == 4 e`, `dof == 2 (e + 1)` |
| `OperatorShapes.JacRawShape` | smt/methods/rmtc.py:83-87 | the raw Jacobian of `n` points is allotted `n * support` entries, exactly `support` per point, and is `n x coeff` (dimensions assumed, see Left out) |
| `OperatorShapes.Uniq2ElemShape` | smt/methods/rmtc.py:104-109 | `uniq2elem` is allotted exactly as many entries as it has rows |
| `OperatorShapes.Nodal2CoeffShape` | smt/methods/rmtc.py:113-118 | `nodal2coeff` is square with `term` entries allotted per row |
| `OperatorShapes.Dof2CoeffDims` | smt/methods/rmtc.py:120 | the product `nodal2coeff * uniq2elem` is defined for every table and is `(term*elem) x (uniq*2**nx)` |
| `OperatorShapes.Uniq2ElemIsCoeffByDof` | smt/methods/rmtc.py:104-109 | `uniq2elem` is `coeff x dof` with `coeff` entries, one per row |
| `OperatorShapes.Uniq2ElemSharing` | smt/methods/rmtc.py:104-109 | on a well-formed grid `uniq2elem` has between 1 and `2 ** nx` entries per column on average |
| `OperatorShapes.Nodal2CoeffBlocks` | smt/methods/rmtc.py:113-118 | `nodal2coeff` is `coeff x coeff` with `elem` blocks of `term x term` entries, i.e. `4 ** (2 nx) * elem` |
| `OperatorShapes.Nodal2CoeffDenseIffOneElement` | smt/methods/rmtc.py:113-118 | on a well-formed grid `nodal2coeff` is fully dense exactly when there is one element |
| `OperatorShapes.Dof2CoeffIsCoeffByDof` | smt/methods/rmtc.py:120-122 | `dof2coeff` is `coeff x dof` |
| `OperatorShapes.JacComposesWithDof2Coeff` | smt/methods/rmtc.py:83-122 | the Jacobian of `n` points times `dof2coeff` is defined and is `n x dof` |
| `OperatorShapes.SingleSquareElement` | smt/methods/rmtc.py:59-122 | `nx == 2`, `elem_list == [1, 1]`: 4 nodes, 16 terms, one element, a `16 x 16` `dof2coeff`, 256 block entries |
| `OperatorShapes.TwoIntervals` | smt/methods/rmtc.py:59-122 | `nx == 1`, `elem_list == [2]`: `dof2coeff` is `8 x 6` and `uniq2elem` has 8 entries |
| `Surrogate.Rmtc.Initialize` | smt/methods/rmtc.py:48-81 | fails without changing anything when key 0 is missing. Otherwise it broadcasts exactly `smoothness` and `num_elements`, leaves the other options unchanged, and stores `ComputeSizes` of the converted `num_elements` and the training-point total |

## Left out

- The compiled RMTClib calls `compute_jac`, `compute_coeff2nodal`,
  `compute_uniq2elem` and `compute_full_from_block`. Their source is not part
  of this model, so mesh indexing, corner ordering and basis values are not
  modelled. The model keeps only the sizes these calls are handed.
- `np.linalg.inv` of the local basis matrix: dense floating-point inversion
  in a foreign library.
- The values of the `scipy.sparse.csc_matrix` operators and of their
  product. Only dimensions and allotted entry counts are modelled.
- Column-wise sharing counts (1 to `2 ** nx` entries per column of
  `uniq2elem`): these depend on `compute_uniq2elem`. `Uniq2ElemSharing`
  states only the average bound that the sizes imply.
- Option declaration (`_declare_options`), the printer depth setting and the
  parent `RMTS` class: configuration plumbing. The option dictionary is
  modelled as a plain map, without the type checks the options object does
  on assignment.
- Training-data values: only the row and column counts of each set are kept.
  A missing `None` output key is not modelled. The training-point dictionary
  is given per output name by the parent class.
- Nested (2-d or deeper) option arrays, and `bool` options: `np.atleast_1d`
  is modelled for scalars and 1-d sequences only.
- `SizeTable.ComputeSizes`: does not model numpy's 64-bit wrap-around in
  `np.prod`. The counts are exact integers, which agree with the source only
  while every product stays below `2 ** 63`.
- `OperatorShapes.JacRawShape`, `OperatorShapes.Uniq2ElemShape`,
  `OperatorShapes.Nodal2CoeffShape`: the allotments `n * term`,
  `elem * term` and `term ** 2 * elem` are 64-bit integers in the source too.
  The model does not wrap them. `term ** 2 * elem` already reaches `2 ** 64`
  at `nx = 16`.
- `OperatorShapes.JacRawShape`: the dimensions `rows == n` and
  `cols == coeff` are assumed of the matrix `compute_jac` returns. `rmtc.py`
  fixes only `n` and the allotment.
- Non-finite option values (`inf`, `nan`) are not modelled: option numbers
  are exact reals.
- Duplicate keys in the training-point dictionary are not excluded by the
  type. A Python dictionary cannot have them. `FindUnique`
  assumes distinct keys; the other members do not need them.
