/**
  The `num` table of an RMTC model (smt/methods/rmtc.py, lines 59-81): the
  counts of inputs, outputs, elements, per-element terms, mesh nodes,
  training points, coefficients and degrees of freedom, all derived from the
  input dimension `nx` and the per-axis element counts `elem_list`.
 */
module SizeTable {
  import opened Wrappers
  import opened Arith
  import opened OptionValues

  /** The shape of one training-point set: `xt` is `rows x xCols`, `yt` is `rows x yCols`. */
  datatype PointSet = PointSet(rows: nat, xCols: nat, yCols: nat)

  /**
    One entry `kx -> (xt, yt)` of the training-point dictionary of the
    unnamed output set. The dictionary is a sequence of entries in insertion
    order; a Python dictionary has distinct keys, which `UniqueKeys` states
    and `FindUnique` assumes.
   */
  datatype Entry = Entry(kx: int, points: PointSet)

  /** No key occurs twice, as in a Python dictionary. */
  predicate UniqueKeys(entries: seq<Entry>)
  {
    forall i, j :: 0 <= i < j < |entries| ==> entries[i].kx != entries[j].kx
  }

  /** Dictionary lookup: the set stored under `key`, if any. */
  function Find(entries: seq<Entry>, key: int): (r: Option<PointSet>)
    ensures r.Some? <==> exists i :: 0 <= i < |entries| && entries[i].kx == key
    ensures r.Some? ==> exists i :: 0 <= i < |entries| && entries[i].kx == key && entries[i].points == r.value
  {
    if entries == [] then None
    else if entries[0].kx == key then Some(entries[0].points)
    else
      var r := Find(entries[1..], key);
      assert forall i :: 1 <= i < |entries| ==> entries[i] == entries[1..][i - 1];
      r
  }

  /** With distinct keys, the lookup returns the one set stored under the key. */
  lemma {:induction false} FindUnique(entries: seq<Entry>, i: nat)
    requires UniqueKeys(entries) && i < |entries|
    ensures Find(entries, entries[i].kx) == Some(entries[i].points)
  {
    if i > 0 {
      var rest := entries[1..];
      assert UniqueKeys(rest) by {
        assert forall k :: 0 <= k < |rest| ==> rest[k] == entries[k + 1];
      }
      assert rest[i - 1] == entries[i];
      assert entries[0].kx != entries[i].kx;
      FindUnique(rest, i - 1);
    }
  }

  /**
    The number of training points over all sets, taken in dictionary order;
    it is zero exactly when every set is empty.
   */
  function TotalRows(entries: seq<Entry>): (r: nat)
    ensures r == 0 <==> forall i :: 0 <= i < |entries| ==> entries[i].points.rows == 0
  {
    if entries == [] then 0
    else
      var front := entries[..|entries| - 1];
      assert forall i :: 0 <= i < |front| ==> front[i] == entries[i];
      TotalRows(front) + entries[|entries| - 1].points.rows
  }

  /** Splitting the dictionary anywhere splits the total. */
  lemma {:induction false} TotalRowsAppend(a: seq<Entry>, b: seq<Entry>)
    ensures TotalRows(a + b) == TotalRows(a) + TotalRows(b)
  {
    if b != [] {
      assert (a + b)[..|a + b| - 1] == a + b[..|b| - 1];
      TotalRowsAppend(a, b[..|b| - 1]);
    } else {
      assert a + b == a;
    }
  }

  /** The total does not depend on the order in which two sets were inserted. */
  lemma TotalRowsSwap(a: seq<Entry>, x: Entry, y: Entry, b: seq<Entry>)
    ensures TotalRows(a + [x, y] + b) == TotalRows(a + [y, x] + b)
  {
    TotalRowsAppend(a + [x, y], b);
    TotalRowsAppend(a + [y, x], b);
    TotalRowsAppend(a, [x, y]);
    TotalRowsAppend(a, [y, x]);
    assert [x, y][..1] == [x];
    assert [y, x][..1] == [y];
  }

  /** Every set's points are among the total. */
  lemma TotalRowsCounts(entries: seq<Entry>, i: nat)
    requires i < |entries|
    ensures entries[i].points.rows <= TotalRows(entries)
  {
    TotalRowsAppend(entries[..i + 1], entries[i + 1..]);
    assert entries[..i + 1] + entries[i + 1..] == entries;
    assert entries[..i + 1][..i] == entries[..i];
  }

  /** The loop `num['t'] += xt.shape[0]` over the training-point sets (lines 73-75). */
  method CountTrainingPoints(entries: seq<Entry>) returns (t: nat)
    ensures t == TotalRows(entries)
  {
    t := 0;
    var i := 0;
    while i < |entries|
      invariant 0 <= i <= |entries|
      invariant t == TotalRows(entries[..i])
    {
      assert entries[..i + 1][..i] == entries[..i];
      t := t + entries[i].points.rows;
      i := i + 1;
    }
    assert entries[..i] == entries;
  }

  /** The `num` dictionary; the field names are its keys. */
  datatype Sizes = Sizes(
    x: nat,                 // inputs
    y: nat,                 // outputs
    elemList: seq<int>,     // elements per axis
    elem: int,              // elements
    termList: seq<int>,     // terms per axis
    term: int,              // terms (coefficients) per element
    uniqList: seq<int>,     // nodes per axis
    uniq: int,              // nodes
    t: nat,                 // training points
    coeff: int,             // coefficients over all elements
    support: int,           // coefficients that affect one point
    dof: int                // degrees of freedom
  )

  /**
    Lines 59-79. Nothing is checked: `elem_list` may have any length and any
    entries, and the counts are computed all the same.
   */
  function ComputeSizes(nx: nat, ny: nat, elemList: seq<int>, t: nat): (r: Sizes)
    ensures r.x == nx && r.y == ny && r.elemList == elemList && r.t == t
    ensures r.elem == Prod(elemList)
    ensures |r.termList| == nx && forall i :: 0 <= i < nx ==> r.termList[i] == 4
    ensures r.term == Pow(4, nx) && r.support == r.term
    ensures r.uniq == Prod(r.uniqList) && |r.uniqList| == |elemList|
    ensures forall i :: 0 <= i < |elemList| ==> r.uniqList[i] == elemList[i] + 1
    ensures r.coeff == Pow(4, nx) * Prod(elemList)
    ensures r.dof == Prod(PlusOne(elemList)) * Pow(2, nx)
  {
    var elem := Prod(elemList);
    var termList := Repeat(4, nx);
    var term := Prod(termList);
    var uniqList := PlusOne(elemList);
    var uniq := Prod(uniqList);
    ProdRepeat(4, nx);
    Sizes(nx, ny, elemList, elem, termList, term, uniqList, uniq, t,
          term * elem, term, uniq * Pow(2, nx))
  }

  /** A table that `ComputeSizes` produced. */
  predicate Consistent(num: Sizes)
  {
    num == ComputeSizes(num.x, num.y, num.elemList, num.t)
  }

  /** A grid the rest of the model can be built on: one positive element count per input. */
  predicate WellFormed(nx: nat, elemList: seq<int>)
  {
    |elemList| == nx && AllPositive(elemList)
  }

  /**
    On a well-formed grid every count is positive, there are at least `2 ** nx`
    nodes, and there are at least as many nodes as elements.
   */
  lemma GridCounts(nx: nat, ny: nat, elemList: seq<int>, t: nat)
    requires WellFormed(nx, elemList)
    ensures var r := ComputeSizes(nx, ny, elemList, t);
      1 <= r.elem <= r.uniq && Pow(2, nx) <= r.uniq && r.term >= 1 &&
      r.coeff >= 1 && r.dof >= 1
  {
    var r := ComputeSizes(nx, ny, elemList, t);
    ProdPlusOneBounds(elemList);
    ProdPlusOneAtLeastPow(elemList);
    MulMono(1, r.term, r.elem);
    MulMono(1, r.uniq, Pow(2, nx));
  }

  /**
    The total number of local nodal slots, `coeff`, lies between `dof` and
    `dof * 2 ** nx`: a node is shared by at least one and at most `2 ** nx`
    elements, so each degree of freedom fills between 1 and `2 ** nx` slots.
   */
  lemma {:induction false} SlotsPerDof(nx: nat, ny: nat, elemList: seq<int>, t: nat)
    requires WellFormed(nx, elemList)
    ensures var r := ComputeSizes(nx, ny, elemList, t);
      r.dof <= r.coeff <= r.dof * Pow(2, nx)
  {
    var e, u, w := Prod(elemList), Prod(PlusOne(elemList)), Pow(2, nx);
    ProdPlusOneBounds(elemList);
    Pow4IsSquare(nx);
    SlotBounds(e, u, w);
  }

  /** The arithmetic step of `SlotsPerDof`, on abstract counts. */
  lemma SlotBounds(e: int, u: int, w: int)
    requires e <= u <= w * e && w >= 1
    ensures u * w <= (w * w) * e <= (u * w) * w
  {
    MulMono(u, w * e, w);
    MulMono(e, u, w * w);
    assert (w * e) * w == (w * w) * e;
    assert u * (w * w) == (u * w) * w;
  }

  /**
    A numpy integer `num_elements` (which the option's `Integral` type admits)
    is not broadcast: it yields a one-entry element list whatever the number
    of inputs, so for `nx != 1` the grid is not well-formed.
   */
  lemma NumpyScalarElementCount(x: real, nx: nat)
    ensures ToInts(Broadcast(NumpyScalar(x), nx)) == [Trunc(x)]
    ensures nx != 1 ==> !WellFormed(nx, ToInts(Broadcast(NumpyScalar(x), nx)))
  {
  }

  /** With the default `num_elements` of 4, there are `4 ** nx` elements and `5 ** nx` nodes. */
  lemma DefaultGrid(nx: nat, ny: nat, t: nat)
    ensures var r := ComputeSizes(nx, ny, Repeat(4, nx), t);
      r.elem == Pow(4, nx) && r.uniq == Pow(5, nx)
  {
    ProdRepeat(4, nx);
    assert PlusOne(Repeat(4, nx)) == Repeat(5, nx);
    ProdRepeat(5, nx);
  }

  /** In one dimension with `e` elements: `4 e` coefficients and `2 (e + 1)` degrees of freedom. */
  lemma OneDimension(e: int, ny: nat, t: nat)
    ensures var r := ComputeSizes(1, ny, [e], t);
      r.elem == e && r.uniq == e + 1 && r.term == 4 && r.coeff == 4 * e && r.dof == 2 * (e + 1)
  {
    var r := ComputeSizes(1, ny, [e], t);
    assert [e][1..] == [] && PlusOne([e]) == [e + 1] && [e + 1][1..] == [];
    assert r.elem == Prod([e]) == e * Prod([]);
    assert r.uniq == Prod([e + 1]) == (e + 1) * Prod([]);
  }
}
