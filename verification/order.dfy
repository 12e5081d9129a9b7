/** The nematic order parameters: the global `mean(cos 2 theta)` of
    `cyano_sim.py` and `umwelt.py`, and the blockwise order of `sim_2.py`,
    which bins the heads into square cells and averages the length of the
    mean `(cos 2 theta, sin 2 theta)` vector over every cell holding more
    than one head. */
module Order {
  import opened Numerics
  import opened Vectors
  import opened Collections
  import opened Filaments

  /** `sum_k cos(2 theta_k)`. */
  function CosSum(m: Maths, pop: seq<Filament>): (s: real)
    requires m.Valid()
    ensures -(|pop| as real) <= s <= |pop| as real
  {
    if |pop| == 0 then 0.0
    else
      UnitBounds(m, 2.0 * pop[|pop| - 1].theta);
      CosSum(m, pop[..|pop| - 1]) + m.cos(2.0 * pop[|pop| - 1].theta)
  }

  /** `compute_global_nematic_order`: `np.mean(np.cos(2 * thetas))`, which is
      `nan` for an empty population (`None` here) and otherwise lies in
      `[-1, 1]`. */
  function GlobalOrder(m: Maths, pop: seq<Filament>): (r: Option<real>)
    requires m.Valid()
    ensures r.None? <==> |pop| == 0
    ensures r.Some? ==> -1.0 <= r.value <= 1.0
  {
    if |pop| == 0 then None
    else
      var n := |pop| as real;
      MeanBound(CosSum(m, pop), n);
      Some(CosSum(m, pop) / n)
  }

  /** A population whose members all share one heading has global order
      `cos(2 theta)`: 1 when aligned with the x axis, -1 when across it. */
  lemma GlobalOrderUniform(m: Maths, pop: seq<Filament>, theta: real)
    requires m.Valid()
    requires 0 < |pop|
    requires forall i :: 0 <= i < |pop| ==> pop[i].theta == theta
    ensures GlobalOrder(m, pop) == Some(m.cos(2.0 * theta))
  {
    CosSumUniform(m, pop, theta);
    var n := |pop| as real;
    var c := m.cos(2.0 * theta);
    assert CosSum(m, pop) == n * c;
    MeanOfEqual(n, c);
  }

  lemma {:induction false} CosSumUniform(m: Maths, pop: seq<Filament>, theta: real)
    requires m.Valid()
    requires forall i :: 0 <= i < |pop| ==> pop[i].theta == theta
    ensures CosSum(m, pop) == |pop| as real * m.cos(2.0 * theta)
  {
    if |pop| > 0 {
      var k := |pop| - 1;
      var c := m.cos(2.0 * theta);
      CosSumUniform(m, pop[..k], theta);
      assert CosSum(m, pop) == CosSum(m, pop[..k]) + c;
      SuccTimes(k as real, c);
    }
  }

  /** The half-open cell `[i l, (i + 1) l) x [j l, (j + 1) l)`. */
  predicate InCell(p: Vec, i: int, j: int, l: real) {
    && Multiple(i, l) <= p.x < Multiple(i + 1, l)
    && Multiple(j, l) <= p.y < Multiple(j + 1, l)
  }

  /** Cells do not overlap: a head lies in at most one of them. */
  lemma CellUnique(p: Vec, i: int, j: int, i2: int, j2: int, l: real)
    requires 0.0 < l
    requires InCell(p, i, j, l) && InCell(p, i2, j2, l)
    ensures i == i2 && j == j2
  {
    SlotUnique(p.x, i, i2, l);
    SlotUnique(p.y, j, j2, l);
  }

  lemma SlotUnique(x: real, i: int, i2: int, l: real)
    requires 0.0 < l
    requires Multiple(i, l) <= x < Multiple(i + 1, l)
    requires Multiple(i2, l) <= x < Multiple(i2 + 1, l)
    ensures i == i2
  {
    MultipleAdd(i2, -i, l);
    MultipleAdd(i + 1, -i2, l);
    MultipleAdd(i2 + 1, -i, l);
    MultipleAdd(i, -i2, l);
    MultipleBound(i2 - i, l);
    MultipleBound(i - i2, l);
  }

  /** `int(domain_size // l)`: the number of cells along each axis. */
  function BlockCount(l: real): int
    requires l != 0.0
  {
    (DOMAIN_SIZE / l).Floor
  }

  /** The cells stop at or before the wall, so a head clamped onto the wall
      `x = domain_size` or `y = domain_size` lies in no cell. */
  lemma WallHeadInNoCell(p: Vec, i: int, j: int, l: real)
    requires 0.0 < l
    requires 0 <= i < BlockCount(l) && 0 <= j < BlockCount(l)
    requires p.x == DOMAIN_SIZE || p.y == DOMAIN_SIZE
    ensures !InCell(p, i, j, l)
  {
    var n := BlockCount(l);
    FloorDivBounds(DOMAIN_SIZE, l);
    assert Multiple(n, l) <= DOMAIN_SIZE;
    MultipleAdd(i + 1, n - (i + 1), l);
    MultipleBound(n - (i + 1), l);
    MultipleAdd(j + 1, n - (j + 1), l);
    MultipleBound(n - (j + 1), l);
  }

  /** The headings of the filaments whose heads lie in cell `(i, j)`, in
      population order. */
  function CellAngles(pop: seq<Filament>, i: int, j: int, l: real): (r: seq<real>)
    requires forall k :: 0 <= k < |pop| ==> 0 < |pop[k].points|
    ensures |r| <= |pop|
    ensures (forall k :: 0 <= k < |pop| ==> !InCell(pop[k].points[0], i, j, l)) ==> r == []
  {
    if |pop| == 0 then []
    else
      var last := pop[|pop| - 1];
      CellAngles(pop[..|pop| - 1], i, j, l) + (if InCell(last.points[0], i, j, l) then [last.theta] else [])
  }

  /** Whether a filament's head lies in cell `(i, j)`. */
  function HeadIn(i: int, j: int, l: real): Filament -> bool {
    (f: Filament) => 0 < |f.points| && InCell(f.points[0], i, j, l)
  }

  /** A heading is listed for a cell exactly when some filament whose head
      lies in that cell has it. */
  lemma {:induction false} CellAnglesSelect(pop: seq<Filament>, i: int, j: int, l: real, x: real)
    requires forall k :: 0 <= k < |pop| ==> 0 < |pop[k].points|
    ensures x in CellAngles(pop, i, j, l) <==>
      exists k :: 0 <= k < |pop| && InCell(pop[k].points[0], i, j, l) && pop[k].theta == x
  {
    if |pop| > 0 {
      var n := |pop| - 1;
      var init := pop[..n];
      CellAnglesSelect(init, i, j, l, x);
      if exists k :: 0 <= k < n && InCell(init[k].points[0], i, j, l) && init[k].theta == x {
        var k :| 0 <= k < n && InCell(init[k].points[0], i, j, l) && init[k].theta == x;
        assert pop[k] == init[k];
      }
      if exists k :: 0 <= k < |pop| && InCell(pop[k].points[0], i, j, l) && pop[k].theta == x {
        var k :| 0 <= k < |pop| && InCell(pop[k].points[0], i, j, l) && pop[k].theta == x;
        if k < n {
          assert init[k] == pop[k];
        }
      }
    }
  }

  /** Splitting the population splits its headings, the first part's
      first: the headings of a cell keep population order. */
  lemma {:induction false} CellAnglesConcat(a: seq<Filament>, b: seq<Filament>, i: int, j: int, l: real)
    requires forall k :: 0 <= k < |a| ==> 0 < |a[k].points|
    requires forall k :: 0 <= k < |b| ==> 0 < |b[k].points|
    ensures forall k :: 0 <= k < |a + b| ==> 0 < |(a + b)[k].points|
    ensures CellAngles(a + b, i, j, l) == CellAngles(a, i, j, l) + CellAngles(b, i, j, l)
    decreases |b|
  {
    if b == [] {
      assert a + b == a;
    } else {
      var n := |b| - 1;
      var init, last := b[..n], b[n];
      var tail := if InCell(last.points[0], i, j, l) then [last.theta] else [];
      assert (a + b)[..|a + b| - 1] == a + init;
      assert (a + b)[|a + b| - 1] == last;
      CellAnglesConcat(a, init, i, j, l);
      assert CellAngles(b, i, j, l) == CellAngles(init, i, j, l) + tail;
      assert CellAngles(a + b, i, j, l) == CellAngles(a + init, i, j, l) + tail;
      AppendAssoc(CellAngles(a, i, j, l), CellAngles(init, i, j, l), tail);
    }
  }

  lemma AppendAssoc(x: seq<real>, y: seq<real>, z: seq<real>)
    ensures (x + y) + z == x + (y + z)
  {
  }

  /** A cell lists one heading per filament whose head lies in it. */
  lemma {:induction false} CellAnglesCount(pop: seq<Filament>, i: int, j: int, l: real)
    requires forall k :: 0 <= k < |pop| ==> 0 < |pop[k].points|
    ensures |CellAngles(pop, i, j, l)| == |Keep(pop, HeadIn(i, j, l))|
  {
    if |pop| > 0 {
      var n := |pop| - 1;
      assert pop == pop[..n] + [pop[n]];
      CellAnglesCount(pop[..n], i, j, l);
      KeepConcat(pop[..n], [pop[n]], HeadIn(i, j, l));
      KeepOne(pop[n], HeadIn(i, j, l));
    }
  }

  /** `sum_k (cos 2 theta_k, sin 2 theta_k)`: at most as long as the number
      of angles, since every term has length 1. */
  function Resultant(m: Maths, angles: seq<real>): (v: Vec)
    requires m.Valid()
    ensures m.Norm(v) <= |angles| as real
  {
    if |angles| == 0 then
      assert Zero == Scale(0.0, Zero);
      NormScale(m, 0.0, Zero);
      Zero
    else
      var rest := Resultant(m, angles[..|angles| - 1]);
      var u := m.Unit(2.0 * angles[|angles| - 1]);
      NormTriangle(m, rest, u);
      UnitBounds(m, 2.0 * angles[|angles| - 1]);
      Add(rest, u)
  }

  /** `np.sqrt(mean_cos ** 2 + mean_sin ** 2)` for one cell: the length of the
      mean of the doubled-angle unit vectors. Always in `[0, 1]`. */
  function CellOrder(m: Maths, angles: seq<real>): (s: real)
    requires m.Valid()
    requires 0 < |angles|
    ensures 0.0 <= s <= 1.0
  {
    var n := |angles| as real;
    var r := Resultant(m, angles);
    var x := m.Norm(r);
    NormScale(m, 1.0 / n, r);
    ScaledBelowOne(x, n);
    var s := m.Norm(Scale(1.0 / n, r));
    assert s == Abs(1.0 / n) * x;
    s
  }

  lemma ScaledBelowOne(x: real, n: real)
    requires 0.0 <= x <= n && 0.0 < n
    ensures Abs(1.0 / n) * x <= 1.0
  {
    assert Abs(1.0 / n) == 1.0 / n;
    assert x / n <= 1.0 by {
      MeanBound(x, n);
    }
    assert 1.0 / n * x == x / n;
  }

  /** Aligned or antiparallel headings in one cell are perfectly ordered. */
  lemma CellOrderUniform(m: Maths, angles: seq<real>, theta: real)
    requires m.Valid()
    requires 0 < |angles|
    requires forall k :: 0 <= k < |angles| ==> angles[k] == theta
    ensures CellOrder(m, angles) == 1.0
  {
    var n := |angles| as real;
    var u := m.Unit(2.0 * theta);
    ResultantUniform(m, angles, theta);
    assert Scale(1.0 / n, Scale(n, u)) == u;
    UnitBounds(m, 2.0 * theta);
  }

  lemma {:induction false} ResultantUniform(m: Maths, angles: seq<real>, theta: real)
    requires m.Valid()
    requires forall k :: 0 <= k < |angles| ==> angles[k] == theta
    ensures Resultant(m, angles) == Scale(|angles| as real, m.Unit(2.0 * theta))
  {
    if |angles| > 0 {
      var k := |angles| - 1;
      var u := m.Unit(2.0 * theta);
      ResultantUniform(m, angles[..k], theta);
      assert Resultant(m, angles) == Add(Scale(k as real, u), u);
      ScaleSucc(k as real, u);
    }
  }

  /** One more copy of `u` in a repeated vector sum. */
  lemma ScaleSucc(k: real, u: Vec)
    ensures Add(Scale(k, u), u) == Scale(k + 1.0, u)
  {
    SuccTimes(k, u.x);
    SuccTimes(k, u.y);
  }

  /** Cell `(i, j)` holds at most one head and contributes no value. */
  predicate Sparse(pop: seq<Filament>, i: int, j: int, l: real)
    requires forall k :: 0 <= k < |pop| ==> 0 < |pop[k].points|
  {
    |CellAngles(pop, i, j, l)| <= 1
  }

  /** The heading lists of the cells `(i, 0) .. (i, cols - 1)` that hold more
      than one head, in order. */
  function RowCells(pop: seq<Filament>, i: int, cols: nat, l: real): (r: seq<seq<real>>)
    requires forall k :: 0 <= k < |pop| ==> 0 < |pop[k].points|
    ensures forall c :: c in r ==> 1 < |c|
  {
    if cols == 0 then []
    else
      var angles := CellAngles(pop, i, cols - 1, l);
      RowCells(pop, i, cols - 1, l) + (if 1 < |angles| then [angles] else [])
  }

  /** A row yields no cell exactly when every cell of it is sparse. */
  lemma {:induction false} RowCellsEmpty(pop: seq<Filament>, i: int, cols: nat, l: real)
    requires forall k :: 0 <= k < |pop| ==> 0 < |pop[k].points|
    ensures RowCells(pop, i, cols, l) == [] <==> forall j :: 0 <= j < cols ==> Sparse(pop, i, j, l)
  {
    if cols > 0 {
      var last := cols - 1;
      var angles := CellAngles(pop, i, last, l);
      var front := RowCells(pop, i, last, l);
      var cell := if 1 < |angles| then [angles] else [];
      assert RowCells(pop, i, cols, l) == front + cell;
      ConcatEmpty(front, cell);
      assert cell == [] <==> Sparse(pop, i, last, l);
      RowCellsEmpty(pop, i, last, l);
      LastColumn(pop, i, cols, last, l);
      IffStep(RowCells(pop, i, cols, l) == [], front == [], cell == [],
        forall j :: 0 <= j < cols ==> Sparse(pop, i, j, l),
        forall j :: 0 <= j < last ==> Sparse(pop, i, j, l),
        Sparse(pop, i, last, l));
    }
  }

  /** Every cell of row `i` up to column `cols - 1` is sparse exactly when
      the cells before column `last` and the cell at `last` are. */
  lemma LastColumn(pop: seq<Filament>, i: int, cols: nat, last: int, l: real)
    requires forall k :: 0 <= k < |pop| ==> 0 < |pop[k].points|
    requires 0 <= last && last + 1 == cols
    ensures (forall j :: 0 <= j < cols ==> Sparse(pop, i, j, l)) <==>
      (forall j :: 0 <= j < last ==> Sparse(pop, i, j, l)) && Sparse(pop, i, last, l)
  {
    if (forall j :: 0 <= j < last ==> Sparse(pop, i, j, l)) && Sparse(pop, i, last, l) {
      forall j | 0 <= j < cols
        ensures Sparse(pop, i, j, l)
      {
        if j < last {
          assert 0 <= j < last;
        }
      }
    }
  }

  /** The heading lists of the dense cells of rows `0 .. rows - 1`, in the
      order of the two nested loops. */
  function GridCells(pop: seq<Filament>, rows: nat, cols: nat, l: real): (r: seq<seq<real>>)
    requires forall k :: 0 <= k < |pop| ==> 0 < |pop[k].points|
    ensures forall c :: c in r ==> 1 < |c|
  {
    if rows == 0 then []
    else GridCells(pop, rows - 1, cols, l) + RowCells(pop, rows - 1, cols, l)
  }

  /** The grid yields no cell exactly when every cell of it is sparse. */
  lemma {:induction false} GridCellsEmpty(pop: seq<Filament>, rows: nat, cols: nat, l: real)
    requires forall k :: 0 <= k < |pop| ==> 0 < |pop[k].points|
    ensures GridCells(pop, rows, cols, l) == [] <==>
      forall i, j :: 0 <= i < rows && 0 <= j < cols ==> Sparse(pop, i, j, l)
  {
    if rows > 0 {
      var last := rows - 1;
      var front := GridCells(pop, last, cols, l);
      var row := RowCells(pop, last, cols, l);
      assert GridCells(pop, rows, cols, l) == front + row;
      ConcatEmpty(front, row);
      GridCellsEmpty(pop, last, cols, l);
      RowCellsEmpty(pop, last, cols, l);
      LastRow(pop, rows, last, cols, l);
      IffStep(GridCells(pop, rows, cols, l) == [], front == [], row == [],
        forall i, j :: 0 <= i < rows && 0 <= j < cols ==> Sparse(pop, i, j, l),
        forall i, j :: 0 <= i < last && 0 <= j < cols ==> Sparse(pop, i, j, l),
        forall j :: 0 <= j < cols ==> Sparse(pop, last, j, l));
    }
  }

  /** Every cell of a `rows x cols` grid is sparse exactly when every cell
      of the rows before row `last` and of row `last` itself is. */
  lemma LastRow(pop: seq<Filament>, rows: nat, last: int, cols: nat, l: real)
    requires forall k :: 0 <= k < |pop| ==> 0 < |pop[k].points|
    requires 0 <= last && last + 1 == rows
    ensures (forall i, j :: 0 <= i < rows && 0 <= j < cols ==> Sparse(pop, i, j, l)) <==>
      (forall i, j :: 0 <= i < last && 0 <= j < cols ==> Sparse(pop, i, j, l)) &&
      (forall j :: 0 <= j < cols ==> Sparse(pop, last, j, l))
  {
    if (forall i, j :: 0 <= i < last && 0 <= j < cols ==> Sparse(pop, i, j, l)) &&
      (forall j :: 0 <= j < cols ==> Sparse(pop, last, j, l))
    {
      forall i, j | 0 <= i < rows && 0 <= j < cols
        ensures Sparse(pop, i, j, l)
      {
        if i == last {
          assert 0 <= j < cols;
        } else {
          assert 0 <= i < last;
        }
      }
    }
  }

  /** Combines the three equivalences of the step of `GridCellsEmpty`. */
  lemma IffStep(empty: bool, frontEmpty: bool, rowEmpty: bool, all: bool, before: bool, lastRow: bool)
    requires empty <==> frontEmpty && rowEmpty
    requires frontEmpty <==> before
    requires rowEmpty <==> lastRow
    requires all <==> before && lastRow
    ensures empty <==> all
  {
  }

  /** `sum(S_blocks)` over the given dense cells. */
  function OrderSum(m: Maths, cells: seq<seq<real>>): (s: real)
    requires m.Valid()
    requires forall c :: c in cells ==> 0 < |c|
    ensures 0.0 <= s <= |cells| as real
  {
    if |cells| == 0 then 0.0
    else OrderSum(m, cells[..|cells| - 1]) + CellOrder(m, cells[|cells| - 1])
  }

  /** `compute_blockwise_nematic_order`: the mean cell value over all cells
      holding more than one head, 0.0 when there is no such cell. */
  function BlockOrder(m: Maths, pop: seq<Filament>, l: real): (r: real)
    requires m.Valid()
    requires l != 0.0
    requires forall k :: 0 <= k < |pop| ==> 0 < |pop[k].points|
    ensures 0.0 <= r <= 1.0
  {
    var n := BlockCount(l);
    var cells := if n <= 0 then [] else GridCells(pop, n, n, l);
    if |cells| == 0 then 0.0
    else
      var total := OrderSum(m, cells);
      MeanInUnit(total, |cells| as real);
      total / |cells| as real
  }

  lemma MeanInUnit(s: real, n: real)
    requires 0.0 < n && 0.0 <= s <= n
    ensures 0.0 <= s / n <= 1.0
  {
    MeanBound(s, n);
    assert s / n * n == s;
    NegativeFactor(s / n, n);
  }

  /** With every cell sparse the blockwise order is 0.0. */
  lemma BlockOrderSparse(m: Maths, pop: seq<Filament>, l: real)
    requires m.Valid()
    requires l != 0.0
    requires forall k :: 0 <= k < |pop| ==> 0 < |pop[k].points|
    requires forall i, j :: 0 <= i < BlockCount(l) && 0 <= j < BlockCount(l) ==> Sparse(pop, i, j, l)
    ensures BlockOrder(m, pop, l) == 0.0
  {
    var n := BlockCount(l);
    if n > 0 {
      GridCellsEmpty(pop, n, n, l);
    }
  }
}
