/** The height-grid accumulator of `-og`: every group gets a
    `shape[0] x shape[1]` grid over the plane normal to the chosen axis; each
    atom, moved into the box, adds its weight times `shape[0] * shape[1] / V`
    to the cell above which it sits; at the end every cell is divided by the
    frame count and the grids are written as blocks of tab-separated rows. */
module GridMode {
  import opened Common
  import Slab

  /** The `GridHeight` record. `shape`, `width` and `boxWidth` hold two
      entries (the two in-plane directions), `axis` three: the normal first,
      then the two in-plane axes. The output file handle is not modelled. */
  datatype Grid = Grid(
    grids: seq<Table>,
    shape: seq<int>,
    width: seq<real>,
    axis: seq<Axis>,
    boxWidth: seq<real>,
    nframes: nat,
    ngroups: nat,
    invvol: real,
    dens: char)
  {
    /** The shape every grid keeps between `build_grids` and `grid_end`. */
    predicate Valid() {
      && |shape| == 2 && |width| == 2 && |axis| == 3 && |boxWidth| == 2
      && shape[0] > 0 && shape[1] > 0
      && |grids| == ngroups
      && forall g :: 0 <= g < |grids| ==> Shaped(grids[g], shape[0], shape[1])
    }

    /** The widths and inverse volume were set by `grid_start_frame` for `box`. */
    predicate StartedFor(box: Vec3)
      requires Valid()
    {
      && PositiveBox(box)
      && width[0] > 0.0 && width[1] > 0.0
      && width[0] == Slab.SliceWidth(box.At(axis[1]), shape[0])
      && width[1] == Slab.SliceWidth(box.At(axis[2]), shape[1])
      && invvol == Slab.InvVolume(box, Cells(shape))
    }
  }

  /** The number of cells of a grid, `shape[0] * shape[1]`. */
  function Cells(shape: seq<int>): (c: int)
    requires |shape| == 2 && shape[0] > 0 && shape[1] > 0
    ensures c > 0 && c == shape[0] * shape[1]
  {
    MulPositive(shape[0], shape[1]);
    shape[0] * shape[1]
  }

  lemma MulPositive(a: int, b: int)
    requires a > 0 && b > 0
    ensures a * b > 0
  {
  }

  /** `axis` is a permutation of the three axes. */
  predicate IsPermutation(axis: seq<Axis>) {
    |axis| == 3 && forall a: Axis :: a in axis
  }

  /** The two in-plane axes for a normal axis, in increasing order
      (grid_mode.c:36-49). */
  function PlaneAxes(normal: Axis): (r: (Axis, Axis))
    ensures r.0 < r.1 && r.0 != normal && r.1 != normal
  {
    if normal == 0 then (1, 2) else if normal == 1 then (0, 2) else (0, 1)
  }

  /** `build_grids` (grid_mode.c:7-65): a non-positive dimension is fatal,
      then a normal outside `0..2` is fatal; otherwise a fresh record with
      every counter, width and cell at zero. */
  function BuildGrids(shape0: int, shape1: int, normal: int, ngroups: nat, dens: char): (r: Result<Grid>)
    ensures r.Fail? <==> shape0 <= 0 || shape1 <= 0 || !(0 <= normal < 3)
    ensures (shape0 <= 0 || shape1 <= 0) ==> r == Fail(BadGridShape)
    ensures 0 < shape0 && 0 < shape1 && !(0 <= normal < 3) ==> r == Fail(InvalidAxis)
    ensures r.Ok? ==> var g := r.value;
      && g.Valid()
      && g.shape == [shape0, shape1] && g.ngroups == ngroups && g.dens == dens
      && g.nframes == 0 && g.invvol == 0.0 && g.width == [0.0, 0.0] && g.boxWidth == [0.0, 0.0]
      && g.axis[0] == normal && g.axis[1] < g.axis[2] && IsPermutation(g.axis)
      && forall k, i, j :: 0 <= k < ngroups && 0 <= i < shape0 && 0 <= j < shape1 ==> g.grids[k][i][j] == 0.0
  {
    if shape0 <= 0 || shape1 <= 0 then Fail(BadGridShape)
    else if !(0 <= normal < 3) then Fail(InvalidAxis)
    else
      var plane := PlaneAxes(normal);
      var axis: seq<Axis> := [normal, plane.0, plane.1];
      assert forall a: Axis :: a in axis by {
        forall a: Axis ensures a in axis {
          if a != normal && a != plane.0 {
            assert a == plane.1;
          }
        }
      }
      var grids := seq(ngroups, k => Zeros(shape0, shape1));
      Ok(Grid(grids, [shape0, shape1], [0.0, 0.0], axis, [0.0, 0.0], 0, ngroups, 0.0, dens))
  }

  /** `grid_start_frame` (grid_mode.c:81-94): one more frame; the cell
      widths and the inverse cell volume for this frame's box; the in-plane
      box edges are added to the running sums. No grid, no change. */
  function GridStartFrame(grid: Option<Grid>, box: Vec3): (r: Option<Grid>)
    requires grid.Some? ==> grid.value.Valid()
    requires PositiveBox(box)
    ensures grid.None? <==> r.None?
    ensures grid.Some? ==> var g := grid.value; var h := r.value;
      && h.Valid() && h.StartedFor(box)
      && h.grids == g.grids && h.shape == g.shape && h.axis == g.axis
      && h.ngroups == g.ngroups && h.dens == g.dens
      && h.nframes == g.nframes + 1
      && h.width[0] * g.shape[0] as real == box.At(g.axis[1])
      && h.width[1] * g.shape[1] as real == box.At(g.axis[2])
      && h.boxWidth == [g.boxWidth[0] + box.At(g.axis[1]), g.boxWidth[1] + box.At(g.axis[2])]
      && h.invvol * Volume(box) == (g.shape[0] * g.shape[1]) as real
  {
    match grid
    case None => None
    case Some(g) =>
      var w0 := Slab.SliceWidth(box.At(g.axis[1]), g.shape[0]);
      var w1 := Slab.SliceWidth(box.At(g.axis[2]), g.shape[1]);
      Some(g.(nframes := g.nframes + 1,
              width := [w0, w1],
              boxWidth := [g.boxWidth[0] + box.At(g.axis[1]), g.boxWidth[1] + box.At(g.axis[2])],
              invvol := Slab.InvVolume(box, Cells(g.shape))))
  }

  /** The cell indices `(int)(p[axis[i+1]] / width[i])` of a position: for
      a non-negative in-plane coordinate, the slice of that width containing it. */
  function CellOf(g: Grid, p: Vec3): (c: (int, int))
    requires g.Valid() && g.width[0] > 0.0 && g.width[1] > 0.0
    ensures 0.0 <= p.At(g.axis[1]) ==> 0 <= c.0 && Slab.InSlice(p.At(g.axis[1]), c.0, g.width[0])
    ensures 0.0 <= p.At(g.axis[2]) ==> 0 <= c.1 && Slab.InSlice(p.At(g.axis[2]), c.1, g.width[1])
  {
    var c0, c1 := Trunc(p.At(g.axis[1]) / g.width[0]), Trunc(p.At(g.axis[2]) / g.width[1]);
    assert 0.0 <= p.At(g.axis[1]) ==> 0 <= c0 && Slab.InSlice(p.At(g.axis[1]), c0, g.width[0]) by {
      if 0.0 <= p.At(g.axis[1]) { Slab.QuotientSlice(p.At(g.axis[1]), g.width[0], c0); }
    }
    assert 0.0 <= p.At(g.axis[2]) ==> 0 <= c1 && Slab.InSlice(p.At(g.axis[2]), c1, g.width[1]) by {
      if 0.0 <= p.At(g.axis[2]) { Slab.QuotientSlice(p.At(g.axis[2]), g.width[1], c1); }
    }
    (c0, c1)
  }

  /** The unguarded write at grid_mode.c:104 stays inside the grid. */
  predicate FitsGrid(g: Grid, p: Vec3)
    requires g.Valid()
  {
    g.width[0] > 0.0 && g.width[1] > 0.0 &&
    var c := CellOf(g, p);
    0 <= c.0 < g.shape[0] && 0 <= c.1 < g.shape[1]
  }

  /** Along each in-plane direction the cell index is in range exactly
      when the coordinate lies in `[0, L)`, and the cell then contains it. */
  lemma CellIndexInRange(g: Grid, box: Vec3, p: Vec3)
    requires g.Valid() && g.StartedFor(box)
    requires 0.0 <= p.At(g.axis[1]) && 0.0 <= p.At(g.axis[2])
    ensures var c := CellOf(g, p);
      && 0 <= c.0 && Slab.InSlice(p.At(g.axis[1]), c.0, g.width[0])
      && 0 <= c.1 && Slab.InSlice(p.At(g.axis[2]), c.1, g.width[1])
      && (c.0 < g.shape[0] <==> p.At(g.axis[1]) < box.At(g.axis[1]))
      && (c.1 < g.shape[1] <==> p.At(g.axis[2]) < box.At(g.axis[2]))
  {
    var L0, L1 := box.At(g.axis[1]), box.At(g.axis[2]);
    Slab.SliceBounds(p.At(g.axis[1]), L0, g.shape[0], CellOf(g, p).0);
    Slab.SliceBounds(p.At(g.axis[2]), L1, g.shape[1], CellOf(g, p).1);
  }

  /** After `put_atom_in_box` with this frame's box the write is always in range. */
  lemma WrappedAtomFitsGrid(g: Grid, box: Vec3, wrap: BoxWrap, atom: Vec3)
    requires g.Valid() && g.StartedFor(box)
    ensures FitsGrid(g, wrap(atom, box))
  {
    var p := wrap(atom, box);
    assert InBox(p, box);
    assert 0.0 <= p.At(g.axis[1]) < box.At(g.axis[1]);
    assert 0.0 <= p.At(g.axis[2]) < box.At(g.axis[2]);
    CellIndexInRange(g, box, p);
  }

  /** `grids` is `before` with `amount` added to the one cell of grid `k`
      whose two slices contain `(u, v)`; every other cell is unchanged. */
  predicate DepositedInCell(grids: seq<Table>, before: seq<Table>, k: nat, u: real, v: real, w: seq<real>, amount: real)
    requires |w| == 2
  {
    && |grids| == |before|
    && (forall h :: 0 <= h < |before| ==> SameShape(grids[h], before[h]))
    && forall h, i, j {:trigger grids[h][i][j]} :: 0 <= h < |before| && 0 <= i < |before[h]| && 0 <= j < |before[h][i]| ==>
         grids[h][i][j] == before[h][i][j] +
           (if h == k && Slab.InSlice(u, i, w[0]) && Slab.InSlice(v, j, w[1]) then amount else 0.0)
  }

  /** `grids[k][(int)(u / w[0])][(int)(v / w[1])] += amount` for a point
      `(u, v)` with non-negative coordinates whose cell is inside the grid. */
  function DepositInCell(grids: seq<Table>, k: nat, u: real, v: real, w: seq<real>, amount: real): (r: seq<Table>)
    requires |w| == 2 && w[0] > 0.0 && w[1] > 0.0 && 0.0 <= u && 0.0 <= v
    requires k < |grids| && Trunc(u / w[0]) < |grids[k]| && Trunc(v / w[1]) < |grids[k][Trunc(u / w[0])]|
    ensures DepositedInCell(r, grids, k, u, v, w, amount)
  {
    var i0, j0 := Trunc(u / w[0]), Trunc(v / w[1]);
    Slab.QuotientSlice(u, w[0], i0);
    Slab.QuotientSlice(v, w[1], j0);
    var r := grids[k := AddAt(grids[k], i0, j0, amount)];
    forall h, i, j | 0 <= h < |grids| && 0 <= i < |grids[h]| && 0 <= j < |grids[h][i]|
      ensures r[h][i][j] == grids[h][i][j] +
        (if h == k && Slab.InSlice(u, i, w[0]) && Slab.InSlice(v, j, w[1]) then amount else 0.0)
    {
      if h == k && Slab.InSlice(u, i, w[0]) && Slab.InSlice(v, j, w[1]) {
        Slab.SliceContainsOnce(u, w[0], i, i0);
        Slab.SliceContainsOnce(v, w[1], j, j0);
      }
    }
    r
  }

  /** The outcome of `grid_store`: the grid, and the caller's position,
      which the source moves into the box in place. */
  datatype GridStep = GridStep(grid: Option<Grid>, atom: Vec3)

  /** `grid_store` (grid_mode.c:96-106): the atom is moved into the box and
      `mass * invvol` is added to the cell above which it now sits; nothing
      else changes. No grid: neither the grid nor the position changes. */
  function GridStore(grid: Option<Grid>, group: nat, atom: Vec3, box: Vec3, wrap: BoxWrap, mass: real): (r: GridStep)
    requires grid.Some? ==> grid.value.Valid() && group < grid.value.ngroups
    requires grid.Some? ==> PositiveBox(box) && FitsGrid(grid.value, wrap(atom, box))
    ensures grid.None? ==> r == GridStep(None, atom)
    ensures grid.Some? ==> r.atom == wrap(atom, box) && InBox(r.atom, box)
    ensures grid.Some? ==> r.grid.Some? && r.grid.value == grid.value.(grids := r.grid.value.grids)
    ensures grid.Some? ==>
      DepositedInCell(r.grid.value.grids, grid.value.grids, group, r.atom.At(grid.value.axis[1]), r.atom.At(grid.value.axis[2]),
                      grid.value.width, mass * grid.value.invvol)
  {
    if grid.None? then GridStep(None, atom)
    else
      var p := wrap(atom, box);
      assert InBox(p, box);
      assert 0.0 <= p.At(grid.value.axis[1]) && 0.0 <= p.At(grid.value.axis[2]);
      GridStep(Some(grid.value.(grids := DepositInCell(grid.value.grids, group, p.At(grid.value.axis[1]), p.At(grid.value.axis[2]),
                                                          grid.value.width, mass * grid.value.invvol))), p)
  }

  /** What cell `(i, j)` of grid `h` gains when weight `mass` of group
      `group` is deposited at the in-box position `p`, on grids over the
      in-plane axes `plane[1]` and `plane[2]` with cell widths `w0` and `w1`
      and inverse cell volume `invvol`: the weight times `invvol` when `h`
      is the group and `p` lies above the cell, nothing otherwise. */
  function CellGain(plane: seq<Axis>, w0: real, w1: real, invvol: real, p: Vec3, group: nat, mass: real, h: nat, i: nat, j: nat): real
    requires |plane| == 3
  {
    if h == group && Slab.InSlice(p.At(plane[1]), i, w0) && Slab.InSlice(p.At(plane[2]), j, w1)
    then mass * invvol
    else 0.0
  }

  /** Cell `(i, j)` of grid `h` after `grid_store` on a started grid gains
      its `CellGain` for the atom moved into the box. */
  lemma GridStoreCell(g: Grid, group: nat, atom: Vec3, box: Vec3, wrap: BoxWrap, mass: real, h: nat, i: nat, j: nat)
    requires g.Valid() && g.StartedFor(box) && group < g.ngroups
    requires h < g.ngroups && i < g.shape[0] && j < g.shape[1]
    ensures FitsGrid(g, wrap(atom, box))
    ensures GridStore(Some(g), group, atom, box, wrap, mass).grid.value.grids[h][i][j]
            == g.grids[h][i][j] + CellGain(g.axis, g.width[0], g.width[1], g.invvol, wrap(atom, box), group, mass, h, i, j)
  {
    WrappedAtomFitsGrid(g, box, wrap, atom);
    assert Shaped(g.grids[h], g.shape[0], g.shape[1]);
  }

  /** One line of the grid file. `Row` holds the values printed with `%7.3f`
      and separated by tabs; `BlockEnd` is the `&&` closing a group. */
  datatype GridLine =
    | XWidth(w: real)
    | YWidth(w: real)
    | XLabel(c: char)
    | YLabel(c: char)
    | Legend
    | Row(values: seq<real>)
    | BlockEnd

  /** The block of one group: one line per grid row, then `&&`. */
  function Block(t: Table): (lines: seq<GridLine>)
    ensures |lines| == |t| + 1 && lines[|t|] == BlockEnd
    ensures forall i :: 0 <= i < |t| ==> lines[i] == Row(t[i])
  {
    seq(|t|, i requires 0 <= i < |t| => Row(t[i])) + [BlockEnd]
  }

  /** The blocks of every group, in group order. */
  function Blocks(grids: seq<Table>): seq<GridLine> {
    if |grids| == 0 then [] else Blocks(grids[..|grids| - 1]) + Block(grids[|grids| - 1])
  }

  /** Every block of a grid `rows` rows high is `rows + 1` lines long. */
  lemma {:induction false} BlocksLength(grids: seq<Table>, rows: nat)
    requires forall h :: 0 <= h < |grids| ==> |grids[h]| == rows
    ensures |Blocks(grids)| == |grids| * (rows + 1)
  {
    if |grids| > 0 {
      BlocksLength(grids[..|grids| - 1], rows);
    }
  }

  /** With every grid `rows` rows high, block `k` starts at line `k * (rows + 1)`. */
  lemma {:induction false} BlocksLayout(grids: seq<Table>, rows: nat, k: nat, i: nat)
    requires forall h :: 0 <= h < |grids| ==> |grids[h]| == rows
    requires k < |grids| && i <= rows
    ensures k * (rows + 1) + i < |Blocks(grids)|
    ensures Blocks(grids)[k * (rows + 1) + i] == if i < rows then Row(grids[k][i]) else BlockEnd
  {
    var n := |grids|;
    var front := grids[..n - 1];
    BlocksLength(grids, rows);
    if n == 1 {
      assert Blocks(grids) == Blocks(front) + Block(grids[0]);
      assert k == 0;
    } else {
      BlocksLength(front, rows);
      assert Blocks(grids) == Blocks(front) + Block(grids[n - 1]);
      if k < n - 1 {
        BlocksLayout(front, rows, k, i);
        assert front[k] == grids[k];
        assert k * (rows + 1) + i < (n - 1) * (rows + 1) by {
          MulLeInt(k + 1, n - 1, rows + 1);
        }
      } else {
        assert k * (rows + 1) + i == (n - 1) * (rows + 1) + i;
      }
    }
  }

  lemma MulLeInt(a: nat, b: nat, c: nat)
    requires a <= b
    ensures a * c <= b * c
  {
  }

  /** `r` is `grids` with every cell divided by `d` and multiplied by `k`. */
  predicate Scaled(grids: seq<Table>, r: seq<Table>, d: real, k: real) {
    && |r| == |grids|
    && (forall h :: 0 <= h < |grids| ==> SameShape(r[h], grids[h]))
    && (forall h, i, j :: 0 <= h < |grids| && 0 <= i < |grids[h]| && 0 <= j < |grids[h][i]| ==>
         r[h][i][j] * d == grids[h][i][j] * k)
  }

  /** Every cell of every grid divided by `d` and multiplied by `k`. */
  function NormaliseAll(grids: seq<Table>, d: real, k: real): (r: seq<Table>)
    requires d != 0.0
    ensures Scaled(grids, r, d, k)
  {
    var r := seq(|grids|, h requires 0 <= h < |grids| => Normalise(grids[h], d, k));
    forall h | 0 <= h < |grids|
      ensures SameShape(r[h], grids[h])
      ensures forall i, j :: 0 <= i < |grids[h]| && 0 <= j < |grids[h][i]| ==> r[h][i][j] * d == grids[h][i][j] * k
    {
      assert r[h] == Normalise(grids[h], d, k);
    }
    r
  }

  /** What `grid_end` leaves behind: the normalised grids and the file it writes. */
  datatype GridReport = GridReport(grids: seq<Table>, lines: seq<GridLine>)

  /** "XYZ"[a]. */
  function AxisLabel(a: Axis): (c: char)
    ensures c == ['X', 'Y', 'Z'][a]
  {
    "XYZ"[a]
  }

  /** `grid_end` (grid_mode.c:108-147): every cell divided by the frame
      count and, for mass densities, converted to kg/m^3; the file holds the
      mean in-plane box widths, the two axis labels, the legend, then one
      block per group. No grid, no output. */
  function GridEnd(grid: Option<Grid>): (r: Option<GridReport>)
    requires grid.Some? ==> grid.value.Valid() && grid.value.nframes > 0
    ensures grid.None? <==> r.None?
    ensures grid.Some? ==>
      Scaled(grid.value.grids, r.value.grids, grid.value.nframes as real, UnitScale(grid.value.dens))
    ensures grid.Some? ==> Layout(grid.value, r.value)
  {
    if grid.None? then None
    else
      var g := grid.value;
      var grids := NormaliseAll(g.grids, g.nframes as real, UnitScale(g.dens));
      assert forall k :: 0 <= k < |grids| ==> |grids[k]| == g.shape[0] by {
        forall k | 0 <= k < |grids| ensures |grids[k]| == g.shape[0] {
          assert SameShape(grids[k], g.grids[k]) && Shaped(g.grids[k], g.shape[0], g.shape[1]);
        }
      }
      Some(Report(g, grids))
  }

  /** The file `grid_end` writes for grid `g` whose normalised grids are `rep.grids`:
      the mean in-plane box widths, the two axis labels, the legend, then one block per group. */
  predicate Layout(g: Grid, rep: GridReport)
    requires g.Valid() && g.nframes > 0
  {
    var n := g.nframes as real;
    && |rep.lines| >= 5
    && rep.lines[0].XWidth? && rep.lines[0].w * n == g.boxWidth[0]
    && rep.lines[1].YWidth? && rep.lines[1].w * n == g.boxWidth[1]
    && rep.lines[2] == XLabel(AxisLabel(g.axis[1]))
    && rep.lines[3] == YLabel(AxisLabel(g.axis[2]))
    && rep.lines[4] == Legend
    && rep.lines[5..] == Blocks(rep.grids)
  }

  /** The report for the normalised `grids` of `g`. */
  function Report(g: Grid, grids: seq<Table>): (rep: GridReport)
    requires g.Valid() && g.nframes > 0
    requires |grids| == g.ngroups && forall k :: 0 <= k < |grids| ==> |grids[k]| == g.shape[0]
    ensures rep.grids == grids && Layout(g, rep)
  {
    var n := g.nframes as real;
    DivCancel(g.boxWidth[0], n);
    DivCancel(g.boxWidth[1], n);
    var header := [XWidth(g.boxWidth[0] / n), YWidth(g.boxWidth[1] / n),
                   XLabel(AxisLabel(g.axis[1])), YLabel(AxisLabel(g.axis[2])), Legend];
    assert (header + Blocks(grids))[5..] == Blocks(grids);
    GridReport(grids, header + Blocks(grids))
  }

  /** The grid file has five header lines and, per group, one line per
      row of the grid and the `&&` line closing the block. */
  lemma ReportLines(g: Grid, rep: GridReport)
    requires g.Valid() && g.nframes > 0 && Layout(g, rep)
    requires |rep.grids| == g.ngroups && forall k :: 0 <= k < |rep.grids| ==> |rep.grids[k]| == g.shape[0]
    ensures |rep.lines| == 5 + g.ngroups * (g.shape[0] + 1)
  {
    BlocksLength(rep.grids, g.shape[0]);
    assert |rep.lines| == 5 + |rep.lines[5..]|;
  }
}
