/** The trajectory loops of `calc_density` and `calc_electron_density`:
    every frame starts the grid and distance accumulators, then every atom
    of every group is handed to `grid_store`, `dist_store` and the slab
    deposit in that order; after the last frame the grid and distance
    outputs are written and the slab profile is divided by the frame count.
    Reading frames, removing periodicity and centring are not modelled:
    the frames arrive as a sequence of boxes and positions. */
module Density {
  import opened Common
  import Electrons
  import Slab
  import GridMode
  import DistMode
  import Options

  // ---------------------------------------------------------------------
  // The visiting order
  // ---------------------------------------------------------------------

  /** One pass of the inner loop: group `group`, topology atom `atom`. */
  datatype Visit = Visit(group: nat, atom: nat)

  /** The number of atoms in all groups together. */
  function Count(index: seq<seq<nat>>): nat {
    if |index| == 0 then 0 else Count(index[..|index| - 1]) + |index[|index| - 1]|
  }

  /** The visits of group `g`, in index order. */
  function GroupVisits(g: nat, members: seq<nat>): (vs: seq<Visit>)
    ensures |vs| == |members|
    ensures forall i :: 0 <= i < |members| ==> vs[i] == Visit(g, members[i])
  {
    seq(|members|, i requires 0 <= i < |members| => Visit(g, members[i]))
  }

  /** `for (n = 0; n < nr_grps; n++) for (i = 0; i < gnx[n]; i++)`: the
      visits of every group, group after group. */
  function Visits(index: seq<seq<nat>>): (vs: seq<Visit>)
    ensures |vs| == Count(index)
    ensures forall k :: 0 <= k < |vs| ==> vs[k].group < |index| && vs[k].atom in index[vs[k].group]
  {
    if |index| == 0 then []
    else Visits(index[..|index| - 1]) + GroupVisits(|index| - 1, index[|index| - 1])
  }

  /** Atom `i` of group `g` is visited once its group's predecessors are
      done, at position `i` of its group's run. */
  lemma {:induction false} VisitAt(index: seq<seq<nat>>, g: nat, i: nat)
    requires g < |index| && i < |index[g]|
    ensures Count(index[..g]) + i < |Visits(index)|
    ensures Visits(index)[Count(index[..g]) + i] == Visit(g, index[g][i])
  {
    var n := |index| - 1;
    var front := index[..n];
    if g == n {
      assert index[..g] == front;
    } else {
      assert front[..g] == index[..g];
      VisitAt(front, g, i);
    }
  }

  // ---------------------------------------------------------------------
  // Where the slab step looks
  // ---------------------------------------------------------------------

  /** The position the slab deposit reads for an atom at `p`: with a grid,
      `grid_store` has already moved it into the box in place. */
  function Seen(p: Vec3, box: Vec3, wrap: BoxWrap, hasGrid: bool): Vec3 {
    if hasGrid then wrap(p, box) else p
  }

  /** Moving into the box twice is moving once. */
  lemma WrapIdempotent(wrap: BoxWrap, p: Vec3, box: Vec3)
    requires PositiveBox(box)
    ensures wrap(wrap(p, box), box) == wrap(p, box)
  {
    assert InBox(wrap(p, box), box);
  }

  /** With a grid the slab's `while` loops leave the coordinate alone and
      its unguarded write at g_mydensity.c:331 is always in range. */
  lemma SlabSeesWrappedAtom(wrap: BoxWrap, p: Vec3, box: Vec3, axis: Axis)
    requires PositiveBox(box)
    ensures var q := wrap(p, box);
      Slab.FitsSlab(q, box, axis) && Slab.Wrapped(q.At(axis), box.At(axis)) == q.At(axis)
  {
    var q := wrap(p, box);
    assert InBox(q, box);
    assert 0.0 <= q.At(axis) < box.At(axis);
  }

  /** What atom `v` adds to cell `(g, s)` of the slab profile in frame `f`. */
  function Share(f: Frame, v: Visit, atoms: seq<Atom>, axis: Axis, n: int, hasGrid: bool, wrap: BoxWrap, g: nat, s: nat): real
    requires PositiveBox(f.box) && n > 0 && v.atom < |atoms| && v.atom < |f.x|
  {
    var L := f.box.At(axis);
    if v.group == g && Slab.InSlice(Slab.Wrapped(Seen(f.x[v.atom], f.box, wrap, hasGrid).At(axis), L), s, Slab.SliceWidth(L, n))
    then atoms[v.atom].m * Slab.InvVolume(f.box, n)
    else 0.0
  }

  /** The reference for one frame: cell `(g, s)` collects the share of
      every visit. */
  function FrameHistogram(f: Frame, vs: seq<Visit>, atoms: seq<Atom>, axis: Axis, n: int, hasGrid: bool, wrap: BoxWrap,
                          g: nat, s: nat): real
    requires Covers(f, vs, atoms) && n > 0
  {
    if |vs| == 0 then 0.0
    else Share(f, vs[0], atoms, axis, n, hasGrid, wrap, g, s) + FrameHistogram(f, vs[1..], atoms, axis, n, hasGrid, wrap, g, s)
  }

  /** What atom `v` adds to cell `(g, i, j)` of the height grids in frame
      `f`, for grids of shape `shape` spanned by the in-plane axes
      `plane[1]` and `plane[2]`: its weight times the inverse cell volume
      when it is in group `g` and, moved into the box, lies above the cell. */
  function GridShare(f: Frame, v: Visit, atoms: seq<Atom>, shape: seq<int>, plane: seq<Axis>, wrap: BoxWrap,
                     g: nat, i: nat, j: nat): real
    requires PositiveBox(f.box) && v.atom < |atoms| && v.atom < |f.x|
    requires |shape| == 2 && shape[0] > 0 && shape[1] > 0 && |plane| == 3
  {
    GridMode.CellGain(plane, Slab.SliceWidth(f.box.At(plane[1]), shape[0]), Slab.SliceWidth(f.box.At(plane[2]), shape[1]),
                      Slab.InvVolume(f.box, GridMode.Cells(shape)), wrap(f.x[v.atom], f.box), v.group, atoms[v.atom].m, g, i, j)
  }

  /** The grid reference for one frame: cell `(g, i, j)` collects the share
      of every visit. */
  function GridFrameHistogram(f: Frame, vs: seq<Visit>, atoms: seq<Atom>, shape: seq<int>, plane: seq<Axis>, wrap: BoxWrap,
                              g: nat, i: nat, j: nat): real
    requires Covers(f, vs, atoms) && |shape| == 2 && shape[0] > 0 && shape[1] > 0 && |plane| == 3
  {
    if |vs| == 0 then 0.0
    else GridShare(f, vs[0], atoms, shape, plane, wrap, g, i, j) + GridFrameHistogram(f, vs[1..], atoms, shape, plane, wrap, g, i, j)
  }

  /** The constants of a distance profile that the binning depends on:
      the bin count, the normal axis (which fixes the radius and, in 2D,
      the height), the axis left out of distances, and the reference group. */
  datatype Shells = Shells(length: int, normal: Axis, excluded: int, b3D: bool, refs: seq<nat>)

  function ShellsOf(d: DistMode.Dist): Shells
    requires d.Valid() && 0 <= d.axis[0] < 3
  {
    Shells(d.length, d.axis[0], d.axis[1], d.b3D, d.refIndex)
  }

  /** What atom `v` adds to bin `(g, k)` of the distance profile in frame
      `f` when the positions are `x`: its weight divided by the volume of
      shell `k` when it is in group `g` and its minimum distance to the
      reference group lies in that shell, which lies inside half the
      smallest included box edge. */
  function DistShare(f: Frame, x: seq<Vec3>, v: Visit, atoms: seq<Atom>, sh: Shells, metric: Metric, g: nat, k: nat): real
    requires PositiveBox(f.box) && sh.length > 0 && v.atom < |atoms| && v.atom < |x| && DistMode.RefsIn(sh.refs, x)
  {
    var R := DistMode.MaxDistance(f.box, sh.b3D, sh.normal);
    var r := DistMode.MinDistance(x[v.atom], sh.refs, x, metric, sh.excluded);
    DistMode.ShellVolumePositive(R, sh.length, f.box.At(sh.normal), sh.b3D, k);
    if v.group == g && k < sh.length && Slab.InSlice(r, k, Slab.SliceWidth(R, sh.length))
    then atoms[v.atom].m / DistMode.ShellVolume(R, sh.length, f.box.At(sh.normal), sh.b3D, k)
    else 0.0
  }

  /** The distance reference for one frame, starting from positions `x`:
      each visit sees the positions as the earlier visits left them (with a
      grid, every visited atom has been moved into the box). */
  function DistFrameHistogram(f: Frame, x: seq<Vec3>, vs: seq<Visit>, atoms: seq<Atom>, sh: Shells, hasGrid: bool,
                              wrap: BoxWrap, metric: Metric, g: nat, k: nat): real
    requires Covers(f, vs, atoms) && |x| == |f.x| && sh.length > 0 && DistMode.RefsIn(sh.refs, x)
    decreases |vs|
  {
    if |vs| == 0 then 0.0
    else
      var y := x[vs[0].atom := Seen(f.x[vs[0].atom], f.box, wrap, hasGrid)];
      DistShare(f, y, vs[0], atoms, sh, metric, g, k) + DistFrameHistogram(f, y, vs[1..], atoms, sh, hasGrid, wrap, metric, g, k)
  }

  // ---------------------------------------------------------------------
  // One frame of calc_density
  // ---------------------------------------------------------------------

  /** The accumulators and the frame's positions while its atoms are visited. */
  datatype State = State(bins: Table, grid: Option<GridMode.Grid>, dist: Option<DistMode.Dist>, x: seq<Vec3>)

  /** Ready for the atoms of a frame with box `box`: the grid and distance
      accumulators were started for it and match the `ngroups` x `n` profile. */
  predicate Ready(st: State, box: Vec3, n: int, ngroups: nat) {
    && PositiveBox(box) && n > 0 && Shaped(st.bins, ngroups, n)
    && (st.grid.Some? ==> st.grid.value.Valid() && st.grid.value.StartedFor(box) && st.grid.value.ngroups == ngroups)
    && (st.dist.Some? ==> st.dist.value.Valid() && st.dist.value.StartedFor(box) && st.dist.value.ngroups == ngroups
                          && DistMode.RefsIn(st.dist.value.refIndex, st.x))
  }

  /** `b` is `a` after deposits: only grid cells and distance bins changed. */
  predicate Kept(a: State, b: State) {
    && (a.grid.None? <==> b.grid.None?)
    && (a.grid.Some? ==> b.grid.value == a.grid.value.(grids := b.grid.value.grids))
    && (a.dist.None? <==> b.dist.None?)
    && (a.dist.Some? ==> b.dist.value == a.dist.value.(data := b.dist.value.data))
  }

  /** Every position is the frame's, or (with a grid) the frame's moved into the box. */
  predicate Moved(x: seq<Vec3>, f: Frame, wrap: BoxWrap, hasGrid: bool) {
    |x| == |f.x| && forall a :: 0 <= a < |x| ==> x[a] == f.x[a] || (hasGrid && x[a] == wrap(f.x[a], f.box))
  }

  /** `grid_store` for one atom (g_mydensity.c:319-320): with a grid the
      atom is moved into the box in place and deposited into its cell. */
  function GridPart(st: State, v: Visit, f: Frame, atoms: seq<Atom>, n: int, ngroups: nat, wrap: BoxWrap): (r: State)
    requires Ready(st, f.box, n, ngroups) && Moved(st.x, f, wrap, st.grid.Some?)
    requires v.group < ngroups && v.atom < |atoms| && v.atom < |st.x|
    ensures Ready(r, f.box, n, ngroups) && Kept(st, r) && Moved(r.x, f, wrap, st.grid.Some?)
    ensures r.bins == st.bins && r.dist == st.dist
    ensures r.x == st.x[v.atom := Seen(f.x[v.atom], f.box, wrap, st.grid.Some?)]
    ensures st.grid.Some? ==>
      GridMode.FitsGrid(st.grid.value, wrap(st.x[v.atom], f.box)) &&
      r.grid == GridMode.GridStore(st.grid, v.group, st.x[v.atom], f.box, wrap, atoms[v.atom].m).grid
  {
    if st.grid.None? then st
    else
      GridMode.WrappedAtomFitsGrid(st.grid.value, f.box, wrap, st.x[v.atom]);
      WrapIdempotent(wrap, f.x[v.atom], f.box);
      var gs := GridMode.GridStore(st.grid, v.group, st.x[v.atom], f.box, wrap, atoms[v.atom].m);
      st.(grid := gs.grid, x := st.x[v.atom := gs.atom])
  }

  /** `dist_store` for one atom (g_mydensity.c:321-322), on the positions as
      `grid_store` left them. */
  function DistPart(st: State, v: Visit, f: Frame, atoms: seq<Atom>, n: int, ngroups: nat, metric: Metric): (r: State)
    requires Ready(st, f.box, n, ngroups)
    requires v.group < ngroups && v.atom < |atoms| && v.atom < |st.x|
    ensures Ready(r, f.box, n, ngroups) && Kept(st, r)
    ensures r == st.(dist := r.dist)
    ensures r.dist == DistMode.DistStore(st.dist, v.group, v.atom, st.x, metric, atoms[v.atom].m)
  {
    st.(dist := DistMode.DistStore(st.dist, v.group, v.atom, st.x, metric, atoms[v.atom].m))
  }

  /** The slab deposit for one atom (g_mydensity.c:323-331), reading the
      coordinate `grid_store` may have moved. */
  function SlabPart(st: State, v: Visit, f: Frame, atoms: seq<Atom>, axis: Axis, n: int, ngroups: nat,
                    wrap: BoxWrap, hasGrid: bool): (r: State)
    requires Ready(st, f.box, n, ngroups)
    requires v.group < ngroups && v.atom < |atoms| && v.atom < |st.x| && v.atom < |f.x|
    requires st.x[v.atom] == Seen(f.x[v.atom], f.box, wrap, hasGrid)
    requires !hasGrid ==> Slab.FitsSlab(f.x[v.atom], f.box, axis)
    ensures Ready(r, f.box, n, ngroups) && r == st.(bins := r.bins)
    ensures forall g, s :: 0 <= g < ngroups && 0 <= s < n ==>
      r.bins[g][s] == st.bins[g][s] + Share(f, v, atoms, axis, n, hasGrid, wrap, g, s)
  {
    SlabStoreAddsShare(st.bins, v, st.x[v.atom], f, atoms, axis, n, ngroups, wrap, hasGrid);
    st.(bins := Slab.SlabStore(st.bins, v.group, st.x[v.atom], f.box, axis, n, atoms[v.atom].m))
  }

  /** The slab deposit at the position the step reads adds exactly the
      visit's share to every cell. */
  lemma SlabStoreAddsShare(bins: Table, v: Visit, pos: Vec3, f: Frame, atoms: seq<Atom>, axis: Axis, n: int, ngroups: nat,
                           wrap: BoxWrap, hasGrid: bool)
    requires PositiveBox(f.box) && n > 0 && Shaped(bins, ngroups, n)
    requires v.group < ngroups && v.atom < |atoms| && v.atom < |f.x|
    requires pos == Seen(f.x[v.atom], f.box, wrap, hasGrid)
    requires !hasGrid ==> Slab.FitsSlab(f.x[v.atom], f.box, axis)
    ensures Slab.FitsSlab(pos, f.box, axis)
    ensures var r := Slab.SlabStore(bins, v.group, pos, f.box, axis, n, atoms[v.atom].m);
      && Shaped(r, ngroups, n)
      && forall g, s :: 0 <= g < ngroups && 0 <= s < n ==>
           r[g][s] == bins[g][s] + Share(f, v, atoms, axis, n, hasGrid, wrap, g, s)
  {
    SlabSeesWrappedAtom(wrap, f.x[v.atom], f.box, axis);
    var r := Slab.SlabStore(bins, v.group, pos, f.box, axis, n, atoms[v.atom].m);
    forall g, s | 0 <= g < ngroups && 0 <= s < n
      ensures r[g][s] == bins[g][s] + Share(f, v, atoms, axis, n, hasGrid, wrap, g, s)
    {
      Slab.SlabStoreCell(bins, v.group, pos, f.box, axis, n, atoms[v.atom].m, g, s);
    }
  }

  /** One atom of g_mydensity.c:319-331: `grid_store` moves the atom into
      the box in place and deposits into its cell, `dist_store` bins it by
      its distance from the reference group using the positions as they now
      are, and the slab deposit reads the possibly moved coordinate. */
  function AtomStep(st: State, v: Visit, f: Frame, atoms: seq<Atom>, axis: Axis, n: int, ngroups: nat,
                    wrap: BoxWrap, metric: Metric): (r: State)
    requires Ready(st, f.box, n, ngroups) && Moved(st.x, f, wrap, st.grid.Some?)
    requires v.group < ngroups && v.atom < |atoms| && v.atom < |st.x|
    requires st.grid.None? ==> Slab.FitsSlab(f.x[v.atom], f.box, axis)
    ensures Ready(r, f.box, n, ngroups) && Kept(st, r) && Moved(r.x, f, wrap, st.grid.Some?)
    ensures r.x == st.x[v.atom := Seen(f.x[v.atom], f.box, wrap, st.grid.Some?)]
    ensures st.grid.Some? ==>
      GridMode.FitsGrid(st.grid.value, wrap(st.x[v.atom], f.box)) &&
      r.grid == GridMode.GridStore(st.grid, v.group, st.x[v.atom], f.box, wrap, atoms[v.atom].m).grid
    ensures r.dist == DistMode.DistStore(st.dist, v.group, v.atom, r.x, metric, atoms[v.atom].m)
    ensures forall g, s :: 0 <= g < ngroups && 0 <= s < n ==>
      r.bins[g][s] == st.bins[g][s] + Share(f, v, atoms, axis, n, st.grid.Some?, wrap, g, s)
  {
    var s1 := GridPart(st, v, f, atoms, n, ngroups, wrap);
    var s2 := DistPart(s1, v, f, atoms, n, ngroups, metric);
    SlabPart(s2, v, f, atoms, axis, n, ngroups, wrap, st.grid.Some?)
  }

  /** The inner loops of one frame (g_mydensity.c:317-335): the atoms are
      visited in order, each seeing the positions the earlier visits left. */
  function AtomLoop(st: State, vs: seq<Visit>, f: Frame, atoms: seq<Atom>, axis: Axis, n: int, ngroups: nat,
                    wrap: BoxWrap, metric: Metric): (r: State)
    requires Ready(st, f.box, n, ngroups) && Moved(st.x, f, wrap, st.grid.Some?)
    requires forall k :: 0 <= k < |vs| ==> vs[k].group < ngroups && vs[k].atom < |atoms| && vs[k].atom < |f.x|
    requires st.grid.None? ==> forall k :: 0 <= k < |vs| ==> Slab.FitsSlab(f.x[vs[k].atom], f.box, axis)
    ensures Ready(r, f.box, n, ngroups) && Kept(st, r) && Moved(r.x, f, wrap, st.grid.Some?)
    ensures forall g, s :: 0 <= g < ngroups && 0 <= s < n ==>
      r.bins[g][s] == st.bins[g][s] + FrameHistogram(f, vs, atoms, axis, n, st.grid.Some?, wrap, g, s)
    decreases |vs|
  {
    if |vs| == 0 then st
    else AtomLoop(AtomStep(st, vs[0], f, atoms, axis, n, ngroups, wrap, metric), vs[1..], f, atoms, axis, n, ngroups, wrap, metric)
  }

  /** `grid_store` adds exactly the visit's grid share to every cell: the
      atom may already have been moved into the box by an earlier visit,
      which does not change where it lands. */
  lemma AtomStepGrid(st: State, v: Visit, f: Frame, atoms: seq<Atom>, axis: Axis, n: int, ngroups: nat,
                     wrap: BoxWrap, metric: Metric)
    requires Ready(st, f.box, n, ngroups) && Moved(st.x, f, wrap, st.grid.Some?)
    requires v.group < ngroups && v.atom < |atoms| && v.atom < |st.x|
    requires st.grid.None? ==> Slab.FitsSlab(f.x[v.atom], f.box, axis)
    requires st.grid.Some?
    ensures var r := AtomStep(st, v, f, atoms, axis, n, ngroups, wrap, metric); var g := st.grid.value;
      forall h, i, j :: 0 <= h < ngroups && 0 <= i < g.shape[0] && 0 <= j < g.shape[1] ==>
        r.grid.value.grids[h][i][j] == g.grids[h][i][j] + GridShare(f, v, atoms, g.shape, g.axis, wrap, h, i, j)
  {
    var r := AtomStep(st, v, f, atoms, axis, n, ngroups, wrap, metric);
    var g := st.grid.value;
    assert st.grid == Some(g);
    assert st.x[v.atom] == f.x[v.atom] || st.x[v.atom] == wrap(f.x[v.atom], f.box);
    forall h, i, j | 0 <= h < ngroups && 0 <= i < g.shape[0] && 0 <= j < g.shape[1]
      ensures r.grid.value.grids[h][i][j] == g.grids[h][i][j] + GridShare(f, v, atoms, g.shape, g.axis, wrap, h, i, j)
    {
      GridStoreAddsShare(g, f, v, atoms, st.x[v.atom], wrap, h, i, j);
    }
  }

  /** `grid_store` on a started grid, for an atom at its frame position or
      already moved into the box, changes cell `(h, i, j)` by exactly the
      visit's grid share. */
  lemma GridStoreAddsShare(g: GridMode.Grid, f: Frame, v: Visit, atoms: seq<Atom>, pos: Vec3, wrap: BoxWrap, h: nat, i: nat, j: nat)
    requires g.Valid() && g.StartedFor(f.box) && v.group < g.ngroups && v.atom < |atoms| && v.atom < |f.x|
    requires pos == f.x[v.atom] || pos == wrap(f.x[v.atom], f.box)
    requires h < g.ngroups && i < g.shape[0] && j < g.shape[1]
    ensures GridMode.FitsGrid(g, wrap(pos, f.box))
    ensures GridMode.GridStore(Some(g), v.group, pos, f.box, wrap, atoms[v.atom].m).grid.value.grids[h][i][j]
            == g.grids[h][i][j] + GridShare(f, v, atoms, g.shape, g.axis, wrap, h, i, j)
  {
    var p := wrap(f.x[v.atom], f.box);
    assert wrap(pos, f.box) == p by {
      WrapIdempotent(wrap, f.x[v.atom], f.box);
    }
    GridMode.GridStoreCell(g, v.group, pos, f.box, wrap, atoms[v.atom].m, h, i, j);
  }

  /** `dist_store` adds exactly the visit's distance share to every bin,
      measured on the positions as `grid_store` left them. */
  lemma AtomStepDist(st: State, v: Visit, f: Frame, atoms: seq<Atom>, axis: Axis, n: int, ngroups: nat,
                     wrap: BoxWrap, metric: Metric)
    requires Ready(st, f.box, n, ngroups) && Moved(st.x, f, wrap, st.grid.Some?)
    requires v.group < ngroups && v.atom < |atoms| && v.atom < |st.x|
    requires st.grid.None? ==> Slab.FitsSlab(f.x[v.atom], f.box, axis)
    requires st.dist.Some?
    ensures var r := AtomStep(st, v, f, atoms, axis, n, ngroups, wrap, metric); var d := st.dist.value;
      && DistMode.RefsIn(d.refIndex, r.x)
      && forall h, k :: 0 <= h < ngroups && 0 <= k < d.length ==>
           r.dist.value.data[h][k] == d.data[h][k] + DistShare(f, r.x, v, atoms, ShellsOf(d), metric, h, k)
  {
    var r := AtomStep(st, v, f, atoms, axis, n, ngroups, wrap, metric);
    var d := st.dist.value;
    forall h, k | 0 <= h < ngroups && 0 <= k < d.length
      ensures r.dist.value.data[h][k] == d.data[h][k] + DistShare(f, r.x, v, atoms, ShellsOf(d), metric, h, k)
    {
      DistStoreAddsShare(d, f, v, r.x, atoms, metric, h, k);
    }
  }

  /** One `dist_store` on a started accumulator changes bin `(h, k)` by
      exactly the visit's share. */
  lemma DistStoreAddsShare(d: DistMode.Dist, f: Frame, v: Visit, x: seq<Vec3>, atoms: seq<Atom>, metric: Metric, h: nat, k: nat)
    requires d.Valid() && d.StartedFor(f.box) && DistMode.RefsIn(d.refIndex, x)
    requires v.group < d.ngroups && v.atom < |x| && v.atom < |atoms|
    requires h < d.ngroups && k < d.length
    ensures DistMode.DistStore(Some(d), v.group, v.atom, x, metric, atoms[v.atom].m).value.data[h][k]
            == d.data[h][k] + DistShare(f, x, v, atoms, ShellsOf(d), metric, h, k)
  {
    var r := DistMode.AtomDistance(d, v.atom, x, metric);
    var s := DistMode.Bin(d, r);
    if Slab.InSlice(r, k, d.width) {
      Slab.SliceContainsOnce(r, d.width, k, s);
    }
  }

  /** Over one frame every grid cell gains the frame's grid histogram. */
  lemma {:induction false} AtomLoopGrid(st: State, vs: seq<Visit>, f: Frame, atoms: seq<Atom>, axis: Axis, n: int, ngroups: nat,
                                        wrap: BoxWrap, metric: Metric)
    requires Ready(st, f.box, n, ngroups) && Moved(st.x, f, wrap, st.grid.Some?)
    requires forall k :: 0 <= k < |vs| ==> vs[k].group < ngroups && vs[k].atom < |atoms| && vs[k].atom < |f.x|
    requires st.grid.Some?
    ensures var r := AtomLoop(st, vs, f, atoms, axis, n, ngroups, wrap, metric); var g := st.grid.value;
      forall h, i, j :: 0 <= h < ngroups && 0 <= i < g.shape[0] && 0 <= j < g.shape[1] ==>
        r.grid.value.grids[h][i][j] == g.grids[h][i][j] + GridFrameHistogram(f, vs, atoms, g.shape, g.axis, wrap, h, i, j)
    decreases |vs|
  {
    if |vs| > 0 {
      var s1 := AtomStep(st, vs[0], f, atoms, axis, n, ngroups, wrap, metric);
      AtomStepGrid(st, vs[0], f, atoms, axis, n, ngroups, wrap, metric);
      AtomLoopGrid(s1, vs[1..], f, atoms, axis, n, ngroups, wrap, metric);
    }
  }

  /** Over one frame every distance bin gains the frame's distance histogram. */
  lemma {:induction false} AtomLoopDist(st: State, vs: seq<Visit>, f: Frame, atoms: seq<Atom>, axis: Axis, n: int, ngroups: nat,
                                        wrap: BoxWrap, metric: Metric)
    requires Ready(st, f.box, n, ngroups) && Moved(st.x, f, wrap, st.grid.Some?)
    requires forall k :: 0 <= k < |vs| ==> vs[k].group < ngroups && vs[k].atom < |atoms| && vs[k].atom < |f.x|
    requires st.grid.None? ==> forall k :: 0 <= k < |vs| ==> Slab.FitsSlab(f.x[vs[k].atom], f.box, axis)
    requires st.dist.Some?
    ensures var r := AtomLoop(st, vs, f, atoms, axis, n, ngroups, wrap, metric); var d := st.dist.value;
      forall h, k :: 0 <= h < ngroups && 0 <= k < d.length ==>
        r.dist.value.data[h][k] == d.data[h][k] + DistFrameHistogram(f, st.x, vs, atoms, ShellsOf(d), st.grid.Some?, wrap, metric, h, k)
    decreases |vs|
  {
    if |vs| > 0 {
      var s1 := AtomStep(st, vs[0], f, atoms, axis, n, ngroups, wrap, metric);
      AtomStepDist(st, vs[0], f, atoms, axis, n, ngroups, wrap, metric);
      AtomLoopDist(s1, vs[1..], f, atoms, axis, n, ngroups, wrap, metric);
    }
  }

  // ---------------------------------------------------------------------
  // The frame loop of calc_density
  // ---------------------------------------------------------------------

  /** The accumulators carried from frame to frame. */
  datatype Accumulators = Accumulators(bins: Table, grid: Option<GridMode.Grid>, dist: Option<DistMode.Dist>)

  /** The accumulators fit an `ngroups` x `n` profile along `axis`. */
  predicate Accepting(acc: Accumulators, axis: Axis, n: int, ngroups: nat) {
    && n > 0 && Shaped(acc.bins, ngroups, n)
    && (acc.grid.Some? ==> acc.grid.value.Valid() && acc.grid.value.ngroups == ngroups)
    && (acc.dist.Some? ==> acc.dist.value.Valid() && acc.dist.value.ngroups == ngroups && acc.dist.value.axis[0] == axis)
  }

  /** The reference group of the distance accumulator, if there is one. */
  function RefsOf(dist: Option<DistMode.Dist>): seq<nat> {
    if dist.Some? then dist.value.refIndex else []
  }

  /** The frame's box has positive edges and every visited atom has a
      topology entry and a position. */
  predicate Covers(f: Frame, vs: seq<Visit>, atoms: seq<Atom>) {
    && PositiveBox(f.box)
    && forall k :: 0 <= k < |vs| ==> vs[k].atom < |atoms| && vs[k].atom < |f.x|
  }

  /** What a frame must offer: a box with positive edges, a position for
      every visited and every reference atom, and, without a grid to move
      the atoms into the box first, slab writes that stay in range (the
      `while` loops of g_mydensity.c:324-327 leave a coordinate equal to
      the edge at the edge, one slice past the end). */
  predicate FrameFits(f: Frame, vs: seq<Visit>, atoms: seq<Atom>, axis: Axis, hasGrid: bool, refs: seq<nat>) {
    && Covers(f, vs, atoms)
    && (!hasGrid ==> forall k :: 0 <= k < |vs| ==> Slab.FitsSlab(f.x[vs[k].atom], f.box, axis))
    && DistMode.RefsIn(refs, f.x)
  }

  /** The sum over the frames of one box edge. */
  function EdgeSum(frames: seq<Frame>, a: Axis): real {
    if |frames| == 0 then 0.0 else frames[0].box.At(a) + EdgeSum(frames[1..], a)
  }

  /** The sum over the frames of the distance profile's radius. */
  function MaxDistanceSum(frames: seq<Frame>, b3D: bool, normal: int): real {
    if |frames| == 0 then 0.0 else DistMode.MaxDistance(frames[0].box, b3D, normal) + MaxDistanceSum(frames[1..], b3D, normal)
  }

  /** The grid `b` is `a` after `frames` more frames: same shape and axes,
      the frame count and the in-plane edge sums advanced. */
  predicate GridAdvanced(a: Option<GridMode.Grid>, b: Option<GridMode.Grid>, frames: seq<Frame>) {
    && (a.None? <==> b.None?)
    && (a.Some? ==> a.value.Valid() ==>
          var g, h := a.value, b.value;
          && h.Valid() && h.shape == g.shape && h.axis == g.axis && h.ngroups == g.ngroups && h.dens == g.dens
          && h.nframes == g.nframes + |frames|
          && h.boxWidth == [g.boxWidth[0] + EdgeSum(frames, g.axis[1]), g.boxWidth[1] + EdgeSum(frames, g.axis[2])])
  }

  /** The distance accumulator `b` is `a` after `frames` more frames. */
  predicate DistAdvanced(a: Option<DistMode.Dist>, b: Option<DistMode.Dist>, frames: seq<Frame>) {
    && (a.None? <==> b.None?)
    && (a.Some? ==> a.value.Valid() ==>
          var d, e := a.value, b.value;
          && e.Valid() && e.length == d.length && e.axis == d.axis && e.ngroups == d.ngroups && e.dens == d.dens
          && e.refIndex == d.refIndex && e.b3D == d.b3D
          && e.nframes == d.nframes + |frames|
          && e.boxWidth == d.boxWidth + MaxDistanceSum(frames, d.b3D, d.axis[0]))
  }

  /** The sums over a single frame are that frame's values. */
  lemma SingleFrameSums(f: Frame, b3D: bool, normal: int)
    ensures forall a: Axis :: EdgeSum([f], a) == f.box.At(a)
    ensures MaxDistanceSum([f], b3D, normal) == DistMode.MaxDistance(f.box, b3D, normal)
  {
    assert [f][1..] == [];
  }

  /** `grid_start_frame` and `dist_start_frame` (g_mydensity.c:310-311):
      the state the atoms of frame `f` are visited in. */
  function StartFrame(acc: Accumulators, f: Frame, axis: Axis, n: int, ngroups: nat): (st: State)
    requires Accepting(acc, axis, n, ngroups) && PositiveBox(f.box) && DistMode.RefsIn(RefsOf(acc.dist), f.x)
    ensures Ready(st, f.box, n, ngroups) && st.bins == acc.bins && st.x == f.x
    ensures GridAdvanced(acc.grid, st.grid, [f]) && DistAdvanced(acc.dist, st.dist, [f])
    ensures acc.grid.Some? ==> st.grid.value.grids == acc.grid.value.grids
    ensures acc.dist.Some? ==> st.dist.value.data == acc.dist.value.data
  {
    SingleFrameSums(f, if acc.dist.Some? then acc.dist.value.b3D else false, if acc.dist.Some? then acc.dist.value.axis[0] else 0);
    State(acc.bins, GridMode.GridStartFrame(acc.grid, f.box), DistMode.DistStartFrame(acc.dist, f.box), f.x)
  }

  /** The deposits leave the frame counts and edge sums alone. */
  lemma KeptAdvanced(acc: Accumulators, st: State, r: State, f: Frame)
    requires GridAdvanced(acc.grid, st.grid, [f]) && DistAdvanced(acc.dist, st.dist, [f])
    requires Kept(st, r)
    requires st.grid.Some? ==> r.grid.value.Valid()
    requires st.dist.Some? ==> r.dist.value.Valid()
    ensures GridAdvanced(acc.grid, r.grid, [f]) && DistAdvanced(acc.dist, r.dist, [f])
  {
  }

  /** One pass of the `do ... while` of g_mydensity.c:300-337 on frame `f`. */
  function FrameStep(acc: Accumulators, f: Frame, vs: seq<Visit>, atoms: seq<Atom>, axis: Axis, n: int, ngroups: nat,
                     wrap: BoxWrap, metric: Metric): (r: Accumulators)
    requires Accepting(acc, axis, n, ngroups)
    requires forall k :: 0 <= k < |vs| ==> vs[k].group < ngroups
    requires FrameFits(f, vs, atoms, axis, acc.grid.Some?, RefsOf(acc.dist))
    ensures Accepting(r, axis, n, ngroups)
    ensures GridAdvanced(acc.grid, r.grid, [f]) && DistAdvanced(acc.dist, r.dist, [f])
    ensures forall g, s :: 0 <= g < ngroups && 0 <= s < n ==>
      r.bins[g][s] == acc.bins[g][s] + FrameHistogram(f, vs, atoms, axis, n, acc.grid.Some?, wrap, g, s)
  {
    var st := StartFrame(acc, f, axis, n, ngroups);
    var r := AtomLoop(st, vs, f, atoms, axis, n, ngroups, wrap, metric);
    KeptAdvanced(acc, st, r, f);
    Accumulators(r.bins, r.grid, r.dist)
  }

  /** The reference for a whole trajectory: cell `(g, s)` collects every
      frame's histogram. */
  function Histogram(frames: seq<Frame>, vs: seq<Visit>, atoms: seq<Atom>, axis: Axis, n: int, hasGrid: bool, wrap: BoxWrap,
                     g: nat, s: nat): real
    requires n > 0 && forall i :: 0 <= i < |frames| ==> Covers(frames[i], vs, atoms)
  {
    if |frames| == 0 then 0.0
    else FrameHistogram(frames[0], vs, atoms, axis, n, hasGrid, wrap, g, s) + Histogram(frames[1..], vs, atoms, axis, n, hasGrid, wrap, g, s)
  }

  /** Advancing over one frame and then over the rest is advancing over all. */
  lemma AdvancedCompose(a: Accumulators, b: Accumulators, c: Accumulators, frames: seq<Frame>)
    requires |frames| > 0
    requires a.grid.Some? ==> a.grid.value.Valid()
    requires a.dist.Some? ==> a.dist.value.Valid()
    requires GridAdvanced(a.grid, b.grid, [frames[0]]) && DistAdvanced(a.dist, b.dist, [frames[0]])
    requires GridAdvanced(b.grid, c.grid, frames[1..]) && DistAdvanced(b.dist, c.dist, frames[1..])
    ensures GridAdvanced(a.grid, c.grid, frames) && DistAdvanced(a.dist, c.dist, frames)
  {
    SingleFrameSums(frames[0], if a.dist.Some? then a.dist.value.b3D else false, if a.dist.Some? then a.dist.value.axis[0] else 0);
  }

  /** Over one frame every grid cell gains the frame's grid histogram. */
  lemma FrameStepGrid(acc: Accumulators, f: Frame, vs: seq<Visit>, atoms: seq<Atom>, axis: Axis, n: int, ngroups: nat,
                      wrap: BoxWrap, metric: Metric)
    requires Accepting(acc, axis, n, ngroups)
    requires forall k :: 0 <= k < |vs| ==> vs[k].group < ngroups
    requires FrameFits(f, vs, atoms, axis, acc.grid.Some?, RefsOf(acc.dist))
    requires acc.grid.Some?
    ensures var r := FrameStep(acc, f, vs, atoms, axis, n, ngroups, wrap, metric); var g := acc.grid.value;
      forall h, i, j :: 0 <= h < ngroups && 0 <= i < g.shape[0] && 0 <= j < g.shape[1] ==>
        r.grid.value.grids[h][i][j] == g.grids[h][i][j] + GridFrameHistogram(f, vs, atoms, g.shape, g.axis, wrap, h, i, j)
  {
    var st := StartFrame(acc, f, axis, n, ngroups);
    AtomLoopGrid(st, vs, f, atoms, axis, n, ngroups, wrap, metric);
  }

  /** Over one frame every distance bin gains the frame's distance histogram,
      starting from the frame's own positions. */
  lemma FrameStepDist(acc: Accumulators, f: Frame, vs: seq<Visit>, atoms: seq<Atom>, axis: Axis, n: int, ngroups: nat,
                      wrap: BoxWrap, metric: Metric)
    requires Accepting(acc, axis, n, ngroups)
    requires forall k :: 0 <= k < |vs| ==> vs[k].group < ngroups
    requires FrameFits(f, vs, atoms, axis, acc.grid.Some?, RefsOf(acc.dist))
    requires acc.dist.Some?
    ensures var r := FrameStep(acc, f, vs, atoms, axis, n, ngroups, wrap, metric); var d := acc.dist.value;
      forall h, k :: 0 <= h < ngroups && 0 <= k < d.length ==>
        r.dist.value.data[h][k] == d.data[h][k] + DistFrameHistogram(f, f.x, vs, atoms, ShellsOf(d), acc.grid.Some?, wrap, metric, h, k)
  {
    var st := StartFrame(acc, f, axis, n, ngroups);
    assert ShellsOf(st.dist.value) == ShellsOf(acc.dist.value);
    AtomLoopDist(st, vs, f, atoms, axis, n, ngroups, wrap, metric);
  }

  /** The grid reference for a whole trajectory: cell `(g, i, j)` collects
      every frame's grid histogram. */
  function GridHistogram(frames: seq<Frame>, vs: seq<Visit>, atoms: seq<Atom>, shape: seq<int>, plane: seq<Axis>, wrap: BoxWrap,
                         g: nat, i: nat, j: nat): real
    requires |shape| == 2 && shape[0] > 0 && shape[1] > 0 && |plane| == 3
    requires forall f :: 0 <= f < |frames| ==> Covers(frames[f], vs, atoms)
  {
    if |frames| == 0 then 0.0
    else GridFrameHistogram(frames[0], vs, atoms, shape, plane, wrap, g, i, j) + GridHistogram(frames[1..], vs, atoms, shape, plane, wrap, g, i, j)
  }

  /** The distance reference for a whole trajectory: bin `(g, k)` collects
      every frame's distance histogram, each frame starting from its own
      positions. */
  function DistHistogram(frames: seq<Frame>, vs: seq<Visit>, atoms: seq<Atom>, sh: Shells, hasGrid: bool, wrap: BoxWrap,
                         metric: Metric, g: nat, k: nat): real
    requires sh.length > 0
    requires forall f :: 0 <= f < |frames| ==> Covers(frames[f], vs, atoms) && DistMode.RefsIn(sh.refs, frames[f].x)
  {
    if |frames| == 0 then 0.0
    else DistFrameHistogram(frames[0], frames[0].x, vs, atoms, sh, hasGrid, wrap, metric, g, k)
         + DistHistogram(frames[1..], vs, atoms, sh, hasGrid, wrap, metric, g, k)
  }

  /** The `do ... while` over every frame (g_mydensity.c:300-337). */
  function Frames(acc: Accumulators, frames: seq<Frame>, vs: seq<Visit>, atoms: seq<Atom>, axis: Axis, n: int, ngroups: nat,
                  wrap: BoxWrap, metric: Metric): (r: Accumulators)
    requires Accepting(acc, axis, n, ngroups)
    requires forall k :: 0 <= k < |vs| ==> vs[k].group < ngroups
    requires forall i :: 0 <= i < |frames| ==>
      Covers(frames[i], vs, atoms) && FrameFits(frames[i], vs, atoms, axis, acc.grid.Some?, RefsOf(acc.dist))
    ensures Accepting(r, axis, n, ngroups)
    ensures GridAdvanced(acc.grid, r.grid, frames) && DistAdvanced(acc.dist, r.dist, frames)
    decreases |frames|
  {
    if |frames| == 0 then acc
    else
      var a1 := FrameStep(acc, frames[0], vs, atoms, axis, n, ngroups, wrap, metric);
      var r := Frames(a1, frames[1..], vs, atoms, axis, n, ngroups, wrap, metric);
      AdvancedCompose(acc, a1, r, frames);
      r
  }

  /** Over the frames, every slab cell collects its histogram. */
  lemma {:induction false} FramesSum(acc: Accumulators, frames: seq<Frame>, vs: seq<Visit>, atoms: seq<Atom>, axis: Axis,
                                     n: int, ngroups: nat, wrap: BoxWrap, metric: Metric)
    requires Accepting(acc, axis, n, ngroups)
    requires forall k :: 0 <= k < |vs| ==> vs[k].group < ngroups
    requires forall i :: 0 <= i < |frames| ==>
      Covers(frames[i], vs, atoms) && FrameFits(frames[i], vs, atoms, axis, acc.grid.Some?, RefsOf(acc.dist))
    ensures var r := Frames(acc, frames, vs, atoms, axis, n, ngroups, wrap, metric);
      forall g, s :: 0 <= g < ngroups && 0 <= s < n ==>
        r.bins[g][s] == acc.bins[g][s] + Histogram(frames, vs, atoms, axis, n, acc.grid.Some?, wrap, g, s)
    decreases |frames|
  {
    if |frames| > 0 {
      var a1 := FrameStep(acc, frames[0], vs, atoms, axis, n, ngroups, wrap, metric);
      FramesSum(a1, frames[1..], vs, atoms, axis, n, ngroups, wrap, metric);
    }
  }

  /** Over the frames, every grid cell collects its grid histogram. */
  lemma {:induction false} FramesGrid(acc: Accumulators, frames: seq<Frame>, vs: seq<Visit>, atoms: seq<Atom>, axis: Axis,
                                      n: int, ngroups: nat, wrap: BoxWrap, metric: Metric)
    requires Accepting(acc, axis, n, ngroups)
    requires forall k :: 0 <= k < |vs| ==> vs[k].group < ngroups
    requires forall i :: 0 <= i < |frames| ==>
      Covers(frames[i], vs, atoms) && FrameFits(frames[i], vs, atoms, axis, acc.grid.Some?, RefsOf(acc.dist))
    requires acc.grid.Some?
    ensures var r := Frames(acc, frames, vs, atoms, axis, n, ngroups, wrap, metric); var g := acc.grid.value;
      forall h, i, j :: 0 <= h < ngroups && 0 <= i < g.shape[0] && 0 <= j < g.shape[1] ==>
        r.grid.value.grids[h][i][j] == g.grids[h][i][j] + GridHistogram(frames, vs, atoms, g.shape, g.axis, wrap, h, i, j)
    decreases |frames|
  {
    if |frames| > 0 {
      var a1 := FrameStep(acc, frames[0], vs, atoms, axis, n, ngroups, wrap, metric);
      FrameStepGrid(acc, frames[0], vs, atoms, axis, n, ngroups, wrap, metric);
      FramesGrid(a1, frames[1..], vs, atoms, axis, n, ngroups, wrap, metric);
    }
  }

  /** Over the frames, every distance bin collects its distance histogram. */
  lemma {:induction false} FramesDist(acc: Accumulators, frames: seq<Frame>, vs: seq<Visit>, atoms: seq<Atom>, axis: Axis,
                                      n: int, ngroups: nat, wrap: BoxWrap, metric: Metric)
    requires Accepting(acc, axis, n, ngroups)
    requires forall k :: 0 <= k < |vs| ==> vs[k].group < ngroups
    requires forall i :: 0 <= i < |frames| ==>
      Covers(frames[i], vs, atoms) && FrameFits(frames[i], vs, atoms, axis, acc.grid.Some?, RefsOf(acc.dist))
    requires acc.dist.Some?
    ensures var r := Frames(acc, frames, vs, atoms, axis, n, ngroups, wrap, metric); var d := acc.dist.value;
      forall h, k :: 0 <= h < ngroups && 0 <= k < d.length ==>
        r.dist.value.data[h][k] == d.data[h][k] + DistHistogram(frames, vs, atoms, ShellsOf(d), acc.grid.Some?, wrap, metric, h, k)
    decreases |frames|
  {
    if |frames| > 0 {
      var a1 := FrameStep(acc, frames[0], vs, atoms, axis, n, ngroups, wrap, metric);
      FrameStepDist(acc, frames[0], vs, atoms, axis, n, ngroups, wrap, metric);
      assert ShellsOf(a1.dist.value) == ShellsOf(acc.dist.value);
      FramesDist(a1, frames[1..], vs, atoms, axis, n, ngroups, wrap, metric);
    }
  }

  /** Over the frames, the grid and the distance accumulator each collect
      their histograms. */
  lemma FramesCollect(acc: Accumulators, frames: seq<Frame>, vs: seq<Visit>, atoms: seq<Atom>, axis: Axis,
                      n: int, ngroups: nat, wrap: BoxWrap, metric: Metric)
    requires Accepting(acc, axis, n, ngroups)
    requires forall k :: 0 <= k < |vs| ==> vs[k].group < ngroups
    requires forall i :: 0 <= i < |frames| ==>
      Covers(frames[i], vs, atoms) && FrameFits(frames[i], vs, atoms, axis, acc.grid.Some?, RefsOf(acc.dist))
    ensures var r := Frames(acc, frames, vs, atoms, axis, n, ngroups, wrap, metric);
      && GridCollected(acc.grid, r.grid, frames, vs, atoms, wrap)
      && DistCollected(acc.dist, r.dist, frames, vs, atoms, acc.grid.Some?, wrap, metric)
  {
    if acc.grid.Some? {
      FramesGrid(acc, frames, vs, atoms, axis, n, ngroups, wrap, metric);
    }
    if acc.dist.Some? {
      FramesDist(acc, frames, vs, atoms, axis, n, ngroups, wrap, metric);
    }
  }

  // ---------------------------------------------------------------------
  // calc_density
  // ---------------------------------------------------------------------

  /** What `calc_density` hands back: the profile divided by the frame
      count, the per-frame sums it was divided from, the slice count and
      width (of the last frame), the frame count, and the grid and
      distance accumulators as the last frame left them: the files
      `grid_end` and `dist_end` write are `GridMode.GridEnd(finalGrid)` and
      `DistMode.DistEnd(finalDist)`. */
  datatype Profile = Profile(
    density: Table,
    sums: Table,
    nslices: int,
    slWidth: real,
    nframes: nat,
    finalGrid: Option<GridMode.Grid>,
    finalDist: Option<DistMode.Dist>)

  /** Every frame fits the `n`-slice profile of the groups of `index`. */
  predicate Runnable(frames: seq<Frame>, index: seq<seq<nat>>, atoms: seq<Atom>, axis: Axis, n: int, hasGrid: bool, refs: seq<nat>) {
    && n > 0
    && forall i :: 0 <= i < |frames| ==>
         Covers(frames[i], Visits(index), atoms) && FrameFits(frames[i], Visits(index), atoms, axis, hasGrid, refs)
  }

  /** After the last frame (g_mydensity.c:340-357): the accumulators are
      handed to `grid_end` and `dist_end`, and every slab bin is divided by
      the frame count. */
  function Finish(acc: Accumulators, frames: seq<Frame>, axis: Axis, n: int): (p: Profile)
    requires |frames| > 0 && n > 0 && PositiveBox(frames[|frames| - 1].box)
    requires acc.grid.Some? ==> acc.grid.value.Valid() && acc.grid.value.nframes > 0
    requires acc.dist.Some? ==> acc.dist.value.Valid() && acc.dist.value.nframes > 0
    ensures p.sums == acc.bins && p.nslices == n && p.nframes == |frames|
    ensures p.density == Slab.Finalize(acc.bins, |frames|)
    ensures p.slWidth == Slab.SliceWidth(frames[|frames| - 1].box.At(axis), n)
    ensures p.finalGrid == acc.grid
    ensures p.finalDist == acc.dist
  {
    Profile(Slab.Finalize(acc.bins, |frames|), acc.bins, n, Slab.SliceWidth(frames[|frames| - 1].box.At(axis), n), |frames|,
            acc.grid, acc.dist)
  }

  /** The grid `b` is `a` with every cell's grid histogram over `frames`
      added: what `grid_store` deposited over the whole run. */
  predicate GridCollected(a: Option<GridMode.Grid>, b: Option<GridMode.Grid>, frames: seq<Frame>, vs: seq<Visit>,
                          atoms: seq<Atom>, wrap: BoxWrap)
    requires forall i :: 0 <= i < |frames| ==> Covers(frames[i], vs, atoms)
  {
    a.Some? && a.value.Valid() ==>
      var g := a.value;
      && b.Some? && b.value.Valid() && b.value.shape == g.shape && b.value.ngroups == g.ngroups
      && forall h, i, j :: 0 <= h < g.ngroups && 0 <= i < g.shape[0] && 0 <= j < g.shape[1] ==>
           b.value.grids[h][i][j] == g.grids[h][i][j] + GridHistogram(frames, vs, atoms, g.shape, g.axis, wrap, h, i, j)
  }

  /** The distance accumulator `b` is `a` with every bin's distance
      histogram over `frames` added: what `dist_store` deposited over the
      whole run. */
  predicate DistCollected(a: Option<DistMode.Dist>, b: Option<DistMode.Dist>, frames: seq<Frame>, vs: seq<Visit>,
                          atoms: seq<Atom>, hasGrid: bool, wrap: BoxWrap, metric: Metric)
    requires forall i :: 0 <= i < |frames| ==> Covers(frames[i], vs, atoms) && DistMode.RefsIn(RefsOf(a), frames[i].x)
  {
    a.Some? && a.value.Valid() && 0 <= a.value.axis[0] < 3 ==>
      var d := a.value;
      assert ShellsOf(d).refs == RefsOf(a);
      && b.Some? && b.value.Valid() && b.value.length == d.length && b.value.ngroups == d.ngroups
      && forall h, k :: 0 <= h < d.ngroups && 0 <= k < d.length ==>
           b.value.data[h][k] == d.data[h][k] + DistHistogram(frames, vs, atoms, ShellsOf(d), hasGrid, wrap, metric, h, k)
  }

  /** The grid and distance accumulators of a run, as `grid_end` and
      `dist_end` receive them: advanced over every frame, with every cell
      and bin holding its histogram over the run. */
  predicate OutputsMatch(p: Profile, frames: seq<Frame>, index: seq<seq<nat>>, atoms: seq<Atom>,
                         grid: Option<GridMode.Grid>, dist: Option<DistMode.Dist>, wrap: BoxWrap, metric: Metric)
    requires forall i :: 0 <= i < |frames| ==> Covers(frames[i], Visits(index), atoms) && DistMode.RefsIn(RefsOf(dist), frames[i].x)
  {
    && GridAdvanced(grid, p.finalGrid, frames) && DistAdvanced(dist, p.finalDist, frames)
    && (p.finalGrid.Some? ==> p.finalGrid.value.Valid() && p.finalGrid.value.nframes > 0)
    && (p.finalDist.Some? ==> p.finalDist.value.Valid() && p.finalDist.value.nframes > 0)
    && GridCollected(grid, p.finalGrid, frames, Visits(index), atoms, wrap)
    && DistCollected(dist, p.finalDist, frames, Visits(index), atoms, grid.Some?, wrap, metric)
  }

  /** The slab profile of a run: shaped `ngroups` x `n`, each sum the
      cell's histogram over all frames, the densities those sums divided by
      the frame count, and the slice width that of the last frame. */
  predicate ProfileMatches(p: Profile, frames: seq<Frame>, index: seq<seq<nat>>, atoms: seq<Atom>, axis: Axis, n: int,
                           hasGrid: bool, wrap: BoxWrap)
    requires n > 0 && forall i :: 0 <= i < |frames| ==> Covers(frames[i], Visits(index), atoms)
  {
    && |frames| > 0
    && p.nslices == n && p.nframes == |frames|
    && PositiveBox(frames[|frames| - 1].box)
    && p.slWidth == Slab.SliceWidth(frames[|frames| - 1].box.At(axis), n)
    && Shaped(p.sums, |index|, n)
    && (forall g, s :: 0 <= g < |index| && 0 <= s < n ==>
          p.sums[g][s] == Histogram(frames, Visits(index), atoms, axis, n, hasGrid, wrap, g, s))
    && p.density == Slab.Finalize(p.sums, |frames|)
  }

  /** The frame loop and the final division for an `n`-slice profile. */
  function RunFrames(frames: seq<Frame>, index: seq<seq<nat>>, atoms: seq<Atom>, axis: Axis, n: int,
                     grid: Option<GridMode.Grid>, dist: Option<DistMode.Dist>, wrap: BoxWrap, metric: Metric): (p: Profile)
    requires |frames| > 0
    requires grid.Some? ==> grid.value.Valid() && grid.value.ngroups == |index|
    requires dist.Some? ==> dist.value.Valid() && dist.value.ngroups == |index| && dist.value.axis[0] == axis
    requires Runnable(frames, index, atoms, axis, n, grid.Some?, RefsOf(dist))
    ensures ProfileMatches(p, frames, index, atoms, axis, n, grid.Some?, wrap)
    ensures OutputsMatch(p, frames, index, atoms, grid, dist, wrap, metric)
  {
    RunOutputs(frames, index, atoms, axis, n, grid, dist, wrap, metric);
    RunProfile(frames, index, atoms, axis, n, grid, dist, wrap, metric);
    Finish(Frames(Accumulators(Zeros(|index|, n), grid, dist), frames, Visits(index), atoms, axis, n, |index|, wrap, metric),
           frames, axis, n)
  }

  /** The slab half of `RunFrames`. */
  lemma RunProfile(frames: seq<Frame>, index: seq<seq<nat>>, atoms: seq<Atom>, axis: Axis, n: int,
                   grid: Option<GridMode.Grid>, dist: Option<DistMode.Dist>, wrap: BoxWrap, metric: Metric)
    requires |frames| > 0
    requires grid.Some? ==> grid.value.Valid() && grid.value.ngroups == |index|
    requires dist.Some? ==> dist.value.Valid() && dist.value.ngroups == |index| && dist.value.axis[0] == axis
    requires Runnable(frames, index, atoms, axis, n, grid.Some?, RefsOf(dist))
    ensures var acc0 := Accumulators(Zeros(|index|, n), grid, dist);
      ProfileMatches(Finish(Frames(acc0, frames, Visits(index), atoms, axis, n, |index|, wrap, metric), frames, axis, n),
                     frames, index, atoms, axis, n, grid.Some?, wrap)
  {
    var acc0 := Accumulators(Zeros(|index|, n), grid, dist);
    FramesSum(acc0, frames, Visits(index), atoms, axis, n, |index|, wrap, metric);
  }

  /** The grid and distance half of `RunFrames`. */
  lemma RunOutputs(frames: seq<Frame>, index: seq<seq<nat>>, atoms: seq<Atom>, axis: Axis, n: int,
                   grid: Option<GridMode.Grid>, dist: Option<DistMode.Dist>, wrap: BoxWrap, metric: Metric)
    requires |frames| > 0
    requires grid.Some? ==> grid.value.Valid() && grid.value.ngroups == |index|
    requires dist.Some? ==> dist.value.Valid() && dist.value.ngroups == |index| && dist.value.axis[0] == axis
    requires Runnable(frames, index, atoms, axis, n, grid.Some?, RefsOf(dist))
    ensures var acc0 := Accumulators(Zeros(|index|, n), grid, dist);
      OutputsMatch(Finish(Frames(acc0, frames, Visits(index), atoms, axis, n, |index|, wrap, metric), frames, axis, n),
                   frames, index, atoms, grid, dist, wrap, metric)
  {
    var acc0 := Accumulators(Zeros(|index|, n), grid, dist);
    FramesCollect(acc0, frames, Visits(index), atoms, axis, n, |index|, wrap, metric);
  }

  /** The slice count the run uses and the `snew` of one row per group that
      follows (g_mydensity.c:284-291, 177-183): a negative count cannot be
      allocated once there is a group to allocate it for. */
  predicate AllocationFails(n: int, index: seq<seq<nat>>) {
    n < 0 && |index| > 0
  }

  /** `calc_density` (g_mydensity.c:254-360): an invalid axis, an empty
      trajectory and a slice count the profile rows cannot be allocated
      with are fatal, in that order; a zero slice count takes its default
      from the first frame. Every slab cell ends up as its histogram over
      all frames divided by the frame count, and every grid cell and
      distance bin as its histogram over all frames. */
  function CalcDensity(frames: seq<Frame>, index: seq<seq<nat>>, atoms: seq<Atom>, nslices: int, axis: int,
                       grid: Option<GridMode.Grid>, dist: Option<DistMode.Dist>, wrap: BoxWrap, metric: Metric): (r: Result<Profile>)
    requires grid.Some? ==> grid.value.Valid() && grid.value.ngroups == |index|
    requires dist.Some? ==> dist.value.Valid() && dist.value.ngroups == |index| && dist.value.axis[0] == axis
    requires 0 <= axis < 3 && |frames| > 0 && !AllocationFails(Options.DefaultSlices(nslices, frames[0].box.At(axis)), index) ==>
      Runnable(frames, index, atoms, axis, Options.DefaultSlices(nslices, frames[0].box.At(axis)), grid.Some?, RefsOf(dist))
    ensures r.Fail? <==>
      || !(0 <= axis < 3) || |frames| == 0
      || AllocationFails(Options.DefaultSlices(nslices, frames[0].box.At(axis)), index)
    ensures !(0 <= axis < 3) ==> r == Fail(InvalidAxis)
    ensures 0 <= axis < 3 && |frames| == 0 ==> r == Fail(NoCoordinates)
    ensures 0 <= axis < 3 && |frames| > 0 && AllocationFails(Options.DefaultSlices(nslices, frames[0].box.At(axis)), index) ==>
      r == Fail(OutOfMemory)
    ensures r.Ok? ==>
      0 <= axis < 3 && |frames| > 0 &&
      ProfileMatches(r.value, frames, index, atoms, axis, Options.DefaultSlices(nslices, frames[0].box.At(axis)), grid.Some?, wrap)
    ensures r.Ok? ==> OutputsMatch(r.value, frames, index, atoms, grid, dist, wrap, metric)
  {
    if !(0 <= axis < 3) then Fail(InvalidAxis)
    else if |frames| == 0 then Fail(NoCoordinates)
    else if AllocationFails(Options.DefaultSlices(nslices, frames[0].box.At(axis)), index) then Fail(OutOfMemory)
    else Ok(RunFrames(frames, index, atoms, axis, Options.DefaultSlices(nslices, frames[0].box.At(axis)), grid, dist, wrap, metric))
  }

  /** With a grid fresh from `build_grids` and advanced to `h` over the
      frames, the widths `grid_end` writes for `h` (its report `rep`) are
      the in-plane box edges summed over the trajectory, divided by the
      number of frames. */
  lemma FreshGridReportsMeanEdges(g: GridMode.Grid, h: GridMode.Grid, frames: seq<Frame>, rep: GridMode.GridReport)
    requires g.Valid() && g.nframes == 0 && g.boxWidth == [0.0, 0.0]
    requires GridAdvanced(Some(g), Some(h), frames)
    requires h.Valid() && h.nframes > 0 && GridMode.Layout(h, rep)
    ensures h.nframes == |frames|
    ensures |rep.lines| > 1 && rep.lines[0].XWidth? && rep.lines[1].YWidth?
    ensures rep.lines[0].w * h.nframes as real == EdgeSum(frames, g.axis[1])
    ensures rep.lines[1].w * h.nframes as real == EdgeSum(frames, g.axis[2])
  {
    assert h.nframes == |frames|;
    assert h.boxWidth == [EdgeSum(frames, g.axis[1]), EdgeSum(frames, g.axis[2])];
    assert rep.lines[0].w * h.nframes as real == h.boxWidth[0];
    assert rep.lines[1].w * h.nframes as real == h.boxWidth[1];
  }

  /** With a distance accumulator fresh from `build_dist` and advanced to
      `e` over the frames, the radius `dist_end` writes for `e` (in its
      report `rep`) is the frames' radii summed, divided by the number of
      frames. */
  lemma FreshDistReportsMeanRadius(d: DistMode.Dist, e: DistMode.Dist, frames: seq<Frame>, rep: DistMode.DistReport)
    requires d.Valid() && d.nframes == 0 && d.boxWidth == 0.0
    requires DistAdvanced(Some(d), Some(e), frames)
    requires e.Valid() && e.nframes > 0 && rep.meanMaxDist * e.nframes as real == e.boxWidth
    ensures e.nframes == |frames|
    ensures rep.meanMaxDist * e.nframes as real == MaxDistanceSum(frames, d.b3D, d.axis[0])
  {
  }
}
