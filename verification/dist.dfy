/** The distance-profile accumulator of `-od`: every atom of a group is
    binned by its minimum distance to a reference group (in the plane normal
    to the chosen axis, or in 3D), into `length` shells or annuli out to half
    the smallest box edge; each deposit is the atom's weight divided by the
    volume of its shell, and at the end every bin is divided by the frame
    count. */
module DistMode {
  import opened Common
  import Slab

  /** The `DistMode` record without the centre-of-mass fields and the output
      file handle. `axis` holds the normal axis and the axis excluded from
      distances (`-1` in 3D); `refIndex` is the reference group. */
  datatype Dist = Dist(
    data: Table,
    length: int,
    width: real,
    axis: seq<int>,
    boxWidth: real,
    nframes: nat,
    ngroups: nat,
    dens: char,
    refIndex: seq<nat>,
    maxDist: real,
    height: real,
    b3D: bool)
  {
    predicate Valid() {
      && length > 0 && |axis| == 2
      && Shaped(data, ngroups, length)
    }

    /** `dist_start_frame` has set the radius, width and height for a box. */
    predicate Started()
      requires Valid()
    {
      && maxDist > 0.0 && height > 0.0
      && width == Slab.SliceWidth(maxDist, length)
    }

    /** `dist_start_frame` has set the radius and height for this frame's `box`. */
    predicate StartedFor(box: Vec3)
      requires Valid()
    {
      && PositiveBox(box) && 0 <= axis[0] < 3
      && Started()
      && maxDist == MaxDistance(box, b3D, axis[0])
      && height == box.At(axis[0])
    }
  }

  /** `build_dist` (dist_mode.c:41-111): a non-positive length is fatal;
      otherwise every counter, width, radius and bin starts at zero and the
      excluded axis is `-1` in 3D, the normal axis in 2D. The axis itself is
      not checked here. */
  function BuildDist(length: int, normal: int, ngroups: nat, dens: char, refIndex: seq<nat>, b3D: bool): (r: Result<Dist>)
    ensures r.Fail? <==> length <= 0
    ensures r.Fail? ==> r.error == BadProfileLength
    ensures r.Ok? ==> var d := r.value;
      && d.Valid() && d.length == length && d.ngroups == ngroups && d.dens == dens
      && d.refIndex == refIndex && d.b3D == b3D
      && d.nframes == 0 && d.width == 0.0 && d.boxWidth == 0.0 && d.maxDist == 0.0 && d.height == 0.0
      && d.axis == [normal, if b3D then -1 else normal]
      && forall g, i :: 0 <= g < ngroups && 0 <= i < length ==> d.data[g][i] == 0.0
  {
    if length <= 0 then Fail(BadProfileLength)
    else Ok(Dist(Zeros(ngroups, length), length, 0.0, [normal, if b3D then -1 else normal], 0.0, 0, ngroups,
                 dens, refIndex, 0.0, 0.0, b3D))
  }

  /** Whether axis `i` takes part in distances: all three in 3D, the two
      in-plane axes in 2D. */
  predicate Included(i: Axis, b3D: bool, normal: int) {
    b3D || i != normal
  }

  /** One step of the loop at dist_mode.c:131-136. */
  function HalfEdgeStep(m: real, i: Axis, box: Vec3, b3D: bool, normal: int): real {
    if Included(i, b3D, normal) && box.At(i) / 2.0 < m then box.At(i) / 2.0 else m
  }

  /** `max_dist` of `dist_start_frame`: starting from `INT_MAX`, the
      smallest half box edge over the included axes. */
  function MaxDistance(box: Vec3, b3D: bool, normal: int): (m: real)
    ensures m <= INT_MAX as real
    ensures forall i: Axis :: Included(i, b3D, normal) ==> m <= box.At(i) / 2.0
    ensures m == INT_MAX as real || exists i: Axis :: Included(i, b3D, normal) && m == box.At(i) / 2.0
    ensures PositiveBox(box) ==> m > 0.0
  {
    HalfEdgeStep(HalfEdgeStep(HalfEdgeStep(INT_MAX as real, 0, box, b3D, normal), 1, box, b3D, normal), 2, box, b3D, normal)
  }

  /** `dist_start_frame` (dist_mode.c:126-149) without the centre-of-mass
      branch: one more frame; the radius for this box, the bin width, the
      running sum of radii and the height along the normal. No accumulator,
      no change. */
  function DistStartFrame(dist: Option<Dist>, box: Vec3): (r: Option<Dist>)
    requires dist.Some? ==> dist.value.Valid() && 0 <= dist.value.axis[0] < 3
    requires PositiveBox(box)
    ensures dist.None? <==> r.None?
    ensures dist.Some? ==> r.value.Valid() && r.value.StartedFor(box)
    ensures dist.Some? ==> r.value == dist.value.(nframes := r.value.nframes, width := r.value.width,
      boxWidth := r.value.boxWidth, maxDist := r.value.maxDist, height := r.value.height)
    ensures dist.Some? ==> var d := dist.value; var e := r.value;
      && e.nframes == d.nframes + 1
      && e.maxDist == MaxDistance(box, d.b3D, d.axis[0])
      && e.width * d.length as real == e.maxDist
      && e.boxWidth == d.boxWidth + e.maxDist
      && e.height == box.At(d.axis[0])
  {
    if dist.None? then None
    else
      var m := MaxDistance(box, dist.value.b3D, dist.value.axis[0]);
      Some(dist.value.(nframes := dist.value.nframes + 1, width := Slab.SliceWidth(m, dist.value.length),
                       boxWidth := dist.value.boxWidth + m, maxDist := m, height := box.At(dist.value.axis[0])))
  }

  /** The point with component `excluded` zeroed; `-1` zeroes nothing. */
  function Project(p: Vec3, excluded: int): (q: Vec3)
    ensures forall i: Axis :: q.At(i) == if i == excluded then 0.0 else p.At(i)
  {
    Vec3(if excluded == 0 then 0.0 else p.x, if excluded == 1 then 0.0 else p.y, if excluded == 2 then 0.0 else p.z)
  }

  /** The smallest of `ds`, starting from `GMX_REAL_MAX` and keeping each
      strictly smaller value in turn. */
  function MinOf(ds: seq<real>): (r: real)
    ensures r <= REAL_MAX
    ensures forall j :: 0 <= j < |ds| ==> r <= ds[j]
    ensures r in ds || (r == REAL_MAX && forall j :: 0 <= j < |ds| ==> ds[j] > REAL_MAX)
  {
    if |ds| == 0 then REAL_MAX
    else
      var m := MinOf(ds[..|ds| - 1]);
      assert forall j :: 0 <= j < |ds| - 1 ==> ds[..|ds| - 1][j] == ds[j];
      if ds[|ds| - 1] < m then ds[|ds| - 1] else m
  }

  /** Every reference atom has an index into the coordinates. */
  predicate RefsIn(refs: seq<nat>, x: seq<Vec3>) {
    forall j :: 0 <= j < |refs| ==> refs[j] < |x|
  }

  /** The distance from `point` to each reference atom, the excluded
      component zeroed in both. */
  function Distances(point: Vec3, refs: seq<nat>, x: seq<Vec3>, metric: Metric, excluded: int): (ds: seq<real>)
    requires RefsIn(refs, x)
    ensures |ds| == |refs|
    ensures forall j :: 0 <= j < |refs| ==> ds[j] == metric(Project(point, excluded), Project(x[refs[j]], excluded))
  {
    seq(|refs|, j requires 0 <= j < |refs| => metric(Project(point, excluded), Project(x[refs[j]], excluded)))
  }

  /** `_min_distance` (dist_mode.c:14-38), the reference for `min_dist`:
      the smallest in-plane (or 3D) distance from `point` to the reference
      atoms, or `GMX_REAL_MAX` when there are none. */
  function MinDistance(point: Vec3, refs: seq<nat>, x: seq<Vec3>, metric: Metric, excluded: int): (r: real)
    requires RefsIn(refs, x)
    ensures 0.0 <= r <= REAL_MAX
    ensures forall j :: 0 <= j < |refs| ==> r <= metric(Project(point, excluded), Project(x[refs[j]], excluded))
    ensures |refs| == 0 ==> r == REAL_MAX
    ensures r == REAL_MAX || exists j :: 0 <= j < |refs| && r == metric(Project(point, excluded), Project(x[refs[j]], excluded))
  {
    var ds := Distances(point, refs, x, metric, excluded);
    var r := MinOf(ds);
    assert r in ds ==> exists j :: 0 <= j < |ds| && r == ds[j];
    r
  }

  /** `r1`/`r2` of dist_mode.c:172-173: the inner radius of shell `k`. */
  function Radius(maxDist: real, length: int, k: int): (r: real)
    requires length > 0
    ensures r * length as real == maxDist * k as real
  {
    DivCancel(k as real, length as real);
    maxDist * (k as real / length as real)
  }

  /** The volume of shell `k`: a spherical shell in 3D, an annulus of the
      box height in 2D (dist_mode.c:174-177). */
  function ShellVolume(maxDist: real, length: int, height: real, b3D: bool, k: int): (v: real)
    requires length > 0
    ensures v == Enclosed(Radius(maxDist, length, k + 1), height, b3D) - Enclosed(Radius(maxDist, length, k), height, b3D)
  {
    var r1 := Radius(maxDist, length, k);
    var r2 := Radius(maxDist, length, k + 1);
    EnclosedDifference(r1, r2, height, b3D);
    if b3D then (4.0 / 3.0) * PI * (r2 * r2 * r2 - r1 * r1 * r1)
    else height * PI * (r2 * r2 - r1 * r1)
  }

  lemma EnclosedDifference(r1: real, r2: real, height: real, b3D: bool)
    ensures Enclosed(r2, height, b3D) - Enclosed(r1, height, b3D) ==
      if b3D then (4.0 / 3.0) * PI * (r2 * r2 * r2 - r1 * r1 * r1) else height * PI * (r2 * r2 - r1 * r1)
  {
    if b3D {
      MulSub((4.0 / 3.0) * PI, r2 * r2 * r2, r1 * r1 * r1);
    } else {
      MulSub(height * PI, r2 * r2, r1 * r1);
    }
  }

  lemma MulSub(c: real, a: real, b: real)
    ensures c * (a - b) == c * a - c * b
  {
  }

  /** The volume of everything inside radius `r`: a ball in 3D, a cylinder of the box height in 2D. */
  function Enclosed(r: real, height: real, b3D: bool): real {
    if b3D then (4.0 / 3.0) * PI * (r * r * r) else height * PI * (r * r)
  }

  /** The volume of the first `m` shells. */
  function ShellsVolume(maxDist: real, length: int, height: real, b3D: bool, m: nat): real
    requires length > 0
  {
    if m == 0 then 0.0 else ShellsVolume(maxDist, length, height, b3D, m - 1) + ShellVolume(maxDist, length, height, b3D, m - 1)
  }

  /** The shells tile the ball (or cylinder) of radius `Radius(m)`; for
      `m == length` that is the one of radius `max_dist`. */
  lemma {:induction false} ShellsTile(maxDist: real, length: int, height: real, b3D: bool, m: nat)
    requires length > 0
    ensures ShellsVolume(maxDist, length, height, b3D, m) == Enclosed(Radius(maxDist, length, m), height, b3D)
  {
    if m == 0 {
      assert Radius(maxDist, length, 0) == 0.0;
    } else {
      ShellsTile(maxDist, length, height, b3D, m - 1);
    }
  }

  /** All `length` shells together fill the ball (3D) or cylinder (2D) of radius `max_dist`. */
  lemma ShellsFillMaxDistance(maxDist: real, length: int, height: real, b3D: bool)
    requires length > 0
    ensures ShellsVolume(maxDist, length, height, b3D, length) == Enclosed(maxDist, height, b3D)
  {
    ShellsTile(maxDist, length, height, b3D, length);
    assert Radius(maxDist, length, length) == maxDist;
  }

  lemma PowersIncrease(a: real, b: real)
    requires 0.0 <= a < b
    ensures a * a < b * b && a * a * a < b * b * b
  {
    MulLe(a, b, a);
    MulLt(a, b, b);
    MulLe(a * a, b * b, a);
    MulLt(a, b, b * b);
  }

  /** The division at dist_mode.c:181 is safe: a shell of a positive radius
      (and, in 2D, of a positive height) has a positive volume. */
  lemma ShellVolumePositive(maxDist: real, length: int, height: real, b3D: bool, k: nat)
    requires length > 0 && maxDist > 0.0 && (!b3D ==> height > 0.0)
    ensures ShellVolume(maxDist, length, height, b3D, k) > 0.0
  {
    var r1 := Radius(maxDist, length, k);
    var r2 := Radius(maxDist, length, k + 1);
    MulLe(0.0, r1, length as real);
    MulLt(r1, r2, length as real);
    MulLeCancel(0.0, r1, length as real);
    MulLtCancel(r1, r2, length as real);
    PowersIncrease(r1, r2);
    if !b3D {
      MulLt(0.0, r2 * r2 - r1 * r1, height * PI);
      assert height * PI * (r2 * r2 - r1 * r1) > 0.0;
    }
  }

  /** The distance `dist_store` bins an atom by. */
  function AtomDistance(d: Dist, atom: nat, x: seq<Vec3>, metric: Metric): (r: real)
    requires d.Valid() && atom < |x| && RefsIn(d.refIndex, x)
    ensures 0.0 <= r
  {
    MinDistance(x[atom], d.refIndex, x, metric, d.axis[1])
  }

  /** `(int)(distance / width)`. */
  function Bin(d: Dist, distance: real): (s: int)
    requires d.Valid() && d.Started() && 0.0 <= distance
    ensures 0 <= s && (s < d.length <==> distance < d.maxDist)
  {
    Slab.SliceIndex(distance, d.maxDist, d.length)
  }

  /** The shell of bin `(int)(distance / width)` contains the distance. */
  lemma BinContainsDistance(d: Dist, distance: real)
    requires d.Valid() && d.Started() && 0.0 <= distance
    ensures Radius(d.maxDist, d.length, Bin(d, distance)) <= distance < Radius(d.maxDist, d.length, Bin(d, distance) + 1)
  {
    var s := Bin(d, distance);
    RadiusIsSliceEdge(d.maxDist, d.length, s);
    RadiusIsSliceEdge(d.maxDist, d.length, s + 1);
  }

  /** `data[group][s] += mass / vslice` for an in-range bin `s`. */
  function Deposit(d: Dist, group: nat, s: nat, mass: real): (e: Dist)
    requires d.Valid() && d.Started() && group < d.ngroups && s < d.length
    ensures ShellVolume(d.maxDist, d.length, d.height, d.b3D, s) > 0.0
    ensures e == d.(data := AddAt(d.data, group, s, mass / ShellVolume(d.maxDist, d.length, d.height, d.b3D, s)))
  {
    ShellVolumePositive(d.maxDist, d.length, d.height, d.b3D, s);
    d.(data := AddAt(d.data, group, s, mass / ShellVolume(d.maxDist, d.length, d.height, d.b3D, s)))
  }

  /** `dist_store` (dist_mode.c:151-185) without the centre-of-mass branch:
      the atom's minimum distance to the reference group picks bin
      `(int)(distance / width)`; if that is below `length` the atom's weight
      divided by the bin's shell volume is added to it, otherwise nothing
      changes. No accumulator, no change. */
  function DistStore(dist: Option<Dist>, group: nat, atom: nat, x: seq<Vec3>, metric: Metric, mass: real): (r: Option<Dist>)
    requires dist.Some? ==> dist.value.Valid() && dist.value.Started()
    requires dist.Some? ==> group < dist.value.ngroups && atom < |x| && RefsIn(dist.value.refIndex, x)
    ensures dist.None? <==> r.None?
    ensures dist.Some? ==> r.value.Valid() && r.value == dist.value.(data := r.value.data)
    ensures dist.Some? && Bin(dist.value, AtomDistance(dist.value, atom, x, metric)) >= dist.value.length ==> r == dist
    ensures dist.Some? && Bin(dist.value, AtomDistance(dist.value, atom, x, metric)) < dist.value.length ==>
      r.value == Deposit(dist.value, group, Bin(dist.value, AtomDistance(dist.value, atom, x, metric)), mass)
  {
    if dist.None? then None
    else if Bin(dist.value, AtomDistance(dist.value, atom, x, metric)) < dist.value.length then
      Some(Deposit(dist.value, group, Bin(dist.value, AtomDistance(dist.value, atom, x, metric)), mass))
    else dist
  }

  /** The inner radius of shell `k` is the lower edge of bin `k`. */
  lemma RadiusIsSliceEdge(maxDist: real, length: int, k: int)
    requires length > 0 && maxDist > 0.0
    ensures Radius(maxDist, length, k) == k as real * Slab.SliceWidth(maxDist, length)
  {
    var w := Slab.SliceWidth(maxDist, length);
    var r := Radius(maxDist, length, k);
    assert (k as real * w) * length as real == maxDist * k as real;
    MulLeCancel(r, k as real * w, length as real);
    MulLeCancel(k as real * w, r, length as real);
  }

  /** What `dist_end` writes: the mean radius and one row per bin. */
  datatype DistReport = DistReport(meanMaxDist: real, rows: seq<Slab.Row>)

  /** `dist_end` (dist_mode.c:187-207): the radius sum becomes the mean
      radius; row `i` sits at `i` times the mean bin width and holds every
      group's bin divided by the frame count, converted to kg/m^3 for mass
      densities. No accumulator, no output. */
  function DistEnd(dist: Option<Dist>): (r: Option<DistReport>)
    requires dist.Some? ==> dist.value.Valid() && dist.value.nframes > 0
    ensures dist.None? <==> r.None?
    ensures dist.Some? ==> var d := dist.value; var rep := r.value; var n := d.nframes as real;
      && rep.meanMaxDist * n == d.boxWidth
      && |rep.rows| == d.length
      && (forall i :: 0 <= i < d.length ==>
            rep.rows[i].x * d.length as real == i as real * rep.meanMaxDist && |rep.rows[i].values| == d.ngroups)
      && (forall i, g :: 0 <= i < d.length && 0 <= g < d.ngroups ==>
            rep.rows[i].values[g] * n == d.data[g][i] * UnitScale(d.dens))
  {
    if dist.None? then None
    else
      Some(Report(dist.value))
  }

  function Report(d: Dist): (rep: DistReport)
    requires d.Valid() && d.nframes > 0
    ensures rep.meanMaxDist * d.nframes as real == d.boxWidth
    ensures |rep.rows| == d.length
    ensures forall i :: 0 <= i < d.length ==>
      rep.rows[i].x * d.length as real == i as real * rep.meanMaxDist && |rep.rows[i].values| == d.ngroups
    ensures forall i, g :: 0 <= i < d.length && 0 <= g < d.ngroups ==>
      rep.rows[i].values[g] * d.nframes as real == d.data[g][i] * UnitScale(d.dens)
  {
    var n := d.nframes as real;
    var mean := d.boxWidth / n;
    DivCancel(d.boxWidth, n);
    var data := Normalise(d.data, n, UnitScale(d.dens));
    var rows := seq(d.length, i requires 0 <= i < d.length =>
      Slab.Row(i as real * (mean / d.length as real), seq(d.ngroups, g requires 0 <= g < d.ngroups => data[g][i])));
    forall i | 0 <= i < d.length
      ensures rows[i].x * d.length as real == i as real * mean
    {
      BinPosition(i, mean, d.length);
    }
    DistReport(mean, rows)
  }

  /** Row `i` of the distance file sits at `i` mean bin widths. */
  lemma BinPosition(i: int, mean: real, length: int)
    requires length > 0
    ensures (i as real * (mean / length as real)) * length as real == i as real * mean
  {
    DivCancel(mean, length as real);
    assert (i as real * (mean / length as real)) * length as real == i as real * ((mean / length as real) * length as real);
  }
}
