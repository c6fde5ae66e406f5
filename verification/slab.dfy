/** The slab profile of `calc_density` and `calc_electron_density`: each
    atom's coordinate along the chosen axis is wrapped into `[0, L]`, binned
    into one of `nslices` slices of width `L / nslices`, and deposited with
    the inverse slice volume `nslices / (Lx * Ly * Lz)`; after the last frame
    every bin is divided by the frame count, and `plot_density` prints the
    profile, optionally symmetrised about its centre. */
module Slab {
  import opened Common
  import Electrons

  function Ceiling(r: real): int {
    -((-r).Floor)
  }

  /** `floor(z / L) * L <= z < (floor(z / L) + 1) * L`. */
  lemma FloorBounds(z: real, L: real)
    requires L > 0.0
    ensures (z / L).Floor as real * L <= z < ((z / L).Floor + 1) as real * L
  {
    QuotientBounds((z / L).Floor as real, z, ((z / L).Floor + 1) as real, L);
  }

  /** `(ceil(z / L) - 1) * L < z <= ceil(z / L) * L`. */
  lemma CeilingBounds(z: real, L: real)
    requires L > 0.0
    ensures (Ceiling(z / L) - 1) as real * L < z <= Ceiling(z / L) as real * L
  {
    QuotientBounds((Ceiling(z / L) - 1) as real, z, Ceiling(z / L) as real, L);
  }

  /** The position the two wrapping loops of the source leave behind,
      in closed form: below the box it is shifted up into `[0, L)`, above
      the box it is shifted down into `(0, L]`, inside it is untouched. */
  function Wrapped(z: real, L: real): (w: real)
    requires L > 0.0
    ensures 0.0 <= w <= L
    ensures 0.0 <= z <= L ==> w == z
    ensures z < 0.0 ==> w < L
    ensures z > L ==> 0.0 < w
  {
    if z < 0.0 then
      FloorBounds(z, L);
      z - (z / L).Floor as real * L
    else if z > L then
      CeilingBounds(z, L);
      z - (Ceiling(z / L) - 1) as real * L
    else z
  }

  /** A coordinate already inside `[0, L]` is left where it is. */
  lemma WrappedFixesBox(z: real, L: real)
    requires L > 0.0 && 0.0 <= z <= L
    ensures Wrapped(z, L) == z
  {
  }

  /** Wrapping only ever moves a coordinate by whole box lengths. */
  lemma WrappedIsPeriodicImage(z: real, L: real) returns (k: int)
    requires L > 0.0
    ensures Wrapped(z, L) == z + k as real * L
  {
    if z < 0.0 {
      var f := (z / L).Floor;
      k := -f;
      assert Wrapped(z, L) == z - f as real * L;
      assert k as real * L == -(f as real * L);
    } else if z > L {
      var c := Ceiling(z / L);
      k := 1 - c;
      assert Wrapped(z, L) == z - (c - 1) as real * L;
      assert k as real * L == -((c - 1) as real * L);
    } else {
      k := 0;
      WrappedFixesBox(z, L);
    }
  }

  /** Wrapping is idempotent. */
  lemma WrappedIdempotent(z: real, L: real)
    requires L > 0.0
    ensures Wrapped(Wrapped(z, L), L) == Wrapped(z, L)
  {
  }

  lemma FloorOfShift(z0: real, L: real, k: int)
    requires L > 0.0 && 0.0 <= z0 + k as real * L < L
    ensures (z0 / L).Floor == -k
  {
    var q := z0 / L;
    DivCancel(z0, L);
    assert (q + k as real) * L == z0 + k as real * L;
    MulLeCancel(0.0, q + k as real, L);
    MulLtCancel(q + k as real, 1.0, L);
  }

  lemma CeilingOfShift(z0: real, L: real, k: int)
    requires L > 0.0 && 0.0 < z0 + k as real * L <= L
    ensures Ceiling(z0 / L) == 1 - k
  {
    var q := z0 / L;
    DivCancel(z0, L);
    assert (q + k as real) * L == z0 + k as real * L;
    MulLtCancel(0.0, q + k as real, L);
    MulLeCancel(q + k as real, 1.0, L);
  }

  /** A below-zero coordinate that `k` added box lengths bring into
      `[0, L)` wraps to exactly that position. */
  lemma WrappedBelow(z0: real, L: real, k: int)
    requires L > 0.0 && z0 < 0.0 && 0.0 <= z0 + k as real * L < L
    ensures Wrapped(z0, L) == z0 + k as real * L
  {
    FloorOfShift(z0, L, k);
    var f := (z0 / L).Floor;
    assert Wrapped(z0, L) == z0 - f as real * L;
    assert f as real * L == -(k as real * L);
  }

  /** An above-box coordinate that `k` (negative) added box lengths bring
      into `(0, L]` wraps to exactly that position. */
  lemma WrappedAbove(z0: real, L: real, k: int)
    requires L > 0.0 && z0 > L && 0.0 < z0 + k as real * L <= L
    ensures Wrapped(z0, L) == z0 + k as real * L
  {
    CeilingOfShift(z0, L, k);
    var c := Ceiling(z0 / L);
    assert Wrapped(z0, L) == z0 - (c - 1) as real * L;
    assert (c - 1) as real * L == -(k as real * L);
  }

  /** Shifts are ordered like the positions they reach. */
  lemma ShiftOrder(z0: real, L: real, j: int, k: int)
    requires L > 0.0 && z0 + j as real * L < z0 + k as real * L
    ensures j < k
  {
    MulLtCancel(j as real, k as real, L);
  }

  /** The two loops of g_mydensity.c that bring a coordinate into the box:
      add the box length while below zero, subtract it while above `L`. */
  method WrapAlongAxis(z0: real, L: real) returns (z: real)
    requires L > 0.0
    ensures z == Wrapped(z0, L)
  {
    z := z0;
    ghost var k: int := 0;
    // `up` box lengths bring a negative coordinate to or above zero.
    ghost var up: int := if z0 < 0.0 then -(z0 / L).Floor else 0;
    if z0 < 0.0 {
      FloorBounds(z0, L);
      assert 0.0 <= z0 + up as real * L;
    }
    while z < 0.0
      invariant z == z0 + k as real * L
      invariant 0 <= k <= up && (k > 0 ==> z < L)
      decreases up - k
    {
      if z0 < 0.0 {
        ShiftOrder(z0, L, k, up);
      }
      z := z + L;
      k := k + 1;
    }
    ghost var k0 := k;
    // `down` (negative) box lengths bring a coordinate above the box to or below `L`.
    ghost var down: int := if z > L then 1 - Ceiling(z0 / L) else k;
    if z > L {
      CeilingBounds(z0, L);
      assert z0 + down as real * L <= L;
    }
    while z > L
      invariant z == z0 + k as real * L
      invariant 0.0 <= z
      invariant down <= k <= k0 && (k < k0 ==> 0.0 < z)
      invariant k0 > 0 ==> z < L
      decreases k - down
    {
      ShiftOrder(z0, L, down, k);
      z := z - L;
      k := k - 1;
    }
    if z0 < 0.0 {
      WrappedBelow(z0, L, k);
    } else if z0 > L {
      WrappedAbove(z0, L, k);
    } else {
      WrappedFixesBox(z0, L);
    }
  }

  /** `slWidth = box[axis][axis] / nslices` (g_mydensity.c:313). */
  function SliceWidth(L: real, n: int): (w: real)
    requires L > 0.0 && n > 0
    ensures w > 0.0 && n as real * w == L
  {
    DivCancel(L, n as real);
    L / n as real
  }

  /** Slice `k` of width `w` covers `[k * w, (k + 1) * w)`. */
  predicate InSlice(z: real, k: int, w: real) {
    k as real * w <= z < (k + 1) as real * w
  }

  /** `(int)(z / w)` is the slice of width `w` containing a non-negative `z`. */
  lemma QuotientSlice(z: real, w: real, s: int)
    requires w > 0.0 && 0.0 <= z && s == Trunc(z / w)
    ensures 0 <= s && InSlice(z, s, w)
  {
    DivNonNegative(z, w);
    QuotientBounds(s as real, z, (s + 1) as real, w);
  }

  lemma SliceBounds(z: real, L: real, n: int, s: int)
    requires L > 0.0 && n > 0 && 0.0 <= z
    requires s == Trunc(z / SliceWidth(L, n))
    ensures 0 <= s && InSlice(z, s, SliceWidth(L, n))
    ensures s < n <==> z < L
  {
    var w := SliceWidth(L, n);
    QuotientSlice(z, w, s);
    MulLt(n as real, (n + 1) as real, w);
    assert InSlice(L, n, w);
    if z < L {
      SliceOrder(z, L, w, s, n);
    } else {
      SliceOrder(L, z, w, n, s);
    }
  }

  /** `(int)(z / slWidth)`: the slice an atom at `z` is counted in. */
  function SliceIndex(z: real, L: real, n: int): (s: int)
    requires L > 0.0 && n > 0
    ensures 0.0 <= z ==> 0 <= s && InSlice(z, s, SliceWidth(L, n))
    ensures 0.0 <= z ==> (s < n <==> z < L)
  {
    var s := Trunc(z / SliceWidth(L, n));
    if 0.0 <= z then
      SliceBounds(z, L, n, s);
      s
    else s
  }

  /** Slices of one width are ordered like the coordinates they contain. */
  lemma SliceOrder(z1: real, z2: real, w: real, s1: int, s2: int)
    requires w > 0.0 && z1 <= z2 && InSlice(z1, s1, w) && InSlice(z2, s2, w)
    ensures s1 <= s2
  {
    if s2 < s1 {
      MulLe((s2 + 1) as real, s1 as real, w);
    }
  }

  /** Two slices of the same width that both contain `z` are the same slice. */
  lemma SliceContainsOnce(z: real, w: real, k: int, s: int)
    requires w > 0.0 && InSlice(z, k, w) && InSlice(z, s, w)
    ensures k == s
  {
    SliceOrder(z, z, w, k, s);
    SliceOrder(z, z, w, s, k);
  }

  /** The slice of a coordinate is the only slice containing it. */
  lemma SliceIsUnique(z: real, L: real, n: int, k: int)
    requires L > 0.0 && n > 0 && 0.0 <= z
    requires InSlice(z, k, SliceWidth(L, n))
    ensures k == SliceIndex(z, L, n)
  {
    SliceContainsOnce(z, SliceWidth(L, n), k, SliceIndex(z, L, n));
  }

  /** An atom wrapped onto the upper box edge itself gets index `nslices`,
      one past the last slice; the source writes there without a bounds
      check. */
  lemma UpperEdgeOverflows(L: real, n: int)
    requires L > 0.0 && n > 0
    ensures SliceIndex(Wrapped(L, L), L, n) == n
  {
    var w := SliceWidth(L, n);
    MulLt(n as real, (n + 1) as real, w);
    assert InSlice(L, n, w);
    SliceIsUnique(L, L, n, n);
  }

  /** Farther along the axis never means a lower slice. */
  lemma SliceIndexMonotone(z1: real, z2: real, L: real, n: int)
    requires L > 0.0 && n > 0 && 0.0 <= z1 <= z2
    ensures SliceIndex(z1, L, n) <= SliceIndex(z2, L, n)
  {
    SliceOrder(z1, z2, SliceWidth(L, n), SliceIndex(z1, L, n), SliceIndex(z2, L, n));
  }

  /** `invvol = nslices / (Lx * Ly * Lz)`: the inverse volume of one slice. */
  function InvVolume(box: Vec3, n: int): (v: real)
    requires PositiveBox(box) && n > 0
    ensures v > 0.0 && v * Volume(box) == n as real
  {
    DivCancel(n as real, Volume(box));
    n as real / Volume(box)
  }

  /** `r` is `bins` with `amount` added to the slice of width `w` of group
      `g` that contains `z`, and every other cell unchanged. */
  predicate DepositedAt(r: Table, bins: Table, g: nat, z: real, w: real, amount: real) {
    && SameShape(r, bins)
    && forall h, k :: 0 <= h < |bins| && 0 <= k < |bins[h]| ==>
         r[h][k] == bins[h][k] + (if h == g && InSlice(z, k, w) then amount else 0.0)
  }

  /** The slab write cannot go out of range for an atom at `pos`. */
  predicate FitsSlab(pos: Vec3, box: Vec3, axis: Axis) {
    box.At(axis) > 0.0 && Wrapped(pos.At(axis), box.At(axis)) < box.At(axis)
  }

  /** The deposit of `calc_density` (g_mydensity.c:323-331): the atom's
      weight times the inverse slice volume goes to the one slice of group
      `g` that contains its wrapped coordinate; nothing else changes. */
  function SlabStore(bins: Table, g: nat, pos: Vec3, box: Vec3, axis: Axis, n: int, weight: real): (r: Table)
    requires PositiveBox(box) && n > 0 && g < |bins| && |bins[g]| == n
    requires FitsSlab(pos, box, axis)
    ensures DepositedAt(r, bins, g, Wrapped(pos.At(axis), box.At(axis)), SliceWidth(box.At(axis), n), weight * InvVolume(box, n))
    ensures Total(r) == Total(bins) + weight * InvVolume(box, n)
  {
    var L := box.At(axis);
    var z := Wrapped(pos.At(axis), L);
    var s := SliceIndex(z, L, n);
    forall k | 0 <= k < n && InSlice(z, k, SliceWidth(L, n))
      ensures k == s
    {
      SliceIsUnique(z, L, n, k);
    }
    AddAtTotal(bins, g, s, weight * InvVolume(box, n));
    AddAt(bins, g, s, weight * InvVolume(box, n))
  }

  /** One cell after `SlabStore`: the deposit if it is the slice holding
      the wrapped coordinate in group `g`, its old value otherwise. */
  lemma SlabStoreCell(bins: Table, g: nat, pos: Vec3, box: Vec3, axis: Axis, n: int, weight: real, h: nat, k: nat)
    requires PositiveBox(box) && n > 0 && g < |bins| && |bins[g]| == n
    requires FitsSlab(pos, box, axis)
    requires h < |bins| && k < |bins[h]|
    ensures var r := SlabStore(bins, g, pos, box, axis, n, weight);
      h < |r| && k < |r[h]| &&
      r[h][k] == bins[h][k] + (if h == g && InSlice(Wrapped(pos.At(axis), box.At(axis)), k, SliceWidth(box.At(axis), n))
                               then weight * InvVolume(box, n) else 0.0)
  {
  }

  /** The result of one electron-density deposit: the profile, and the atom
      name reported as missing from the table, if it was. */
  datatype ElectronStep = ElectronStep(bins: Table, missing: Option<string>)

  /** The deposit of `calc_electron_density` (g_mydensity.c:206-228): the
      atom's electron count from the table, less its partial charge, times
      the inverse slice volume goes to the slice containing it; an atom name
      absent from the table is reported and deposits nothing. */
  function ElectronStore(bins: Table, g: nat, pos: Vec3, box: Vec3, axis: Axis, n: int,
                         table: seq<Electrons.Entry>, atom: Atom): (r: ElectronStep)
    requires PositiveBox(box) && n > 0 && g < |bins| && |bins[g]| == n
    requires Electrons.Sorted(table)
    requires Electrons.Lookup(table, atom.name).Some? ==> FitsSlab(pos, box, axis)
    ensures SameShape(r.bins, bins)
    ensures r.missing.Some? <==> forall e :: e in table ==> e.name != atom.name
    ensures r.missing.Some? ==> r.missing.value == atom.name && r.bins == bins
    ensures r.missing.None? <==> Electrons.Lookup(table, atom.name).Some?
    ensures r.missing.None? ==>
      r.bins == SlabStore(bins, g, pos, box, axis, n, Electrons.Lookup(table, atom.name).value.electrons as real - atom.q)
  {
    var found := Electrons.Lookup(table, atom.name);
    if found.None? then ElectronStep(bins, Some(atom.name))
    else ElectronStep(SlabStore(bins, g, pos, box, axis, n, found.value.electrons as real - atom.q), None)
  }

  /** The division after the frame loop (g_mydensity.c:353-357, 246-249):
      every bin divided by the frame count, once. */
  function Finalize(bins: Table, nframes: int): (r: Table)
    requires nframes >= 1
    ensures SameShape(r, bins)
    ensures forall g, s :: 0 <= g < |bins| && 0 <= s < |bins[g]| ==> r[g][s] * nframes as real == bins[g][s]
  {
    Normalise(bins, nframes as real, 1.0)
  }

  // ---------------------------------------------------------------------
  // plot_density
  // ---------------------------------------------------------------------

  /** Every group's profile reads the same from both ends. */
  predicate Symmetric(t: Table) {
    forall g, i, j :: 0 <= g < |t| && 0 <= i < |t[g]| && i + j == |t[g]| - 1 ==> t[g][i] == t[g][j]
  }

  /** `(d[i] + d[n - 1 - i]) * 0.5` for every slice of every group. */
  function Symmetrize(t: Table): (r: Table)
    ensures SameShape(r, t)
    ensures Symmetric(r)
    ensures forall g, i, j :: 0 <= g < |t| && 0 <= i < |t[g]| && i + j == |t[g]| - 1 ==>
      r[g][i] + r[g][j] == t[g][i] + t[g][j]
    ensures Symmetric(t) ==> r == t
  {
    var r := seq(|t|, g requires 0 <= g < |t| =>
      seq(|t[g]|, i requires 0 <= i < |t[g]| => (t[g][i] + t[g][|t[g]| - 1 - i]) * 0.5));
    assert Symmetric(t) ==> r == t by {
      if Symmetric(t) {
        forall g | 0 <= g < |t| ensures r[g] == t[g] {
          assert forall i :: 0 <= i < |t[g]| ==> r[g][i] == t[g][i];
        }
      }
    }
    r
  }

  /** Symmetrising twice is symmetrising once. */
  lemma SymmetrizeIdempotent(t: Table)
    ensures Symmetrize(Symmetrize(t)) == Symmetrize(t)
  {
  }

  /** One printed line: the abscissa and one value per group. */
  datatype Row = Row(x: real, values: seq<real>)

  /** Row `i` at abscissa `i * slWidth` holding slice `i` of every group, scaled by `k`. */
  function ScaledRows(d: Table, n: nat, slWidth: real, k: real): (rows: seq<Row>)
    requires Shaped(d, |d|, n)
    ensures |rows| == n
    ensures forall i :: 0 <= i < n ==> rows[i].x == i as real * slWidth && |rows[i].values| == |d|
    ensures forall i, g :: 0 <= i < n && 0 <= g < |d| ==> rows[i].values[g] == d[g][i] * k
  {
    seq(n, i requires 0 <= i < n => Row(i as real * slWidth, seq(|d|, g requires 0 <= g < |d| => d[g][i] * k)))
  }

  /** The rows `plot_density` prints (g_mydensity.c:383-396): row `i` sits
      at `i * slWidth`; each group's value is the (optionally symmetrised)
      density, converted to kg/m^3 only for mass densities. */
  function PlotRows(bins: Table, n: nat, slWidth: real, dens: char, symmetrize: bool): (rows: seq<Row>)
    requires Shaped(bins, |bins|, n)
    ensures |rows| == n
    ensures forall i :: 0 <= i < n ==> rows[i].x == i as real * slWidth && |rows[i].values| == |bins|
    ensures !symmetrize ==> forall i, g :: 0 <= i < n && 0 <= g < |bins| ==>
      rows[i].values[g] == bins[g][i] * UnitScale(dens)
    ensures symmetrize ==> forall i, g :: 0 <= i < n && 0 <= g < |bins| ==>
      rows[i].values[g] == Symmetrize(bins)[g][i] * UnitScale(dens)
  {
    if symmetrize then ScaledRows(Symmetrize(bins), n, slWidth, UnitScale(dens))
    else ScaledRows(bins, n, slWidth, UnitScale(dens))
  }

  /** With `-symm` the printed profile is a palindrome. */
  lemma SymmetrizedPlotIsPalindrome(bins: Table, n: nat, slWidth: real, dens: char)
    requires Shaped(bins, |bins|, n)
    ensures var rows := PlotRows(bins, n, slWidth, dens, true);
      forall i :: 0 <= i < n ==> rows[i].values == rows[n - 1 - i].values
  {
    var rows := PlotRows(bins, n, slWidth, dens, true);
    forall i | 0 <= i < n ensures rows[i].values == rows[n - 1 - i].values {
      assert forall g :: 0 <= g < |bins| ==> rows[i].values[g] == rows[n - 1 - i].values[g];
    }
  }

  /** A profile that is already symmetric prints the same with or without `-symm`. */
  lemma SymmetricProfilePrintsUnchanged(bins: Table, n: nat, slWidth: real, dens: char)
    requires Shaped(bins, |bins|, n) && Symmetric(bins)
    ensures PlotRows(bins, n, slWidth, dens, true) == PlotRows(bins, n, slWidth, dens, false)
  {
    var a := PlotRows(bins, n, slWidth, dens, true);
    var b := PlotRows(bins, n, slWidth, dens, false);
    forall i | 0 <= i < n ensures a[i] == b[i] {
      assert forall g :: 0 <= g < |bins| ==> a[i].values[g] == b[i].values[g];
    }
  }
}
