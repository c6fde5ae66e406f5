/** The command-line settings of `g_mydensity` and what the program derives
    from them before any frame is read: the axis index from the axis title,
    the weight each atom contributes, the slice count when none is given,
    the second grid dimension, and `-symm` implying `-center`. */
module Options {
  import opened Common
  import GridMode

  /** The settings the command line can change. `dens` is the first letter
      of the chosen density kind: `m`ass, `n`umber, `c`harge or `e`lectron.
      `com` has no command-line switch and stays off. */
  datatype Settings = Settings(
    axisTitle: string,
    nslices: int,
    nslices2: int,
    dens: char,
    ngroups: int,
    symmetrize: bool,
    center: bool,
    b3D: bool,
    com: bool)

  /** The values the program starts from. */
  const Defaults: Settings := Settings("Z", 50, -1, 'm', 1, false, false, true, false)

  /** C's `toupper` on the characters of the "C" locale. */
  function ToUpper(c: char): (u: char)
    ensures 'A' <= u <= 'Z' <==> ('A' <= c <= 'Z' || 'a' <= c <= 'z')
    ensures 'a' <= c <= 'z' ==> u as int == c as int - 32
    ensures !('a' <= c <= 'z') ==> u == c
  {
    if 'a' <= c <= 'z' then (c as int - 32) as char else c
  }

  /** `toupper(axtitle[0]) - 'X'`: the axis index named by the title; an
      empty title reads its terminating NUL and gives `-'X'`. */
  function AxisOf(title: string): (a: int)
    ensures 0 <= a < 3 <==> |title| > 0 && title[0] in "XYZxyz"
    ensures |title| > 0 && title[0] in "Xx" ==> a == 0
    ensures |title| > 0 && title[0] in "Yy" ==> a == 1
    ensures |title| > 0 && title[0] in "Zz" ==> a == 2
    ensures |title| == 0 ==> a == -('X' as int)
  {
    if |title| == 0 then 0 - 'X' as int else ToUpper(title[0]) as int - 'X' as int
  }

  /** The axis letter the grid file prints names the same axis again. */
  lemma AxisLabelRoundTrip(a: Axis)
    ensures AxisOf([GridMode.AxisLabel(a)]) == a
  {
  }

  /** Only the first character of the title counts. */
  lemma AxisOfFirstCharacter(title: string, rest: string)
    requires |title| > 0
    ensures AxisOf([title[0]] + rest) == AxisOf(title)
  {
  }

  /** `if (!*nslices) *nslices = (int)(box[axis][axis] * 10)`: a zero slice
      count becomes ten slices per nanometre of the first frame's edge;
      any other count is kept. */
  function DefaultSlices(nslices: int, edge: real): (n: int)
    ensures nslices != 0 ==> n == nslices
    ensures nslices == 0 && edge >= 0.0 ==> 0 <= n && n as real <= 10.0 * edge < n as real + 1.0
  {
    if nslices == 0 then Trunc(edge * 10.0) else nslices
  }

  /** The default slices are as many whole 0.1 nm slices as fit in the edge;
      an edge shorter than 0.1 nm gives no slice at all. */
  lemma DefaultSlicesAreTenthNanometre(edge: real)
    requires edge >= 0.0
    ensures var n := DefaultSlices(0, edge);
      n as real * 0.1 <= edge < (n + 1) as real * 0.1
    ensures DefaultSlices(0, edge) > 0 <==> edge >= 0.1
  {
    var n := DefaultSlices(0, edge);
    assert n as real <= 10.0 * edge < n as real + 1.0;
  }

  /** `if (nslices2 <= 0) nslices2 = nslices`: a missing second grid
      dimension copies the first. */
  function SecondShape(nslices: int, nslices2: int): (n2: int)
    ensures nslices2 > 0 ==> n2 == nslices2
    ensures nslices2 <= 0 ==> n2 == nslices
    ensures n2 > 0 <==> nslices2 > 0 || nslices > 0
  {
    if nslices2 <= 0 then nslices else nslices2
  }

  /** With the second dimension defaulted, the grids can be built exactly
      when the slice count is positive and the axis valid. */
  lemma GridBuildsWithDefaultShape(nslices: int, nslices2: int, normal: int, ngroups: nat, dens: char)
    ensures GridMode.BuildGrids(nslices, SecondShape(nslices, nslices2), normal, ngroups, dens).Ok?
      <==> nslices > 0 && 0 <= normal < 3
  {
  }

  /** `-symm` without `-center` turns `-center` on; nothing else changes. */
  function Resolve(s: Settings): (r: Settings)
    ensures r.symmetrize ==> r.center
    ensures r.center <==> s.center || s.symmetrize
    ensures r == s.(center := r.center)
  {
    if s.symmetrize && !s.center then s.(center := true) else s
  }

  /** Resolving settings twice changes nothing more. */
  lemma ResolveIdempotent(s: Settings)
    ensures Resolve(Resolve(s)) == Resolve(s)
  {
  }

  /** The defaults need no resolving, and name the z axis (`axis = 2`). */
  lemma DefaultsAreConsistent()
    ensures Resolve(Defaults) == Defaults
    ensures AxisOf(Defaults.axisTitle) == 2
    ensures SecondShape(Defaults.nslices, Defaults.nslices2) == Defaults.nslices
  {
  }

  /** The atom's contribution for the density kind: 1 for number density,
      the partial charge for charge density, the mass otherwise. */
  function WeightFor(a: Atom, dens: char): (w: real)
    ensures dens == 'n' ==> w == 1.0
    ensures dens == 'c' ==> w == a.q
    ensures dens != 'n' && dens != 'c' ==> w == a.m
  {
    if dens == 'n' then 1.0 else if dens == 'c' then a.q else a.m
  }

  /** The topology after the mass overwrite: every atom's mass becomes its
      weight for the density kind; names and charges stay. */
  function Weigh(atoms: seq<Atom>, dens: char): (r: seq<Atom>)
    ensures |r| == |atoms|
    ensures forall i :: 0 <= i < |atoms| ==>
      r[i].name == atoms[i].name && r[i].q == atoms[i].q && r[i].m == WeightFor(atoms[i], dens)
  {
    seq(|atoms|, i requires 0 <= i < |atoms| => atoms[i].(m := WeightFor(atoms[i], dens)))
  }

  /** Overwriting the masses a second time changes nothing more. */
  lemma WeighIdempotent(atoms: seq<Atom>, dens: char)
    ensures Weigh(Weigh(atoms, dens), dens) == Weigh(atoms, dens)
  {
  }

  /** Mass and electron densities keep the topology's masses. */
  lemma WeighKeepsMasses(atoms: seq<Atom>, dens: char)
    requires dens != 'n' && dens != 'c'
    ensures Weigh(atoms, dens) == atoms
  {
  }
}
