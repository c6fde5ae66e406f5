/** Shared vocabulary of the three density accumulators: axes and 3-vectors,
    the fatal outcome of a run, the physical constants, C's truncating
    integer conversion, and the per-group profile tables the accumulators
    deposit into. */
module Common {

  /** An axis index as the program uses it: XX = 0, YY = 1, ZZ = 2. */
  type Axis = i: int | 0 <= i < 3

  /** A 3-vector (`rvec`). For a box it holds the three diagonal edge
      lengths `box[XX][XX]`, `box[YY][YY]`, `box[ZZ][ZZ]`. */
  datatype Vec3 = Vec3(x: real, y: real, z: real) {
    function At(i: Axis): real {
      if i == 0 then x else if i == 1 then y else z
    }
  }

  datatype Option<T> = None | Some(value: T)

  /** Every condition on which the program gives up (`gmx_fatal` or `exit(1)`). */
  datatype Fatal =
    | InvalidAxis
    | NoCoordinates
    | BadGridShape
    | BadProfileLength
    | EmptyDatafile
    | InvalidAtomTypeCount
    | OutOfMemory
    | TruncatedDatafile
    | InvalidDatafileLine(line: int)

  datatype Result<T> = Ok(value: T) | Fail(error: Fatal)

  /** One atom of the topology: its name, its mass and its partial charge. */
  datatype Atom = Atom(name: string, m: real, q: real)

  /** One trajectory frame: the box edges and every atom's position. */
  datatype Frame = Frame(box: Vec3, x: seq<Vec3>)

  /** Atomic mass unit in kg and the nanometre in m, as GROMACS defines them. */
  const AMU: real := 0.0000000000000000000000000016605402
  const NANO: real := 0.000000001
  /** The value `dist_mode.h` gives `PI`. */
  const PI: real := 3.141592653589793
  const INT_MAX: int := 2147483647
  /** `GMX_REAL_MAX` in single precision (`FLT_MAX`). */
  const REAL_MAX: real := 340282346638528859811704183484516925440.0

  predicate PositiveBox(box: Vec3) {
    box.x > 0.0 && box.y > 0.0 && box.z > 0.0
  }

  function Volume(box: Vec3): (v: real)
    ensures PositiveBox(box) ==> v > 0.0
  {
    box.x * box.y * box.z
  }

  /** `0 <= p[i] < box[i][i]` on every axis: what `put_atom_in_box` guarantees. */
  predicate InBox(p: Vec3, box: Vec3) {
    forall i: Axis :: 0.0 <= p.At(i) < box.At(i)
  }

  /** `put_atom_in_box`: GROMACS moves a position by box vectors into the
      box. Only what the accumulators rely on is assumed of it: for a box
      with positive edges the result lies in `[0, L)` on every axis, and a
      position already there is not moved. */
  type BoxWrap = f: (Vec3, Vec3) -> Vec3 |
    forall p, box :: PositiveBox(box) ==> InBox(f(p, box), box) && (InBox(p, box) ==> f(p, box) == p)
    witness (p: Vec3, box: Vec3) => if InBox(p, box) then p else Vec3(0.0, 0.0, 0.0)

  /** `norm(pbc_dx(pbc, a, b))`: the length of the shortest periodic
      image of `a - b`. Only its non-negativity is assumed. */
  type Metric = f: (Vec3, Vec3) -> real | forall a, b :: f(a, b) >= 0.0
    witness (a: Vec3, b: Vec3) => 0.0

  /** The factor every finalised bin is multiplied by: mass densities are
      converted from amu/nm^3 to kg/m^3, every other kind is left alone. */
  function UnitScale(dens: char): (k: real)
    ensures dens == 'm' ==> k == 1.6605402
    ensures dens != 'm' ==> k == 1.0
  {
    if dens == 'm' then AMU / (NANO * NANO * NANO) else 1.0
  }

  /** C's `(int)` conversion of a real: truncation toward zero. */
  function Trunc(r: real): (n: int)
    ensures r >= 0.0 ==> 0 <= n && n as real <= r < n as real + 1.0
    ensures r < 0.0 ==> n <= 0 && r <= n as real && n as real - 1.0 < r
  {
    if r >= 0.0 then r.Floor else -((-r).Floor)
  }

  /** A per-group profile: `t[g][s]` is the value of slice `s` of group `g`. */
  type Table = seq<seq<real>>

  predicate Shaped(t: Table, rows: nat, cols: nat) {
    |t| == rows && forall g :: 0 <= g < |t| ==> |t[g]| == cols
  }

  predicate SameShape(a: Table, b: Table) {
    |a| == |b| && forall g :: 0 <= g < |a| ==> |a[g]| == |b[g]|
  }

  /** A freshly allocated profile (`snew` zero-fills). */
  function Zeros(rows: nat, cols: nat): (t: Table)
    ensures Shaped(t, rows, cols)
    ensures forall g, s :: 0 <= g < rows && 0 <= s < cols ==> t[g][s] == 0.0
  {
    seq(rows, g => seq(cols, s => 0.0))
  }

  /** `t[g][s] += v`: the one cell changes by `v`, every other cell keeps its value. */
  function AddAt(t: Table, g: nat, s: nat, v: real): (r: Table)
    requires g < |t| && s < |t[g]|
    ensures SameShape(r, t)
    ensures r[g][s] == t[g][s] + v
    ensures forall h, k :: 0 <= h < |t| && 0 <= k < |t[h]| && (h != g || k != s) ==> r[h][k] == t[h][k]
  {
    t[g := t[g][s := t[g][s] + v]]
  }

  /** Every cell divided by `d` and then multiplied by `k`. */
  function Normalise(t: Table, d: real, k: real): (r: Table)
    requires d != 0.0
    ensures SameShape(r, t)
    ensures forall g, s :: 0 <= g < |t| && 0 <= s < |t[g]| ==> r[g][s] * d == t[g][s] * k
  {
    seq(|t|, g requires 0 <= g < |t| => seq(|t[g]|, s requires 0 <= s < |t[g]| => t[g][s] / d * k))
  }

  function Sum(s: seq<real>): real {
    if |s| == 0 then 0.0 else Sum(s[..|s| - 1]) + s[|s| - 1]
  }

  /** The sum of every cell of a profile. */
  function Total(t: Table): real {
    if |t| == 0 then 0.0 else Total(t[..|t| - 1]) + Sum(t[|t| - 1])
  }

  lemma {:induction false} SumUpdate(s: seq<real>, i: nat, v: real)
    requires i < |s|
    ensures Sum(s[i := s[i] + v]) == Sum(s) + v
  {
    var u := s[i := s[i] + v];
    if i == |s| - 1 {
      assert u[..|u| - 1] == s[..|s| - 1];
    } else {
      assert u[..|u| - 1] == s[..|s| - 1][i := s[i] + v];
      SumUpdate(s[..|s| - 1], i, v);
    }
  }

  lemma {:induction false} TotalUpdate(t: Table, g: nat, row: seq<real>)
    requires g < |t|
    ensures Total(t[g := row]) == Total(t) - Sum(t[g]) + Sum(row)
  {
    var u := t[g := row];
    if g == |t| - 1 {
      assert u[..|u| - 1] == t[..|t| - 1];
    } else {
      assert u[..|u| - 1] == t[..|t| - 1][g := row];
      TotalUpdate(t[..|t| - 1], g, row);
    }
  }

  /** Conservation of one deposit: the profile's total grows by exactly the deposited amount. */
  lemma AddAtTotal(t: Table, g: nat, s: nat, v: real)
    requires g < |t| && s < |t[g]|
    ensures Total(AddAt(t, g, s, v)) == Total(t) + v
  {
    RowUpdateTotal(t, g, s, v);
  }

  lemma RowUpdateTotal(t: Table, g: nat, s: nat, v: real)
    requires g < |t| && s < |t[g]|
    ensures Total(t[g := t[g][s := t[g][s] + v]]) == Total(t) + v
  {
    SumUpdate(t[g], s, v);
    TotalUpdate(t, g, t[g][s := t[g][s] + v]);
  }

  // Small facts of real arithmetic the proofs cite by name.

  lemma MulLe(a: real, b: real, c: real)
    requires a <= b && c >= 0.0
    ensures a * c <= b * c
  {
  }

  lemma MulLt(a: real, b: real, c: real)
    requires a < b && c > 0.0
    ensures a * c < b * c
  {
  }

  lemma MulLeCancel(a: real, b: real, c: real)
    requires a * c <= b * c && c > 0.0
    ensures a <= b
  {
    if a > b {
      MulLt(b, a, c);
    }
  }

  lemma MulLtCancel(a: real, b: real, c: real)
    requires a * c < b * c && c > 0.0
    ensures a < b
  {
    if a >= b {
      MulLe(b, a, c);
    }
  }

  lemma DivCancel(x: real, c: real)
    requires c != 0.0
    ensures (x / c) * c == x
  {
  }

  lemma DivNonNegative(x: real, c: real)
    requires x >= 0.0 && c > 0.0
    ensures x / c >= 0.0
  {
  }

  /** Bounds on a quotient carry over to the dividend. */
  lemma QuotientBounds(a: real, z: real, b: real, c: real)
    requires c > 0.0 && a <= z / c <= b
    ensures a * c <= z <= b * c
    ensures a < z / c ==> a * c < z
    ensures z / c < b ==> z < b * c
  {
    DivCancel(z, c);
    MulLe(a, z / c, c);
    MulLe(z / c, b, c);
    if a < z / c { MulLt(a, z / c, c); }
    if z / c < b { MulLt(z / c, b, c); }
  }
}
