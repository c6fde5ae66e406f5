/** The trajectory loop of `calc_electron_density` (g_mydensity.c:147-252):
    every atom of every group deposits its electron count, less its partial
    charge, into the slice holding its coordinate along the axis. An atom
    whose name the electron table lacks deposits nothing and has its name
    reported, once per frame. There are no grid or distance outputs in this
    mode. Reading frames, removing periodicity and centring are not
    modelled. */
module ElectronDensity {
  import opened Common
  import Electrons
  import Slab
  import Options
  import opened Density

  // ---------------------------------------------------------------------
  // The reference
  // ---------------------------------------------------------------------

  /** What atom `v` adds to cell `(g, s)` of the electron profile in frame
      `f`: nothing when its name has no table entry, and otherwise the
      entry's electrons less the atom's charge, times the inverse slice
      volume, in the slice of its own group holding its wrapped coordinate. */
  function ElectronShare(f: Frame, v: Visit, atoms: seq<Atom>, table: seq<Electrons.Entry>, axis: Axis, n: int,
                         g: nat, s: nat): real
    requires PositiveBox(f.box) && n > 0 && v.atom < |atoms| && v.atom < |f.x| && Electrons.Sorted(table)
  {
    var L := f.box.At(axis);
    match Electrons.Lookup(table, atoms[v.atom].name)
    case None => 0.0
    case Some(e) =>
      if v.group == g && Slab.InSlice(Slab.Wrapped(f.x[v.atom].At(axis), L), s, Slab.SliceWidth(L, n))
      then (e.electrons as real - atoms[v.atom].q) * Slab.InvVolume(f.box, n)
      else 0.0
  }

  /** One frame's electron histogram: cell `(g, s)` collects the share of
      every visit. */
  function ElectronFrameHistogram(f: Frame, vs: seq<Visit>, atoms: seq<Atom>, table: seq<Electrons.Entry>, axis: Axis,
                                  n: int, g: nat, s: nat): real
    requires Covers(f, vs, atoms) && n > 0 && Electrons.Sorted(table)
  {
    if |vs| == 0 then 0.0
    else ElectronShare(f, vs[0], atoms, table, axis, n, g, s) + ElectronFrameHistogram(f, vs[1..], atoms, table, axis, n, g, s)
  }

  /** The electron histogram of a whole trajectory. */
  function ElectronHistogram(frames: seq<Frame>, vs: seq<Visit>, atoms: seq<Atom>, table: seq<Electrons.Entry>, axis: Axis,
                             n: int, g: nat, s: nat): real
    requires n > 0 && Electrons.Sorted(table) && forall i :: 0 <= i < |frames| ==> Covers(frames[i], vs, atoms)
  {
    if |frames| == 0 then 0.0
    else ElectronFrameHistogram(frames[0], vs, atoms, table, axis, n, g, s)
         + ElectronHistogram(frames[1..], vs, atoms, table, axis, n, g, s)
  }

  /** The name a visit reports: its atom's, when the table lacks it. */
  function MissingName(v: Visit, atoms: seq<Atom>, table: seq<Electrons.Entry>): (r: seq<string>)
    requires Electrons.Sorted(table) && v.atom < |atoms|
    ensures |r| <= 1
    ensures |r| == 0 <==> exists e :: e in table && e.name == atoms[v.atom].name
    ensures |r| == 1 ==> r[0] == atoms[v.atom].name && forall e :: e in table ==> e.name != r[0]
  {
    if Electrons.Lookup(table, atoms[v.atom].name).None? then [atoms[v.atom].name] else []
  }

  /** The names of the visited atoms the table lacks, in visiting order,
      one per visit. */
  function Unfound(vs: seq<Visit>, atoms: seq<Atom>, table: seq<Electrons.Entry>): seq<string>
    requires Electrons.Sorted(table) && forall k :: 0 <= k < |vs| ==> vs[k].atom < |atoms|
  {
    if |vs| == 0 then [] else MissingName(vs[0], atoms, table) + Unfound(vs[1..], atoms, table)
  }

  /** Every name `Unfound` lists is absent from the table. */
  lemma {:induction false} UnfoundAreAbsent(vs: seq<Visit>, atoms: seq<Atom>, table: seq<Electrons.Entry>)
    requires Electrons.Sorted(table) && forall k :: 0 <= k < |vs| ==> vs[k].atom < |atoms|
    ensures forall j :: 0 <= j < |Unfound(vs, atoms, table)| ==>
      forall e :: e in table ==> e.name != Unfound(vs, atoms, table)[j]
  {
    if |vs| > 0 {
      UnfoundAreAbsent(vs[1..], atoms, table);
      var head, rest := MissingName(vs[0], atoms, table), Unfound(vs[1..], atoms, table);
      assert Unfound(vs, atoms, table) == head + rest;
      forall j | 0 <= j < |head + rest|
        ensures forall e :: e in table ==> e.name != (head + rest)[j]
      {
        if j >= |head| {
          assert (head + rest)[j] == rest[j - |head|];
        } else {
          assert (head + rest)[j] == head[0];
        }
      }
    }
  }

  /** `Unfound` lists nothing exactly when every visited name is present. */
  lemma {:induction false} UnfoundEmpty(vs: seq<Visit>, atoms: seq<Atom>, table: seq<Electrons.Entry>)
    requires Electrons.Sorted(table) && forall k :: 0 <= k < |vs| ==> vs[k].atom < |atoms|
    ensures |Unfound(vs, atoms, table)| == 0 <==>
      forall k :: 0 <= k < |vs| ==> exists e :: e in table && e.name == atoms[vs[k].atom].name
  {
    if |vs| > 0 {
      UnfoundEmpty(vs[1..], atoms, table);
      if |Unfound(vs[1..], atoms, table)| == 0 {
        forall k | 1 <= k < |vs|
          ensures exists e :: e in table && e.name == atoms[vs[k].atom].name
        {
          assert vs[1..][k - 1] == vs[k];
        }
      } else {
        var k :| 0 <= k < |vs[1..]| && !exists e :: e in table && e.name == atoms[vs[1..][k].atom].name;
        assert vs[1..][k] == vs[k + 1];
      }
    }
  }

  /** `s` written `k` times over. */
  function Repeat(s: seq<string>, k: nat): seq<string> {
    if k == 0 then [] else s + Repeat(s, k - 1)
  }

  /** Writing a non-empty list once or more gives a non-empty list, and an
      empty one gives nothing. */
  lemma {:induction false} RepeatEmpty(s: seq<string>, k: nat)
    requires k > 0
    ensures |Repeat(s, k)| == 0 <==> |s| == 0
  {
    if k > 1 {
      RepeatEmpty(s, k - 1);
    }
  }

  // ---------------------------------------------------------------------
  // One frame
  // ---------------------------------------------------------------------

  /** The slab sums and the names reported missing so far. */
  datatype Run = Run(bins: Table, missing: seq<string>)

  /** Every visit has a topology atom and a position, and every atom whose
      name the table has stays inside the slab. An atom without an entry
      is never written, so its coordinate does not matter. */
  predicate ElectronFits(f: Frame, vs: seq<Visit>, atoms: seq<Atom>, table: seq<Electrons.Entry>, axis: Axis)
    requires Electrons.Sorted(table)
  {
    && Covers(f, vs, atoms)
    && forall k :: 0 <= k < |vs| ==>
         Electrons.Lookup(table, atoms[vs[k].atom].name).Some? ==> Slab.FitsSlab(f.x[vs[k].atom], f.box, axis)
  }

  /** One pass of the inner loops (g_mydensity.c:203-228): the wrapped
      coordinate picks the slice, the table is searched for the atom's
      name, and a miss is reported instead of deposited. */
  function ElectronAtomStep(run: Run, v: Visit, f: Frame, atoms: seq<Atom>, table: seq<Electrons.Entry>, axis: Axis,
                            n: int, ngroups: nat): (r: Run)
    requires PositiveBox(f.box) && n > 0 && Shaped(run.bins, ngroups, n) && Electrons.Sorted(table)
    requires v.group < ngroups && v.atom < |atoms| && v.atom < |f.x|
    requires Electrons.Lookup(table, atoms[v.atom].name).Some? ==> Slab.FitsSlab(f.x[v.atom], f.box, axis)
    ensures Shaped(r.bins, ngroups, n)
    ensures forall g, s :: 0 <= g < ngroups && 0 <= s < n ==>
      r.bins[g][s] == run.bins[g][s] + ElectronShare(f, v, atoms, table, axis, n, g, s)
    ensures r.missing == run.missing + MissingName(v, atoms, table)
  {
    var step := Slab.ElectronStore(run.bins, v.group, f.x[v.atom], f.box, axis, n, table, atoms[v.atom]);
    StoreAddsShare(run.bins, v, f, atoms, table, axis, n, ngroups);
    Run(step.bins, run.missing + if step.missing.Some? then [step.missing.value] else [])
  }

  /** The electron deposit adds exactly the visit's share to every cell. */
  lemma StoreAddsShare(bins: Table, v: Visit, f: Frame, atoms: seq<Atom>, table: seq<Electrons.Entry>, axis: Axis,
                       n: int, ngroups: nat)
    requires PositiveBox(f.box) && n > 0 && Shaped(bins, ngroups, n) && Electrons.Sorted(table)
    requires v.group < ngroups && v.atom < |atoms| && v.atom < |f.x|
    requires Electrons.Lookup(table, atoms[v.atom].name).Some? ==> Slab.FitsSlab(f.x[v.atom], f.box, axis)
    ensures var r := Slab.ElectronStore(bins, v.group, f.x[v.atom], f.box, axis, n, table, atoms[v.atom]).bins;
      && Shaped(r, ngroups, n)
      && forall g, s :: 0 <= g < ngroups && 0 <= s < n ==>
           r[g][s] == bins[g][s] + ElectronShare(f, v, atoms, table, axis, n, g, s)
  {
    var step := Slab.ElectronStore(bins, v.group, f.x[v.atom], f.box, axis, n, table, atoms[v.atom]);
    match Electrons.Lookup(table, atoms[v.atom].name) {
      case None =>
        assert step.bins == bins;
      case Some(e) =>
        forall g, s | 0 <= g < ngroups && 0 <= s < n
          ensures step.bins[g][s] == bins[g][s] + ElectronShare(f, v, atoms, table, axis, n, g, s)
        {
          ListedCell(bins, v, f, atoms, table, axis, n, e, g, s);
        }
    }
  }

  /** One cell after the deposit of an atom the table lists. */
  lemma ListedCell(bins: Table, v: Visit, f: Frame, atoms: seq<Atom>, table: seq<Electrons.Entry>, axis: Axis,
                   n: int, e: Electrons.Entry, g: nat, s: nat)
    requires PositiveBox(f.box) && n > 0 && v.group < |bins| && |bins[v.group]| == n && Electrons.Sorted(table)
    requires v.atom < |atoms| && v.atom < |f.x| && Slab.FitsSlab(f.x[v.atom], f.box, axis)
    requires Electrons.Lookup(table, atoms[v.atom].name) == Some(e)
    requires g < |bins| && s < |bins[g]|
    ensures var r := Slab.ElectronStore(bins, v.group, f.x[v.atom], f.box, axis, n, table, atoms[v.atom]).bins;
      g < |r| && s < |r[g]| && r[g][s] == bins[g][s] + ElectronShare(f, v, atoms, table, axis, n, g, s)
  {
    var weight := e.electrons as real - atoms[v.atom].q;
    Slab.SlabStoreCell(bins, v.group, f.x[v.atom], f.box, axis, n, weight, g, s);
    ListedShare(f, v, atoms, table, axis, n, g, s, e);
  }

  /** The share of an atom the table lists. */
  lemma ListedShare(f: Frame, v: Visit, atoms: seq<Atom>, table: seq<Electrons.Entry>, axis: Axis, n: int,
                    g: nat, s: nat, e: Electrons.Entry)
    requires PositiveBox(f.box) && n > 0 && v.atom < |atoms| && v.atom < |f.x| && Electrons.Sorted(table)
    requires Electrons.Lookup(table, atoms[v.atom].name) == Some(e)
    ensures var L := f.box.At(axis);
      ElectronShare(f, v, atoms, table, axis, n, g, s)
      == if g == v.group && Slab.InSlice(Slab.Wrapped(f.x[v.atom].At(axis), L), s, Slab.SliceWidth(L, n))
         then (e.electrons as real - atoms[v.atom].q) * Slab.InvVolume(f.box, n)
         else 0.0
  {
  }

  /** The atoms of one frame in visiting order. */
  function ElectronAtomLoop(run: Run, vs: seq<Visit>, f: Frame, atoms: seq<Atom>, table: seq<Electrons.Entry>, axis: Axis,
                            n: int, ngroups: nat): (r: Run)
    requires PositiveBox(f.box) && n > 0 && Shaped(run.bins, ngroups, n) && Electrons.Sorted(table)
    requires forall k :: 0 <= k < |vs| ==> vs[k].group < ngroups
    requires ElectronFits(f, vs, atoms, table, axis)
    ensures Shaped(r.bins, ngroups, n)
    ensures r.missing == run.missing + Unfound(vs, atoms, table)
    decreases |vs|
  {
    if |vs| == 0 then run
    else
      var r1 := ElectronAtomStep(run, vs[0], f, atoms, table, axis, n, ngroups);
      FitsTail(f, vs, atoms, table, axis);
      var r := ElectronAtomLoop(r1, vs[1..], f, atoms, table, axis, n, ngroups);
      AppendAssoc(run.missing, MissingName(vs[0], atoms, table), Unfound(vs[1..], atoms, table));
      r
  }

  /** Over one frame, every cell collects the frame's electron histogram. */
  lemma {:induction false} ElectronAtomLoopSum(run: Run, vs: seq<Visit>, f: Frame, atoms: seq<Atom>,
                                               table: seq<Electrons.Entry>, axis: Axis, n: int, ngroups: nat)
    requires PositiveBox(f.box) && n > 0 && Shaped(run.bins, ngroups, n) && Electrons.Sorted(table)
    requires forall k :: 0 <= k < |vs| ==> vs[k].group < ngroups
    requires ElectronFits(f, vs, atoms, table, axis)
    ensures var r := ElectronAtomLoop(run, vs, f, atoms, table, axis, n, ngroups);
      forall g, s :: 0 <= g < ngroups && 0 <= s < n ==>
        r.bins[g][s] == run.bins[g][s] + ElectronFrameHistogram(f, vs, atoms, table, axis, n, g, s)
    decreases |vs|
  {
    if |vs| > 0 {
      var r1 := ElectronAtomStep(run, vs[0], f, atoms, table, axis, n, ngroups);
      FitsTail(f, vs, atoms, table, axis);
      ElectronAtomLoopSum(r1, vs[1..], f, atoms, table, axis, n, ngroups);
    }
  }

  /** What the first visit leaves fitting, the rest still fit. */
  lemma FitsTail(f: Frame, vs: seq<Visit>, atoms: seq<Atom>, table: seq<Electrons.Entry>, axis: Axis)
    requires |vs| > 0 && Electrons.Sorted(table) && ElectronFits(f, vs, atoms, table, axis)
    ensures ElectronFits(f, vs[1..], atoms, table, axis)
  {
    assert forall k :: 0 <= k < |vs| - 1 ==> vs[1..][k] == vs[k + 1];
  }

  /** Concatenation is associative. */
  lemma AppendAssoc(a: seq<string>, b: seq<string>, c: seq<string>)
    ensures (a + b) + c == a + (b + c)
  {
  }

  /** Every frame fits the electron profile of the visits. */
  predicate FramesFit(frames: seq<Frame>, vs: seq<Visit>, atoms: seq<Atom>, table: seq<Electrons.Entry>, axis: Axis)
    requires Electrons.Sorted(table)
  {
    forall i :: 0 <= i < |frames| ==> ElectronFits(frames[i], vs, atoms, table, axis)
  }

  /** What every frame fits, every later frame fits. */
  lemma FramesTail(frames: seq<Frame>, vs: seq<Visit>, atoms: seq<Atom>, table: seq<Electrons.Entry>, axis: Axis)
    requires |frames| > 0 && Electrons.Sorted(table) && FramesFit(frames, vs, atoms, table, axis)
    ensures ElectronFits(frames[0], vs, atoms, table, axis)
    ensures FramesFit(frames[1..], vs, atoms, table, axis)
    ensures forall i :: 0 <= i < |frames| ==> Covers(frames[i], vs, atoms)
  {
    forall i | 0 <= i < |frames[1..]|
      ensures ElectronFits(frames[1..][i], vs, atoms, table, axis)
    {
      assert frames[1..][i] == frames[i + 1];
    }
  }

  /** The `do ... while` over every frame (g_mydensity.c:189-234). */
  function ElectronFrames(run: Run, frames: seq<Frame>, vs: seq<Visit>, atoms: seq<Atom>, table: seq<Electrons.Entry>,
                          axis: Axis, n: int, ngroups: nat): (r: Run)
    requires n > 0 && Shaped(run.bins, ngroups, n) && Electrons.Sorted(table)
    requires forall k :: 0 <= k < |vs| ==> vs[k].group < ngroups
    requires FramesFit(frames, vs, atoms, table, axis)
    ensures Shaped(r.bins, ngroups, n)
    decreases |frames|
  {
    if |frames| == 0 then run
    else
      FramesTail(frames, vs, atoms, table, axis);
      ElectronFrames(ElectronAtomLoop(run, vs, frames[0], atoms, table, axis, n, ngroups), frames[1..], vs, atoms, table, axis, n, ngroups)
  }

  /** Over the frames, every cell collects its electron histogram. */
  lemma {:induction false} ElectronFramesSum(run: Run, frames: seq<Frame>, vs: seq<Visit>, atoms: seq<Atom>,
                                             table: seq<Electrons.Entry>, axis: Axis, n: int, ngroups: nat)
    requires n > 0 && Shaped(run.bins, ngroups, n) && Electrons.Sorted(table)
    requires forall k :: 0 <= k < |vs| ==> vs[k].group < ngroups
    requires FramesFit(frames, vs, atoms, table, axis)
    ensures forall i :: 0 <= i < |frames| ==> Covers(frames[i], vs, atoms)
    ensures var r := ElectronFrames(run, frames, vs, atoms, table, axis, n, ngroups);
      forall g, s :: 0 <= g < ngroups && 0 <= s < n ==>
        r.bins[g][s] == run.bins[g][s] + ElectronHistogram(frames, vs, atoms, table, axis, n, g, s)
    decreases |frames|
  {
    if |frames| > 0 {
      FramesTail(frames, vs, atoms, table, axis);
      var r1 := ElectronAtomLoop(run, vs, frames[0], atoms, table, axis, n, ngroups);
      ElectronAtomLoopSum(run, vs, frames[0], atoms, table, axis, n, ngroups);
      ElectronFramesSum(r1, frames[1..], vs, atoms, table, axis, n, ngroups);
    }
  }

  /** Over the frames, every missing name is reported once per frame, in
      visiting order. */
  lemma {:induction false} ElectronFramesMissing(run: Run, frames: seq<Frame>, vs: seq<Visit>, atoms: seq<Atom>,
                                                 table: seq<Electrons.Entry>, axis: Axis, n: int, ngroups: nat)
    requires n > 0 && Shaped(run.bins, ngroups, n) && Electrons.Sorted(table)
    requires forall k :: 0 <= k < |vs| ==> vs[k].group < ngroups && vs[k].atom < |atoms|
    requires FramesFit(frames, vs, atoms, table, axis)
    ensures ElectronFrames(run, frames, vs, atoms, table, axis, n, ngroups).missing
      == run.missing + Repeat(Unfound(vs, atoms, table), |frames|)
    decreases |frames|
  {
    if |frames| > 0 {
      FramesTail(frames, vs, atoms, table, axis);
      var r1 := ElectronAtomLoop(run, vs, frames[0], atoms, table, axis, n, ngroups);
      ElectronFramesMissing(r1, frames[1..], vs, atoms, table, axis, n, ngroups);
      var u := Unfound(vs, atoms, table);
      AppendAssoc(run.missing, u, Repeat(u, |frames| - 1));
    }
  }

  // ---------------------------------------------------------------------
  // calc_electron_density
  // ---------------------------------------------------------------------

  /** What `calc_electron_density` hands back: the profile divided by the
      frame count, the sums it was divided from, the slice count and width
      (of the last frame), the frame count, and the names it reported. */
  datatype ElectronProfile = ElectronProfile(
    density: Table,
    sums: Table,
    nslices: int,
    slWidth: real,
    nframes: nat,
    missing: seq<string>)

  /** Every frame fits the `n`-slice electron profile of the groups of `index`. */
  predicate ElectronRunnable(frames: seq<Frame>, index: seq<seq<nat>>, atoms: seq<Atom>, table: seq<Electrons.Entry>,
                             axis: Axis, n: int)
    requires Electrons.Sorted(table)
  {
    n > 0 && FramesFit(frames, Visits(index), atoms, table, axis)
  }

  /** The electron profile of a run: each sum the cell's histogram over all
      frames, the densities those sums divided by the frame count, the
      slice width that of the last frame, and every missing name reported
      in every frame. */
  predicate ElectronProfileMatches(p: ElectronProfile, frames: seq<Frame>, index: seq<seq<nat>>, atoms: seq<Atom>,
                                   table: seq<Electrons.Entry>, axis: Axis, n: int)
    requires n > 0 && Electrons.Sorted(table)
    requires forall i :: 0 <= i < |frames| ==> Covers(frames[i], Visits(index), atoms)
    requires forall k :: 0 <= k < |Visits(index)| ==> Visits(index)[k].atom < |atoms|
  {
    && |frames| > 0
    && p.nslices == n && p.nframes == |frames|
    && PositiveBox(frames[|frames| - 1].box)
    && p.slWidth == Slab.SliceWidth(frames[|frames| - 1].box.At(axis), n)
    && Shaped(p.sums, |index|, n)
    && (forall g, s :: 0 <= g < |index| && 0 <= s < n ==>
          p.sums[g][s] == ElectronHistogram(frames, Visits(index), atoms, table, axis, n, g, s))
    && p.density == Slab.Finalize(p.sums, |frames|)
    && p.missing == Repeat(Unfound(Visits(index), atoms, table), |frames|)
  }

  /** The frame loop and the final division (g_mydensity.c:246-249) for an
      `n`-slice profile. */
  function RunElectronFrames(frames: seq<Frame>, index: seq<seq<nat>>, atoms: seq<Atom>, table: seq<Electrons.Entry>,
                             axis: Axis, n: int): (p: ElectronProfile)
    requires |frames| > 0 && Electrons.Sorted(table)
    requires ElectronRunnable(frames, index, atoms, table, axis, n)
    ensures forall k :: 0 <= k < |Visits(index)| ==> Visits(index)[k].atom < |atoms|
    ensures ElectronProfileMatches(p, frames, index, atoms, table, axis, n)
  {
    var vs := Visits(index);
    var start := Run(Zeros(|index|, n), []);
    FramesTail(frames, vs, atoms, table, axis);
    ElectronFramesSum(start, frames, vs, atoms, table, axis, n, |index|);
    ElectronFramesMissing(start, frames, vs, atoms, table, axis, n, |index|);
    var run := ElectronFrames(start, frames, vs, atoms, table, axis, n, |index|);
    var last := frames[|frames| - 1].box;
    ElectronProfile(Slab.Finalize(run.bins, |frames|), run.bins, n, Slab.SliceWidth(last.At(axis), n), |frames|, run.missing)
  }

  /** `calc_electron_density` (g_mydensity.c:147-252): an invalid axis, an
      empty trajectory and a slice count the profile rows cannot be
      allocated with are fatal, in that order; a zero slice count takes its
      default from the first frame. Every slab cell ends up as its electron
      histogram over all frames divided by the frame count. */
  function CalcElectronDensity(frames: seq<Frame>, index: seq<seq<nat>>, atoms: seq<Atom>, table: seq<Electrons.Entry>,
                               nslices: int, axis: int): (r: Result<ElectronProfile>)
    requires Electrons.Sorted(table)
    requires 0 <= axis < 3 && |frames| > 0 && !AllocationFails(Options.DefaultSlices(nslices, frames[0].box.At(axis)), index) ==>
      ElectronRunnable(frames, index, atoms, table, axis, Options.DefaultSlices(nslices, frames[0].box.At(axis)))
    ensures r.Fail? <==>
      || !(0 <= axis < 3) || |frames| == 0
      || AllocationFails(Options.DefaultSlices(nslices, frames[0].box.At(axis)), index)
    ensures !(0 <= axis < 3) ==> r == Fail(InvalidAxis)
    ensures 0 <= axis < 3 && |frames| == 0 ==> r == Fail(NoCoordinates)
    ensures 0 <= axis < 3 && |frames| > 0 && AllocationFails(Options.DefaultSlices(nslices, frames[0].box.At(axis)), index) ==>
      r == Fail(OutOfMemory)
    ensures r.Ok? ==>
      && 0 <= axis < 3 && |frames| > 0
      && (forall k :: 0 <= k < |Visits(index)| ==> Visits(index)[k].atom < |atoms|)
      && ElectronProfileMatches(r.value, frames, index, atoms, table, axis,
                                Options.DefaultSlices(nslices, frames[0].box.At(axis)))
  {
    if !(0 <= axis < 3) then Fail(InvalidAxis)
    else if |frames| == 0 then Fail(NoCoordinates)
    else if AllocationFails(Options.DefaultSlices(nslices, frames[0].box.At(axis)), index) then Fail(OutOfMemory)
    else Ok(RunElectronFrames(frames, index, atoms, table, axis, Options.DefaultSlices(nslices, frames[0].box.At(axis))))
  }

  // ---------------------------------------------------------------------
  // Properties
  // ---------------------------------------------------------------------

  /** Nothing is reported over a non-empty trajectory exactly when every
      visited atom's name is in the table. */
  lemma NothingMissing(vs: seq<Visit>, atoms: seq<Atom>, table: seq<Electrons.Entry>, k: nat)
    requires Electrons.Sorted(table) && forall j :: 0 <= j < |vs| ==> vs[j].atom < |atoms|
    requires k > 0
    ensures |Repeat(Unfound(vs, atoms, table), k)| == 0
      <==> forall j :: 0 <= j < |vs| ==> exists e :: e in table && e.name == atoms[vs[j].atom].name
  {
    UnfoundEmpty(vs, atoms, table);
    RepeatEmpty(Unfound(vs, atoms, table), k);
  }

  /** Every name reported, in any frame, is one the table lacks. */
  lemma {:induction false} ReportedNamesAreMissing(vs: seq<Visit>, atoms: seq<Atom>, table: seq<Electrons.Entry>, k: nat)
    requires Electrons.Sorted(table) && forall j :: 0 <= j < |vs| ==> vs[j].atom < |atoms|
    ensures var r := Repeat(Unfound(vs, atoms, table), k);
      forall j :: 0 <= j < |r| ==> forall e :: e in table ==> e.name != r[j]
  {
    if k > 0 {
      UnfoundAreAbsent(vs, atoms, table);
      ReportedNamesAreMissing(vs, atoms, table, k - 1);
      var u := Unfound(vs, atoms, table);
      var r := Repeat(u, k);
      assert r == u + Repeat(u, k - 1);
      forall j | 0 <= j < |r|
        ensures forall e :: e in table ==> e.name != r[j]
      {
        if j >= |u| {
          assert r[j] == Repeat(u, k - 1)[j - |u|];
        }
      }
    }
  }

  /** An atom whose name the table lacks contributes to no cell. */
  lemma UnlistedAtomAddsNothing(f: Frame, v: Visit, atoms: seq<Atom>, table: seq<Electrons.Entry>, axis: Axis, n: int,
                                g: nat, s: nat)
    requires PositiveBox(f.box) && n > 0 && v.atom < |atoms| && v.atom < |f.x| && Electrons.Sorted(table)
    requires forall e :: e in table ==> e.name != atoms[v.atom].name
    ensures ElectronShare(f, v, atoms, table, axis, n, g, s) == 0.0
  {
  }
}
