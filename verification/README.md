# g_mydensity in Dafny

A model of the core of `g_mydensity`, a modified GROMACS 3.2/4.x density tool. The tool
turns a trajectory into partial densities of atom groups. Three accumulators run over the
same frames:

- the **slab profile** (`calc_density`, `calc_electron_density`, `plot_density` in
  `g_mydensity.c`). Each atom's coordinate along the chosen axis is wrapped into the box
  and binned into one of `nslices` slices. The deposit is its weight (mass, 1, charge, or
  electrons less charge) times the inverse slice volume `nslices / (Lx Ly Lz)`.
- the **height grid** (`-og`, `grid_mode.c`). This is a `shape[0] x shape[1]` grid over
  the plane normal to the axis. An atom is moved into the box and deposits
  `m * shape[0] * shape[1] / V` into its cell.
- the **distance profile** (`-od`, `dist_mode.c`). An atom is binned by its minimum
  (in-plane or 3D) distance to a reference group, into shells out to half the smallest
  box edge. It deposits `m / V_shell`.

Every accumulator is divided by the number of frames at the end. Mass densities are
converted from amu/nm^3 to kg/m^3. The electron table (`get_electrons`) is a small text
file read once, sorted with `strcmp` order and searched with `bsearch`.

Modules, one per concern:

| file | module | what it holds |
|---|---|---|
| `common.dfy` | `Common` | axes, boxes, fatal outcomes, constants, C's `(int)` cast, per-group tables |
| `options.dfy` | `Options` | command-line defaults and what `gmx_mydensity` derives from them |
| `electrons.dfy` | `Electrons` | `compare`, the sort, `bsearch`, the `sscanf` reader of the electron file and its round trip |
| `slab.dfy` | `Slab` | wrapping, slice index, slab deposits, final division, `plot_density` rows and symmetrisation |
| `grid.dfy` | `GridMode` | `build_grids`, `grid_start_frame`, `grid_store`, `grid_end` |
| `dist.dfy` | `DistMode` | `_min_distance`, `build_dist`, `dist_start_frame`, `dist_store`, `dist_end` |
| `density.dfy` | `Density` | the frame and atom loops of `calc_density` |
| `electron_density.dfy` | `ElectronDensity` | the frame and atom loops of `calc_electron_density` |

Modelling choices:

- Physical quantities are `real`. C's `(int)` conversion is `Common.Trunc`, which truncates
  toward zero.
- Each operation on an optional accumulator takes and returns an `Option`. `None` is the
  NULL handle, on which every call does nothing.
- Every `gmx_fatal`/`exit(1)` is a `Fail` of a `Result`. The error kind is `Common.Fatal`.
- Two GROMACS primitives are function-typed parameters: `put_atom_in_box` is
  `Common.BoxWrap` and `norm(pbc_dx(...))` is `Common.Metric`. Only what the accumulators
  rely on is assumed of them. The wrap lands in `[0, L)` and leaves in-box points alone.
  The distance is non-negative.
- Reading frames, topology and index files, writing files, and `gmx_rmpbc` are outside
  the model. A trajectory is a sequence of `Frame`s (box edges and positions). A group
  index is a `seq<seq<nat>>`.
- The loops are specified against independent reference histograms. There is one per
  accumulator: `Density.Histogram` (slab), `Density.GridHistogram` (height grid),
  `Density.DistHistogram` (distance profile) and `ElectronDensity.ElectronHistogram`. Each
  is a plain sum, over frames and visits, of what each atom adds to each cell. The driver
  lemmas prove that the accumulated sums equal these histograms cell by cell.
  - The distance reference follows the positions within a frame. With a grid, every atom
    visited so far has been moved into the box in place, and later distances are measured
    on those moved positions.

Where the code departs from the tool's written description of itself, the model follows
the code:

- The slab wrap loops (`g_mydensity.c:324-327`) bring a coordinate into `[0, L]`, not
  `[0, L)`. The write at `g_mydensity.c:331` has no range check.
  - An atom that ends up exactly on the upper edge gets slice `nslices`, one past the end
    (`Slab.UpperEdgeOverflows`).
  - The model therefore makes "the write stays in range" (`Slab.FitsSlab`) a precondition
    of the slab deposit. It is not treated as a dropped atom.
  - With a grid, `grid_store` has already moved the atom into `[0, L)` in place. The slab
    then never overflows (`Density.SlabSeesWrappedAtom`).
- The grid write cannot go out of range. `put_atom_in_box` lands in `[0, L)` and the cell
  width is `L / shape` (`GridMode.WrappedAtomFitsGrid`).
- In 3D the distance profile excludes no axis (`axis[1] = -1`). In 2D it excludes the
  normal axis. `max_dist` is the smallest half edge over all three axes in 3D, and over
  the two in-plane axes in 2D.
- The 2D annulus height is the current frame's box edge along the normal. No average is
  taken.
- `_min_distance` returns `GMX_REAL_MAX` for an empty reference group.
- Charge and electron weights can be negative. A slab bin is therefore not monotone over
  the run, and no such property is stated.
- `build_dist` does not check the axis. `calc_density` checks it after the accumulators are
  built.
- `build_grids` and `build_dist` receive the raw `-sl` count. The zero-means-default rule
  applies only to the slab profile, inside `calc_density`.

## Model

| member | source | states |
|---|---|---|
| Common.Trunc | g_mydensity.c:330 | `(int)` of a real truncates toward zero: for non-negative arguments it is the floor, for negative ones the ceiling |
| Common.Zeros | g_mydensity.c:289-291 | a freshly allocated profile has the requested shape and every cell is zero |
| Common.AddAt | g_mydensity.c:331 | `t[g][s] += v` changes that one cell by `v` and leaves every other cell and the shape alone |
| Common.AddAtTotal | g_mydensity.c:331 | one deposit conserves weight: the profile's total grows by exactly the deposited amount |
| Common.UnitScale | g_mydensity.c:390-391 | mass densities are scaled by `AMU / NANO^3` = 1.6605402, every other kind by 1 |
| Common.Normalise | grid_mode.c:113-121 | every cell times the divisor equals the old cell times the unit factor; the shape is kept |
| Options.ToUpper | g_mydensity.c:497 | `toupper` maps exactly the lower-case letters to upper case (offset 32) and leaves every other character alone |
| Options.AxisOf | g_mydensity.c:497 | the axis index is in `0..2` exactly when the title starts with X, Y or Z in either case, and is 0, 1 or 2 accordingly; an empty title yields `-'X'` |
| Options.AxisLabelRoundTrip | grid_mode.c:109 | the axis letter `grid_end` prints names the same axis when read back as a title |
| Options.AxisOfFirstCharacter | g_mydensity.c:497 | only the first character of the title matters |
| Options.DefaultSlices | g_mydensity.c:284-287 | a non-zero count is kept; zero becomes `(int)(10 L)` for the first frame's edge `L` |
| Options.DefaultSlicesAreTenthNanometre | g_mydensity.c:177-178 | the default is the number of whole 0.1 nm slices that fit in the edge, and is positive exactly when the edge is at least 0.1 nm |
| Options.SecondShape | g_mydensity.c:523-525 | a positive second dimension is kept, otherwise the first is copied; the result is positive iff either is |
| Options.GridBuildsWithDefaultShape | g_mydensity.c:522-528 | with the second dimension defaulted, the grid is built exactly when the slice count is positive and the axis valid |
| Options.Resolve | g_mydensity.c:492-495 | after resolving, `-symm` implies `-center`, `-center` is on iff it or `-symm` was, and no other setting changes |
| Options.ResolveIdempotent | g_mydensity.c:492-495 | resolving twice is resolving once |
| Options.DefaultsAreConsistent | g_mydensity.c:425-433 | the defaults need no resolving, name the z axis, and the default second dimension copies the first |
| Options.WeightFor | g_mydensity.c:500-506 | an atom weighs 1 for number density, its charge for charge density, its mass otherwise |
| Options.Weigh | g_mydensity.c:500-506 | every atom's mass becomes its weight for the density kind; names, charges and count are kept |
| Options.WeighIdempotent | g_mydensity.c:500-506 | overwriting the masses a second time changes nothing |
| Options.WeighKeepsMasses | g_mydensity.c:500-506 | mass and electron densities leave the topology unchanged |
| Electrons.Compare | g_mydensity.c:74-80 | the sign of `strcmp` on two names |
| Electrons.CompareZero | g_mydensity.c:79 | `strcmp` is zero exactly for equal names |
| Electrons.SortEntries | g_mydensity.c:115-118 | the sorted table is a permutation of the read entries, ascending under `compare` |
| Electrons.Search | g_mydensity.c:218-221 | binary search returns an index holding the key, or none when no entry in the range holds it |
| Electrons.Lookup | g_mydensity.c:218-223 | `bsearch` finds an entry of the table with the atom's name, and returns NULL iff no entry has that name |
| Electrons.LookupAfterSort | g_mydensity.c:115-121 | whatever the file order, lookup after sorting finds exactly the entry listed under a name, and nothing for an unlisted name |
| Electrons.ScanInt | g_mydensity.c:100 | `%d` consumes a non-empty prefix of the line and leaves the rest unread |
| Electrons.ScanEntryName | g_mydensity.c:107 | the name `%s` reads is non-empty, holds no white space, is the first token of the line, and is followed by white space, so a name written against its `=` never scans |
| Electrons.ScanEntryValue | g_mydensity.c:107 | after the name come white space, `=`, and the entry's count, which is the integer `%d` reads after the `=` |
| Electrons.ScanEntryRejectsBlank | g_mydensity.c:107-108 | a line of white space only does not scan, so it is reported as an invalid line |
| Electrons.ScanEntryNeedsEquals | g_mydensity.c:107-108 | a line scans only if it holds an `=`; any other line is reported as an invalid line |
| Electrons.ParseFrom | g_mydensity.c:105-112 | the entry lines are read in order; success iff all `nr` lines exist and scan; otherwise the first missing line is a truncation error and the first unscannable line `k` is reported as line `k + 1` |
| Electrons.LoadEntries | g_mydensity.c:103-118 | reading succeeds iff every entry line scans, and yields `nr` entries, sorted, a permutation of the lines read |
| Electrons.LoadTable | g_mydensity.c:82-121 | an empty file, an unreadable count and unreadable entry lines are fatal; on success the count is the first line's number and the table is the sorted permutation of the entry lines |
| Electrons.ScanIntRoundTrip | g_mydensity.c:100 | `%d` reads back any integer written in decimal and stops right after it |
| Electrons.ScanEntryRoundTrip | g_mydensity.c:108 | `%s = %d` reads back a `name = electrons` line for any white-space-free name |
| Electrons.FormattedLinesScan | g_mydensity.c:95-109 | a file in the documented layout has a readable count line and every entry line reads back as its entry |
| Electrons.LoadFormattedTable | g_mydensity.c:82-121 | loading a file in the documented layout succeeds, returns the entry count, and holds exactly the written entries |
| Slab.Wrapped | g_mydensity.c:324-327 | the wrapped coordinate lies in `[0, L]`; in-box coordinates are untouched; one from below lands in `[0, L)` and one from above in `(0, L]` |
| Slab.WrapAlongAxis | g_mydensity.c:324-327 | the two `while` loops terminate and leave exactly the closed-form wrapped coordinate |
| Slab.WrappedFixesBox | g_mydensity.c:324-327 | a coordinate already in `[0, L]` is not moved |
| Slab.WrappedIsPeriodicImage | g_mydensity.c:324-327 | wrapping moves a coordinate by a whole number of box lengths |
| Slab.WrappedIdempotent | g_mydensity.c:324-327 | wrapping twice is wrapping once |
| Slab.SliceWidth | g_mydensity.c:313 | the slice width is positive and `nslices` slices span the box edge |
| Slab.QuotientSlice | g_mydensity.c:330 | `(int)(z / w)` names the slice of width `w` that contains a non-negative `z` |
| Slab.SliceIndex | g_mydensity.c:330 | the slice index of a non-negative coordinate is non-negative, its slice contains the coordinate, and it is below `nslices` iff the coordinate is below the edge |
| Slab.SliceIsUnique | g_mydensity.c:330 | the slice containing a coordinate is the one the index names |
| Slab.SliceIndexMonotone | g_mydensity.c:330 | farther along the axis never means a lower slice |
| Slab.UpperEdgeOverflows | g_mydensity.c:326-331 | an atom wrapped onto the upper edge gets index `nslices`, one past the last slice |
| Slab.InvVolume | g_mydensity.c:314 | `invvol` is positive and `invvol * V == nslices`, the inverse volume of one slice |
| Slab.SlabStore | g_mydensity.c:323-331 | the weight times `invvol` goes to exactly the slice of the group that contains the wrapped coordinate; every other cell is unchanged; the total grows by the deposit |
| Slab.SlabStoreCell | g_mydensity.c:331 | each single cell after the slab deposit: the deposit in the containing slice of the group, the old value elsewhere |
| Slab.ElectronStore | g_mydensity.c:206-228 | a name missing from the table is reported and deposits nothing; a listed name deposits `(electrons - q) * invvol` as the slab deposit does |
| Slab.Finalize | g_mydensity.c:353-357 | every bin times the frame count equals its sum; the shape is kept |
| Slab.Symmetrize | g_mydensity.c:386-387 | the symmetrised profile reads the same from both ends, keeps each mirrored pair's sum, and leaves a symmetric profile unchanged |
| Slab.SymmetrizeIdempotent | g_mydensity.c:386-387 | symmetrising twice is symmetrising once |
| Slab.PlotRows | g_mydensity.c:383-396 | row `i` is at `i * slWidth` and holds slice `i` of each group, symmetrised under `-symm`, converted to kg/m^3 only for mass density |
| Slab.SymmetrizedPlotIsPalindrome | g_mydensity.c:383-396 | under `-symm` row `i` and row `n - 1 - i` print the same values |
| Slab.SymmetricProfilePrintsUnchanged | g_mydensity.c:386-389 | a symmetric profile prints the same with or without `-symm` |
| GridMode.PlaneAxes | grid_mode.c:36-49 | the two in-plane axes differ from the normal and come in increasing order |
| GridMode.BuildGrids | grid_mode.c:7-65 | a non-positive dimension is fatal, then an invalid axis; otherwise the grids are shaped and zero, the counters are zero, and the axes are a permutation with the normal first |
| GridMode.GridStartFrame | grid_mode.c:81-94 | one more frame; the widths times the dimensions span the in-plane edges; the edge sums grow by this frame's edges; `invvol * V == shape[0] * shape[1]`; the grids are untouched; no grid, no change |
| GridMode.GridStoreCell | grid_mode.c:96-106 | on a started grid, cell `(i, j)` of grid `h` gains `m * invvol` exactly when `h` is the atom's group and the atom, moved into the box, lies in slice `i` and slice `j` of the two in-plane axes; every other cell keeps its value |
| GridMode.CellIndexInRange | grid_mode.c:101-102 | each cell index of a non-negative point names the cell containing it, and is in range iff the point is inside the box along that axis |
| GridMode.CellOf | grid_mode.c:101-103 | for a non-negative in-plane coordinate, `(int)(x / width)` is a non-negative index naming the slice of that width that contains it, on each of the two in-plane axes |
| GridMode.WrappedAtomFitsGrid | grid_mode.c:100-104 | after `put_atom_in_box` the unguarded grid write is always in range |
| GridMode.DepositInCell | grid_mode.c:101-104 | the amount is added to exactly the cell whose two slices contain the point; every other cell is unchanged |
| GridMode.GridStore | grid_mode.c:96-106 | the atom is moved into the box in place and `m * invvol` goes to exactly the cell above which it sits; nothing else changes; no grid, no change |
| GridMode.Block | grid_mode.c:134-144 | a group's block is one line per grid row followed by `&&` |
| GridMode.BlocksLength | grid_mode.c:133-145 | with every grid `rows` rows high, the blocks take `ngroups * (rows + 1)` lines |
| GridMode.BlocksLayout | grid_mode.c:133-145 | line `k * (rows + 1) + i` holds row `i` of group `k`'s grid, or the `&&` closing it |
| GridMode.NormaliseAll | grid_mode.c:112-121 | every cell of every grid times the frame count equals the old cell times the unit factor |
| GridMode.GridEnd | grid_mode.c:108-147 | the grids are divided by the frame count and unit-converted; the file holds the mean in-plane widths, the two axis letters, the legend, then the blocks; no grid, no output |
| GridMode.Report | grid_mode.c:122-145 | the written lines follow the header-then-blocks layout for the given grids |
| GridMode.ReportLines | grid_mode.c:122-145 | the grid file is `5 + ngroups * (shape[0] + 1)` lines long |
| DistMode.BuildDist | dist_mode.c:41-111 | a non-positive length is fatal; otherwise the bins and counters are zero and the excluded axis is `-1` in 3D, the normal in 2D |
| DistMode.MaxDistance | dist_mode.c:129-137 | `max_dist` is the smallest half edge over the included axes, bounded by `INT_MAX`, and positive for a positive box |
| DistMode.DistStartFrame | dist_mode.c:126-149 | one more frame; this box's radius, `width * length == max_dist`, the radius sum grows by it, the height is the normal edge; the bins are untouched; no accumulator, no change |
| DistMode.Project | dist_mode.c:21-31 | the excluded component is zeroed and every other kept |
| DistMode.MinOf | dist_mode.c:20-37 | the result is at most every distance and is one of them, or `GMX_REAL_MAX` when none is smaller |
| DistMode.MinDistance | dist_mode.c:14-39 | the minimum projected distance to the reference atoms: at most each, attained by one, `GMX_REAL_MAX` for an empty group |
| DistMode.Radius | dist_mode.c:172-173 | `r_k * length == max_dist * k` |
| DistMode.ShellVolume | dist_mode.c:174-177 | `vslice` is the volume enclosed by the outer radius of shell `k` minus the volume enclosed by its inner radius: a ball in 3D, a cylinder of the box height in 2D |
| DistMode.ShellsTile | dist_mode.c:172-177 | the first `m` shells fill the ball (3D) or cylinder (2D) of radius `r_m` |
| DistMode.ShellsFillMaxDistance | dist_mode.c:172-177 | all shells together have the volume of the ball or cylinder of radius `max_dist` |
| DistMode.ShellVolumePositive | dist_mode.c:174-181 | every shell volume is positive, so the division at line 181 is safe |
| DistMode.AtomDistance | dist_mode.c:167-168 | the distance an atom is binned by is non-negative |
| DistMode.Bin | dist_mode.c:170-171 | the bin is non-negative and below `length` iff the distance is below `max_dist` |
| DistMode.BinContainsDistance | dist_mode.c:170-173 | the shell of the chosen bin contains the distance |
| DistMode.RadiusIsSliceEdge | dist_mode.c:170-173 | the inner radius of shell `k` is `k` bin widths |
| DistMode.Deposit | dist_mode.c:181 | the bin's shell volume is positive and the bin gains `m / V_shell` |
| DistMode.DistStore | dist_mode.c:151-185 | an in-range bin gains `m / V_shell`; an out-of-range distance changes nothing; only the bins change; no accumulator, no change |
| DistMode.DistEnd | dist_mode.c:187-207 | the mean radius times the frame count is the radius sum; row `i` sits at `i` mean bin widths and holds every group's bin divided by the frame count, unit-converted |
| DistMode.Report | dist_mode.c:190-205 | the rows of the distance file for an accumulator with at least one frame |
| Density.Visits | g_mydensity.c:317-318 | the visits are the atoms of every group with their groups; there are as many as group members |
| Density.VisitAt | g_mydensity.c:317-318 | atom `i` of group `g` is visited after all earlier groups, at position `i` of its group's run |
| Density.WrapIdempotent | grid_mode.c:100 | moving an atom into the box twice is moving it once |
| Density.SlabSeesWrappedAtom | g_mydensity.c:319-331 | after `grid_store` moved an atom in place, the slab loops leave it alone and the slab write is in range |
| Density.GridPart | g_mydensity.c:319-320 | `grid_store` for one atom: the grid write is in range, and the position is moved in place only with a grid |
| Density.DistPart | g_mydensity.c:321-322 | `dist_store` bins the atom on the positions as `grid_store` left them; nothing else changes |
| Density.SlabPart | g_mydensity.c:323-331 | the slab deposit adds to each cell exactly the visit's share |
| Density.SlabStoreAddsShare | g_mydensity.c:323-331 | the slab deposit at the position the step reads adds exactly the visit's share to every cell |
| Density.AtomStep | g_mydensity.c:319-331 | one atom passes through `grid_store`, `dist_store` and the slab deposit in order, each seeing what the previous one left |
| Density.AtomLoop | g_mydensity.c:317-335 | over one frame every slab cell gains the frame's histogram, and the grid and distance accumulators keep their shape |
| Density.GridStoreAddsShare | grid_mode.c:96-106 | `grid_store` on an atom at its frame position, or already moved into the box, adds exactly the visit's grid share to every cell |
| Density.DistStoreAddsShare | dist_mode.c:151-185 | `dist_store` on a started accumulator adds exactly the visit's distance share to every bin, including nothing when the distance is at or beyond `max_dist` |
| Density.AtomStepGrid | g_mydensity.c:319-320 | one atom step adds exactly the visit's grid share to every grid cell |
| Density.AtomStepDist | g_mydensity.c:321-322 | one atom step adds exactly the visit's distance share, measured on the positions `grid_store` left, to every bin |
| Density.AtomLoopGrid | g_mydensity.c:317-335 | over one frame every grid cell gains the frame's grid histogram |
| Density.AtomLoopDist | g_mydensity.c:317-335 | over one frame every distance bin gains the frame's distance histogram, with each visit seeing the positions the earlier visits left |
| Density.FrameStepGrid | g_mydensity.c:300-337 | one frame adds its grid histogram to every grid cell |
| Density.FrameStepDist | g_mydensity.c:300-337 | one frame adds its distance histogram, starting from the frame's own positions, to every bin |
| Density.FramesGrid | g_mydensity.c:300-337 | over the frames every grid cell collects its grid histogram |
| Density.FramesDist | g_mydensity.c:300-337 | over the frames every distance bin collects its distance histogram |
| Density.FramesCollect | g_mydensity.c:300-337 | over the frames the grid, if any, and the distance accumulator, if any, each collect their histograms |
| Density.RunOutputs | g_mydensity.c:299-357 | the accumulators handed to `grid_end` and `dist_end` are advanced over every frame and hold every cell's and bin's histogram over the run |
| Density.RunProfile | g_mydensity.c:299-357 | after the frame loop and the final division, each slab sum equals its reference histogram over all frames, the density is that sum divided by the frame count, and the slice width is the last frame's |
| Density.StartFrame | g_mydensity.c:310-311 | starting a frame advances the grid and distance accumulators by that frame and leaves the slab alone |
| Density.FrameStep | g_mydensity.c:300-337 | one frame adds its histogram to every slab cell and advances the frame counts and edge sums by one frame |
| Density.Frames | g_mydensity.c:300-337 | the frame loop advances the grid and distance frame counts and edge or radius sums by the whole trajectory |
| Density.FramesSum | g_mydensity.c:300-337 | over the frames every slab cell collects its reference histogram |
| Density.Finish | g_mydensity.c:340-357 | the density is the sums divided by the frame count; the width is the last frame's; the accumulators go to `grid_end` and `dist_end` as the loop left them |
| Density.RunFrames | g_mydensity.c:299-357 | each slab sum equals its reference histogram over all frames and the density is that divided by the frame count; the grid cells and distance bins handed to `grid_end` and `dist_end` equal their histograms over all frames, and the frame counts and edge sums are advanced over every frame |
| Density.CalcDensity | g_mydensity.c:254-360 | an invalid axis, then an empty trajectory, then a negative slice count with at least one group to allocate for, is fatal; otherwise the slab, grid and distance accumulators match their histograms for the default-resolved slice count |
| Density.FreshGridReportsMeanEdges | grid_mode.c:123-126 | for a freshly built grid, the widths `grid_end` writes are the in-plane edges averaged over the frames |
| Density.FreshDistReportsMeanRadius | dist_mode.c:191-192 | for a freshly built distance profile, the radius `dist_end` reports is the per-frame radii averaged over the frames |
| ElectronDensity.MissingName | g_mydensity.c:223-225 | a visit reports its atom's name iff no table entry has it |
| ElectronDensity.UnfoundAreAbsent | g_mydensity.c:223-225 | every name reported for a frame is absent from the table |
| ElectronDensity.UnfoundEmpty | g_mydensity.c:223-225 | a frame reports nothing iff every visited name is in the table |
| ElectronDensity.ElectronAtomStep | g_mydensity.c:204-229 | one atom adds its electron share to each cell and appends its name iff it is missing |
| ElectronDensity.StoreAddsShare | g_mydensity.c:223-228 | the electron deposit adds exactly the visit's share to every cell |
| ElectronDensity.ElectronAtomLoop | g_mydensity.c:204-231 | over one frame the profile keeps its shape and the missing names of the frame's visits are appended in order |
| ElectronDensity.ElectronAtomLoopSum | g_mydensity.c:204-231 | over one frame every cell gains the frame's electron histogram |
| ElectronDensity.ElectronFrames | g_mydensity.c:191-233 | the frame loop keeps the profile's shape |
| ElectronDensity.ElectronFramesSum | g_mydensity.c:191-233 | over the frames every cell collects its electron histogram |
| ElectronDensity.ElectronFramesMissing | g_mydensity.c:191-233 | every missing name is reported once per frame, in visiting order |
| ElectronDensity.RunElectronFrames | g_mydensity.c:191-249 | each sum equals its electron histogram over all frames, the density is that divided by the frame count, and the missing names are reported every frame |
| ElectronDensity.CalcElectronDensity | g_mydensity.c:147-252 | an invalid axis, then an empty trajectory, then a negative slice count with at least one group to allocate for, is fatal; otherwise the profile matches the electron histograms for the default-resolved slice count |
| ElectronDensity.NothingMissing | g_mydensity.c:223-225 | nothing is reported over a non-empty trajectory iff every visited name is in the table |
| ElectronDensity.ReportedNamesAreMissing | g_mydensity.c:223-225 | every name reported in any frame is absent from the table |
| ElectronDensity.UnlistedAtomAddsNothing | g_mydensity.c:223-228 | an atom whose name the table lacks adds nothing to any cell |

## Left out

- File I/O is not modelled. This covers reading the trajectory, topology, index and electron files, the `fgets` limit of 255 characters per line and the 80-character name buffer, and every output file. The files are modelled as sequences of lines or records, and the outputs as the values written.
- Number formatting (`%12g`, `%7.3f`) and the `xvgr` headers are not modelled. The output rows hold the exact values rather than their printed text.
- Floating point is not modelled. Every quantity is an exact real, so single-precision rounding, NaN and infinity are out of scope. This also means the `(float)` casts in `dist_store` are not modelled. Neither is the cast `slice = distance/dist->width` (`dist_mode.c:170`) when the quotient exceeds `INT_MAX`. That happens in particular when an empty reference group leaves the distance at `GMX_REAL_MAX`. In C that conversion is undefined, and in practice it yields `INT_MIN`, which passes the `slice < length` guard. `DistMode.DistStore` deposits nothing in that case.
- `gmx_rmpbc` (making molecules whole) is an external GROMACS routine and is left out. The frames arrive as given.
- `center_coords` (`-center`, `g_mydensity.c:307-308`) is left out. It needs the external `calc_box_center`. In the program it translates every position before the grid, distance and slab accumulators see the frame, and `-symm` forces it on. The model takes each frame as it is after that translation and does not model the translation itself. `Options.Resolve` still models how `-symm` turns centring on.
- The centre-of-mass branch of the distance profile is left out (`bCOM`, `get_mass`, `center_of_mass`, `make_2D`, `get_distance`). Its command-line switch is commented out, so `bCOM` is always false.
- `min_dist`, which `dist_store` calls, lives in `distances.h`, and that file is not part of this model. `_min_distance` (`DistMode.MinDistance`) is used in its place.
- `pbc_dx` and `norm` are the `Metric` parameter. Only their non-negativity is assumed.
- `put_atom_in_box` is the `BoxWrap` parameter. Only "lands in `[0, L)`, fixes in-box points" is assumed.
- A NULL `pbc` (`ePBC == epbcNONE`) would make `grid_store` dereference NULL. This is not modelled: `grid_store` always receives the frame's box.
- Memory management is not modelled: `clean_grids`, `clean_dist`, `sfree` and `snew` failure. There are two exceptions, both modelled as fatal (`OutOfMemory`). One is a negative atom-type count. The other is a negative slice count when there is at least one group to allocate a profile row for.
- Density.CalcDensity: with no groups at all (`-ng 0`) no profile row is allocated, so a negative slice count is not fatal there. That run is excluded by the `n > 0` of `Runnable` rather than modelled.
- ElectronDensity.CalcElectronDensity: the same holds for a negative slice count with no groups. `ElectronRunnable` excludes it.
- GridMode.GridStartFrame: `shape[0] * shape[1]` at `grid_mode.c:91` is a C `int` product. The model multiplies unbounded integers, so it does not model the overflow once the product passes `INT_MAX` (for example `-sl 50000` with `-og`). In C that overflow is undefined behaviour.
- Electrons.ScanInt: `%d` at `g_mydensity.c:100` and `:108` reads into a C `int`. The model reads an unbounded integer, so it does not model the undefined behaviour of a number outside the `int` range.
- `dist_end_frame` is declared in `dist_mode.h` but has no definition in `dist_mode.c`, so it is left out.
- `qsort` is modelled by an insertion sort. Only its result is modelled: a sorted permutation. Entries with equal names may end up in any order, in the model as in `qsort`.
- Only diagonal boxes are modelled: the model reads `box[i][i]` only, as the code does. Degenerate boxes (an edge of zero or less) are excluded by `PositiveBox` preconditions.
- Options.DefaultSlices: a box edge under 0.1 nm gives a zero slice count, and the slab functions then require `n > 0`. Such a run is outside the preconditions rather than modelled as the division by zero it causes.
- Slab.SlabStore: the slab write at `g_mydensity.c:331` has no range check. The model requires it to be in range (`FitsSlab`) instead of modelling the out-of-bounds write. `Slab.UpperEdgeOverflows` names the input that breaks it.
- Density.RunFrames: weight conservation (`Common.AddAtTotal`, and the `Total` ensures of `Slab.SlabStore`) is proved per deposit. It is not carried through the frame loop, where the cellwise histogram equations are stated instead.
- Density.Finish: the profile carries the final grid and distance accumulators. It does not carry the files `grid_end` and `dist_end` write from them; those are `GridMode.GridEnd` and `DistMode.DistEnd` of the carried accumulators.
- ElectronDensity.ElectronAtomStep: the message for a missing atom name is modelled as the name appended to a list. The message text on `stderr` is not modelled.
- Zero frames cannot occur, because `read_first_x` returning no atoms is fatal first. The division by zero at the end is therefore not modelled.
- The `-ng`, `-dens` and `-sl` parsing of `parse_common_args` and the interactive `get_index` group selection are left out. They arrive as parameters.
