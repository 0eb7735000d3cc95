# Per-watershed flood estimator: SCS-CN runoff and fill-to-volume surface

This Dafny project models the numerical core of two QGIS simulation scripts,
`04_Scripts/Local_Simulation_v2.py` and `04_Scripts/demo1.py`. For one watershed
and one rainfall scenario, the scripts:

1. turn land use into curve numbers (CN);
2. compute the runoff volume with the SCS curve-number method of the USDA NRCS
   National Engineering Handbook, Part 630, Chapter 10. The retention is
   S = 25400/CN − 254, the initial abstraction is Ia = 0.2·S and the runoff
   depth is Q = (P − Ia)² / (P − Ia + S);
3. find the water-surface elevation whose storage below the surface matches that
   volume, with a 25-step bisection;
4. write a depth grid: the surface minus the ground on each flooded cell.

Elevations, curve numbers and volumes are Dafny `real`s. Rasters are flattened,
in raster order, to sequences of cells. Every operation is cell by cell or a
whole-array reduction, so a grid's shape is its length and "same shape" means
"same length".

Modules, one file each:

- `RasterMath` (`raster_math.dfy`): the numpy reductions the scripts use.
  These are `np.sum`, `np.min`, `np.max`, `np.mean`, boolean-mask indexing
  `arr[mask]` (`Select`) and `np.sum(mask)` (`Count`), with their lemmas.
- `LandUse` (`land_use.dfy`): `remap_lu_to_cn` and the configured rule table.
  The reference function `CnOf` gives the last matching rule's CN, or the
  default. The imperative `RemapLuToCn` fills an array and overwrites it rule by
  rule, and is proved equal to `CnOf` cell by cell.
- `ScsRunoff` (`scs_runoff.dfy`): `calculate_scs_volume`. The datatype
  `Script` selects the curve-number guard:
  - `Local_Simulation_v2.py` rejects CN > 100;
  - `demo1.py` rejects CN ≥ 100.

  `ScriptsDifferOnlyAtCn100` proves that this is the only difference. At
  CN = 100 the retention is 0, so the first script turns all rain into runoff,
  while `demo1.py` reports none.
- `Storage` (`storage.dfy`): `get_volume_below_elevation`. The method clamps
  the depth array in place, sums it, and is proved equal to the function
  `VolumeBelow`. The lemmas about `VolumeBelow` are non-negativity, zero at or
  below the lowest cell, positive above it, and monotone in the elevation.
- `FloodSolver` (`flood_solver.dfy`): `find_flood_elevation` as a 25-iteration
  `for` loop, with the bracket invariants as loop invariants.
  `FloodSolverExample` calls it on the ground profile [0, 1, 2, 3, 4] with unit
  cells and a target of 6, and proves that the surface lies in
  [3, 3 + 4.4/2²⁵).
- `Watershed` (`watershed.dfy`): the in-memory part of `main` in both scripts.
  This covers the validity mask, the mean CN and area of the valid cells, the
  call to the solver only when some cell is valid, and the depth grid. A
  lemma ties the depth grid back to the storage function: the grid's summed
  depth times the pixel area equals `VolumeBelow` of the valid cells at the
  surface. So, unless the solver stopped at its ceiling, the depth grid holds at
  least the runoff volume.

A worked value: 230 mm of rain (the 100-year scenario of `demo1.py`) on 1 km²
with CN 70 gives exactly 53114944000/388430 m³, about 136,742.5 m³
(`ScsVolumeWorkedExample`).

## Model

| member | source | states |
|---|---|---|
| `LandUse.RemapLuToCn` | 04_Scripts/Local_Simulation_v2.py:88-103 | The result has the input grid's shape, and every cell is the CN that `CnOf` gives its land-use code after all rules are applied in order. |
| `LandUse.CnOfLastMatch` | 04_Scripts/Local_Simulation_v2.py:96-101 | A code covered by rule k and by no later rule gets rule k's CN: the last matching rule wins. |
| `LandUse.CnOfNoMatch` | 04_Scripts/Local_Simulation_v2.py:93 | A code that no rule covers keeps the default CN the grid was filled with. |
| `LandUse.CnOfBounds` | 04_Scripts/Local_Simulation_v2.py:93-101 | If the default and every rule's CN lie in [lo, hi], every remapped CN does too. |
| `LandUse.ConfiguredCnRange` | 04_Scripts/Local_Simulation_v2.py:68-75 | With the configured table (codes 1–4 → 15, 5 → 100, 7 → 30, 8 → 85, default 50), every code maps to a CN in [15, 100]. |
| `ScsRunoff.RetentionNonNegative` | 04_Scripts/Local_Simulation_v2.py:109 | S = 25400/CN − 254 is ≥ 0 for 0 < CN ≤ 100. |
| `ScsRunoff.DepthForRetention` | 04_Scripts/Local_Simulation_v2.py:110-114 | For a retention S ≥ 0: Q = 0 when P ≤ 0.2·S, otherwise 0 < Q ≤ P − 0.2·S. |
| `ScsRunoff.QuotientBounds` | 04_Scripts/Local_Simulation_v2.py:114 | (P − Ia)² / (P − Ia + S) lies in (0, P − Ia] when P − Ia > 0 and S ≥ 0. |
| `ScsRunoff.RunoffDepth` | 04_Scripts/Local_Simulation_v2.py:109-114 | Q = 0 when P ≤ Ia. Otherwise 0 < Q ≤ P − Ia, because the denominator P − Ia + S is positive. |
| `ScsRunoff.ScsVolume` | 04_Scripts/Local_Simulation_v2.py:106-115 | `calculate_scs_volume` as a function of the script variant, P, CN and area; its contract is carried by `ScsVolumeCases`, `ScsVolumeNonNegative`, `ScsVolumeAtMostRain`, `ScsVolumeMonotoneInRain` and `ScriptsDifferOnlyAtCn100`. |
| `ScsRunoff.ScsVolumeCases` | 04_Scripts/Local_Simulation_v2.py:106-115 | Exactly 0 for a rejected CN (≤ 10, or > 100 in this script, ≥ 100 in `demo1.py`), whatever P and the area. Exactly 0 when P ≤ Ia. Otherwise Q/1000 · area, which is positive on a positive area. |
| `ScsRunoff.ScsVolumeNonNegative` | 04_Scripts/demo1.py:60-69 | For a non-negative area the runoff volume is ≥ 0, in both scripts. |
| `ScsRunoff.ScsVolumeAtMostRain` | 04_Scripts/Local_Simulation_v2.py:109-115 | For an accepted CN and P, area ≥ 0: the volume is at most (P − Ia)/1000 · area when P > Ia, and at most P/1000 · area in every case. |
| `ScsRunoff.DepthForRetentionMonotone` | 04_Scripts/Local_Simulation_v2.py:110-114 | For a fixed retention S ≥ 0 the runoff depth is non-decreasing in P, across the P = Ia threshold too. |
| `ScsRunoff.RunoffDepthMonotone` | 04_Scripts/Local_Simulation_v2.py:111-114 | The runoff depth is non-decreasing in P for a fixed accepted CN. |
| `ScsRunoff.QuotientMonotone` | 04_Scripts/Local_Simulation_v2.py:114 | (P − Ia)² / (P − Ia + S) is non-decreasing in P − Ia > 0 for S ≥ 0. |
| `ScsRunoff.RunoffVolumeMonotone` | 04_Scripts/Local_Simulation_v2.py:109-115 | For an accepted CN and a non-negative area, (Q/1000) · area is non-decreasing in P. |
| `ScsRunoff.ScsVolumeMonotoneInRain` | 04_Scripts/demo1.py:60-69 | The runoff volume is non-decreasing in P for a fixed CN and a non-negative area, in both scripts. |
| `ScsRunoff.ScriptsDifferOnlyAtCn100` | 04_Scripts/demo1.py:62 | The two guards agree for every CN except 100. At CN = 100, `demo1.py` gives 0, while `Local_Simulation_v2.py` gives P/1000 · area for P > 0. |
| `ScsRunoff.ScsVolumeWorkedExample` | 04_Scripts/demo1.py:50-69 | P = 230, CN = 70 and 1 km² give exactly 53114944000/388430 m³, which lies between 136,742 and 136,743. |
| `Storage.VolumeBelow` | 04_Scripts/Local_Simulation_v2.py:118-122 | `get_volume_below_elevation` as a function: pixel area times the summed max(elevation − d, 0). Its properties are the `VolumeBelow…` lemmas below, and `GetVolumeBelowElevation` is proved to compute it. |
| `Storage.GetVolumeBelowElevation` | 04_Scripts/Local_Simulation_v2.py:118-122 | The subtract, clamp-in-place and sum steps compute `VolumeBelow`: the pixel area times the sum of max(elevation − d, 0) over the cells. |
| `Storage.VolumeBelowNonNegative` | 04_Scripts/demo1.py:71-75 | The storage volume is ≥ 0 for a non-negative pixel area. |
| `Storage.VolumeBelowZeroUnderGround` | 04_Scripts/Local_Simulation_v2.py:120-121 | A surface at or below every cell stores nothing. |
| `Storage.VolumeBelowZeroAtMin` | 04_Scripts/Local_Simulation_v2.py:120-122 | The storage volume is 0 whenever the elevation is ≤ min(dem). |
| `Storage.VolumeBelowPositive` | 04_Scripts/Local_Simulation_v2.py:120-122 | A surface above some cell stores a positive volume on a positive pixel area. |
| `Storage.VolumeBelowPositiveAboveMin` | 04_Scripts/Local_Simulation_v2.py:120-122 | Above min(dem), a positive pixel area gives a positive storage volume. |
| `Storage.VolumeBelowMonotone` | 04_Scripts/Local_Simulation_v2.py:120-122 | The storage volume is non-decreasing in the elevation for a fixed array and a non-negative pixel area. |
| `RasterMath.Min` | 04_Scripts/Local_Simulation_v2.py:128 | np.min of a non-empty array is a lower bound of every cell and is attained by some cell. |
| `RasterMath.Max` | 04_Scripts/Local_Simulation_v2.py:129 | np.max of a non-empty array is an upper bound of every cell and is attained by some cell. |
| `RasterMath.Count` | 04_Scripts/Local_Simulation_v2.py:243-246 | `np.sum(valid_mask)`: at most the number of cells (its ensures), and zero exactly when no cell is selected (`CountZero`). |
| `RasterMath.CountZero` | 04_Scripts/Local_Simulation_v2.py:243 | The count of a mask is 0 if and only if the mask selects no cell, so the `np.sum(valid_mask) > 0` test is "some cell is valid". |
| `RasterMath.Select` | 04_Scripts/Local_Simulation_v2.py:244-247 | `arr[valid_mask]` has one cell per selected cell (its ensures), and each of its cells is a selected cell of the grid (`SelectFrom`, `SelectBounds`). |
| `RasterMath.SelectFrom` | 04_Scripts/Local_Simulation_v2.py:244 | Every cell of arr[mask] is some cell of arr that the mask selects. |
| `RasterMath.SelectBounds` | 04_Scripts/Local_Simulation_v2.py:244 | Bounds that hold on every selected cell hold on every cell of arr[mask]. |
| `RasterMath.Mean` | 04_Scripts/Local_Simulation_v2.py:245 | `np.mean` over a non-empty array: the sum over the cell count; its contract is `MeanBounds`. |
| `RasterMath.MeanBounds` | 04_Scripts/Local_Simulation_v2.py:245 | The mean of cells that all lie in [lo, hi] lies in [lo, hi]. |
| `FloodSolver.FindFloodElevation` | 04_Scripts/Local_Simulation_v2.py:125-140 | A target ≤ 0 returns min(dem). Otherwise: the result lies in [min, max + 0.1·(max − min)]. The final lower bound, result − width/2²⁵, is ≥ min and stores less than the target. The result reaches the target unless it is the initial ceiling. If pixel area ≥ 0 and the ceiling falls short, the ceiling is returned. Every elevation at or below the final lower bound stores less than the target. |
| `FloodSolver.ShortOfTargetBelow` | 04_Scripts/Local_Simulation_v2.py:134-137 | If the storage at a surface is short of the target, so is the storage at every lower surface, for a non-negative pixel area: the reason the bisection may move `low` up. |
| `FloodSolver.SolvedSurfaceNearMinimal` | 04_Scripts/Local_Simulation_v2.py:127-140 | For a positive target and pixel area ≥ 0, every surface at or below a solved surface minus one final bracket width (W/2²⁵) stores less than the target. |
| `FloodSolver.SolvedSurfaceReachesTarget` | 04_Scripts/demo1.py:77-92 | For a surface returned below the ceiling, the storage at that surface is ≥ the target. |
| `FloodSolver.HalveWidth` | 04_Scripts/demo1.py:85-91 | Each bisection step halves the bracket, so after i steps its width is the initial width / 2^i. |
| `FloodSolverExample.StaircaseExample` | 04_Scripts/demo1.py:77-92 | On ground [0, 1, 2, 3, 4] with unit cells and a target of 6, the result lies in [3, 3 + 4.4/2²⁵). |
| `Watershed.ValidMaskV2` | 04_Scripts/Local_Simulation_v2.py:241 | `valid_mask = (arr_dem != nodata_val) & (arr_lu > 0)`, cell by cell, of the DEM's shape; a band without a nodata value rejects no cell. Used by `SimulateScenarioV2` and `ConfiguredMeanCnAccepted`. |
| `Watershed.ValidMaskDemo1` | 04_Scripts/demo1.py:163 | `valid_mask = (arr_dem != nodata_val) & (arr_cn > 0)`, cell by cell, of the DEM's shape. Used by `SimulateWatershedDemo1`. |
| `Watershed.FloodDepthGrid` | 04_Scripts/Local_Simulation_v2.py:256-260 | The depth grid has the DEM's shape. It is 0 outside the valid mask and where dem ≥ flood_elev, and flood_elev − dem elsewhere. Every depth is ≥ 0, and a depth is > 0 exactly on valid cells below the surface. |
| `Watershed.FloodDepthSum` | 04_Scripts/demo1.py:181-188 | The depth grid's sum equals the sum of max(flood_elev − d, 0) over arr_dem[valid_mask]. |
| `Watershed.FloodDepthVolume` | 04_Scripts/Local_Simulation_v2.py:256-260 | The depth grid's sum times the pixel area equals `VolumeBelow` of the valid cells at the flood surface. |
| `Watershed.FloodDepthHoldsRunoff` | 04_Scripts/Local_Simulation_v2.py:250-260 | Unless the solver returned its ceiling, the depth grid times the pixel area holds at least the runoff volume. |
| `Watershed.SimulatedSkipped` | 04_Scripts/Local_Simulation_v2.py:243 | An evaluation is skipped if and only if the validity mask selects no cell. |
| `Watershed.Evaluate` | 04_Scripts/demo1.py:165-188 | For a mask that selects some cell: avg_cn is the mean CN of the valid cells, and ws_area is the valid count times the pixel area. The target is the SCS volume of the script's variant. The surface satisfies `SolvedSurface` on arr_dem[valid_mask]: the minimum for a target ≤ 0; otherwise in the bracket, reaching the target unless at the ceiling, with the point one final bracket width below it still in the bracket and short of the target. The depth grid is built from that surface. |
| `Watershed.SimulateScenarioV2` | 04_Scripts/Local_Simulation_v2.py:237-260 | The CN grid is the remapped land-use grid. The mask is "DEM ≠ nodata and LU > 0". The scenario is skipped exactly when no cell is valid; otherwise it evaluates as `Evaluate` states, with this script's CN guard. |
| `Watershed.SimulateWatershedDemo1` | 04_Scripts/demo1.py:163-188 | The mask is "DEM ≠ nodata and CN > 0". There is one outcome per rainfall scenario. Every outcome is skipped when no cell is valid; otherwise each evaluates as `Evaluate` states, with the CN ≥ 100 guard. |
| `Watershed.ConfiguredMeanCnAccepted` | 04_Scripts/Local_Simulation_v2.py:241-250 | With the configured rule table, the mean CN of any non-empty valid area lies in [15, 100], so the CN guard of this script never zeroes the runoff. |

## Left out

- QGIS and GDAL are foreign libraries whose logic is not visible, so they are
  left out. This covers loading the layers, writing the mask shapefile,
  `gdal:cliprasterbymasklayer`, `gdal:warpreproject`, `gdal.Open` and
  `ReadAsArray`, and GeoTIFF creation and writing. The DEM, land-use and CN
  grids, the band's nodata value and the pixel area enter as parameters, and
  the depth grid is returned instead of written.
- The pixel area, `abs(pixel_size_x * pixel_size_y)`, is a parameter, because
  the pixel sizes come from the raster layer.
- Temporary-file cleanup and the `try`/`except` blocks are left out as
  operating-system plumbing.
- The merge scripts, `04_Scripts/Local_Merge_v2.py` and
  `04_Scripts/demo1_merge.py`, are left out. They only list files and call
  `gdal:merge`.
- Configuration paths, directory creation and `print` progress output are left
  out. The scenario rainfalls are parameters. The rule table and default CN are
  constants (`LuToCnRules`, `DefaultCn`) that `RemapLuToCn` takes as
  parameters.
- The batch loops are orchestration, so they are left out. These are the loop
  over watersheds, the per-watershed exception containment, and the scenario
  loop of `Local_Simulation_v2.py`, including its skip when a land-use file is
  missing or fails to open. `SimulateScenarioV2` models the body of one
  scenario.
- Floating point is not modelled. These cover `float32` grids, IEEE rounding
  of the midpoints, and NaN comparisons, including a NaN nodata value that
  never compares equal. All arithmetic is exact over the reals.
- FindFloodElevation requires a non-empty sample. On an empty
  array `np.min` raises, and both scripts call the solver only after checking
  that the valid count is positive.
- FindFloodElevation: its contract describes the result through
  the bracket invariants and monotonicity. It does not name the exact sequence
  of midpoints the 25 steps visit.
- FindFloodElevation: the clause saying a short ceiling is
  returned unchanged, and the near-minimality clause, are stated only for a
  non-negative pixel area. They rest on monotonicity of the storage volume,
  which needs that; the scripts' pixel area is an absolute value.
