/**
  The in-memory part of `main` in both scripts for one watershed and one
  scenario: the validity mask, the mean CN and area of the valid cells, the
  runoff volume, the flood surface and the depth grid written out as a
  raster. Grids are flattened to sequences of cells in raster order.
 */
module Watershed {
  import opened RasterMath
  import opened LandUse
  import opened ScsRunoff
  import opened Storage
  import opened FloodSolver

  datatype Option<T> = None | Some(value: T)

  /**
    `arr_dem != nodata_val` for one cell; GDAL reports a band without a
    nodata value as None, which no cell equals.
   */
  predicate HasData(d: real, nodata: Option<real>)
  {
    nodata.None? || d != nodata.value
  }

  /** valid_mask of Local_Simulation_v2.py: DEM has data and the land-use code is positive. */
  function ValidMaskV2(dem: seq<real>, nodata: Option<real>, lu: seq<int>): seq<bool>
    requires |lu| == |dem|
  {
    seq(|dem|, i requires 0 <= i < |dem| => HasData(dem[i], nodata) && lu[i] > 0)
  }

  /** valid_mask of demo1.py: DEM has data and the CN raster is positive. */
  function ValidMaskDemo1(dem: seq<real>, nodata: Option<real>, cn: seq<real>): seq<bool>
    requires |cn| == |dem|
  {
    seq(|dem|, i requires 0 <= i < |dem| => HasData(dem[i], nodata) && cn[i] > 0.0)
  }

  /**
    The depth grid: the depth below the surface on valid cells lower than
    the surface, and the no-flood value 0 everywhere else.
   */
  predicate IsFloodDepth(dem: seq<real>, valid: seq<bool>, floodElev: real, depth: seq<real>)
  {
    |valid| == |dem| && |depth| == |dem| &&
    forall i :: 0 <= i < |dem| ==>
      depth[i] == if valid[i] && dem[i] < floodElev then floodElev - dem[i] else 0.0
  }

  /**
    flood_depth: a zero grid of the DEM's shape, then flood_elev - dem
    assigned through valid_mask & (arr_dem < flood_elev). Every depth is
    non-negative, and positive exactly on valid cells below the surface.
   */
  method FloodDepthGrid(dem: seq<real>, valid: seq<bool>, floodElev: real) returns (depth: seq<real>)
    requires |valid| == |dem|
    ensures IsFloodDepth(dem, valid, floodElev, depth)
    ensures forall i :: 0 <= i < |depth| ==>
              depth[i] >= 0.0 && (depth[i] > 0.0 <==> valid[i] && dem[i] < floodElev)
  {
    var grid := new real[|dem|](_ => 0.0);
    for i := 0 to |dem|
      invariant forall k :: 0 <= k < i ==>
                  grid[k] == if valid[k] && dem[k] < floodElev then floodElev - dem[k] else 0.0
      invariant forall k :: i <= k < |dem| ==> grid[k] == 0.0
    {
      if valid[i] && dem[i] < floodElev {
        grid[i] := floodElev - dem[i];
      }
    }
    depth := grid[..];
  }

  /**
    The depth grid holds exactly the water the storage function counts for
    the valid cells: its sum equals the summed depths over arr_dem[valid_mask].
   */
  lemma {:induction false} FloodDepthSum(dem: seq<real>, valid: seq<bool>, floodElev: real, depth: seq<real>)
    requires IsFloodDepth(dem, valid, floodElev, depth)
    ensures Sum(depth) == Sum(Depths(Select(dem, valid), floodElev))
  {
    if dem != [] {
      var n := |dem| - 1;
      FloodDepthPrefix(dem, valid, floodElev, depth);
      FloodDepthSum(dem[..n], valid[..n], floodElev, depth[..n]);
      var front := Select(dem[..n], valid[..n]);
      assert Sum(depth) == Sum(depth[..n]) + depth[n];
      if valid[n] {
        assert Select(dem, valid) == front + [dem[n]];
        DepthsSnoc(front, dem[n], floodElev);
        SumSnoc(Depths(front, floodElev), Clamp(floodElev - dem[n]));
      } else {
        assert Select(dem, valid) == front;
      }
    }
  }

  /** Dropping the last cell of all three grids keeps them a depth grid. */
  lemma {:induction false} FloodDepthPrefix(dem: seq<real>, valid: seq<bool>, floodElev: real, depth: seq<real>)
    requires IsFloodDepth(dem, valid, floodElev, depth) && dem != []
    ensures IsFloodDepth(dem[..|dem| - 1], valid[..|dem| - 1], floodElev, depth[..|dem| - 1])
  {
  }

  /** Times the pixel area, the depth grid's water is the storage below the surface. */
  lemma {:induction false} FloodDepthVolume(dem: seq<real>, valid: seq<bool>, floodElev: real, depth: seq<real>, pixelArea: real)
    requires IsFloodDepth(dem, valid, floodElev, depth)
    ensures Sum(depth) * pixelArea == VolumeBelow(Select(dem, valid), pixelArea, floodElev)
  {
    FloodDepthSum(dem, valid, floodElev, depth);
  }

  /** What one (watershed, scenario) evaluation produced. */
  datatype Outcome =
    | Skipped   // no valid cell: nothing is computed or written
    | Flooded(avgCn: real, wsArea: real, targetVol: real, floodElev: real, depth: seq<real>)

  /**
    The evaluation of one scenario given the validity mask and the CN grid:
    skipped exactly when no cell is valid; otherwise the mean CN and area of
    the valid cells, the SCS volume of the script's variant, a surface that
    satisfies the solver's contract on arr_dem[valid_mask], and its depth grid.
   */
  predicate Simulated(script: Script, dem: seq<real>, valid: seq<bool>, cn: seq<real>,
                      pixelArea: real, p: real, out: Outcome)
    requires |valid| == |dem| && |cn| == |dem|
  {
    if Count(valid) == 0 then out == Skipped
    else
      var demValid := Select(dem, valid);
      && out.Flooded?
      && out.avgCn == Mean(Select(cn, valid))
      && out.wsArea == Count(valid) as real * pixelArea
      && out.targetVol == ScsVolume(script, p, out.avgCn, out.wsArea)
      && SolvedSurface(demValid, out.targetVol, pixelArea, out.floodElev)
      && IsFloodDepth(dem, valid, out.floodElev, out.depth)
  }

  /** An evaluation is skipped exactly when the mask selects no cell at all. */
  lemma {:induction false} SimulatedSkipped(script: Script, dem: seq<real>, valid: seq<bool>, cn: seq<real>,
                                            pixelArea: real, p: real, out: Outcome)
    requires |valid| == |dem| && |cn| == |dem|
    requires Simulated(script, dem, valid, cn, pixelArea, p, out)
    ensures out.Skipped? <==> forall i :: 0 <= i < |valid| ==> !valid[i]
  {
    CountZero(valid);
  }

  /** The runoff, surface and depth grid for a mask that selects some cell. */
  method Evaluate(script: Script, dem: seq<real>, valid: seq<bool>, cn: seq<real>, pixelArea: real, p: real)
    returns (out: Outcome)
    requires |valid| == |dem| && |cn| == |dem| && Count(valid) > 0
    ensures Simulated(script, dem, valid, cn, pixelArea, p, out)
  {
    var avgCn := Mean(Select(cn, valid));
    var wsArea := Count(valid) as real * pixelArea;
    var demValid := Select(dem, valid);
    var targetVol := ScsVolume(script, p, avgCn, wsArea);
    var floodElev := FindFloodElevation(demValid, targetVol, pixelArea);
    assert SolvedSurface(demValid, targetVol, pixelArea, floodElev);
    var depth := FloodDepthGrid(dem, valid, floodElev);
    out := Flooded(avgCn, wsArea, targetVol, floodElev, depth);
  }

  /**
    One scenario of Local_Simulation_v2.py: remap the scenario's land-use
    grid to CN, build the mask, and evaluate when some cell is valid.
   */
  method SimulateScenarioV2(dem: seq<real>, nodata: Option<real>, lu: seq<int>, rules: seq<Rule>,
                            defaultCn: real, pixelArea: real, p: real)
    returns (out: Outcome)
    requires |lu| == |dem|
    ensures Simulated(SimulationV2, dem, ValidMaskV2(dem, nodata, lu), Remapped(lu, rules, defaultCn), pixelArea, p, out)
  {
    var cn := RemapLuToCn(lu, rules, defaultCn);
    assert cn == Remapped(lu, rules, defaultCn);
    var valid := ValidMaskV2(dem, nodata, lu);
    if Count(valid) > 0 {
      out := Evaluate(SimulationV2, dem, valid, cn, pixelArea, p);
    } else {
      out := Skipped;
    }
  }

  /**
    One watershed of demo1.py: the mask, mean CN and area are computed once
    from the CN raster, then every rainfall scenario is evaluated in turn.
   */
  method SimulateWatershedDemo1(dem: seq<real>, nodata: Option<real>, cn: seq<real>,
                                pixelArea: real, rainfalls: seq<real>)
    returns (outs: seq<Outcome>)
    requires |cn| == |dem|
    ensures |outs| == |rainfalls|
    ensures forall k :: 0 <= k < |rainfalls| ==>
              Simulated(Demo1, dem, ValidMaskDemo1(dem, nodata, cn), cn, pixelArea, rainfalls[k], outs[k])
  {
    var valid := ValidMaskDemo1(dem, nodata, cn);
    outs := [];
    for k := 0 to |rainfalls|
      invariant |outs| == k
      invariant forall j :: 0 <= j < k ==> Simulated(Demo1, dem, valid, cn, pixelArea, rainfalls[j], outs[j])
    {
      var out := Skipped;
      if Count(valid) > 0 {
        out := Evaluate(Demo1, dem, valid, cn, pixelArea, rainfalls[k]);
      }
      outs := outs + [out];
    }
  }

  /**
    Unless the solver stopped at the ceiling, the depth grid built from a
    solved surface holds at least the runoff volume it was solved for.
   */
  lemma {:induction false} FloodDepthHoldsRunoff(dem: seq<real>, valid: seq<bool>, targetVol: real, pixelArea: real,
                              floodElev: real, depth: seq<real>)
    requires |valid| == |dem| && Count(valid) > 0
    requires SolvedSurface(Select(dem, valid), targetVol, pixelArea, floodElev)
    requires floodElev != Ceiling(Select(dem, valid))
    requires IsFloodDepth(dem, valid, floodElev, depth)
    ensures Sum(depth) * pixelArea >= targetVol
  {
    FloodDepthVolume(dem, valid, floodElev, depth, pixelArea);
    SolvedSurfaceReachesTarget(Select(dem, valid), targetVol, pixelArea, floodElev);
  }

  /**
    With the configured rule table the mean CN of any non-empty valid area
    lies in [15, 100], so the curve-number guard of Local_Simulation_v2.py
    never rejects it.
   */
  lemma {:induction false} ConfiguredMeanCnAccepted(dem: seq<real>, nodata: Option<real>, lu: seq<int>)
    requires |lu| == |dem| && Count(ValidMaskV2(dem, nodata, lu)) > 0
    ensures 15.0 <= Mean(Select(Remapped(lu, LuToCnRules, DefaultCn), ValidMaskV2(dem, nodata, lu))) <= 100.0
    ensures CnAccepted(SimulationV2, Mean(Select(Remapped(lu, LuToCnRules, DefaultCn), ValidMaskV2(dem, nodata, lu))))
  {
    var cn := Remapped(lu, LuToCnRules, DefaultCn);
    var valid := ValidMaskV2(dem, nodata, lu);
    forall i | 0 <= i < |cn|
      ensures 15.0 <= cn[i] <= 100.0
    {
      ConfiguredCnRange(lu[i]);
    }
    SelectBounds(cn, valid, 15.0, 100.0);
    MeanBounds(Select(cn, valid), 15.0, 100.0);
  }
}
