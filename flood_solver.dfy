/**
  The fill-to-volume water surface (find_flood_elevation): a fixed 25-step
  bisection over [min, max + 10% of the elevation range] for the lowest
  surface whose storage reaches the target runoff volume.
 */
module FloodSolver {
  import opened RasterMath
  import opened Storage

  /** The number of bisection steps, fixed by `range(25)`. */
  const Iterations: nat := 25

  /** The initial upper bound: the highest cell plus 10% of the elevation range. */
  function Ceiling(dem: seq<real>): real
    requires |dem| > 0
  {
    Max(dem) + (Max(dem) - Min(dem)) * 0.1
  }

  /** The width of the initial bracket [Min(dem), Ceiling(dem)]. */
  function BracketWidth(dem: seq<real>): (w: real)
    requires |dem| > 0
    ensures w >= 0.0
  {
    Ceiling(dem) - Min(dem)
  }

  /**
    find_flood_elevation. A non-positive target returns the lowest cell.
    Otherwise the result lies in the initial bracket and is the upper end of
    a final bracket of width BracketWidth / 2^25 whose lower end stores less
    than the target; the result reaches the target unless it is the ceiling
    itself, and when even the ceiling falls short the ceiling is returned.
   */
  method FindFloodElevation(demValid: seq<real>, targetVol: real, pixelArea: real) returns (e: real)
    requires |demValid| > 0
    ensures targetVol <= 0.0 ==> e == Min(demValid)
    ensures targetVol > 0.0 ==> Min(demValid) <= e <= Ceiling(demValid)
    ensures targetVol > 0.0 ==> Min(demValid) <= e - BracketWidth(demValid) / Pow2(Iterations)
    ensures targetVol > 0.0 ==>
              VolumeBelow(demValid, pixelArea, e - BracketWidth(demValid) / Pow2(Iterations)) < targetVol
    ensures targetVol > 0.0 ==> e == Ceiling(demValid) || VolumeBelow(demValid, pixelArea, e) >= targetVol
    ensures targetVol > 0.0 && pixelArea >= 0.0 && VolumeBelow(demValid, pixelArea, Ceiling(demValid)) < targetVol ==>
              e == Ceiling(demValid)
    ensures targetVol > 0.0 && pixelArea >= 0.0 ==>
              forall x :: x <= e - BracketWidth(demValid) / Pow2(Iterations) ==>
                VolumeBelow(demValid, pixelArea, x) < targetVol
  {
    if targetVol <= 0.0 {
      return Min(demValid);
    }
    var low := Min(demValid);
    var high := Ceiling(demValid);
    ghost var width := high - low;
    VolumeBelowZeroAtMin(demValid, pixelArea, low);
    for i := 0 to Iterations
      invariant Min(demValid) <= low <= high <= Ceiling(demValid)
      invariant high - low == width / Pow2(i)
      invariant VolumeBelow(demValid, pixelArea, low) < targetVol
      invariant high == Ceiling(demValid) || VolumeBelow(demValid, pixelArea, high) >= targetVol
    {
      var mid := (low + high) / 2.0;
      var calcVol := GetVolumeBelowElevation(demValid, pixelArea, mid);
      HalveWidth(width, i);
      if calcVol < targetVol {
        low := mid;
      } else {
        high := mid;
      }
    }
    e := high;
    assert low == e - BracketWidth(demValid) / Pow2(Iterations);
    if pixelArea >= 0.0 {
      ShortOfTargetBelow(demValid, pixelArea, targetVol, low);
      if VolumeBelow(demValid, pixelArea, Ceiling(demValid)) < targetVol {
        ShortOfTargetBelow(demValid, pixelArea, targetVol, Ceiling(demValid));
      }
    }
  }

  /** A surface that stores less than the target leaves every lower surface short of it too. */
  lemma ShortOfTargetBelow(dem: seq<real>, pixelArea: real, targetVol: real, e: real)
    requires pixelArea >= 0.0 && VolumeBelow(dem, pixelArea, e) < targetVol
    ensures forall x :: x <= e ==> VolumeBelow(dem, pixelArea, x) < targetVol
  {
    forall x | x <= e
      ensures VolumeBelow(dem, pixelArea, x) < targetVol
    {
      VolumeBelowMonotone(dem, pixelArea, x, e);
    }
  }

  /**
    What a caller may rely on about a surface returned for a target: the
    lowest cell for a non-positive target, otherwise a point of the initial
    bracket that reaches the target unless it is the ceiling, and whose
    final lower bound, one final bracket width below it, is still in the
    bracket and stores less than the target.
   */
  predicate SolvedSurface(demValid: seq<real>, targetVol: real, pixelArea: real, e: real)
    requires |demValid| > 0
  {
    && (targetVol <= 0.0 ==> e == Min(demValid))
    && (targetVol > 0.0 ==>
          && Min(demValid) <= e <= Ceiling(demValid)
          && Min(demValid) <= e - BracketWidth(demValid) / Pow2(Iterations)
          && VolumeBelow(demValid, pixelArea, e - BracketWidth(demValid) / Pow2(Iterations)) < targetVol
          && (e == Ceiling(demValid) || VolumeBelow(demValid, pixelArea, e) >= targetVol))
  }

  /**
    A solved surface for a positive target is nearly the lowest one reaching
    it: every surface more than one final bracket width below it falls short.
   */
  lemma SolvedSurfaceNearMinimal(demValid: seq<real>, targetVol: real, pixelArea: real, e: real, x: real)
    requires |demValid| > 0 && SolvedSurface(demValid, targetVol, pixelArea, e)
    requires targetVol > 0.0 && pixelArea >= 0.0 && x <= e - BracketWidth(demValid) / Pow2(Iterations)
    ensures VolumeBelow(demValid, pixelArea, x) < targetVol
  {
    ShortOfTargetBelow(demValid, pixelArea, targetVol, e - BracketWidth(demValid) / Pow2(Iterations));
  }

  /** Below the ceiling, a solved surface stores at least the target volume. */
  lemma SolvedSurfaceReachesTarget(demValid: seq<real>, targetVol: real, pixelArea: real, e: real)
    requires |demValid| > 0 && SolvedSurface(demValid, targetVol, pixelArea, e)
    requires e != Ceiling(demValid)
    ensures VolumeBelow(demValid, pixelArea, e) >= targetVol
  {
    if targetVol <= 0.0 {
      VolumeBelowZeroAtMin(demValid, pixelArea, e);
    }
  }

  /** Halving a bracket of width w / 2^i gives one of width w / 2^(i+1). */
  lemma HalveWidth(w: real, i: nat)
    ensures w / Pow2(i) / 2.0 == w / Pow2(i + 1)
  {
    var p := Pow2(i);
    assert Pow2(i + 1) == 2.0 * p;
    var q := w / p;
    assert q * p == w;
    assert (q / 2.0) * (2.0 * p) == w;
  }
}

/** A five-cell staircase solved for six cubic units of runoff. */
module FloodSolverExample {
  import opened RasterMath
  import opened Storage
  import opened FloodSolver

  const Staircase: seq<real> := [0.0, 1.0, 2.0, 3.0, 4.0]

  /** The staircase's lowest and highest cells, and hence its bracket. */
  lemma StaircaseBracket()
    ensures Min(Staircase) == 0.0 && Ceiling(Staircase) == 4.4 && BracketWidth(Staircase) == 4.4
  {
    assert forall i :: 0 <= i < |Staircase| ==> 0.0 <= Staircase[i] <= 4.0;
    assert Staircase[0] == 0.0 && Staircase[4] == 4.0;
  }

  /** Between 2 and 3 the staircase stores x + (x - 1) + (x - 2). */
  lemma StaircaseVolume(x: real)
    requires 2.0 <= x <= 3.0
    ensures VolumeBelow(Staircase, 1.0, x) == 3.0 * x - 3.0
  {
    var d := Depths(Staircase, x);
    StaircaseDepths(x);
    assert Sum(d[..0]) == 0.0;
    PrefixSum(d, 0);
    PrefixSum(d, 1);
    PrefixSum(d, 2);
    PrefixSum(d, 3);
    PrefixSum(d, 4);
    assert d[..5] == d;
  }

  /** Between 2 and 3 the three lowest steps are under water and the top two dry. */
  lemma StaircaseDepths(x: real)
    requires 2.0 <= x <= 3.0
    ensures |Depths(Staircase, x)| == 5
    ensures Depths(Staircase, x)[0] == x && Depths(Staircase, x)[1] == x - 1.0
    ensures Depths(Staircase, x)[2] == x - 2.0
    ensures Depths(Staircase, x)[3] == 0.0 && Depths(Staircase, x)[4] == 0.0
  {
  }

  /** One more cell of a prefix adds that cell to the prefix's sum. */
  lemma PrefixSum(s: seq<real>, k: nat)
    requires k < |s|
    ensures Sum(s[..k + 1]) == Sum(s[..k]) + s[k]
  {
    assert s[..k + 1][..k] == s[..k];
  }

  /** The staircase stores less than 6 below 3 and at least 6 from 3 up. */
  lemma StaircaseThreshold(x: real)
    ensures x < 3.0 ==> VolumeBelow(Staircase, 1.0, x) < 6.0
    ensures x >= 3.0 ==> VolumeBelow(Staircase, 1.0, x) >= 6.0
  {
    StaircaseVolume(3.0);
    if x >= 3.0 {
      VolumeBelowMonotone(Staircase, 1.0, 3.0, x);
    } else if x >= 2.0 {
      StaircaseVolume(x);
    } else {
      StaircaseVolume(2.0);
      VolumeBelowMonotone(Staircase, 1.0, x, 2.0);
    }
  }

  /**
    The solver on the staircase with unit cells and a target of 6 lands
    within one final bracket width above the exact surface 3.
   */
  method StaircaseExample() returns (e: real)
    ensures 3.0 <= e < 3.0 + 4.4 / Pow2(Iterations)
  {
    e := FindFloodElevation(Staircase, 6.0, 1.0);
    StaircaseBracket();
    StaircaseThreshold(e);
    StaircaseThreshold(e - 4.4 / Pow2(Iterations));
  }
}
