/**
  Storage below a water surface (get_volume_below_elevation): every cell
  holds max(surface - ground, 0) of water, and the volume is the sum of those
  depths times the pixel area.
 */
module Storage {
  import opened RasterMath

  /** The clamp `depths[depths < 0] = 0` applied to one cell. */
  function Clamp(d: real): real
  {
    if d < 0.0 then 0.0 else d
  }

  /** Water depth of each cell under a surface at `elevation`. */
  function Depths(dem: seq<real>, elevation: real): seq<real>
  {
    seq(|dem|, i requires 0 <= i < |dem| => Clamp(elevation - dem[i]))
  }

  /** The depths of one more cell are the depths so far and that cell's depth. */
  lemma DepthsSnoc(dem: seq<real>, d: real, elevation: real)
    ensures Depths(dem + [d], elevation) == Depths(dem, elevation) + [Clamp(elevation - d)]
  {
  }

  /** No cell holds a negative depth. */
  lemma DepthsNonNegative(dem: seq<real>, elevation: real)
    ensures forall i :: 0 <= i < |dem| ==> Depths(dem, elevation)[i] >= 0.0
  {
  }

  /** The storage volume below `elevation`: sum of depths times pixel area. */
  function VolumeBelow(dem: seq<real>, pixelArea: real, elevation: real): real
  {
    Sum(Depths(dem, elevation)) * pixelArea
  }

  /**
    get_volume_below_elevation: subtracts the DEM from the surface, clamps the
    negative differences to zero in place, and sums the result.
   */
  method GetVolumeBelowElevation(dem: seq<real>, pixelArea: real, elevation: real) returns (v: real)
    ensures v == VolumeBelow(dem, pixelArea, elevation)
  {
    var depths := new real[|dem|](i requires 0 <= i < |dem| => elevation - dem[i]);
    for i := 0 to depths.Length
      invariant forall k :: 0 <= k < i ==> depths[k] == Clamp(elevation - dem[k])
      invariant forall k :: i <= k < depths.Length ==> depths[k] == elevation - dem[k]
    {
      if depths[i] < 0.0 {
        depths[i] := 0.0;
      }
    }
    var total := 0.0;
    for i := 0 to depths.Length
      invariant total == Sum(depths[..i])
    {
      assert depths[..i + 1][..i] == depths[..i];
      total := total + depths[i];
    }
    assert depths[..depths.Length] == Depths(dem, elevation);
    v := total * pixelArea;
  }

  /** For a non-negative pixel area the storage is never negative. */
  lemma {:induction false} VolumeBelowNonNegative(dem: seq<real>, pixelArea: real, elevation: real)
    requires pixelArea >= 0.0
    ensures VolumeBelow(dem, pixelArea, elevation) >= 0.0
  {
    SumNonNegative(Depths(dem, elevation));
  }

  /** A surface at or below every cell stores nothing. */
  lemma {:induction false} VolumeBelowZeroUnderGround(dem: seq<real>, pixelArea: real, elevation: real)
    requires forall i :: 0 <= i < |dem| ==> elevation <= dem[i]
    ensures VolumeBelow(dem, pixelArea, elevation) == 0.0
  {
    SumZero(Depths(dem, elevation));
  }

  /** In particular a surface at or below the lowest cell stores nothing. */
  lemma {:induction false} VolumeBelowZeroAtMin(dem: seq<real>, pixelArea: real, elevation: real)
    requires |dem| > 0 && elevation <= Min(dem)
    ensures VolumeBelow(dem, pixelArea, elevation) == 0.0
  {
    VolumeBelowZeroUnderGround(dem, pixelArea, elevation);
  }

  /** A surface above some cell stores a positive volume on a positive pixel area. */
  lemma {:induction false} VolumeBelowPositive(dem: seq<real>, pixelArea: real, elevation: real, k: nat)
    requires k < |dem| && dem[k] < elevation && pixelArea > 0.0
    ensures VolumeBelow(dem, pixelArea, elevation) > 0.0
  {
    var depths := Depths(dem, elevation);
    DepthsNonNegative(dem, elevation);
    SumPositive(depths, k);
    MulStrict(0.0, Sum(depths), pixelArea);
  }

  /** In particular a surface above the lowest cell stores a positive volume. */
  lemma {:induction false} VolumeBelowPositiveAboveMin(dem: seq<real>, pixelArea: real, elevation: real)
    requires |dem| > 0 && elevation > Min(dem) && pixelArea > 0.0
    ensures VolumeBelow(dem, pixelArea, elevation) > 0.0
  {
    var k :| 0 <= k < |dem| && dem[k] == Min(dem);
    VolumeBelowPositive(dem, pixelArea, elevation, k);
  }

  /** Raising the surface never decreases the storage, for a non-negative pixel area. */
  lemma {:induction false} VolumeBelowMonotone(dem: seq<real>, pixelArea: real, e1: real, e2: real)
    requires e1 <= e2 && pixelArea >= 0.0
    ensures VolumeBelow(dem, pixelArea, e1) <= VolumeBelow(dem, pixelArea, e2)
  {
    SumMonotone(Depths(dem, e1), Depths(dem, e2));
    MulMonotone(Sum(Depths(dem, e1)), Sum(Depths(dem, e2)), pixelArea);
  }
}
