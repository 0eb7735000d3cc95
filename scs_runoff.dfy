/**
  SCS curve-number runoff volume (calculate_scs_volume), the NRCS method of
  the National Engineering Handbook Part 630, Chapter 10: retention
  S = 25400/CN - 254 (mm), initial abstraction Ia = 0.2 S, runoff depth
  Q = (P - Ia)^2 / (P - Ia + S) once P exceeds Ia, and volume Q/1000 * area.
  The two scripts differ only in which curve numbers they reject.
 */
module ScsRunoff {
  import opened RasterMath

  /** Which copy of the script: they disagree on whether CN = 100 is accepted. */
  datatype Script = SimulationV2 | Demo1

  /**
    The guard at the top of calculate_scs_volume: CN must exceed 10 and be at
    most 100 (Local_Simulation_v2.py) or below 100 (demo1.py).
   */
  predicate CnAccepted(script: Script, avgCn: real)
  {
    10.0 < avgCn &&
    match script
    case SimulationV2 => avgCn <= 100.0
    case Demo1 => avgCn < 100.0
  }

  /** Potential maximum retention S, in mm. */
  function Retention(avgCn: real): real
    requires avgCn != 0.0
  {
    25400.0 / avgCn - 254.0
  }

  /** Initial abstraction Ia = 0.2 S, in mm. */
  function InitialAbstraction(avgCn: real): real
    requires avgCn != 0.0
  {
    0.2 * Retention(avgCn)
  }

  /** On the standard CN scale (0, 100] the retention is never negative. */
  lemma RetentionNonNegative(avgCn: real)
    requires 0.0 < avgCn <= 100.0
    ensures Retention(avgCn) >= 0.0
  {
    var x := 25400.0 / avgCn;
    assert x * avgCn == 25400.0;
  }

  /**
    Runoff depth Q in mm for a retention s >= 0: zero while the rain does
    not exceed Ia = 0.2 s, otherwise positive and never more than the rain
    left after the initial abstraction.
   */
  function DepthForRetention(p: real, s: real): (q: real)
    requires s >= 0.0
    ensures p <= 0.2 * s ==> q == 0.0
    ensures p > 0.2 * s ==> 0.0 < q <= p - 0.2 * s
  {
    var ia := 0.2 * s;
    if p <= ia then 0.0
    else
      QuotientBounds(p - ia, s);
      Quotient(p - ia, s)
  }

  /** Runoff depth Q in mm for an accepted CN, with S and Ia derived from it. */
  function RunoffDepth(p: real, avgCn: real): (q: real)
    requires 10.0 < avgCn <= 100.0
    ensures p <= InitialAbstraction(avgCn) ==> q == 0.0
    ensures p > InitialAbstraction(avgCn) ==> 0.0 < q <= p - InitialAbstraction(avgCn)
  {
    RetentionNonNegative(avgCn);
    DepthForRetention(p, Retention(avgCn))
  }

  /** The SCS quotient (P - Ia)^2 / (P - Ia + S), written x^2 / (x + s). */
  function Quotient(x: real, s: real): real
    requires x > 0.0 && s >= 0.0
  {
    x * x / (x + s)
  }

  /** x^2 / (x + s) lies in (0, x] for positive x and non-negative s. */
  lemma QuotientBounds(x: real, s: real)
    requires x > 0.0 && s >= 0.0
    ensures 0.0 < Quotient(x, s) <= x
  {
    var d := x + s;
    var r := x / d;
    assert r > 0.0;
    MulStrict(0.0, x, r);
    assert x * x / d == x * r;
  }

  /**
    calculate_scs_volume: the runoff volume in m^3 from rain p (mm), the
    watershed's mean CN and its area (m^2). A rejected CN short-circuits to
    zero whatever p and the area are.
   */
  function ScsVolume(script: Script, p: real, avgCn: real, areaM2: real): real
  {
    if !CnAccepted(script, avgCn) then 0.0
    else RunoffDepth(p, avgCn) / 1000.0 * areaM2
  }

  /**
    The three outcomes of calculate_scs_volume: nothing for a rejected CN,
    nothing while the rain does not exceed Ia, and otherwise the depth Q in
    metres over the whole area, which is then positive on a positive area.
   */
  lemma ScsVolumeCases(script: Script, p: real, avgCn: real, areaM2: real)
    ensures !CnAccepted(script, avgCn) ==> ScsVolume(script, p, avgCn, areaM2) == 0.0
    ensures CnAccepted(script, avgCn) && p <= InitialAbstraction(avgCn) ==> ScsVolume(script, p, avgCn, areaM2) == 0.0
    ensures CnAccepted(script, avgCn) && p > InitialAbstraction(avgCn) ==>
              ScsVolume(script, p, avgCn, areaM2) == RunoffDepth(p, avgCn) / 1000.0 * areaM2
    ensures CnAccepted(script, avgCn) && p > InitialAbstraction(avgCn) && areaM2 > 0.0 ==>
              ScsVolume(script, p, avgCn, areaM2) > 0.0
  {
    if CnAccepted(script, avgCn) && p > InitialAbstraction(avgCn) && areaM2 > 0.0 {
      MulStrict(0.0, RunoffDepth(p, avgCn) / 1000.0, areaM2);
    }
  }

  /** For a non-negative area the volume is never negative. */
  lemma ScsVolumeNonNegative(script: Script, p: real, avgCn: real, areaM2: real)
    requires areaM2 >= 0.0
    ensures ScsVolume(script, p, avgCn, areaM2) >= 0.0
  {
    if CnAccepted(script, avgCn) {
      var q := RunoffDepth(p, avgCn);
      MulNonNegative(q / 1000.0, areaM2);
    }
  }

  /**
    Runoff never exceeds the rain that fell: with an accepted CN and a
    non-negative area, the volume is at most (P - Ia)/1000 * area when P
    exceeds Ia, and at most P/1000 * area in every case.
   */
  lemma ScsVolumeAtMostRain(script: Script, p: real, avgCn: real, areaM2: real)
    requires CnAccepted(script, avgCn) && areaM2 >= 0.0 && p >= 0.0
    ensures p > InitialAbstraction(avgCn) ==>
              ScsVolume(script, p, avgCn, areaM2) <= (p - InitialAbstraction(avgCn)) / 1000.0 * areaM2
    ensures ScsVolume(script, p, avgCn, areaM2) <= p / 1000.0 * areaM2
  {
    RetentionNonNegative(avgCn);
    var ia := InitialAbstraction(avgCn);
    var q := RunoffDepth(p, avgCn);
    if p > ia {
      MulMonotone(q / 1000.0, (p - ia) / 1000.0, areaM2);
      MulMonotone((p - ia) / 1000.0, p / 1000.0, areaM2);
    } else {
      MulNonNegative(p / 1000.0, areaM2);
    }
  }

  /** More rain never gives less runoff depth, for a fixed retention. */
  lemma DepthForRetentionMonotone(p1: real, p2: real, s: real)
    requires s >= 0.0 && p1 <= p2
    ensures DepthForRetention(p1, s) <= DepthForRetention(p2, s)
  {
    var ia := 0.2 * s;
    if p1 > ia {
      QuotientMonotone(p1 - ia, p2 - ia, s);
    }
  }

  /** More rain never gives less runoff depth, for a fixed accepted CN. */
  lemma RunoffDepthMonotone(p1: real, p2: real, avgCn: real)
    requires 10.0 < avgCn <= 100.0 && p1 <= p2
    ensures RunoffDepth(p1, avgCn) <= RunoffDepth(p2, avgCn)
  {
    RetentionNonNegative(avgCn);
    DepthForRetentionMonotone(p1, p2, Retention(avgCn));
  }

  /** x^2 / (x + s) is non-decreasing in x > 0 for a fixed s >= 0. */
  lemma QuotientMonotone(x1: real, x2: real, s: real)
    requires 0.0 < x1 <= x2 && s >= 0.0
    ensures Quotient(x1, s) <= Quotient(x2, s)
  {
    var a, b := x1 + s, x2 + s;
    // x2^2 a - x1^2 b = x1 x2 (x2 - x1) + s (x2^2 - x1^2) >= 0
    assert x2 * x2 * a - x1 * x1 * b == x1 * x2 * (x2 - x1) + s * (x2 - x1) * (x2 + x1);
    MulNonNegative(x1 * x2, x2 - x1);
    MulNonNegative(s, x2 - x1);
    MulNonNegative(s * (x2 - x1), x2 + x1);
    DivCompare(x1 * x1, a, x2 * x2, b);
  }

  /** The volume is non-decreasing in the rainfall for a non-negative area. */
  lemma ScsVolumeMonotoneInRain(script: Script, p1: real, p2: real, avgCn: real, areaM2: real)
    requires p1 <= p2 && areaM2 >= 0.0
    ensures ScsVolume(script, p1, avgCn, areaM2) <= ScsVolume(script, p2, avgCn, areaM2)
  {
    if CnAccepted(script, avgCn) {
      RunoffVolumeMonotone(p1, p2, avgCn, areaM2);
    }
  }

  /** For an accepted CN, Q/1000 * area is non-decreasing in the rain on a non-negative area. */
  lemma RunoffVolumeMonotone(p1: real, p2: real, avgCn: real, areaM2: real)
    requires 10.0 < avgCn <= 100.0 && p1 <= p2 && areaM2 >= 0.0
    ensures RunoffDepth(p1, avgCn) / 1000.0 * areaM2 <= RunoffDepth(p2, avgCn) / 1000.0 * areaM2
  {
    RunoffDepthMonotone(p1, p2, avgCn);
    MulMonotone(RunoffDepth(p1, avgCn) / 1000.0, RunoffDepth(p2, avgCn) / 1000.0, areaM2);
  }

  /**
    The two copies agree on every CN except 100. At CN = 100 the retention is
    zero, so Local_Simulation_v2.py turns all rain into runoff while demo1.py
    reports none.
   */
  lemma ScriptsDifferOnlyAtCn100(p: real, avgCn: real, areaM2: real)
    ensures avgCn != 100.0 ==> ScsVolume(SimulationV2, p, avgCn, areaM2) == ScsVolume(Demo1, p, avgCn, areaM2)
    ensures ScsVolume(Demo1, p, 100.0, areaM2) == 0.0
    ensures p > 0.0 ==> ScsVolume(SimulationV2, p, 100.0, areaM2) == p / 1000.0 * areaM2
  {
    assert Retention(100.0) == 0.0 && InitialAbstraction(100.0) == 0.0;
    assert !CnAccepted(Demo1, 100.0) && CnAccepted(SimulationV2, 100.0);
    if p > 0.0 {
      assert DepthForRetention(p, 0.0) == p * p / p;
      assert p * p / p == p;
    }
  }

  /** The 100-year rain of demo1.py (230 mm) on a 1 km^2 watershed with CN 70. */
  lemma ScsVolumeWorkedExample()
    ensures ScsVolume(Demo1, 230.0, 70.0, 1000000.0) == 53114944000.0 / 388430.0
    ensures 136742.0 < ScsVolume(Demo1, 230.0, 70.0, 1000000.0) < 136743.0
  {
    assert Retention(70.0) == 762.0 / 7.0;
    assert InitialAbstraction(70.0) == 762.0 / 35.0;
    assert RunoffDepth(230.0, 70.0) == (7288.0 / 35.0) * (7288.0 / 35.0) / (11098.0 / 35.0);
  }
}
