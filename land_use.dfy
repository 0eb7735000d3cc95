/**
  Land-use code to curve-number remapping of Local_Simulation_v2.py
  (remap_lu_to_cn): a grid pre-filled with the default CN, then overwritten
  rule by rule wherever a cell's land-use code is in the rule's code list,
  so that the last matching rule wins.
 */
module LandUse {

  /** One entry of the rule table: the land-use codes it covers and their CN. */
  datatype Rule = Rule(codes: seq<int>, cn: real)

  /** The rule table of the script's configuration. */
  const LuToCnRules: seq<Rule> := [
    Rule([1, 2, 3, 4], 15.0),
    Rule([5], 100.0),
    Rule([7], 30.0),
    Rule([8], 85.0)
  ]

  /** The CN given to codes no rule covers. */
  const DefaultCn: real := 50.0

  /**
    The CN a code receives after the rules are applied in order: the CN of
    the last rule that covers it, else the default.
   */
  function CnOf(code: int, rules: seq<Rule>, defaultCn: real): real
  {
    if rules == [] then defaultCn
    else if code in rules[|rules| - 1].codes then rules[|rules| - 1].cn
    else CnOf(code, rules[..|rules| - 1], defaultCn)
  }

  /** The remapped grid as a value: CnOf cell by cell. */
  function Remapped(lu: seq<int>, rules: seq<Rule>, defaultCn: real): seq<real>
  {
    seq(|lu|, i requires 0 <= i < |lu| => CnOf(lu[i], rules, defaultCn))
  }

  /** A code covered by rule k and by no later rule gets rule k's CN. */
  lemma {:induction false} CnOfLastMatch(code: int, rules: seq<Rule>, defaultCn: real, k: nat)
    requires k < |rules| && code in rules[k].codes
    requires forall j :: k < j < |rules| ==> code !in rules[j].codes
    ensures CnOf(code, rules, defaultCn) == rules[k].cn
  {
    if k < |rules| - 1 {
      CnOfLastMatch(code, rules[..|rules| - 1], defaultCn, k);
    }
  }

  /** A code that no rule covers gets the default CN. */
  lemma {:induction false} CnOfNoMatch(code: int, rules: seq<Rule>, defaultCn: real)
    requires forall j :: 0 <= j < |rules| ==> code !in rules[j].codes
    ensures CnOf(code, rules, defaultCn) == defaultCn
  {
    if rules != [] {
      CnOfNoMatch(code, rules[..|rules| - 1], defaultCn);
    }
  }

  /** If the default and every rule's CN lie in [lo, hi], so does every remapped CN. */
  lemma {:induction false} CnOfBounds(code: int, rules: seq<Rule>, defaultCn: real, lo: real, hi: real)
    requires lo <= defaultCn <= hi
    requires forall j :: 0 <= j < |rules| ==> lo <= rules[j].cn <= hi
    ensures lo <= CnOf(code, rules, defaultCn) <= hi
  {
    if rules != [] && code !in rules[|rules| - 1].codes {
      CnOfBounds(code, rules[..|rules| - 1], defaultCn, lo, hi);
    }
  }

  /** With the configured table every land-use code maps to a CN in [15, 100]. */
  lemma ConfiguredCnRange(code: int)
    ensures 15.0 <= CnOf(code, LuToCnRules, DefaultCn) <= 100.0
  {
    CnOfBounds(code, LuToCnRules, DefaultCn, 15.0, 100.0);
  }

  /**
    remap_lu_to_cn: fills a grid of the input's shape with the default CN,
    then for each rule in order overwrites the cells whose code it covers.
   */
  method RemapLuToCn(lu: seq<int>, rules: seq<Rule>, defaultCn: real) returns (cn: seq<real>)
    ensures |cn| == |lu|
    ensures forall i :: 0 <= i < |lu| ==> cn[i] == CnOf(lu[i], rules, defaultCn)
  {
    var grid := new real[|lu|](_ => defaultCn);
    for r := 0 to |rules|
      invariant forall i :: 0 <= i < |lu| ==> grid[i] == CnOf(lu[i], rules[..r], defaultCn)
    {
      assert rules[..r + 1][..r] == rules[..r];
      for i := 0 to |lu|
        invariant forall k :: 0 <= k < i ==> grid[k] == CnOf(lu[k], rules[..r + 1], defaultCn)
        invariant forall k :: i <= k < |lu| ==> grid[k] == CnOf(lu[k], rules[..r], defaultCn)
      {
        if lu[i] in rules[r].codes {
          grid[i] := rules[r].cn;
        }
      }
    }
    assert rules[..|rules|] == rules;
    cn := grid[..];
  }
}
