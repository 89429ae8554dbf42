/** Validating sweep requests, expanding them into plans, and rebuilding a planned configuration. */
module Sweep {
  import opened Options
  import opened ExperimentSpec
  import opened SweepSpec
  import Payload

  datatype Unit = Unit(configIdx: int, configLabel: string, regime: string)

  datatype Sweep = Sweep(configCount: int, totalRuns: int, params: seq<Param>, regimes: seq<string>, plan: seq<Unit>)

  datatype Config = Config(configLabel: string, index: int, system: System, overrides: map<string, string>)

  /** Passes exactly the acceptable requests, and counts their units and runs. */
  method Validate(r: Request) returns (ok: bool, configs: int, totalRuns: int)
    ensures ok <==> Acceptable(r)
    ensures ok ==> configs == Size(r.params) * |RegimesOf(r)| <= MAX_CONFIGS
    ensures ok ==> totalRuns == configs * Reps(r.repetitions) == TotalRuns(r)
  {
    hide Size;
    if |r.params| == 0 {
      return false, 0, 0;
    }
    var fit, combos := ValidateParams(r.params);
    if !fit {
      return false, 0, 0;
    }
    if |RegimesOf(r)| > MAX_CONFIGS / combos && combos * |RegimesOf(r)| > MAX_CONFIGS {
      return false, 0, 0;
    }
    WithinCap(combos, |RegimesOf(r)|);
    for i := 0 to |RegimesOf(r)|
      invariant forall j :: 0 <= j < i ==> RegimesOf(r)[j] in KNOWN_REGIMES
    {
      if RegimesOf(r)[i] !in KNOWN_REGIMES {
        return false, 0, 0;
      }
    }
    SizeFits(r.params, |RegimesOf(r)|);
    configs := combos * |RegimesOf(r)|;
    return true, configs, configs * Reps(r.repetitions);
  }

  lemma WithinCap(combos: nat, regimes: nat)
    requires combos >= 1 && !(regimes > MAX_CONFIGS / combos && combos * regimes > MAX_CONFIGS)
    ensures combos * regimes <= MAX_CONFIGS
  {
    if regimes <= MAX_CONFIGS / combos {
      Scaled(regimes, MAX_CONFIGS / combos, combos);
    }
  }

  lemma SizeFits(params: seq<Param>, regimes: nat)
    ensures Size(params) * regimes == regimes * Size(params)
  {
  }

  /** The parameter part: known distinct names, one to 64 values each, at most 32 combinations. */
  method ValidateParams(params: seq<Param>) returns (fit: bool, combos: nat)
    ensures fit <==> DistinctNames(params) && (forall i :: 0 <= i < |params| ==> ParamFits(params[i])) &&
                     Size(params) <= MAX_CONFIGS
    ensures fit ==> combos == Size(params) >= 1
  {
    hide Size;
    var seen: set<string> := {};
    combos := 1;
    assert params[..0] == [];
    SizeNil();
    for i := 0 to |params|
      invariant DistinctNames(params[..i]) && forall j :: 0 <= j < i ==> ParamFits(params[j])
      invariant combos == Size(params[..i]) && 1 <= combos <= MAX_CONFIGS
      invariant forall name :: name in seen <==> exists j :: 0 <= j < i && params[j].name == name
    {
      var p := params[i];
      if p.name == "" || p.name !in KINDS {
        return false, 0;
      }
      if p.name in seen {
        return false, 0;
      }
      seen := seen + {p.name};
      if |p.values| == 0 || |p.values| > 64 {
        return false, 0;
      }
      SizeNext(params, i);
      combos := combos * |p.values|;
      if combos > MAX_CONFIGS {
        if forall j :: 0 <= j < |params| ==> ParamFits(params[j]) {
          SizeGrows(params, i + 1);
        }
        return false, 0;
      }
    }
    assert params[..|params|] == params;
    return true, combos;
  }

  lemma SizeNil()
    ensures Size([]) == 1
  {
  }

  lemma SizeNext(params: seq<Param>, i: nat)
    requires i < |params| && |params[i].values| >= 1 && Size(params[..i]) >= 1
    ensures Size(params[..i + 1]) == Size(params[..i]) * |params[i].values| >= 1
  {
    assert params[..i + 1][..i] == params[..i];
    ScaledUp(Size(params[..i]), |params[i].values|);
  }

  /** All configurations in order: the product of the value counts, each in its place. */
  method Cartesian(f: Formats, params: seq<Param>) returns (combos: seq<Combo>)
    ensures params == [] ==> combos == []
    ensures params != [] ==> |combos| == Size(params)
    ensures forall k :: 0 <= k < |combos| ==> k < Size(params) && combos[k] == Element(f, params, k)
  {
    hide Element, Size;
    if |params| == 0 {
      return [];
    }
    combos := [BLANK];
    assert params[..0] == [];
    FirstElement(f);
    for i := 0 to |params|
      invariant |combos| == Size(params[..i])
      invariant forall k :: 0 <= k < |combos| ==> combos[k] == Element(f, params[..i], k)
    {
      var prefixes := combos;
      combos := ExpandAll(f, prefixes, params[i]);
      SizeStep(params, i);
      forall k | 0 <= k < |combos|
        ensures combos[k] == Element(f, params[..i + 1], k)
      {
        NextElement(f, params, i, k);
      }
    }
    assert params[..|params|] == params;
  }

  lemma FirstElement(f: Formats)
    ensures Size([]) == 1 && Element(f, [], 0) == BLANK
  {
  }

  lemma SizeStep(params: seq<Param>, i: nat)
    requires i < |params|
    ensures Size(params[..i + 1]) == Size(params[..i]) * |params[i].values|
  {
    assert params[..i + 1][..i] == params[..i];
  }

  lemma NextElement(f: Formats, params: seq<Param>, i: nat, k: nat)
    requires i < |params| && k < Size(params[..i + 1])
    ensures var m := |params[i].values|;
            && m > 0 && k / m < Size(params[..i])
            && Element(f, params[..i + 1], k) ==
               Extend(f, Element(f, params[..i], k / m), params[i].name, params[i].values[k % m])
  {
    assert params[..i + 1][..i] == params[..i];
    SplitIndex(k, |params[i].values|, Size(params[..i]));
  }

  /** Every prefix with every value of one more parameter. */
  method ExpandAll(f: Formats, prefixes: seq<Combo>, p: Param) returns (next: seq<Combo>)
    ensures |next| == |prefixes| * |p.values|
    ensures forall k :: 0 <= k < |next| ==>
                          |p.values| > 0 && k / |p.values| < |prefixes| &&
                          next[k] == Extend(f, prefixes[k / |p.values|], p.name, p.values[k % |p.values|])
  {
    hide Extend;
    next := [];
    var m := |p.values|;
    for a := 0 to |prefixes|
      invariant |next| == a * m
      invariant forall k :: 0 <= k < |next| ==>
                              m > 0 && k / m < a && next[k] == Extend(f, prefixes[k / m], p.name, p.values[k % m])
    {
      var row := ExpandOne(f, prefixes[a], p);
      assert (a + 1) * m == a * m + m;
      forall k | a * m <= k < a * m + m
        ensures m > 0 && k / m == a && k % m == k - a * m
      {
        DivOfSum(a, m, k - a * m);
      }
      next := next + row;
    }
  }

  method ExpandOne(f: Formats, prefix: Combo, p: Param) returns (row: seq<Combo>)
    ensures |row| == |p.values|
    ensures forall b :: 0 <= b < |row| ==> row[b] == Extend(f, prefix, p.name, p.values[b])
  {
    row := [];
    for b := 0 to |p.values|
      invariant |row| == b
      invariant forall k :: 0 <= k < b ==> row[k] == Extend(f, prefix, p.name, p.values[k])
    {
      var nc := prefix.(order := prefix.order + [p.name]);
      nc := ApplyParam(f, nc, p.name, f.trim(p.values[b]));
      row := row + [nc];
    }
  }

  method MakeLabel(f: Formats, c: Combo) returns (text: string)
    ensures text == Label(f, c)
  {
    var parts: seq<string> := [];
    for i := 0 to |c.order|
      invariant parts == Parts(f, c, c.order[..i])
    {
      assert c.order[..i + 1][..i] == c.order[..i];
      var v := ValueStr(f, c, c.order[i]);
      if v != "" {
        parts := parts + [ShortKey(c.order[i]) + "=" + v];
      }
    }
    assert c.order[..|c.order|] == c.order;
    if |parts| == 0 {
      return "default";
    }
    return Payload.Join(parts, ' ');
  }

  function ConfigAt(f: Formats, params: seq<Param>, idx: int): Option<Config> {
    if params == [] || idx < 1 || idx > Size(params) then None
    else
      var c := Element(f, params, idx - 1);
      Some(Config(Label(f, c), idx, c.system, c.overrides))
  }

  /** The configuration at an index holds, for every parameter, the value that the digit of its place
      selects, or the default if that value cannot be used. */
  lemma ConfigHolds(f: Formats, params: seq<Param>, idx: int, j: nat)
    requires DistinctNames(params) && KnownNames(params) && j < |params| && 1 <= idx <= Size(params)
    ensures ConfigAt(f, params, idx).Some? && InRange(params, Digits(params, idx - 1))
    ensures var config := ConfigAt(f, params, idx).value;
            && config.index == idx
            && Holds(f, Combo(config.system, config.overrides, []), params[j].name,
                     f.trim(params[j].values[Digits(params, idx - 1)[j]]))
  {
    hide Element, Label, Size, Digits;
    ElementHolds(f, params, idx - 1, j);
  }

  method RebuildConfig(f: Formats, params: seq<Param>, idx: int) returns (config: Option<Config>)
    ensures config == ConfigAt(f, params, idx)
  {
    hide Element, Label;
    var combos := Cartesian(f, params);
    if idx < 1 || idx > |combos| {
      return None;
    }
    var c := combos[idx - 1];
    var text := MakeLabel(f, c);
    return Some(Config(text, idx, c.system, c.overrides));
  }

  /** Unit i of a plan: configurations outside, regimes inside. */
  ghost predicate Planned(f: Formats, params: seq<Param>, regimes: seq<string>, u: Unit, i: nat)
    requires |regimes| > 0
  {
    && u.regime == regimes[i % |regimes|] && u.configIdx == i / |regimes| + 1
    && ConfigAt(f, params, u.configIdx).Some? && ConfigAt(f, params, u.configIdx).value.configLabel == u.configLabel
  }

  /** A plan pairs every configuration with every regime once, in order, and each unit's index
      rebuilds the configuration that has the unit's label. */
  method BuildSweepPlan(f: Formats, r: Request) returns (plan: Option<Sweep>)
    ensures plan.Some? <==> Acceptable(r) && r.architecture in ["", "monolith", "distributed"]
    ensures plan.Some? ==>
              var s := plan.value;
              && s.params == r.params && s.regimes == RegimesOf(r) && s.totalRuns == TotalRuns(r)
              && s.totalRuns == |s.plan| * Reps(r.repetitions)
              && |s.plan| == s.configCount == Size(r.params) * |RegimesOf(r)| <= MAX_CONFIGS
              && forall i :: 0 <= i < |s.plan| ==> |s.regimes| > 0 && Planned(f, s.params, s.regimes, s.plan[i], i)
  {
    hide Element, Size, Label, TotalRuns, Acceptable;
    var ok, configs, totalRuns := Validate(r);
    if !ok {
      return None;
    }
    AcceptableNames(r);
    var combos := Cartesian(f, r.params);
    var arch := if r.architecture == "" then "monolith" else r.architecture;
    if arch !in ["monolith", "distributed"] {
      return None;
    }
    var units := ExpandPlan(f, r.params, combos, RegimesOf(r));
    return Some(Sweep(configs, totalRuns, r.params, RegimesOf(r), units));
  }

  lemma AcceptableNames(r: Request)
    requires Acceptable(r)
    ensures r.params != []
  {
  }

  method ExpandPlan(f: Formats, params: seq<Param>, combos: seq<Combo>, regimes: seq<string>)
    returns (plan: seq<Unit>)
    requires params != [] && |combos| == Size(params)
    requires forall k :: 0 <= k < |combos| ==> combos[k] == Element(f, params, k)
    ensures |plan| == |combos| * |regimes|
    ensures forall i :: 0 <= i < |plan| ==> |regimes| > 0 && Planned(f, params, regimes, plan[i], i)
  {
    hide Element, Size, Label;
    plan := [];
    var n := |regimes|;
    for c := 0 to |combos|
      invariant |plan| == c * n
      invariant forall i :: 0 <= i < |plan| ==> n > 0 && Planned(f, params, regimes, plan[i], i)
    {
      var text := MakeLabel(f, combos[c]);
      for g := 0 to n
        invariant |plan| == c * n + g
        invariant forall i :: 0 <= i < |plan| ==> n > 0 && Planned(f, params, regimes, plan[i], i)
      {
        DivOfSum(c, n, g);
        plan := plan + [Unit(c + 1, text, regimes[g])];
      }
      assert |plan| == (c + 1) * n;
    }
  }
}
