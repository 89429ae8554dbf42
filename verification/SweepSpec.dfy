/** Parameter sweeps: which configurations a list of parameters spans, and in which order. */
module SweepSpec {
  import opened Options
  import opened ExperimentSpec
  import Payload

  datatype Param = Param(name: string, values: seq<string>)

  datatype System = System(batchSize: int, batchTimeout: string, workers: int)

  datatype Combo = Combo(system: System, overrides: map<string, string>, order: seq<string>)

  /** Number formats are those of the host language. */
  datatype Formats = Formats(
    parseInt: string -> Option<int>, isFloat: string -> bool, show: int -> string, trim: string -> string)

  const BLANK := Combo(System(0, "", 0), map[], [])

  const KINDS := ["batch_size", "batch_timeout", "workers", "connections", "rooms", "message_rate",
                  "distribution", "zipf_s"]

  const DISTRIBUTIONS := ["uniform", "hot_room", "zipf"]

  /** Whether a value can be used for a parameter. */
  predicate Accepts(f: Formats, name: string, v: string) {
    if name == "batch_size" || name == "workers" || name == "connections" || name == "rooms" then f.parseInt(v).Some?
    else if name == "message_rate" || name == "zipf_s" then f.isFloat(v)
    else if name == "distribution" then v in DISTRIBUTIONS
    else true
  }

  /** A value that cannot be used leaves the configuration as it is. */
  function ApplyParam(f: Formats, c: Combo, name: string, v: string): Combo {
    if !Accepts(f, name, v) then c
    else if name == "batch_size" then c.(system := c.system.(batchSize := f.parseInt(v).value))
    else if name == "batch_timeout" then c.(system := c.system.(batchTimeout := v))
    else if name == "workers" then c.(system := c.system.(workers := f.parseInt(v).value))
    else if name in KINDS then c.(overrides := c.overrides[name := v])
    else c
  }

  function Extend(f: Formats, c: Combo, name: string, raw: string): Combo {
    ApplyParam(f, c.(order := c.order + [name]), name, f.trim(raw))
  }

  function Size(params: seq<Param>): nat {
    if params == [] then 1 else Size(params[..|params| - 1]) * |params[|params| - 1].values|
  }

  lemma SplitIndex(k: nat, m: nat, n: nat)
    requires k < n * m
    ensures m > 0 && k / m < n && k % m < m && k == (k / m) * m + k % m
  {
  }

  /** The configuration at a place in the product. */
  function Element(f: Formats, params: seq<Param>, k: nat): Combo
    requires k < Size(params)
  {
    if params == [] then BLANK
    else
      var last := params[|params| - 1];
      SplitIndex(k, |last.values|, Size(params[..|params| - 1]));
      Extend(f, Element(f, params[..|params| - 1], k / |last.values|), last.name, last.values[k % |last.values|])
  }

  // ---- Places are mixed-radix numbers ----

  /** Which value each parameter takes at place k: the last parameter turns fastest. */
  function Digits(params: seq<Param>, k: nat): seq<nat>
    requires k < Size(params)
  {
    if params == [] then []
    else
      var m := |params[|params| - 1].values|;
      SplitIndex(k, m, Size(params[..|params| - 1]));
      Digits(params[..|params| - 1], k / m) + [k % m]
  }

  ghost predicate InRange(params: seq<Param>, ds: seq<nat>) {
    |ds| == |params| && forall j :: 0 <= j < |ds| ==> ds[j] < |params[j].values|
  }

  function Place(params: seq<Param>, ds: seq<nat>): nat
    requires |ds| == |params|
  {
    if params == [] then 0
    else
      var n := |params| - 1;
      Place(params[..n], ds[..n]) * |params[n].values| + ds[n]
  }

  lemma {:induction false} DigitsInRange(params: seq<Param>, k: nat)
    requires k < Size(params)
    ensures InRange(params, Digits(params, k))
  {
    if params != [] {
      var n := |params| - 1;
      SplitIndex(k, |params[n].values|, Size(params[..n]));
      DigitsInRange(params[..n], k / |params[n].values|);
    }
  }

  /** Every place has its own digits... */
  lemma {:induction false} PlaceOfDigits(params: seq<Param>, k: nat)
    requires k < Size(params)
    ensures |Digits(params, k)| == |params| && Place(params, Digits(params, k)) == k
  {
    DigitsInRange(params, k);
    if params != [] {
      var n := |params| - 1;
      var m := |params[n].values|;
      SplitIndex(k, m, Size(params[..n]));
      PlaceOfDigits(params[..n], k / m);
      assert Digits(params, k)[..n] == Digits(params[..n], k / m);
    }
  }

  lemma Scaled(a: int, b: int, m: nat)
    requires a <= b
    ensures a * m <= b * m
  {
  }

  lemma SameQuotient(a: int, d: nat, q: int, r: nat, m: nat)
    requires d < m && r < m && a * m + d == q * m + r
    ensures a == q && d == r
  {
    if a < q {
      Scaled(a + 1, q, m);
    } else if q < a {
      Scaled(q + 1, a, m);
    }
  }

  lemma DivOfSum(a: nat, m: nat, d: nat)
    requires d < m
    ensures (a * m + d) / m == a && (a * m + d) % m == d
  {
    var k := a * m + d;
    SameQuotient(a, d, k / m, k % m, m);
  }

  lemma PlaceBound(a: nat, n: nat, m: nat, d: nat)
    requires a < n && d < m
    ensures a * m + d < n * m
  {
    assert (a + 1) * m <= n * m;
  }

  /** ...and every choice of values has its place, so each combination occurs exactly once. */
  lemma {:induction false} DigitsOfPlace(params: seq<Param>, ds: seq<nat>)
    requires InRange(params, ds)
    ensures Place(params, ds) < Size(params) && Digits(params, Place(params, ds)) == ds
  {
    if params != [] {
      var n := |params| - 1;
      var m := |params[n].values|;
      DigitsOfPlace(params[..n], ds[..n]);
      PlaceBound(Place(params[..n], ds[..n]), Size(params[..n]), m, ds[n]);
      DivOfSum(Place(params[..n], ds[..n]), m, ds[n]);
      assert ds[..n] + [ds[n]] == ds;
    }
  }

  // ---- What a configuration holds ----

  ghost predicate DistinctNames(params: seq<Param>) {
    forall i, j :: 0 <= i < j < |params| ==> params[i].name != params[j].name
  }

  ghost predicate KnownNames(params: seq<Param>) {
    forall i :: 0 <= i < |params| ==> params[i].name in KINDS
  }

  /** The configuration carries this value for this parameter, or the default if the value cannot
      be used. */
  predicate Holds(f: Formats, c: Combo, name: string, v: string) {
    if name == "batch_size" then c.system.batchSize == if Accepts(f, name, v) then f.parseInt(v).value else 0
    else if name == "workers" then c.system.workers == if Accepts(f, name, v) then f.parseInt(v).value else 0
    else if name == "batch_timeout" then c.system.batchTimeout == v
    else if Accepts(f, name, v) then name in c.overrides && c.overrides[name] == v
    else name !in c.overrides
  }

  predicate Unset(c: Combo, name: string) {
    if name == "batch_size" then c.system.batchSize == 0
    else if name == "workers" then c.system.workers == 0
    else if name == "batch_timeout" then c.system.batchTimeout == ""
    else name !in c.overrides
  }

  lemma ApplySets(f: Formats, c: Combo, name: string, v: string)
    requires Unset(c, name) && name in KINDS
    ensures Holds(f, ApplyParam(f, c, name, v), name, v)
    ensures ApplyParam(f, c, name, v).order == c.order
  {
  }

  lemma ApplyKeeps(f: Formats, c: Combo, name: string, v: string, other: string, w: string)
    requires other != name
    ensures Unset(c, other) ==> Unset(ApplyParam(f, c, name, v), other)
    ensures Holds(f, c, other, w) ==> Holds(f, ApplyParam(f, c, name, v), other, w)
  {
  }

  function Names(params: seq<Param>): seq<string> {
    seq(|params|, i requires 0 <= i < |params| => params[i].name)
  }

  lemma {:induction false} ElementUnset(f: Formats, params: seq<Param>, k: nat, name: string)
    requires k < Size(params) && name !in Names(params)
    ensures Unset(Element(f, params, k), name)
  {
    hide ApplyParam, Unset, Accepts;
    if params == [] {
      BlankUnset(name);
    } else {
      var n := |params| - 1;
      var m := |params[n].values|;
      SplitIndex(k, m, Size(params[..n]));
      assert Names(params)[n] == params[n].name && Names(params) == Names(params[..n]) + [params[n].name];
      ElementUnset(f, params[..n], k / m, name);
      var before := Element(f, params[..n], k / m);
      var c := before.(order := before.order + [params[n].name]);
      OrderOnly(f, before, c, name, "");
      ApplyKeeps(f, c, params[n].name, f.trim(params[n].values[k % m]), name, "");
    }
  }

  lemma BlankUnset(name: string)
    ensures Unset(BLANK, name)
  {
  }

  lemma OrderOnly(f: Formats, a: Combo, b: Combo, name: string, w: string)
    requires a.system == b.system && a.overrides == b.overrides
    ensures Unset(a, name) <==> Unset(b, name)
    ensures Holds(f, a, name, w) <==> Holds(f, b, name, w)
  {
  }

  lemma LastIsNew(params: seq<Param>)
    requires DistinctNames(params) && KnownNames(params) && params != []
    ensures var front, last := params[..|params| - 1], params[|params| - 1];
            && DistinctNames(front) && KnownNames(front)
            && last.name in KINDS && last.name !in Names(front)
            && forall j :: 0 <= j < |front| ==> front[j] == params[j] && front[j].name != last.name
  {
  }

  /** Configuration k, its digits and its names, from those of the parameters before the last. */
  lemma LastParam(f: Formats, params: seq<Param>, k: nat)
    requires params != [] && k < Size(params)
    ensures var front, last := params[..|params| - 1], params[|params| - 1];
            var m := |last.values|;
            && m > 0 && k / m < Size(front)
            && Digits(params, k) == Digits(front, k / m) + [k % m]
            && Names(params) == Names(front) + [last.name]
            && var before := Element(f, front, k / m);
            Element(f, params, k) ==
            ApplyParam(f, before.(order := before.order + [last.name]), last.name, f.trim(last.values[k % m]))
  {
    SplitIndex(k, |params[|params| - 1].values|, Size(params[..|params| - 1]));
  }

  /** Configuration k holds, for every parameter, the value its digit of k selects. */
  lemma {:induction false} ElementHolds(f: Formats, params: seq<Param>, k: nat, j: nat)
    requires DistinctNames(params) && KnownNames(params) && k < Size(params) && j < |params|
    ensures InRange(params, Digits(params, k))
    ensures Holds(f, Element(f, params, k), params[j].name, f.trim(params[j].values[Digits(params, k)[j]]))
    ensures Element(f, params, k).order == Names(params)
  {
    hide ApplyParam, Unset, Accepts, Holds, Element, Digits, Names, Size, DistinctNames, KnownNames;
    DigitsInRange(params, k);
    var n := |params| - 1;
    var m := |params[n].values|;
    var front, last := params[..n], params[n];
    LastParam(f, params, k);
    LastIsNew(params);
    var before := Element(f, front, k / m);
    var c := before.(order := before.order + [last.name]);
    var v := f.trim(last.values[k % m]);
    FrontOrder(f, front, k / m);
    ElementUnset(f, front, k / m, last.name);
    OrderOnly(f, before, c, last.name, v);
    ApplySets(f, c, last.name, v);
    if j < n {
      DigitsInRange(front, k / m);
      ElementHolds(f, front, k / m, j);
      var w := f.trim(front[j].values[Digits(front, k / m)[j]]);
      OrderOnly(f, before, c, front[j].name, w);
      ApplyKeeps(f, c, last.name, v, front[j].name, w);
    }
  }

  lemma FrontOrder(f: Formats, params: seq<Param>, k: nat)
    requires k < Size(params)
    ensures Element(f, params, k).order == Names(params)
  {
    if params != [] {
      var n := |params| - 1;
      SplitIndex(k, |params[n].values|, Size(params[..n]));
      FrontOrder(f, params[..n], k / |params[n].values|);
      assert Names(params) == Names(params[..n]) + [params[n].name];
    }
  }

  // ---- Labels ----

  function ValueStr(f: Formats, c: Combo, name: string): string {
    if name == "batch_size" then f.show(c.system.batchSize)
    else if name == "workers" then f.show(c.system.workers)
    else if name == "batch_timeout" then c.system.batchTimeout
    else if name in c.overrides then c.overrides[name]
    else ""
  }

  function ShortKey(name: string): string {
    if name == "batch_size" then "bs" else if name == "batch_timeout" then "bt" else name
  }

  function Parts(f: Formats, c: Combo, order: seq<string>): seq<string> {
    if order == [] then []
    else
      var name := order[|order| - 1];
      var v := ValueStr(f, c, name);
      Parts(f, c, order[..|order| - 1]) + if v != "" then [ShortKey(name) + "=" + v] else []
  }

  function Label(f: Formats, c: Combo): string {
    var parts := Parts(f, c, c.order);
    if |parts| == 0 then "default" else Payload.Join(parts, ' ')
  }

  /** What a label shows of a parameter value: the number it parses to, or the value itself if it
      can be used. */
  function Shown(f: Formats, name: string, v: string): string {
    if name == "batch_size" || name == "workers" then f.show(if Accepts(f, name, v) then f.parseInt(v).value else 0)
    else if Accepts(f, name, v) then v
    else ""
  }

  /** What configuration k's label shows of parameter j. */
  function ShownAt(f: Formats, params: seq<Param>, k: nat, j: nat): string
    requires k < Size(params) && j < |params| && InRange(params, Digits(params, k))
  {
    Shown(f, params[j].name, f.trim(params[j].values[Digits(params, k)[j]]))
  }

  lemma HeldIsShown(f: Formats, c: Combo, name: string, v: string)
    requires Holds(f, c, name, v)
    ensures ValueStr(f, c, name) == Shown(f, name, v)
  {
  }

  lemma {:induction false} PartsAt(f: Formats, c: Combo, order: seq<string>)
    requires forall j :: 0 <= j < |order| ==> ValueStr(f, c, order[j]) != ""
    ensures |Parts(f, c, order)| == |order|
    ensures forall j :: 0 <= j < |order| ==>
                          Parts(f, c, order)[j] == ShortKey(order[j]) + "=" + ValueStr(f, c, order[j])
  {
    hide ValueStr, ShortKey;
    if order != [] {
      PartsAt(f, c, order[..|order| - 1]);
    }
  }

  /** The label of configuration k names every parameter in order, with what its digit of k selects. */
  lemma LabelShows(f: Formats, params: seq<Param>, k: nat)
    requires DistinctNames(params) && KnownNames(params) && params != [] && k < Size(params)
    requires InRange(params, Digits(params, k)) && forall j :: 0 <= j < |params| ==> ShownAt(f, params, k, j) != ""
    ensures var c := Element(f, params, k);
            var parts := Parts(f, c, c.order);
            && Label(f, c) == Payload.Join(parts, ' ') && |parts| == |params|
            && forall j :: 0 <= j < |params| ==> parts[j] == ShortKey(params[j].name) + "=" + ShownAt(f, params, k, j)
  {
    hide Holds, Element, Shown, ValueStr, ShortKey, Parts;
    var c := Element(f, params, k);
    FrontOrder(f, params, k);
    forall j | 0 <= j < |params|
      ensures c.order[j] == params[j].name && ValueStr(f, c, params[j].name) == ShownAt(f, params, k, j)
    {
      ElementHolds(f, params, k, j);
      HeldIsShown(f, c, params[j].name, f.trim(params[j].values[Digits(params, k)[j]]));
    }
    PartsAt(f, c, c.order);
  }

  ghost predicate NoSpace(s: string) { forall i :: 0 <= i < |s| ==> s[i] != ' ' }

  /** A label tells what its configuration shows: with no spaces in what is shown, two
      configurations of a sweep have the same label exactly if every parameter shows the same. */
  lemma LabelTells(f: Formats, params: seq<Param>, k: nat, l: nat)
    requires DistinctNames(params) && KnownNames(params) && params != [] && k < Size(params) && l < Size(params)
    requires InRange(params, Digits(params, k)) && InRange(params, Digits(params, l))
    requires forall j :: 0 <= j < |params| ==> ShownAt(f, params, k, j) != "" && NoSpace(ShownAt(f, params, k, j))
    requires forall j :: 0 <= j < |params| ==> ShownAt(f, params, l, j) != "" && NoSpace(ShownAt(f, params, l, j))
    ensures Label(f, Element(f, params, k)) == Label(f, Element(f, params, l)) <==>
            forall j :: 0 <= j < |params| ==> ShownAt(f, params, k, j) == ShownAt(f, params, l, j)
  {
    hide Element, Parts, Label, ShownAt;
    LabelShows(f, params, k);
    LabelShows(f, params, l);
    var a := Parts(f, Element(f, params, k), Element(f, params, k).order);
    var b := Parts(f, Element(f, params, l), Element(f, params, l).order);
    forall j | 0 <= j < |params|
      ensures NoSpace(a[j]) && NoSpace(b[j])
      ensures a[j] == b[j] <==> ShownAt(f, params, k, j) == ShownAt(f, params, l, j)
    {
      KeyedTells(ShortKey(params[j].name), ShownAt(f, params, k, j), ShownAt(f, params, l, j));
      KeyNoSpace(params[j].name);
    }
    if Payload.Join(a, ' ') == Payload.Join(b, ' ') {
      Payload.JoinInjective(a, b, ' ');
    }
    assert a == b <==> forall j :: 0 <= j < |params| ==> a[j] == b[j];
  }

  lemma KeyedTells(key: string, v: string, w: string)
    ensures key + "=" + v == key + "=" + w <==> v == w
    ensures NoSpace(key) && NoSpace(v) ==> NoSpace(key + "=" + v)
    ensures NoSpace(key) && NoSpace(w) ==> NoSpace(key + "=" + w)
  {
    assert (key + "=" + v)[|key| + 1..] == v && (key + "=" + w)[|key| + 1..] == w;
  }

  lemma KeyNoSpace(name: string)
    requires name in KINDS
    ensures NoSpace(ShortKey(name))
  {
  }

  // ---- Requests ----

  const MAX_CONFIGS := 32
  const MAX_TOTAL_RUNS := 120
  const KNOWN_REGIMES := ["low-fanout", "hot-room", "skewed-hot-room", "high-rate"]

  datatype Request = Request(architecture: string, regimes: seq<string>, params: seq<Param>, repetitions: int)

  function RegimesOf(r: Request): seq<string> { if |r.regimes| == 0 then KNOWN_REGIMES else r.regimes }

  ghost predicate ParamFits(p: Param) { p.name in KINDS && 1 <= |p.values| <= 64 }

  /** What a request must satisfy to be planned. */
  ghost predicate Acceptable(r: Request) {
    && r.params != [] && DistinctNames(r.params)
    && (forall i :: 0 <= i < |r.params| ==> ParamFits(r.params[i]))
    && Size(r.params) * |RegimesOf(r)| <= MAX_CONFIGS
    && (forall i :: 0 <= i < |RegimesOf(r)| ==> RegimesOf(r)[i] in KNOWN_REGIMES)
  }

  function TotalRuns(r: Request): int { Size(r.params) * |RegimesOf(r)| * Reps(r.repetitions) }

  /** One parameter of 32 values, one regime. */
  function Widest(repetitions: int): Request {
    Request("monolith", ["hot-room"], [Param("workers", seq(MAX_CONFIGS, _ => "1"))], repetitions)
  }

  lemma WidestAccepted(repetitions: int)
    ensures Acceptable(Widest(repetitions)) && TotalRuns(Widest(repetitions)) == MAX_CONFIGS * Reps(repetitions)
  {
    var r := Widest(repetitions);
    assert r.params[..0] == [] && Size([]) == 1;
    assert Size(r.params) == MAX_CONFIGS;
  }

  lemma RunsPerRepetition(r: Request)
    requires Acceptable(r)
    ensures TotalRuns(r) <= MAX_CONFIGS * Reps(r.repetitions)
  {
    Scaled(Size(r.params) * |RegimesOf(r)|, MAX_CONFIGS, Reps(r.repetitions));
  }

  /** The stated cap on total runs is not part of acceptance: it holds for all accepted requests of n
      repetitions if and only if n is at most 3. */
  lemma TotalRunsCapped(n: int)
    requires n >= 1
    ensures (forall r :: Acceptable(r) && Reps(r.repetitions) == n ==> TotalRuns(r) <= MAX_TOTAL_RUNS) <==> n <= 3
  {
    if n <= 3 {
      forall r | Acceptable(r) && Reps(r.repetitions) == n
        ensures TotalRuns(r) <= MAX_TOTAL_RUNS
      {
        RunsPerRepetition(r);
      }
    } else {
      WidestAccepted(n);
    }
  }

  /** With more repetitions the totals have no bound. */
  lemma TotalRunsUnbounded(bound: nat)
    ensures exists r :: Acceptable(r) && TotalRuns(r) > bound && TotalRuns(r) > MAX_TOTAL_RUNS
  {
    WidestAccepted(bound + MAX_TOTAL_RUNS + 1);
  }

  lemma ScaledUp(a: nat, m: nat)
    requires m >= 1
    ensures a <= a * m
  {
  }

  lemma {:induction false} SizeGrows(params: seq<Param>, n: nat)
    requires n <= |params| && forall i :: 0 <= i < |params| ==> ParamFits(params[i])
    ensures 1 <= Size(params[..n]) <= Size(params)
    decreases |params|, n
  {
    if n < |params| {
      var last := |params| - 1;
      SizeGrows(params[..last], n);
      assert params[..last][..n] == params[..n];
      ScaledUp(Size(params[..last]), |params[last].values|);
    } else {
      assert params[..n] == params;
      if n > 0 {
        SizeGrows(params, n - 1);
      }
    }
  }
}
