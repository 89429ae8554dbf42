/** Many connections reporting their gauges into two shared counters, one atomic step at a time. */
module DeliveryTotals {
  import opened Delivery

  /** Where a reading loop stands: between frames, frame scanned, or observed total already added. */
  datatype Phase = Idle | Scanned | HalfReported

  /** `stream` is what the connection received since its gauge last started afresh. */
  datatype Conn = Conn(gauge: Gauge, stream: seq<int>, prevObs: int, prevMiss: int, phase: Phase)

  datatype Totals = Totals(epoch: nat, observed: int, missing: int, conns: seq<Conn>)

  datatype Action =
    | Connect
    | ResetMeasurement
    | Scan(i: nat, seqs: seq<int>)
    | AddObserved(i: nat)
    | AddMissing(i: nat)

  const START := Totals(0, 0, 0, [])

  predicate Enabled(t: Totals, a: Action) {
    match a
    case Connect => true
    case ResetMeasurement => true
    case Scan(i, seqs) => i < |t.conns| && t.conns[i].phase == Idle && seqs != []
    case AddObserved(i) => i < |t.conns| && t.conns[i].phase == Scanned
    case AddMissing(i) => i < |t.conns| && t.conns[i].phase == HalfReported
  }

  function Scanning(c: Conn, epoch: nat, seqs: seq<int>): Conn {
    c.(gauge := Frame(c.gauge, epoch, seqs),
    stream := (if epoch != c.gauge.epoch then [] else c.stream) + seqs,
    phase := Scanned)
  }

  function Step(t: Totals, a: Action): Totals
    requires Enabled(t, a)
  {
    match a
    case Connect => t.(conns := t.conns + [Conn(Blank(0), [], 0, 0, Idle)])
    case ResetMeasurement => t.(epoch := t.epoch + 1)
    case Scan(i, seqs) => t.(conns := t.conns[i := Scanning(t.conns[i], t.epoch, seqs)])
    case AddObserved(i) =>
      var c := t.conns[i];
      t.(observed := t.observed + (c.gauge.contiguous - c.prevObs),
      conns := t.conns[i := c.(prevObs := c.gauge.contiguous, phase := HalfReported)])
    case AddMissing(i) =>
      var c := t.conns[i];
      t.(missing := t.missing + (c.gauge.gaps - c.prevMiss),
      conns := t.conns[i := c.(prevMiss := c.gauge.gaps, phase := Idle)])
  }

  ghost predicate Run(t: Totals, actions: seq<Action>, u: Totals)
    decreases |actions|
  {
    if actions == [] then t == u
    else Enabled(t, actions[0]) && Run(Step(t, actions[0]), actions[1..], u)
  }

  function Sum(xs: seq<int>): int {
    if xs == [] then 0 else Sum(xs[..|xs| - 1]) + xs[|xs| - 1]
  }

  lemma SumSnoc(xs: seq<int>, x: int)
    ensures Sum(xs + [x]) == Sum(xs) + x
  {
    assert (xs + [x])[..|xs|] == xs;
  }

  lemma {:induction false} SumUpdate(xs: seq<int>, i: nat, x: int)
    requires i < |xs|
    ensures Sum(xs[i := x]) == Sum(xs) - xs[i] + x
  {
    var n := |xs| - 1;
    if i == n {
      assert xs[i := x][..n] == xs[..n];
    } else {
      assert xs[i := x][..n] == xs[..n][i := x];
      SumUpdate(xs[..n], i, x);
    }
  }

  function ReportedObs(conns: seq<Conn>): seq<int> {
    seq(|conns|, i requires 0 <= i < |conns| => conns[i].prevObs)
  }

  function ReportedMiss(conns: seq<Conn>): seq<int> {
    seq(|conns|, i requires 0 <= i < |conns| => conns[i].prevMiss)
  }

  ghost predicate Reported(c: Conn) {
    && c.gauge == ObserveAll(Blank(c.gauge.epoch), c.stream)
    && (c.phase != Scanned ==> c.prevObs == c.gauge.contiguous)
    && (c.phase == Idle ==> c.prevMiss == c.gauge.gaps)
  }

  /** The shared totals are the sums of what the connections last reported. */
  ghost predicate Sound(t: Totals) {
    && t.observed == Sum(ReportedObs(t.conns))
    && t.missing == Sum(ReportedMiss(t.conns))
    && forall i :: 0 <= i < |t.conns| ==> Reported(t.conns[i])
  }

  lemma ReportedUpdate(conns: seq<Conn>, i: nat, c: Conn)
    requires i < |conns|
    ensures Sum(ReportedObs(conns[i := c])) == Sum(ReportedObs(conns)) - conns[i].prevObs + c.prevObs
    ensures Sum(ReportedMiss(conns[i := c])) == Sum(ReportedMiss(conns)) - conns[i].prevMiss + c.prevMiss
  {
    assert ReportedObs(conns[i := c]) == ReportedObs(conns)[i := c.prevObs];
    assert ReportedMiss(conns[i := c]) == ReportedMiss(conns)[i := c.prevMiss];
    SumUpdate(ReportedObs(conns), i, c.prevObs);
    SumUpdate(ReportedMiss(conns), i, c.prevMiss);
  }

  lemma StepSound(t: Totals, a: Action)
    requires Sound(t) && Enabled(t, a)
    ensures Sound(Step(t, a))
  {
    hide Step, Sound, Enabled;
    match a
    case Connect => ConnectSound(t);
    case ResetMeasurement => ResetSound(t);
    case Scan(i, seqs) => ScanSound(t, i, seqs);
    case AddObserved(i) => AddSound(t, i, a);
    case AddMissing(i) => AddSound(t, i, a);
  }

  lemma ConnectSound(t: Totals)
    requires Sound(t)
    ensures Sound(Step(t, Connect))
  {
    hide ReportedObs, ReportedMiss, Sum;
    var newcomer := Conn(Blank(0), [], 0, 0, Idle);
    ReportedSnoc(t.conns, newcomer);
    SumSnoc(ReportedObs(t.conns), 0);
    SumSnoc(ReportedMiss(t.conns), 0);
  }

  lemma ReportedSnoc(conns: seq<Conn>, c: Conn)
    ensures ReportedObs(conns + [c]) == ReportedObs(conns) + [c.prevObs]
    ensures ReportedMiss(conns + [c]) == ReportedMiss(conns) + [c.prevMiss]
  {
  }

  lemma ResetSound(t: Totals)
    requires Sound(t)
    ensures Sound(Step(t, ResetMeasurement))
  {
  }

  lemma ScanSound(t: Totals, i: nat, seqs: seq<int>)
    requires Sound(t) && Enabled(t, Scan(i, seqs))
    ensures Sound(Step(t, Scan(i, seqs)))
  {
    hide ReportedObs, ReportedMiss, Sum, Reported;
    ScanReported(t.conns[i], t.epoch, seqs);
    ReportedUpdate(t.conns, i, Scanning(t.conns[i], t.epoch, seqs));
  }

  lemma AddSound(t: Totals, i: nat, a: Action)
    requires Sound(t) && Enabled(t, a) && (a == AddObserved(i) || a == AddMissing(i))
    ensures Sound(Step(t, a))
  {
    hide ReportedObs, ReportedMiss, Sum, ObserveAll;
    ReportedUpdate(t.conns, i, Step(t, a).conns[i]);
  }

  lemma ScanReported(c: Conn, epoch: nat, seqs: seq<int>)
    requires Reported(c)
    ensures Reported(Scanning(c, epoch, seqs))
  {
    var stream := if epoch != c.gauge.epoch then [] else c.stream;
    FrameCuts(Blank(epoch), stream, seqs);
    FrameCuts(Blank(epoch), stream + seqs, []);
    assert ObserveAll(Blank(epoch), []) == Blank(epoch);
  }

  lemma {:induction false} RunSound(t: Totals, actions: seq<Action>, u: Totals)
    requires Sound(t) && Run(t, actions, u)
    ensures Sound(u)
    decreases |actions|
  {
    if actions != [] {
      StepSound(t, actions[0]);
      RunSound(Step(t, actions[0]), actions[1..], u);
    }
  }

  /** Measurement resets in a run. */
  function Resets(actions: seq<Action>): nat {
    if actions == [] then 0 else Resets(actions[1..]) + if actions[0].ResetMeasurement? then 1 else 0
  }

  lemma {:induction false} EpochCountsResets(t: Totals, actions: seq<Action>, u: Totals)
    requires Run(t, actions, u)
    ensures u.epoch == t.epoch + Resets(actions)
    decreases |actions|
  {
    if actions != [] {
      EpochCountsResets(Step(t, actions[0]), actions[1..], u);
    }
  }

  /** A scanned frame brings the gauge into the current epoch; the stream goes on if it was there
      already, and begins with the frame otherwise. */
  lemma ScanEnters(t: Totals, i: nat, seqs: seq<int>)
    requires Sound(t) && Enabled(t, Scan(i, seqs))
    ensures var c, d := t.conns[i], Step(t, Scan(i, seqs)).conns[i];
            && d.gauge.epoch == t.epoch
            && d.gauge == ObserveAll(Blank(t.epoch), d.stream)
            && d.stream == if c.gauge.epoch == t.epoch then c.stream + seqs else seqs
  {
    FramesJoin(t.conns[i].gauge, t.epoch, seqs, []);
    ScanReported(t.conns[i], t.epoch, seqs);
    assert Reported(Step(t, Scan(i, seqs)).conns[i]);
    assert [] + seqs == seqs;
  }

  // ---- What the totals mean ----

  ghost predicate Countable(stream: seq<int>) {
    && NonNegative(stream)
    && (stream == [] || stream[0] > 0 || |stream| == 1 || stream[1] == 1)
  }

  ghost predicate Quiet(t: Totals) {
    forall i :: 0 <= i < |t.conns| ==> t.conns[i].phase == Idle && Countable(t.conns[i].stream)
  }

  ghost function AdvancesOf(c: Conn): int { |Records(c.stream)| }

  ghost function SkipsOf(c: Conn): int {
    if c.stream == [] then 0 else |Skipped(c.stream, c.gauge.lastSeq)|
  }

  ghost function Advances(conns: seq<Conn>): seq<int> {
    seq(|conns|, i requires 0 <= i < |conns| => AdvancesOf(conns[i]))
  }

  ghost function Skips(conns: seq<Conn>): seq<int> {
    seq(|conns|, i requires 0 <= i < |conns| => SkipsOf(conns[i]))
  }

  /** In every interleaving, once no report is half made, the totals count the advances and the
      skipped numbers of each connection's stream since its gauge last started afresh. */
  lemma TotalsCount(actions: seq<Action>, t: Totals)
    requires Run(START, actions, t) && Quiet(t)
    ensures t.observed == Sum(Advances(t.conns)) && t.missing == Sum(Skips(t.conns))
  {
    StartSound();
    RunSound(START, actions, t);
    forall i | 0 <= i < |t.conns|
      ensures t.conns[i].prevObs == AdvancesOf(t.conns[i]) && t.conns[i].prevMiss == SkipsOf(t.conns[i])
    {
      ConnCounts(t.conns[i]);
    }
    assert ReportedObs(t.conns) == Advances(t.conns);
    assert ReportedMiss(t.conns) == Skips(t.conns);
  }

  lemma ConnCounts(c: Conn)
    requires Reported(c) && c.phase == Idle && Countable(c.stream)
    ensures c.prevObs == AdvancesOf(c) && c.prevMiss == SkipsOf(c)
  {
    if c.stream == [] {
      assert Records([]) == {};
    } else {
      CountedExactly(c.stream, c.gauge.epoch);
    }
  }

  // ---- What a measurement reset does not undo ----

  /** The same sums over the connections that have received something since the last reset. */
  ghost function AdvancesNow(conns: seq<Conn>, epoch: nat): seq<int> {
    seq(|conns|, i requires 0 <= i < |conns| => if conns[i].gauge.epoch == epoch then AdvancesOf(conns[i]) else 0)
  }

  ghost function SkipsNow(conns: seq<Conn>, epoch: nat): seq<int> {
    seq(|conns|, i requires 0 <= i < |conns| => if conns[i].gauge.epoch == epoch then SkipsOf(conns[i]) else 0)
  }

  lemma {:induction false} SumsEqual(xs: seq<int>, ys: seq<int>)
    requires |xs| == |ys| && forall i :: 0 <= i < |xs| ==> xs[i] <= ys[i]
    ensures Sum(xs) <= Sum(ys)
    ensures Sum(xs) == Sum(ys) <==> xs == ys
  {
    if xs != [] {
      var n := |xs| - 1;
      SumsEqual(xs[..n], ys[..n]);
      assert xs == xs[..n] + [xs[n]] && ys == ys[..n] + [ys[n]];
    }
  }

  /** The observed total counts the current measurement alone if and only if no connection that
      received something earlier has been silent since the reset. */
  lemma ObservedIsCurrent(actions: seq<Action>, t: Totals)
    requires Run(START, actions, t) && Quiet(t)
    ensures t.observed == Sum(AdvancesNow(t.conns, t.epoch)) <==>
            forall i :: 0 <= i < |t.conns| && t.conns[i].gauge.epoch != t.epoch ==> t.conns[i].stream == []
  {
    hide Sum, Records, AdvancesOf;
    TotalsCount(actions, t);
    var all, now := Advances(t.conns), AdvancesNow(t.conns, t.epoch);
    forall i | 0 <= i < |t.conns|
      ensures now[i] <= all[i]
      ensures now[i] == all[i] <==> t.conns[i].gauge.epoch == t.epoch || t.conns[i].stream == []
    {
      NothingAdvanced(t.conns[i]);
    }
    SumsEqual(now, all);
  }

  lemma NothingAdvanced(c: Conn)
    ensures AdvancesOf(c) >= 0 && (AdvancesOf(c) == 0 <==> c.stream == [])
  {
    if c.stream != [] {
      assert Leads(c.stream, 0);
      assert c.stream[0] in Records(c.stream);
    } else {
      assert Records(c.stream) == {};
    }
  }

  /** The missing total, if and only if no such connection had skipped a number. */
  lemma MissingIsCurrent(actions: seq<Action>, t: Totals)
    requires Run(START, actions, t) && Quiet(t)
    ensures t.missing == Sum(SkipsNow(t.conns, t.epoch)) <==>
            forall i :: 0 <= i < |t.conns| && t.conns[i].gauge.epoch != t.epoch ==> t.conns[i].gauge.gaps == 0
  {
    hide Sum, Records, SkipsOf, ObserveAll;
    StartSound();
    RunSound(START, actions, t);
    TotalsCount(actions, t);
    var all, now := Skips(t.conns), SkipsNow(t.conns, t.epoch);
    forall i | 0 <= i < |t.conns|
      ensures now[i] <= all[i]
      ensures now[i] == all[i] <==> t.conns[i].gauge.epoch == t.epoch || t.conns[i].gauge.gaps == 0
    {
      ConnCounts(t.conns[i]);
      SkipsNatural(t.conns[i]);
    }
    SumsEqual(now, all);
  }

  lemma SkipsNatural(c: Conn)
    ensures SkipsOf(c) >= 0
  {
  }

  lemma StartSound()
    ensures Sound(START)
  {
    assert ReportedObs([]) == [] && ReportedMiss([]) == [];
  }

  /** A connection receives 1 and 3, then the measurement is reset: both totals keep counting it. */
  lemma ResetKeepsOld()
    ensures exists actions, t :: Run(START, actions, t) && Quiet(t) &&
                                 t.observed == 2 && Sum(AdvancesNow(t.conns, t.epoch)) == 0 &&
                                 t.missing == 1 && Sum(SkipsNow(t.conns, t.epoch)) == 0
  {
    var unread := Conn(Blank(0), [], 0, 0, Idle);
    var read := Conn(Gauge(0, 3, 2, 1), [1, 3], 0, 0, Scanned);
    var done := Conn(Gauge(0, 3, 2, 1), [1, 3], 2, 1, Idle);
    var t1 := Totals(0, 0, 0, [unread]);
    var t2 := Totals(0, 0, 0, [read]);
    var t4 := Totals(0, 2, 1, [done]);
    var t5 := Totals(1, 2, 1, [done]);
    ScanOneThree();
    assert [] + [1, 3] == [1, 3];
    assert Step(START, Connect) == t1;
    assert Scanning(unread, 0, [1, 3]) == read;
    assert Step(t1, Scan(0, [1, 3])).conns == [read];
    assert Step(Step(t2, AddObserved(0)), AddMissing(0)) == t4;
    assert Step(t4, ResetMeasurement) == t5;
    ThreeSteps(t1, Scan(0, [1, 3]), AddObserved(0), AddMissing(0));
    RunThen(t1, [Scan(0, [1, 3]), AddObserved(0), AddMissing(0)], t4, ResetMeasurement);
    var later := [Scan(0, [1, 3]), AddObserved(0), AddMissing(0)] + [ResetMeasurement];
    assert ([Connect] + later)[1..] == later;
    assert Run(START, [Connect] + later, t5);
    assert AdvancesNow(t5.conns, 1) == [0] && SkipsNow(t5.conns, 1) == [0];
    SumSnoc([], 0);
    assert [] + [0] == [0];
  }

  lemma ScanOneThree()
    ensures Frame(Blank(0), 0, [1, 3]) == Gauge(0, 3, 2, 1)
  {
    ObserveSnoc(Blank(0), [], 1);
    ObserveSnoc(Blank(0), [1], 3);
    assert [] + [1] == [1] && [1] + [3] == [1, 3];
  }

  lemma {:induction false} RunThen(t: Totals, actions: seq<Action>, u: Totals, a: Action)
    requires Run(t, actions, u) && Enabled(u, a)
    ensures Run(t, actions + [a], Step(u, a))
    decreases |actions|
  {
    if actions == [] {
      assert ([] + [a])[1..] == [];
      assert Run(Step(u, a), [], Step(u, a));
    } else {
      RunThen(Step(t, actions[0]), actions[1..], u, a);
      assert (actions + [a])[1..] == actions[1..] + [a];
    }
  }

  // ---- One reading loop ----

  class Metrics {
    var epoch: nat
    var deliveryObserved: int
    var deliveryMissing: int

    constructor ()
      ensures epoch == 0 && deliveryObserved == 0 && deliveryMissing == 0
    {
      epoch, deliveryObserved, deliveryMissing := 0, 0, 0;
    }

    method ResetMeasurement()
      modifies this`epoch
      ensures epoch == old(epoch) + 1
    {
      epoch := epoch + 1;
    }
  }

  class Reader {
    const tracker: DeliveryTracker
    var prevObs: int
    var prevMiss: int

    constructor ()
      ensures fresh(tracker) && tracker.View() == Blank(0) && prevObs == 0 && prevMiss == 0
    {
      tracker := new DeliveryTracker();
      prevObs, prevMiss := 0, 0;
    }

    /** A frame taken without interruption is the three steps Scan, AddObserved and AddMissing. */
    method Receive(m: Metrics, seqs: seq<int>, ghost t: Totals, ghost i: nat) returns (ghost u: Totals)
      requires seqs != [] && i < |t.conns| && t.conns[i].phase == Idle
      requires t.epoch == m.epoch && t.observed == m.deliveryObserved && t.missing == m.deliveryMissing
      requires t.conns[i].gauge == tracker.View() && t.conns[i].prevObs == prevObs && t.conns[i].prevMiss == prevMiss
      modifies this, tracker, m`deliveryObserved, m`deliveryMissing
      ensures Run(t, [Scan(i, seqs), AddObserved(i), AddMissing(i)], u) && |u.conns| == |t.conns|
      ensures u.observed == m.deliveryObserved && u.missing == m.deliveryMissing
      ensures u.conns[i].gauge == tracker.View() && u.conns[i].prevObs == prevObs && u.conns[i].prevMiss == prevMiss
    {
      hide Frame;
      var obs, miss := tracker.OnSeqs(m.epoch, seqs);
      if obs != prevObs {
        m.deliveryObserved := m.deliveryObserved + (obs - prevObs);
        prevObs := obs;
      }
      if miss != prevMiss {
        m.deliveryMissing := m.deliveryMissing + (miss - prevMiss);
        prevMiss := miss;
      }
      ghost var t1 := Step(t, Scan(i, seqs));
      ghost var t2 := Step(t1, AddObserved(i));
      u := Step(t2, AddMissing(i));
      ThreeSteps(t, Scan(i, seqs), AddObserved(i), AddMissing(i));
    }
  }

  lemma ThreeSteps(t: Totals, a: Action, b: Action, c: Action)
    requires Enabled(t, a) && Enabled(Step(t, a), b) && Enabled(Step(Step(t, a), b), c)
    ensures Run(t, [a, b, c], Step(Step(Step(t, a), b), c))
  {
    hide Step, Enabled;
    var all := [a, b, c];
    assert all[1..] == [b, c] && [b, c][1..] == [c] && [c][1..] == [];
    var t1 := Step(t, a);
    var t2 := Step(t1, b);
    assert Run(Step(t2, c), [], Step(t2, c));
    assert Run(t2, [c], Step(t2, c));
    assert Run(t1, [b, c], Step(t2, c));
  }
}
