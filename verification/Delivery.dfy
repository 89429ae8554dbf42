/** The load tester's delivery accounting: gap tracking per connection, shared totals over all. */
module Delivery {
  /** What a connection knows of the sequence numbers it received in one measurement epoch. */
  datatype Gauge = Gauge(epoch: nat, lastSeq: int, contiguous: int, gaps: int)

  function Blank(epoch: nat): Gauge { Gauge(epoch, 0, 0, 0) }

  function Observe(g: Gauge, s: int): Gauge {
    if g.lastSeq == 0 || s == g.lastSeq + 1 then g.(contiguous := g.contiguous + 1, lastSeq := s)
    else if s > g.lastSeq + 1 then
      g.(gaps := g.gaps + (s - g.lastSeq - 1), contiguous := g.contiguous + 1, lastSeq := s)
    else g
  }

  function ObserveAll(g: Gauge, seqs: seq<int>): Gauge {
    if seqs == [] then g else Observe(ObserveAll(g, seqs[..|seqs| - 1]), seqs[|seqs| - 1])
  }

  /** A frame of another epoch starts the gauge afresh. */
  function Frame(g: Gauge, epoch: nat, seqs: seq<int>): Gauge {
    ObserveAll(if epoch != g.epoch then Blank(epoch) else g, seqs)
  }

  lemma ObserveSnoc(g: Gauge, seqs: seq<int>, s: int)
    ensures ObserveAll(g, seqs + [s]) == Observe(ObserveAll(g, seqs), s)
    ensures ObserveAll(g, []) == g
  {
    assert (seqs + [s])[..|seqs|] == seqs;
  }

  /** How a stream is cut into frames makes no difference. */
  lemma {:induction false} FrameCuts(g: Gauge, seqs: seq<int>, more: seq<int>)
    ensures ObserveAll(ObserveAll(g, seqs), more) == ObserveAll(g, seqs + more)
    ensures ObserveAll(g, seqs).epoch == g.epoch
    decreases |seqs| + |more|
  {
    if more != [] {
      var n := |more| - 1;
      FrameCuts(g, seqs, more[..n]);
      assert seqs + more == (seqs + more[..n]) + [more[n]];
      ObserveSnoc(g, seqs + more[..n], more[n]);
    } else {
      assert seqs + more == seqs;
      if seqs != [] {
        FrameCuts(g, seqs[..|seqs| - 1], []);
      }
    }
  }

  /** A tracker stays in the epoch it has entered: frames of one epoch are one stream, and only the
      first of them can start afresh. */
  lemma FramesJoin(g: Gauge, epoch: nat, a: seq<int>, b: seq<int>)
    ensures Frame(g, epoch, a).epoch == epoch
    ensures Frame(Frame(g, epoch, a), epoch, b) == Frame(g, epoch, a + b)
  {
    FrameCuts(if epoch != g.epoch then Blank(epoch) else g, a, b);
  }

  // ---- What the two counts mean ----

  ghost predicate NonNegative(seqs: seq<int>) { forall i :: 0 <= i < |seqs| ==> seqs[i] >= 0 }

  ghost predicate Leads(seqs: seq<int>, j: nat)
    requires j < |seqs|
  {
    forall i :: 0 <= i < j ==> seqs[i] < seqs[j]
  }

  /** The strict running maxima. They rise, so each is a different number. */
  ghost function Records(seqs: seq<int>): set<int> {
    set j: nat | j < |seqs| && Leads(seqs, j) :: seqs[j]
  }

  ghost predicate IsMax(seqs: seq<int>, m: int) {
    m in seqs && forall i :: 0 <= i < |seqs| ==> seqs[i] <= m
  }

  /** Numbers from the first received up to `last` that never advanced the stream. */
  ghost function Skipped(seqs: seq<int>, last: int): set<int>
    requires seqs != []
  {
    Interval(seqs[0], last) - Records(seqs)
  }

  /** The tracker's promise: one count per running maximum, one gap per skipped number. */
  ghost predicate Counted(seqs: seq<int>, g: Gauge)
    requires seqs != []
  {
    && IsMax(seqs, g.lastSeq)
    && g.contiguous == |Records(seqs)|
    && g.contiguous + g.gaps == g.lastSeq - seqs[0] + 1
    && g.gaps == |Skipped(seqs, g.lastSeq)|
  }

  lemma RecordsSnoc(seqs: seq<int>, s: int, m: int)
    requires IsMax(seqs, m)
    ensures Records(seqs + [s]) == if s > m then Records(seqs) + {s} else Records(seqs)
    ensures IsMax(seqs + [s], if s > m then s else m)
    ensures s > m ==> s !in Records(seqs)
  {
    var all := seqs + [s];
    forall j: nat | j < |seqs|
      ensures all[j] == seqs[j] && (Leads(all, j) <==> Leads(seqs, j))
    {
      assert forall i :: 0 <= i < j ==> all[i] == seqs[i];
    }
    var i :| 0 <= i < |seqs| && seqs[i] == m;
    assert all[i] == m && all[|seqs|] == s;
    assert Leads(all, |seqs|) <==> s > m;
    forall v | v in Records(all)
      ensures v in Records(seqs) || v == s > m
    {
      var j: nat :| j < |all| && Leads(all, j) && all[j] == v;
      assert j < |seqs| ==> Leads(seqs, j) && seqs[j] == v;
    }
    forall v | v in Records(seqs)
      ensures v in Records(all)
    {
      var j: nat :| j < |seqs| && Leads(seqs, j) && seqs[j] == v;
      assert Leads(all, j) && all[j] == v;
    }
  }

  lemma RecordsOne(s: int)
    ensures Records([s]) == {s} && IsMax([s], s)
  {
    assert Leads([s], 0) && [s][0] == s;
  }

  lemma RecordsInside(seqs: seq<int>, m: int)
    requires IsMax(seqs, m)
    ensures forall v :: v in Records(seqs) ==> seqs[0] <= v <= m
  {
  }

  function Interval(lo: int, hi: int): (r: set<int>)
    ensures forall v :: v in r <==> lo <= v <= hi
    ensures lo <= hi + 1 ==> |r| == hi - lo + 1
    decreases hi - lo
  {
    if lo > hi then {} else Interval(lo, hi - 1) + {hi}
  }

  lemma SkippedSize(seqs: seq<int>, m: int)
    requires IsMax(seqs, m)
    ensures |Skipped(seqs, m)| == m - seqs[0] + 1 - |Records(seqs)|
  {
    hide Records;
    RecordsInside(seqs, m);
    var all := Interval(seqs[0], m);
    assert Records(seqs) <= all;
    assert all == Skipped(seqs, m) + Records(seqs);
  }

  /** How far the two counts are from the promise. */
  ghost function Surplus(seqs: seq<int>, g: Gauge): int { g.contiguous - |Records(seqs)| }

  ghost function Shift(g: Gauge): int { g.contiguous + g.gaps - g.lastSeq }

  /** Past the first positive number the errors of both counts are frozen. */
  lemma ObserveKeeps(seqs: seq<int>, s: int, g: Gauge)
    requires IsMax(seqs, g.lastSeq) && g.lastSeq >= 0 && s >= 0
    ensures IsMax(seqs + [s], Observe(g, s).lastSeq)
    ensures Surplus(seqs + [s], Observe(g, s)) >= Surplus(seqs, g)
    ensures g.lastSeq > 0 ==> Surplus(seqs + [s], Observe(g, s)) == Surplus(seqs, g)
    ensures g.lastSeq > 0 ==> Shift(Observe(g, s)) == Shift(g)
  {
    hide Records, IsMax;
    RecordsSnoc(seqs, s, g.lastSeq);
  }

  lemma {:induction false} Runs(seqs: seq<int>, epoch: nat, n: nat)
    requires 1 <= n <= |seqs| && NonNegative(seqs)
    ensures var a, b := ObserveAll(Blank(epoch), seqs[..n]), ObserveAll(Blank(epoch), seqs);
            && IsMax(seqs, b.lastSeq) && b.lastSeq >= a.lastSeq >= 0
            && Surplus(seqs, b) >= Surplus(seqs[..n], a)
            && (a.lastSeq > 0 ==> Surplus(seqs, b) == Surplus(seqs[..n], a) && Shift(b) == Shift(a))
    decreases |seqs|, n
  {
    hide Records, IsMax, Surplus, Shift;
    var last := |seqs| - 1;
    var g := Blank(epoch);
    if n < |seqs| {
      var before := seqs[..last];
      assert before[..n] == seqs[..n] && seqs == before + [seqs[last]];
      Runs(before, epoch, n);
      Runs(before, epoch, last);
      ObserveSnoc(g, before, seqs[last]);
      ObserveKeeps(before, seqs[last], ObserveAll(g, before));
    } else {
      assert seqs[..n] == seqs;
      if |seqs| == 1 {
        RecordsOne(seqs[0]);
        ObserveSnoc(g, [], seqs[0]);
        assert seqs == [] + [seqs[0]] == [seqs[0]];
      } else {
        Runs(seqs, epoch, last);
      }
    }
  }

  /** Zero doubles as the tracker's "nothing received" mark, so the promise is kept except when a
      stream starts at zero and does not go on to one. Numbers come from a digit scanner. */
  lemma CountedExactly(seqs: seq<int>, epoch: nat)
    requires seqs != [] && NonNegative(seqs)
    ensures Counted(seqs, ObserveAll(Blank(epoch), seqs)) <==>
            seqs[0] > 0 || |seqs| == 1 || seqs[1] == 1
  {
    var g := ObserveAll(Blank(epoch), seqs);
    FirstOne(seqs, epoch);
    Runs(seqs, epoch, 1);
    SkippedSize(seqs, g.lastSeq);
    if seqs[0] == 0 && |seqs| > 1 {
      FirstTwo(seqs, epoch);
      Runs(seqs, epoch, 2);
    }
  }

  /** So the promise is kept on the streams the server produces, whose numbers start at 1. */
  lemma PositiveCounted(seqs: seq<int>, epoch: nat)
    requires seqs != [] && forall i :: 0 <= i < |seqs| ==> seqs[i] > 0
    ensures Counted(seqs, ObserveAll(Blank(epoch), seqs))
  {
    hide Counted, ObserveAll;
    CountedExactly(seqs, epoch);
  }

  /** A zero followed by a five: the four numbers between are not counted as gaps. */
  lemma ZeroMiscounted(epoch: nat)
    ensures ObserveAll(Blank(epoch), [0, 5]) == Gauge(epoch, 5, 2, 0) && !Counted([0, 5], Gauge(epoch, 5, 2, 0))
  {
    FirstTwo([0, 5], epoch);
    assert [0, 5][..2] == [0, 5];
    CountedExactly([0, 5], epoch);
  }

  lemma FirstOne(seqs: seq<int>, epoch: nat)
    requires seqs != []
    ensures ObserveAll(Blank(epoch), seqs[..1]) == Gauge(epoch, seqs[0], 1, 0)
    ensures |Records(seqs[..1])| == 1 && (|seqs| == 1 ==> seqs[..1] == seqs)
  {
    assert seqs[..1] == [] + [seqs[0]] == [seqs[0]];
    ObserveSnoc(Blank(epoch), [], seqs[0]);
    RecordsOne(seqs[0]);
  }

  lemma FirstTwo(seqs: seq<int>, epoch: nat)
    requires |seqs| > 1 && seqs[0] == 0 && seqs[1] >= 0
    ensures ObserveAll(Blank(epoch), seqs[..2]) == Gauge(epoch, seqs[1], 2, 0)
    ensures |Records(seqs[..2])| == if seqs[1] > 0 then 2 else 1
  {
    FirstOne(seqs, epoch);
    RecordsOne(0);
    assert seqs[..2] == seqs[..1] + [seqs[1]] && seqs[..1] == [0];
    ObserveSnoc(Blank(epoch), seqs[..1], seqs[1]);
    RecordsSnoc([0], seqs[1], 0);
  }

  class DeliveryTracker {
    var epoch: nat
    var lastSeq: int
    var contiguous: int
    var gaps: int

    function View(): Gauge reads this { Gauge(epoch, lastSeq, contiguous, gaps) }

    constructor ()
      ensures View() == Blank(0)
    {
      epoch, lastSeq, contiguous, gaps := 0, 0, 0, 0;
    }

    method OnSeqs(ep: nat, seqs: seq<int>) returns (obs: int, miss: int)
      modifies this
      ensures View() == Frame(old(View()), ep, seqs)
      ensures obs == contiguous && miss == gaps
    {
      if ep != epoch {
        epoch, lastSeq, contiguous, gaps := ep, 0, 0, 0;
      }
      ghost var g := View();
      for k := 0 to |seqs|
        invariant View() == ObserveAll(g, seqs[..k])
      {
        var s := seqs[k];
        assert seqs[..k + 1] == seqs[..k] + [s];
        ObserveSnoc(g, seqs[..k], s);
        if lastSeq == 0 || s == lastSeq + 1 {
          contiguous, lastSeq := contiguous + 1, s;
        } else if s > lastSeq + 1 {
          gaps := gaps + (s - lastSeq - 1);
          contiguous, lastSeq := contiguous + 1, s;
        }
      }
      assert seqs[..|seqs|] == seqs;
      return contiguous, gaps;
    }
  }
}
