/** For which buckets the rate bound holds in every interleaving: only for those that never refill
    or never grant. All others break it once the 32-bit stamp comes round. */
module BucketBound {
  import opened PackedWord
  import opened TokenBucket
  import opened BucketRuns

  // ---------------------------------------------------------------- without refill or capacity

  /** Without refill the tokens fall with every grant, so no word comes round. */
  lemma {:induction false} TokensFall(h: seq<Stored>, i: nat, j: nat)
    requires Paid(0, h) && i <= j < |h|
    ensures h[j].tokens + 1000 * (j - i) <= h[i].tokens
    decreases j - i
  {
    if i < j {
      TokensFall(h, i, j - 1);
      assert h[j - 1 + 1].tokens + 1000 <= h[j - 1].tokens + (h[j - 1 + 1].stamp - h[j - 1].stamp) * 0;
    }
  }

  lemma NoRefillNoTurn(capacity: int, s: System, a: Action)
    requires Config(0, capacity) && Sound(capacity, s) && ClockAfterLoad(s) && Paid(0, s.history)
    ensures !TurnsBack(0, capacity, s, a)
  {
    hide Attempt, Pack, Unpack, Paid;
    if Swaps(0, capacity, s, a) {
      var v, last := CallerAt(s, a.caller).version, |s.history| - 1;
      TokensFall(s.history, v, last);
      UnpackPack(s.history[v].tokens, s.history[v].stamp % TWO32);
      UnpackPack(s.history[last].tokens, s.history[last].stamp % TWO32);
      assert v == last;
    }
  }

  lemma NoCapacityNoSwap(rate: int, s: System, a: Action)
    requires Config(rate, 0) && Sound(0, s)
    ensures !Swaps(rate, 0, s, a)
  {
    hide Attempt, Pack;
    if a.Finish? && CallerAt(s, a.caller).Clocked? {
      var x, at := Last(s.history), CallerAt(s, a.caller).at;
      AttemptExact(rate, 0, x.tokens, x.stamp % TWO32, at % TWO32);
    }
  }

  lemma {:induction false} IdleBucketNeverTurns(rate: int, capacity: int, actions: seq<Action>)
    requires Config(rate, capacity) && (rate == 0 || capacity == 0)
    ensures NeverTurnsBack(rate, capacity, actions)
  {
    if actions != [] {
      var before, a := actions[..|actions| - 1], actions[|actions| - 1];
      var s := Run(rate, capacity, before);
      IdleBucketNeverTurns(rate, capacity, before);
      RunPaid(rate, capacity, before);
      if rate == 0 {
        NoRefillNoTurn(capacity, s, a);
      } else {
        NoCapacityNoSwap(rate, s, a);
      }
    }
  }

  // ---------------------------------------------------------------- with both

  /** The level after one grant from a full bucket. */
  function OneTaken(capacity: int): int { capacity * 1000 - 1000 }

  /** Caller 1 loads the word and reads the clock half a turn after the first grant. */
  function Loads(): seq<Action> { Call(0) + [Pass(TWO31)] + [Load(1)] + [ReadClock(1)] }

  /** Caller 2 takes a grant at once and another half a turn later: the word is what it was. */
  function ComesRound(): seq<Action> { Loads() + Call(2) + [Pass(TWO31)] + Call(2) }

  /** Caller 1's swap goes through and turns the stamp back by half a turn; then `k` more calls. */
  function StaleSwap(k: nat): seq<Action> {
    if k == 0 then ComesRound() + [Finish(1)] else StaleSwap(k - 1) + Call(2)
  }

  lemma HalfTurnFills(rate: int, capacity: int)
    requires Config(rate, capacity) && rate >= 1
    ensures Min(capacity * 1000, OneTaken(capacity) + TWO31 * rate) == capacity * 1000
  {
    MulMono(TWO31, TWO31, 1, rate);
  }

  lemma Loaded(rate: int, capacity: int)
    requires Config(rate, capacity) && rate >= 1 && capacity >= 1
    ensures var s, x := Run(rate, capacity, Loads()), Stored(OneTaken(capacity), 0);
            && s.history == [Stored(capacity * 1000, 0), x] && s.word == WordOf(x) && s.clock == TWO31
            && CallerAt(s, 1) == Clocked(WordOf(x), 1, TWO31) && CallerAt(s, 2).Idle?
  {
    hide Pack, Run;
    assert Run(rate, capacity, []) == Initial(capacity) by { RunNone(rate, capacity); }
    CallGrants(rate, capacity, [], 0, Stored(capacity * 1000, 0));
    assert [] + Call(0) == Call(0);
    var s := Run(rate, capacity, Call(0));
    assert CallerAt(s, 1).Idle? && CallerAt(s, 2).Idle?;
    RunSnoc(rate, capacity, Call(0), Pass(TWO31));
    RunSnoc(rate, capacity, Call(0) + [Pass(TWO31)], Load(1));
    RunSnoc(rate, capacity, Call(0) + [Pass(TWO31)] + [Load(1)], ReadClock(1));
  }

  lemma RunNone(rate: int, capacity: int)
    ensures Run(rate, capacity, []) == Initial(capacity)
  {
  }

  lemma WordComesRound(rate: int, capacity: int)
    requires Config(rate, capacity) && rate >= 1 && capacity >= 1
    ensures var s, x := Run(rate, capacity, ComesRound()), OneTaken(capacity);
            && s.history == [Stored(capacity * 1000, 0), Stored(x, 0), Stored(x, TWO31), Stored(x, TWO32)]
            && s.word == WordOf(Stored(x, 0)) && s.clock == TWO32
            && CallerAt(s, 1) == Clocked(WordOf(Stored(x, 0)), 1, TWO31) && CallerAt(s, 2).Idle?
  {
    hide Pack, Run, Loads;
    var x := OneTaken(capacity);
    Loaded(rate, capacity);
    HalfTurnFills(rate, capacity);
    CallGrants(rate, capacity, Loads(), 2, Stored(x, 0));
    RunSnoc(rate, capacity, Loads() + Call(2), Pass(TWO31));
    CallGrants(rate, capacity, Loads() + Call(2) + [Pass(TWO31)], 2, Stored(x, TWO31));
  }

  lemma StaleSwapGoesThrough(rate: int, capacity: int)
    requires Config(rate, capacity) && rate >= 1 && capacity >= 1
    ensures var s, x := Run(rate, capacity, StaleSwap(0)), OneTaken(capacity);
            && s.history == [Stored(capacity * 1000, 0), Stored(x, 0), Stored(x, TWO31), Stored(x, TWO32),
                             Stored(x, TWO31)]
            && s.word == WordOf(Stored(x, TWO31)) && s.clock == TWO32 && CallerAt(s, 2).Idle?
  {
    hide Pack, Unpack, Attempt, Run, ComesRound;
    var x := OneTaken(capacity);
    WordComesRound(rate, capacity);
    HalfTurnFills(rate, capacity);
    RunSnoc(rate, capacity, ComesRound(), Finish(1));
    AttemptExact(rate, capacity, x, 0, TWO31);
    UnpackPack(x, TWO31);
  }

  lemma GrantsSnoc(h: seq<Stored>, y: Stored, from: nat, until: nat)
    requires h != []
    ensures Grants(h + [y], from, until) == Grants(h, from, until) + if from <= y.stamp <= until then 1 else 0
  {
    assert (h + [y])[..|h|] == h;
  }

  lemma GrantsBefore(h: seq<Stored>, x: int, y: int)
    requires h == [Stored(y, 0), Stored(x, 0), Stored(x, TWO31), Stored(x, TWO32), Stored(x, TWO31)]
    ensures Grants(h, TWO32, TWO32) == 1
  {
    hide Grants;
    var h1 := [Stored(y, 0)];
    GrantsOne(h1);
    GrantsSnoc(h1, Stored(x, 0), TWO32, TWO32);
    GrantsSnoc(h1 + [Stored(x, 0)], Stored(x, TWO31), TWO32, TWO32);
    GrantsSnoc(h1 + [Stored(x, 0)] + [Stored(x, TWO31)], Stored(x, TWO32), TWO32, TWO32);
    GrantsSnoc(h1 + [Stored(x, 0)] + [Stored(x, TWO31)] + [Stored(x, TWO32)], Stored(x, TWO31), TWO32, TWO32);
    assert h == h1 + [Stored(x, 0)] + [Stored(x, TWO31)] + [Stored(x, TWO32)] + [Stored(x, TWO31)];
  }

  lemma GrantsOne(h: seq<Stored>)
    requires |h| == 1
    ensures Grants(h, TWO32, TWO32) == 0
  {
  }

  /** The swap put the stamp half a turn back, so the bucket fills once more within the same
      millisecond, and `capacity` calls drain it. */
  lemma {:induction false} DrainedAgain(rate: int, capacity: int, k: nat)
    requires Config(rate, capacity) && rate >= 1 && 1 <= capacity && k <= capacity
    ensures var s := Run(rate, capacity, StaleSwap(k));
            && s.history != [] && s.clock == TWO32 && CallerAt(s, 2).Idle?
            && Grants(s.history, TWO32, TWO32) == 1 + k
            && s.word == WordOf(if k == 0
                                then Stored(OneTaken(capacity), TWO31) else Stored((capacity - k) * 1000, TWO32))
  {
    hide Pack, Run, Grants, ComesRound, Call;
    if k == 0 {
      StaleSwapGoesThrough(rate, capacity);
      GrantsBefore(Run(rate, capacity, StaleSwap(0)).history, OneTaken(capacity), capacity * 1000);
    } else {
      DrainedAgain(rate, capacity, k - 1);
      HalfTurnFills(rate, capacity);
      var s := Run(rate, capacity, StaleSwap(k - 1));
      var x := if k == 1 then Stored(OneTaken(capacity), TWO31) else Stored((capacity - (k - 1)) * 1000, TWO32);
      CallGrants(rate, capacity, StaleSwap(k - 1), 2, x);
      GrantsSnoc(s.history, Stored((capacity - k) * 1000, TWO32), TWO32, TWO32);
    }
  }

  /** One millisecond with a token more than the bucket holds. */
  lemma StaleSwapBreaksBound(rate: int, capacity: int)
    requires Config(rate, capacity) && rate >= 1 && capacity >= 1
    ensures !Bounded(rate, capacity, Run(rate, capacity, StaleSwap(capacity)).history)
  {
    hide Run, Grants, StaleSwap;
    DrainedAgain(rate, capacity, capacity);
    var h := Run(rate, capacity, StaleSwap(capacity)).history;
    assert !WithinRate(rate, capacity, h, TWO32, 0);
  }

  /** The bound holds in every run exactly for buckets that never refill or never grant. */
  lemma BoundExactly(rate: int, capacity: int)
    requires Config(rate, capacity)
    ensures (forall actions :: Bounded(rate, capacity, Run(rate, capacity, actions).history)) <==>
            rate == 0 || capacity == 0
  {
    hide Bounded, Run, StaleSwap;
    if rate == 0 || capacity == 0 {
      forall actions
        ensures Bounded(rate, capacity, Run(rate, capacity, actions).history)
      {
        IdleBucketNeverTurns(rate, capacity, actions);
        WindowBound(rate, capacity, actions);
      }
    } else {
      StaleSwapBreaksBound(rate, capacity);
    }
  }

  // ---------------------------------------------------------------- how much is too much

  /** No swap can span more than the time that has passed. */
  lemma {:induction false} SpansWithinClock(rate: int, capacity: int, actions: seq<Action>, limit: nat)
    requires Config(rate, capacity) && Run(rate, capacity, actions).clock < limit
    ensures SwapsWithin(rate, capacity, actions, limit)
  {
    if actions != [] {
      var before, a := actions[..|actions| - 1], actions[|actions| - 1];
      var s := Run(rate, capacity, before);
      TokensInRange(rate, capacity, before);
      ClockRuns(rate, capacity, s, a);
      SpansWithinClock(rate, capacity, before, limit);
    }
  }

  lemma ClockRuns(rate: int, capacity: int, s: System, a: Action)
    ensures s.clock <= Step(rate, capacity, s, a).clock
  {
  }

  /** For every other bucket one turn of the clock is the threshold: with all swaps spanning less
      than `limit` ms the bound holds in every run if and only if `limit` is at most 2^32. */
  lemma SpanThreshold(rate: int, capacity: int, limit: nat)
    requires Config(rate, capacity) && rate >= 1 && capacity >= 1
    ensures (forall actions :: SwapsWithin(rate, capacity, actions, limit) ==>
                                 Bounded(rate, capacity, Run(rate, capacity, actions).history)) <==>
            limit <= TWO32
  {
    hide Bounded, Run, StaleSwap, SwapsWithin;
    if limit <= TWO32 {
      forall actions | SwapsWithin(rate, capacity, actions, limit)
        ensures Bounded(rate, capacity, Run(rate, capacity, actions).history)
      {
        ShortSpansSuffice(rate, capacity, actions, limit);
        WindowBound(rate, capacity, actions);
      }
    } else {
      DrainedAgain(rate, capacity, capacity);
      SpansWithinClock(rate, capacity, StaleSwap(capacity), limit);
      StaleSwapBreaksBound(rate, capacity);
    }
  }
}
