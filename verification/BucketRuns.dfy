/** Any number of callers of Allow, interleaved at the load, the clock read and the
    compare-and-swap. */
module BucketRuns {
  import opened Options
  import opened PackedWord
  import opened TokenBucket

  /** A stored state with its stamp not reduced modulo 2^32. */
  datatype Stored = Stored(tokens: int, stamp: nat)

  /** Where a caller stands: `version` is the position of the loaded state in the history. */
  datatype Caller = Idle | Loaded(word: Word, version: nat) | Clocked(word: Word, version: nat, at: nat)

  /** `history` lists the stored states: the first one is the full bucket, every later one a grant. */
  datatype System = System(word: Word, clock: nat, callers: map<nat, Caller>, history: seq<Stored>)

  datatype Action = Pass(ms: nat) | Load(caller: nat) | ReadClock(caller: nat) | Finish(caller: nat)

  function Initial(capacity: int): System {
    System(Pack(capacity * 1000, 0), 0, map[], [Stored(capacity * 1000, 0)])
  }

  function CallerAt(s: System, c: nat): Caller {
    if c in s.callers then s.callers[c] else Idle
  }

  function Step(rate: int, capacity: int, s: System, a: Action): System {
    match a
    case Pass(ms) => s.(clock := s.clock + ms)
    case Load(c) =>
      if CallerAt(s, c).Idle? && s.history != []
      then s.(callers := s.callers[c := Loaded(s.word, |s.history| - 1)]) else s
    case ReadClock(c) =>
      (match CallerAt(s, c)
       case Loaded(w, v) => s.(callers := s.callers[c := Clocked(w, v, s.clock)])
       case _ => s)
    case Finish(c) =>
      // rejection and a failed swap both leave the word alone; after a failed swap the caller loads again
      (match CallerAt(s, c)
       case Clocked(w, v, at) =>
         (match Attempt(rate, capacity, w, ToUInt32(at))
          case Some(w') =>
            if s.word == w
            then System(w', s.clock, s.callers[c := Idle], s.history + [Stored(Unpack(w').0, at)])
            else s.(callers := s.callers[c := Idle])
          case None => s.(callers := s.callers[c := Idle]))
       case _ => s)
  }

  function Run(rate: int, capacity: int, actions: seq<Action>): System {
    if actions == [] then Initial(capacity)
    else Step(rate, capacity, Run(rate, capacity, actions[..|actions| - 1]), actions[|actions| - 1])
  }

  function Last(s: seq<Stored>): Stored
    requires s != []
  {
    s[|s| - 1]
  }

  // ---------------------------------------------------------------- in every run

  /** The stored word is the last stored state, tokens are in range, callers hold old words. */
  ghost predicate Sound(capacity: int, s: System) {
    && s.history != []
    && (forall i :: 0 <= i < |s.history| ==>
                      0 <= s.history[i].tokens <= capacity * 1000 && s.history[i].stamp <= s.clock)
    && (forall i :: 0 < i < |s.history| ==> s.history[i].tokens <= capacity * 1000 - 1000)
    && s.word == WordOf(Last(s.history))
    && (forall c :: c in s.callers ==>
                      match s.callers[c]
                      case Idle => true
                      case Loaded(w, v) => v < |s.history| && w == WordOf(s.history[v])
                      case Clocked(w, v, at) => v < |s.history| && w == WordOf(s.history[v]) && at <= s.clock)
  }

  function WordOf(x: Stored): Word { Pack(x.tokens, x.stamp % TWO32) }

  /** What a successful attempt stores. */
  lemma GrantStores(rate: int, capacity: int, x: Stored, at: nat)
    requires Config(rate, capacity) && 0 <= x.tokens <= capacity * 1000
    requires Attempt(rate, capacity, WordOf(x), ToUInt32(at)).Some?
    ensures var w' := Attempt(rate, capacity, WordOf(x), ToUInt32(at)).value;
            var y := Stored(Unpack(w').0, at);
            && w' == WordOf(y) && 0 <= y.tokens <= capacity * 1000 - 1000
            && (x.stamp <= at ==> y.tokens + 1000 <= x.tokens + (at - x.stamp) * rate)
  {
    hide Pack, Unpack, Attempt;
    AttemptExact(rate, capacity, x.tokens, x.stamp % TWO32, at % TWO32);
    var level := Min(capacity * 1000, x.tokens + ToUInt32(at % TWO32 - x.stamp % TWO32) * rate);
    UnpackPack(level - 1000, at % TWO32);
    if x.stamp <= at {
      WrappedDelta(at, x.stamp);
      MulMono(ToUInt32(at % TWO32 - x.stamp % TWO32), at - x.stamp, rate, rate);
    }
  }

  lemma StepSound(rate: int, capacity: int, s: System, a: Action)
    requires Config(rate, capacity) && Sound(capacity, s)
    ensures Sound(capacity, Step(rate, capacity, s, a))
  {
    hide Pack, Unpack, Attempt, Config;
    if a.Finish? && CallerAt(s, a.caller).Clocked? {
      var Clocked(w, v, at) := CallerAt(s, a.caller);
      if Attempt(rate, capacity, w, ToUInt32(at)).Some? {
        GrantStores(rate, capacity, s.history[v], at);
      }
    }
  }

  /** Whatever the interleaving and however often the clock wraps, stored tokens stay in range. */
  lemma {:induction false} TokensInRange(rate: int, capacity: int, actions: seq<Action>)
    requires Config(rate, capacity)
    ensures Sound(capacity, Run(rate, capacity, actions))
    ensures 0 <= Unpack(Run(rate, capacity, actions).word).0 <= capacity * 1000
  {
    var s := Run(rate, capacity, actions);
    if actions == [] {
    } else {
      TokensInRange(rate, capacity, actions[..|actions| - 1]);
      StepSound(rate, capacity, Run(rate, capacity, actions[..|actions| - 1]), actions[|actions| - 1]);
    }
    UnpackPack(Last(s.history).tokens, Last(s.history).stamp % TWO32);
  }

  // ------------------------------------------------- what pays for a grant

  /** Each grant was paid for by the tokens and the time since the state it replaced. */
  ghost predicate Paid(rate: int, h: seq<Stored>) {
    forall i :: 0 <= i < |h| - 1 ==>
                  && h[i].stamp <= h[i + 1].stamp
                  && h[i + 1].tokens + 1000 <= h[i].tokens + (h[i + 1].stamp - h[i].stamp) * rate
  }

  /** Callers read the clock after the state they loaded was stamped. */
  ghost predicate ClockAfterLoad(s: System) {
    forall c :: c in s.callers && s.callers[c].Clocked? ==>
                  s.callers[c].version < |s.history| && s.history[s.callers[c].version].stamp <= s.callers[c].at
  }

  /** The step is a swap that goes through. */
  predicate Swaps(rate: int, capacity: int, s: System, a: Action) {
    && a.Finish? && CallerAt(s, a.caller).Clocked? && s.word == CallerAt(s, a.caller).word
    && Attempt(rate, capacity, s.word, ToUInt32(CallerAt(s, a.caller).at)).Some?
  }

  /** A swap that goes through with a clock reading older than the stamp it replaces. */
  ghost predicate TurnsBack(rate: int, capacity: int, s: System, a: Action)
    requires s.history != []
  {
    Swaps(rate, capacity, s, a) && CallerAt(s, a.caller).at < Last(s.history).stamp
  }

  /** A swap that goes through although the state it replaces is stamped `limit` ms or more after the
      state its caller loaded. */
  ghost predicate Spans(rate: int, capacity: int, s: System, a: Action, limit: nat)
    requires Sound(capacity, s)
  {
    Swaps(rate, capacity, s, a) &&
    Last(s.history).stamp - s.history[CallerAt(s, a.caller).version].stamp >= limit
  }

  lemma {:induction false} PaidStamps(rate: int, h: seq<Stored>, i: nat, j: nat)
    requires Paid(rate, h) && i <= j < |h|
    ensures h[i].stamp <= h[j].stamp
    ensures h[i].stamp == h[j].stamp ==> h[j].tokens + 1000 * (j - i) <= h[i].tokens
    decreases j - i
  {
    if i < j {
      PaidStamps(rate, h, i, j - 1);
      assert h[j - 1].stamp <= h[j - 1 + 1].stamp;
    }
  }

  /** A swap that finds the loaded word replaces the very state it loaded exactly when less than
      2^32 ms lie between the two stamps; otherwise the word has come round again. */
  lemma SameWordSameState(rate: int, capacity: int, h: seq<Stored>, i: nat, j: nat)
    requires Config(rate, capacity) && Paid(rate, h) && i <= j < |h|
    requires 0 <= h[i].tokens <= capacity * 1000 && 0 <= h[j].tokens <= capacity * 1000
    requires WordOf(h[i]) == WordOf(h[j])
    ensures i == j <==> h[j].stamp - h[i].stamp < TWO32
  {
    hide Pack, Unpack;
    PaidStamps(rate, h, i, j);
    UnpackPack(h[i].tokens, h[i].stamp % TWO32);
    UnpackPack(h[j].tokens, h[j].stamp % TWO32);
    if h[j].stamp - h[i].stamp < TWO32 {
      WrappedDelta(h[j].stamp, h[i].stamp);
    }
  }

  lemma PaidAppend(rate: int, h: seq<Stored>, y: Stored)
    requires h != [] && Paid(rate, h)
    requires Last(h).stamp <= y.stamp && y.tokens + 1000 <= Last(h).tokens + (y.stamp - Last(h).stamp) * rate
    ensures Paid(rate, h + [y])
  {
    var h' := h + [y];
    forall i | 0 <= i < |h'| - 1
      ensures h'[i].stamp <= h'[i + 1].stamp
      ensures h'[i + 1].tokens + 1000 <= h'[i].tokens + (h'[i + 1].stamp - h'[i].stamp) * rate
    {
      if i < |h| - 1 {
        assert h'[i] == h[i] && h'[i + 1] == h[i + 1];
      }
    }
  }

  lemma PaidPrefix(rate: int, h: seq<Stored>, y: Stored)
    requires h != [] && Paid(rate, h + [y])
    ensures Paid(rate, h) && Last(h).stamp <= y.stamp
  {
    var h' := h + [y];
    assert forall i :: 0 <= i < |h| ==> h'[i] == h[i];
    assert h'[|h| - 1].stamp <= h'[|h| - 1 + 1].stamp;
    forall i | 0 <= i < |h| - 1
      ensures h[i].stamp <= h[i + 1].stamp
      ensures h[i + 1].tokens + 1000 <= h[i].tokens + (h[i + 1].stamp - h[i].stamp) * rate
    {
      assert h'[i] == h[i] && h'[i + 1] == h[i + 1];
    }
  }

  /** A step leaves every grant paid for exactly when it does not turn the stamp back. */
  lemma StepPaid(rate: int, capacity: int, s: System, a: Action)
    requires Config(rate, capacity) && Sound(capacity, s)
    ensures Paid(rate, Step(rate, capacity, s, a).history) <==>
            Paid(rate, s.history) && !TurnsBack(rate, capacity, s, a)
  {
    hide WordOf, Unpack, Attempt, Config, Paid;
    if Swaps(rate, capacity, s, a) {
      var at := CallerAt(s, a.caller).at;
      var y := Stored(Unpack(Attempt(rate, capacity, s.word, ToUInt32(at)).value).0, at);
      GrantStores(rate, capacity, Last(s.history), at);
      if Paid(rate, s.history) && Last(s.history).stamp <= at {
        PaidAppend(rate, s.history, y);
      }
      if Paid(rate, s.history + [y]) {
        PaidPrefix(rate, s.history, y);
      }
    }
  }

  lemma StepClock(rate: int, capacity: int, s: System, a: Action)
    requires Sound(capacity, s) && ClockAfterLoad(s)
    ensures ClockAfterLoad(Step(rate, capacity, s, a))
  {
    hide WordOf, Unpack, Attempt;
  }

  /** The stamp is turned back only by a swap over a state stamped a whole turn of the clock after
      the one its caller loaded. */
  lemma TurningBackIsStale(rate: int, capacity: int, s: System, a: Action)
    requires Config(rate, capacity) && Sound(capacity, s) && ClockAfterLoad(s) && Paid(rate, s.history)
    requires TurnsBack(rate, capacity, s, a)
    ensures Spans(rate, capacity, s, a, TWO32)
  {
    hide WordOf, Attempt, Paid;
    SameWordSameState(rate, capacity, s.history, CallerAt(s, a.caller).version, |s.history| - 1);
  }

  /** No step of the run turns the stamp back. */
  ghost predicate NeverTurnsBack(rate: int, capacity: int, actions: seq<Action>)
    requires Config(rate, capacity)
  {
    actions == [] ||
    (var before := actions[..|actions| - 1];
     TokensInRange(rate, capacity, before);
     NeverTurnsBack(rate, capacity, before) &&
     !TurnsBack(rate, capacity, Run(rate, capacity, before), actions[|actions| - 1]))
  }

  /** Every swap of the run replaces a state stamped less than `limit` ms after the one loaded. */
  ghost predicate SwapsWithin(rate: int, capacity: int, actions: seq<Action>, limit: nat)
    requires Config(rate, capacity)
  {
    actions == [] ||
    (var before := actions[..|actions| - 1];
     TokensInRange(rate, capacity, before);
     SwapsWithin(rate, capacity, before, limit) &&
     !Spans(rate, capacity, Run(rate, capacity, before), actions[|actions| - 1], limit))
  }

  /** In a run every grant is paid for exactly when no swap turns the stamp back. */
  lemma {:induction false} RunPaid(rate: int, capacity: int, actions: seq<Action>)
    requires Config(rate, capacity)
    ensures var s := Run(rate, capacity, actions);
            Sound(capacity, s) && ClockAfterLoad(s) &&
            (Paid(rate, s.history) <==> NeverTurnsBack(rate, capacity, actions))
  {
    TokensInRange(rate, capacity, actions);
    if actions != [] {
      var before := actions[..|actions| - 1];
      RunPaid(rate, capacity, before);
      StepPaid(rate, capacity, Run(rate, capacity, before), actions[|actions| - 1]);
      StepClock(rate, capacity, Run(rate, capacity, before), actions[|actions| - 1]);
    }
  }

  /** Swaps within one turn of the clock never turn the stamp back. */
  lemma {:induction false} ShortSpansSuffice(rate: int, capacity: int, actions: seq<Action>, limit: nat)
    requires Config(rate, capacity) && limit <= TWO32 && SwapsWithin(rate, capacity, actions, limit)
    ensures NeverTurnsBack(rate, capacity, actions)
  {
    if actions != [] {
      var before, a := actions[..|actions| - 1], actions[|actions| - 1];
      ShortSpansSuffice(rate, capacity, before, limit);
      RunPaid(rate, capacity, before);
      if TurnsBack(rate, capacity, Run(rate, capacity, before), a) {
        TurningBackIsStale(rate, capacity, Run(rate, capacity, before), a);
      }
    }
  }

  /** Grants whose stamps lie in from..until. */
  function Grants(h: seq<Stored>, from: nat, until: nat): nat {
    if |h| <= 1 then 0
    else Grants(h[..|h| - 1], from, until) + if from <= Last(h).stamp <= until then 1 else 0
  }

  /** What GrantsPaid keeps: before the window nothing is counted, inside it every counted grant
      has been paid for, and at the end the bound stands. */
  ghost predicate Accounted(rate: int, capacity: int, last: Stored, grants: nat, from: nat, until: nat) {
    && (last.stamp < from ==> grants == 0)
    && (from <= last.stamp <= until ==>
          grants == 0 || 1000 * grants + last.tokens <= capacity * 1000 + (last.stamp - from) * rate)
    && 1000 * grants <= capacity * 1000 + (until - from) * rate
  }

  /** One more grant keeps the account. */
  lemma AccountStep(rate: int, capacity: int, x: Stored, y: Stored, grants: nat, from: nat, until: nat)
    requires 0 <= rate && from <= until
    requires 0 <= x.tokens <= capacity * 1000 && 0 <= y.tokens <= capacity * 1000 - 1000
    requires x.stamp <= y.stamp && y.tokens + 1000 <= x.tokens + (y.stamp - x.stamp) * rate
    requires Accounted(rate, capacity, x, grants, from, until)
    ensures Accounted(rate, capacity, y, grants + if from <= y.stamp <= until then 1 else 0, from, until)
  {
    if from <= y.stamp <= until {
      MulMono(0, y.stamp - from, 0, rate);
      MulMono(y.stamp - from, until - from, rate, rate);
      if from <= x.stamp && grants > 0 {
        assert (y.stamp - from) * rate == (y.stamp - x.stamp) * rate + (x.stamp - from) * rate;
      }
    }
  }

  lemma {:induction false} GrantsPaid(rate: int, capacity: int, h: seq<Stored>, from: nat, until: nat)
    requires 0 <= rate && h != [] && from <= until && Paid(rate, h)
    requires forall i :: 0 <= i < |h| ==> 0 <= h[i].tokens <= capacity * 1000
    requires forall i :: 0 < i < |h| ==> h[i].tokens <= capacity * 1000 - 1000
    ensures Accounted(rate, capacity, Last(h), Grants(h, from, until), from, until)
    decreases |h|
  {
    if |h| == 1 {
      MulMono(0, until - from, 0, rate);
    } else {
      var g := h[..|h| - 1];
      assert forall i :: 0 <= i < |g| ==> g[i] == h[i];
      hide Accounted;
      GrantsPaid(rate, capacity, g, from, until);
      assert h[|h| - 2] == Last(g) && h[|h| - 2 + 1] == Last(h);
      AccountStep(rate, capacity, Last(g), Last(h), Grants(g, from, until), from, until);
    }
  }

  ghost predicate WithinRate(rate: int, capacity: int, h: seq<Stored>, from: nat, T: nat) {
    1000 * Grants(h, from, from + T) <= 1000 * capacity + rate * T
  }

  /** The rate bound: any window of T ms holds at most capacity + rate * T / 1000 grants. */
  ghost predicate Bounded(rate: int, capacity: int, h: seq<Stored>) {
    forall from: nat, T: nat :: WithinRate(rate, capacity, h, from, T)
  }

  /** It holds in every run that never turns the stamp back. */
  lemma WindowBound(rate: int, capacity: int, actions: seq<Action>)
    requires Config(rate, capacity) && NeverTurnsBack(rate, capacity, actions)
    ensures Bounded(rate, capacity, Run(rate, capacity, actions).history)
  {
    hide Run, NeverTurnsBack, Paid, WordOf, Grants, ClockAfterLoad;
    RunPaid(rate, capacity, actions);
    var h := Run(rate, capacity, actions).history;
    forall from: nat, T: nat
      ensures WithinRate(rate, capacity, h, from, T)
    {
      GrantsPaid(rate, capacity, h, from, from + T);
      assert (from + T - from) * rate == rate * T;
    }
  }

  /** A caller's three steps in a row. */
  function Call(c: nat): seq<Action> { [Load(c), ReadClock(c), Finish(c)] }

  lemma RunSnoc(rate: int, capacity: int, actions: seq<Action>, a: Action)
    ensures Run(rate, capacity, actions + [a]) == Step(rate, capacity, Run(rate, capacity, actions), a)
  {
    assert (actions + [a])[..|actions|] == actions;
  }

  /** A call that is not interrupted is granted when the refilled level reaches 1000. */
  lemma CallGrants(rate: int, capacity: int, actions: seq<Action>, c: nat, x: Stored)
    requires Config(rate, capacity) && 0 <= x.tokens <= capacity * 1000
    requires var s := Run(rate, capacity, actions);
             s.history != [] && CallerAt(s, c).Idle? && s.word == WordOf(x)
    ensures var s := Run(rate, capacity, actions);
            var level := Min(capacity * 1000, x.tokens + ToUInt32(s.clock % TWO32 - x.stamp % TWO32) * rate);
            level >= 1000 ==>
              var y := Stored(level - 1000, s.clock);
              var s' := Run(rate, capacity, actions + Call(c));
              && s'.word == WordOf(y) && s'.history == s.history + [y] && s'.clock == s.clock
              && (forall d :: d != c ==> CallerAt(s', d) == CallerAt(s, d)) && CallerAt(s', c).Idle?
  {
    hide Pack, Unpack, Attempt, Run;
    var s := Run(rate, capacity, actions);
    RunSnoc(rate, capacity, actions, Load(c));
    RunSnoc(rate, capacity, actions + [Load(c)], ReadClock(c));
    RunSnoc(rate, capacity, actions + [Load(c)] + [ReadClock(c)], Finish(c));
    assert actions + [Load(c)] + [ReadClock(c)] + [Finish(c)] == actions + Call(c);
    AttemptExact(rate, capacity, x.tokens, x.stamp % TWO32, s.clock % TWO32);
    var level := Min(capacity * 1000, x.tokens + ToUInt32(s.clock % TWO32 - x.stamp % TWO32) * rate);
    UnpackPack(level - 1000, s.clock % TWO32);
  }
}
