/** The packed token bucket: one 64-bit word holds the tokens (times 1000) and a wrapping
    millisecond stamp, and callers update it by compare-and-swap. */
module PackedWord {
  const TWO32: int := 0x1_0000_0000
  const TWO31: int := 0x8000_0000
  const TWO63: int := 0x8000_0000_0000_0000
  const TWO64: int := 0x1_0000_0000_0000_0000

  type Word = w: int | 0 <= w < TWO64
  type UInt32 = w: int | 0 <= w < TWO32

  function ToUInt32(x: int): UInt32 { x % TWO32 }

  function ToInt32(x: UInt32): (r: int)
    ensures -TWO31 <= r < TWO31
  {
    if x < TWO31 then x else x - TWO32
  }

  /** Two's complement result of a 64-bit signed operation. */
  function ToInt64(x: int): (r: int)
    ensures -TWO63 <= r < TWO63
  {
    (x + TWO63) % TWO64 - TWO63
  }

  function Pack(tokens: int, elapsed: UInt32): Word {
    ToUInt32(tokens) * TWO32 + elapsed
  }

  function Unpack(w: Word): (int, UInt32) {
    (ToInt32(w / TWO32), w % TWO32)
  }

  /** Unpacking inverts packing exactly when the tokens fit in 32 signed bits. */
  lemma UnpackPack(tokens: int, elapsed: UInt32)
    ensures Unpack(Pack(tokens, elapsed)) == (tokens, elapsed) <==> -TWO31 <= tokens < TWO31
  {
    assert Pack(tokens, elapsed) / TWO32 == ToUInt32(tokens);
    assert Pack(tokens, elapsed) % TWO32 == elapsed;
  }

  /** Every word is the packing of what it unpacks to. */
  lemma PackUnpack(w: Word)
    ensures Pack(Unpack(w).0, Unpack(w).1) == w
  {
    assert ToUInt32(ToInt32(w / TWO32)) == w / TWO32;
  }
}

module TokenBucket {
  import opened Options
  import opened PackedWord

  /** Limits under which neither the 32-bit field nor the 64-bit arithmetic overflows. */
  ghost predicate Config(rate: int, capacity: int) {
    0 <= rate < TWO31 && 0 <= capacity && capacity * 1000 < TWO31
  }

  /** One attempt of Allow: from the loaded word and the clock, the word to swap in, if any. */
  function Attempt(rate: int, capacity: int, old_: Word, clock: UInt32): Option<Word> {
    var (oldTokens, oldElapsed) := Unpack(old_);
    var delta := ToUInt32(clock - oldElapsed);
    var refilled := ToInt64(oldTokens + ToInt64(delta * rate));
    var newTokens := if refilled > capacity * 1000 then capacity * 1000 else refilled;
    if newTokens < 1000 then None else Some(Pack(newTokens - 1000, clock))
  }

  function Min(a: int, b: int): int { if a < b then a else b }

  /** Under the limits the attempt is exact arithmetic on the unpacked fields. */
  lemma AttemptExact(rate: int, capacity: int, tokens: int, elapsed: UInt32, clock: UInt32)
    requires Config(rate, capacity) && 0 <= tokens <= capacity * 1000
    ensures var level := Min(capacity * 1000, tokens + ToUInt32(clock - elapsed) * rate);
            Attempt(rate, capacity, Pack(tokens, elapsed), clock) ==
            if level < 1000 then None else Some(Pack(level - 1000, clock))
  {
    hide Pack, Unpack, ToInt64;
    UnpackPack(tokens, elapsed);
    NoOverflow(rate, capacity, tokens, ToUInt32(clock - elapsed));
  }

  /** The 64-bit refill arithmetic does not wrap. */
  lemma NoOverflow(rate: int, capacity: int, tokens: int, delta: UInt32)
    requires Config(rate, capacity) && 0 <= tokens <= capacity * 1000
    ensures ToInt64(tokens + ToInt64(delta * rate)) == tokens + delta * rate
  {
    assert 0 <= delta * rate <= (TWO32 - 1) * (TWO31 - 1) by {
      MulMono(delta, TWO32 - 1, rate, TWO31 - 1);
    }
    assert ToInt64(delta * rate) == delta * rate;
  }

  lemma MulMono(a: int, a': int, b: int, b': int)
    requires 0 <= a <= a' && 0 <= b <= b'
    ensures 0 <= a * b <= a' * b'
  {
  }

  /** One millisecond of the reference bucket. */
  function Tick(rate: int, capacity: int, level: int): int {
    Min(capacity * 1000, level + rate)
  }

  function Ticks(rate: int, capacity: int, level: int, ms: nat): int {
    if ms == 0 then level else Tick(rate, capacity, Ticks(rate, capacity, level, ms - 1))
  }

  /** Adding `rate` units every millisecond and saturating each time is one saturating addition. */
  lemma {:induction false} TicksClosedForm(rate: int, capacity: int, level: int, ms: nat)
    requires 0 <= rate && level <= capacity * 1000
    ensures Ticks(rate, capacity, level, ms) == Min(capacity * 1000, level + ms * rate)
  {
    if ms > 0 {
      TicksClosedForm(rate, capacity, level, ms - 1);
      assert (ms - 1) * rate + rate == ms * rate;
    }
  }

  lemma {:induction false} TicksAdd(rate: int, capacity: int, level: int, a: nat, b: nat)
    ensures Ticks(rate, capacity, Ticks(rate, capacity, level, a), b) == Ticks(rate, capacity, level, a + b)
  {
    if b > 0 {
      TicksAdd(rate, capacity, level, a, b - 1);
    }
  }

  /** The elapsed time an attempt sees, for unreduced clock and stamp. */
  lemma WrappedDelta(clock: nat, stamp: nat)
    requires stamp <= clock
    ensures ToUInt32(clock % TWO32 - stamp % TWO32) == (clock - stamp) % TWO32 <= clock - stamp
    ensures clock - stamp < TWO32 ==> ToUInt32(clock % TWO32 - stamp % TWO32) == clock - stamp
  {
    var a, b := clock / TWO32, stamp / TWO32;
    assert clock % TWO32 - stamp % TWO32 == (clock - stamp) - (a - b) * TWO32;
    ModShift(clock - stamp, b - a);
  }

  lemma {:induction false} ModShift(x: int, k: int)
    ensures (x + k * TWO32) % TWO32 == x % TWO32
  {
  }

  /** Whether a call at time t sees all the time since the stamp, as far as it matters: the 32-bit
      stamp loses whole turns of 2^32 ms. */
  predicate SeesAll(rate: int, capacity: int, tokens: int, stamp: nat, t: nat)
    requires stamp <= t
  {
    t - stamp < TWO32 || rate == 0 || capacity == 0 ||
    tokens + ((t - stamp) % TWO32) * rate >= capacity * 1000
  }

  /** A bucket used by one caller at a time; `level` and `stamp` are its last stored state, unreduced. */
  class TokenBucket {
    var state: Word
    const rate: int
    const capacity: int
    ghost var level: int
    ghost var stamp: nat

    ghost predicate Valid()
      reads this
    {
      && Config(rate, capacity)
      && 0 <= level <= capacity * 1000
      && state == Pack(level, stamp % TWO32)
    }

    constructor (rate: int, capacity: int)
      requires Config(rate, capacity)
      ensures Valid() && this.rate == rate && this.capacity == capacity
      ensures level == capacity * 1000 && stamp == 0
    {
      this.rate, this.capacity := rate, capacity;
      state := Pack(capacity * 1000, 0);
      level, stamp := capacity * 1000, 0;
    }

    /** Lazy refill agrees with the reference bucket, in the answer and in the level left, if and
        only if the call sees all of its time. It stores what one attempt makes of the word; a
        rejection stores nothing. */
    method Allow(sinceCreated: nat) returns (ok: bool)
      requires Valid() && stamp <= sinceCreated
      modifies this
      ensures Valid()
      ensures SeesAll(rate, capacity, old(level), old(stamp), sinceCreated) <==>
              var have := Ticks(rate, capacity, old(level), sinceCreated - old(stamp));
              (ok <==> have >= 1000) && (ok ==> level == have - 1000)
      ensures match Attempt(rate, capacity, old(state), ToUInt32(sinceCreated))
              case None => !ok
              case Some(w) => ok && state == w
      ensures ok ==> stamp == sinceCreated
      ensures !ok ==> state == old(state) && level == old(level) && stamp == old(stamp)
    {
      hide Pack, Unpack, ToInt64, Ticks, Attempt;
      AttemptExact(rate, capacity, level, stamp % TWO32, sinceCreated % TWO32);
      var maxTokens := capacity * 1000;
      var old_ := state;
      var (oldTokens, oldElapsedMS) := Unpack(old_);
      var nowElapsedMS: UInt32 := sinceCreated % TWO32;
      var deltaMS := ToUInt32(nowElapsedMS - oldElapsedMS);
      var newTokens := ToInt64(oldTokens + ToInt64(deltaMS * rate));
      UnpackPack(level, stamp % TWO32);
      NoOverflow(rate, capacity, level, deltaMS);
      WrappedDelta(sinceCreated, stamp);
      TicksClosedForm(rate, capacity, level, sinceCreated - stamp);
      SeenLevel(rate, capacity, level, sinceCreated - stamp);
      if newTokens > maxTokens {
        newTokens := maxTokens;
      }
      if newTokens < 1000 {
        return false;
      }
      newTokens := newTokens - 1000;
      state := Pack(newTokens, nowElapsedMS);
      level, stamp := newTokens, sinceCreated;
      return true;
    }
  }

  /** What the reference bucket makes of a call: nothing, or the word for the level left at time t. */
  function Outcome(have: int, t: nat): Option<Word> {
    if have < 1000 then None else Some(Pack(have - 1000, t % TWO32))
  }

  /** What the packed bucket stores, if anything, at calls at the given times. */
  function LazyTrace(rate: int, capacity: int, w: Word, times: seq<nat>): seq<Option<Word>>
    decreases |times|
  {
    if times == [] then []
    else
      var o := Attempt(rate, capacity, w, ToUInt32(times[0]));
      [o] + LazyTrace(rate, capacity, if o.Some? then o.value else w, times[1..])
  }

  /** The same for the reference bucket, which stood at `level` at time `at`. */
  function ReferenceTrace(rate: int, capacity: int, level: int, at: nat, times: seq<nat>): seq<Option<Word>>
    requires forall i :: 0 <= i < |times| ==> at <= times[i]
    requires forall i, j :: 0 <= i < j < |times| ==> times[i] <= times[j]
    decreases |times|
  {
    if times == [] then []
    else
      var have := Ticks(rate, capacity, level, times[0] - at);
      [Outcome(have, times[0])] +
      ReferenceTrace(rate, capacity, if have < 1000 then have else have - 1000, times[0], times[1..])
  }

  /** The answers given along a trace. */
  function Answers(trace: seq<Option<Word>>): seq<bool> {
    seq(|trace|, i requires 0 <= i < |trace| => trace[i].Some?)
  }

  /** Every call sees all of its time. */
  predicate AllSeen(rate: int, capacity: int, tokens: int, stamp: nat, times: seq<nat>)
    requires forall i :: 0 <= i < |times| ==> stamp <= times[i]
    requires forall i, j :: 0 <= i < j < |times| ==> times[i] <= times[j]
    decreases |times|
  {
    times == [] ||
    (var have := Ticks(rate, capacity, tokens, times[0] - stamp);
     && SeesAll(rate, capacity, tokens, stamp, times[0])
     && if have < 1000 then AllSeen(rate, capacity, tokens, stamp, times[1..])
        else AllSeen(rate, capacity, have - 1000, times[0], times[1..]))
  }

  /** One call makes of the stored word what the reference bucket makes of it, if and only if the
      call sees all of its time. */
  lemma AttemptIsReference(rate: int, capacity: int, tokens: int, stamp: nat, t: nat)
    requires Config(rate, capacity) && 0 <= tokens <= capacity * 1000 && stamp <= t
    ensures var have := Ticks(rate, capacity, tokens, t - stamp);
            && 0 <= have <= capacity * 1000
            && (Attempt(rate, capacity, Pack(tokens, stamp % TWO32), ToUInt32(t)) == Outcome(have, t) <==>
                SeesAll(rate, capacity, tokens, stamp, t))
  {
    hide Pack, Unpack, Attempt, Ticks;
    var seen := (t - stamp) % TWO32;
    var level, have := Min(capacity * 1000, tokens + seen * rate), Ticks(rate, capacity, tokens, t - stamp);
    WrappedDelta(t, stamp);
    AttemptExact(rate, capacity, tokens, stamp % TWO32, t % TWO32);
    TicksClosedForm(rate, capacity, tokens, t - stamp);
    SeenLevel(rate, capacity, tokens, t - stamp);
    UnpackPack(level - 1000, t % TWO32);
    UnpackPack(have - 1000, t % TWO32);
  }

  /** Time lost to the wrapped stamp is time without effect, or it makes the difference between
      the two levels, and then the true one is worth a token. */
  lemma SeenLevel(rate: int, capacity: int, tokens: int, elapsed: nat)
    requires Config(rate, capacity) && 0 <= tokens <= capacity * 1000
    ensures var seen := Min(capacity * 1000, tokens + (elapsed % TWO32) * rate);
            var all := Min(capacity * 1000, tokens + elapsed * rate);
            && 0 <= seen <= all <= capacity * 1000
            && (seen == all <==> elapsed < TWO32 || rate == 0 || capacity == 0 ||
                                 tokens + (elapsed % TWO32) * rate >= capacity * 1000)
            && (seen == all || all >= 1000)
  {
    var seen := elapsed % TWO32;
    MulMono(0, seen, 0, rate);
    MulMono(seen, elapsed, rate, rate);
    if elapsed >= TWO32 && rate >= 1 {
      MulMono(TWO32, elapsed, 1, rate);
      MulMono(seen + 1, elapsed, rate, rate);
    }
  }

  /** Over any sequence of calls the packed bucket makes of every call what the reference bucket
      makes of it, if and only if every call sees all of its time. */
  lemma {:induction false} LazyRefinesReference(rate: int, capacity: int, tokens: int, stamp: nat, at: nat,
                                                times: seq<nat>)
    requires Config(rate, capacity) && 0 <= tokens <= capacity * 1000 && stamp <= at
    requires forall i :: 0 <= i < |times| ==> at <= times[i]
    requires forall i, j :: 0 <= i < j < |times| ==> times[i] <= times[j]
    ensures LazyTrace(rate, capacity, Pack(tokens, stamp % TWO32), times) ==
            ReferenceTrace(rate, capacity, Ticks(rate, capacity, tokens, at - stamp), at, times) <==>
            AllSeen(rate, capacity, tokens, stamp, times)
    decreases |times|
  {
    hide Config, Pack, Attempt, Ticks, ToUInt32, SeesAll;
    if times != [] {
      var t := times[0];
      var w := Pack(tokens, stamp % TWO32);
      AttemptIsReference(rate, capacity, tokens, stamp, t);
      TicksAdd(rate, capacity, tokens, at - stamp, t - at);
      var have := Ticks(rate, capacity, tokens, t - stamp);
      TicksZero(rate, capacity, have - 1000);
      var o := Attempt(rate, capacity, w, ToUInt32(t));
      Heads(o, LazyTrace(rate, capacity, if o.Some? then o.value else w, times[1..]), Outcome(have, t),
            ReferenceTrace(rate, capacity, if have < 1000 then have else have - 1000, t, times[1..]));
      if have < 1000 {
        LazyRefinesReference(rate, capacity, tokens, stamp, t, times[1..]);
      } else {
        LazyRefinesReference(rate, capacity, have - 1000, t, t, times[1..]);
      }
    }
  }

  lemma Heads<T>(x: T, a: seq<T>, y: T, b: seq<T>)
    ensures [x] + a == [y] + b <==> x == y && a == b
  {
    assert ([x] + a)[0] == x && ([y] + b)[0] == y && ([x] + a)[1..] == a && ([y] + b)[1..] == b;
  }

  lemma TicksZero(rate: int, capacity: int, level: int)
    ensures Ticks(rate, capacity, level, 0) == level
  {
  }

  /** Every call comes less than 2^32 ms after the last grant before it. */
  predicate GrantsRecent(rate: int, capacity: int, tokens: int, stamp: nat, times: seq<nat>)
    requires forall i :: 0 <= i < |times| ==> stamp <= times[i]
    requires forall i, j :: 0 <= i < j < |times| ==> times[i] <= times[j]
    decreases |times|
  {
    times == [] ||
    (var have := Ticks(rate, capacity, tokens, times[0] - stamp);
     && times[0] - stamp < TWO32
     && if have < 1000 then GrantsRecent(rate, capacity, tokens, stamp, times[1..])
        else GrantsRecent(rate, capacity, have - 1000, times[0], times[1..]))
  }

  /** So the answers agree as long as every call comes less than 2^32 ms after the last grant. */
  lemma RecentGrantsAgree(rate: int, capacity: int, tokens: int, stamp: nat, times: seq<nat>)
    requires Config(rate, capacity) && 0 <= tokens <= capacity * 1000
    requires forall i :: 0 <= i < |times| ==> stamp <= times[i]
    requires forall i, j :: 0 <= i < j < |times| ==> times[i] <= times[j]
    requires GrantsRecent(rate, capacity, tokens, stamp, times)
    ensures Answers(LazyTrace(rate, capacity, Pack(tokens, stamp % TWO32), times)) ==
            Answers(ReferenceTrace(rate, capacity, tokens, stamp, times))
  {
    TicksZero(rate, capacity, tokens);
    LazyRefinesReference(rate, capacity, tokens, stamp, stamp, times);
    RecentGrantsSeen(rate, capacity, tokens, stamp, times);
  }

  lemma {:induction false} RecentGrantsSeen(rate: int, capacity: int, tokens: int, stamp: nat, times: seq<nat>)
    requires forall i :: 0 <= i < |times| ==> stamp <= times[i]
    requires forall i, j :: 0 <= i < j < |times| ==> times[i] <= times[j]
    requires GrantsRecent(rate, capacity, tokens, stamp, times)
    ensures AllSeen(rate, capacity, tokens, stamp, times)
    decreases |times|
  {
    if times != [] {
      var have := Ticks(rate, capacity, tokens, times[0] - stamp);
      if have < 1000 {
        RecentGrantsSeen(rate, capacity, tokens, stamp, times[1..]);
      } else {
        RecentGrantsSeen(rate, capacity, have - 1000, times[0], times[1..]);
      }
    }
  }

  /** A bucket left alone for exactly 2^32 ms sees no time at all: it rejects, the reference grants. */
  lemma WrapRejects()
    ensures Answers(LazyTrace(20, 50, Pack(0, 0), [TWO32])) == [false]
    ensures Answers(ReferenceTrace(20, 50, 0, 0, [TWO32])) == [true]
  {
    hide Pack, Attempt, Ticks;
    AttemptExact(20, 50, 0, 0, 0);
    TicksClosedForm(20, 50, 0, TWO32);
  }
}
