/** The tasks of a worker as steps of the replay protocol: a flush of its own messages, and a batch
    received from another server. */
module WorkerSteps {
  import opened Options
  import opened HotHistory
  import opened ReplayProtocol
  import W = Worker

  ghost function Perform(ttl: int, max: nat, s: Room, actions: seq<Action>): Room
    decreases |actions|
  {
    if actions == [] then s else Perform(ttl, max, Step(ttl, max, s, actions[0]), actions[1..])
  }

  function Repeat(a: Action, n: nat): seq<Action> {
    if n == 0 then [] else [a] + Repeat(a, n - 1)
  }

  lemma {:induction false} PerformConcat(ttl: int, max: nat, s: Room, a: seq<Action>, b: seq<Action>)
    ensures Perform(ttl, max, s, a + b) == Perform(ttl, max, Perform(ttl, max, s, a), b)
    decreases |a|
  {
    hide Step;
    if a == [] {
      assert a + b == b;
    } else {
      assert (a + b)[1..] == a[1..] + b;
      PerformConcat(ttl, max, Step(ttl, max, s, a[0]), a[1..], b);
    }
  }

  lemma PerformFirst(ttl: int, max: nat, s: Room, a: Action, rest: seq<Action>)
    ensures Perform(ttl, max, s, [a] + rest) == Perform(ttl, max, Step(ttl, max, s, a), rest)
    ensures Perform(ttl, max, s, []) == s
  {
    assert ([a] + rest)[1..] == rest;
  }

  // ---- A flush ----

  /** The numbers base + 1 .. base + n. */
  function Numbers(base: nat, n: nat): seq<nat> { seq(n, i requires 0 <= i < n => base + i + 1) }

  /** One broadcast for each part, all to the same members. */
  function CastAll(s: Room, k: nat, parts: seq<seq<Message>>): seq<Cast> {
    seq(|parts|, i requires 0 <= i < |parts| => Cast(k, parts[i], s.members.Values, s.gone))
  }

  function FlushActions(w: nat, msgs: seq<Message>, parts: nat): seq<Action> {
    [Flush(w, msgs)] + Repeat(Stamp(w), |msgs| + 1) + [Append(w)] + Repeat(Broadcast(w), parts + 1)
  }

  /** The room with a worker's state, the counter and the issued numbers replaced. */
  function Stamped(s: Room, w: nat, x: Worker, counter: nat, issued: seq<nat>): Room {
    SetWorker(s, w, x).(counter := counter, issued := issued)
  }

  lemma StampStep(ttl: int, max: nat, s: Room, w: nat, done: seq<Message>, todo: seq<Message>)
    requires WorkerAt(s, w) == Stamping(done, todo)
    ensures Step(ttl, max, s, Stamp(w)) ==
            if todo == [] then Stamped(s, w, Ready(done, Parts(done)), s.counter, s.issued)
            else
              var n := s.counter + 1;
              Stamped(s, w, Stamping(done + [todo[0].(seqNo := n)], todo[1..]), n, s.issued + [n])
  {
  }

  lemma StampedTwice(s: Room, w: nat, x: Worker, c: nat, ns: seq<nat>)
    ensures forall y, d, ms :: Stamped(Stamped(s, w, x, c, ns), w, y, d, ms) == Stamped(s, w, y, d, ms)
    ensures var t := Stamped(s, w, x, c, ns); t.counter == c && t.issued == ns && WorkerAt(t, w) == x
  {
  }

  lemma NumbersOn(done: seq<Message>, todo: seq<Message>, base: nat, ns: seq<nat>)
    requires todo != []
    ensures done + W.StampFrom(todo, base) == done + [todo[0].(seqNo := base + 1)] + W.StampFrom(todo[1..], base + 1)
    ensures ns + Numbers(base, |todo|) == ns + [base + 1] + Numbers(base + 1, |todo| - 1)
  {
  }

  lemma NumbersNone(done: seq<Message>, base: nat, ns: seq<nat>)
    ensures done + W.StampFrom([], base) == done && ns + Numbers(base, 0) == ns
  {
  }

  lemma {:induction false} StampsAlone(ttl: int, max: nat, s: Room, w: nat, done: seq<Message>, todo: seq<Message>)
    requires WorkerAt(s, w) == Stamping(done, todo)
    ensures var msgs := done + W.StampFrom(todo, s.counter);
            Perform(ttl, max, s, Repeat(Stamp(w), |todo| + 1)) ==
            Stamped(s, w, Ready(msgs, Parts(msgs)), s.counter + |todo|, s.issued + Numbers(s.counter, |todo|))
    decreases |todo|
  {
    hide Parts, Step, Stamped, Perform, W.StampFrom, Numbers, WorkerAt;
    PerformFirst(ttl, max, s, Stamp(w), Repeat(Stamp(w), |todo|));
    StampStep(ttl, max, s, w, done, todo);
    var s' := Step(ttl, max, s, Stamp(w));
    if todo == [] {
      PerformFirst(ttl, max, s', Stamp(w), []);
      NumbersNone(done, s.counter, s.issued);
    } else {
      var n := s.counter + 1;
      var first := todo[0].(seqNo := n);
      StampedTwice(s, w, Stamping(done + [first], todo[1..]), n, s.issued + [n]);
      StampsAlone(ttl, max, s', w, done + [first], todo[1..]);
      NumbersOn(done, todo, s.counter, s.issued);
    }
  }

  lemma {:induction false} CastsAlone(ttl: int, max: nat, s: Room, w: nat, k: nat, parts: seq<seq<Message>>)
    requires WorkerAt(s, w) == Casting(k, parts)
    ensures Perform(ttl, max, s, Repeat(Broadcast(w), |parts| + 1)) ==
            SetWorker(s, w, Free).(casts := s.casts + CastAll(s, k, parts))
    decreases |parts|
  {
    PerformFirst(ttl, max, s, Broadcast(w), Repeat(Broadcast(w), |parts|));
    if parts == [] {
      PerformFirst(ttl, max, Step(ttl, max, s, Broadcast(w)), Broadcast(w), []);
      assert s.casts + CastAll(s, k, parts) == s.casts;
    } else {
      var s' := Step(ttl, max, s, Broadcast(w));
      CastsAlone(ttl, max, s', w, k, parts[1..]);
      assert s.casts + CastAll(s, k, parts) == s'.casts + CastAll(s', k, parts[1..]);
    }
  }

  /** What a flush leaves that no one interrupts: the messages numbered on from the counter, one
      append, and the parts broadcast after it. */
  lemma FlushAlone(ttl: int, max: nat, s: Room, w: nat, msgs: seq<Message>)
    requires WorkerAt(s, w).Free?
    ensures var stamped := W.StampFrom(msgs, s.counter);
            Perform(ttl, max, s, FlushActions(w, msgs, |Parts(stamped)|)) == Flushed(s, w, stamped)
  {
    hide Parts, Perform, Step, Repeat, W.StampFrom, CastAll, Stamped, Flushed, Numbers, WorkerAt, SetWorker;
    var stamped := W.StampFrom(msgs, s.counter);
    var parts := Parts(stamped);
    var x := Stamping([], msgs);
    var s1 := SetWorker(s, w, x);
    var stamps, casts := Repeat(Stamp(w), |msgs| + 1), Repeat(Broadcast(w), |parts| + 1);
    assert FlushActions(w, msgs, |parts|) == [Flush(w, msgs)] + (stamps + ([Append(w)] + casts));
    FlushStep(ttl, max, s, w, msgs);
    PerformFirst(ttl, max, s, Flush(w, msgs), stamps + ([Append(w)] + casts));
    PerformConcat(ttl, max, s1, stamps, [Append(w)] + casts);
    StampsAlone(ttl, max, s1, w, [], msgs);
    assert [] + stamped == stamped;
    assert Perform(ttl, max, s1, stamps) == ReadyRoom(s, w, x, stamped);
    AppendStep(ttl, max, s, w, x, stamped);
    PerformFirst(ttl, max, ReadyRoom(s, w, x, stamped), Append(w), casts);
    CastsAlone(ttl, max, AppendedRoom(s, w, x, stamped), w, |s.log|, parts);
    LastCasts(s, w, x, stamped);
  }

  /** The room after a flush that stamped these messages. */
  function Flushed(s: Room, w: nat, stamped: seq<Message>): Room {
    SetWorker(s, w, Free).(
    counter := s.counter + |stamped|, issued := s.issued + Numbers(s.counter, |stamped|),
    log := s.log + [Batch(s.clock, stamped)],
    casts := s.casts + CastAll(s, |s.log|, Parts(stamped)))
  }

  lemma FlushStep(ttl: int, max: nat, s: Room, w: nat, msgs: seq<Message>)
    requires WorkerAt(s, w).Free?
    ensures var t := SetWorker(s, w, Stamping([], msgs));
            && Step(ttl, max, s, Flush(w, msgs)) == t && WorkerAt(t, w) == Stamping([], msgs)
            && t.counter == s.counter && t.issued == s.issued
  {
  }

  /** The room when a worker that began in state x has stamped its messages, and has appended them. */
  function ReadyRoom(s: Room, w: nat, x: Worker, stamped: seq<Message>): Room {
    Stamped(SetWorker(s, w, x), w, Ready(stamped, Parts(stamped)), s.counter + |stamped|,
            s.issued + Numbers(s.counter, |stamped|))
  }

  function AppendedRoom(s: Room, w: nat, x: Worker, stamped: seq<Message>): Room {
    SetWorker(ReadyRoom(s, w, x, stamped), w, Casting(|s.log|, Parts(stamped))).(
    log := s.log + [Batch(s.clock, stamped)])
  }

  lemma AppendStep(ttl: int, max: nat, s: Room, w: nat, x: Worker, stamped: seq<Message>)
    ensures var t := AppendedRoom(s, w, x, stamped);
            && Step(ttl, max, ReadyRoom(s, w, x, stamped), Append(w)) == t
            && WorkerAt(t, w) == Casting(|s.log|, Parts(stamped))
  {
    hide Parts, Numbers;
  }

  lemma LastCasts(s: Room, w: nat, x: Worker, stamped: seq<Message>)
    ensures var t := AppendedRoom(s, w, x, stamped);
            SetWorker(t, w, Free).(casts := t.casts + CastAll(t, |s.log|, Parts(stamped))) == Flushed(s, w, stamped)
  {
    hide Parts, Numbers;
    var t := AppendedRoom(s, w, x, stamped);
    assert CastAll(t, |s.log|, Parts(stamped)) == CastAll(s, |s.log|, Parts(stamped));
  }

  /** What a room sees of a flush: the append and the broadcasts, by their messages. */
  function Visible(room: string, msgs: seq<Message>, parts: seq<seq<Message>>): seq<W.Event> {
    [W.Recorded(room, msgs)] +
    seq(|parts|, i requires 0 <= i < |parts| =>
      W.Sent(room, parts[i], parts[i] != [] && parts[i][0].priority > 0))
  }

  lemma EventsAreVisible(room: string, msgs: seq<Message>)
    ensures W.RoomEvents(room, msgs) == Visible(room, msgs, Parts(msgs))
  {
    hide Normal, High;
    SplitCovers(msgs);
    var normal, high := Normal(msgs), High(msgs);
    assert normal != [] ==> normal[0] in normal && normal[0].priority <= 0;
    assert high != [] ==> high[0] in high && high[0].priority > 0;
  }

  /** The events of a flush, room by room, are what these steps do to the room: the share of the
      batch that `Worker.Flush` records and broadcasts is what the protocol appends and casts. */
  lemma FlushIsSteps(ttl: int, max: nat, s: Room, w: nat, batch: seq<Message>, seqs: map<string, nat>, room: string)
    requires WorkerAt(s, w).Free? && s.counter == W.Counter(seqs, room)
    ensures var share := W.InRoom(W.Numbered(batch, seqs), room);
            var t := Perform(ttl, max, s, FlushActions(w, W.InRoom(batch, room), |Parts(share)|));
            && t.log == s.log + [Batch(s.clock, share)]
            && t.casts == s.casts + CastAll(s, |s.log|, Parts(share))
            && t.counter == s.counter + |W.InRoom(batch, room)|
            && W.RoomEvents(room, share) == Visible(room, share, Parts(share))
  {
    hide Parts, W.RoomEvents, Visible;
    W.NumberedInRoom(batch, seqs, room);
    FlushAlone(ttl, max, s, w, W.InRoom(batch, room));
    EventsAreVisible(room, W.InRoom(W.Numbered(batch, seqs), room));
  }

  // ---- A batch of another server ----

  /** Messages a worker has taken over from another server or numbered, and will append. */
  ghost predicate Carries(s: Room, w: nat, msgs: seq<Message>) {
    (WorkerAt(s, w).Adopting? || WorkerAt(s, w).Ready?) && WorkerAt(s, w).msgs == msgs
  }

  /** A free worker takes over a batch if and only if the room has a member when it arrives. */
  lemma TakenIfMember(ttl: int, max: nat, s: Room, w: nat, msgs: seq<Message>)
    requires WorkerAt(s, w).Free? && msgs != []
    ensures var t := Step(ttl, max, s, Receive(w, msgs));
            && (Carries(t, w, msgs) <==> s.members != map[])
            && (s.members == map[] ==> t == s)
  {
  }

  /** Whatever happens, a batch taken over is carried until it is appended as it came. */
  lemma CarriedUntilAppended(ttl: int, max: nat, s: Room, w: nat, msgs: seq<Message>, a: Action)
    requires Carries(s, w, msgs)
    ensures var t := Step(ttl, max, s, a);
            Carries(t, w, msgs) || (a == Append(w) && t.log == s.log + [Batch(s.clock, msgs)])
  {
    hide MaxSeq, Retained, LatestSeq, IsReplay, Parts;
  }

  /** Uninterrupted, the batch is appended, and the counter raised to its greatest number, if and only
      if the room has a member. */
  lemma ReceiveAlone(ttl: int, max: nat, s: Room, w: nat, msgs: seq<Message>)
    requires WorkerAt(s, w).Free? && msgs != []
    ensures var t := Perform(ttl, max, s, [Receive(w, msgs), AdoptLoad(w), AdoptSwap(w), Append(w)]);
            && t.log == s.log + (if s.members != map[] then [Batch(s.clock, msgs)] else [])
            && t.counter == if s.members != map[] && MaxSeq(msgs) > s.counter then MaxSeq(msgs) else s.counter
  {
    hide MaxSeq;
    var s1 := Step(ttl, max, s, Receive(w, msgs));
    var s2 := Step(ttl, max, s1, AdoptLoad(w));
    var s3 := Step(ttl, max, s2, AdoptSwap(w));
    var s4 := Step(ttl, max, s3, Append(w));
    PerformFour(ttl, max, s, Receive(w, msgs), AdoptLoad(w), AdoptSwap(w), Append(w));
    assert s.log + [] == s.log;
  }

  lemma PerformFour(ttl: int, max: nat, s: Room, a: Action, b: Action, c: Action, d: Action)
    ensures Perform(ttl, max, s, [a, b, c, d]) ==
            Step(ttl, max, Step(ttl, max, Step(ttl, max, Step(ttl, max, s, a), b), c), d)
  {
    hide Step;
    var s1 := Step(ttl, max, s, a);
    var s2 := Step(ttl, max, s1, b);
    var s3 := Step(ttl, max, s2, c);
    assert [a, b, c, d] == [a] + [b, c, d] && [b, c, d] == [b] + [c, d] && [c, d] == [c] + [d] && [d] == [d] + [];
    PerformFirst(ttl, max, s, a, [b, c, d]);
    PerformFirst(ttl, max, s1, b, [c, d]);
    PerformFirst(ttl, max, s2, c, [d]);
    PerformFirst(ttl, max, s3, d, []);
    PerformFirst(ttl, max, Step(ttl, max, s3, d), d, []);
  }
}
