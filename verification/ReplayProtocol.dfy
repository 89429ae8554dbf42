/** Registration, replay and broadcast in one room, interleaved at every atomic section.

    A worker stamps its messages one by one, appends them to the hot history, then broadcasts
    (normal part first, then high priority), each broadcast to its own snapshot of the members.
    A client registers, then asks for a replay. */
module ReplayProtocol {
  import opened Options
  import opened HotHistory

  datatype Client = Client(uid: string, serial: nat)

  datatype Worker =
    | Free
    | Stamping(done: seq<Message>, todo: seq<Message>)                  // own messages
    | Adopting(msgs: seq<Message>, loaded: Option<nat>)                 // messages of another server
    | Ready(msgs: seq<Message>, parts: seq<seq<Message>>)               // all numbered, to be appended
    | Casting(batch: nat, parts: seq<seq<Message>>)                     // appended, parts still to broadcast

  /** One broadcast: the snapshot it went to, and who had left the room by then. */
  datatype Cast = Cast(batch: nat, msgs: seq<Message>, to: set<Client>, gone: set<Client>)

  /** One replay: what the client got, when, and how many batches had been appended by then. */
  datatype Frame = Frame(client: Client, afterSeq: nat, at: int, seen: nat, msgs: seq<Message>, latest: nat)

  datatype Room = Room(
    log: seq<Batch>, clock: int, counter: nat, issued: seq<nat>,
    workers: map<nat, Worker>,
    members: map<string, Client>, registered: set<Client>, gone: set<Client>,
    casts: seq<Cast>, frames: seq<Frame>)

  datatype Action =
    | Pass(ms: nat)
    | Flush(w: nat, msgs: seq<Message>)
    | Stamp(w: nat)
    | Receive(w: nat, msgs: seq<Message>)
    | AdoptLoad(w: nat)
    | AdoptSwap(w: nat)
    | Append(w: nat)
    | Broadcast(w: nat)
    | Register(c: Client)
    | Unregister(c: Client)
    | Kick(uid: string)
    | Replay(c: Client, afterSeq: nat, out: seq<Message>)

  function Start(clock: int): Room {
    Room([], clock, 0, [], map[], map[], {}, {}, [], [])
  }

  function WorkerAt(s: Room, w: nat): Worker {
    if w in s.workers then s.workers[w] else Free
  }

  function SetWorker(s: Room, w: nat, x: Worker): Room {
    s.(workers := s.workers[w := x])
  }

  function Parts(msgs: seq<Message>): seq<seq<Message>> {
    (if Normal(msgs) == [] then [] else [Normal(msgs)]) + (if High(msgs) == [] then [] else [High(msgs)])
  }

  /** Someone who was in the room and no longer is. */
  function Leave(s: Room, uid: string): Room
    requires uid in s.members
  {
    s.(members := s.members - {uid}, gone := s.gone + {s.members[uid]})
  }

  /** Each step is one atomic section of the program; a step that is not enabled changes nothing. */
  ghost function Step(ttl: int, max: nat, s: Room, a: Action): Room {
    match a
    case Pass(ms) => s.(clock := s.clock + ms)
    case Flush(w, msgs) =>
      if WorkerAt(s, w).Free? then SetWorker(s, w, Stamping([], msgs)) else s
    case Stamp(w) =>
      (match WorkerAt(s, w)
       case Stamping(done, todo) =>
         if todo == [] then SetWorker(s, w, Ready(done, Parts(done)))
         else
           var n := s.counter + 1;
           var x := Stamping(done + [todo[0].(seqNo := n)], todo[1..]);
           SetWorker(s, w, x).(counter := n, issued := s.issued + [n])
       case _ => s)
    case Receive(w, msgs) =>
      // a batch for a room without members here is dropped
      if WorkerAt(s, w).Free? && msgs != [] && s.members != map[] then
        if MaxSeq(msgs) == 0 then SetWorker(s, w, Ready(msgs, [msgs])) else SetWorker(s, w, Adopting(msgs, None))
      else s
    case AdoptLoad(w) =>
      (match WorkerAt(s, w)
       case Adopting(msgs, None) => SetWorker(s, w, Adopting(msgs, Some(s.counter)))
       case _ => s)
    case AdoptSwap(w) =>
      (match WorkerAt(s, w)
       case Adopting(msgs, Some(cur)) =>
         if MaxSeq(msgs) <= cur then SetWorker(s, w, Ready(msgs, [msgs]))
         else if s.counter == cur then SetWorker(s, w, Ready(msgs, [msgs])).(counter := MaxSeq(msgs))
         else SetWorker(s, w, Adopting(msgs, None))
       case _ => s)
    case Append(w) =>
      (match WorkerAt(s, w)
       case Ready(msgs, parts) =>
         SetWorker(s, w, Casting(|s.log|, parts)).(log := s.log + [Batch(s.clock, msgs)])
       case _ => s)
    case Broadcast(w) =>
      (match WorkerAt(s, w)
       case Casting(k, parts) =>
         if parts == [] then SetWorker(s, w, Free)
         else SetWorker(s, w, Casting(k, parts[1..])).(
              casts := s.casts + [Cast(k, parts[0], s.members.Values, s.gone)])
       case _ => s)
    case Register(c) =>
      if c in s.registered then s
      else
        var s' := if c.uid in s.members then Leave(s, c.uid) else s;
        s'.(members := s'.members[c.uid := c], registered := s'.registered + {c})
    case Unregister(c) =>
      if c.uid in s.members && s.members[c.uid] == c then Leave(s, c.uid) else s
    case Kick(uid) =>
      if uid in s.members then Leave(s, uid) else s
    case Replay(c, afterSeq, out) =>
      if c in s.registered && IsReplay(Retained(s.log, ttl, max, s.clock), afterSeq, max, out)
      then s.(frames := s.frames + [Frame(c, afterSeq, s.clock, |s.log|, out, LatestSeq(s.log, ttl, s.clock))])
      else s
  }

  ghost function Run(ttl: int, max: nat, clock: int, actions: seq<Action>): Room {
    if actions == [] then Start(clock)
    else Step(ttl, max, Run(ttl, max, clock, actions[..|actions| - 1]), actions[|actions| - 1])
  }

  // ------------------------------------------------------------------ numbering

  /** Locally issued numbers rise strictly and never exceed the counter. */
  ghost predicate Numbered(s: Room) {
    && (forall i, j :: 0 <= i < j < |s.issued| ==> s.issued[i] < s.issued[j])
    && (forall i :: 0 <= i < |s.issued| ==> 0 < s.issued[i] <= s.counter)
  }

  lemma StepNumbered(ttl: int, max: nat, s: Room, a: Action)
    requires Numbered(s)
    ensures Numbered(Step(ttl, max, s, a)) && s.counter <= Step(ttl, max, s, a).counter
    ensures s.issued <= Step(ttl, max, s, a).issued
  {
    hide Parts, MaxSeq, Retained, IsReplay, LatestSeq;
  }

  /** No number is stamped twice and the counter never falls, whatever is adopted in between. */
  lemma {:induction false} NumbersRise(ttl: int, max: nat, clock: int, actions: seq<Action>, n: nat)
    requires n <= |actions|
    ensures Numbered(Run(ttl, max, clock, actions))
    ensures Run(ttl, max, clock, actions[..n]).counter <= Run(ttl, max, clock, actions).counter
    ensures Run(ttl, max, clock, actions[..n]).issued <= Run(ttl, max, clock, actions).issued
    decreases |actions|
  {
    hide Step;
    if actions != [] {
      var before := actions[..|actions| - 1];
      var m := if n == |actions| then n - 1 else n;
      NumbersRise(ttl, max, clock, before, m);
      StepNumbered(ttl, max, Run(ttl, max, clock, before), actions[|actions| - 1]);
      assert actions[..m] == before[..m];
      assert n == |actions| ==> actions[..n] == actions;
    }
  }

  // ------------------------------------------------------------------ delivery

  ghost predicate InParts(m: Message, parts: seq<seq<Message>>) {
    exists p :: p in parts && m in p
  }

  /** Message m of batch k has gone out in some broadcast. */
  ghost predicate HasCast(s: Room, k: nat, m: Message) {
    exists j :: 0 <= j < |s.casts| && s.casts[j].batch == k && m in s.casts[j].msgs
  }

  /** Message m of batch k is still to be broadcast by some worker. */
  ghost predicate Pending(s: Room, k: nat, m: Message) {
    exists w :: w in s.workers && s.workers[w].Casting? && s.workers[w].batch == k && InParts(m, s.workers[w].parts)
  }

  ghost predicate Conserved(s: Room) {
    && (forall w :: w in s.workers ==> PartsComplete(s.workers[w]))
    && (forall w :: w in s.workers && s.workers[w].Casting? ==> s.workers[w].batch < |s.log|)
    && (forall j :: 0 <= j < |s.casts| ==> s.casts[j].batch < |s.log|)
    && (forall k, m :: 0 <= k < |s.log| && m in s.log[k].msgs ==> HasCast(s, k, m) || Pending(s, k, m))
  }

  /** Whoever registered is in the room or has left it. */
  ghost predicate Accounted(s: Room) {
    s.registered <= s.members.Values + s.gone
  }

  /** Every replay is what the appends before it call for, and every batch appended after a replay
      goes to a snapshot that holds its client, unless the client has left. */
  ghost predicate Replayed(ttl: int, max: nat, s: Room) {
    && (forall i :: 0 <= i < |s.frames| ==> FrameOk(ttl, max, s, s.frames[i]))
    && (forall i, j :: 0 <= i < |s.frames| && 0 <= j < |s.casts| && s.frames[i].seen <= s.casts[j].batch ==>
                         s.frames[i].client in s.casts[j].to + s.casts[j].gone)
  }

  ghost predicate FrameOk(ttl: int, max: nat, s: Room, f: Frame) {
    && f.client in s.registered && f.seen <= |s.log|
    && IsReplay(Retained(s.log[..f.seen], ttl, max, f.at), f.afterSeq, max, f.msgs)
    && f.latest == LatestSeq(s.log[..f.seen], ttl, f.at)
  }

  lemma PartsCover(msgs: seq<Message>, m: Message)
    requires m in msgs
    ensures InParts(m, Parts(msgs))
  {
    hide Normal, High;
    SplitCovers(msgs);
    assert m in multiset(Normal(msgs)) + multiset(High(msgs));
    var parts := Parts(msgs);
    if m in Normal(msgs) {
      assert Normal(msgs) in parts;
    } else {
      assert High(msgs) in parts;
    }
  }

  /** A numbered batch always has every message in one of its parts. */
  ghost predicate PartsComplete(x: Worker) {
    x.Ready? ==> forall m :: m in x.msgs ==> InParts(m, x.parts)
  }

  lemma StepPartsComplete(ttl: int, max: nat, s: Room, a: Action, w: nat)
    requires PartsComplete(WorkerAt(s, w))
    ensures PartsComplete(WorkerAt(Step(ttl, max, s, a), w))
  {
    match WorkerAt(Step(ttl, max, s, a), w) {
      case Ready(msgs, parts) =>
        forall m | m in msgs
          ensures InParts(m, parts)
        {
          if parts == Parts(msgs) {
            PartsCover(msgs, m);
          } else if parts == [msgs] {
            assert msgs in parts;
          }
        }
      case _ =>
    }
  }

  lemma BroadcastKeepsMessage(ttl: int, max: nat, s: Room, v: nat, k: nat, m: Message)
    requires v in s.workers && s.workers[v].Casting? && s.workers[v].batch == k && InParts(m, s.workers[v].parts)
    ensures var s' := Step(ttl, max, s, Broadcast(v)); HasCast(s', k, m) || Pending(s', k, m)
  {
    hide MaxSeq, Retained, LatestSeq, IsReplay, Parts;
    var s' := Step(ttl, max, s, Broadcast(v));
    var parts := s.workers[v].parts;
    var p :| p in parts && m in p;
    assert parts == [parts[0]] + parts[1..];
    if p == parts[0] {
      assert s'.casts[|s.casts|].batch == k && m in s'.casts[|s.casts|].msgs;
    } else {
      assert InParts(m, parts[1..]);
      assert s'.workers[v] == Casting(k, parts[1..]);
    }
  }

  lemma AppendPends(ttl: int, max: nat, s: Room, a: Action, m: Message)
    requires Conserved(s)
    requires var s' := Step(ttl, max, s, a); |s'.log| > |s.log| && m in s'.log[|s.log|].msgs
    ensures Pending(Step(ttl, max, s, a), |s.log|, m)
  {
    hide MaxSeq, Retained, LatestSeq, IsReplay, Parts, HasCast;
    var s' := Step(ttl, max, s, a);
    assert InParts(m, s.workers[a.w].parts);
    assert s'.workers[a.w] == Casting(|s.log|, s.workers[a.w].parts);
  }

  lemma StepKeepsMessage(ttl: int, max: nat, s: Room, a: Action, k: nat, m: Message)
    requires Conserved(s) && k < |s.log| && m in s.log[k].msgs
    ensures var s' := Step(ttl, max, s, a); HasCast(s', k, m) || Pending(s', k, m)
  {
    hide InParts, Step;
    var s' := Step(ttl, max, s, a);
    if HasCast(s, k, m) {
      var j :| 0 <= j < |s.casts| && s.casts[j].batch == k && m in s.casts[j].msgs;
      CastStays(ttl, max, s, a, j);
    } else {
      assert Pending(s, k, m);
      var v :| v in s.workers && s.workers[v].Casting? && s.workers[v].batch == k && InParts(m, s.workers[v].parts);
      if a == Broadcast(v) {
        BroadcastKeepsMessage(ttl, max, s, v, k, m);
      } else {
        CastingStays(ttl, max, s, a, v);
      }
    }
  }

  lemma CastStays(ttl: int, max: nat, s: Room, a: Action, j: nat)
    requires j < |s.casts|
    ensures var s' := Step(ttl, max, s, a); j < |s'.casts| && s'.casts[j] == s.casts[j]
  {
    hide MaxSeq, Retained, LatestSeq, IsReplay, Parts;
  }

  /** Only its own broadcast changes a casting worker. */
  lemma CastingStays(ttl: int, max: nat, s: Room, a: Action, v: nat)
    requires v in s.workers && s.workers[v].Casting? && a != Broadcast(v)
    ensures var s' := Step(ttl, max, s, a); v in s'.workers && s'.workers[v] == s.workers[v]
  {
    hide MaxSeq, Retained, LatestSeq, IsReplay, Parts;
  }

  /** Steps only append to the log, and what they cast is in it. */
  lemma LogGrows(ttl: int, max: nat, s: Room, a: Action)
    requires Conserved(s)
    ensures var s' := Step(ttl, max, s, a);
            && |s.log| <= |s'.log| <= |s.log| + 1 && s'.log[..|s.log|] == s.log
            && (forall j :: 0 <= j < |s'.casts| ==> s'.casts[j].batch < |s'.log|)
            && (forall w :: w in s'.workers && s'.workers[w].Casting? ==> s'.workers[w].batch < |s'.log|)
  {
    hide MaxSeq, Retained, LatestSeq, IsReplay, Parts, HasCast, Pending, PartsComplete;
  }

  lemma StepConserved(ttl: int, max: nat, s: Room, a: Action)
    requires Conserved(s)
    ensures Conserved(Step(ttl, max, s, a))
  {
    hide InParts, HasCast, Pending, Step;
    var s' := Step(ttl, max, s, a);
    LogGrows(ttl, max, s, a);
    forall w | w in s'.workers
      ensures PartsComplete(s'.workers[w])
    {
      assert s'.workers[w] == WorkerAt(s', w);
      StepPartsComplete(ttl, max, s, a, w);
    }
    forall k, m | 0 <= k < |s'.log| && m in s'.log[k].msgs
      ensures HasCast(s', k, m) || Pending(s', k, m)
    {
      if k < |s.log| {
        assert s'.log[k] == s'.log[..|s.log|][k];
        StepKeepsMessage(ttl, max, s, a, k, m);
      } else {
        AppendPends(ttl, max, s, a, m);
      }
    }
  }

  lemma StepAccounted(ttl: int, max: nat, s: Room, a: Action)
    requires Accounted(s)
    ensures Accounted(Step(ttl, max, s, a))
  {
    var s' := Step(ttl, max, s, a);
    forall c | c in s'.registered
      ensures c in s'.members.Values || c in s'.gone
    {
      if c in s.registered && c in s.members.Values {
        var u :| u in s.members && s.members[u] == c;
        if u in s'.members && s'.members[u] == c {
        } else {
          assert c in s'.gone;
        }
      } else if c !in s.registered {
        assert s'.members[c.uid] == c;
      }
    }
  }

  lemma StepFrames(ttl: int, max: nat, s: Room, a: Action)
    requires Replayed(ttl, max, s)
    ensures var s' := Step(ttl, max, s, a); forall i :: 0 <= i < |s'.frames| ==> FrameOk(ttl, max, s', s'.frames[i])
  {
    hide MaxSeq, Retained, LatestSeq, IsReplay, Parts;
    var s' := Step(ttl, max, s, a);
    assert s'.log[..|s.log|] == s.log;
    forall i | 0 <= i < |s'.frames|
      ensures FrameOk(ttl, max, s', s'.frames[i])
    {
      if i < |s.frames| {
        var f := s.frames[i];
        assert s'.frames[i] == f && FrameOk(ttl, max, s, f);
        assert s'.log[..f.seen] == s.log[..f.seen];
      } else {
        assert s'.log[..|s.log|] == s.log;
      }
    }
  }

  /** What a step casts goes to the members it finds; who has left stays gone. */
  lemma StepCasts(ttl: int, max: nat, s: Room, a: Action, i: nat, j: nat)
    requires Conserved(s) && Accounted(s) && Replayed(ttl, max, s)
    requires var s' := Step(ttl, max, s, a);
             i < |s'.frames| && j < |s'.casts| && s'.frames[i].seen <= s'.casts[j].batch
    ensures var s' := Step(ttl, max, s, a); s'.frames[i].client in s'.casts[j].to + s'.casts[j].gone
  {
    hide MaxSeq, Retained, LatestSeq, IsReplay, Parts, HasCast, Pending, PartsComplete;
    var s' := Step(ttl, max, s, a);
    if i < |s.frames| {
      assert FrameOk(ttl, max, s, s.frames[i]);
    }
  }

  lemma StepReplayed(ttl: int, max: nat, s: Room, a: Action)
    requires Conserved(s) && Accounted(s) && Replayed(ttl, max, s)
    ensures Replayed(ttl, max, Step(ttl, max, s, a))
  {
    hide Step, Conserved, Accounted, FrameOk;
    var s' := Step(ttl, max, s, a);
    StepFrames(ttl, max, s, a);
    forall i, j | 0 <= i < |s'.frames| && 0 <= j < |s'.casts| && s'.frames[i].seen <= s'.casts[j].batch
      ensures s'.frames[i].client in s'.casts[j].to + s'.casts[j].gone
    {
      StepCasts(ttl, max, s, a, i, j);
    }
  }

  ghost predicate Invariant(ttl: int, max: nat, s: Room) {
    Conserved(s) && Accounted(s) && Replayed(ttl, max, s)
  }

  lemma {:induction false} RunInvariant(ttl: int, max: nat, clock: int, actions: seq<Action>)
    ensures Invariant(ttl, max, Run(ttl, max, clock, actions))
  {
    if actions != [] {
      var before := actions[..|actions| - 1];
      var s := Run(ttl, max, clock, before);
      RunInvariant(ttl, max, clock, before);
      StepConserved(ttl, max, s, actions[|actions| - 1]);
      StepAccounted(ttl, max, s, actions[|actions| - 1]);
      StepReplayed(ttl, max, s, actions[|actions| - 1]);
    }
  }

  /** The message went out, after the replay, to a snapshot holding the client or after it had left. */
  ghost predicate CastTo(s: Room, k: nat, m: Message, c: Client) {
    exists j :: 0 <= j < |s.casts| && s.casts[j].batch == k && m in s.casts[j].msgs &&
                c in s.casts[j].to + s.casts[j].gone
  }

  /** Up to the moment of the replay, the frame holds a message above the number asked for exactly
      if the message had neither expired nor been pushed out. */
  lemma FrameExact(ttl: int, max: nat, clock: int, actions: seq<Action>, f: nat, k: nat, i: nat)
    requires var s := Run(ttl, max, clock, actions);
             && f < |s.frames| && k < s.frames[f].seen <= |s.log| && i < |s.log[k].msgs|
             && s.log[k].msgs[i].seqNo > s.frames[f].afterSeq
             && SentOnce(s.log[..s.frames[f].seen], k, i)
    ensures var s := Run(ttl, max, clock, actions);
            s.log[k].msgs[i] in s.frames[f].msgs <==>
                                Held(s.log[..s.frames[f].seen], ttl, max, s.frames[f].at, k, i)
  {
    hide Run, SentOnce, Held, IsReplay, Retained;
    RunInvariant(ttl, max, clock, actions);
    var s := Run(ttl, max, clock, actions);
    var frame, m := s.frames[f], s.log[k].msgs[i];
    assert FrameOk(ttl, max, s, frame);
    var seen := s.log[..frame.seen];
    assert seen[k] == s.log[k];
    RetainedOnce(seen, ttl, max, frame.at, k, i);
    RetainedFits(seen, ttl, max, frame.at);
    ReplayComplete(Retained(seen, ttl, max, frame.at), frame.afterSeq, max, frame.msgs, m);
  }

  /** No hole in the registration window: in every run, a client that asked for a replay gets every
      message above its sequence number, in the replay or by broadcast, unless it left the room or
      the message was already expired or evicted when it asked. */
  lemma NoHole(ttl: int, max: nat, clock: int, actions: seq<Action>, f: nat, k: nat, i: nat)
    requires var s := Run(ttl, max, clock, actions);
             && f < |s.frames| && k < |s.log| && i < |s.log[k].msgs|
             && s.log[k].msgs[i].seqNo > s.frames[f].afterSeq
             && !Pending(s, k, s.log[k].msgs[i])
             && (k < s.frames[f].seen <= |s.log| ==>
                   Held(s.log[..s.frames[f].seen], ttl, max, s.frames[f].at, k, i))
    ensures var s := Run(ttl, max, clock, actions);
            s.log[k].msgs[i] in s.frames[f].msgs || CastTo(s, k, s.log[k].msgs[i], s.frames[f].client)
  {
    hide Run, Pending, Held, IsReplay, Retained;
    RunInvariant(ttl, max, clock, actions);
    var s := Run(ttl, max, clock, actions);
    var frame, m := s.frames[f], s.log[k].msgs[i];
    assert FrameOk(ttl, max, s, frame);
    if k < frame.seen {
      var seen := s.log[..frame.seen];
      assert seen[k] == s.log[k];
      RetainedIf(seen, ttl, max, frame.at, k, i);
      RetainedFits(seen, ttl, max, frame.at);
      ReplayComplete(Retained(seen, ttl, max, frame.at), frame.afterSeq, max, frame.msgs, m);
    } else {
      var j :| 0 <= j < |s.casts| && s.casts[j].batch == k && m in s.casts[j].msgs;
      assert frame.client in s.casts[j].to + s.casts[j].gone;
    }
  }

  lemma RetainedFits(log: seq<Batch>, ttl: int, max: nat, now: int)
    ensures |Retained(log, ttl, max, now)| <= max
  {
  }
}
