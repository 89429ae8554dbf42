/** Who is in the room, told from the actions alone, and what that makes of broadcasts and replays. */
module Membership {
  import opened HotHistory
  import opened ReplayProtocol

  /** The client has registered. */
  ghost predicate Entered(actions: seq<Action>, c: Client) {
    exists i :: 0 <= i < |actions| && actions[i] == Register(c)
  }

  /** Action j is the client's registration: a connection registers once. */
  ghost predicate Joins(actions: seq<Action>, j: nat, c: Client)
    requires j < |actions|
  {
    actions[j] == Register(c) && !Entered(actions[..j], c)
  }

  /** Action i puts the client out: it unregisters itself, its user is kicked, or another connection of
      its user registers. The exit of another connection does not. */
  ghost predicate PutsOut(actions: seq<Action>, i: nat, c: Client)
    requires i < |actions|
  {
    || actions[i] == Unregister(c) || actions[i] == Kick(c.uid)
    || (actions[i].Register? && actions[i].c != c && actions[i].c.uid == c.uid && Joins(actions, i, actions[i].c))
  }

  /** The client has registered and nothing put it out since. */
  ghost predicate InRoom(actions: seq<Action>, c: Client) {
    exists j :: 0 <= j < |actions| && Joins(actions, j, c) &&
                forall i :: j < i < |actions| ==> !PutsOut(actions, i, c)
  }

  ghost predicate IsMember(s: Room, c: Client) {
    c.uid in s.members && s.members[c.uid] == c
  }

  // ---- One more action ----

  lemma EnteredSnoc(before: seq<Action>, a: Action, c: Client)
    ensures Entered(before + [a], c) <==> Entered(before, c) || a == Register(c)
  {
    var actions := before + [a];
    if i :| 0 <= i < |before| && before[i] == Register(c) {
      assert actions[i] == Register(c);
    }
    if a == Register(c) {
      assert actions[|before|] == Register(c);
    }
  }

  lemma SameBefore(before: seq<Action>, a: Action, i: nat, c: Client)
    requires i < |before|
    ensures Joins(before + [a], i, c) <==> Joins(before, i, c)
    ensures PutsOut(before + [a], i, c) <==> PutsOut(before, i, c)
  {
    assert (before + [a])[..i] == before[..i] && (before + [a])[i] == before[i];
  }

  lemma AtLast(before: seq<Action>, a: Action, c: Client)
    ensures Joins(before + [a], |before|, c) <==> a == Register(c) && !Entered(before, c)
    ensures PutsOut(before + [a], |before|, c) <==> PutOutBy(before, a, c)
  {
    assert (before + [a])[..|before|] == before;
  }

  ghost predicate PutOutBy(before: seq<Action>, a: Action, c: Client) {
    || a == Unregister(c) || a == Kick(c.uid)
    || (a.Register? && a.c != c && a.c.uid == c.uid && !Entered(before, a.c))
  }

  lemma InRoomSnoc(before: seq<Action>, a: Action, c: Client)
    ensures InRoom(before + [a], c) <==>
            (InRoom(before, c) && !PutOutBy(before, a, c)) || (a == Register(c) && !Entered(before, c))
  {
    hide Joins, PutsOut, PutOutBy, Entered;
    var actions := before + [a];
    AtLast(before, a, c);
    forall i | 0 <= i < |before|
      ensures Joins(actions, i, c) <==> Joins(before, i, c)
      ensures PutsOut(actions, i, c) <==> PutsOut(before, i, c)
    {
      SameBefore(before, a, i, c);
    }
    if InRoom(before, c) && !PutOutBy(before, a, c) {
      var j :| 0 <= j < |before| && Joins(before, j, c) && forall i :: j < i < |before| ==> !PutsOut(before, i, c);
      assert Joins(actions, j, c);
    }
    if a == Register(c) && !Entered(before, c) {
      assert Joins(actions, |before|, c);
    }
    if InRoom(actions, c) {
      var j :| 0 <= j < |actions| && Joins(actions, j, c) && forall i :: j < i < |actions| ==>
                                                                           !PutsOut(actions, i, c);
      if j < |before| {
        assert Joins(before, j, c);
        assert !PutsOut(actions, |before|, c);
      }
    }
  }

  lemma InRoomEntered(actions: seq<Action>, c: Client)
    requires InRoom(actions, c)
    ensures Entered(actions, c)
  {
    var j :| 0 <= j < |actions| && Joins(actions, j, c);
  }

  lemma NoneYet(c: Client)
    ensures !Entered([], c) && !InRoom([], c)
  {
  }

  // ---- The room agrees ----

  /** Registered, member and gone say what the actions say. */
  ghost predicate Agrees(s: Room, actions: seq<Action>, c: Client) {
    && (c in s.registered <==> Entered(actions, c))
    && (IsMember(s, c) <==> InRoom(actions, c))
    && (c in s.gone <==> Entered(actions, c) && !InRoom(actions, c))
  }

  ghost predicate Keyed(s: Room) {
    forall u :: u in s.members ==> s.members[u].uid == u
  }

  /** What a step does to one client. */
  lemma StepClient(ttl: int, max: nat, s: Room, a: Action, c: Client)
    requires Keyed(s)
    ensures var t := Step(ttl, max, s, a);
            var joins := a == Register(c) && c !in s.registered;
            var out := || a == Unregister(c) || a == Kick(c.uid)
                       || (a.Register? && a.c != c && a.c.uid == c.uid && a.c !in s.registered);
            && Keyed(t)
            && (c in t.registered <==> c in s.registered || a == Register(c))
            && (IsMember(t, c) <==> joins || (IsMember(s, c) && !out))
            && (c in t.gone <==> c in s.gone || (IsMember(s, c) && (out || joins)))
  {
    hide MaxSeq, Retained, LatestSeq, IsReplay, Parts;
  }

  /** In every run a registered client is a member exactly if nothing put it out since it registered,
      and has left exactly if something did. */
  lemma {:induction false} MembersExactly(ttl: int, max: nat, clock: int, actions: seq<Action>, c: Client)
    ensures Keyed(Run(ttl, max, clock, actions))
    ensures Agrees(Run(ttl, max, clock, actions), actions, c)
  {
    hide Step, Entered, InRoom, IsMember;
    if actions == [] {
      NoneYet(c);
      StartEmpty(clock, c);
    } else {
      var before, a := actions[..|actions| - 1], actions[|actions| - 1];
      var s := Run(ttl, max, clock, before);
      assert actions == before + [a];
      MembersExactly(ttl, max, clock, before, c);
      if a.Register? {
        MembersExactly(ttl, max, clock, before, a.c);
      }
      StepClient(ttl, max, s, a, c);
      EnteredSnoc(before, a, c);
      InRoomSnoc(before, a, c);
      if InRoom(before, c) {
        InRoomEntered(before, c);
      }
    }
  }

  lemma StartEmpty(clock: int, c: Client)
    ensures var s := Start(clock); Keyed(s) && c !in s.registered && !IsMember(s, c) && c !in s.gone
  {
  }

  // ---- Broadcasts and replays are of their moment ----

  /** Action n made broadcast j: it went to the members of that moment. */
  ghost predicate CastAt(ttl: int, max: nat, clock: int, actions: seq<Action>, j: nat, n: nat)
    requires n < |actions| && j < |Run(ttl, max, clock, actions).casts|
  {
    var s, cast := Run(ttl, max, clock, actions[..n]), Run(ttl, max, clock, actions).casts[j];
    actions[n].Broadcast? && cast.to == s.members.Values && cast.gone == s.gone
  }

  /** Action n made replay f: it was asked for by a registered client, then, and answered from the
      appends and the clock of that moment. */
  ghost predicate FrameAt(ttl: int, max: nat, clock: int, actions: seq<Action>, f: nat, n: nat)
    requires n < |actions| && f < |Run(ttl, max, clock, actions).frames|
  {
    var s, frame := Run(ttl, max, clock, actions[..n]), Run(ttl, max, clock, actions).frames[f];
    && actions[n] == Replay(frame.client, frame.afterSeq, frame.msgs) && frame.client in s.registered
    && frame.at == s.clock && frame.seen == |s.log| && s.log <= Run(ttl, max, clock, actions).log
  }

  lemma StepGrows(ttl: int, max: nat, s: Room, a: Action)
    ensures var t := Step(ttl, max, s, a);
            && s.log <= t.log && s.gone <= t.gone
            && (t.casts == s.casts ||
                (a.Broadcast? && |t.casts| == |s.casts| + 1 && t.casts[..|s.casts|] == s.casts &&
                 t.casts[|s.casts|].to == s.members.Values && t.casts[|s.casts|].gone == s.gone))
            && (t.frames == s.frames ||
                (a.Replay? && a.c in s.registered && |t.frames| == |s.frames| + 1 &&
                 t.frames[..|s.frames|] == s.frames &&
                 t.frames[|s.frames|] ==
                 Frame(a.c, a.afterSeq, s.clock, |s.log|, a.out, LatestSeq(s.log, ttl, s.clock))))
  {
    hide MaxSeq, Retained, LatestSeq, IsReplay, Parts;
  }

  lemma {:induction false} CastsAreSnapshots(ttl: int, max: nat, clock: int, actions: seq<Action>,
                                             j: nat) returns (n: nat)
    requires j < |Run(ttl, max, clock, actions).casts|
    ensures n < |actions| && CastAt(ttl, max, clock, actions, j, n)
    ensures Run(ttl, max, clock, actions).casts[j].gone <= Run(ttl, max, clock, actions).gone
  {
    hide Step;
    var before, a := actions[..|actions| - 1], actions[|actions| - 1];
    var s := Run(ttl, max, clock, before);
    StepGrows(ttl, max, s, a);
    if j < |s.casts| {
      n := CastsAreSnapshots(ttl, max, clock, before, j);
      assert actions[..n] == before[..n] && actions[n] == before[n];
      assert Run(ttl, max, clock, actions).casts[..|s.casts|] == s.casts;
    } else {
      n := |before|;
    }
  }

  lemma {:induction false} FramesAreSnapshots(ttl: int, max: nat, clock: int, actions: seq<Action>,
                                              f: nat) returns (n: nat)
    requires f < |Run(ttl, max, clock, actions).frames|
    ensures n < |actions| && FrameAt(ttl, max, clock, actions, f, n)
  {
    hide Step;
    var before, a := actions[..|actions| - 1], actions[|actions| - 1];
    var s := Run(ttl, max, clock, before);
    StepGrows(ttl, max, s, a);
    if f < |s.frames| {
      n := FramesAreSnapshots(ttl, max, clock, before, f);
      assert actions[..n] == before[..n] && actions[n] == before[n];
      assert Run(ttl, max, clock, actions).frames[..|s.frames|] == s.frames;
    } else {
      n := |before|;
    }
  }

  /** Every replay a registered client asks for is answered. */
  lemma ReplayAnswered(ttl: int, max: nat, s: Room, c: Client, afterSeq: nat, out: seq<Message>)
    requires c in s.registered && IsReplay(Retained(s.log, ttl, max, s.clock), afterSeq, max, out)
    ensures var t := Step(ttl, max, s, Replay(c, afterSeq, out));
            |t.frames| == |s.frames| + 1 && t.frames[|s.frames|].client == c && t.frames[|s.frames|].msgs == out
  {
  }

  /** Time passed in a run. */
  function Elapsed(actions: seq<Action>): nat {
    if actions == [] then 0
    else
      var a := actions[|actions| - 1];
      Elapsed(actions[..|actions| - 1]) + if a.Pass? then a.ms else 0
  }

  lemma {:induction false} ClockRuns(ttl: int, max: nat, clock: int, actions: seq<Action>)
    ensures Run(ttl, max, clock, actions).clock == clock + Elapsed(actions)
  {
    hide MaxSeq, Retained, LatestSeq, IsReplay, Parts;
    if actions != [] {
      ClockRuns(ttl, max, clock, actions[..|actions| - 1]);
    }
  }

  /** No hole for a client that nothing put out: each appended message above the number it asked for is
      in its replay or in a broadcast made while it was in the room. */
  lemma NoHoleInRoom(ttl: int, max: nat, clock: int, actions: seq<Action>, f: nat, k: nat, i: nat)
    requires var s := Run(ttl, max, clock, actions);
             && f < |s.frames| && k < |s.log| && i < |s.log[k].msgs|
             && s.log[k].msgs[i].seqNo > s.frames[f].afterSeq
             && !Pending(s, k, s.log[k].msgs[i])
             && (k < s.frames[f].seen <= |s.log| ==>
                   Held(s.log[..s.frames[f].seen], ttl, max, s.frames[f].at, k, i))
             && InRoom(actions, s.frames[f].client)
    ensures var s := Run(ttl, max, clock, actions);
            s.log[k].msgs[i] in s.frames[f].msgs ||
            exists j, n :: 0 <= j < |s.casts| && 0 <= n < |actions| && CastAt(ttl, max, clock, actions, j, n) &&
                           s.casts[j].batch == k && s.log[k].msgs[i] in s.casts[j].msgs &&
                           InRoom(actions[..n], s.frames[f].client)
  {
    hide Run, Pending, Held, InRoom, Entered;
    NoHole(ttl, max, clock, actions, f, k, i);
    var s := Run(ttl, max, clock, actions);
    var m, c := s.log[k].msgs[i], s.frames[f].client;
    MembersExactly(ttl, max, clock, actions, c);
    if m !in s.frames[f].msgs {
      var j :| 0 <= j < |s.casts| && s.casts[j].batch == k && m in s.casts[j].msgs &&
               c in s.casts[j].to + s.casts[j].gone;
      var n := CastsAreSnapshots(ttl, max, clock, actions, j);
      MembersExactly(ttl, max, clock, actions[..n], c);
      MembersByValue(Run(ttl, max, clock, actions[..n]), c);
    }
  }

  lemma MembersByValue(s: Room, c: Client)
    requires Keyed(s)
    ensures c in s.members.Values <==> IsMember(s, c)
  {
  }
}
