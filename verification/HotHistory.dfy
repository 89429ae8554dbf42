/** What a room's hot history should hold: a specification over the log of appends alone. */
module HotHistory {
  datatype Message = Message(room: string, seqNo: nat, priority: int, body: nat)

  /** One call of AppendBatch. */
  datatype Batch = Batch(at: int, msgs: seq<Message>)

  /** Messages without a sequence number are skipped. */
  function Stamped(msgs: seq<Message>): seq<Message> {
    if msgs == [] then []
    else Stamped(msgs[..|msgs| - 1]) + if msgs[|msgs| - 1].seqNo == 0 then [] else [msgs[|msgs| - 1]]
  }

  function Flatten(log: seq<Batch>): seq<Message> {
    if log == [] then [] else Flatten(log[..|log| - 1]) + Stamped(log[|log| - 1].msgs)
  }

  predicate Silence(log: seq<Batch>, ttl: int, now: int) {
    log != [] && now - log[|log| - 1].at > ttl
  }

  /** Index of the first batch after the last silence longer than the TTL. */
  function SessionStart(log: seq<Batch>, ttl: int): (k: nat)
    ensures k <= |log|
  {
    if log == [] then 0
    else
      var before, b := log[..|log| - 1], log[|log| - 1];
      if Silence(before, ttl, b.at) then |log| - 1 else SessionStart(before, ttl)
  }

  /** The stamped messages since the last TTL reset. */
  function Live(log: seq<Batch>, ttl: int): seq<Message> {
    Flatten(log[SessionStart(log, ttl)..])
  }

  function Tail<T>(s: seq<T>, n: nat): seq<T> {
    if |s| <= n then s else s[|s| - n..]
  }

  /** What the room retains at time now: the last `max` live messages, or nothing after a silence. */
  function Retained(log: seq<Batch>, ttl: int, max: nat, now: int): seq<Message> {
    if Silence(log, ttl, now) then [] else Tail(Live(log, ttl), max)
  }

  function MaxSeq(s: seq<Message>): nat {
    if s == [] then 0
    else
      var m := MaxSeq(s[..|s| - 1]);
      if s[|s| - 1].seqNo > m then s[|s| - 1].seqNo else m
  }

  function LatestSeq(log: seq<Batch>, ttl: int, now: int): nat {
    if Silence(log, ttl, now) then 0 else MaxSeq(Live(log, ttl))
  }

  function Newer(s: seq<Message>, afterSeq: nat): seq<Message> {
    if s == [] then []
    else Newer(s[..|s| - 1], afterSeq) + if s[|s| - 1].seqNo > afterSeq then [s[|s| - 1]] else []
  }

  /** The messages that may not be dropped silently, and the others; both keep their order. */
  function High(msgs: seq<Message>): seq<Message> {
    if msgs == [] then []
    else High(msgs[..|msgs| - 1]) + if msgs[|msgs| - 1].priority > 0 then [msgs[|msgs| - 1]] else []
  }

  function Normal(msgs: seq<Message>): seq<Message> {
    if msgs == [] then []
    else Normal(msgs[..|msgs| - 1]) + if msgs[|msgs| - 1].priority > 0 then [] else [msgs[|msgs| - 1]]
  }

  predicate Ascending(s: seq<Message>) {
    forall i, j :: 0 <= i < j < |s| ==> s[i].seqNo <= s[j].seqNo
  }

  /** out is a replay of the held messages: those above afterSeq, ascending, the newest `limit` of them. */
  ghost predicate IsReplay(held: seq<Message>, afterSeq: nat, limit: nat, out: seq<Message>) {
    exists full :: IsArrangement(full, Newer(held, afterSeq)) && out == Tail(full, limit)
  }

  ghost predicate IsArrangement(full: seq<Message>, of: seq<Message>) {
    Ascending(full) && multiset(full) == multiset(of)
  }

  /** One more batch either continues the session or, after a silence, starts a new one. */
  lemma LiveSnoc(log: seq<Batch>, ttl: int, b: Batch)
    ensures Live(log + [b], ttl) ==
            (if Silence(log, ttl, b.at) then [] else Live(log, ttl)) + Stamped(b.msgs)
  {
    var log' := log + [b];
    assert log'[..|log|] == log;
    var k := SessionStart(log', ttl);
    FlattenSnoc(log[k..], b);
    assert log'[k..] == log[k..] + [b];
  }

  lemma FlattenSnoc(log: seq<Batch>, b: Batch)
    ensures Flatten(log + [b]) == Flatten(log) + Stamped(b.msgs)
  {
    assert (log + [b])[..|log|] == log;
  }

  lemma StampedSnoc(msgs: seq<Message>, m: Message)
    ensures Stamped(msgs + [m]) == Stamped(msgs) + if m.seqNo == 0 then [] else [m]
  {
    assert (msgs + [m])[..|msgs|] == msgs;
  }

  /** Unstamped messages are never kept, and stamped ones always are. */
  lemma {:induction false} StampedExactly(msgs: seq<Message>, m: Message)
    ensures m in Stamped(msgs) <==> m in msgs && m.seqNo != 0
  {
    if msgs != [] {
      StampedExactly(msgs[..|msgs| - 1], m);
      assert msgs == msgs[..|msgs| - 1] + [msgs[|msgs| - 1]];
    }
  }

  lemma {:induction false} FlattenStamped(log: seq<Batch>, m: Message)
    requires m in Flatten(log)
    ensures m.seqNo != 0
  {
    var before, b := log[..|log| - 1], log[|log| - 1];
    if m in Flatten(before) {
      FlattenStamped(before, m);
    } else {
      StampedExactly(b.msgs, m);
    }
  }

  lemma RetainedStamped(log: seq<Batch>, ttl: int, max: nat, now: int, m: Message)
    requires m in Retained(log, ttl, max, now)
    ensures m.seqNo != 0
  {
    FlattenStamped(log[SessionStart(log, ttl)..], m);
  }

  lemma NewerNone(afterSeq: nat)
    ensures Newer([], afterSeq) == []
  {
  }

  lemma NewerSnoc(s: seq<Message>, afterSeq: nat, m: Message)
    ensures Newer(s + [m], afterSeq) == Newer(s, afterSeq) + if m.seqNo > afterSeq then [m] else []
  {
    assert (s + [m])[..|s|] == s;
  }

  lemma SplitSnoc(msgs: seq<Message>, m: Message)
    ensures High(msgs + [m]) == High(msgs) + if m.priority > 0 then [m] else []
    ensures Normal(msgs + [m]) == Normal(msgs) + if m.priority > 0 then [] else [m]
  {
    assert (msgs + [m])[..|msgs|] == msgs;
  }

  lemma SplitNone()
    ensures Normal([]) == [] && High([]) == []
  {
  }

  /** Every message is in exactly one of the two lists, as often as it was sent. */
  lemma {:induction false} SplitCovers(msgs: seq<Message>)
    ensures multiset(Normal(msgs)) + multiset(High(msgs)) == multiset(msgs)
    ensures forall m :: m in Normal(msgs) ==> m.priority <= 0
    ensures forall m :: m in High(msgs) ==> m.priority > 0
  {
    hide Normal, High;
    SplitNone();
    if msgs != [] {
      var r, last := msgs[..|msgs| - 1], msgs[|msgs| - 1];
      SplitCovers(r);
      SplitSnoc(r, last);
      assert msgs == r + [last];
      assert Normal(r) + [] == Normal(r) && High(r) + [] == High(r);
    }
  }

  lemma MaxSeqSnoc(s: seq<Message>, m: Message)
    ensures MaxSeq(s + [m]) == if m.seqNo > MaxSeq(s) then m.seqNo else MaxSeq(s)
  {
    assert (s + [m])[..|s|] == s;
  }

  lemma TailSnoc<T>(s: seq<T>, x: T, n: nat)
    requires n > 0
    ensures Tail(s + [x], n) == (if |s| < n then Tail(s, n) else Tail(s, n)[1..]) + [x]
  {
  }

  /** n is the greatest number in s, or 0 if there is none. */
  ghost predicate IsGreatest(s: seq<Message>, n: nat) {
    && (forall i :: 0 <= i < |s| ==> s[i].seqNo <= n)
    && (n > 0 ==> exists i :: 0 <= i < |s| && s[i].seqNo == n)
  }

  lemma {:induction false} MaxSeqIsGreatest(s: seq<Message>)
    ensures IsGreatest(s, MaxSeq(s))
  {
    if s != [] {
      var r, last := s[..|s| - 1], s[|s| - 1];
      MaxSeqIsGreatest(r);
      if MaxSeq(s) > 0 && last.seqNo <= MaxSeq(r) {
        var i :| 0 <= i < |r| && r[i].seqNo == MaxSeq(r);
        assert s[i] == r[i];
      }
    }
  }

  /** What is live at time now: nothing after a silence. */
  function LiveAt(log: seq<Batch>, ttl: int, now: int): seq<Message> {
    if Silence(log, ttl, now) then [] else Live(log, ttl)
  }

  lemma LatestIsGreatest(log: seq<Batch>, ttl: int, now: int)
    ensures IsGreatest(LiveAt(log, ttl, now), LatestSeq(log, ttl, now))
  {
    MaxSeqIsGreatest(Live(log, ttl));
  }

  lemma {:induction false} NewerMembers(s: seq<Message>, afterSeq: nat, m: Message)
    ensures m in Newer(s, afterSeq) <==> m in s && m.seqNo > afterSeq
    ensures |Newer(s, afterSeq)| <= |s|
  {
    if s != [] {
      NewerMembers(s[..|s| - 1], afterSeq, m);
      assert s == s[..|s| - 1] + [s[|s| - 1]];
    }
  }

  /** With room for everything held, a replay is exactly the held messages above afterSeq. */
  lemma ReplayComplete(held: seq<Message>, afterSeq: nat, limit: nat, out: seq<Message>, m: Message)
    requires IsReplay(held, afterSeq, limit, out) && |held| <= limit
    ensures m in out <==> m in held && m.seqNo > afterSeq
  {
    var full :| IsArrangement(full, Newer(held, afterSeq)) && out == Tail(full, limit);
    NewerMembers(held, afterSeq, m);
    assert |full| == |multiset(full)| == |multiset(Newer(held, afterSeq))| == |Newer(held, afterSeq)|;
    assert m in multiset(full) <==> m in multiset(Newer(held, afterSeq));
  }

  /** What a full replay leaves out is older than everything it holds. */
  lemma ReplayKeepsNewest(held: seq<Message>, afterSeq: nat, limit: nat, out: seq<Message>, m: Message, kept: Message)
    requires IsReplay(held, afterSeq, limit, out)
    requires m in held && m.seqNo > afterSeq && m !in out && kept in out
    ensures m.seqNo <= kept.seqNo && |out| == limit
  {
    var full :| IsArrangement(full, Newer(held, afterSeq)) && out == Tail(full, limit);
    NewerMembers(held, afterSeq, m);
    assert m in multiset(full);
    var i :| 0 <= i < |full| && full[i] == m;
    var j :| 0 <= j < |out| && out[j] == kept;
    assert |full| <= limit ==> full == out;
    assert forall k :: 0 <= |full| - limit <= k < |full| ==> full[k] == out[k - (|full| - limit)];
    assert full[|full| - limit + j] == kept;
  }

  lemma NothingToReplay(afterSeq: nat, limit: nat)
    ensures IsReplay([], afterSeq, limit, [])
  {
    assert IsArrangement([], Newer([], afterSeq));
    assert Tail<Message>([], limit) == [];
  }

  lemma TailOfEmpty(n: nat)
    ensures Tail<Message>([], n) == [] && MaxSeq([]) == 0
  {
  }

  /** Sorting what is newer and keeping the end of it makes a replay. */
  lemma ReplayTail(held: seq<Message>, afterSeq: nat, limit: nat, full: seq<Message>)
    requires IsArrangement(full, Newer(held, afterSeq))
    ensures IsReplay(held, afterSeq, limit, if |full| > limit then full[|full| - limit..] else full)
  {
    assert Tail(full, limit) == if |full| > limit then full[|full| - limit..] else full;
  }

  lemma SilenceLasts(ttl: int, now: int, later: int)
    requires now <= later
    ensures forall log :: Silence(log, ttl, now) ==> Silence(log, ttl, later)
    ensures Live([], ttl) == []
  {
  }

  lemma NothingRetained(log: seq<Batch>, ttl: int, max: nat, now: int)
    requires Live(log, ttl) == [] || Silence(log, ttl, now)
    ensures Retained(log, ttl, max, now) == [] && LatestSeq(log, ttl, now) == 0
  {
  }

  // ------------------------------------------------ which messages are retained

  /** Stamped messages appended after message i of batch k. */
  function After(log: seq<Batch>, k: nat, i: nat): nat
    requires k < |log| && i < |log[k].msgs|
  {
    |Stamped(log[k].msgs[i + 1..])| + |Flatten(log[k + 1..])|
  }

  /** From batch k up to time now the room was never silent for longer than the TTL. */
  ghost predicate Unbroken(log: seq<Batch>, k: nat, ttl: int, now: int) {
    forall j :: k <= j < |log| ==> NextAt(log, j, now) - log[j].at <= ttl
  }

  /** When the batch after batch j was appended, or now. */
  function NextAt(log: seq<Batch>, j: nat, now: int): int {
    if j + 1 < |log| then log[j + 1].at else now
  }

  lemma {:induction false} StampedConcat(a: seq<Message>, b: seq<Message>)
    ensures Stamped(a + b) == Stamped(a) + Stamped(b)
  {
    if b == [] {
      assert a + b == a;
    } else {
      assert (a + b)[..|a + b| - 1] == a + b[..|b| - 1];
      StampedConcat(a, b[..|b| - 1]);
    }
  }

  lemma {:induction false} FlattenConcat(a: seq<Batch>, b: seq<Batch>)
    ensures Flatten(a + b) == Flatten(a) + Flatten(b)
  {
    if b == [] {
      assert a + b == a;
    } else {
      var b0, last := b[..|b| - 1], b[|b| - 1];
      assert a + b == (a + b0) + [last] && b == b0 + [last];
      FlattenConcat(a, b0);
      FlattenSnoc(a + b0, last);
      FlattenSnoc(b0, last);
    }
  }

  /** The session that is still open reaches back to batch k exactly when nothing broke it since. */
  lemma {:induction false} SessionReachesBack(log: seq<Batch>, k: nat, ttl: int, now: int)
    requires k < |log|
    ensures SessionStart(log, ttl) <= k && !Silence(log, ttl, now) <==> Unbroken(log, k, ttl, now)
  {
    var before, b := log[..|log| - 1], log[|log| - 1];
    assert NextAt(log, |log| - 1, now) == now;
    forall j | 0 <= j < |before|
      ensures NextAt(log, j, now) - log[j].at == NextAt(before, j, b.at) - before[j].at
    {
    }
    if k < |log| - 1 {
      SessionReachesBack(before, k, ttl, b.at);
    }
  }

  /** The messages around message i of batch k. */
  lemma FlattenAround(log: seq<Batch>, start: nat, k: nat, i: nat)
    requires start <= k < |log| && i < |log[k].msgs| && log[k].msgs[i].seqNo != 0
    ensures Flatten(log[start..]) ==
            (Flatten(log[start..k]) + Stamped(log[k].msgs[..i])) + [log[k].msgs[i]] +
            (Stamped(log[k].msgs[i + 1..]) + Flatten(log[k + 1..]))
  {
    hide Flatten, Stamped;
    var msgs, m := log[k].msgs, log[k].msgs[i];
    assert log[start..] == log[start..k] + [log[k]] + log[k + 1..];
    FlattenConcat(log[start..k] + [log[k]], log[k + 1..]);
    FlattenSnoc(log[start..k], log[k]);
    assert msgs == msgs[..i] + [m] + msgs[i + 1..];
    StampedConcat(msgs[..i] + [m], msgs[i + 1..]);
    StampedSnoc(msgs[..i], m);
  }

  /** Message i of batch k has neither expired nor been pushed out at time now. */
  ghost predicate Held(log: seq<Batch>, ttl: int, max: nat, now: int, k: nat, i: nat)
    requires k < |log| && i < |log[k].msgs|
  {
    Unbroken(log, k, ttl, now) && After(log, k, i) < max
  }

  /** Where message i of batch k stands among all stamped messages. */
  function Position(log: seq<Batch>, k: nat, i: nat): nat
    requires k < |log| && i < |log[k].msgs|
  {
    |Flatten(log[..k])| + |Stamped(log[k].msgs[..i])|
  }

  lemma PlaceInAll(log: seq<Batch>, k: nat, i: nat)
    requires k < |log| && i < |log[k].msgs| && log[k].msgs[i].seqNo != 0
    ensures var all, pos := Flatten(log), Position(log, k, i);
            |all| == pos + 1 + After(log, k, i) && all[pos] == log[k].msgs[i]
  {
    hide Flatten, Stamped;
    FlattenAround(log, 0, k, i);
    assert log[0..] == log && log[0..k] == log[..k];
  }

  /** The session's messages are an end of all, long enough to hold message i of batch k exactly if
      the session began by then. */
  lemma LiveReachesBack(log: seq<Batch>, ttl: int, k: nat, i: nat)
    requires k < |log| && i < |log[k].msgs| && log[k].msgs[i].seqNo != 0
    ensures var all, live := Flatten(log), Live(log, ttl);
            && |live| <= |all| && live == all[|all| - |live|..]
            && (SessionStart(log, ttl) <= k <==> |live| > After(log, k, i))
  {
    hide Flatten, Stamped, SessionStart;
    var start := SessionStart(log, ttl);
    assert log == log[..start] + log[start..];
    FlattenConcat(log[..start], log[start..]);
    if start <= k {
      FlattenAround(log, start, k, i);
    } else {
      assert log[k + 1..] == log[k + 1..start] + log[start..];
      FlattenConcat(log[k + 1..start], log[start..]);
    }
  }

  /** What is retained is an end of all stamped messages, and it reaches back to a message exactly
      when the room has not been silent since and fewer than `max` stamped messages came after it. */
  lemma RetainedExactly(log: seq<Batch>, ttl: int, max: nat, now: int, k: nat, i: nat)
    requires k < |log| && i < |log[k].msgs| && log[k].msgs[i].seqNo != 0
    ensures var all, kept, pos := Flatten(log), Retained(log, ttl, max, now), Position(log, k, i);
            && pos < |all| && all[pos] == log[k].msgs[i]
            && |kept| <= |all| && kept == all[|all| - |kept|..]
            && (|all| - |kept| <= pos <==> Held(log, ttl, max, now, k, i))
  {
    hide Flatten, Stamped, Live, SessionStart, Silence, Unbroken, After, Position;
    SessionReachesBack(log, k, ttl, now);
    PlaceInAll(log, k, i);
    LiveReachesBack(log, ttl, k, i);
    var all, live := Flatten(log), Live(log, ttl);
    if !Silence(log, ttl, now) && |live| > max {
      assert live[|live| - max..] == all[|all| - max..];
    }
  }

  /** So a message that was sent once is retained exactly while it is held. */
  lemma RetainedOnce(log: seq<Batch>, ttl: int, max: nat, now: int, k: nat, i: nat)
    requires k < |log| && i < |log[k].msgs| && log[k].msgs[i].seqNo != 0
    requires SentOnce(log, k, i)
    ensures log[k].msgs[i] in Retained(log, ttl, max, now) <==> Held(log, ttl, max, now, k, i)
  {
    hide Flatten, Stamped, Retained, Held, Position;
    RetainedExactly(log, ttl, max, now, k, i);
    var all, kept, pos := Flatten(log), Retained(log, ttl, max, now), Position(log, k, i);
    if log[k].msgs[i] in kept {
      var j :| 0 <= j < |kept| && kept[j] == log[k].msgs[i];
      assert all[|all| - |kept| + j] == log[k].msgs[i];
    }
    if |all| - |kept| <= pos {
      assert kept[pos - (|all| - |kept|)] == all[pos];
    }
  }

  /** Nothing else in the log equals message i of batch k. */
  ghost predicate SentOnce(log: seq<Batch>, k: nat, i: nat)
    requires k < |log| && i < |log[k].msgs|
  {
    forall j :: 0 <= j < |Flatten(log)| && Flatten(log)[j] == log[k].msgs[i] ==> j == Position(log, k, i)
  }

  lemma RetainedIf(log: seq<Batch>, ttl: int, max: nat, now: int, k: nat, i: nat)
    requires k < |log| && i < |log[k].msgs| && log[k].msgs[i].seqNo != 0
    requires Held(log, ttl, max, now, k, i)
    ensures log[k].msgs[i] in Retained(log, ttl, max, now)
  {
    hide Flatten, Stamped, Retained, Held, Position;
    RetainedExactly(log, ttl, max, now, k, i);
    var all, kept := Flatten(log), Retained(log, ttl, max, now);
    assert kept[Position(log, k, i) - (|all| - |kept|)] == log[k].msgs[i];
  }
}
