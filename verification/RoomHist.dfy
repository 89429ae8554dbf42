/** The hot history of rooms: a ring buffer per room, overwritten in place and reset lazily. */
module RoomHist {
  import opened HotHistory

  datatype HistEntry = HistEntry(seqNo: nat, msg: Message)

  /** Position i of a ring of the given size, for i less than two turns. */
  function Wrap(i: nat, size: nat): (k: nat)
    requires size > 0
    ensures k < size
    ensures i < size ==> k == i
    ensures size <= i < 2 * size ==> k == i - size
  {
    i % size
  }

  /** The messages in logical order, oldest first. */
  ghost function RingOf(entries: seq<HistEntry>, head: nat, count: nat, max: nat): (r: seq<Message>)
    requires head < max && count <= |entries| <= max && (count < max ==> head == 0)
    ensures |r| == count
  {
    seq(count, i requires 0 <= i < count => entries[Wrap(head + i, max)].msg)
  }

  lemma RingGrows(entries: seq<HistEntry>, count: nat, max: nat, e: HistEntry, entries': seq<HistEntry>)
    requires count < max && count <= |entries| <= max
    requires entries' == if count == |entries| then entries + [e] else entries[count := e]
    ensures RingOf(entries', 0, count + 1, max) == RingOf(entries, 0, count, max) + [e.msg]
  {
    forall i | 0 <= i < count + 1
      ensures RingOf(entries', 0, count + 1, max)[i] == (RingOf(entries, 0, count, max) + [e.msg])[i]
    {
      assert Wrap(0 + i, max) == i;
    }
  }

  lemma RingTurns(entries: seq<HistEntry>, head: nat, max: nat, e: HistEntry)
    requires head < max == |entries|
    ensures RingOf(entries[head := e], Wrap(head + 1, max), max, max) ==
            RingOf(entries, head, max, max)[1..] + [e.msg]
  {
    var r, r' := RingOf(entries, head, max, max), RingOf(entries[head := e], Wrap(head + 1, max), max, max);
    forall i | 0 <= i < max
      ensures r'[i] == (r[1..] + [e.msg])[i]
    {
      var k := Wrap(Wrap(head + 1, max) + i, max);
      if i < max - 1 {
        assert k == Wrap(head + (i + 1), max) != head;
      } else {
        assert k == head;
      }
    }
  }

  class HistRoom {
    var entries: seq<HistEntry>
    var head: nat
    var count: nat
    var lastSeq: nat
    var lastAt: int
    ghost var live: seq<Message>   // stamped messages since the last reset
    ghost var log: seq<Batch>      // every append to the room
    ghost var clock: int           // latest time any operation was told

    ghost predicate Slots(max: nat)
      reads `entries, `head, `count
    {
      && max > 0 && head < max && count <= |entries| <= max && (count < max ==> head == 0)
      && forall i :: 0 <= i < |entries| ==> entries[i].seqNo == entries[i].msg.seqNo
    }

    ghost predicate Buffer(max: nat)
      reads `entries, `head, `count, `lastSeq, `live
    {
      && Slots(max)
      && count == (if |live| < max then |live| else max)
      && RingOf(entries, head, count, max) == Tail(live, max)
      && lastSeq == MaxSeq(live)
    }

    /** The buffer follows the log; after a silence it may already have been reset. */
    ghost predicate Follows(ttl: int)
      reads this
    {
      && (live == Live(log, ttl) || (live == [] && Silence(log, ttl, clock)))
      && (live != [] ==> log != [] && lastAt == log[|log| - 1].at)
    }

    ghost predicate Valid(max: nat, ttl: int)
      reads this
    {
      Buffer(max) && Follows(ttl)
    }

    constructor (ghost max: nat, ghost ttl: int, ghost log: seq<Batch>, ghost clock: int)
      requires max > 0 && (Live(log, ttl) == [] || Silence(log, ttl, clock))
      ensures Valid(max, ttl) && this.log == log && this.clock == clock
    {
      entries, head, count, lastSeq, lastAt := [], 0, 0, 0, 0;
      live, this.log, this.clock := [], log, clock;
    }

    method Reset(ghost max: nat)
      requires Buffer(max)
      modifies this
      ensures Buffer(max) && live == [] && log == old(log) && clock == old(clock) && lastAt == old(lastAt)
    {
      head, count, lastSeq := 0, 0, 0;
      live := [];
    }

    /** Stores one message: in the next free slot while the ring is not full, else over the oldest. */
    method Put(max: nat, m: Message)
      requires Buffer(max)
      modifies this
      ensures Buffer(max) && live == old(live) + [m]
      ensures log == old(log) && clock == old(clock) && lastAt == old(lastAt)
    {
      hide RingOf, Tail, MaxSeq;
      MaxSeqSnoc(live, m);
      TailSnoc(live, m, max);
      if count < max {
        PutFree(max, m);
      } else {
        PutOver(max, m);
      }
      live := live + [m];
      if m.seqNo > lastSeq {
        lastSeq := m.seqNo;
      }
    }

    method PutFree(max: nat, m: Message)
      requires Slots(max) && count < max
      modifies `entries, `count
      ensures Slots(max) && count == old(count) + 1
      ensures RingOf(entries, head, count, max) == old(RingOf(entries, head, count, max)) + [m]
    {
      var e := HistEntry(m.seqNo, m);
      ghost var entries0 := entries;
      if count == |entries| {
        entries := entries + [e];
      } else {
        entries := entries[count := e];
      }
      RingGrows(entries0, count, max, e, entries);
      count := count + 1;
    }

    method PutOver(max: nat, m: Message)
      requires Slots(max) && count == max
      modifies `entries, `head
      ensures Slots(max) && count == max
      ensures RingOf(entries, head, count, max) == old(RingOf(entries, head, count, max))[1..] + [m]
    {
      var e := HistEntry(m.seqNo, m);
      RingTurns(entries, head, max, e);
      entries := entries[head := e];
      head := Wrap(head + 1, max);
    }

    method PutStamped(max: nat, msgs: seq<Message>)
      requires Buffer(max)
      modifies this
      ensures Buffer(max) && live == old(live) + Stamped(msgs)
      ensures log == old(log) && clock == old(clock) && lastAt == old(lastAt)
    {
      hide Buffer;
      for i := 0 to |msgs|
        invariant Buffer(max) && live == old(live) + Stamped(msgs[..i])
        invariant log == old(log) && clock == old(clock) && lastAt == old(lastAt)
      {
        assert msgs[..i + 1] == msgs[..i] + [msgs[i]];
        StampedSnoc(msgs[..i], msgs[i]);
        if msgs[i].seqNo != 0 {
          Put(max, msgs[i]);
        }
      }
      assert msgs[..|msgs|] == msgs;
    }

    /** The sweep's treatment of one room; true when nothing is left to keep. */
    method ExpireAndTest(ghost max: nat, ttl: int, now: int) returns (empty: bool)
      requires Valid(max, ttl) && clock <= now
      modifies this
      ensures Valid(max, ttl) && clock == now && log == old(log)
      ensures empty <==> Retained(log, ttl, max, now) == []
      ensures empty ==> Live(log, ttl) == [] || Silence(log, ttl, now)
    {
      clock := now;
      if count > 0 && now - lastAt > ttl {
        Reset(max);
      }
      empty := count == 0;
    }

    method Expired(ghost max: nat, ttl: int, now: int) returns (b: bool)
      requires Buffer(max)
      ensures b <==> live != [] && now - lastAt > ttl
    {
      b := count > 0 && now - lastAt > ttl;
    }

    /** Drops a session that has been silent too long; afterwards the ring holds what time now calls for. */
    method Expire(max: nat, ttl: int, now: int)
      requires Valid(max, ttl) && clock <= now
      modifies this
      ensures Buffer(max) && log == old(log) && clock == old(clock)
      ensures live == if Silence(log, ttl, now) then [] else Live(log, ttl)
    {
      hide Buffer, Live, MaxSeq, Tail;
      var expired := Expired(max, ttl, now);
      if expired {
        Reset(max);
      }
    }

    /** Appends a batch at time now, after dropping a session that has been silent too long. */
    method AppendBatch(max: nat, ttl: int, msgs: seq<Message>, now: int)
      requires Valid(max, ttl) && clock <= now
      modifies this
      ensures Valid(max, ttl) && clock == now
      ensures log == old(log) + [Batch(now, msgs)]
    {
      hide Buffer, Live, Stamped, Silence;
      Expire(max, ttl, now);
      LiveSnoc(log, ttl, Batch(now, msgs));
      PutStamped(max, msgs);
      lastAt := now;
      log, clock := log + [Batch(now, msgs)], now;
    }

    /** Returns the retained messages above afterSeq in ascending order, at most `limit` of them
        (the newest), and the latest sequence number. */
    method ReplayFrom(max: nat, ttl: int, afterSeq: nat, limit: nat, now: int)
      returns (out: seq<Message>, latest: nat)
      requires Valid(max, ttl) && clock <= now
      modifies this
      ensures Valid(max, ttl) && clock == now && log == old(log)
      ensures IsReplay(Retained(log, ttl, max, now), afterSeq, limit, out)
      ensures latest == LatestSeq(log, ttl, now)
    {
      hide Buffer, Live, MaxSeq, Tail;
      clock := now;
      NothingToReplay(afterSeq, limit);
      TailOfEmpty(max);
      var expired := Expired(max, ttl, now);
      if expired {
        Reset(max);
        return [], 0;
      }
      out := Select(max, afterSeq, limit);
      latest := LastSeq(max);
    }

    method LastSeq(ghost max: nat) returns (n: nat)
      requires Buffer(max)
      ensures n == MaxSeq(live)
    {
      n := lastSeq;
    }

    method Select(max: nat, afterSeq: nat, limit: nat) returns (out: seq<Message>)
      requires Buffer(max)
      ensures IsReplay(Tail(live, max), afterSeq, limit, out)
    {
      hide RingOf, MaxSeq, Tail, Newer;
      out := Collect(max, afterSeq);
      out := SortBySeq(out);
      ReplayTail(Tail(live, max), afterSeq, limit, out);
      if |out| > limit {
        out := out[|out| - limit..];
      }
    }

    method Collect(max: nat, afterSeq: nat) returns (out: seq<Message>)
      requires Slots(max)
      ensures out == Newer(RingOf(entries, head, count, max), afterSeq)
    {
      hide Newer, Wrap;
      ghost var held := RingOf(entries, head, count, max);
      NewerNone(afterSeq);
      out := [];
      for i := 0 to count
        invariant out == Newer(held[..i], afterSeq)
      {
        assert held[..i + 1] == held[..i] + [held[i]];
        NewerSnoc(held[..i], afterSeq, held[i]);
        var e := entries[Wrap(head + i, max)];
        if e.seqNo > afterSeq {
          out := out + [e.msg];
        }
      }
      assert held[..|held|] == held;
    }
  }

  function LogOf(logs: map<string, seq<Batch>>, roomID: string): seq<Batch> {
    if roomID in logs then logs[roomID] else []
  }

  /** A room may be missing only when it has nothing left to show. */
  ghost predicate Forgotten(log: seq<Batch>, ttl: int, now: int) {
    Live(log, ttl) == [] || Silence(log, ttl, now)
  }

  lemma ForgottenLasts(ttl: int, now: int, later: int)
    requires now <= later
    ensures forall log :: Forgotten(log, ttl, now) ==> Forgotten(log, ttl, later)
  {
    SilenceLasts(ttl, now, later);
  }

  /** The hot histories of all rooms. `logs` records the appends to each room since it was last
      cleared: no lazy reset, replay or sweep shows in it. */
  class RoomHist {
    const max: nat
    const ttl: int
    var rooms: map<string, HistRoom>
    ghost var logs: map<string, seq<Batch>>
    ghost var clock: int

    ghost predicate Valid()
      reads this, rooms.Values
    {
      && max > 0
      && (forall r, s :: r in rooms && s in rooms && r != s ==> rooms[r] != rooms[s])
      && (forall r :: r in rooms ==> RoomOk(r, rooms[r]))
      && (forall r :: r in logs && r !in rooms ==> Forgotten(logs[r], ttl, clock))
    }

    ghost predicate RoomOk(r: string, room: HistRoom)
      reads `logs, `clock, room
    {
      room.Valid(max, ttl) && r in logs && room.log == logs[r] && room.clock <= clock
    }

    constructor (max: int, ttl: int, ghost clock: int)
      ensures Valid() && rooms == map[] && logs == map[] && this.clock == clock
      ensures this.max == (if max <= 0 then 100 else max) && this.ttl == (if ttl <= 0 then 300 else ttl)
    {
      this.max := if max <= 0 then 100 else max;
      this.ttl := if ttl <= 0 then 300 else ttl;
      rooms, logs, this.clock := map[], map[], clock;
    }

    method GetOrCreate(roomID: string) returns (r: HistRoom)
      requires Valid()
      modifies this
      ensures Valid() && clock == old(clock)
      ensures roomID in rooms && rooms[roomID] == r && fresh(rooms.Values - old(rooms.Values))
      ensures logs == old(logs)[roomID := LogOf(old(logs), roomID)]
    {
      hide Live, Silence, HistRoom.Valid;
      SilenceLasts(ttl, clock, clock);
      if roomID in rooms {
        return rooms[roomID];
      }
      r := new HistRoom(max, ttl, LogOf(logs, roomID), clock);
      rooms := rooms[roomID := r];
      logs := logs[roomID := r.log];
    }

    method AppendBatch(roomID: string, msgs: seq<Message>, now: int)
      requires Valid() && clock <= now
      modifies this, rooms.Values
      ensures Valid() && clock == now && fresh(rooms.Values - old(rooms.Values))
      ensures logs == old(logs)[roomID := LogOf(old(logs), roomID) + [Batch(now, msgs)]]
    {
      hide Live, Silence, HistRoom.Valid;
      SilenceLasts(ttl, clock, now);
      var r := GetOrCreate(roomID);
      AppendTo(roomID, r, msgs, now);
    }

    method AppendTo(roomID: string, r: HistRoom, msgs: seq<Message>, now: int)
      requires Valid() && clock <= now && roomID in rooms && rooms[roomID] == r
      modifies `logs, `clock, r
      ensures Valid() && clock == now
      ensures logs == old(logs)[roomID := old(logs[roomID]) + [Batch(now, msgs)]]
    {
      hide Live, Silence, Forgotten, HistRoom.Valid;
      ForgottenLasts(ttl, clock, now);
      assert RoomOk(roomID, r);
      r.AppendBatch(max, ttl, msgs, now);
      logs := logs[roomID := r.log];
      clock := now;
    }

    /** What comes back depends on the appends and the time alone. */
    method ReplayFrom(roomID: string, afterSeq: nat, limit: int, now: int)
      returns (out: seq<Message>, latest: nat)
      requires Valid() && clock <= now
      modifies this, rooms.Values
      ensures Valid() && clock == now && rooms == old(rooms) && logs == old(logs)
      ensures IsReplay(Retained(LogOf(logs, roomID), ttl, max, now), afterSeq, if limit <= 0 then max else limit, out)
      ensures latest == LatestSeq(LogOf(logs, roomID), ttl, now)
      ensures IsGreatest(LiveAt(LogOf(logs, roomID), ttl, now), latest)
    {
      hide Live, Silence, Retained, LatestSeq, IsReplay, IsGreatest, LiveAt, HistRoom.Valid;
      LatestIsGreatest(LogOf(logs, roomID), ttl, now);
      SilenceLasts(ttl, clock, now);
      clock := now;
      if roomID !in rooms {
        NothingToReplay(afterSeq, if limit <= 0 then max else limit);
        NothingRetained(LogOf(logs, roomID), ttl, max, now);
        return [], 0;
      }
      out, latest := rooms[roomID].ReplayFrom(max, ttl, afterSeq, if limit <= 0 then max else limit, now);
    }

    /** Closing a room forgets its history. */
    method Clear(roomID: string)
      requires Valid()
      modifies this
      ensures Valid() && clock == old(clock)
      ensures logs == old(logs) - {roomID} && rooms == old(rooms) - {roomID}
    {
      hide Live, Silence, HistRoom.Valid;
      rooms := rooms - {roomID};
      logs := logs - {roomID};
    }

    /** One tick of the sweep: rooms silent for longer than the TTL go, and nothing else changes. */
    method Sweep(now: int)
      requires Valid() && clock <= now
      modifies `rooms, `clock, rooms.Values
      ensures Valid() && clock == now && logs == old(logs)
      ensures forall r :: r in rooms ==>
                            r in old(rooms) && rooms[r] == old(rooms)[r] && Retained(logs[r], ttl, max, now) != []
    {
      hide Live, Silence, Retained, HistRoom.Valid, LogOf;
      SilenceLasts(ttl, clock, now);
      clock := now;
      var todo := rooms.Keys;
      while todo != {}
        invariant Valid() && clock == now && logs == old(logs)
        invariant rooms.Values <= old(rooms.Values)
        invariant todo <= rooms.Keys
        invariant forall r :: r in rooms ==> r in old(rooms) && rooms[r] == old(rooms)[r]
        invariant forall r :: r in rooms && r !in todo ==> Retained(logs[r], ttl, max, now) != []
      {
        var id :| id in todo;
        SweepRoom(id, now);
        todo := todo - {id};
      }
    }

    method SweepRoom(id: string, now: int)
      requires Valid() && clock == now && id in rooms
      modifies `rooms, rooms[id]
      ensures Valid()
      ensures rooms == (if id in rooms then old(rooms) else old(rooms) - {id})
      ensures id in rooms ==> Retained(logs[id], ttl, max, clock) != []
    {
      hide Live, Silence, Retained, HistRoom.Valid;
      var empty := rooms[id].ExpireAndTest(max, ttl, now);
      if empty {
        rooms := rooms - {id};
      }
    }
  }

  /** Stands for the library sort: ascending, same messages, nothing said about ties. */
  method SortBySeq(s: seq<Message>) returns (r: seq<Message>)
    ensures Ascending(r) && multiset(r) == multiset(s)
  {
    r := [];
    for i := 0 to |s|
      invariant Ascending(r) && multiset(r) == multiset(s[..i])
    {
      assert s[..i + 1] == s[..i] + [s[i]];
      r := Insert(r, s[i]);
    }
    assert s[..|s|] == s;
  }

  method Insert(s: seq<Message>, m: Message) returns (r: seq<Message>)
    requires Ascending(s)
    ensures Ascending(r) && multiset(r) == multiset(s) + multiset{m}
  {
    var k := 0;
    while k < |s| && s[k].seqNo <= m.seqNo
      invariant k <= |s| && forall j :: 0 <= j < k ==> s[j].seqNo <= m.seqNo
    {
      k := k + 1;
    }
    r := s[..k] + [m] + s[k..];
    InsertedAscends(s, m, k);
    InsertedKeeps(s[..k], m, s[k..]);
    assert s == s[..k] + s[k..];
  }

  lemma InsertedAscends(s: seq<Message>, m: Message, k: nat)
    requires Ascending(s) && k <= |s|
    requires forall j :: 0 <= j < k ==> s[j].seqNo <= m.seqNo
    requires k < |s| ==> m.seqNo < s[k].seqNo
    ensures Ascending(s[..k] + [m] + s[k..])
  {
    var r := s[..k] + [m] + s[k..];
    forall i | 0 <= i < |r|
      ensures i < k ==> r[i] == s[i]
      ensures i == k ==> r[i] == m
      ensures i > k ==> r[i] == s[i - 1]
    {
    }
    forall i, j | 0 <= i < j < |r|
      ensures r[i].seqNo <= r[j].seqNo
    {
    }
  }

  lemma InsertedKeeps(a: seq<Message>, m: Message, b: seq<Message>)
    ensures multiset(a + [m] + b) == multiset(a + b) + multiset{m}
  {
  }
}
