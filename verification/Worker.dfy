/** The batching worker of the monolith and the room counters it draws numbers from. */
module Worker {
  import opened HotHistory

  /** What a flush does to the outside, in the order it happens. */
  datatype Event =
    | Recorded(room: string, msgs: seq<Message>)               // appended to the hot history
    | Sent(room: string, msgs: seq<Message>, high: bool)       // one broadcast

  function Counter(seqs: map<string, nat>, room: string): nat {
    if room in seqs then seqs[room] else 0
  }

  function InRoom(msgs: seq<Message>, room: string): seq<Message> {
    if msgs == [] then []
    else InRoom(msgs[..|msgs| - 1], room) + if msgs[|msgs| - 1].room == room then [msgs[|msgs| - 1]] else []
  }

  /** The batch with every message numbered: one more than the counter of its room and the
      messages of the same room before it. */
  function Numbered(batch: seq<Message>, seqs: map<string, nat>): (r: seq<Message>)
    ensures |r| == |batch|
  {
    if batch == [] then []
    else
      var before, m := batch[..|batch| - 1], batch[|batch| - 1];
      Numbered(before, seqs) + [m.(seqNo := Counter(seqs, m.room) + |InRoom(before, m.room)| + 1)]
  }

  function StampFrom(msgs: seq<Message>, base: nat): (r: seq<Message>)
    ensures |r| == |msgs|
    ensures forall i :: 0 <= i < |msgs| ==> r[i] == msgs[i].(seqNo := base + i + 1)
  {
    seq(|msgs|, i requires 0 <= i < |msgs| => msgs[i].(seqNo := base + i + 1))
  }

  function RoomEvents(room: string, msgs: seq<Message>): seq<Event> {
    [Recorded(room, msgs)] +
    (if Normal(msgs) == [] then [] else [Sent(room, Normal(msgs), false)]) +
    (if High(msgs) == [] then [] else [Sent(room, High(msgs), true)])
  }

  function EventsOf(rooms: seq<string>, msgs: seq<Message>): seq<Event> {
    if rooms == [] then []
    else EventsOf(rooms[..|rooms| - 1], msgs) + RoomEvents(rooms[|rooms| - 1], InRoom(msgs, rooms[|rooms| - 1]))
  }

  /** The rooms of a batch, each once, in some order. */
  ghost predicate RoomsOf(rooms: seq<string>, batch: seq<Message>) {
    && (forall i, j :: 0 <= i < j < |rooms| ==> rooms[i] != rooms[j])
    && (forall r :: r in rooms <==> InRoom(batch, r) != [])
  }

  lemma InRoomSnoc(msgs: seq<Message>, m: Message, room: string)
    ensures InRoom(msgs + [m], room) == InRoom(msgs, room) + if m.room == room then [m] else []
  {
    assert (msgs + [m])[..|msgs|] == msgs;
  }

  lemma NumberedSnoc(batch: seq<Message>, m: Message, seqs: map<string, nat>)
    ensures Numbered(batch + [m], seqs) ==
            Numbered(batch, seqs) + [m.(seqNo := Counter(seqs, m.room) + |InRoom(batch, m.room)| + 1)]
  {
    assert (batch + [m])[..|batch|] == batch;
  }

  lemma StampSnoc(msgs: seq<Message>, m: Message, base: nat)
    ensures StampFrom(msgs + [m], base) == StampFrom(msgs, base) + [m.(seqNo := base + |msgs| + 1)]
    ensures StampFrom([], base) == []
  {
  }

  lemma Nothing(seqs: map<string, nat>, room: string)
    ensures InRoom([], room) == [] && Numbered([], seqs) == [] && Normal([]) == [] && High([]) == []
    ensures StampFrom([], Counter(seqs, room)) == []
  {
  }

  /** Numbering the whole batch and numbering each room's share give the same messages. */
  lemma {:induction false} NumberedInRoom(batch: seq<Message>, seqs: map<string, nat>, room: string)
    ensures InRoom(Numbered(batch, seqs), room) == StampFrom(InRoom(batch, room), Counter(seqs, room))
  {
    hide InRoom, Numbered, StampFrom, Counter;
    Nothing(seqs, room);
    if batch != [] {
      var before, m := batch[..|batch| - 1], batch[|batch| - 1];
      NumberedInRoom(before, seqs, room);
      assert batch == before + [m];
      InRoomSnoc(before, m, room);
      NumberedSnoc(before, m, seqs);
      InRoomSnoc(Numbered(before, seqs), m.(seqNo := Counter(seqs, m.room) + |InRoom(before, m.room)| + 1), room);
      StampSnoc(InRoom(before, room), m, Counter(seqs, room));
    }
  }

  lemma EventsSnoc(rooms: seq<string>, room: string, msgs: seq<Message>)
    ensures EventsOf(rooms + [room], msgs) == EventsOf(rooms, msgs) + RoomEvents(room, InRoom(msgs, room))
  {
    assert (rooms + [room])[..|rooms|] == rooms;
  }

  lemma EventsNone(msgs: seq<Message>)
    ensures EventsOf([], msgs) == [] && SentMessages([]) == []
  {
  }

  lemma EmptyBatch(batch: seq<Message>, seqs: map<string, nat>)
    ensures EventsOf([], Numbered(batch, seqs)) == []
    ensures batch == [] ==> forall r :: InRoom(batch, r) == []
  {
  }

  // ------------------------------------------------ what a flush amounts to

  /** A message's number is its room's counter plus its rank among the room's messages of the batch. */
  lemma {:induction false} NumberedAt(batch: seq<Message>, seqs: map<string, nat>, i: nat)
    requires i < |batch|
    ensures Numbered(batch, seqs)[i] ==
            batch[i].(seqNo := Counter(seqs, batch[i].room) + |InRoom(batch[..i], batch[i].room)| + 1)
  {
    var before := batch[..|batch| - 1];
    if i < |before| {
      NumberedAt(before, seqs, i);
      assert before[..i] == batch[..i];
    }
  }

  lemma {:induction false} InRoomGrows(msgs: seq<Message>, room: string, i: nat, j: nat)
    requires i <= j <= |msgs|
    ensures |InRoom(msgs[..i], room)| <= |InRoom(msgs[..j], room)|
    ensures i < j && msgs[i].room == room ==> |InRoom(msgs[..i], room)| < |InRoom(msgs[..j], room)|
    decreases j - i
  {
    if i < j {
      InRoomGrows(msgs, room, i, j - 1);
      assert msgs[..j][..j - 1] == msgs[..j - 1];
    }
  }

  /** Within a room the numbers of a batch rise strictly in batch order and start above the counter. */
  lemma NumbersRiseInRoom(batch: seq<Message>, seqs: map<string, nat>, i: nat, j: nat)
    requires i < j < |batch| && batch[i].room == batch[j].room
    ensures Counter(seqs, batch[i].room) < Numbered(batch, seqs)[i].seqNo < Numbered(batch, seqs)[j].seqNo
  {
    NumberedAt(batch, seqs, i);
    NumberedAt(batch, seqs, j);
    InRoomGrows(batch, batch[i].room, i, j);
  }

  /** All broadcast messages, in order. */
  function SentMessages(events: seq<Event>): seq<Message> {
    if events == [] then []
    else
      var e := events[|events| - 1];
      SentMessages(events[..|events| - 1]) + if e.Sent? then e.msgs else []
  }

  lemma {:induction false} SentConcat(a: seq<Event>, b: seq<Event>)
    ensures SentMessages(a + b) == SentMessages(a) + SentMessages(b)
  {
    if b == [] {
      assert a + b == a;
    } else {
      assert (a + b)[..|a + b| - 1] == a + b[..|b| - 1];
      SentConcat(a, b[..|b| - 1]);
    }
  }

  lemma {:induction false} InRoomCounts(msgs: seq<Message>, room: string, m: Message)
    ensures multiset(InRoom(msgs, room))[m] == if m.room == room then multiset(msgs)[m] else 0
  {
    if msgs != [] {
      var before, last := msgs[..|msgs| - 1], msgs[|msgs| - 1];
      InRoomCounts(before, room, m);
      assert msgs == before + [last];
    }
  }

  lemma RoomEventsSend(room: string, msgs: seq<Message>)
    ensures multiset(SentMessages(RoomEvents(room, msgs))) == multiset(msgs)
  {
    var normal := if Normal(msgs) == [] then [] else [Sent(room, Normal(msgs), false)];
    var high := if High(msgs) == [] then [] else [Sent(room, High(msgs), true)];
    SentConcat([Recorded(room, msgs)] + normal, high);
    SentConcat([Recorded(room, msgs)], normal);
    SentOne(Recorded(room, msgs));
    SentOne(Sent(room, Normal(msgs), false));
    SentOne(Sent(room, High(msgs), true));
    SplitCovers(msgs);
    assert RoomEvents(room, msgs) == [Recorded(room, msgs)] + normal + high;
  }

  lemma SentOne(e: Event)
    ensures SentMessages([e]) == if e.Sent? then e.msgs else []
    ensures SentMessages([]) == []
  {
    assert [e][..0] == [];
  }

  lemma {:induction false} EventsCount(rooms: seq<string>, msgs: seq<Message>, m: Message)
    requires forall i, j :: 0 <= i < j < |rooms| ==> rooms[i] != rooms[j]
    ensures multiset(SentMessages(EventsOf(rooms, msgs)))[m] == if m.room in rooms then multiset(msgs)[m] else 0
  {
    hide SentMessages, EventsOf, RoomEvents, InRoom;
    EventsNone(msgs);
    if rooms != [] {
      var before, r := rooms[..|rooms| - 1], rooms[|rooms| - 1];
      EventsCount(before, msgs, m);
      assert rooms == before + [r];
      EventsSnoc(before, r, msgs);
      SentConcat(EventsOf(before, msgs), RoomEvents(r, InRoom(msgs, r)));
      RoomEventsSend(r, InRoom(msgs, r));
      InRoomCounts(msgs, r, m);
    }
  }

  /** Every message of the batch is broadcast exactly once. */
  lemma SentExactlyOnce(rooms: seq<string>, batch: seq<Message>, seqs: map<string, nat>)
    requires RoomsOf(rooms, batch)
    ensures multiset(SentMessages(EventsOf(rooms, Numbered(batch, seqs)))) == multiset(Numbered(batch, seqs))
  {
    var numbered := Numbered(batch, seqs);
    forall m
      ensures multiset(SentMessages(EventsOf(rooms, numbered)))[m] == multiset(numbered)[m]
    {
      EventsCount(rooms, numbered, m);
      if m in numbered {
        NumberedInRoom(batch, seqs, m.room);
        InRoomCounts(numbered, m.room, m);
        assert m in multiset(InRoom(numbered, m.room));
      }
    }
  }

  /** The messages of one room and one priority class, in batch order. */
  function Share(msgs: seq<Message>, room: string, high: bool): seq<Message> {
    if msgs == [] then []
    else
      var m := msgs[|msgs| - 1];
      Share(msgs[..|msgs| - 1], room, high) + if m.room == room && (m.priority > 0) == high then [m] else []
  }

  lemma ShareSnoc(msgs: seq<Message>, m: Message, room: string)
    ensures Share(msgs + [m], room, true) ==
            Share(msgs, room, true) + if m.room == room && m.priority > 0 then [m] else []
    ensures Share(msgs + [m], room, false) ==
            Share(msgs, room, false) + if m.room == room && m.priority <= 0 then [m] else []
    ensures Share([], room, true) == Share([], room, false) == []
  {
    assert (msgs + [m])[..|msgs|] == msgs;
  }

  lemma {:induction false} ShareIsSplit(msgs: seq<Message>, room: string)
    ensures Normal(InRoom(msgs, room)) == Share(msgs, room, false)
    ensures High(InRoom(msgs, room)) == Share(msgs, room, true)
  {
    hide InRoom, Normal, High, Share;
    Nothing(map[], room);
    ShareSnoc([], Message(room, 0, 0, 0), room);
    if msgs != [] {
      var before, m := msgs[..|msgs| - 1], msgs[|msgs| - 1];
      assert msgs == before + [m];
      ShareIsSplit(before, room);
      ShareSnoc(before, m, room);
      InRoomSnoc(before, m, room);
      SplitSnoc(InRoom(before, room), m);
      assert InRoom(before, room) + [] == InRoom(before, room);
    }
  }

  /** A broadcast carries exactly its room's messages of its class, in batch order, and comes after
      the whole share of the room was put in the hot history. */
  lemma {:induction false} RecordedBeforeSent(rooms: seq<string>, msgs: seq<Message>, e: nat)
    requires e < |EventsOf(rooms, msgs)| && EventsOf(rooms, msgs)[e].Sent?
    ensures var sent := EventsOf(rooms, msgs)[e];
            && sent.msgs == Share(msgs, sent.room, sent.high) != []
            && exists d :: 0 <= d < e && EventsOf(rooms, msgs)[d] == Recorded(sent.room, InRoom(msgs, sent.room))
  {
    var before, r := rooms[..|rooms| - 1], rooms[|rooms| - 1];
    var events := EventsOf(before, msgs);
    ShareIsSplit(msgs, r);
    if e < |events| {
      RecordedBeforeSent(before, msgs, e);
      var d :| 0 <= d < e && events[d] == Recorded(events[e].room, InRoom(msgs, events[e].room));
      assert EventsOf(rooms, msgs)[d] == events[d];
    } else {
      assert EventsOf(rooms, msgs)[|events|] == Recorded(r, InRoom(msgs, r));
    }
  }

  /** Of the two broadcasts to a room the normal one comes first. */
  lemma {:induction false} NormalBeforeHigh(rooms: seq<string>, msgs: seq<Message>, d: nat, e: nat)
    requires forall i, j :: 0 <= i < j < |rooms| ==> rooms[i] != rooms[j]
    requires d < e < |EventsOf(rooms, msgs)|
    requires EventsOf(rooms, msgs)[d].Sent? && EventsOf(rooms, msgs)[e].Sent?
    requires EventsOf(rooms, msgs)[d].room == EventsOf(rooms, msgs)[e].room
    ensures !EventsOf(rooms, msgs)[d].high && EventsOf(rooms, msgs)[e].high
  {
    var before, r := rooms[..|rooms| - 1], rooms[|rooms| - 1];
    var events := EventsOf(before, msgs);
    if e < |events| {
      NormalBeforeHigh(before, msgs, d, e);
    } else if d < |events| {
      EventRooms(before, msgs, d);
      assert events[d].room == r;
    }
  }

  lemma {:induction false} EventRooms(rooms: seq<string>, msgs: seq<Message>, d: nat)
    requires d < |EventsOf(rooms, msgs)|
    ensures EventsOf(rooms, msgs)[d].room in rooms
  {
    var before := rooms[..|rooms| - 1];
    if d < |EventsOf(before, msgs)| {
      EventRooms(before, msgs, d);
    }
  }

  class WorkerState {
    var batch: seq<Message>
    var roomSeqs: map<string, nat>
    var events: seq<Event>

    constructor ()
      ensures batch == [] && roomSeqs == map[] && events == []
    {
      batch, roomSeqs, events := [], map[], [];
    }

    method NextRoomSeq(room: string) returns (n: nat)
      modifies `roomSeqs
      ensures n == Counter(old(roomSeqs), room) + 1
      ensures roomSeqs == old(roomSeqs)[room := n]
    {
      n := (if room in roomSeqs then roomSeqs[room] else 0) + 1;
      roomSeqs := roomSeqs[room := n];
    }

    /** Numbers, records and broadcasts the batch, room by room, and empties it. */
    method Flush() returns (ghost rooms: seq<string>)
      modifies this
      ensures batch == [] && RoomsOf(rooms, old(batch))
      ensures events == old(events) + EventsOf(rooms, Numbered(old(batch), old(roomSeqs)))
      ensures forall r :: Counter(roomSeqs, r) == Counter(old(roomSeqs), r) + |InRoom(old(batch), r)|
    {
      hide InRoom, Numbered, EventsOf, RoomEvents, StampFrom, Counter;
      rooms := [];
      EmptyBatch(batch, roomSeqs);
      if |batch| == 0 {
        return;
      }
      var roomMsgs := Group();
      ghost var numbered := Numbered(batch, roomSeqs);
      var todo := roomMsgs.Keys;
      while todo != {}
        invariant todo <= roomMsgs.Keys && batch == old(batch)
        invariant forall i, j :: 0 <= i < j < |rooms| ==> rooms[i] != rooms[j]
        invariant forall r :: r in rooms <==> r in roomMsgs && r !in todo
        invariant events == old(events) + EventsOf(rooms, numbered)
        invariant forall r :: Counter(roomSeqs, r) ==
                              Counter(old(roomSeqs), r) + if r in rooms then |InRoom(batch, r)| else 0
      {
        var room :| room in todo;
        todo := todo - {room};
        NumberedInRoom(batch, old(roomSeqs), room);
        EventsSnoc(rooms, room, numbered);
        FlushRoom(room, roomMsgs[room]);
        rooms := rooms + [room];
      }
      batch := [];
    }

    method Group() returns (roomMsgs: map<string, seq<Message>>)
      ensures forall r :: r in roomMsgs <==> InRoom(batch, r) != []
      ensures forall r :: r in roomMsgs ==> roomMsgs[r] == InRoom(batch, r)
    {
      roomMsgs := map[];
      for i := 0 to |batch|
        invariant forall r :: r in roomMsgs <==> InRoom(batch[..i], r) != []
        invariant forall r :: r in roomMsgs ==> roomMsgs[r] == InRoom(batch[..i], r)
      {
        var m := batch[i];
        assert batch[..i + 1] == batch[..i] + [m];
        forall r
          ensures InRoom(batch[..i + 1], r) == InRoom(batch[..i], r) + if m.room == r then [m] else []
        {
          InRoomSnoc(batch[..i], m, r);
        }
        roomMsgs := roomMsgs[m.room := (if m.room in roomMsgs then roomMsgs[m.room] else []) + [m]];
      }
      assert batch[..|batch|] == batch;
    }

    /** One room's share: number, split by priority, record, then broadcast. */
    method FlushRoom(room: string, msgs: seq<Message>)
      modifies `roomSeqs, `events
      ensures events == old(events) + RoomEvents(room, StampFrom(msgs, Counter(old(roomSeqs), room)))
      ensures forall r :: Counter(roomSeqs, r) == Counter(old(roomSeqs), r) + if r == room then |msgs| else 0
    {
      hide Normal, High, StampFrom, Counter;
      var stamped := StampAll(room, msgs);
      var normal, high := Split(stamped);
      events := events + [Recorded(room, stamped)];
      Broadcast(room, normal, false);
      Broadcast(room, high, true);
    }

    method StampAll(room: string, msgs: seq<Message>) returns (stamped: seq<Message>)
      modifies `roomSeqs
      ensures stamped == StampFrom(msgs, Counter(old(roomSeqs), room))
      ensures forall r :: Counter(roomSeqs, r) == Counter(old(roomSeqs), r) + if r == room then |msgs| else 0
    {
      ghost var base := Counter(roomSeqs, room);
      stamped := msgs;
      for i := 0 to |msgs|
        invariant |stamped| == |msgs|
        invariant forall k :: 0 <= k < |msgs| ==>
                                stamped[k] == if k < i then msgs[k].(seqNo := base + k + 1) else msgs[k]
        invariant forall r :: Counter(roomSeqs, r) == Counter(old(roomSeqs), r) + if r == room then i else 0
      {
        var n := NextRoomSeq(room);
        stamped := stamped[i := stamped[i].(seqNo := n)];
      }
    }

    method Split(msgs: seq<Message>) returns (normal: seq<Message>, high: seq<Message>)
      ensures normal == Normal(msgs) && high == High(msgs)
    {
      normal, high := [], [];
      for i := 0 to |msgs|
        invariant normal == Normal(msgs[..i]) && high == High(msgs[..i])
      {
        assert msgs[..i + 1] == msgs[..i] + [msgs[i]];
        SplitSnoc(msgs[..i], msgs[i]);
        if msgs[i].priority > 0 {
          high := high + [msgs[i]];
        } else {
          normal := normal + [msgs[i]];
        }
      }
      assert msgs[..|msgs|] == msgs;
    }

    method Broadcast(room: string, msgs: seq<Message>, high: bool)
      modifies `events
      ensures events == old(events) + if msgs == [] then [] else [Sent(room, msgs, high)]
    {
      if |msgs| > 0 {
        events := events + [Sent(room, msgs, high)];
      }
    }
  }
}
