/** The push job: records of one window are gathered by room and pushed as one payload each. */
module Job {
  import opened Payload

  /** A consumed record; `trace` is empty when the record is not sampled. */
  datatype Record = Record(key: string, value: string, trace: string)

  datatype Batch = Batch(values: seq<string>, traceIDs: seq<string>)

  datatype Push = Push(room: string, payload: string, traceIDs: seq<string>)

  datatype Event = Message(record: Record) | Timer

  function TraceOf(r: Record): seq<string> { if r.trace != "" then [r.trace] else [] }

  /** The batch holding all records of a room, in order. */
  function Gather(records: seq<Record>, room: string): Batch {
    if records == [] then Batch([], [])
    else
      var b, r := Gather(records[..|records| - 1], room), records[|records| - 1];
      if r.key == room then Batch(b.values + [r.value], b.traceIDs + TraceOf(r)) else b
  }

  function Append(a: Batch, b: Batch): Batch { Batch(a.values + b.values, a.traceIDs + b.traceIDs) }

  /** What was sent to a room so far. */
  function SentTo(sent: seq<(string, Batch)>, room: string): Batch {
    if sent == [] then Batch([], [])
    else
      var before, s := SentTo(sent[..|sent| - 1], room), sent[|sent| - 1];
      if s.0 == room then Append(before, s.1) else before
  }

  /** What a room's receivers read out of the payloads pushed to it. */
  function ReadBy(pushes: seq<Push>, room: string): Batch
    requires forall i :: 0 <= i < |pushes| ==> |pushes[i].payload| >= 2
  {
    if pushes == [] then Batch([], [])
    else
      var before, p := ReadBy(pushes[..|pushes| - 1], room), pushes[|pushes| - 1];
      if p.room == room then Append(before, Batch(Elements(p.payload), p.traceIDs)) else before
  }

  function PushOf(s: (string, Batch)): Push { Push(s.0, Array(s.1.values), s.1.traceIDs) }

  function Pending(batches: map<string, Batch>, room: string): Batch {
    if room in batches then batches[room] else Batch([], [])
  }

  /** Sent and pending together are what was consumed. */
  ghost predicate Balanced(sent: seq<(string, Batch)>, batches: map<string, Batch>, records: seq<Record>,
                           room: string) {
    Append(SentTo(sent, room), Pending(batches, room)) == Gather(records, room)
  }

  function Messages(events: seq<Event>): seq<Record> {
    if events == [] then []
    else
      var e := events[|events| - 1];
      Messages(events[..|events| - 1]) + if e.Message? then [e.record] else []
  }

  lemma GatherSnoc(records: seq<Record>, r: Record, room: string)
    ensures Gather(records + [r], room) ==
            if r.key == room then Append(Gather(records, room), Batch([r.value], TraceOf(r)))
            else Gather(records, room)
  {
    assert (records + [r])[..|records|] == records;
  }

  ghost predicate Sampled(records: seq<Record>, room: string, id: string) {
    exists i :: 0 <= i < |records| && records[i].key == room && records[i].trace == id
  }

  /** The sampled records of the room, and no others, give their trace ids. */
  lemma {:induction false} TracesGathered(records: seq<Record>, room: string, id: string)
    ensures id in Gather(records, room).traceIDs <==> id != "" && Sampled(records, room, id)
  {
    if records != [] {
      var before, r := records[..|records| - 1], records[|records| - 1];
      TracesGathered(before, room, id);
      assert Sampled(records, room, id) <==> Sampled(before, room, id) || (r.key == room && r.trace == id) by {
        if i :| 0 <= i < |before| && before[i].key == room && before[i].trace == id {
          assert records[i] == before[i];
        }
      }
    }
  }

  /** Records of the room. */
  function Count(records: seq<Record>, room: string): nat {
    if records == [] then 0
    else Count(records[..|records| - 1], room) + if records[|records| - 1].key == room then 1 else 0
  }

  /** Record i is gathered behind the earlier records of its room, and nothing else is. */
  lemma {:induction false} GatheredInOrder(records: seq<Record>, i: nat)
    requires i < |records|
    ensures var values, at := Gather(records, records[i].key).values, Count(records[..i], records[i].key);
            |values| == Count(records, records[i].key) && at < |values| && values[at] == records[i].value
  {
    var n, room := |records| - 1, records[i].key;
    GatheredCount(records, room);
    GatheredCount(records[..n], room);
    if i < n {
      GatheredInOrder(records[..n], i);
      assert records[..n][..i] == records[..i];
    }
  }

  lemma {:induction false} GatheredCount(records: seq<Record>, room: string)
    ensures |Gather(records, room).values| == Count(records, room)
  {
    if records != [] {
      GatheredCount(records[..|records| - 1], room);
    }
  }

  lemma SentSnoc(sent: seq<(string, Batch)>, s: (string, Batch), room: string)
    ensures SentTo(sent + [s], room) == if s.0 == room then Append(SentTo(sent, room), s.1) else SentTo(sent, room)
  {
    assert (sent + [s])[..|sent|] == sent;
  }

  lemma AppendLaws(a: Batch, b: Batch, c: Batch)
    ensures Append(Append(a, b), c) == Append(a, Append(b, c)) && Append(a, Batch([], [])) == a
  {
    assert a.values + [] == a.values && a.traceIDs + [] == a.traceIDs;
    assert a.values + b.values + c.values == a.values + (b.values + c.values);
    assert a.traceIDs + b.traceIDs + c.traceIDs == a.traceIDs + (b.traceIDs + c.traceIDs);
  }

  // ---- Windows ----

  /** The records between the timer's firings: the closed windows and, last, the open one. */
  function Windows(events: seq<Event>): (r: seq<seq<Record>>)
    ensures |r| > 0
  {
    if events == [] then [[]]
    else
      var before, e := Windows(events[..|events| - 1]), events[|events| - 1];
      match e
      case Timer => before + [[]]
      case Message(m) => before[..|before| - 1] + [before[|before| - 1] + [m]]
  }

  function Consumed(records: seq<Record>): seq<Event> {
    seq(|records|, i requires 0 <= i < |records| => Message(records[i]))
  }

  lemma MessagesSnoc(events: seq<Event>, e: Event)
    ensures Messages(events + [e]) == Messages(events) + (if e.Message? then [e.record] else []) && Messages([]) == []
  {
    assert (events + [e])[..|events|] == events;
  }

  lemma NothingYet(sent: seq<(string, Batch)>, start: map<string, Batch>)
    ensures PushedByWindow(sent, |sent|, [|sent|], start, [])
    ensures Windows([]) == [[]] && Messages([]) == []
  {
  }

  lemma WindowsSnoc(events: seq<Event>, e: Event)
    ensures Windows(events + [e]) ==
            var before := Windows(events);
            match e
            case Timer => before + [[]]
            case Message(m) => before[..|before| - 1] + [before[|before| - 1] + [m]]
  {
    assert (events + [e])[..|events|] == events;
  }

  ghost predicate Concerns(records: seq<Record>, room: string) {
    exists i :: 0 <= i < |records| && records[i].key == room
  }

  /** The batches gathered in a window that began with those of `start`. */
  ghost predicate Gathered(batches: map<string, Batch>, start: map<string, Batch>, records: seq<Record>) {
    forall room ::
      && (room in batches <==> room in start || Concerns(records, room))
      && Pending(batches, room) == Append(Pending(start, room), Gather(records, room))
  }

  /** One push for each of these batches. */
  ghost predicate Covers(group: seq<(string, Batch)>, batches: map<string, Batch>) {
    && (forall i, j :: 0 <= i < j < |group| ==> group[i].0 != group[j].0)
    && (forall i :: 0 <= i < |group| ==> group[i].0 in batches && group[i].1 == batches[group[i].0])
    && (forall room :: room in batches ==> Occurs(group, room))
  }

  ghost predicate Occurs(group: seq<(string, Batch)>, room: string) {
    exists i :: 0 <= i < |group| && group[i].0 == room
  }

  /** What a window pushes: for each room concerned, once, all the window gathered for it. */
  ghost predicate IsWindow(group: seq<(string, Batch)>, start: map<string, Batch>, records: seq<Record>) {
    exists batches :: Covers(group, batches) && Gathered(batches, start, records)
  }

  function StartOf(start: map<string, Batch>, g: nat): map<string, Batch> { if g == 0 then start else map[] }

  /** What was sent since `from` falls at the marks into what the closed windows push. */
  ghost predicate PushedByWindow(sent: seq<(string, Batch)>, from: nat, marks: seq<nat>, start: map<string, Batch>,
                                 closed: seq<seq<Record>>)
  {
    && |marks| == |closed| + 1 && marks[0] == from && marks[|closed|] == |sent|
    && forall g :: 0 <= g < |closed| ==> WindowAt(sent, marks, start, closed, g)
  }

  ghost predicate WindowAt(sent: seq<(string, Batch)>, marks: seq<nat>, start: map<string, Batch>,
                           closed: seq<seq<Record>>, g: nat)
    requires g < |closed| && g + 1 < |marks|
  {
    && marks[g] <= marks[g + 1] <= |sent|
    && IsWindow(sent[marks[g]..marks[g + 1]], StartOf(start, g), closed[g])
  }

  /** At some moment exactly these records had been sent. */
  ghost predicate CaughtUp(sent: seq<(string, Batch)>, records: seq<Record>) {
    exists n :: 0 <= n <= |sent| && AllSent(sent[..n], records)
  }

  ghost predicate AllSent(sent: seq<(string, Batch)>, records: seq<Record>) {
    forall room :: SentTo(sent, room) == Gather(records, room)
  }

  lemma CaughtUpStays(sent: seq<(string, Batch)>, more: seq<(string, Batch)>, records: seq<Record>)
    requires CaughtUp(sent, records) && |sent| <= |more| && more[..|sent|] == sent
    ensures CaughtUp(more, records)
  {
    var n :| 0 <= n <= |sent| && AllSent(sent[..n], records);
    assert more[..n] == sent[..n];
  }

  lemma SliceOfPrefix<T>(s: seq<T>, more: seq<T>, lo: nat, hi: nat)
    requires lo <= hi <= |s| <= |more| && more[..|s|] == s
    ensures more[lo..hi] == s[lo..hi]
  {
    assert more[..|s|][lo..hi] == more[lo..hi];
  }

  lemma PushedSnoc(sent: seq<(string, Batch)>, from: nat, marks: seq<nat>, start: map<string, Batch>,
                   closed: seq<seq<Record>>, more: seq<(string, Batch)>, w: seq<Record>)
    requires PushedByWindow(sent, from, marks, start, closed)
    requires |sent| <= |more| && more[..|sent|] == sent
    requires IsWindow(more[|sent|..], StartOf(start, |closed|), w)
    ensures PushedByWindow(more, from, marks + [|more|], start, closed + [w])
  {
    hide IsWindow;
    var marks', closed' := marks + [|more|], closed + [w];
    forall g | 0 <= g < |closed'|
      ensures WindowAt(more, marks', start, closed', g)
    {
      if g < |closed| {
        assert WindowAt(sent, marks, start, closed, g);
        SliceOfPrefix(sent, more, marks[g], marks[g + 1]);
      } else {
        assert more[|sent|..|more|] == more[|sent|..];
      }
    }
  }

  function Minus(was: map<string, Batch>, batches: map<string, Batch>): map<string, Batch> {
    map room | room in was && room !in batches :: was[room]
  }

  /** The batches no longer pending have been pushed since position n. */
  ghost predicate Flushed(sent: seq<(string, Batch)>, n: nat, was: map<string, Batch>, batches: map<string, Batch>) {
    && n <= |sent| && (forall room :: room in batches ==> room in was && batches[room] == was[room])
    && Covers(sent[n..], Minus(was, batches))
  }

  lemma FlushedStep(sent: seq<(string, Batch)>, n: nat, was: map<string, Batch>, batches: map<string, Batch>,
                    room: string)
    requires Flushed(sent, n, was, batches) && room in batches
    ensures Flushed(sent + [(room, batches[room])], n, was, batches - {room})
    ensures n <= |sent| && (sent + [(room, batches[room])])[..n] == sent[..n]
  {
    hide Covers;
    var done, more := Minus(was, batches), Minus(was, batches - {room});
    CoversSnoc(sent[n..], done, room, batches[room]);
    assert (sent + [(room, batches[room])])[n..] == sent[n..] + [(room, batches[room])];
    assert more == done[room := batches[room]];
  }

  lemma FlushedAll(sent: seq<(string, Batch)>, n: nat, was: map<string, Batch>)
    requires Flushed(sent, n, was, map[])
    ensures n <= |sent| && Covers(sent[n..], was)
    ensures forall i :: n <= i < |sent| ==> sent[i].0 in was && sent[i].1 == was[sent[i].0]
    ensures forall i, j :: n <= i < j < |sent| ==> sent[i].0 != sent[j].0
  {
    assert Minus(was, map[]) == was;
    var group := sent[n..];
    forall i | n <= i < |sent|
      ensures sent[i].0 in was && sent[i].1 == was[sent[i].0]
    {
      assert sent[i] == group[i - n];
    }
    forall i, j | n <= i < j < |sent|
      ensures sent[i].0 != sent[j].0
    {
      assert sent[i] == group[i - n] && sent[j] == group[j - n];
    }
  }

  lemma NoneFlushed(sent: seq<(string, Batch)>, was: map<string, Batch>)
    ensures Flushed(sent, |sent|, was, was)
  {
    assert sent[|sent|..] == [];
    assert Minus(was, was) == map[];
  }

  lemma CoversSnoc(group: seq<(string, Batch)>, batches: map<string, Batch>, room: string, b: Batch)
    requires Covers(group, batches) && room !in batches
    ensures Covers(group + [(room, b)], batches[room := b])
  {
    var more := group + [(room, b)];
    assert more[|group|].0 == room;
    forall r | r in batches[room := b]
      ensures Occurs(more, r)
    {
      if r != room {
        assert Occurs(group, r);
        var i :| 0 <= i < |group| && group[i].0 == r;
        assert more[i].0 == r;
      }
    }
  }

  lemma GatheredSnoc(batches: map<string, Batch>, start: map<string, Batch>, records: seq<Record>, m: Record)
    requires Gathered(batches, start, records)
    ensures Gathered(batches[m.key := Append(Pending(batches, m.key), Batch([m.value], TraceOf(m)))], start,
                     records + [m])
  {
    hide Gather, Concerns;
    var more := batches[m.key := Append(Pending(batches, m.key), Batch([m.value], TraceOf(m)))];
    forall room
      ensures room in more <==> room in start || Concerns(records + [m], room)
      ensures Pending(more, room) == Append(Pending(start, room), Gather(records + [m], room))
    {
      assert room in batches <==> room in start || Concerns(records, room);
      ConcernsSnoc(records, m, room);
      GatherSnoc(records, m, room);
      AppendLaws(Pending(start, room), Gather(records, room), Batch([m.value], TraceOf(m)));
    }
  }

  lemma ConcernsSnoc(records: seq<Record>, m: Record, room: string)
    ensures Concerns(records + [m], room) <==> Concerns(records, room) || m.key == room
  {
    var more := records + [m];
    assert more[|records|] == m;
    if i :| 0 <= i < |records| && records[i].key == room {
      assert more[i].key == room;
    }
  }

  lemma NothingGathered(start: map<string, Batch>)
    ensures Gathered(start, start, [])
  {
    forall room
      ensures Pending(start, room) == Append(Pending(start, room), Gather([], room))
    {
      AppendLaws(Pending(start, room), Batch([], []), Batch([], []));
    }
  }

  class JobLoop {
    var roomBatch: map<string, Batch>
    var pushes: seq<Push>
    ghost var sent: seq<(string, Batch)>
    ghost var records: seq<Record>

    ghost predicate Valid()
      reads this
    {
      && (forall room :: Balanced(sent, roomBatch, records, room))
      && (forall room :: room in roomBatch ==> roomBatch[room].values != [])
      && Recorded()
    }

    ghost predicate Recorded()
      reads `sent, `pushes
    {
      && |pushes| == |sent|
      && forall i :: 0 <= i < |sent| ==> pushes[i] == PushOf(sent[i]) && sent[i].1.values != []
    }

    constructor ()
      ensures Valid() && records == [] && pushes == []
    {
      roomBatch, pushes, sent, records := map[], [], [], [];
    }

    method Ingest(m: Record)
      requires Valid()
      modifies `roomBatch, `records
      ensures Valid() && records == old(records) + [m]
      ensures roomBatch ==
              old(roomBatch)[m.key := Append(Pending(old(roomBatch), m.key), Batch([m.value], TraceOf(m)))]
    {
      hide Gather, SentTo, Recorded;
      var b := if m.key in roomBatch then roomBatch[m.key] else Batch([], []);
      b := b.(values := b.values + [m.value]);
      if m.trace != "" {
        b := b.(traceIDs := b.traceIDs + [m.trace]);
      }
      ghost var before := roomBatch;
      roomBatch := roomBatch[m.key := b];
      forall room
        ensures Balanced(sent, roomBatch, records + [m], room)
      {
        assert Balanced(sent, before, records, room);
        GatherSnoc(records, m, room);
        AppendLaws(SentTo(sent, room), Pending(before, room), Batch([m.value], TraceOf(m)));
      }
      records := records + [m];
      assert Pending(before, m.key).traceIDs + [] == Pending(before, m.key).traceIDs;
    }

    /** Every pending room is pushed exactly once, and nothing stays pending. */
    method Flush()
      requires Valid()
      modifies `roomBatch, `pushes, `sent
      ensures Valid() && roomBatch == map[]
      ensures |sent| == |old(sent)| + |old(roomBatch)| && sent[..|old(sent)|] == old(sent)
      ensures pushes[..|old(pushes)|] == old(pushes)
      ensures forall i :: |old(sent)| <= i < |sent| ==>
                            sent[i].0 in old(roomBatch) && sent[i].1 == old(roomBatch)[sent[i].0]
      ensures forall i, j :: |old(sent)| <= i < j < |sent| ==> sent[i].0 != sent[j].0
      ensures Covers(sent[|old(sent)|..], old(roomBatch))
    {
      hide Valid, Covers, Flushed;
      ghost var was, n, k := roomBatch, |sent|, |pushes|;
      NoneFlushed(sent, was);
      while roomBatch != map[]
        invariant Valid() && |pushes| >= k && pushes[..k] == old(pushes)
        invariant |sent| == n + |was| - |roomBatch| && |sent| >= n && sent[..n] == old(sent)
        invariant Flushed(sent, n, was, roomBatch)
        decreases |roomBatch|
      {
        ghost var batches, earlier := roomBatch, sent;
        ghost var room := PushOne();
        FlushedStep(earlier, n, was, batches, room);
      }
      FlushedAll(sent, n, was);
    }

    method PushOne() returns (ghost room: string)
      requires Valid() && roomBatch != map[]
      modifies `roomBatch, `pushes, `sent
      ensures Valid() && |pushes| == |old(pushes)| + 1
      ensures pushes[..|old(pushes)|] == old(pushes)
      ensures |roomBatch| == |old(roomBatch)| - 1
      ensures room in old(roomBatch) && roomBatch == old(roomBatch) - {room}
      ensures sent == old(sent) + [(room, old(roomBatch)[room])]
    {
      hide Gather, SentTo, Array;
      var roomID :| roomID in roomBatch;
      var b := roomBatch[roomID];
      var payload := BuildArray(b.values);
      pushes := pushes + [Push(roomID, payload, b.traceIDs)];
      ghost var before := roomBatch;
      roomBatch := roomBatch - {roomID};
      assert before.Keys == roomBatch.Keys + {roomID};
      forall room
        ensures Balanced(sent + [(roomID, b)], roomBatch, records, room)
      {
        assert Balanced(sent, before, records, room);
        SentSnoc(sent, (roomID, b), room);
        AppendLaws(SentTo(sent, room), Pending(before, room), Batch([], []));
        AppendLaws(Append(SentTo(sent, room), b), Batch([], []), Batch([], []));
      }
      sent := sent + [(roomID, b)];
      room := roomID;
    }

    /** Takes in one record of the open window. */
    method Take(m: Record, ghost start: map<string, Batch>, ghost w: seq<Record>)
      requires Valid() && Gathered(roomBatch, start, w)
      modifies `roomBatch, `records
      ensures Valid() && records == old(records) + [m]
      ensures Gathered(roomBatch, start, w + [m])
    {
      hide Valid, Gathered;
      GatheredSnoc(roomBatch, start, w, m);
      Ingest(m);
    }

    /** Closes the open window. */
    method CloseWindow(ghost from: nat, ghost marks: seq<nat>, ghost start: map<string, Batch>,
                       ghost closed: seq<seq<Record>>, ghost w: seq<Record>) returns (ghost marks': seq<nat>)
      requires Valid() && PushedByWindow(sent, from, marks, start, closed)
      requires Gathered(roomBatch, StartOf(start, |closed|), w)
      modifies `roomBatch, `pushes, `sent
      ensures Valid() && roomBatch == map[] && Gathered(roomBatch, map[], [])
      ensures |old(sent)| <= |sent| && sent[..|old(sent)|] == old(sent) && CaughtUp(sent, records)
      ensures PushedByWindow(sent, from, marks', start, closed + [w])
    {
      hide Valid, Gathered, PushedByWindow, Covers;
      ghost var was, before := roomBatch, sent;
      Flush();
      assert IsWindow(sent[|before|..], StartOf(start, |closed|), w);
      PushedSnoc(before, from, marks, start, closed, sent, w);
      marks' := marks + [|sent|];
      NothingGathered(map[]);
      NothingPending();
    }

    lemma NothingPending()
      requires Valid() && roomBatch == map[]
      ensures CaughtUp(sent, records)
    {
      forall room
        ensures SentTo(sent, room) == Gather(records, room)
      {
        assert Balanced(sent, roomBatch, records, room);
        AppendLaws(SentTo(sent, room), Batch([], []), Batch([], []));
      }
      assert sent[..|sent|] == sent;
    }

    /** The main loop, then the shutdown: what is already read is still taken in and pushed. Whenever the
        timer fires everything consumed before has been pushed, and each window is pushed by itself, one
        push for each room concerned; the last window is closed at shutdown. */
    method Run(events: seq<Event>, buffered: seq<Record>) returns (ghost marks: seq<nat>)
      requires Valid()
      modifies this
      ensures Valid() && roomBatch == map[]
      ensures records == old(records) + Messages(events) + buffered
      ensures forall k :: 0 <= k < |events| && events[k].Timer? ==>
                            CaughtUp(sent, old(records) + Messages(events[..k]))
      ensures PushedByWindow(sent, |old(sent)|, marks, old(roomBatch), Windows(events + Consumed(buffered)))
    {
      hide Valid, Gathered, PushedByWindow, CaughtUp, Windows, Messages;
      ghost var start, from := roomBatch, |sent|;
      ghost var closed, w;
      marks, closed, w := MainLoop(events);
      ghost var kept := sent;
      assert events + Consumed(buffered[..0]) == events;
      for i := 0 to |buffered|
        invariant Valid() && records == old(records) + Messages(events) + buffered[..i] && sent == kept
        invariant Gathered(roomBatch, StartOf(start, |closed|), w)
        invariant Windows(events + Consumed(buffered[..i])) == closed + [w]
      {
        Take(buffered[i], StartOf(start, |closed|), w);
        WindowsSnoc(events + Consumed(buffered[..i]), Message(buffered[i]));
        assert events + Consumed(buffered[..i + 1]) == events + Consumed(buffered[..i]) + [Message(buffered[i])];
        assert (closed + [w])[..|closed|] == closed;
        w := w + [buffered[i]];
      }
      assert buffered[..|buffered|] == buffered;
      marks := CloseWindow(from, marks, start, closed, w);
      forall k | 0 <= k < |events| && events[k].Timer?
        ensures CaughtUp(sent, old(records) + Messages(events[..k]))
      {
        CaughtUpStays(kept, sent, old(records) + Messages(events[..k]));
      }
    }

    method MainLoop(events: seq<Event>)
      returns (ghost marks: seq<nat>, ghost closed: seq<seq<Record>>, ghost w: seq<Record>)
      requires Valid()
      modifies this
      ensures Valid() && records == old(records) + Messages(events)
      ensures forall k :: 0 <= k < |events| && events[k].Timer? ==>
                            CaughtUp(sent, old(records) + Messages(events[..k]))
      ensures PushedByWindow(sent, |old(sent)|, marks, old(roomBatch), closed)
      ensures Gathered(roomBatch, StartOf(old(roomBatch), |closed|), w)
      ensures Windows(events) == closed + [w]
    {
      hide Valid, Gathered, PushedByWindow, CaughtUp, Windows, Messages;
      ghost var start, from := roomBatch, |sent|;
      marks, closed, w := [|sent|], [], [];
      NothingYet(sent, start);
      NothingGathered(start);
      assert events[..0] == [];
      for i := 0 to |events|
        invariant Valid() && records == old(records) + Messages(events[..i])
        invariant forall k :: 0 <= k < i && events[k].Timer? ==> CaughtUp(sent, old(records) + Messages(events[..k]))
        invariant PushedByWindow(sent, from, marks, start, closed)
        invariant Gathered(roomBatch, StartOf(start, |closed|), w)
        invariant Windows(events[..i]) == closed + [w]
      {
        assert events[..i + 1] == events[..i] + [events[i]];
        WindowsSnoc(events[..i], events[i]);
        MessagesSnoc(events[..i], events[i]);
        assert (closed + [w])[..|closed|] == closed;
        ghost var before := sent;
        marks, closed, w := OneEvent(events[i], from, marks, start, closed, w);
        assert events[i].Timer? ==> records == old(records) + Messages(events[..i]);
        forall k | 0 <= k < i && events[k].Timer?
          ensures CaughtUp(sent, old(records) + Messages(events[..k]))
        {
          CaughtUpStays(before, sent, old(records) + Messages(events[..k]));
        }
      }
      assert events[..|events|] == events;
    }

    method OneEvent(e: Event, ghost from: nat, ghost marks: seq<nat>, ghost start: map<string, Batch>,
                    ghost closed: seq<seq<Record>>, ghost w: seq<Record>)
      returns (ghost marks': seq<nat>, ghost closed': seq<seq<Record>>, ghost w': seq<Record>)
      requires Valid() && PushedByWindow(sent, from, marks, start, closed)
      requires Gathered(roomBatch, StartOf(start, |closed|), w)
      modifies this
      ensures Valid() && records == old(records) + if e.Message? then [e.record] else []
      ensures |old(sent)| <= |sent| && sent[..|old(sent)|] == old(sent)
      ensures PushedByWindow(sent, from, marks', start, closed')
      ensures Gathered(roomBatch, StartOf(start, |closed'|), w')
      ensures e.Timer? ==> CaughtUp(sent, records) && closed' == closed + [w] && w' == []
      ensures e.Message? ==> closed' == closed && w' == w + [e.record]
    {
      hide Valid, Gathered, PushedByWindow, CaughtUp;
      match e
      case Message(m) =>
        Take(m, StartOf(start, |closed|), w);
        marks', closed', w' := marks, closed, w + [m];
      case Timer =>
        marks' := CloseWindow(from, marks, start, closed, w);
        closed', w' := closed + [w], [];
        assert records + [] == records;
    }

    lemma AllClosed(i: nat)
      requires Valid() && i < |sent|
      requires forall i :: 0 <= i < |records| ==> Closed(records[i].value)
      ensures forall v :: v in sent[i].1.values ==> Closed(v)
    {
      hide Closed, Gather, SentTo;
      var room := sent[i].0;
      assert Balanced(sent, roomBatch, records, room);
      SentHolds(sent, i);
      GatherHolds(records, room);
      forall v | v in sent[i].1.values
        ensures Closed(v)
      {
        assert v in SentTo(sent, room).values;
        assert v in Gather(records, room).values;
      }
    }

    /** Nothing is lost, doubled or moved: what a room's receivers read, followed by what is
        pending, is what was consumed for the room. */
    lemma ReadThenPending(room: string)
      requires Valid()
      requires forall i :: 0 <= i < |records| ==> Closed(records[i].value)
      ensures Readable(pushes)
      ensures Append(ReadBy(pushes, room), Pending(roomBatch, room)) == Gather(records, room)
    {
      assert Balanced(sent, roomBatch, records, room);
      forall i | 0 <= i < |sent|
        ensures forall v :: v in sent[i].1.values ==> Closed(v)
      {
        AllClosed(i);
      }
      ReadIsSent(sent, pushes, room);
    }
  }

  ghost predicate Readable(pushes: seq<Push>) {
    forall i :: 0 <= i < |pushes| ==> |pushes[i].payload| >= 2
  }

  lemma {:induction false} SentHolds(sent: seq<(string, Batch)>, i: nat)
    requires i < |sent|
    ensures forall v :: v in sent[i].1.values ==> v in SentTo(sent, sent[i].0).values
  {
    if i < |sent| - 1 {
      SentHolds(sent[..|sent| - 1], i);
    }
  }

  lemma {:induction false} GatherHolds(records: seq<Record>, room: string)
    ensures forall v :: v in Gather(records, room).values ==> exists i :: 0 <= i < |records| && records[i].value == v
  {
    if records != [] {
      var before := records[..|records| - 1];
      GatherHolds(before, room);
      forall v | v in Gather(records, room).values
        ensures exists i :: 0 <= i < |records| && records[i].value == v
      {
        if v in Gather(before, room).values {
          var i :| 0 <= i < |before| && before[i].value == v;
          assert records[i].value == v;
        } else {
          assert records[|records| - 1].value == v;
        }
      }
    }
  }

  lemma {:induction false} ReadIsSent(sent: seq<(string, Batch)>, pushes: seq<Push>, room: string)
    requires |pushes| == |sent|
    requires forall i :: 0 <= i < |sent| ==> pushes[i] == PushOf(sent[i]) && sent[i].1.values != []
    requires forall i :: 0 <= i < |sent| ==> forall v :: v in sent[i].1.values ==> Closed(v)
    ensures Readable(pushes) && ReadBy(pushes, room) == SentTo(sent, room)
  {
    hide Closed, Pieces, Join;
    if sent != [] {
      var n := |sent| - 1;
      ReadIsSent(sent[..n], pushes[..n], room);
      ArrayElements(sent[n].1.values);
    }
  }
}
