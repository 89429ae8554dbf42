/** The per-room set of recently seen message ids. */
module MsgIDSet {
  datatype Call = Call(room: string, id: string, at: int)

  type Key = (string, string)

  function KeyOf(c: Call): Key { (c.room, c.id) }

  /** The law the set is for: call j is let through exactly when no earlier call for the same room
      and id was let through less than a TTL before. */
  predicate Accepted(calls: seq<Call>, ttl: int, j: nat)
    requires j < |calls|
    decreases j
  {
    forall i :: 0 <= i < j && Accepted(calls, ttl, i) && KeyOf(calls[i]) == KeyOf(calls[j]) ==>
                  calls[j].at - calls[i].at >= ttl
  }

  predicate Blocked(table: map<Key, int>, k: Key, now: int) {
    k in table && now < table[k]
  }

  function Marked(table: map<Key, int>, c: Call, ttl: int): map<Key, int> {
    if Blocked(table, KeyOf(c), c.at) then table else table[KeyOf(c) := c.at + ttl]
  }

  /** A table of expiry times that is never cleaned. */
  function Table(calls: seq<Call>, ttl: int): map<Key, int> {
    if calls == [] then map[] else Marked(Table(calls[..|calls| - 1], ttl), calls[|calls| - 1], ttl)
  }

  lemma TableSnoc(calls: seq<Call>, c: Call, ttl: int)
    ensures Table(calls + [c], ttl) == Marked(Table(calls, ttl), c, ttl) && Table([], ttl) == map[]
  {
    assert (calls + [c])[..|calls|] == calls;
  }

  ghost predicate Ordered(calls: seq<Call>) {
    forall i, j :: 0 <= i < j < |calls| ==> calls[i].at <= calls[j].at
  }

  lemma {:induction false} AcceptedPrefix(calls: seq<Call>, ttl: int, n: nat, j: nat)
    requires j < n <= |calls|
    ensures Accepted(calls[..n], ttl, j) <==> Accepted(calls, ttl, j)
    decreases j
  {
    forall i | 0 <= i < j
      ensures Accepted(calls[..n], ttl, i) <==> Accepted(calls, ttl, i)
    {
      AcceptedPrefix(calls, ttl, n, i);
    }
  }

  /** The uncleaned table holds, for every key, the expiry of its last accepted call. */
  lemma {:induction false} TableIsLastAccepted(calls: seq<Call>, ttl: int, k: Key)
    requires Ordered(calls)
    ensures k in Table(calls, ttl) ==>
              exists i :: 0 <= i < |calls| && Accepted(calls, ttl, i) && KeyOf(calls[i]) == k &&
                          Table(calls, ttl)[k] == calls[i].at + ttl
    ensures forall i :: 0 <= i < |calls| && Accepted(calls, ttl, i) && KeyOf(calls[i]) == k ==>
                          k in Table(calls, ttl) && calls[i].at + ttl <= Table(calls, ttl)[k]
    decreases |calls|, 0
  {
    hide Accepted;
    if calls != [] {
      var n := |calls| - 1;
      var before := calls[..n];
      TableIsLastAccepted(before, ttl, k);
      TableAnswers(calls, ttl, n);
      forall i | 0 <= i < n
        ensures Accepted(before, ttl, i) <==> Accepted(calls, ttl, i)
      {
        AcceptedPrefix(calls, ttl, n, i);
      }
      if k in Table(before, ttl) {
        var i :| 0 <= i < |before| && Accepted(before, ttl, i) && KeyOf(before[i]) == k &&
                 Table(before, ttl)[k] == before[i].at + ttl;
        assert Accepted(calls, ttl, i) && calls[i] == before[i];
      }
    }
  }

  /** Looking a call up in the uncleaned table gives the law's answer. */
  lemma {:induction false} TableAnswers(calls: seq<Call>, ttl: int, j: nat)
    requires Ordered(calls) && j < |calls|
    ensures Blocked(Table(calls[..j], ttl), KeyOf(calls[j]), calls[j].at) <==> !Accepted(calls, ttl, j)
    decreases j, 1
  {
    var before, c := calls[..j], calls[j];
    TableIsLastAccepted(before, ttl, KeyOf(c));
    forall i | 0 <= i < j
      ensures Accepted(before, ttl, i) <==> Accepted(calls, ttl, i)
    {
      AcceptedPrefix(calls, ttl, j, i);
    }
  }

  /** Two calls for one room and id that the table lets through are at least the TTL apart. */
  lemma PassedApart(calls: seq<Call>, ttl: int, i: nat, j: nat)
    requires Ordered(calls) && i < j < |calls| && KeyOf(calls[i]) == KeyOf(calls[j])
    requires !Blocked(Table(calls[..i], ttl), KeyOf(calls[i]), calls[i].at)
    requires !Blocked(Table(calls[..j], ttl), KeyOf(calls[j]), calls[j].at)
    ensures calls[j].at - calls[i].at >= ttl
  {
    TableAnswers(calls, ttl, i);
    TableAnswers(calls, ttl, j);
  }

  function Elsewhere(calls: seq<Call>, room: string): seq<Call> {
    if calls == [] then []
    else
      var c := calls[|calls| - 1];
      Elsewhere(calls[..|calls| - 1], room) + if c.room == room then [] else [c]
  }

  function Without(table: map<Key, int>, room: string): map<Key, int> {
    map k | k in table && k.0 != room :: table[k]
  }

  lemma ElsewhereSnoc(calls: seq<Call>, c: Call, room: string)
    ensures Elsewhere(calls + [c], room) == Elsewhere(calls, room) + (if c.room == room then [] else [c])
    ensures Elsewhere([], room) == []
  {
    assert (calls + [c])[..|calls|] == calls;
  }

  lemma MarkedWithout(table: map<Key, int>, c: Call, ttl: int, room: string)
    ensures Without(Marked(table, c, ttl), room) ==
            if c.room == room then Without(table, room) else Marked(Without(table, room), c, ttl)
    ensures Without(map[], room) == map[]
  {
  }

  lemma {:induction false} ElsewhereKeeps(calls: seq<Call>, room: string)
    requires Ordered(calls)
    ensures Ordered(Elsewhere(calls, room)) && forall c :: c in Elsewhere(calls, room) ==> c in calls
  {
    if calls != [] {
      var before, c := calls[..|calls| - 1], calls[|calls| - 1];
      ElsewhereKeeps(before, room);
      var kept := Elsewhere(before, room);
      assert calls == before + [c];
      ElsewhereSnoc(before, c, room);
      forall i | 0 <= i < |kept|
        ensures kept[i].at <= c.at
      {
        assert kept[i] in before;
      }
    }
  }

  /** Forgetting the calls of a room forgets exactly its entries. */
  lemma {:induction false} TableElsewhere(calls: seq<Call>, ttl: int, room: string)
    ensures Table(Elsewhere(calls, room), ttl) == Without(Table(calls, ttl), room)
  {
    hide Table, Elsewhere, Marked, Without;
    var c0 := Call(room, "", 0);
    TableSnoc([], c0, ttl);
    ElsewhereSnoc([], c0, room);
    MarkedWithout(map[], c0, ttl, room);
    if calls != [] {
      var before, c := calls[..|calls| - 1], calls[|calls| - 1];
      TableElsewhere(before, ttl, room);
      assert calls == before + [c];
      TableSnoc(before, c, ttl);
      TableSnoc(Elsewhere(before, room), c, ttl);
      ElsewhereSnoc(before, c, room);
      MarkedWithout(Table(before, ttl), c, ttl, room);
      assert Elsewhere(before, room) + [] == Elsewhere(before, room);
    }
  }

  class MsgIDSet {
    const ttl: int
    var rooms: map<string, map<string, int>>
    ghost var calls: seq<Call>
    ghost var clock: int

    /** The kept entries are those of the uncleaned table, minus some that have expired. */
    ghost predicate Kept(table: map<Key, int>)
      reads `rooms, `clock
    {
      && (forall r, id :: r in rooms && id in rooms[r] ==> (r, id) in table && table[(r, id)] == rooms[r][id])
      && (forall r, id :: (r, id) in table && !(r in rooms && id in rooms[r]) ==> table[(r, id)] <= clock)
    }

    ghost predicate Valid()
      reads this
    {
      && Ordered(calls) && (forall i :: 0 <= i < |calls| ==> calls[i].at <= clock)
      && Kept(Table(calls, ttl))
    }

    constructor (ttl: int, ghost clock: int)
      ensures Valid() && calls == [] && this.clock == clock && this.ttl == if ttl <= 0 then 30 else ttl
    {
      this.ttl := if ttl <= 0 then 30 else ttl;
      rooms, calls, this.clock := map[], [], clock;
    }

    /** True exactly when the law lets the call through; calls without an id always pass. */
    method MarkSeen(roomID: string, msgID: string, now: int) returns (first: bool)
      requires Valid() && clock <= now
      modifies this
      ensures Valid()
      ensures msgID == "" ==> first && calls == old(calls) && rooms == old(rooms) && clock == old(clock)
      ensures msgID != "" ==> calls == old(calls) + [Call(roomID, msgID, now)] && clock == now
      ensures msgID != "" ==> (first <==> Accepted(calls, ttl, |old(calls)|))
    {
      if msgID == "" {
        return true;
      }
      hide *;
      first := MarkID(roomID, msgID, now);
    }

    /** One more call: the table after it, and whether the table before it blocks it. */
    lemma MarkingAnswers(before: seq<Call>, c: Call)
      requires Ordered(before) && forall i :: 0 <= i < |before| ==> before[i].at <= c.at
      ensures Table(before + [c], ttl) == Marked(Table(before, ttl), c, ttl)
      ensures Ordered(before + [c]) && forall i :: 0 <= i < |before + [c]| ==> (before + [c])[i].at <= c.at
      ensures Accepted(before + [c], ttl, |before|) <==> !Blocked(Table(before, ttl), KeyOf(c), c.at)
    {
      hide Table, Accepted, Marked, Blocked;
      TableSnoc(before, c, ttl);
      assert (before + [c])[..|before|] == before;
      TableAnswers(before + [c], ttl, |before|);
    }

    method MarkID(roomID: string, msgID: string, now: int) returns (first: bool)
      requires Valid() && clock <= now && msgID != ""
      modifies this
      ensures Valid() && calls == old(calls) + [Call(roomID, msgID, now)] && clock == now
      ensures first <==> Accepted(calls, ttl, |old(calls)|)
    {
      hide Table, Accepted, Ordered, Marked, Blocked;
      ghost var before, c := calls, Call(roomID, msgID, now);
      MarkingAnswers(before, c);
      calls, clock := before + [c], now;
      first := Insert(roomID, msgID, now, Table(before, ttl), Table(calls, ttl));
    }

    method Insert(roomID: string, msgID: string, now: int, ghost t0: map<Key, int>, ghost t1: map<Key, int>)
      returns (first: bool)
      requires Kept(t0) && clock == now
      requires t1 == Marked(t0, Call(roomID, msgID, now), ttl)
      modifies `rooms
      ensures Kept(t1) && (first <==> !Blocked(t0, (roomID, msgID), now))
    {
      if roomID !in rooms {
        rooms := rooms[roomID := map[]];
      }
      var r := rooms[roomID];
      if msgID in r && now < r[msgID] {
        return false;
      }
      r := r[msgID := now + ttl];
      rooms := rooms[roomID := r];
      if |r| % 256 == 0 {
        SweepLocked(roomID, now, t1);
      }
      return true;
    }

    /** Drops the expired entries of a room. */
    method SweepLocked(roomID: string, now: int, ghost table: map<Key, int>)
      requires Kept(table) && clock == now && roomID in rooms
      modifies `rooms
      ensures Kept(table) && rooms.Keys == old(rooms.Keys)
      ensures forall r :: r in rooms && r != roomID ==> rooms[r] == old(rooms)[r]
      ensures forall id :: id in rooms[roomID] <==> id in old(rooms)[roomID] && now < old(rooms)[roomID][id]
    {
      var r := rooms[roomID];
      var todo := r.Keys;
      while todo != {}
        invariant todo <= r.Keys && r.Keys <= old(rooms)[roomID].Keys
        invariant forall id :: id in r ==> r[id] == old(rooms)[roomID][id]
        invariant forall id :: id in old(rooms)[roomID] ==> (id in r <==> id in todo || now < old(rooms)[roomID][id])
      {
        var id :| id in todo;
        if !(now < r[id]) {
          r := r - {id};
        }
        todo := todo - {id};
      }
      rooms := rooms[roomID := r];
    }

    /** Sweeping all rooms changes no answer and leaves no room empty. */
    method Sweep(now: int)
      requires Valid() && clock <= now
      modifies this
      ensures Valid() && calls == old(calls) && clock == now
      ensures forall r :: r in rooms ==> Fresh(rooms[r], now)
    {
      hide Table;
      clock := now;
      ghost var table := Table(calls, ttl);
      var todo := rooms.Keys;
      while todo != {}
        invariant Kept(table) && todo <= rooms.Keys && clock == now && calls == old(calls)
        invariant forall r :: r in rooms && r !in todo ==> Fresh(rooms[r], now)
      {
        var id :| id in todo;
        SweepRoom(id, now, table);
        todo := todo - {id};
      }
    }

    ghost predicate Fresh(r: map<string, int>, now: int) {
      r != map[] && forall id :: id in r ==> now < r[id]
    }

    method SweepRoom(id: string, now: int, ghost table: map<Key, int>)
      requires Kept(table) && clock == now && id in rooms
      modifies `rooms
      ensures Kept(table)
      ensures rooms.Keys == old(rooms.Keys) || rooms.Keys == old(rooms.Keys) - {id}
      ensures forall r :: r in rooms ==> if r == id then Fresh(rooms[r], now) else rooms[r] == old(rooms)[r]
    {
      SweepLocked(id, now, table);
      if |rooms[id]| == 0 {
        rooms := rooms - {id};
      }
    }

    /** Closing a room forgets its calls. */
    method Clear(roomID: string)
      requires Valid()
      modifies `rooms, `calls
      ensures Valid() && calls == Elsewhere(old(calls), roomID)
    {
      hide Table, Elsewhere;
      TableElsewhere(calls, ttl, roomID);
      ElsewhereKeeps(calls, roomID);
      rooms := rooms - {roomID};
      ghost var kept := Elsewhere(calls, roomID);
      forall i | 0 <= i < |kept|
        ensures kept[i].at <= clock
      {
        assert kept[i] in calls;
      }
      calls := kept;
    }
  }
}
