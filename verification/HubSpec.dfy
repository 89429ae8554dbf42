/** What the three indexes of a hub have to say about the same set of live connections. */
module HubSpec {
  import opened ConnTables

  /** The identity under which a live connection is registered. */
  datatype Who = Who(uid: string, device: string, room: string)

  type Live = map<string, Who>

  const PREFIX := "danmu:room:"

  function RoomChannel(room: string): string { PREFIX + room }

  function ChannelRoom(channel: string): string {
    if |channel| > |PREFIX| && channel[..|PREFIX|] == PREFIX then channel[|PREFIX|..] else channel
  }

  /** The mapping back loses exactly the room with the empty name. */
  lemma ChannelRoomInverts(room: string)
    ensures ChannelRoom(RoomChannel(room)) == room <==> room != ""
  {
    assert RoomChannel(room)[..|PREFIX|] == PREFIX && RoomChannel(room)[|PREFIX|..] == room;
    if room == "" {
      assert ChannelRoom(RoomChannel(room)) == PREFIX;
    }
  }

  lemma RoomChannelInjective(a: string, b: string)
    requires RoomChannel(a) == RoomChannel(b)
    ensures a == b
  {
    assert RoomChannel(a)[|PREFIX|..] == a && RoomChannel(b)[|PREFIX|..] == b;
  }

  ghost predicate InRoomOf(live: Live, ch: string, id: string) {
    id in live && RoomChannel(live[id].room) == ch
  }

  ghost predicate IsSession(live: Live, u: string, d: string, id: string) {
    id in live && live[id].uid == u && live[id].device == d
  }

  ghost predicate SessionsAgree<C>(live: Live, conns: map<string, C>, users: Users<C>) {
    && (forall u, d, id :: InSession(users, u, d, id) <==> IsSession(live, u, d, id))
    && (forall u, d, id :: InSession(users, u, d, id) && id in conns ==> users[u][d][id] == conns[id])
  }

  ghost predicate ChannelsAgree<C>(live: Live, conns: map<string, C>, chans: Channels<C>) {
    && (forall ch, id :: InChannel(chans, ch, id) <==> InRoomOf(live, ch, id))
    && (forall ch, id :: InChannel(chans, ch, id) && id in conns ==> chans[ch][id] == conns[id])
  }

  ghost predicate MembersAgree(live: Live, member: Members) {
    && TidyMembers(member)
    && (forall id, ch :: CountOf(member, id, ch) == if InRoomOf(live, ch, id) then 1 else 0)
  }

  /** All three indexes and the reverse table describe exactly the live connections. */
  ghost predicate Agree<C>(live: Live, conns: map<string, C>, users: Users<C>, subs: Subs<C>) {
    && conns.Keys == live.Keys
    && SessionsAgree(live, conns, users)
    && ChannelsAgree(live, conns, subs.chans)
    && MembersAgree(live, subs.member)
  }

  lemma EmptyAgree<C>()
    ensures Agree<C>(map[], map[], map[], Subs(map[], map[]))
  {
  }

  lemma AgreeKeys<C>(live: Live, conns: map<string, C>, users: Users<C>, subs: Subs<C>)
    requires Agree(live, conns, users, subs)
    ensures conns.Keys == live.Keys
  {
  }

  lemma AddAgree<C>(live: Live, conns: map<string, C>, users: Users<C>, subs: Subs<C>, id: string, w: Who, c: C)
    requires Agree(live, conns, users, subs) && id !in live
    ensures Agree(live[id := w], conns[id := c], SessionAdd(users, w.uid, w.device, id, c),
                  Subscribe(subs, RoomChannel(w.room), id, c))
  {
    hide SessionAdd, ForwardAdd, ReverseAdd, InSession, InChannel, CountOf, TidyMembers, RoomChannel;
    var live', conns' := live[id := w], conns[id := c];
    assert SessionsAgree(live', conns', SessionAdd(users, w.uid, w.device, id, c)) by {
      AddSessions(live, conns, users, id, w, c);
    }
    assert ChannelsAgree(live', conns', ForwardAdd(subs.chans, RoomChannel(w.room), id, c)) by {
      AddChannels(live, conns, subs.chans, id, w, c);
    }
    assert MembersAgree(live', ReverseAdd(subs.member, id, RoomChannel(w.room))) by {
      AddMembers(live, subs.member, id, w);
    }
  }

  /** The sections of AddClient keep the indexes in agreement exactly if the id is not in use. */
  lemma AddAgreeExactly<C>(live: Live, conns: map<string, C>, users: Users<C>, subs: Subs<C>, id: string,
                           w: Who, c: C)
    requires Agree(live, conns, users, subs)
    ensures id !in live <==> Agree(live[id := w], conns[id := c], SessionAdd(users, w.uid, w.device, id, c),
                                   Subscribe(subs, RoomChannel(w.room), id, c))
  {
    hide SessionAdd, ForwardAdd, ReverseAdd, InSession, InChannel, CountOf, TidyMembers, RoomChannel;
    if id !in live {
      AddAgree(live, conns, users, subs, id, w, c);
    } else {
      var ch, member := RoomChannel(live[id].room), ReverseAdd(subs.member, id, RoomChannel(w.room));
      ReverseAddAt(subs.member, id, RoomChannel(w.room), id, ch);
      assert CountOf(subs.member, id, ch) == if InRoomOf(live, ch, id) then 1 else 0;
      assert CountOf(member, id, ch) != if InRoomOf(live[id := w], ch, id) then 1 else 0;
    }
  }

  lemma AddSessions<C>(live: Live, conns: map<string, C>, users: Users<C>, id: string, w: Who, c: C)
    requires conns.Keys == live.Keys && SessionsAgree(live, conns, users) && id !in live
    ensures SessionsAgree(live[id := w], conns[id := c], SessionAdd(users, w.uid, w.device, id, c))
  {
    hide SessionAdd;
    forall u, d, i
      ensures InSession(SessionAdd(users, w.uid, w.device, id, c), u, d, i) <==> IsSession(live[id := w], u, d, i)
      ensures InSession(SessionAdd(users, w.uid, w.device, id, c), u, d, i) && i in conns[id := c] ==>
                SessionAdd(users, w.uid, w.device, id, c)[u][d][i] == conns[id := c][i]
    {
      SessionAddAt(users, w.uid, w.device, id, c, u, d, i);
      assert InSession(users, u, d, i) <==> IsSession(live, u, d, i);
    }
  }

  lemma AddChannels<C>(live: Live, conns: map<string, C>, chans: Channels<C>, id: string, w: Who, c: C)
    requires conns.Keys == live.Keys && ChannelsAgree(live, conns, chans) && id !in live
    ensures ChannelsAgree(live[id := w], conns[id := c], ForwardAdd(chans, RoomChannel(w.room), id, c))
  {
    hide ForwardAdd, RoomChannel;
    forall ch, i
      ensures InChannel(ForwardAdd(chans, RoomChannel(w.room), id, c), ch, i) <==> InRoomOf(live[id := w], ch, i)
      ensures InChannel(ForwardAdd(chans, RoomChannel(w.room), id, c), ch, i) && i in conns[id := c] ==>
                ForwardAdd(chans, RoomChannel(w.room), id, c)[ch][i] == conns[id := c][i]
    {
      ForwardAddAt(chans, RoomChannel(w.room), id, c, ch, i);
      assert InChannel(chans, ch, i) <==> InRoomOf(live, ch, i);
    }
  }

  lemma AddMembers(live: Live, member: Members, id: string, w: Who)
    requires MembersAgree(live, member) && id !in live
    ensures MembersAgree(live[id := w], ReverseAdd(member, id, RoomChannel(w.room)))
  {
    hide ReverseAdd, RoomChannel, CountOf, TidyMembers;
    ReverseTidy(member, id, RoomChannel(w.room));
    forall i, ch
      ensures CountOf(ReverseAdd(member, id, RoomChannel(w.room)), i, ch) ==
              if InRoomOf(live[id := w], ch, i) then 1 else 0
    {
      ReverseAddAt(member, id, RoomChannel(w.room), i, ch);
      assert CountOf(member, i, ch) == if InRoomOf(live, ch, i) then 1 else 0;
    }
  }

  lemma RemoveAgree<C>(live: Live, conns: map<string, C>, users: Users<C>, subs: Subs<C>, id: string,
                       channels: seq<string>)
    requires Agree(live, conns, users, subs) && id in live
    requires Snapshot(subs.member, id, channels)
    ensures Agree(live - {id}, conns - {id}, SessionRemove(users, live[id].uid, live[id].device, id),
                  UnsubscribeAll(subs, channels, id))
  {
    hide SessionRemove, UnsubscribeAll, InSession, InChannel, CountOf, TidyMembers, RoomChannel, Snapshot;
    var live', conns' := live - {id}, conns - {id};
    assert SessionsAgree(live', conns', SessionRemove(users, live[id].uid, live[id].device, id)) by {
      RemoveSessions(live, conns, users, id);
    }
    assert ChannelsAgree(live', conns', UnsubscribeAll(subs, channels, id).chans) by {
      RemoveChannels(live, conns, subs, id, channels);
    }
    assert MembersAgree(live', UnsubscribeAll(subs, channels, id).member) by {
      RemoveMembers(live, subs, id, channels);
    }
  }

  /** The sections of RemoveClient, called with some user and device, keep the indexes in agreement
      exactly if these are the connection's own. */
  lemma RemoveAgreeExactly<C>(live: Live, conns: map<string, C>, users: Users<C>, subs: Subs<C>, id: string,
                              uid: string, device: string, channels: seq<string>)
    requires Agree(live, conns, users, subs) && id in live
    requires Snapshot(subs.member, id, channels)
    ensures live[id].uid == uid && live[id].device == device <==>
            Agree(live - {id}, conns - {id}, SessionRemove(users, uid, device, id),
                  UnsubscribeAll(subs, channels, id))
  {
    hide SessionRemove, UnsubscribeAll, InSession, InChannel, CountOf, TidyMembers, RoomChannel, Snapshot;
    var u, d := live[id].uid, live[id].device;
    if u == uid && d == device {
      RemoveAgree(live, conns, users, subs, id, channels);
    } else {
      SessionRemoveAt(users, uid, device, id, u, d, id);
      assert IsSession(live, u, d, id) && InSession(users, u, d, id);
      assert InSession(SessionRemove(users, uid, device, id), u, d, id) && !IsSession(live - {id}, u, d, id);
    }
  }

  lemma RemoveSessions<C>(live: Live, conns: map<string, C>, users: Users<C>, id: string)
    requires conns.Keys == live.Keys && SessionsAgree(live, conns, users) && id in live
    ensures SessionsAgree(live - {id}, conns - {id}, SessionRemove(users, live[id].uid, live[id].device, id))
  {
    hide SessionRemove;
    var users' := SessionRemove(users, live[id].uid, live[id].device, id);
    forall u, d, i
      ensures InSession(users', u, d, i) <==> IsSession(live - {id}, u, d, i)
      ensures InSession(users', u, d, i) && i in conns - {id} ==> users'[u][d][i] == (conns - {id})[i]
    {
      SessionRemoveAt(users, live[id].uid, live[id].device, id, u, d, i);
      assert InSession(users, u, d, i) <==> IsSession(live, u, d, i);
    }
  }

  lemma RemoveChannels<C>(live: Live, conns: map<string, C>, subs: Subs<C>, id: string, channels: seq<string>)
    requires conns.Keys == live.Keys && ChannelsAgree(live, conns, subs.chans) && MembersAgree(live, subs.member)
    requires id in live && Snapshot(subs.member, id, channels)
    ensures ChannelsAgree(live - {id}, conns - {id}, UnsubscribeAll(subs, channels, id).chans)
  {
    hide UnsubscribeAll, RoomChannel, TidyMembers;
    var chans' := UnsubscribeAll(subs, channels, id).chans;
    forall ch, i
      ensures InChannel(chans', ch, i) <==> InRoomOf(live - {id}, ch, i)
      ensures InChannel(chans', ch, i) && i in conns - {id} ==> chans'[ch][i] == (conns - {id})[i]
    {
      UnsubscribeAllAt(subs, channels, id, ch, i);
      assert InChannel(subs.chans, ch, i) <==> InRoomOf(live, ch, i);
      assert CountOf(subs.member, i, ch) == if InRoomOf(live, ch, i) then 1 else 0;
    }
  }

  lemma RemoveMembers<C>(live: Live, subs: Subs<C>, id: string, channels: seq<string>)
    requires MembersAgree(live, subs.member) && id in live && Snapshot(subs.member, id, channels)
    ensures MembersAgree(live - {id}, UnsubscribeAll(subs, channels, id).member)
  {
    hide UnsubscribeAll, RoomChannel, TidyMembers;
    UnsubscribeAllTidy(subs, channels, id);
    var member' := UnsubscribeAll(subs, channels, id).member;
    forall i, ch
      ensures CountOf(member', i, ch) == if InRoomOf(live - {id}, ch, i) then 1 else 0
    {
      UnsubscribeAllAt(subs, channels, id, ch, i);
      assert CountOf(subs.member, i, ch) == if InRoomOf(live, ch, i) then 1 else 0;
    }
  }

  // ------------------------------------------------ what the counters count

  ghost function UsersOf(live: Live): set<string> { set id | id in live :: live[id].uid }

  ghost function DevicesOnline(live: Live): set<(string, string)> {
    set id | id in live :: (live[id].uid, live[id].device)
  }

  ghost function RoomsOf(live: Live): set<string> { set id | id in live :: live[id].room }

  /** The sizes behind the four counters are those of the live connections. */
  lemma CountsAgree<C>(live: Live, conns: map<string, C>, users: Users<C>, subs: Subs<C>)
    requires Agree(live, conns, users, subs) && NoEmptySession(users) && NoEmptyChannel(subs.chans)
    ensures |conns| == |live|
    ensures |users| == |UsersOf(live)|
    ensures |DevicePairs(users)| == |DevicesOnline(live)|
    ensures |subs.chans| == |RoomsOf(live)|
  {
    assert |conns.Keys| == |live.Keys|;
    UserCounts(live, conns, users);
    RoomCounts(live, conns, subs.chans);
  }

  lemma UserCounts<C>(live: Live, conns: map<string, C>, users: Users<C>)
    requires SessionsAgree(live, conns, users) && NoEmptySession(users)
    ensures users.Keys == UsersOf(live) && DevicePairs(users) == DevicesOnline(live)
  {
    forall u, d | u in users && d in users[u]
      ensures (u, d) in DevicesOnline(live) && u in UsersOf(live)
    {
      var id :| id in users[u][d];
      assert InSession(users, u, d, id) && IsSession(live, u, d, id);
    }
    forall u | u in users
      ensures u in UsersOf(live)
    {
      var d :| d in users[u];
    }
    forall id | id in live
      ensures InSession(users, live[id].uid, live[id].device, id)
    {
      assert IsSession(live, live[id].uid, live[id].device, id);
    }
  }

  ghost function ChannelsOf(live: Live): set<string> { set room | room in RoomsOf(live) :: RoomChannel(room) }

  lemma RoomCounts<C>(live: Live, conns: map<string, C>, chans: Channels<C>)
    requires ChannelsAgree(live, conns, chans) && NoEmptyChannel(chans)
    ensures |chans| == |RoomsOf(live)|
    ensures chans.Keys == ChannelsOf(live)
  {
    forall room
      ensures RoomChannel(room) in chans <==> room in RoomsOf(live)
    {
      if RoomChannel(room) in chans {
        var id :| id in chans[RoomChannel(room)];
        assert InChannel(chans, RoomChannel(room), id) && InRoomOf(live, RoomChannel(room), id);
        RoomChannelInjective(live[id].room, room);
      }
      if room in RoomsOf(live) {
        var id :| id in live && live[id].room == room;
        assert InRoomOf(live, RoomChannel(room), id) && InChannel(chans, RoomChannel(room), id);
      }
    }
    forall ch | ch in chans
      ensures exists room :: room in RoomsOf(live) && ch == RoomChannel(room)
    {
      var id :| id in chans[ch];
      assert InChannel(chans, ch, id) && InRoomOf(live, ch, id);
      assert live[id].room in RoomsOf(live);
    }
    ChannelsOfRooms(chans.Keys, RoomsOf(live));
  }

  lemma {:induction false} ChannelsOfRooms(channels: set<string>, rooms: set<string>)
    requires forall room :: RoomChannel(room) in channels <==> room in rooms
    requires forall ch :: ch in channels ==> exists room :: room in rooms && ch == RoomChannel(room)
    ensures |channels| == |rooms|
    decreases rooms
  {
    if rooms == {} {
      assert channels == {};
    } else {
      var room :| room in rooms;
      forall r | r != room
        ensures RoomChannel(r) != RoomChannel(room)
      {
        if RoomChannel(r) == RoomChannel(room) {
          RoomChannelInjective(r, room);
        }
      }
      ChannelsOfRooms(channels - {RoomChannel(room)}, rooms - {room});
    }
  }
}
