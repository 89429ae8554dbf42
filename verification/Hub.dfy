/** The hub of the distributed server: one registration, removal, room closing or kick at a time
    over the three indexes. */
module Hub {
  import opened ConnTables
  import opened ConnKernel
  import opened HubSpec

  datatype SessionPolicy = MultiDevice | SingleDevicePerUser

  const DEFAULT_DEVICE := "default"

  function Digit(d: nat): char
    requires d < 10
  {
    "0123456789"[d]
  }

  function Decimal(n: nat): (s: string)
    ensures s != []
  {
    if n < 10 then [Digit(n)] else Decimal(n / 10) + [Digit(n % 10)]
  }

  lemma DigitInjective(a: nat, b: nat)
    requires a < 10 && b < 10 && Digit(a) == Digit(b)
    ensures a == b
  {
  }

  lemma {:induction false} DecimalInjective(m: nat, n: nat)
    requires Decimal(m) == Decimal(n)
    ensures m == n
  {
    var s := Decimal(m);
    assert s[|s| - 1] == Digit(m % 10) == Digit(n % 10);
    DigitInjective(m % 10, n % 10);
    if m >= 10 && n >= 10 {
      assert s[..|s| - 1] == Decimal(m / 10) == Decimal(n / 10);
      DecimalInjective(m / 10, n / 10);
    }
  }

  function ConnectionID(server: string, n: nat): string {
    server + "-conn-" + Decimal(n)
  }

  lemma ConnectionIDInjective(server: string, m: nat, n: nat)
    requires ConnectionID(server, m) == ConnectionID(server, n)
    ensures m == n
  {
    var p := server + "-conn-";
    assert ConnectionID(server, m)[|p|..] == Decimal(m) && ConnectionID(server, n)[|p|..] == Decimal(n);
    DecimalInjective(m, n);
  }

  function Identity(c: Client): Who
    reads c
  {
    Who(c.uid, c.deviceID, c.roomID)
  }

  datatype RoomInfo = RoomInfo(roomID: string, onlineCount: nat)

  ghost function IdsIn(live: Live, room: string): set<string> {
    set id | id in live && live[id].room == room
  }

  /** The live connections that remain when those meeting a condition go. */
  ghost function Remaining(live: Live, who: Who -> bool): Live {
    map id | id in live && !who(live[id]) :: live[id]
  }

  /** All ids in use are among the first n issued by the server. */
  ghost predicate Issued(serverID: string, live: Live, n: nat) {
    forall id :: id in live ==> exists k: nat :: 0 < k <= n && id == ConnectionID(serverID, k)
  }

  /** Registering under the next id, and dropping connections, keeps all ids issued. */
  lemma IssuedKept(serverID: string, live: Live, n: nat, live': Live, m: nat)
    requires Issued(serverID, live, n) && n <= m
    requires forall id :: id in live' && id !in live ==> m == n + 1 && id == ConnectionID(serverID, m)
    ensures Issued(serverID, live', m)
  {
  }

  lemma IssuedShrinks(serverID: string, live: Live, n: nat, live': Live)
    requires live'.Keys <= live.Keys
    ensures Issued(serverID, live, n) ==> Issued(serverID, live', n)
  {
  }

  ghost predicate OnePerUser(live: Live) {
    forall i, j :: i in live && j in live && live[i].uid == live[j].uid ==> i == j
  }

  lemma OneMore(live: Live, id: string, w: Who)
    requires OnePerUser(live) && id !in live && forall i :: i in live ==> live[i].uid != w.uid
    ensures OnePerUser(live[id := w])
  {
  }

  class Hub {
    const serverID: string
    const policy: SessionPolicy
    const connMan: ConnectionManager
    const sessions: SessionIndex
    const subs: SubscriptionIndex
    var connSeq: nat
    ghost var live: Live

    ghost predicate Indexes()
      reads this`live, connMan, sessions, subs
    {
      && connMan.Valid() && sessions.Valid() && subs.Valid()
      && Agree(live, connMan.conns, sessions.users, subs.subs)
    }

    /** Clients are registered under their own identity, which is complete. */
    ghost predicate Registered()
      reads this`live, connMan, connMan.conns.Values
    {
      && connMan.conns.Keys == live.Keys
      && (forall id :: id in live ==> connMan.conns[id].connectionID == id && Identity(connMan.conns[id]) == live[id])
      && (forall id :: id in live ==> id != "" && live[id].device != "")
    }

    /** Under the single-device policy a user has at most one connection. */
    ghost predicate PolicyHolds()
      reads this`live
    {
      policy == SingleDevicePerUser ==> OnePerUser(live)
    }

    ghost predicate Valid()
      reads this, connMan, sessions, subs, connMan.conns.Values
    {
      Indexes() && Registered() && PolicyHolds()
    }

    /** Valid, with only issued ids in use: what a hub is whose clients all come without an id. */
    ghost predicate ValidIssued()
      reads this, connMan, sessions, subs, connMan.conns.Values
    {
      Valid() && Issued(serverID, live, connSeq)
    }

    constructor (serverID: string, policy: SessionPolicy, hash: string -> ShardIx)
      ensures Valid() && ValidIssued() && connSeq == 0 && live == map[] && this.policy == policy &&
              this.serverID == serverID
      ensures fresh(connMan) && fresh(sessions) && fresh(subs)
    {
      this.serverID, this.policy := serverID, policy;
      connMan := new ConnectionManager(hash);
      sessions := new SessionIndex(hash);
      subs := new SubscriptionIndex(hash);
      connSeq, live := 0, map[];
      new;
      EmptyAgree<Client>();
    }

    /** The four counters are the numbers of live connections, users, devices and rooms. */
    lemma CountersMatch()
      requires Valid()
      ensures connMan.count == |live|
      ensures sessions.userCount == |UsersOf(live)|
      ensures sessions.deviceCount == |DevicesOnline(live)|
      ensures subs.channelCount == |RoomsOf(live)|
    {
      CountsAgree(live, connMan.conns, sessions.users, subs.subs);
    }

    /** The client's id is not in use, or is used by this user and device. */
    ghost predicate Belongs(c: Client)
      reads this`live, c
    {
      c.connectionID in live ==> live[c.connectionID].uid == c.uid && live[c.connectionID].device == c.deviceID
    }

    /** Takes a connection out of all three indexes; an id that is not registered is left alone. The
        indexes stay in agreement exactly if the client has no one else's id. */
    method RemoveClient(c: Client)
      requires Valid()
      modifies this`live, connMan, sessions, subs
      ensures Valid() <==> old(Belongs(c))
      ensures old(ValidIssued()) && old(Belongs(c)) ==> ValidIssued()
      ensures live == old(live) - {c.connectionID}
      ensures connMan.conns == old(connMan.conns) - {c.connectionID}
    {
      hide Agree, Indexes, Issued;
      IssuedShrinks(serverID, live, connSeq, live - {c.connectionID});
      RemoveFromIndexes(c);
    }

    method RemoveFromIndexes(c: Client)
      requires Indexes()
      modifies this`live, connMan, sessions, subs
      ensures Indexes() <==> old(Belongs(c))
      ensures live == old(live) - {c.connectionID}
      ensures connMan.conns == old(connMan.conns) - {c.connectionID}
    {
      hide Agree, SessionRemove, UnsubscribeAll, Snapshot, InSession, ConnectionManager.Valid,
        SessionIndex.Valid, SubscriptionIndex.Valid;
      AgreeKeys(live, connMan.conns, sessions.users, subs.subs);
      ghost var conns, users, tables := connMan.conns, sessions.users, subs.subs;
      var found := connMan.Remove(c);
      if !found {
        assert live - {c.connectionID} == live && connMan.conns == conns;
        return;
      }
      var _ := sessions.Remove(c);
      ghost var channels := subs.RemoveConn(c);
      RemoveAgreeExactly(live, conns, users, tables, c.connectionID, c.uid, c.deviceID, channels);
      live := live - {c.connectionID};
    }

    /** The registered clients whose identity meets a condition. */
    ghost predicate Selected(victims: set<Client>, who: Who -> bool)
      requires Registered()
      reads this`live, connMan, connMan.conns.Values
    {
      victims == set id | id in live && who(live[id]) :: connMan.conns[id]
    }

    /** Removes every victim and closes it. */
    method Disconnect(victims: set<Client>, ghost who: Who -> bool, code: int, reason: string)
      requires Valid() && Selected(victims, who)
      modifies this`live, connMan, sessions, subs, victims`closed
      ensures Valid()
      ensures live == Remaining(old(live), who)
      ensures connMan.conns.Values <= old(connMan.conns.Values)
      ensures forall c :: c in victims ==> c.closed == AfterClose(old(c.closed), code, reason)
    {
      hide Agree, Indexes, PolicyHolds;
      ghost var ids := set c | c in victims :: c.connectionID;
      VictimsRegistered(victims, who);
      DropAll(victims, code, reason);
      assert old(live) - ids == Remaining(old(live), who);
    }

    method DropAll(victims: set<Client>, code: int, reason: string)
      requires Valid()
      requires forall c :: c in victims ==>
                             c.connectionID in live && c.connectionID in connMan.conns &&
                             connMan.conns[c.connectionID] == c
      modifies this`live, connMan, sessions, subs, victims`closed
      ensures Valid()
      ensures var ids := set c | c in victims :: c.connectionID;
              live == old(live) - ids && connMan.conns == old(connMan.conns) - ids
      ensures forall c :: c in victims ==> c.closed == AfterClose(old(c.closed), code, reason)
    {
      hide Valid, Agree;
      ghost var gone := {};
      var todo := victims;
      while todo != {}
        invariant todo <= victims && Valid() && gone == set c | c in victims - todo :: c.connectionID
        invariant live == old(live) - gone && connMan.conns == old(connMan.conns) - gone
        invariant forall c :: c in todo ==>
                                c.connectionID in live && c.connectionID in connMan.conns &&
                                connMan.conns[c.connectionID] == c
        invariant forall c :: c in victims ==>
                                c.closed == if c in todo
                                then old(c.closed) else AfterClose(old(c.closed), code, reason)
      {
        var c :| c in todo;
        Drop(c, code, reason);
        gone, todo := gone + {c.connectionID}, todo - {c};
      }
    }

    lemma VictimsRegistered(victims: set<Client>, who: Who -> bool)
      requires Valid() && Selected(victims, who)
      ensures forall c :: c in victims ==>
                            c.connectionID in live && c.connectionID in connMan.conns &&
                            connMan.conns[c.connectionID] == c
      ensures (set c | c in victims :: c.connectionID) == set id | id in live && who(live[id])
    {
    }

    method Drop(c: Client, code: int, reason: string)
      requires Valid() && c.connectionID in live && c.connectionID in connMan.conns &&
               connMan.conns[c.connectionID] == c
      modifies this`live, connMan, sessions, subs, c`closed
      ensures Valid() && c.closed == AfterClose(old(c.closed), code, reason)
      ensures live == old(live) - {c.connectionID}
      ensures connMan.conns == old(connMan.conns) - {c.connectionID}
    {
      hide Indexes, PolicyHolds;
      RemoveClient(c);
      c.Close(code, reason);
    }

    /** Who is selected can be read off the registered clients themselves. */
    lemma VictimsAre(victims: set<Client>, who: Who -> bool)
      requires Registered() && Selected(victims, who)
      ensures forall c :: c in connMan.conns.Values ==> (c in victims <==> who(Identity(c)))
      ensures victims <= connMan.conns.Values
    {
      forall c | c in connMan.conns.Values
        ensures c in victims <==> who(Identity(c))
      {
        var id :| id in connMan.conns && connMan.conns[id] == c;
        assert Identity(c) == live[id];
      }
    }

    lemma AnyVictim(victims: set<Client>, who: Who -> bool)
      requires Registered() && Selected(victims, who)
      ensures victims != {} <==> exists id :: id in live && who(live[id])
      ensures victims == {} ==> Remaining(live, who) == live
    {
      forall id | id in live && who(live[id])
        ensures connMan.conns[id] in victims
      {
      }
    }

    /** Closes a room: every connection in it, of any user or device, is dropped. */
    method CloseRoom(roomID: string) returns (existed: bool)
      requires Valid()
      modifies this`live, connMan, sessions, subs, connMan.conns.Values
      ensures Valid() && (old(ValidIssued()) ==> ValidIssued())
      ensures existed <==> roomID in RoomsOf(old(live))
      ensures live == Remaining(old(live), (w: Who) => w.room == roomID)
      ensures forall c :: c in old(connMan.conns.Values) ==>
                            c.closed == if c.roomID == roomID
                            then AfterClose(old(c.closed), 4001, "room closed") else old(c.closed)
    {
      hide Agree, Indexes, PolicyHolds, AfterClose, Selected, Registered, Issued;
      IssuedShrinks(serverID, live, connSeq, Remaining(live, (w: Who) => w.room == roomID));
      var victims := Subscribers(roomID);
      AnyVictim(victims, (w: Who) => w.room == roomID);
      VictimsAre(victims, (w: Who) => w.room == roomID);
      if victims == {} {
        return false;
      }
      Disconnect(victims, (w: Who) => w.room == roomID, 4001, "room closed");
      return true;
    }

    /** Drops every connection of a user in a room. */
    method KickClient(roomID: string, uid: string) returns (kicked: bool)
      requires Valid()
      modifies this`live, connMan, sessions, subs, connMan.conns.Values
      ensures Valid() && (old(ValidIssued()) ==> ValidIssued())
      ensures kicked <==> exists id :: id in old(live) && old(live)[id].room == roomID && old(live)[id].uid == uid
      ensures live == Remaining(old(live), (w: Who) => w.room == roomID && w.uid == uid)
      ensures forall c :: c in old(connMan.conns.Values) ==>
                            c.closed == if c.roomID == roomID && c.uid == uid
                            then AfterClose(old(c.closed), 4001, "kicked") else old(c.closed)
    {
      hide Agree, Indexes, PolicyHolds, AfterClose, Selected, Registered, Issued;
      IssuedShrinks(serverID, live, connSeq, Remaining(live, (w: Who) => w.room == roomID && w.uid == uid));
      var victims := Visitors(roomID, uid);
      AnyVictim(victims, (w: Who) => w.room == roomID && w.uid == uid);
      VictimsAre(victims, (w: Who) => w.room == roomID && w.uid == uid);
      kicked := victims != {};
      Disconnect(victims, (w: Who) => w.room == roomID && w.uid == uid, 4001, "kicked");
    }

    /** The registered clients of a user in a room. */
    method Visitors(roomID: string, uid: string) returns (out: set<Client>)
      requires Valid()
      ensures Selected(out, (w: Who) => w.room == roomID && w.uid == uid)
    {
      hide Agree, Indexes, PolicyHolds;
      var inRoom := Subscribers(roomID);
      out := set c | c in inRoom && c.uid == uid;
    }

    /** The registered clients of a room, by its channel. */
    method Subscribers(roomID: string) returns (out: set<Client>)
      requires Valid()
      ensures Selected(out, (w: Who) => w.room == roomID)
    {
      out := subs.GetSubscribers(RoomChannel(roomID));
      forall id | id in live
        ensures InChannel(subs.subs.chans, RoomChannel(roomID), id) <==> live[id].room == roomID
      {
        assert InRoomOf(live, RoomChannel(roomID), id) <==> InChannel(subs.subs.chans, RoomChannel(roomID), id);
        if RoomChannel(live[id].room) == RoomChannel(roomID) {
          RoomChannelInjective(live[id].room, roomID);
        }
      }
    }

    /** The registered clients of a user, over all devices. */
    method UserConnections(uid: string) returns (out: set<Client>)
      requires Valid()
      ensures Selected(out, (w: Who) => w.uid == uid) && out <= connMan.conns.Values
      ensures forall id :: id in live && live[id].uid == uid ==> id in connMan.conns && connMan.conns[id] in out
    {
      hide ConnectionManager.Valid, SessionIndex.Valid, SubscriptionIndex.Valid, ChannelsAgree, MembersAgree,
        PolicyHolds;
      out := sessions.GetUserConnections(uid);
      forall id | id in live && live[id].uid == uid
        ensures connMan.conns[id] in out
      {
        assert IsSession(live, uid, live[id].device, id);
        assert Online(sessions.users, uid, connMan.conns[id]);
      }
      forall c | c in out
        ensures exists id :: id in live && live[id].uid == uid && connMan.conns[id] == c
      {
        assert Online(sessions.users, uid, c);
        var d, id :| InSession(sessions.users, uid, d, id) && sessions.users[uid][d][id] == c;
        assert IsSession(live, uid, d, id);
      }
    }

    /** The id a client is registered under: its own, or the next one to be issued. */
    ghost function IdFor(c: Client): string
      reads this`connSeq, c
    {
      if c.connectionID == "" then ConnectionID(serverID, connSeq + 1) else c.connectionID
    }

    /** The connections the single-device policy drops when the client is added. */
    ghost function Others(c: Client): set<string>
      requires connMan.conns.Keys == live.Keys
      reads this`live, connMan
    {
      set id | id in live && policy == SingleDevicePerUser && live[id].uid == c.uid && connMan.conns[id] != c
    }

    /** The client's id is not in use, or only by a connection that will be dropped. */
    ghost predicate Fits(c: Client)
      requires connMan.conns.Keys == live.Keys
      reads this`live, this`connSeq, c, connMan
    {
      IdFor(c) in live ==> IdFor(c) in Others(c)
    }

    /** Registers a connection, after dropping the user's others under the single-device policy. The
        hub stays valid exactly if the client fits. */
    method AddClient(c: Client)
      requires Valid()
      modifies this, connMan, sessions, subs, c, connMan.conns.Values
      ensures Valid() <==> old(Fits(c))
      ensures old(ValidIssued()) && old(c.connectionID) == "" ==> ValidIssued()
      ensures c.connectionID == old(IdFor(c)) && c.gatewayID == serverID
      ensures c.deviceID == if old(c.deviceID) == "" then DEFAULT_DEVICE else old(c.deviceID)
      ensures live == (old(live) - old(Others(c)))[c.connectionID := Identity(c)]
      ensures forall d :: d in old(connMan.conns.Values) ==>
                            d.closed == if policy == SingleDevicePerUser && d.uid == c.uid && d != c
                            then AfterClose(old(d.closed), 4009, "session replaced by new connection")
                            else old(d.closed)
      ensures connSeq == old(connSeq) + if old(c.connectionID) == "" then 1 else 0
    {
      hide Agree, Indexes, ConnectionID, AfterClose, PolicyHolds, Registered, Issued;
      KeysMatch();
      if c.connectionID == "" {
        NextFits(c);
      }
      Assign(c);
      Admit(c);
    }

    /** Registers a client whose identity is complete. */
    method Admit(c: Client)
      requires Valid() && c.connectionID != "" && c.deviceID != ""
      modifies this`live, connMan, sessions, subs, connMan.conns.Values`closed
      ensures Valid() <==> (c.connectionID in old(live) ==> c.connectionID in old(Others(c)))
      ensures live == (old(live) - old(Others(c)))[c.connectionID := Identity(c)]
      ensures forall d :: d in old(connMan.conns.Values) ==>
                            d.closed == if policy == SingleDevicePerUser && d.uid == c.uid && d != c
                            then AfterClose(old(d.closed), 4009, "session replaced by new connection")
                            else old(d.closed)
    {
      hide Agree, Indexes, AfterClose, PolicyHolds, Registered;
      KeysMatch();
      DropOthers(c);
      OnlyItself(c, old(live), old(connMan.conns));
      Register(c);
    }

    lemma KeysMatch()
      requires Registered()
      ensures connMan.conns.Keys == live.Keys
    {
    }

    lemma OnlyItself(c: Client, was: Live, conns: map<string, Client>)
      requires conns.Keys == was.Keys
      requires var others := set id | id in was && policy == SingleDevicePerUser && was[id].uid == c.uid &&
                                      conns[id] != c;
               live == was - others && connMan.conns == conns - others
      ensures policy == SingleDevicePerUser ==> forall id :: id in live && live[id].uid == c.uid ==>
                                                               connMan.conns[id] == c
    {
    }

    /** A client without an id fits as long as only issued ids are in use. */
    lemma NewClientFits(c: Client)
      requires Valid() && Issued(serverID, live, connSeq) && c.connectionID == ""
      ensures Fits(c)
    {
      if IdFor(c) in live {
        var k: nat :| 0 < k <= connSeq && ConnectionID(serverID, connSeq + 1) == ConnectionID(serverID, k);
        ConnectionIDInjective(serverID, connSeq + 1, k);
      }
    }

    /** A client without an id fits and leaves only issued ids, if there were only issued ones. */
    lemma NextFits(c: Client)
      requires Valid() && c.connectionID == ""
      ensures Issued(serverID, live, connSeq) ==> Fits(c)
      ensures Issued(serverID, live, connSeq) ==>
                forall live': Live :: live'.Keys <= live.Keys + {IdFor(c)} ==> Issued(serverID, live', connSeq + 1)
    {
      if Issued(serverID, live, connSeq) {
        NewClientFits(c);
        forall live': Live | live'.Keys <= live.Keys + {IdFor(c)}
          ensures Issued(serverID, live', connSeq + 1)
        {
          IssuedKept(serverID, live, connSeq, live', connSeq + 1);
        }
      }
    }

    /** Completes a client's identity; a registered client has one already. */
    method Assign(c: Client)
      requires Valid()
      modifies this`connSeq, c`connectionID, c`deviceID, c`gatewayID
      ensures Valid() && connSeq == old(connSeq) + if old(c.connectionID) == "" then 1 else 0
      ensures c.connectionID == old(IdFor(c)) != ""
      ensures c.deviceID == (if old(c.deviceID) == "" then DEFAULT_DEVICE else old(c.deviceID)) &&
              c.gatewayID == serverID
    {
      hide Agree, Indexes;
      if c.connectionID == "" {
        connSeq := connSeq + 1;
        c.connectionID := ConnectionID(serverID, connSeq);
      }
      if c.deviceID == "" {
        c.deviceID := DEFAULT_DEVICE;
      }
      c.gatewayID := serverID;
    }

    method DropOthers(c: Client)
      requires Valid()
      modifies this`live, connMan, sessions, subs, connMan.conns.Values`closed
      ensures Valid()
      ensures live == old(live) - old(Others(c)) && connMan.conns == old(connMan.conns) - old(Others(c))
      ensures forall d :: d in old(connMan.conns.Values) ==>
                            d.closed == if policy == SingleDevicePerUser && d.uid == c.uid && d != c
                            then AfterClose(old(d.closed), 4009, "session replaced by new connection")
                            else old(d.closed)
    {
      hide Agree, Indexes, PolicyHolds, AfterClose;
      if policy == SingleDevicePerUser {
        var olds := OtherClients(c);
        DropAll(olds, 4009, "session replaced by new connection");
      } else {
        assert Others(c) == {};
      }
    }

    method OtherClients(c: Client) returns (olds: set<Client>)
      requires Valid() && policy == SingleDevicePerUser
      ensures olds <= connMan.conns.Values
      ensures forall d :: d in connMan.conns.Values ==> (d in olds <==> d.uid == c.uid && d != c)
      ensures forall d :: d in olds ==>
                            d.connectionID in live && d.connectionID in connMan.conns &&
                            connMan.conns[d.connectionID] == d
      ensures (set d | d in olds :: d.connectionID) == Others(c)
    {
      hide Agree, Indexes, PolicyHolds;
      olds := UserConnections(c.uid);
      OthersAre(olds, c);
      olds := olds - {c};
    }

    lemma OthersAre(olds: set<Client>, c: Client)
      requires Registered() && Selected(olds, (w: Who) => w.uid == c.uid) && policy == SingleDevicePerUser
      ensures forall d :: d in connMan.conns.Values ==> (d in olds <==> d.uid == c.uid)
      ensures olds <= connMan.conns.Values
      ensures forall d :: d in olds ==>
                            d.connectionID in live && d.connectionID in connMan.conns &&
                            connMan.conns[d.connectionID] == d
      ensures (set d | d in olds - {c} :: d.connectionID) == Others(c)
    {
      VictimsAre(olds, (w: Who) => w.uid == c.uid);
    }

    /** Adds a complete client to the indexes. */
    method Register(c: Client)
      requires Valid() && c.connectionID != "" && c.deviceID != ""
      requires policy == SingleDevicePerUser ==> forall id :: id in live && live[id].uid == c.uid ==>
                                                                connMan.conns[id] == c
      modifies this`live, connMan, sessions, subs
      ensures Valid() <==> c.connectionID !in old(live)
      ensures live == old(live)[c.connectionID := Identity(c)]
    {
      hide Agree, Indexes, OnePerUser;
      if policy == SingleDevicePerUser && c.connectionID !in live {
        OneMore(live, c.connectionID, Identity(c));
      }
      AddToIndexes(c);
    }

    method AddToIndexes(c: Client)
      requires Indexes()
      modifies this`live, connMan, sessions, subs
      ensures Indexes() <==> c.connectionID !in old(live)
      ensures live == old(live)[c.connectionID := Identity(c)]
      ensures connMan.conns == old(connMan.conns)[c.connectionID := c]
    {
      hide Agree, SessionAdd, ConnTables.Subscribe, InSession, ConnectionManager.Valid, SessionIndex.Valid,
        SubscriptionIndex.Valid;
      AddAgreeExactly(live, connMan.conns, sessions.users, subs.subs, c.connectionID, Identity(c), c);
      connMan.Add(c);
      sessions.Add(c);
      subs.Subscribe(RoomChannel(c.roomID), c);
      live := live[c.connectionID := Identity(c)];
    }

    /** One entry per room with connections, with how many it has. */
    method GetRoomList() returns (rooms: seq<RoomInfo>, ghost names: seq<string>)
      requires Valid()
      ensures NoDuplicates(names) && |rooms| == |names| == |RoomsOf(live)|
      ensures forall room :: room in names <==> room in RoomsOf(live)
      ensures forall i :: 0 <= i < |rooms| ==>
                            rooms[i] == RoomInfo(if names[i] == "" then PREFIX else names[i], |IdsIn(live, names[i])|)
    {
      hide *;
      ListedRooms();
      var channels := subs.ChannelList();
      rooms, names := [], [];
      for i := 0 to |channels|
        invariant |rooms| == |names| == i
        invariant forall k :: 0 <= k < i ==> channels[k] == RoomChannel(names[k]) && names[k] in RoomsOf(live)
        invariant forall k :: 0 <= k < i ==>
                                rooms[k] ==
                                RoomInfo(if names[k] == "" then PREFIX else names[k], |IdsIn(live, names[k])|)
      {
        ghost var room := NameOf(channels[i]);
        var n := subs.CountSubscribers(channels[i]);
        rooms := rooms + [RoomInfo(ChannelRoom(channels[i]), n)];
        names := names + [room];
      }
      ChannelNames(channels, names);
    }

    lemma NameOf(ch: string) returns (room: string)
      requires Valid() && ch in ChannelsOf(live)
      ensures room in RoomsOf(live) && ch == RoomChannel(room)
      ensures ChannelRoom(ch) == if room == "" then PREFIX else room
      ensures |At(subs.subs.chans, ch)| == |IdsIn(live, room)|
    {
      hide Agree, Registered, PolicyHolds, RoomsOf, IdsIn;
      room :| room in RoomsOf(live) && ch == RoomChannel(room);
      ChannelRoomInverts(room);
      RoomSize(room);
      assert RoomChannel("")[..] == PREFIX;
    }

    lemma ListedRooms()
      requires Valid()
      ensures subs.Valid()
      ensures subs.subs.chans.Keys == ChannelsOf(live)
      ensures |subs.subs.chans| == |RoomsOf(live)| == subs.channelCount
    {
      hide Registered, PolicyHolds, ChannelsOf, RoomsOf;
      RoomCounts(live, connMan.conns, subs.subs.chans);
    }

    lemma RoomSize(room: string)
      requires Valid()
      ensures |At(subs.subs.chans, RoomChannel(room))| == |IdsIn(live, room)|
    {
      forall id
        ensures id in At(subs.subs.chans, RoomChannel(room)) <==> id in IdsIn(live, room)
      {
        assert InChannel(subs.subs.chans, RoomChannel(room), id) <==> InRoomOf(live, RoomChannel(room), id);
        if InRoomOf(live, RoomChannel(room), id) {
          RoomChannelInjective(live[id].room, room);
        }
      }
      assert At(subs.subs.chans, RoomChannel(room)).Keys == IdsIn(live, room);
    }

    lemma ChannelNames(channels: seq<string>, names: seq<string>)
      requires NoDuplicates(channels) && |names| == |channels|
      requires forall k :: 0 <= k < |names| ==> channels[k] == RoomChannel(names[k]) && names[k] in RoomsOf(live)
      requires forall ch :: ch in channels <==> ch in ChannelsOf(live)
      ensures NoDuplicates(names) && forall room :: room in names <==> room in RoomsOf(live)
    {
      forall room | room in RoomsOf(live)
        ensures room in names
      {
        assert RoomChannel(room) in ChannelsOf(live);
        var k :| 0 <= k < |channels| && channels[k] == RoomChannel(room);
        RoomChannelInjective(names[k], room);
      }
    }
  }
}
