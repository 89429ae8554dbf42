/** The connection kernel: connection registry, session index and subscription index, each in
    256 shards with hand-kept counters. */
module ConnKernel {
  import opened Options
  import opened ConnTables
  import opened Sections

  datatype CloseState = CloseState(code: int, reason: string)

  /** Only the first close counts. */
  function AfterClose(closed: Option<CloseState>, code: int, reason: string): Option<CloseState> {
    if closed == None then Some(CloseState(code, reason)) else closed
  }

  class Client {
    const uid: string
    const roomID: string
    var connectionID: string
    var deviceID: string
    var gatewayID: string
    var closed: Option<CloseState>

    constructor (uid: string, roomID: string, deviceID: string)
      ensures this.uid == uid && this.roomID == roomID && this.deviceID == deviceID
      ensures connectionID == "" && closed == None
    {
      this.uid, this.roomID, this.deviceID := uid, roomID, deviceID;
      connectionID, gatewayID, closed := "", "", None;
    }

    method Close(code: int, reason: string)
      modifies `closed
      ensures closed == AfterClose(old(closed), code, reason)
    {
      if closed == None {
        closed := Some(CloseState(code, reason));
      }
    }
  }

  class ConnectionManager {
    const hash: string -> ShardIx
    var shards: Shards<Client>
    var count: int
    ghost var conns: map<string, Client>

    ghost predicate Valid()
      reads this
    {
      Holds(hash, shards, conns) && count == |conns|
    }

    constructor (hash: string -> ShardIx)
      ensures Valid() && conns == map[] && this.hash == hash
    {
      this.hash := hash;
      shards := seq(SHARDS, _ => map[]);
      count, conns := 0, map[];
    }

    method Add(c: Client)
      requires Valid()
      modifies this
      ensures Valid() && conns == old(conns)[c.connectionID := c]
      ensures Registry(conns, count) == RegistryStep(old(Registry(conns, count)), ConnAdd(c.connectionID, c))
    {
      hide Holds, Has, Get, Put, RegistryStep;
      var id := c.connectionID;
      RegistryStepIs(Registry(conns, count), id, c);
      HoldsGet(hash, shards, conns, id);
      HoldsPut(hash, shards, conns, id, c);
      SizeWith(conns.Keys, conns[id := c].Keys, id);
      if !Has(hash, shards, id) {
        count := count + 1;
      }
      shards := Put(hash, shards, id, c);
      conns := conns[id := c];
    }

    method Remove(c: Client) returns (removed: bool)
      requires Valid()
      modifies this
      ensures Valid() && conns == old(conns) - {c.connectionID}
      ensures removed <==> c.connectionID in old(conns)
      ensures Registry(conns, count) == RegistryStep(old(Registry(conns, count)), ConnRemove(c.connectionID))
    {
      hide Holds, Has, Get, Delete, RegistryStep;
      var id := c.connectionID;
      RegistryStepIs(Registry(conns, count), id, c);
      HoldsGet(hash, shards, conns, id);
      if !Has(hash, shards, id) {
        assert conns - {id} == conns;
        return false;
      }
      HoldsDelete(hash, shards, conns, id);
      SizeWith((conns - {id}).Keys, conns.Keys, id);
      shards := Delete(hash, shards, id);
      count := count - 1;
      conns := conns - {id};
      return true;
    }

    /** The counter is the summed size of the shards. */
    lemma CountIsTotal()
      requires Valid()
      ensures count == Total(shards)
    {
      TotalIsSize(hash, shards, conns);
    }
  }

  /** The user has this connection, on some device. */
  ghost predicate Online(users: Users<Client>, uid: string, c: Client) {
    exists d, id :: InSession(users, uid, d, id) && users[uid][d][id] == c
  }

  /** The connections on some of the devices. */
  ghost function ConnsOf(devices: Devices<Client>, on: set<string>): set<Client> {
    set d, id | d in on && d in devices && id in devices[d] :: devices[d][id]
  }

  lemma ConnsOfMore(devices: Devices<Client>, on: set<string>, d: string)
    requires d in devices
    ensures ConnsOf(devices, on + {d}) == ConnsOf(devices, on) + devices[d].Values
  {
  }

  lemma NoConns(devices: Devices<Client>)
    ensures ConnsOf(devices, {}) == {}
  {
  }

  lemma UserConns(users: Users<Client>, uid: string)
    ensures uid in users ==>
              forall c :: c in ConnsOf(users[uid], users[uid].Keys) <==> Online(users, uid, c)
    ensures uid !in users ==> forall c :: !Online(users, uid, c)
  {
  }

  class SessionIndex {
    const hash: string -> ShardIx
    var shards: Shards<Devices<Client>>
    var userCount: int
    var deviceCount: int
    ghost var users: Users<Client>

    ghost predicate Valid()
      reads this
    {
      && Holds(hash, shards, users) && NoEmptySession(users)
      && userCount == |users| && deviceCount == |DevicePairs(users)|
    }

    constructor (hash: string -> ShardIx)
      ensures Valid() && users == map[] && this.hash == hash
    {
      this.hash := hash;
      shards := seq(SHARDS, _ => map[]);
      userCount, deviceCount, users := 0, 0, map[];
      assert DevicePairs<Client>(map[]) == {};
    }

    method Add(c: Client)
      requires Valid()
      modifies this
      ensures Valid() && users == SessionAdd(old(users), c.uid, c.deviceID, c.connectionID, c)
      ensures Sessions(users, userCount, deviceCount) ==
              SessionsStep(old(Sessions(users, userCount, deviceCount)),
                           SessAdd(c.uid, c.deviceID, c.connectionID, c))
    {
      hide Holds, Has, Get, NoEmptySession, DevicePairs, SessionsStep, SessionAdd;
      SessAddIs(Sessions(users, userCount, deviceCount), c.uid, c.deviceID, c.connectionID, c);
      SessionAddSizes(users, c.uid, c.deviceID, c.connectionID, c);
      SessionAddNoEmpty(users, c.uid, c.deviceID, c.connectionID, c);
      HoldsGet(hash, shards, users, c.uid);
      var devices: Devices<Client> := map[];
      var newUser := !Has(hash, shards, c.uid);
      if !newUser {
        devices := Get(hash, shards, c.uid);
      }
      var conns: map<string, Client> := map[];
      var newDevice := c.deviceID !in devices;
      if !newDevice {
        conns := devices[c.deviceID];
      }
      devices := devices[c.deviceID := conns[c.connectionID := c]];
      SessionAddSteps(users, c.uid, c.deviceID, c.connectionID, c, devices);
      StoreAdded(c, devices, newUser, newDevice);
    }

    method StoreAdded(c: Client, devices: Devices<Client>, newUser: bool, newDevice: bool)
      requires Valid()
      requires var users' := users[c.uid := devices];
               && NoEmptySession(users')
               && |users'| == |users| + (if newUser then 1 else 0)
               && |DevicePairs(users')| == |DevicePairs(users)| + (if newDevice then 1 else 0)
      modifies this
      ensures Valid() && users == old(users)[c.uid := devices]
    {
      hide Holds, Put, NoEmptySession, DevicePairs;
      if newUser {
        userCount := userCount + 1;
      }
      if newDevice {
        deviceCount := deviceCount + 1;
      }
      HoldsPut(hash, shards, users, c.uid, devices);
      shards := Put(hash, shards, c.uid, devices);
      users := users[c.uid := devices];
    }

    method Remove(c: Client) returns (removed: bool)
      requires Valid()
      modifies this
      ensures Valid() && users == SessionRemove(old(users), c.uid, c.deviceID, c.connectionID)
      ensures removed <==> InSession(old(users), c.uid, c.deviceID, c.connectionID)
      ensures Sessions(users, userCount, deviceCount) ==
              SessionsStep(old(Sessions(users, userCount, deviceCount)),
                           SessRemove(c.uid, c.deviceID, c.connectionID))
    {
      hide Holds, Has, Get, NoEmptySession, DevicePairs;
      SessionsStepExact(Sessions(users, userCount, deviceCount), SessRemove(c.uid, c.deviceID, c.connectionID));
      HoldsGet(hash, shards, users, c.uid);
      if !Has(hash, shards, c.uid) {
        return false;
      }
      var devices := Get(hash, shards, c.uid);
      if c.deviceID !in devices || c.connectionID !in devices[c.deviceID] {
        return false;
      }
      RemoveFound(c, devices);
      return true;
    }

    method RemoveFound(c: Client, found: Devices<Client>)
      requires Valid()
      requires InSession(users, c.uid, c.deviceID, c.connectionID) && found == users[c.uid]
      modifies this
      ensures Valid() && users == SessionRemove(old(users), c.uid, c.deviceID, c.connectionID)
    {
      hide Holds, NoEmptySession, DevicePairs, SessionRemove;
      SessionRemoveUsers(users, c.uid, c.deviceID, c.connectionID);
      SessionRemoveDevices(users, c.uid, c.deviceID, c.connectionID);
      SessionRemoveNoEmpty(users, c.uid, c.deviceID, c.connectionID);
      var devices := found;
      var conns := devices[c.deviceID] - {c.connectionID};
      var lastOfDevice := |conns| == 0;
      if lastOfDevice {
        devices := devices - {c.deviceID};
      } else {
        devices := devices[c.deviceID := conns];
      }
      SessionRemoveSteps(users, c.uid, c.deviceID, c.connectionID, devices);
      StoreDevices(c, devices, lastOfDevice);
    }

    method StoreDevices(c: Client, devices: Devices<Client>, lastOfDevice: bool)
      requires Valid()
      requires var users' := SessionRemove(users, c.uid, c.deviceID, c.connectionID);
               && NoEmptySession(users')
               && users' == (if |devices| == 0 then users - {c.uid} else users[c.uid := devices])
               && |users'| == |users| - (if |devices| == 0 then 1 else 0)
               && |DevicePairs(users')| == |DevicePairs(users)| - (if lastOfDevice then 1 else 0)
      modifies this
      ensures Valid() && users == SessionRemove(old(users), c.uid, c.deviceID, c.connectionID)
    {
      hide Holds, Put, Delete, NoEmptySession, DevicePairs, SessionRemove;
      if lastOfDevice {
        deviceCount := deviceCount - 1;
      }
      if |devices| == 0 {
        HoldsDelete(hash, shards, users, c.uid);
        shards := Delete(hash, shards, c.uid);
        users := users - {c.uid};
        userCount := userCount - 1;
      } else {
        HoldsPut(hash, shards, users, c.uid, devices);
        shards := Put(hash, shards, c.uid, devices);
        users := users[c.uid := devices];
      }
    }

    /** All connections of a user, over all its devices. */
    method GetUserConnections(uid: string) returns (out: set<Client>)
      requires Valid()
      ensures forall c :: c in out <==> Online(users, uid, c)
    {
      hide Holds, ConnsOf, Online;
      HoldsGet(hash, shards, users, uid);
      out := {};
      if Has(hash, shards, uid) {
        out := Collect(Get(hash, shards, uid));
      }
      UserConns(users, uid);
    }

    method Collect(devices: Devices<Client>) returns (out: set<Client>)
      ensures out == ConnsOf(devices, devices.Keys)
    {
      hide ConnsOf;
      out := {};
      var todo := devices.Keys;
      NoConns(devices);
      assert devices.Keys - todo == {};
      while todo != {}
        invariant todo <= devices.Keys && out == ConnsOf(devices, devices.Keys - todo)
      {
        var d :| d in todo;
        ConnsOfMore(devices, devices.Keys - todo, d);
        assert (devices.Keys - todo) + {d} == devices.Keys - (todo - {d});
        out := out + devices[d].Values;
        todo := todo - {d};
      }
      assert devices.Keys - todo == devices.Keys;
    }

    lemma UserCountIsTotal()
      requires Valid()
      ensures userCount == Total(shards)
    {
      TotalIsSize(hash, shards, users);
    }
  }

  class SubscriptionIndex {
    const hash: string -> ShardIx
    var shards: Shards<map<string, Client>>
    var members: Shards<map<string, nat>>
    var channelCount: int
    ghost var subs: Subs<Client>

    ghost predicate Valid()
      reads this
    {
      && Holds(hash, shards, subs.chans) && NoEmptyChannel(subs.chans)
      && Holds(hash, members, subs.member)
      && channelCount == |subs.chans|
    }

    constructor (hash: string -> ShardIx)
      ensures Valid() && subs == Subs(map[], map[]) && this.hash == hash
    {
      this.hash := hash;
      shards, members := seq(SHARDS, _ => map[]), seq(SHARDS, _ => map[]);
      channelCount, subs := 0, Subs(map[], map[]);
    }

    /** First locked section of Subscribe. */
    method SubscribeForward(channel: string, c: Client)
      requires Valid()
      modifies `shards, `channelCount, `subs
      ensures Valid()
      ensures subs == Subs(ForwardAdd(old(subs).chans, channel, c.connectionID, c), old(subs).member)
      ensures Topics(subs, channelCount) ==
              TopicsStep(old(Topics(subs, channelCount)), Forward(channel, c.connectionID, c))
    {
      hide Holds, Has, Get, Put, NoEmptyChannel;
      ForwardSizes(subs.chans, channel, c.connectionID, c);
      HoldsGet(hash, shards, subs.chans, channel);
      var conns: map<string, Client> := map[];
      if Has(hash, shards, channel) {
        conns := Get(hash, shards, channel);
      } else {
        channelCount := channelCount + 1;
      }
      conns := conns[c.connectionID := c];
      HoldsPut(hash, shards, subs.chans, channel, conns);
      shards := Put(hash, shards, channel, conns);
      subs := Subs(subs.chans[channel := conns], subs.member);
    }

    /** Second locked section of Subscribe. */
    method SubscribeReverse(channel: string, c: Client)
      requires Valid()
      modifies `members, `subs
      ensures Valid()
      ensures subs == Subs(old(subs).chans, ReverseAdd(old(subs).member, c.connectionID, channel))
      ensures Topics(subs, channelCount) ==
              TopicsStep(old(Topics(subs, channelCount)), Reverse(channel, c.connectionID))
    {
      hide Holds, Has, Get, Put, NoEmptyChannel;
      var id := c.connectionID;
      HoldsGet(hash, members, subs.member, id);
      var m: map<string, nat> := if Has(hash, members, id) then Get(hash, members, id) else map[];
      m := m[channel := (if channel in m then m[channel] else 0) + 1];
      HoldsPut(hash, members, subs.member, id, m);
      members := Put(hash, members, id, m);
      subs := Subs(subs.chans, subs.member[id := m]);
    }

    method Subscribe(channel: string, c: Client)
      requires Valid()
      modifies this
      ensures Valid() && subs == ConnTables.Subscribe(old(subs), channel, c.connectionID, c)
    {
      hide Holds, NoEmptyChannel, ForwardAdd, ReverseAdd;
      SubscribeForward(channel, c);
      SubscribeReverse(channel, c);
    }

    /** First locked section of Unsubscribe. */
    method UnsubscribeForward(channel: string, c: Client)
      requires Valid()
      modifies `shards, `channelCount, `subs
      ensures Valid()
      ensures subs == Subs(ForwardRemove(old(subs).chans, channel, c.connectionID), old(subs).member)
      ensures Topics(subs, channelCount) ==
              TopicsStep(old(Topics(subs, channelCount)), Unforward(channel, c.connectionID))
    {
      hide Holds, Has, Get, NoEmptyChannel;
      TopicsStepExact(Topics(subs, channelCount), Unforward(channel, c.connectionID));
      HoldsGet(hash, shards, subs.chans, channel);
      if Has(hash, shards, channel) {
        var conns := Get(hash, shards, channel);
        if c.connectionID in conns {
          ForwardRemoveSteps(subs.chans, channel, c.connectionID);
          ForwardSizes(subs.chans, channel, c.connectionID, c);
          ForwardFound(channel, c, conns - {c.connectionID});
        }
      }
    }

    method ForwardFound(channel: string, c: Client, conns: map<string, Client>)
      requires Valid()
      requires ForwardRemove(subs.chans, channel, c.connectionID) ==
               if |conns| == 0 then subs.chans - {channel} else subs.chans[channel := conns]
      requires NoEmptyChannel(ForwardRemove(subs.chans, channel, c.connectionID))
      requires |ForwardRemove(subs.chans, channel, c.connectionID)| == |subs.chans| - (if |conns| == 0 then 1 else 0)
      modifies `shards, `channelCount, `subs
      ensures Valid()
      ensures subs == Subs(ForwardRemove(old(subs).chans, channel, c.connectionID), old(subs).member)
    {
      hide Holds, Put, Delete, NoEmptyChannel, ForwardRemove;
      if |conns| == 0 {
        HoldsDelete(hash, shards, subs.chans, channel);
        shards := Delete(hash, shards, channel);
        subs := Subs(subs.chans - {channel}, subs.member);
        channelCount := channelCount - 1;
      } else {
        HoldsPut(hash, shards, subs.chans, channel, conns);
        shards := Put(hash, shards, channel, conns);
        subs := Subs(subs.chans[channel := conns], subs.member);
      }
    }

    /** Second locked section of Unsubscribe. */
    method UnsubscribeReverse(channel: string, c: Client)
      requires Valid()
      modifies `members, `subs
      ensures Valid()
      ensures subs == Subs(old(subs).chans, ReverseRemove(old(subs).member, c.connectionID, channel))
      ensures Topics(subs, channelCount) ==
              TopicsStep(old(Topics(subs, channelCount)), Unreverse(channel, c.connectionID))
    {
      hide Holds, Has, Get, NoEmptyChannel;
      HoldsGet(hash, members, subs.member, c.connectionID);
      if Has(hash, members, c.connectionID) {
        var m := Get(hash, members, c.connectionID);
        m := if channel !in m || m[channel] <= 1 then m - {channel} else m[channel := m[channel] - 1];
        ReverseRemoveSteps(subs.member, c.connectionID, channel, m);
        ReverseFound(channel, c, m);
      }
    }

    method ReverseFound(channel: string, c: Client, m: map<string, nat>)
      requires Valid() && c.connectionID in subs.member
      requires ReverseRemove(subs.member, c.connectionID, channel) ==
               if |m| == 0 then subs.member - {c.connectionID} else subs.member[c.connectionID := m]
      modifies `members, `subs
      ensures Valid()
      ensures subs == Subs(old(subs).chans, ReverseRemove(old(subs).member, c.connectionID, channel))
    {
      hide Holds, Put, Delete, NoEmptyChannel, ReverseRemove, CountOf, Holds, At;
      var id := c.connectionID;
      if |m| == 0 {
        HoldsDelete(hash, members, subs.member, id);
        members := Delete(hash, members, id);
        subs := Subs(subs.chans, subs.member - {id});
      } else {
        HoldsPut(hash, members, subs.member, id, m);
        members := Put(hash, members, id, m);
        subs := Subs(subs.chans, subs.member[id := m]);
      }
    }

    method Unsubscribe(channel: string, c: Client)
      requires Valid()
      modifies this
      ensures Valid() && subs == ConnTables.Unsubscribe(old(subs), channel, c.connectionID)
    {
      hide Holds, NoEmptyChannel, ForwardRemove, ReverseRemove;
      UnsubscribeForward(channel, c);
      UnsubscribeReverse(channel, c);
    }

    /** Unsubscribes from every channel the reverse table lists. */
    method RemoveConn(c: Client) returns (ghost channels: seq<string>)
      requires Valid()
      modifies this
      ensures Valid() && Snapshot(old(subs).member, c.connectionID, channels)
      ensures subs == UnsubscribeAll(old(subs), channels, c.connectionID)
    {
      hide Holds, Has, Get, NoEmptyChannel, UnsubscribeAll;
      channels := [];
      UnsubscribeNone(subs, c.connectionID);
      HoldsGet(hash, members, subs.member, c.connectionID);
      var todo: set<string> := if Has(hash, members, c.connectionID)
      then Get(hash, members, c.connectionID).Keys else {};
      ghost var all := todo;
      while todo != {}
        invariant Valid() && todo <= all
        invariant forall i, j :: 0 <= i < j < |channels| ==> channels[i] != channels[j]
        invariant forall ch :: ch in channels <==> ch in all && ch !in todo
        invariant subs == UnsubscribeAll(old(subs), channels, c.connectionID)
      {
        var ch :| ch in todo;
        UnsubscribeSnoc(old(subs), channels, ch, c.connectionID);
        Unsubscribe(ch, c);
        channels, todo := channels + [ch], todo - {ch};
      }
    }

    /** A copy of the connections subscribed to the channel. */
    method GetSubscribers(channel: string) returns (out: set<Client>)
      requires Valid()
      ensures forall c :: c in out <==>
                          exists id :: InChannel(subs.chans, channel, id) && subs.chans[channel][id] == c
    {
      HoldsGet(hash, shards, subs.chans, channel);
      out := if Has(hash, shards, channel) then Get(hash, shards, channel).Values else {};
    }

    lemma CountIsTotal()
      requires Valid()
      ensures channelCount == Total(shards)
    {
      TotalIsSize(hash, shards, subs.chans);
    }

    /** The channels that have subscribers, each once. */
    method ChannelList() returns (out: seq<string>)
      requires Valid()
      ensures NoDuplicates(out) && forall ch :: ch in out <==> ch in subs.chans
      ensures |out| == channelCount
    {
      out := [];
      for i := 0 to SHARDS
        invariant NoDuplicates(out)
        invariant forall ch :: ch in out <==> ch in subs.chans && hash(ch) < i
      {
        out := AppendShard(i, out);
      }
      NoDuplicatesSize(out, subs.chans.Keys);
    }

    method AppendShard(i: nat, before: seq<string>) returns (out: seq<string>)
      requires Valid() && i < SHARDS
      requires NoDuplicates(before) && forall ch :: ch in before <==> ch in subs.chans && hash(ch) < i
      ensures NoDuplicates(out) && forall ch :: ch in out <==> ch in subs.chans && hash(ch) < i + 1
    {
      out := before;
      var todo := shards[i].Keys;
      while todo != {}
        invariant todo <= shards[i].Keys && NoDuplicates(out)
        invariant forall ch :: ch in out <==> ch in before || (ch in shards[i] && ch !in todo)
      {
        var ch :| ch in todo;
        out, todo := out + [ch], todo - {ch};
      }
    }

    /** How many connections the channel has. */
    method CountSubscribers(channel: string) returns (n: nat)
      requires Valid()
      ensures n == |At(subs.chans, channel)|
    {
      HoldsGet(hash, shards, subs.chans, channel);
      n := if Has(hash, shards, channel) then |Get(hash, shards, channel)| else 0;
    }
  }
}
