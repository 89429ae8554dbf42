/** The three connection tables as plain maps: what one locked section does to them and to
    their counters. `C` is the type of connections. */
module ConnTables {
  const SHARDS: nat := 256

  type ShardIx = i: nat | i < SHARDS

  type Shards<V> = s: seq<map<string, V>> | |s| == SHARDS witness seq(SHARDS, _ => map[])

  // Each table access goes to the shard its key hashes to; the hash is any function.

  predicate Has<V>(hash: string -> ShardIx, shards: Shards<V>, k: string) {
    k in shards[hash(k)]
  }

  function Get<V>(hash: string -> ShardIx, shards: Shards<V>, k: string): V
    requires Has(hash, shards, k)
  {
    shards[hash(k)][k]
  }

  function Put<V>(hash: string -> ShardIx, shards: Shards<V>, k: string, v: V): Shards<V> {
    shards[hash(k) := shards[hash(k)][k := v]]
  }

  function Delete<V>(hash: string -> ShardIx, shards: Shards<V>, k: string): Shards<V> {
    shards[hash(k) := shards[hash(k)] - {k}]
  }

  /** The shards hold exactly the entries of the flat map, each in the shard its key hashes to. */
  ghost predicate Holds<V>(hash: string -> ShardIx, shards: Shards<V>, flat: map<string, V>) {
    && (forall i, k :: 0 <= i < SHARDS && k in shards[i] ==> hash(k) == i)
    && (forall k :: k in shards[hash(k)] <==> k in flat)
    && (forall k :: k in flat ==> shards[hash(k)][k] == flat[k])
  }

  function Total<V>(shards: seq<map<string, V>>): nat {
    if shards == [] then 0 else Total(shards[..|shards| - 1]) + |shards[|shards| - 1]|
  }

  /** The entries kept in the first n shards. */
  ghost function InFirst<V>(hash: string -> ShardIx, flat: map<string, V>, n: nat): map<string, V> {
    map k | k in flat && hash(k) < n :: flat[k]
  }

  lemma SizeOfParts<V>(m: map<string, V>, a: map<string, V>, b: map<string, V>)
    requires forall k :: k in m <==> k in a || k in b
    requires forall k :: !(k in a && k in b)
    ensures |m| == |a| + |b|
  {
    assert m.Keys == a.Keys + b.Keys && a.Keys !! b.Keys;
  }

  lemma {:induction false} TotalOfFirst<V>(hash: string -> ShardIx, shards: Shards<V>, flat: map<string, V>, n: nat)
    requires Holds(hash, shards, flat) && n <= SHARDS
    ensures Total(shards[..n]) == |InFirst(hash, flat, n)|
  {
    if n == 0 {
      assert InFirst(hash, flat, 0) == map[];
    } else {
      TotalOfFirst(hash, shards, flat, n - 1);
      assert shards[..n][..n - 1] == shards[..n - 1];
      InShard(hash, shards, flat, n - 1);
    }
  }

  lemma InShard<V>(hash: string -> ShardIx, shards: Shards<V>, flat: map<string, V>, n: nat)
    requires Holds(hash, shards, flat) && n < SHARDS
    ensures |InFirst(hash, flat, n + 1)| == |InFirst(hash, flat, n)| + |shards[n]|
  {
    SizeOfParts(InFirst(hash, flat, n + 1), InFirst(hash, flat, n), shards[n]);
  }

  /** The summed size of all shards is the size of the table. */
  lemma TotalIsSize<V>(hash: string -> ShardIx, shards: Shards<V>, flat: map<string, V>)
    requires Holds(hash, shards, flat)
    ensures Total(shards) == |flat|
  {
    TotalOfFirst(hash, shards, flat, SHARDS);
    assert shards[..SHARDS] == shards;
    assert InFirst(hash, flat, SHARDS) == flat;
  }

  lemma HoldsGet<V>(hash: string -> ShardIx, shards: Shards<V>, flat: map<string, V>, k: string)
    requires Holds(hash, shards, flat)
    ensures Has(hash, shards, k) <==> k in flat
    ensures k in flat ==> Get(hash, shards, k) == flat[k]
  {
  }

  lemma HoldsPut<V>(hash: string -> ShardIx, shards: Shards<V>, flat: map<string, V>, k: string, v: V)
    requires Holds(hash, shards, flat)
    ensures Holds(hash, Put(hash, shards, k, v), flat[k := v])
  {
  }

  lemma HoldsDelete<V>(hash: string -> ShardIx, shards: Shards<V>, flat: map<string, V>, k: string)
    requires Holds(hash, shards, flat)
    ensures Holds(hash, Delete(hash, shards, k), flat - {k})
  {
  }

  /** Writes the entry of one key, changed or gone, back to its shard. */
  function WriteBack<V>(hash: string -> ShardIx, shards: Shards<V>, flat: map<string, V>, k: string): Shards<V> {
    if k in flat then Put(hash, shards, k, flat[k]) else Delete(hash, shards, k)
  }

  lemma HoldsWriteBack<V>(hash: string -> ShardIx, shards: Shards<V>, was: map<string, V>, flat: map<string, V>,
                          k: string)
    requires Holds(hash, shards, was)
    requires flat - {k} == was - {k}
    ensures Holds(hash, WriteBack(hash, shards, flat, k), flat)
  {
    hide Holds;
    if k in flat {
      HoldsPut(hash, shards, was, k, flat[k]);
      assert forall j :: j != k ==> (j in flat <==> j in flat - {k}) && (j in was <==> j in was - {k});
      assert flat == was[k := flat[k]] by {
        forall j | j in flat && j != k
          ensures j in was && flat[j] == was[j]
        {
          assert j in flat - {k} && (flat - {k})[j] == (was - {k})[j];
        }
      }
    } else {
      HoldsDelete(hash, shards, was, k);
      assert flat == flat - {k};
    }
  }

  function At<V>(m: map<string, map<string, V>>, k: string): map<string, V> {
    if k in m then m[k] else map[]
  }

  // ------------------------------------------------ sessions: user -> device -> connection

  type Devices<C> = map<string, map<string, C>>
  type Users<C> = map<string, Devices<C>>

  ghost predicate InSession<C>(users: Users<C>, uid: string, device: string, id: string) {
    uid in users && device in users[uid] && id in users[uid][device]
  }

  function DevicesOf<C>(users: Users<C>, uid: string): Devices<C> {
    if uid in users then users[uid] else map[]
  }

  function SessionAdd<C>(users: Users<C>, uid: string, device: string, id: string, c: C): Users<C> {
    var devices := DevicesOf(users, uid);
    users[uid := devices[device := At(devices, device)[id := c]]]
  }

  /** Removing a connection drops the device and the user it leaves empty. */
  function SessionRemove<C>(users: Users<C>, uid: string, device: string, id: string): Users<C> {
    if uid in users && device in users[uid] && id in users[uid][device] then
      var conns := users[uid][device] - {id};
      var devices := if conns == map[] then users[uid] - {device} else users[uid][device := conns];
      if devices == map[] then users - {uid} else users[uid := devices]
    else users
  }

  /** No user without a device, no device without a connection. */
  ghost predicate NoEmptySession<C>(users: Users<C>) {
    && (forall u :: u in users ==> users[u] != map[])
    && (forall u, d :: u in users && d in users[u] ==> users[u][d] != map[])
  }

  ghost function DevicePairs<C>(users: Users<C>): set<(string, string)> {
    set u, d | u in users && d in users[u] :: (u, d)
  }

  /** User and device pairs, summed over shards. */
  ghost function PairTotal<C>(shards: seq<map<string, Devices<C>>>): nat {
    if shards == [] then 0 else PairTotal(shards[..|shards| - 1]) + |DevicePairs(shards[|shards| - 1])|
  }

  lemma {:induction false} PairTotalOfFirst<C>(hash: string -> ShardIx, shards: Shards<Devices<C>>,
                                               users: Users<C>, n: nat)
    requires Holds(hash, shards, users) && n <= SHARDS
    ensures PairTotal(shards[..n]) == |DevicePairs(InFirst(hash, users, n))|
  {
    hide Holds, DevicePairs;
    if n == 0 {
      NoPairs(InFirst(hash, users, 0));
    } else {
      PairTotalOfFirst(hash, shards, users, n - 1);
      assert shards[..n][..n - 1] == shards[..n - 1];
      PairsInShard(hash, shards, users, n - 1);
    }
  }

  lemma NoPairs<C>(users: Users<C>)
    requires users == map[]
    ensures DevicePairs(users) == {}
  {
  }

  lemma PairsInShard<C>(hash: string -> ShardIx, shards: Shards<Devices<C>>, users: Users<C>, n: nat)
    requires Holds(hash, shards, users) && n < SHARDS
    ensures |DevicePairs(InFirst(hash, users, n + 1))| ==
            |DevicePairs(InFirst(hash, users, n))| + |DevicePairs(shards[n])|
  {
    hide DevicePairs;
    var all, first, here := DevicePairs(InFirst(hash, users, n + 1)), DevicePairs(InFirst(hash, users, n)),
                            DevicePairs(shards[n]);
    forall p
      ensures p in all <==> p in first || p in here
      ensures !(p in first && p in here)
    {
      PairIn(InFirst(hash, users, n + 1), p);
      PairIn(InFirst(hash, users, n), p);
      PairIn(shards[n], p);
    }
    assert all == first + here && first !! here;
  }

  lemma PairTotalIsSize<C>(hash: string -> ShardIx, shards: Shards<Devices<C>>, users: Users<C>)
    requires Holds(hash, shards, users)
    ensures PairTotal(shards) == |DevicePairs(users)|
  {
    PairTotalOfFirst(hash, shards, users, SHARDS);
    assert shards[..SHARDS] == shards;
    assert InFirst(hash, users, SHARDS) == users;
  }

  lemma SessionAddAt<C>(users: Users<C>, uid: string, device: string, id: string, c: C, u: string, d: string,
                        i: string)
    ensures var users' := SessionAdd(users, uid, device, id, c);
            && (InSession(users', u, d, i) <==> InSession(users, u, d, i) || (u == uid && d == device && i == id))
            && (InSession(users', u, d, i) ==>
                  users'[u][d][i] == if u == uid && d == device && i == id then c else users[u][d][i])
  {
  }

  /** SessionAdd as the code performs it, one level at a time. */
  lemma SessionAddSteps<C>(users: Users<C>, uid: string, device: string, id: string, c: C, devices: Devices<C>)
    requires devices == DevicesOf(users, uid)[device := At(DevicesOf(users, uid), device)[id := c]]
    ensures SessionAdd(users, uid, device, id, c) == users[uid := devices]
  {
  }

  lemma SessionAddNoEmpty<C>(users: Users<C>, uid: string, device: string, id: string, c: C)
    requires NoEmptySession(users)
    ensures NoEmptySession(SessionAdd(users, uid, device, id, c))
  {
    var conns := At(DevicesOf(users, uid), device)[id := c];
    assert id in conns && conns != map[];
    assert device in DevicesOf(users, uid)[device := conns];
  }

  lemma PairIn<C>(users: Users<C>, p: (string, string))
    ensures p in DevicePairs(users) <==> p.0 in users && p.1 in users[p.0]
  {
  }

  lemma SizeWith<T>(a: set<T>, b: set<T>, x: T)
    requires forall y :: y in b <==> y in a || y == x
    ensures |b| == |a| + if x in a then 0 else 1
  {
    if x in a {
      assert b == a;
    } else {
      assert b == a + {x};
    }
  }

  lemma SessionAddSizes<C>(users: Users<C>, uid: string, device: string, id: string, c: C)
    ensures var users' := SessionAdd(users, uid, device, id, c);
            && |users'| == |users| + (if uid in users then 0 else 1)
            && |DevicePairs(users')| == |DevicePairs(users)| + (if device in DevicesOf(users, uid) then 0 else 1)
  {
    hide DevicePairs;
    var users' := SessionAdd(users, uid, device, id, c);
    SizeWith(users.Keys, users'.Keys, uid);
    forall p
      ensures p in DevicePairs(users') <==> p in DevicePairs(users) || p == (uid, device)
    {
      PairIn(users, p);
      PairIn(users', p);
    }
    PairIn(users, (uid, device));
    SizeWith(DevicePairs(users), DevicePairs(users'), (uid, device));
  }

  lemma SessionRemoveAt<C>(users: Users<C>, uid: string, device: string, id: string, u: string, d: string, i: string)
    ensures var users' := SessionRemove(users, uid, device, id);
            && (InSession(users', u, d, i) <==> InSession(users, u, d, i) && !(u == uid && d == device && i == id))
            && (InSession(users', u, d, i) ==> users'[u][d][i] == users[u][d][i])
  {
    if InSession(users, uid, device, id) {
      var conns := users[uid][device] - {id};
      var devices := if conns == map[] then users[uid] - {device} else users[uid][device := conns];
      assert i in conns <==> i in users[uid][device] && i != id;
      assert d in devices <==> d in users[uid] && !(d == device && conns == map[]);
    }
  }

  /** SessionRemove as the code performs it, one level at a time. */
  lemma SessionRemoveSteps<C>(users: Users<C>, uid: string, device: string, id: string, devices: Devices<C>)
    requires InSession(users, uid, device, id)
    requires var conns := users[uid][device] - {id};
             devices == if |conns| == 0 then users[uid] - {device} else users[uid][device := conns]
    ensures var users' := SessionRemove(users, uid, device, id);
            && users' == (if |devices| == 0 then users - {uid} else users[uid := devices])
            && (uid !in users' <==> |devices| == 0)
            && (device !in DevicesOf(users', uid) <==> |users[uid][device] - {id}| == 0)
  {
    var conns := users[uid][device] - {id};
    assert |conns| == 0 <==> conns == map[];
    assert |devices| == 0 <==> devices == map[];
    assert conns != map[] ==> device in devices;
  }

  lemma SessionRemoveNoEmpty<C>(users: Users<C>, uid: string, device: string, id: string)
    requires NoEmptySession(users)
    ensures NoEmptySession(SessionRemove(users, uid, device, id))
  {
  }

  lemma SessionRemoveUsers<C>(users: Users<C>, uid: string, device: string, id: string)
    ensures var users' := SessionRemove(users, uid, device, id);
            |users'| == |users| - (if uid in users && uid !in users' then 1 else 0)
  {
    var users' := SessionRemove(users, uid, device, id);
    if uid in users {
      assert forall u :: u in users <==> u in users' || u == uid;
      SizeWith(users'.Keys, users.Keys, uid);
    }
  }

  lemma SessionRemoveDevices<C>(users: Users<C>, uid: string, device: string, id: string)
    ensures var users' := SessionRemove(users, uid, device, id);
            var gone := device in DevicesOf(users, uid) && device !in DevicesOf(users', uid);
            |DevicePairs(users')| == |DevicePairs(users)| - (if gone then 1 else 0)
  {
    hide DevicePairs;
    var users' := SessionRemove(users, uid, device, id);
    if InSession(users, uid, device, id) {
      var conns := users[uid][device] - {id};
      var devices := if conns == map[] then users[uid] - {device} else users[uid][device := conns];
      assert conns != map[] ==> device in devices;
      assert forall d :: d in users[uid] <==> d in devices || d == device;
      forall p
        ensures p in DevicePairs(users) <==> p in DevicePairs(users') || p == (uid, device)
      {
        PairIn(users, p);
        PairIn(users', p);
      }
      PairIn(users', (uid, device));
      SizeWith(DevicePairs(users'), DevicePairs(users), (uid, device));
    }
  }

  // ------------------------------------------------ subscriptions: channel -> connection, and back

  type Channels<C> = map<string, map<string, C>>
  type Members = map<string, map<string, nat>>

  datatype Subs<C> = Subs(chans: Channels<C>, member: Members)

  ghost predicate InChannel<C>(chans: Channels<C>, ch: string, id: string) {
    ch in chans && id in chans[ch]
  }

  /** How often the reverse table says id subscribed to ch. */
  function CountOf(member: Members, id: string, ch: string): nat {
    if id in member && ch in member[id] then member[id][ch] else 0
  }

  function ForwardAdd<C>(chans: Channels<C>, ch: string, id: string, c: C): Channels<C> {
    chans[ch := At(chans, ch)[id := c]]
  }

  function ForwardRemove<C>(chans: Channels<C>, ch: string, id: string): Channels<C> {
    if ch in chans && id in chans[ch] then
      var conns := chans[ch] - {id};
      if conns == map[] then chans - {ch} else chans[ch := conns]
    else chans
  }

  function ReverseAdd(member: Members, id: string, ch: string): Members {
    member[id := At(member, id)[ch := CountOf(member, id, ch) + 1]]
  }

  function ReverseRemove(member: Members, id: string, ch: string): Members {
    if id in member then
      var m := if CountOf(member, id, ch) <= 1 then member[id] - {ch} else member[id][ch := member[id][ch] - 1];
      if m == map[] then member - {id} else member[id := m]
    else member
  }

  function Subscribe<C>(s: Subs<C>, ch: string, id: string, c: C): Subs<C> {
    Subs(ForwardAdd(s.chans, ch, id, c), ReverseAdd(s.member, id, ch))
  }

  function Unsubscribe<C>(s: Subs<C>, ch: string, id: string): Subs<C> {
    Subs(ForwardRemove(s.chans, ch, id), ReverseRemove(s.member, id, ch))
  }

  function UnsubscribeAll<C>(s: Subs<C>, channels: seq<string>, id: string): Subs<C> {
    if channels == [] then s
    else Unsubscribe(UnsubscribeAll(s, channels[..|channels| - 1], id), channels[|channels| - 1], id)
  }

  lemma UnsubscribeSnoc<C>(s: Subs<C>, channels: seq<string>, ch: string, id: string)
    ensures UnsubscribeAll(s, channels + [ch], id) == Unsubscribe(UnsubscribeAll(s, channels, id), ch, id)
  {
    assert (channels + [ch])[..|channels|] == channels;
  }

  lemma UnsubscribeNone<C>(s: Subs<C>, id: string)
    ensures UnsubscribeAll(s, [], id) == s
  {
  }

  /** The channels the reverse table lists for id, in some order. */
  ghost predicate Snapshot(member: Members, id: string, channels: seq<string>) {
    && (forall i, j :: 0 <= i < j < |channels| ==> channels[i] != channels[j])
    && (forall ch :: ch in channels <==> id in member && ch in member[id])
  }

  ghost predicate NoEmptyChannel<C>(chans: Channels<C>) {
    forall ch :: ch in chans ==> chans[ch] != map[]
  }

  /** Every forward membership has a positive reverse count. */
  ghost predicate Backed<C>(s: Subs<C>) {
    forall ch, id :: InChannel(s.chans, ch, id) ==> CountOf(s.member, id, ch) >= 1
  }

  /** ForwardRemove and ReverseRemove as the code performs them. */
  lemma ForwardRemoveSteps<C>(chans: Channels<C>, ch: string, id: string)
    requires InChannel(chans, ch, id)
    ensures var conns := chans[ch] - {id};
            && ForwardRemove(chans, ch, id) == (if |conns| == 0 then chans - {ch} else chans[ch := conns])
            && (ch !in ForwardRemove(chans, ch, id) <==> |conns| == 0)
  {
    assert |chans[ch] - {id}| == 0 <==> chans[ch] - {id} == map[];
  }

  lemma ReverseRemoveSteps(member: Members, id: string, ch: string, m: map<string, nat>)
    requires id in member
    requires m == if ch !in member[id] || member[id][ch] <= 1 then member[id] - {ch}
                  else member[id][ch := member[id][ch] - 1]
    ensures ReverseRemove(member, id, ch) == if |m| == 0 then member - {id} else member[id := m]
  {
    assert |m| == 0 <==> m == map[];
  }

  lemma ForwardAddAt<C>(chans: Channels<C>, ch: string, id: string, c: C, x: string, i: string)
    ensures var chans' := ForwardAdd(chans, ch, id, c);
            && (InChannel(chans', x, i) <==> InChannel(chans, x, i) || (x == ch && i == id))
            && (InChannel(chans', x, i) ==> chans'[x][i] == if x == ch && i == id then c else chans[x][i])
  {
  }

  lemma ForwardRemoveAt<C>(chans: Channels<C>, ch: string, id: string, x: string, i: string)
    ensures var chans' := ForwardRemove(chans, ch, id);
            && (InChannel(chans', x, i) <==> InChannel(chans, x, i) && !(x == ch && i == id))
            && (InChannel(chans', x, i) ==> chans'[x][i] == chans[x][i])
  {
    if InChannel(chans, ch, id) {
      assert i in chans[ch] - {id} <==> i in chans[ch] && i != id;
    }
  }

  lemma ForwardSizes<C>(chans: Channels<C>, ch: string, id: string, c: C)
    ensures |ForwardAdd(chans, ch, id, c)| == |chans| + (if ch in chans then 0 else 1)
    ensures |ForwardRemove(chans, ch, id)| ==
            |chans| - (if ch in chans && ch !in ForwardRemove(chans, ch, id) then 1 else 0)
    ensures NoEmptyChannel(chans) ==>
              NoEmptyChannel(ForwardAdd(chans, ch, id, c)) && NoEmptyChannel(ForwardRemove(chans, ch, id))
  {
    SizeWith(chans.Keys, ForwardAdd(chans, ch, id, c).Keys, ch);
    if ch in chans {
      SizeWith(ForwardRemove(chans, ch, id).Keys, chans.Keys, ch);
    }
    assert id in At(chans, ch)[id := c];
  }

  lemma ReverseAddAt(member: Members, id: string, ch: string, i: string, x: string)
    ensures CountOf(ReverseAdd(member, id, ch), i, x) == CountOf(member, i, x) + if i == id && x == ch then 1 else 0
  {
  }

  lemma ReverseRemoveAt(member: Members, id: string, ch: string, i: string, x: string)
    ensures CountOf(ReverseRemove(member, id, ch), i, x) ==
            if i == id && x == ch then (if CountOf(member, i, x) <= 1 then 0 else CountOf(member, i, x) - 1)
            else CountOf(member, i, x)
  {
    if id in member {
      var m := if CountOf(member, id, ch) <= 1 then member[id] - {ch} else member[id][ch := member[id][ch] - 1];
      assert x != ch ==> (x in m <==> x in member[id]);
      assert ch in m <==> CountOf(member, id, ch) > 1;
    }
  }

  lemma SubscribeBacked<C>(s: Subs<C>, ch: string, id: string, c: C)
    requires Backed(s)
    ensures Backed(Subscribe(s, ch, id, c))
  {
    hide ForwardAdd, ReverseAdd, CountOf, InChannel;
    forall x, i | InChannel(Subscribe(s, ch, id, c).chans, x, i)
      ensures CountOf(Subscribe(s, ch, id, c).member, i, x) >= 1
    {
      ForwardAddAt(s.chans, ch, id, c, x, i);
      ReverseAddAt(s.member, id, ch, i, x);
    }
  }

  lemma UnsubscribeBacked<C>(s: Subs<C>, ch: string, id: string)
    requires Backed(s)
    ensures Backed(Unsubscribe(s, ch, id))
  {
    hide ForwardRemove, ReverseRemove, CountOf, InChannel;
    forall x, i | InChannel(Unsubscribe(s, ch, id).chans, x, i)
      ensures CountOf(Unsubscribe(s, ch, id).member, i, x) >= 1
    {
      ForwardRemoveAt(s.chans, ch, id, x, i);
      ReverseRemoveAt(s.member, id, ch, i, x);
    }
  }

  lemma {:induction false} UnsubscribeAllAt<C>(s: Subs<C>, channels: seq<string>, id: string, x: string, i: string)
    requires forall i, j :: 0 <= i < j < |channels| ==> channels[i] != channels[j]
    ensures var s' := UnsubscribeAll(s, channels, id);
            && (InChannel(s'.chans, x, i) <==> InChannel(s.chans, x, i) && !(i == id && x in channels))
            && (InChannel(s'.chans, x, i) ==> s'.chans[x][i] == s.chans[x][i])
            && CountOf(s'.member, i, x) ==
               if i == id && x in channels && CountOf(s.member, i, x) >= 1 then CountOf(s.member, i, x) - 1
               else CountOf(s.member, i, x)
  {
    hide ForwardRemove, ReverseRemove, CountOf;
    if channels != [] {
      var before, ch := channels[..|channels| - 1], channels[|channels| - 1];
      UnsubscribeAllAt(s, before, id, x, i);
      assert channels == before + [ch];
      var s0 := UnsubscribeAll(s, before, id);
      ForwardRemoveAt(s0.chans, ch, id, x, i);
      ReverseRemoveAt(s0.member, id, ch, i, x);
    }
  }

  lemma {:induction false} UnsubscribeAllBacked<C>(s: Subs<C>, channels: seq<string>, id: string)
    requires Backed(s)
    ensures Backed(UnsubscribeAll(s, channels, id))
  {
    if channels != [] {
      UnsubscribeAllBacked(s, channels[..|channels| - 1], id);
      UnsubscribeBacked(UnsubscribeAll(s, channels[..|channels| - 1], id), channels[|channels| - 1], id);
    }
  }

  /** Removing a connection leaves it in no channel and leaves everyone else alone. */
  lemma RemoveConnClears<C>(s: Subs<C>, channels: seq<string>, id: string, x: string, i: string)
    requires Backed(s) && Snapshot(s.member, id, channels)
    ensures var s' := UnsubscribeAll(s, channels, id);
            && !InChannel(s'.chans, x, id)
            && (i != id ==> (InChannel(s'.chans, x, i) <==> InChannel(s.chans, x, i)))
            && (i != id ==> CountOf(s'.member, i, x) == CountOf(s.member, i, x))
            && (InChannel(s'.chans, x, i) ==> s'.chans[x][i] == s.chans[x][i])
  {
    UnsubscribeAllAt(s, channels, id, x, id);
    UnsubscribeAllAt(s, channels, id, x, i);
  }

  /** The reverse table forgets the connection for a channel exactly when it was counted at most once:
      after a repeated subscription the entry stays behind although the connection is gone. */
  lemma RemoveConnReverse<C>(s: Subs<C>, channels: seq<string>, id: string, x: string)
    requires Snapshot(s.member, id, channels)
    ensures CountOf(UnsubscribeAll(s, channels, id).member, id, x) == 0 <==> CountOf(s.member, id, x) <= 1
  {
    UnsubscribeAllAt(s, channels, id, x, id);
  }

  datatype SubAction<C> = DoSubscribe(ch: string, id: string, c: C) | DoUnsubscribe(ch: string, id: string)
                        | DoRemoveConn(id: string, channels: seq<string>)

  ghost function SubStep<C>(s: Subs<C>, a: SubAction<C>): Subs<C> {
    match a
    case DoSubscribe(ch, id, c) => Subscribe(s, ch, id, c)
    case DoUnsubscribe(ch, id) => Unsubscribe(s, ch, id)
    case DoRemoveConn(id, channels) => if Snapshot(s.member, id, channels) then UnsubscribeAll(s, channels, id) else s
  }

  ghost function SubRun<C>(actions: seq<SubAction<C>>): Subs<C> {
    if actions == [] then Subs(map[], map[]) else SubStep(SubRun(actions[..|actions| - 1]), actions[|actions| - 1])
  }

  lemma SubRunSnoc<C>(actions: seq<SubAction<C>>, a: SubAction<C>)
    ensures SubRun(actions + [a]) == SubStep(SubRun(actions), a)
  {
    assert (actions + [a])[..|actions|] == actions;
  }

  lemma SubRunNone<C>(ch: string, id: string)
    ensures var s := SubRun<C>([]); s.member == map[] && CountOf(s.member, id, ch) == 0
  {
  }

  /** One more subscription to the only channel of the only connection. */
  lemma SubscribeOnly<C>(s: Subs<C>, ch: string, id: string, c: C)
    requires s.member.Keys <= {id} && (id in s.member ==> s.member[id].Keys == {ch})
    ensures var t := Subscribe(s, ch, id, c);
            && t.member.Keys == {id} && t.member[id].Keys == {ch} && Snapshot(t.member, id, [ch])
            && CountOf(t.member, id, ch) == CountOf(s.member, id, ch) + 1
  {
    ReverseAddAt(s.member, id, ch, id, ch);
  }

  /** Two subscriptions to one channel and a disconnect: the connection is gone, its entry is not. */
  lemma TwiceLeavesEntry<C>(ch: string, id: string, c: C)
    ensures var actions := [DoSubscribe(ch, id, c), DoSubscribe(ch, id, c), DoRemoveConn(id, [ch])];
            var s := SubRun(actions);
            !InChannel(s.chans, ch, id) && CountOf(s.member, id, ch) == 1
  {
    hide SubRun, Subscribe, UnsubscribeAll, CountOf, Snapshot, InChannel;
    var a, b := DoSubscribe(ch, id, c), DoRemoveConn(id, [ch]);
    assert [a] == [] + [a] && [a, a] == [a] + [a] && [a, a, b] == [a, a] + [b];
    SubRunSnoc([], a);
    SubRunSnoc([a], a);
    SubRunSnoc([a, a], b);
    SubRunNone<C>(ch, id);
    SubscribeOnly(SubRun([]), ch, id, c);
    SubscribeOnly(SubRun([a]), ch, id, c);
    UnsubscribeAllAt(SubRun([a, a]), [ch], id, ch, id);
  }

  /** After any sequence of calls, repeated subscriptions included, removing a connection leaves it
      in no channel. */
  lemma {:induction false} SubRunBacked<C>(actions: seq<SubAction<C>>)
    ensures Backed(SubRun(actions))
  {
    if actions != [] {
      var s := SubRun(actions[..|actions| - 1]);
      SubRunBacked(actions[..|actions| - 1]);
      match actions[|actions| - 1] {
        case DoSubscribe(ch, id, c) => SubscribeBacked(s, ch, id, c);
        case DoUnsubscribe(ch, id) => UnsubscribeBacked(s, ch, id);
        case DoRemoveConn(id, channels) => UnsubscribeAllBacked(s, channels, id);
      }
    }
  }

  /** The reverse table keeps no empty entry and no zero count. */
  ghost predicate TidyMembers(member: Members) {
    && (forall id :: id in member ==> member[id] != map[])
    && (forall id, ch :: id in member && ch in member[id] ==> member[id][ch] >= 1)
  }

  lemma ReverseTidy(member: Members, id: string, ch: string)
    requires TidyMembers(member)
    ensures TidyMembers(ReverseAdd(member, id, ch)) && TidyMembers(ReverseRemove(member, id, ch))
  {
    assert ch in At(member, id)[ch := CountOf(member, id, ch) + 1];
  }

  lemma {:induction false} UnsubscribeAllTidy<C>(s: Subs<C>, channels: seq<string>, id: string)
    requires TidyMembers(s.member)
    ensures TidyMembers(UnsubscribeAll(s, channels, id).member)
  {
    if channels != [] {
      UnsubscribeAllTidy(s, channels[..|channels| - 1], id);
      ReverseTidy(UnsubscribeAll(s, channels[..|channels| - 1], id).member, id, channels[|channels| - 1]);
    }
  }

  ghost predicate NoDuplicates<T>(s: seq<T>) {
    forall i, j :: 0 <= i < j < |s| ==> s[i] != s[j]
  }

  lemma {:induction false} NoDuplicatesSize<T>(s: seq<T>, all: set<T>)
    requires NoDuplicates(s) && forall x :: x in s <==> x in all
    ensures |s| == |all|
  {
    if s == [] {
      assert all == {};
    } else {
      var r, x := s[..|s| - 1], s[|s| - 1];
      assert s == r + [x];
      NoDuplicatesSize(r, all - {x});
    }
  }
}
