/** The locked sections of AddClient and RemoveClient as single steps: any interleaving of any
    number of calls is a sequence of sections with arbitrary arguments. The methods of the
    connection kernel that take a lock are these steps. */
module Sections {
  import opened ConnTables

  // Each index with the counters kept beside it.

  datatype Registry<C> = Registry(conns: map<string, C>, count: int)

  datatype Sessions<C> = Sessions(users: Users<C>, userCount: int, deviceCount: int)

  datatype Topics<C> = Topics(subs: Subs<C>, count: int)

  datatype Tables<C> = Tables(registry: Registry<C>, sessions: Sessions<C>, topics: Topics<C>)

  datatype Section<C> =
    | ConnAdd(id: string, c: C)
    | ConnRemove(id: string)
    | SessAdd(uid: string, device: string, id: string, c: C)
    | SessRemove(uid: string, device: string, id: string)
    | Forward(ch: string, id: string, c: C)
    | Reverse(ch: string, id: string)
    | Unforward(ch: string, id: string)
    | Unreverse(ch: string, id: string)

  // Each section adjusts the counters by what it sees under its own lock.

  function RegistryStep<C>(r: Registry<C>, a: Section<C>): Registry<C> {
    match a
    case ConnAdd(id, c) => Registry(r.conns[id := c], r.count + if id in r.conns then 0 else 1)
    case ConnRemove(id) => if id in r.conns then Registry(r.conns - {id}, r.count - 1) else r
    case _ => r
  }

  function SessionsStep<C>(s: Sessions<C>, a: Section<C>): Sessions<C> {
    match a
    case SessAdd(uid, device, id, c) =>
      Sessions(SessionAdd(s.users, uid, device, id, c),
               s.userCount + (if uid in s.users then 0 else 1),
               s.deviceCount + (if device in DevicesOf(s.users, uid) then 0 else 1))
    case SessRemove(uid, device, id) =>
      if uid in s.users && device in s.users[uid] && id in s.users[uid][device] then
        var lastOfDevice := s.users[uid][device] - {id} == map[];
        var lastOfUser := lastOfDevice && s.users[uid] - {device} == map[];
        Sessions(SessionRemove(s.users, uid, device, id),
                 s.userCount - (if lastOfUser then 1 else 0),
                 s.deviceCount - (if lastOfDevice then 1 else 0))
      else s
    case _ => s
  }

  function TopicsStep<C>(t: Topics<C>, a: Section<C>): Topics<C> {
    match a
    case Forward(ch, id, c) =>
      Topics(Subs(ForwardAdd(t.subs.chans, ch, id, c), t.subs.member), t.count + if ch in t.subs.chans then 0 else 1)
    case Reverse(ch, id) => t.(subs := Subs(t.subs.chans, ReverseAdd(t.subs.member, id, ch)))
    case Unforward(ch, id) =>
      if ch in t.subs.chans && id in t.subs.chans[ch] then
        Topics(Subs(ForwardRemove(t.subs.chans, ch, id), t.subs.member),
               t.count - if t.subs.chans[ch] - {id} == map[] then 1 else 0)
      else t
    case Unreverse(ch, id) => t.(subs := Subs(t.subs.chans, ReverseRemove(t.subs.member, id, ch)))
    case _ => t
  }

  function Step<C>(t: Tables<C>, a: Section<C>): Tables<C> {
    Tables(RegistryStep(t.registry, a), SessionsStep(t.sessions, a), TopicsStep(t.topics, a))
  }

  function Run<C>(sections: seq<Section<C>>): Tables<C> {
    if sections == [] then Start()
    else Step(Run(sections[..|sections| - 1]), sections[|sections| - 1])
  }

  function Start<C>(): Tables<C> {
    Tables(Registry(map[], 0), Sessions(map[], 0, 0), Topics(Subs(map[], map[]), 0))
  }

  // ------------------------------------------------ counters are table sizes

  ghost predicate RegistryExact<C>(r: Registry<C>) { r.count == |r.conns| }

  ghost predicate SessionsExact<C>(s: Sessions<C>) {
    s.userCount == |s.users| && s.deviceCount == |DevicePairs(s.users)| && NoEmptySession(s.users)
  }

  ghost predicate TopicsExact<C>(t: Topics<C>) { t.count == |t.subs.chans| && NoEmptyChannel(t.subs.chans) }

  ghost predicate CountersExact<C>(t: Tables<C>) {
    RegistryExact(t.registry) && SessionsExact(t.sessions) && TopicsExact(t.topics)
  }

  lemma RegistryStepExact<C>(r: Registry<C>, a: Section<C>)
    requires RegistryExact(r)
    ensures RegistryExact(RegistryStep(r, a))
  {
    match a {
      case ConnAdd(id, c) => SizeWith(r.conns.Keys, r.conns[id := c].Keys, id);
      case ConnRemove(id) =>
        if id in r.conns {
          SizeWith((r.conns - {id}).Keys, r.conns.Keys, id);
        }
      case _ =>
    }
  }

  /** What the section leaves: the table with or without the entry, and its size. */
  lemma RegistryStepIs<C>(r: Registry<C>, id: string, c: C)
    requires RegistryExact(r)
    ensures RegistryStep(r, ConnAdd(id, c)) == Registry(r.conns[id := c], |r.conns[id := c]|)
    ensures RegistryStep(r, ConnRemove(id)) == Registry(r.conns - {id}, |r.conns - {id}|)
  {
    RegistryStepExact(r, ConnAdd(id, c));
    RegistryStepExact(r, ConnRemove(id));
    assert id !in r.conns ==> r.conns - {id} == r.conns;
  }

  lemma SessionsStepExact<C>(s: Sessions<C>, a: Section<C>)
    requires SessionsExact(s)
    ensures SessionsExact(SessionsStep(s, a))
  {
    hide SessionsStep;
    match a {
      case SessAdd(uid, device, id, c) => SessAddExact(s, uid, device, id, c);
      case SessRemove(uid, device, id) => SessRemoveExact(s, uid, device, id);
      case _ => SessionsUntouched(s, a);
    }
  }

  lemma SessionsUntouched<C>(s: Sessions<C>, a: Section<C>)
    requires !a.SessAdd? && !a.SessRemove?
    ensures SessionsStep(s, a) == s
  {
  }

  lemma SessAddExact<C>(s: Sessions<C>, uid: string, device: string, id: string, c: C)
    requires SessionsExact(s)
    ensures SessionsExact(SessionsStep(s, SessAdd(uid, device, id, c)))
  {
    SessionAddSizes(s.users, uid, device, id, c);
    SessionAddNoEmpty(s.users, uid, device, id, c);
  }

  /** What the section leaves: the table with the entry, and its sizes. */
  lemma SessAddIs<C>(s: Sessions<C>, uid: string, device: string, id: string, c: C)
    requires SessionsExact(s)
    ensures var users := SessionAdd(s.users, uid, device, id, c);
            SessionsStep(s, SessAdd(uid, device, id, c)) == Sessions(users, |users|, |DevicePairs(users)|)
  {
    SessAddExact(s, uid, device, id, c);
  }

  lemma SessRemoveExact<C>(s: Sessions<C>, uid: string, device: string, id: string)
    requires SessionsExact(s)
    ensures SessionsExact(SessionsStep(s, SessRemove(uid, device, id)))
  {
    SessionRemoveUsers(s.users, uid, device, id);
    SessionRemoveDevices(s.users, uid, device, id);
    SessionRemoveNoEmpty(s.users, uid, device, id);
  }

  lemma TopicsStepExact<C>(t: Topics<C>, a: Section<C>)
    requires TopicsExact(t)
    ensures TopicsExact(TopicsStep(t, a))
  {
    match a {
      case Forward(ch, id, c) => ForwardSizes(t.subs.chans, ch, id, c);
      case Unforward(ch, id) =>
        if InChannel(t.subs.chans, ch, id) {
          ForwardSizes(t.subs.chans, ch, id, t.subs.chans[ch][id]);
        }
      case _ =>
    }
  }

  lemma StepExact<C>(t: Tables<C>, a: Section<C>)
    requires CountersExact(t)
    ensures CountersExact(Step(t, a))
  {
    hide RegistryStep, SessionsStep, TopicsStep, RegistryExact, SessionsExact, TopicsExact;
    RegistryStepExact(t.registry, a);
    SessionsStepExact(t.sessions, a);
    TopicsStepExact(t.topics, a);
  }

  /** In every interleaving every counter equals the size of its table after every step. */
  lemma {:induction false} InterleavedExact<C>(sections: seq<Section<C>>)
    ensures CountersExact(Run(sections))
  {
    if sections != [] {
      InterleavedExact(sections[..|sections| - 1]);
      StepExact(Run(sections[..|sections| - 1]), sections[|sections| - 1]);
    } else {
      assert DevicePairs(Run(sections).sessions.users) == {};
    }
  }

  // ------------------------------------------------ counters are summed shard sizes

  /** The tables as they are stored: each section writes the one entry it changed back to the
      shard that the entry's key hashes to. */
  datatype Stored<C> = Stored(
    tables: Tables<C>,
    conns: Shards<C>, users: Shards<Devices<C>>, chans: Shards<map<string, C>>, members: Shards<map<string, nat>>)

  function StoreStep<C>(hash: string -> ShardIx, s: Stored<C>, a: Section<C>): Stored<C> {
    var t := Step(s.tables, a);
    var s' := s.(tables := t);
    match a
    case ConnAdd(id, _) => s'.(conns := WriteBack(hash, s.conns, t.registry.conns, id))
    case ConnRemove(id) => s'.(conns := WriteBack(hash, s.conns, t.registry.conns, id))
    case SessAdd(uid, _, _, _) => s'.(users := WriteBack(hash, s.users, t.sessions.users, uid))
    case SessRemove(uid, _, _) => s'.(users := WriteBack(hash, s.users, t.sessions.users, uid))
    case Forward(ch, _, _) => s'.(chans := WriteBack(hash, s.chans, t.topics.subs.chans, ch))
    case Unforward(ch, _) => s'.(chans := WriteBack(hash, s.chans, t.topics.subs.chans, ch))
    case Reverse(_, id) => s'.(members := WriteBack(hash, s.members, t.topics.subs.member, id))
    case Unreverse(_, id) => s'.(members := WriteBack(hash, s.members, t.topics.subs.member, id))
  }

  function StoreRun<C>(hash: string -> ShardIx, sections: seq<Section<C>>): Stored<C> {
    if sections == [] then
      Stored(Start(), seq(SHARDS, _ => map[]), seq(SHARDS, _ => map[]), seq(SHARDS, _ => map[]),
             seq(SHARDS, _ => map[]))
    else StoreStep(hash, StoreRun(hash, sections[..|sections| - 1]), sections[|sections| - 1])
  }

  ghost predicate Represents<C>(hash: string -> ShardIx, s: Stored<C>) {
    && Holds(hash, s.conns, s.tables.registry.conns)
    && Holds(hash, s.users, s.tables.sessions.users)
    && Holds(hash, s.chans, s.tables.topics.subs.chans)
    && Holds(hash, s.members, s.tables.topics.subs.member)
  }

  lemma StoreStepRepresents<C>(hash: string -> ShardIx, s: Stored<C>, a: Section<C>)
    requires Represents(hash, s)
    ensures Represents(hash, StoreStep(hash, s, a))
  {
    hide Holds, WriteBack;
    var t, t' := s.tables, Step(s.tables, a);
    match a {
      case ConnAdd(id, _) => HoldsWriteBack(hash, s.conns, t.registry.conns, t'.registry.conns, id);
      case ConnRemove(id) => HoldsWriteBack(hash, s.conns, t.registry.conns, t'.registry.conns, id);
      case SessAdd(uid, _, _, _) => HoldsWriteBack(hash, s.users, t.sessions.users, t'.sessions.users, uid);
      case SessRemove(uid, _, _) => HoldsWriteBack(hash, s.users, t.sessions.users, t'.sessions.users, uid);
      case Forward(ch, _, _) => HoldsWriteBack(hash, s.chans, t.topics.subs.chans, t'.topics.subs.chans, ch);
      case Unforward(ch, _) => HoldsWriteBack(hash, s.chans, t.topics.subs.chans, t'.topics.subs.chans, ch);
      case Reverse(_, id) => HoldsWriteBack(hash, s.members, t.topics.subs.member, t'.topics.subs.member, id);
      case Unreverse(_, id) => HoldsWriteBack(hash, s.members, t.topics.subs.member, t'.topics.subs.member, id);
    }
  }

  lemma {:induction false} StoreRunRepresents<C>(hash: string -> ShardIx, sections: seq<Section<C>>)
    ensures Represents(hash, StoreRun(hash, sections)) && StoreRun(hash, sections).tables == Run(sections)
  {
    if sections != [] {
      var before := sections[..|sections| - 1];
      StoreRunRepresents(hash, before);
      StoreStepRepresents(hash, StoreRun(hash, before), sections[|sections| - 1]);
    }
  }

  /** In every interleaving and for every hash, each counter is the summed size of its 256 shards
      after every step. */
  lemma InterleavedTotals<C>(hash: string -> ShardIx, sections: seq<Section<C>>)
    ensures var s := StoreRun(hash, sections);
            && s.tables.registry.count == Total(s.conns)
            && s.tables.sessions.userCount == Total(s.users)
            && s.tables.sessions.deviceCount == PairTotal(s.users)
            && s.tables.topics.count == Total(s.chans)
  {
    hide Holds, Run, StoreRun;
    InterleavedExact(sections);
    StoreRunRepresents(hash, sections);
    var s := StoreRun(hash, sections);
    TotalIsSize(hash, s.conns, s.tables.registry.conns);
    TotalIsSize(hash, s.users, s.tables.sessions.users);
    PairTotalIsSize(hash, s.users, s.tables.sessions.users);
    TotalIsSize(hash, s.chans, s.tables.topics.subs.chans);
  }

  /** Registrations of a connection id, and removals of it that passed the gate. */
  function Registrations<C>(sections: seq<Section<C>>, id: string): nat {
    if sections == [] then 0
    else
      var a := sections[|sections| - 1];
      Registrations(sections[..|sections| - 1], id) + if a.ConnAdd? && a.id == id then 1 else 0
  }

  function Passed<C>(sections: seq<Section<C>>, id: string): nat {
    if sections == [] then 0
    else
      var before, a := sections[..|sections| - 1], sections[|sections| - 1];
      Passed(before, id) + if a == ConnRemove(id) && id in Run(before).registry.conns then 1 else 0
  }

  /** At most one removal per registration passes the gate, however many are attempted. */
  lemma {:induction false} GateOncePerRegistration<C>(sections: seq<Section<C>>, id: string)
    ensures Passed(sections, id) + (if id in Run(sections).registry.conns then 1 else 0) <=
            Registrations(sections, id)
  {
    if sections != [] {
      GateOncePerRegistration(sections[..|sections| - 1], id);
    }
  }
}
