/**
 * The registry of running instances: one task that takes commands, acquires an emulator and a bridge
 * on the way to a started instance, and releases them on every way out.
 */
module Daemon {
  import opened Bytes
  import opened Resources
  import opened Emulator
  import opened Bridge
  import opened LogDrain
  import opened Commands

  /** One running emulator with its bridge and the buffers that record what they say. */
  datatype Instance = Instance(
    summary: Summary, emulator: GenericEmulator, bridge: GenericBridge, drain: Drain, startedAt: nat)

  function LogsOf(inst: Instance): LogState
    reads inst.emulator`outputLines, inst.drain`bridgeLog
  {
    LogState(inst.emulator.outputLines, inst.drain.bridgeLog, inst.startedAt)
  }

  function SeenOf(inst: Instance): Seen
    reads inst.emulator, inst.drain
  {
    Seen(inst.summary, LogsOf(inst), inst.drain.Snapshot())
  }

  function SlotOf(inst: Instance): Slot
    reads inst.emulator, inst.bridge, inst.drain
  {
    Slot(SeenOf(inst), inst.emulator.Held(), inst.bridge.held)
  }

  /** The objects of the instances in a map. */
  ghost function ObjectsOf(m: map<string, Instance>): set<object> {
    (set id | id in m :: m[id].emulator as object)
    + (set id | id in m :: m[id].bridge as object)
    + (set id | id in m :: m[id].drain as object)
  }

  ghost predicate Distinct(m: map<string, Instance>) {
    forall i, j :: i in m && j in m && i != j ==>
      m[i].emulator != m[j].emulator && m[i].bridge != m[j].bridge && m[i].drain != m[j].drain
  }

  lemma ObjectsOfOne(m: map<string, Instance>, id: string)
    requires id in m
    ensures {m[id].emulator, m[id].bridge, m[id].drain} <= ObjectsOf(m)
  {
  }

  lemma ObjectsAreNoHost(m: map<string, Instance>, host: Host, registry: Registry)
    ensures host as object !in ObjectsOf(m) && registry as object !in ObjectsOf(m)
  {
  }

  lemma ObjectsWithout(m: map<string, Instance>, id: string)
    requires Distinct(m)
    ensures ObjectsOf(m - {id}) <= ObjectsOf(m) && Distinct(m - {id})
  {
  }

  lemma ObjectsWith(m: map<string, Instance>, id: string, inst: Instance)
    requires Distinct(m) && id !in m && {inst.emulator, inst.bridge, inst.drain} !! ObjectsOf(m)
    ensures ObjectsOf(m[id := inst]) <= ObjectsOf(m) + {inst.emulator, inst.bridge, inst.drain}
    ensures Distinct(m[id := inst])
  {
  }

  class Registry {
    const host: Host
    var instances: map<string, Instance>

    ghost function Objects(): set<object>
      reads this`instances
    {
      ObjectsOf(instances)
    }

    ghost function Slots(): Slots
      reads this`instances, Objects()
    {
      map id | id in instances :: SlotOf(instances[id])
    }

    ghost function Now(): World
      reads this`instances, host, Objects()
    {
      World(Slots(), host.children, host.devices)
    }

    /** An instance that can stand in the map under an id. */
    ghost predicate Ready(id: string, inst: Instance)
      reads inst.emulator, inst.bridge, inst.drain
    {
      && inst.emulator.host == host && inst.emulator.Valid() && inst.emulator.status.Running?
      && inst.bridge.host == host && inst.drain.Valid()
    }

    /** The entries are ready and share no emulator, no bridge and no drain. */
    ghost predicate Wired()
      reads this, Objects()
    {
      (forall id :: id in instances ==> Ready(id, instances[id])) && Distinct(instances)
    }

    /** What is live is exactly what the entries own. */
    ghost predicate Valid()
      reads this, host, Objects()
    {
      host.Valid() && Wired() && Sound(Now())
    }

    constructor (host: Host)
      requires host.Valid() && host.children == {} && host.devices == {}
      ensures Valid() && this.host == host && Now() == World(map[], {}, {})
    {
      this.host := host;
      instances := map[];
      new;
      assert Slots() == map[];
      SoundEmpty();
    }

    lemma SlotsAre(slots: Slots)
      requires slots.Keys == instances.Keys
      requires forall id :: id in instances ==> slots[id] == SlotOf(instances[id])
      ensures Slots() == slots
    {
    }

    lemma ObjectsApart()
      ensures host as object !in Objects() && this as object !in Objects()
      ensures forall o :: o in Objects() ==> allocated(o)
    {
    }

    lemma SlotsAreOfInstances()
      ensures Slots().Keys == instances.Keys
      ensures forall id :: id in instances ==> Slots()[id] == SlotOf(instances[id])
    {
    }

    /** The entry is there before and after, holds the same process and device, and shows the same. */
    twostate predicate Keeps(id: string)
      requires id in old(instances)
      reads this, Objects()
    {
      id in instances && SlotOf(instances[id]) == old(SlotOf(instances[id]))
    }

    /** Equal slots are kept entries. */
    twostate lemma SlotIsKept(id: string)
      requires id in old(instances) && id in Slots() && Slots()[id] == old(Slots())[id]
      ensures Keeps(id)
    {
    }

    lemma ReadyParts(id: string, inst: Instance)
      ensures Ready(id, inst) ==>
        inst.emulator.host == host && inst.emulator.Valid() && inst.bridge.host == host
      ensures SlotOf(inst).children == inst.emulator.Held() && SlotOf(inst).devices == inst.bridge.held
    {
    }

    /** Stop both, the bridge first, or let both go out of scope. */
    method Release(inst: Instance, graceful: bool)
      requires host.Valid() && inst.emulator.host == host && inst.bridge.host == host && inst.emulator.Valid()
      modifies host, inst.emulator`status, inst.emulator`child, inst.bridge
      ensures host.Valid()
      ensures host.children == old(host.children) - old(inst.emulator.Held())
      ensures host.devices == old(host.devices) - old(inst.bridge.held)
    {
      if graceful {
        inst.bridge.Stop();
        inst.emulator.Stop();
      } else {
        inst.emulator.Drop();
        inst.bridge.Drop();
      }
    }

    /** Take an entry out of the map and release what it holds; the others keep what they hold and show. */
    method Remove(id: string, graceful: bool)
      requires host.Valid() && Wired() && id in instances
      modifies this, host, instances[id].emulator, instances[id].bridge
      ensures host.Valid() && Wired() && instances == old(instances) - {id} && Objects() <= old(Objects())
      ensures Slots() == old(Slots()) - {id}
      ensures host.children == old(host.children) - old(ChildrenAt(Slots(), id))
      ensures host.devices == old(host.devices) - old(DevicesAt(Slots(), id))
    {
      hide ObjectsOf, Slots, SlotOf, Ready, GenericEmulator.Valid, GenericEmulator.Held;
      ObjectsAreNoHost(instances, host, this);
      ObjectsWithout(instances, id);
      SlotsAreOfInstances();
      var inst := instances[id];
      ghost var slots := Slots();
      instances := instances - {id};
      ReadyParts(id, inst);
      Release(inst, graceful);
      forall i | i in instances
        ensures SlotOf(instances[i]) == slots[i] && Ready(i, instances[i])
      {
        assert instances[i] == old(instances[i]) && old(Ready(i, instances[i]));
        assert instances[i].emulator != inst.emulator && instances[i].bridge != inst.bridge;
      }
      SlotsAre(slots - {id});
    }

    /** Unknown ids are not an error, and nothing happens for them. */
    method StopInstance(id: string)
      requires Valid()
      modifies this, host, Objects()
      ensures Valid() && instances == old(instances) - {id} && Objects() <= old(Objects())
      ensures Lost(old(Now()), Now(), id)
      ensures forall i :: i in old(instances) && i != id ==> Keeps(i)
    {
      hide Sound, Wired, Slots, ObjectsOf;
      ObjectsAreNoHost(instances, host, this);
      ghost var w := Now();
      SlotsAreOfInstances();
      if id in instances {
        ObjectsOfOne(instances, id);
        Remove(id, true);
      } else {
        assert instances == instances - {id} && Slots() == Slots() - {id};
      }
      SoundAfterLost(w, Now(), id);
      forall i | i in old(instances) && i != id
        ensures Keeps(i)
      {
        SlotIsKept(i);
      }
    }

    method Add(id: string, inst: Instance)
      requires Wired() && id !in instances
      requires Ready(id, inst) && {inst.emulator, inst.bridge, inst.drain} !! Objects()
      modifies this`instances
      ensures Wired() && instances == old(instances)[id := inst]
      ensures Objects() <= old(Objects()) + {inst.emulator, inst.bridge, inst.drain}
      ensures Slots() == old(Slots())[id := SlotOf(inst)]
    {
      hide SlotOf, GenericEmulator.Valid, ObjectsOf, Slots;
      ObjectsWith(instances, id, inst);
      SlotsAreOfInstances();
      ghost var slots := Slots();
      instances := instances[id := inst];
      forall i | i in instances && i != id
        ensures Ready(i, instances[i])
      {
        assert instances[i] == old(instances[i]) && old(Ready(i, instances[i]));
      }
      SlotsAre(slots[id := SlotOf(inst)]);
    }

    /** The map drops the value it replaces, so an id that comes up twice leaks nothing. */
    method Insert(id: string, inst: Instance)
      requires host.Valid() && Wired()
      requires Ready(id, inst) && {inst.emulator, inst.bridge, inst.drain} !! Objects()
      modifies this, host, Objects()
      ensures host.Valid() && Wired() && instances == old(instances)[id := inst]
      ensures Objects() <= old(Objects()) + {inst.emulator, inst.bridge, inst.drain}
      ensures Slots() == old(Slots())[id := SlotOf(inst)] && SlotOf(inst) == old(SlotOf(inst))
      ensures host.children == old(host.children) - ChildrenAt(old(Slots()), id)
      ensures host.devices == old(host.devices) - DevicesAt(old(Slots()), id)
    {
      hide Wired, Slots, SlotOf, ObjectsOf, GenericEmulator.Valid;
      ObjectsAreNoHost(instances, host, this);
      SlotsAreOfInstances();
      if id in instances {
        ObjectsOfOne(instances, id);
        Remove(id, false);
      }
      Add(id, inst);
    }

    /** Every failing way out has released what it had acquired; success adds one instance that holds both. */
    method StartBitbox02(req: StartRequest, env: StartEnv) returns (r: Result<Summary, ErrorCode>)
      requires Valid() && req.wallet == BitBox02
      modifies this, host, Objects()
      ensures Valid()
      ensures forall o :: o in Objects() ==> o in old(Objects()) || fresh(o)
      ensures r == StartReply(req, env)
      ensures Moves(old(Now()), Now(), Command.Start(req, env))
    {
      hide Wired, Sound, Gained, Slots, Objects;
      ObjectsApart();
      if !env.bundleManager {
        return Err(Internal);
      }
      if !env.bundlePath {
        return Err(BundleMissing);
      }
      if !env.binaryExists {
        return Err(BundleMissing);
      }
      if env.port.None? {
        return Err(ResourceExhausted);
      }
      if !env.profileDir {
        return Err(Internal);
      }
      ghost var w := Now();
      var emulator := new GenericEmulator(host, true);
      var started := emulator.Start(env.emulator);
      if started.Err? {
        emulator.Drop();
        assert Slots() == w.slots && host.children == w.children && host.devices == w.devices;
        return Err(SpawnFailed);
      }
      // The probe is skipped, so no other status can come up here.
      assert emulator.status == Running;
      if !env.seeded {
        emulator.Stop();
        assert Slots() == w.slots && host.children == w.children && host.devices == w.devices;
        return Err(Internal);
      }
      assert Slots() == w.slots;
      r := Attach(req, env, emulator, w);
    }

    /** The second half of a start, with a running emulator in hand that nobody owns yet. */
    method Attach(req: StartRequest, env: StartEnv, emulator: GenericEmulator, ghost w: World)
      returns (r: Result<Summary, ErrorCode>)
      requires host.Valid() && Wired() && Sound(w) && emulator !in Objects() && env.port.Some?
      requires emulator.host == host && emulator.Valid() && emulator.status.Running? && emulator.outputLines == []
      requires w.slots == Slots() && w.devices == host.devices
      requires emulator.Held() !! w.children && host.children == w.children + emulator.Held()
      modifies this, host, emulator, Objects()
      ensures Valid()
      ensures forall o :: o in Objects() ==> o in old(Objects()) || o == emulator || fresh(o)
      ensures r == if env.uhidCreated && env.connected then Ok(Listed(req, env)) else Err(BridgeFailed)
      ensures if r.Ok? then Gained(w, Now(), Listed(req, env), env.now) else Now() == w
    {
      hide Wired, Sound, Presentable, Gained, Slots, Objects;
      ObjectsApart();
      var bridge := new GenericBridge(host);
      var connected := bridge.Start(env.uhidCreated, env.connected);
      if connected.Err? {
        emulator.Stop();
        bridge.Drop();
        assert Slots() == w.slots && host.children == w.children && host.devices == w.devices;
        return Err(BridgeFailed);
      }
      var drain := new Drain();
      var summary := Listed(req, env);
      var inst := Instance(summary, emulator, bridge, drain, env.now);
      ghost var slot := SlotOf(inst);
      Insert(summary.id, inst);
      GainedOne(w, Now(), summary, env.now, slot);
      ListedIsPresentable(req, env);
      SoundAfterGained(w, Now(), summary, env.now);
      r := Ok(summary);
    }

    method Start(req: StartRequest, env: StartEnv) returns (r: Result<Summary, ErrorCode>)
      requires Valid()
      modifies this, host, Objects()
      ensures Valid()
      ensures forall o :: o in Objects() ==> o in old(Objects()) || fresh(o)
      ensures r == StartReply(req, env)
      ensures Moves(old(Now()), Now(), Command.Start(req, env))
      ensures forall i :: i in old(instances) && !Concerns(Command.Start(req, env), i) ==> Keeps(i)
    {
      hide Valid, Gained, Slots, Keeps, Concerns, StartReply;
      ghost var w := Now();
      ValidIsSound();
      SlotsAreOfInstances();
      if req.wallet == BitBox02 {
        r := StartBitbox02(req, env);
      } else {
        OnlyBitbox02(req, env);
        r := Err(WalletUnsupported);
      }
      forall i | i in old(instances) && !Concerns(Command.Start(req, env), i)
        ensures Keeps(i)
      {
        MoveOfOne(w, Now(), Command.Start(req, env), i);
        SlotIsKept(i);
      }
    }

    /** The unified log of an instance, as its buffers stand. */
    method Logs(id: string, source: Source, tail: Option<nat>, now: nat) returns (r: Result<seq<LogEntry>, ErrorCode>)
      ensures r == if id in instances then Ok(Collected(LogsOf(instances[id]), source, tail, now))
                   else Err(InstanceNotFound)
    {
      if id !in instances {
        return Err(InstanceNotFound);
      }
      var entries := CollectLogs(LogsOf(instances[id]), source, tail, now);
      r := Ok(entries);
    }

    method Shutdown()
      requires Valid()
      modifies this, host, Objects()
      ensures Valid() && Objects() <= old(Objects()) && Now() == World(map[], {}, {})
    {
      hide Wired, Sound, Slots, ObjectsOf, Lost;
      var ids := instances.Keys;
      while ids != {}
        invariant Valid() && ids == instances.Keys && Objects() <= old(Objects())
      {
        var id :| id in ids;
        StopInstance(id);
        ids := ids - {id};
      }
      SlotsAre(map[]);
      LiveIffListed(Now());
    }

    /**
     * One command: it moves the world as specified, is answered as what can be seen before it says, and
     * itself leaves alone what it does not concern.
     */
    method Handle(c: Command) returns (reply: Reply)
      requires Valid()
      modifies this, host, Objects()
      ensures Valid()
      ensures forall o :: o in Objects() ==> o in old(Objects()) || fresh(o)
      ensures Moves(old(Now()), Now(), c) && Answers(ViewOf(old(Now()).slots), c, reply)
      ensures forall i :: i in old(instances) && !Concerns(c, i) ==> Keeps(i)
    {
      hide Valid, StartReply, Collected, Gained, Lost, Slots, Objects;
      SlotsAreOfInstances();
      ObjectsApart();
      ghost var view := ViewOf(Now().slots);
      match c
      case Start(req, env) =>
        var r := Start(req, env);
        reply := Started(r);
      case Stop(id) =>
        StopInstance(id);
        reply := Ack;
      case Status(Some(id)) =>
        reply := Summaries(if id in instances then Ok({instances[id].summary}) else Err(InstanceNotFound));
      case Status(None) =>
        var all := set id | id in instances :: instances[id].summary;
        assert forall id :: id in instances ==> instances[id].summary == view[id].summary;
        AllSummaries(view, all);
        reply := Summaries(Ok(all));
      case Logs(id, source, tail, at) =>
        var r := Logs(id, source, tail, at);
        reply := LogEntries(r);
      case BridgeStats(id) =>
        reply := Stats(if id in instances then Ok(instances[id].drain.Snapshot()) else Err(InstanceNotFound));
      case Shutdown =>
        Shutdown();
        reply := Done;
    }

    method Hear(id: string, inst: Instance, line: string)
      requires Ready(id, inst)
      modifies inst.emulator
      ensures Ready(id, inst) && SlotOf(inst) == Shows(old(SlotOf(inst)), Said(id, line))
    {
      inst.emulator.PushLine(line);
    }

    /** The reader tasks of an emulator's output push a line into its buffer. */
    method Say(id: string, line: string)
      requires Valid()
      modifies Objects()
      ensures Valid() && Objects() == old(Objects())
      ensures Happens(old(Now()), Now(), Said(id, line))
    {
      hide Sound, Slots, SlotOf, Ready, ObjectsOf, Shows;
      ObjectsAreNoHost(instances, host, this);
      SlotsAreOfInstances();
      ghost var w := Now();
      if id in instances {
        ObjectsOfOne(instances, id);
        Hear(id, instances[id], line);
        forall i | i in instances
          ensures Ready(i, instances[i]) && (i != id ==> SlotOf(instances[i]) == w.slots[i])
        {
          assert old(Ready(i, instances[i]));
        }
        SlotsAre(w.slots[id := Shows(w.slots[id], Said(id, line))]);
      }
      SoundAfterEvent(w, Now(), Said(id, line));
    }

    method Note(id: string, inst: Instance, msg: InterceptedMessage, now: nat)
      requires Ready(id, inst)
      modifies inst.drain
      ensures Ready(id, inst) && SlotOf(inst) == Shows(old(SlotOf(inst)), Crossed(id, msg, now))
    {
      inst.drain.Capture(msg, now);
    }

    /** The drain task of an instance captures a message. */
    method Cross(id: string, msg: InterceptedMessage, now: nat)
      requires Valid()
      modifies Objects()
      ensures Valid() && Objects() == old(Objects())
      ensures Happens(old(Now()), Now(), Crossed(id, msg, now))
    {
      hide Sound, Slots, SlotOf, Ready, ObjectsOf, Shows;
      ObjectsAreNoHost(instances, host, this);
      SlotsAreOfInstances();
      ghost var w := Now();
      if id in instances {
        ObjectsOfOne(instances, id);
        Note(id, instances[id], msg, now);
        forall i | i in instances
          ensures Ready(i, instances[i]) && (i != id ==> SlotOf(instances[i]) == w.slots[i])
        {
          assert old(Ready(i, instances[i]));
        }
        SlotsAre(w.slots[id := Shows(w.slots[id], Crossed(id, msg, now))]);
      }
      SoundAfterEvent(w, Now(), Crossed(id, msg, now));
    }

    /** One step of the daemon. */
    method Perform(e: Event) returns (reply: Option<Reply>)
      requires Valid()
      modifies this, host, Objects()
      ensures Valid()
      ensures forall o :: o in Objects() ==> o in old(Objects()) || fresh(o)
      ensures Happens(old(Now()), Now(), e) && Responds(old(Now()), e, reply)
    {
      hide Valid, Moves, Answers, ViewOf, ObjectsOf, Now;
      match e
      case Asked(c) =>
        var answer := Handle(c);
        reply := Some(answer);
      case Said(id, line) =>
        Say(id, line);
        reply := None;
      case Crossed(id, msg, now) =>
        Cross(id, msg, now);
        reply := None;
    }

    /** The entry is there before and after, with the same process, device and summary. */
    twostate predicate KeepsHeld(id: string)
      requires id in old(instances)
      reads this, Objects()
    {
      && id in instances && instances[id].summary == old(instances[id].summary)
      && instances[id].emulator.Held() == old(instances[id].emulator.Held())
      && instances[id].bridge.held == old(instances[id].bridge.held)
    }

    twostate lemma HeldIsKept(id: string)
      requires id in old(instances) && id in Slots() && SameHeld(old(Slots())[id], Slots()[id])
      ensures KeepsHeld(id)
    {
    }

    /**
     * The actor's loop, among the traffic that the other tasks bring between its commands, with the worlds
     * it goes through: each command gets exactly one reply, and before and after each event what is live is
     * what is owned.
     */
    method RunLoop(events: seq<Event>) returns (replies: seq<Option<Reply>>, ghost worlds: seq<World>)
      requires Valid()
      modifies this, host, Objects()
      ensures Valid()
      ensures forall o :: o in Objects() ==> o in old(Objects()) || fresh(o)
      ensures IsRun(worlds, events) && Replied(worlds, events, replies)
      ensures worlds[0] == old(Now()) && worlds[|events|] == Now()
      ensures ViewOf(Now().slots) == AfterAll(ViewOf(old(Now()).slots), events)
      ensures forall id :: id in old(instances) && Untouched(events, id) ==> KeepsHeld(id)
    {
      hide Valid, Now, ObjectsOf, Slots, KeepsHeld, ViewOf, IsRun, Replied, Happens, Responds, Touches;
      NowShowsSlots();
      replies := [];
      worlds := [Now()];
      ValidIsSound();
      RunStarts(Now());
      var i := 0;
      while i < |events|
        invariant 0 <= i <= |events| && |worlds| == i + 1
        invariant Valid()
        invariant forall o :: o in Objects() ==> o in old(Objects()) || fresh(o)
        invariant worlds[0] == old(Now()) && worlds[i] == Now()
        invariant IsRun(worlds, events[..i]) && Replied(worlds, events[..i], replies)
      {
        var reply := Perform(events[i]);
        RunGoesOn(worlds, events[..i], replies, Now(), events[i], reply);
        replies, worlds := replies + [reply], worlds + [Now()];
        assert events[..i + 1] == events[..i] + [events[i]];
        i := i + 1;
      }
      assert events[..i] == events;
      RunOfView(worlds, events, i);
      NowShowsSlots();
      forall id | id in old(instances) && Untouched(events, id)
        ensures KeepsHeld(id)
      {
        UnconcernedKeepsAll(worlds, events, id);
        HeldIsKept(id);
      }
    }

    lemma NowShowsSlots()
      ensures Now().slots == Slots() && Slots().Keys == instances.Keys
    {
    }

    lemma ValidIsSound()
      requires Valid()
      ensures Sound(Now())
    {
    }
  }
}
