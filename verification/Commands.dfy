/**
 * The registry's commands and the traffic that comes between them: what each changes, what a command is
 * answered, and what whole runs keep and tell.
 */
module Commands {
  import opened Bytes
  import opened Resources
  import opened Emulator
  import opened LogDrain

  // ---- Requests and replies ----

  datatype Wallet = Trezor | BitBox02 | Coldcard | Specter | Ledger | Jade

  datatype ErrorCode =
    | BadRequest | WalletUnsupported | BundleMissing | SpawnFailed | StartupTimeout
    | BridgeFailed | InstanceNotFound | ResourceExhausted | Internal

  datatype InstanceState = InstanceStarting | InstanceRunning | InstanceStopping | InstanceError

  datatype StartRequest = StartRequest(wallet: Wallet, waitReady: bool)

  /** What the system answers on the way to a started instance, in the order it is asked. */
  datatype StartEnv = StartEnv(
    bundleManager: bool, bundlePath: bool, binaryExists: bool,
    suffix: string, port: Option<u16>, profileDir: bool, now: nat,
    emulator: EmulatorEnv, seeded: bool, uhidCreated: bool, connected: bool, hidraw: Option<string>)

  datatype Summary = Summary(
    id: string, wallet: Wallet, state: InstanceState, serial: string, hidraw: Option<string>, port: u16)

  datatype Command =
    | Start(req: StartRequest, env: StartEnv)
    | Stop(id: string)
    | Status(instance: Option<string>)
    | Logs(logsOf: string, source: Source, tail: Option<nat>, at: nat)
    | BridgeStats(statsOf: string)
    | Shutdown

  datatype Reply =
    | Started(started: Result<Summary, ErrorCode>)
    | Ack
    | Summaries(summaries: Result<set<Summary>, ErrorCode>)
    | LogEntries(entries: Result<seq<LogEntry>, ErrorCode>)
    | Stats(stats: Result<Counters, ErrorCode>)
    | Done

  /**
   * One step of the daemon: a command to the registry, a line its reader tasks take from an emulator, or a
   * message the drain task takes from a bridge. Steps of other tasks while a command is under way stand
   * before or after it: see TrafficCommutes and TrafficIsForgotten.
   */
  datatype Event =
    | Asked(c: Command)
    | Said(to: string, line: string)
    | Crossed(to: string, msg: InterceptedMessage, now: nat)

  // ---- What an instance shows and what it holds ----

  /** What a caller can learn of an instance: its summary, its logs and its counters. */
  datatype Seen = Seen(summary: Summary, log: LogState, stats: Counters)

  datatype Slot = Slot(seen: Seen, children: set<nat>, devices: set<nat>)

  type Slots = map<string, Slot>

  /** The listed instances, and the processes and devices that are live on the host. */
  datatype World = World(slots: Slots, children: set<nat>, devices: set<nat>)

  type View = map<string, Seen>

  function ViewOf(slots: Slots): View {
    map id | id in slots :: slots[id].seen
  }

  function ChildrenOf(slots: Slots): map<string, set<nat>> {
    map id | id in slots :: slots[id].children
  }

  function DevicesOf(slots: Slots): map<string, set<nat>> {
    map id | id in slots :: slots[id].devices
  }

  function ChildrenAt(slots: Slots, id: string): set<nat> {
    if id in slots then slots[id].children else {}
  }

  function DevicesAt(slots: Slots, id: string): set<nat> {
    if id in slots then slots[id].devices else {}
  }

  /** The serial of a listed instance belongs to its id. */
  ghost predicate Presentable(s: Summary) {
    && s.wallet == BitBox02 && s.state == InstanceRunning
    && exists suffix :: s.id == IdOf(suffix) && s.serial == SerialOf(suffix)
  }

  /** Serials tell listed instances apart exactly as ids do. */
  lemma DistinctSerials(a: Summary, b: Summary)
    requires Presentable(a) && Presentable(b)
    ensures a.serial == b.serial <==> a.id == b.id
  {
    var x :| a.id == IdOf(x) && a.serial == SerialOf(x);
    var y :| b.id == IdOf(y) && b.serial == SerialOf(y);
    assert x == a.id[|IdOf("")|..] == a.serial[|SerialOf("")|..];
    assert y == b.id[|IdOf("")|..] == b.serial[|SerialOf("")|..];
  }

  /** What is live is exactly what the listed instances hold; each is listed under its own id and holds both. */
  ghost predicate Sound(w: World) {
    && Owned(ChildrenOf(w.slots), w.children)
    && Owned(DevicesOf(w.slots), w.devices)
    && forall id :: id in w.slots ==> Proper(id, w.slots[id])
  }

  ghost predicate Proper(id: string, slot: Slot) {
    && slot.seen.summary.id == id && Presentable(slot.seen.summary)
    && slot.children != {} && slot.devices != {}
  }

  // ---- What a command changes ----

  function IdOf(suffix: string): string {
    "bitbox02-" + suffix
  }

  function SerialOf(suffix: string): string {
    "hwwctl-bb02-" + suffix
  }

  /** How a started instance is listed; the hidraw node is only looked for on request. */
  function Listed(req: StartRequest, env: StartEnv): (s: Summary)
    requires env.port.Some?
  {
    Summary(IdOf(env.suffix), BitBox02, InstanceRunning, SerialOf(env.suffix),
            if req.waitReady then env.hidraw else None, env.port.value)
  }

  /** The first thing that goes wrong on the way to a started instance, or its summary. */
  function StartReply(req: StartRequest, env: StartEnv): (r: Result<Summary, ErrorCode>)
    ensures r.Err? ==>
      r.error in {WalletUnsupported, BundleMissing, ResourceExhausted, Internal, SpawnFailed, BridgeFailed}
  {
    if req.wallet != BitBox02 then Err(WalletUnsupported)
    else if !env.bundleManager then Err(Internal)
    else if !env.bundlePath || !env.binaryExists then Err(BundleMissing)
    else if env.port.None? then Err(ResourceExhausted)
    else if !env.profileDir then Err(Internal)
    else if !env.emulator.binaryExists || !env.emulator.dirCreated || !env.emulator.spawned then Err(SpawnFailed)
    else if !env.seeded then Err(Internal)
    else if !env.uhidCreated || !env.connected then Err(BridgeFailed)
    else Ok(Listed(req, env))
  }

  lemma OnlyBitbox02(req: StartRequest, env: StartEnv)
    requires req.wallet != BitBox02
    ensures StartReply(req, env) == Err(WalletUnsupported)
  {
  }

  /** An instance that nothing has been said or sent in yet. */
  function Opened(s: Summary, now: nat): Seen {
    Seen(s, LogState([], [], now), Counters(0, 0, 0, 0))
  }

  /** An instance is gone with what it held, and nothing else. */
  predicate Lost(w: World, v: World, id: string) {
    v == World(w.slots - {id}, w.children - ChildrenAt(w.slots, id), w.devices - DevicesAt(w.slots, id))
  }

  /** A new instance holds a new process and a new device; what its id listed before is gone, nothing else. */
  predicate Gained(w: World, v: World, s: Summary, now: nat) {
    && s.id in v.slots && v.slots == w.slots[s.id := v.slots[s.id]]
    && var slot := v.slots[s.id];
    && slot.seen == Opened(s, now) && slot.children != {} && slot.devices != {}
    && slot.children !! w.children && slot.devices !! w.devices
    && v.children == w.children - ChildrenAt(w.slots, s.id) + slot.children
    && v.devices == w.devices - DevicesAt(w.slots, s.id) + slot.devices
  }

  predicate Moves(w: World, v: World, c: Command) {
    match c
    case Start(req, env) =>
      if StartReply(req, env).Ok? then Gained(w, v, StartReply(req, env).value, env.now) else v == w
    case Stop(id) => Lost(w, v, id)
    case Shutdown => v == World(map[], {}, {})
    case _ => v == w
  }

  lemma SoundAfterLost(w: World, v: World, id: string)
    requires Sound(w) && Lost(w, v, id)
    ensures Sound(v)
  {
    if id in w.slots {
      OwnedAfterRelease(ChildrenOf(w.slots), w.children, id);
      OwnedAfterRelease(DevicesOf(w.slots), w.devices, id);
      hide Owned, Proper;
      assert ChildrenOf(v.slots) == ChildrenOf(w.slots) - {id};
      assert DevicesOf(v.slots) == DevicesOf(w.slots) - {id};
    } else {
      assert v == w;
    }
  }

  lemma SoundAfterGained(w: World, v: World, s: Summary, now: nat)
    requires Sound(w) && Gained(w, v, s, now) && Presentable(s)
    ensures Sound(v)
  {
    hide Owned, Presentable;
    var slot := v.slots[s.id];
    var u := World(w.slots - {s.id}, w.children - ChildrenAt(w.slots, s.id), w.devices - DevicesAt(w.slots, s.id));
    SoundAfterLost(w, u, s.id);
    OwnedAfterAcquire(ChildrenOf(u.slots), u.children, s.id, slot.children);
    OwnedAfterAcquire(DevicesOf(u.slots), u.devices, s.id, slot.devices);
    assert ChildrenOf(v.slots) == ChildrenOf(u.slots)[s.id := slot.children];
    assert DevicesOf(v.slots) == DevicesOf(u.slots)[s.id := slot.devices];
  }

  lemma HeldIsLive(w: World, id: string)
    requires Sound(w)
    ensures ChildrenAt(w.slots, id) <= w.children && DevicesAt(w.slots, id) <= w.devices
  {
    hide Proper;
    if id in w.slots {
      assert ChildrenOf(w.slots)[id] == w.slots[id].children && DevicesOf(w.slots)[id] == w.slots[id].devices;
    }
  }

  /** Filing a new slot under an id, and dropping what the id held before, gains exactly that. */
  lemma GainedOne(w: World, v: World, s: Summary, now: nat, slot: Slot)
    requires Sound(w) && v.slots == w.slots[s.id := slot]
    requires slot.seen == Opened(s, now) && slot.children != {} && slot.devices != {}
    requires slot.children !! w.children && slot.devices !! w.devices
    requires v.children == w.children + slot.children - ChildrenAt(w.slots, s.id)
    requires v.devices == w.devices + slot.devices - DevicesAt(w.slots, s.id)
    ensures Gained(w, v, s, now)
  {
    hide Sound, ChildrenAt, DevicesAt;
    HeldIsLive(w, s.id);
  }

  lemma ListedIsPresentable(req: StartRequest, env: StartEnv)
    requires env.port.Some?
    ensures Presentable(Listed(req, env))
  {
  }

  lemma SoundEmpty()
    ensures Sound(World(map[], {}, {}))
  {
  }

  /** Every command keeps live equal to owned. */
  lemma SoundAfterMove(w: World, v: World, c: Command)
    requires Sound(w) && Moves(w, v, c)
    ensures Sound(v)
  {
    hide Sound, Gained, Lost, Presentable;
    match c
    case Start(req, env) =>
      if StartReply(req, env).Ok? {
        ListedIsPresentable(req, env);
        SoundAfterGained(w, v, StartReply(req, env).value, env.now);
      }
    case Stop(id) => SoundAfterLost(w, v, id);
    case Shutdown => SoundEmpty();
    case _ =>
  }

  predicate Lists(c: Command, id: string) {
    c.Start? && StartReply(c.req, c.env).Ok? && StartReply(c.req, c.env).value.id == id
  }

  predicate Ends(c: Command, id: string) {
    c.Shutdown? || (c.Stop? && c.id == id)
  }

  predicate Concerns(c: Command, id: string) {
    Lists(c, id) || Ends(c, id)
  }

  predicate Touches(e: Event, id: string) {
    e.Asked? && Concerns(e.c, id)
  }

  predicate Untouched(es: seq<Event>, id: string) {
    forall i :: 0 <= i < |es| ==> !Touches(es[i], id)
  }

  /** What a command itself does to one id: leaves it as it is with all it holds, or what it held is no longer live. */
  lemma MoveOfOne(w: World, v: World, c: Command, id: string)
    requires Sound(w) && Moves(w, v, c) && id in w.slots
    ensures !Concerns(c, id) ==> id in v.slots && v.slots[id] == w.slots[id]
    ensures Concerns(c, id) ==> w.slots[id].children !! v.children && w.slots[id].devices !! v.devices
  {
    hide StartReply, Proper;
    HeldIsLive(w, id);
  }

  /** In a sound world a process or device is live exactly when an instance is listed. */
  lemma LiveIffListed(w: World)
    requires Sound(w)
    ensures w.children != {} <==> w.slots != map[]
    ensures w.devices != {} <==> w.slots != map[]
  {
    hide Presentable;
    if id :| id in w.slots {
      var child :| child in w.slots[id].children;
      var device :| device in w.slots[id].devices;
      assert child in ChildrenOf(w.slots)[id] && device in DevicesOf(w.slots)[id];
    } else {
      assert w.slots == map[];
    }
  }

  /** No two listed instances share a serial. */
  lemma SerialsUnique(w: World, i: string, j: string)
    requires Sound(w) && i in w.slots && j in w.slots
    ensures w.slots[i].seen.summary.serial == w.slots[j].seen.summary.serial <==> i == j
  {
    hide Presentable, Owned;
    assert Proper(i, w.slots[i]) && Proper(j, w.slots[j]);
    DistinctSerials(w.slots[i].seen.summary, w.slots[j].seen.summary);
  }

  // ---- What a caller sees ----

  function After(view: View, c: Command): View {
    match c
    case Start(req, env) =>
      var r := StartReply(req, env);
      if r.Ok? then view[r.value.id := Opened(r.value, env.now)] else view
    case Stop(id) => view - {id}
    case Shutdown => map[]
    case _ => view
  }

  /** What an instance shows after a line, or after a message, of its own. */
  function SeenAfter(s: Seen, e: Event): Seen {
    match e
    case Asked(_) => s
    case Said(_, line) => s.(log := s.log.(emuOutput := Last(s.log.emuOutput + [line], OUTPUT_RING_SIZE)))
    case Crossed(_, msg, now) =>
      var entry := BridgeLog(now, msg.direction, msg.rawHex);
      s.(log := s.log.(bridgeLog := Last(s.log.bridgeLog + [entry], LOG_BUFFER_CAP)), stats := Counted(s.stats, msg))
  }

  function AfterEvent(view: View, e: Event): View {
    if e.Asked? then After(view, e.c)
    else if e.to in view then view[e.to := SeenAfter(view[e.to], e)] else view
  }

  function AfterAll(view: View, es: seq<Event>): View {
    if es == [] then view else AfterEvent(AfterAll(view, es[..|es| - 1]), es[|es| - 1])
  }

  function SummariesOf(view: View): set<Summary> {
    set id | id in view :: view[id].summary
  }

  lemma AllSummaries(view: View, all: set<Summary>)
    requires forall s :: s in all <==> exists id :: id in view && view[id].summary == s
    ensures all == SummariesOf(view)
  {
  }

  /** The reply a command gets. */
  predicate Answers(view: View, c: Command, reply: Reply) {
    match c
    case Start(req, env) => reply == Started(StartReply(req, env))
    case Stop(_) => reply == Ack
    case Status(Some(id)) => reply == Summaries(if id in view then Ok({view[id].summary}) else Err(InstanceNotFound))
    case Status(None) => reply == Summaries(Ok(SummariesOf(view)))
    case Logs(id, source, tail, at) =>
      reply == LogEntries(if id in view then Ok(Collected(view[id].log, source, tail, at)) else Err(InstanceNotFound))
    case BridgeStats(id) => reply == Stats(if id in view then Ok(view[id].stats) else Err(InstanceNotFound))
    case Shutdown => reply == Done
  }

  lemma MoveOfView(w: World, v: World, c: Command)
    requires Moves(w, v, c)
    ensures ViewOf(v.slots) == After(ViewOf(w.slots), c)
  {
    hide StartReply, ChildrenAt, DevicesAt;
  }

  // ---- Traffic and commands ----

  /** It makes no difference whether traffic of an instance comes before or after a command that leaves it alone. */
  lemma TrafficCommutes(view: View, c: Command, e: Event)
    requires !e.Asked? && !Concerns(c, e.to)
    ensures AfterEvent(After(view, c), e) == After(AfterEvent(view, e), c)
  {
    hide StartReply, SeenAfter;
  }

  /** Traffic of an instance before a command that ends or replaces it leaves no trace. */
  lemma TrafficIsForgotten(view: View, c: Command, e: Event)
    requires !e.Asked? && Concerns(c, e.to)
    ensures After(AfterEvent(view, e), c) == After(view, c)
  {
    hide StartReply, SeenAfter;
  }

  /** A step of the daemon: commands move the world, traffic only what the instance shows. */
  predicate Happens(w: World, v: World, e: Event) {
    if e.Asked? then Moves(w, v, e.c)
    else if e.to in w.slots then v == w.(slots := w.slots[e.to := Shows(w.slots[e.to], e)]) else v == w
  }

  function Shows(slot: Slot, e: Event): Slot {
    slot.(seen := SeenAfter(slot.seen, e))
  }

  lemma SoundAfterEvent(w: World, v: World, e: Event)
    requires Sound(w) && Happens(w, v, e)
    ensures Sound(v)
  {
    hide Presentable, Moves;
    if e.Asked? {
      SoundAfterMove(w, v, e.c);
    } else if e.to in w.slots {
      hide Owned;
      assert ChildrenOf(v.slots) == ChildrenOf(w.slots) && DevicesOf(v.slots) == DevicesOf(w.slots);
      assert forall id :: id in v.slots ==> Proper(id, w.slots[id]);
    }
  }

  lemma EventOfView(w: World, v: World, e: Event)
    requires Happens(w, v, e)
    ensures ViewOf(v.slots) == AfterEvent(ViewOf(w.slots), e)
  {
    hide Moves, SeenAfter, After;
    if e.Asked? {
      MoveOfView(w, v, e.c);
    }
  }

  // ---- Whole runs ----

  /** The worlds a run goes through, the one before each event and the last. */
  ghost predicate IsRun(worlds: seq<World>, es: seq<Event>) {
    && |worlds| == |es| + 1
    && (forall i :: 0 <= i < |worlds| ==> Sound(worlds[i]))
    && forall i :: 0 <= i < |es| ==> Happens(worlds[i], worlds[i + 1], es[i])
  }

  /** A command is answered, as what can be seen in the world before it says; traffic is not. */
  predicate Responds(w: World, e: Event, reply: Option<Reply>) {
    if e.Asked? then reply.Some? && Answers(ViewOf(w.slots), e.c, reply.value) else reply == None
  }

  predicate Replied(worlds: seq<World>, es: seq<Event>, replies: seq<Option<Reply>>) {
    && |replies| == |es| <= |worlds|
    && forall i :: 0 <= i < |es| ==> Responds(worlds[i], es[i], replies[i])
  }

  lemma RunStarts(w: World)
    requires Sound(w)
    ensures IsRun([w], []) && Replied([w], [], [])
  {
  }

  lemma RunGoesOn(
      worlds: seq<World>, es: seq<Event>, replies: seq<Option<Reply>>, v: World, e: Event, reply: Option<Reply>)
    requires IsRun(worlds, es) && Replied(worlds, es, replies)
    requires Happens(worlds[|es|], v, e) && Responds(worlds[|es|], e, reply)
    ensures IsRun(worlds + [v], es + [e]) && Replied(worlds + [v], es + [e], replies + [reply])
  {
    hide Happens, Sound, Responds;
    SoundAfterEvent(worlds[|es|], v, e);
  }

  /** A run up to any of its events is a run. */
  lemma RunFront(worlds: seq<World>, es: seq<Event>, n: nat)
    requires IsRun(worlds, es) && n <= |es|
    ensures |worlds| == |es| + 1 && IsRun(worlds[..n + 1], es[..n])
    ensures n < |es| ==> Sound(worlds[n]) && Happens(worlds[n], worlds[n + 1], es[n])
  {
    hide Happens, Sound;
  }

  /** What is seen after any number of events is what those events, and nothing else, say. */
  lemma {:induction false} RunOfView(worlds: seq<World>, es: seq<Event>, n: nat)
    requires IsRun(worlds, es) && n <= |es| < |worlds|
    ensures ViewOf(worlds[n].slots) == AfterAll(ViewOf(worlds[0].slots), es[..n])
    decreases n
  {
    hide IsRun, Happens, Sound, ViewOf, AfterEvent;
    if n > 0 {
      RunOfView(worlds, es, n - 1);
      RunFront(worlds, es, n - 1);
      EventOfView(worlds[n - 1], worlds[n], es[n - 1]);
      assert es[..n][..n - 1] == es[..n - 1];
    }
  }

  /** What one instance holds, and how it is listed. */
  predicate SameHeld(a: Slot, b: Slot) {
    a.children == b.children && a.devices == b.devices && a.seen.summary == b.seen.summary
  }

  lemma EventOfOne(w: World, v: World, e: Event, id: string)
    requires Sound(w) && Happens(w, v, e) && id in w.slots && !Touches(e, id)
    ensures id in v.slots && SameHeld(w.slots[id], v.slots[id])
  {
    hide Moves, Sound, Concerns;
    if e.Asked? {
      MoveOfOne(w, v, e.c, id);
    }
  }

  /** An instance that no command of a run concerns keeps its process, its device and its summary. */
  lemma {:induction false} UnconcernedKeepsAll(worlds: seq<World>, es: seq<Event>, id: string)
    requires IsRun(worlds, es) && |worlds| == |es| + 1 && id in worlds[0].slots && Untouched(es, id)
    ensures id in worlds[|es|].slots && SameHeld(worlds[0].slots[id], worlds[|es|].slots[id])
  {
    hide IsRun, Happens, Sound, Touches;
    if es != [] {
      RunFront(worlds, es, |es| - 1);
      UnconcernedKeepsAll(worlds[..|es|], es[..|es| - 1], id);
      EventOfOne(worlds[|es| - 1], worlds[|es|], es[|es| - 1], id);
    }
  }

  // ---- What the traffic of a run tells ----

  /** The lines an instance said, the messages that crossed its bridge, and those as log entries. */
  function LinesOf(es: seq<Event>, id: string): seq<string> {
    if es == [] then []
    else
      var e := es[|es| - 1];
      LinesOf(es[..|es| - 1], id) + (if e.Said? && e.to == id then [e.line] else [])
  }

  function MessagesOf(es: seq<Event>, id: string): seq<InterceptedMessage> {
    if es == [] then []
    else
      var e := es[|es| - 1];
      MessagesOf(es[..|es| - 1], id) + (if e.Crossed? && e.to == id then [e.msg] else [])
  }

  function EntriesOf(es: seq<Event>, id: string): seq<BridgeLog> {
    if es == [] then []
    else
      var e := es[|es| - 1];
      EntriesOf(es[..|es| - 1], id)
      + (if e.Crossed? && e.to == id then [BridgeLog(e.now, e.msg.direction, e.msg.rawHex)] else [])
  }

  /** What an instance that showed s shows after the events: the last 500 of each, and counters gone on. */
  function Overheard(s: Seen, es: seq<Event>, id: string): Seen {
    Seen(s.summary,
         LogState(Last(s.log.emuOutput + LinesOf(es, id), OUTPUT_RING_SIZE),
                  Last(s.log.bridgeLog + EntriesOf(es, id), LOG_BUFFER_CAP), s.log.startedAt),
         Plus(s.stats, MessagesOf(es, id)))
  }

  predicate InBounds(s: Seen) {
    |s.log.emuOutput| <= OUTPUT_RING_SIZE && |s.log.bridgeLog| <= LOG_BUFFER_CAP
  }

  lemma OverheardNothing(s: Seen, id: string)
    requires InBounds(s)
    ensures Overheard(s, [], id) == s
  {
    PlusNothing(s.stats);
    assert s.log.emuOutput + [] == s.log.emuOutput && s.log.bridgeLog + [] == s.log.bridgeLog;
  }

  lemma OverheardNext(s: Seen, es: seq<Event>, e: Event, id: string)
    ensures Overheard(s, es + [e], id) ==
            if !e.Asked? && e.to == id then SeenAfter(Overheard(s, es, id), e) else Overheard(s, es, id)
  {
    hide Last, Plus, Counted;
    assert (es + [e])[..|es|] == es;
    if e.Said? && e.to == id {
      assert s.log.emuOutput + LinesOf(es, id) + [e.line] == s.log.emuOutput + LinesOf(es + [e], id);
      LastOfPush(s.log.emuOutput + LinesOf(es, id), e.line, OUTPUT_RING_SIZE);
    } else if e.Crossed? && e.to == id {
      var entry := BridgeLog(e.now, e.msg.direction, e.msg.rawHex);
      assert s.log.bridgeLog + EntriesOf(es, id) + [entry] == s.log.bridgeLog + EntriesOf(es + [e], id);
      LastOfPush(s.log.bridgeLog + EntriesOf(es, id), entry, LOG_BUFFER_CAP);
      PlusNext(s.stats, MessagesOf(es, id), e.msg);
    }
    assert !(e.Said? && e.to == id) ==> LinesOf(es + [e], id) == LinesOf(es, id);
    assert !(e.Crossed? && e.to == id) ==>
      EntriesOf(es + [e], id) == EntriesOf(es, id) && MessagesOf(es + [e], id) == MessagesOf(es, id);
  }

  lemma UntouchedStep(view: View, e: Event, id: string)
    requires id in view && !Touches(e, id)
    ensures id in AfterEvent(view, e)
    ensures AfterEvent(view, e)[id] == if !e.Asked? && e.to == id then SeenAfter(view[id], e) else view[id]
  {
    hide StartReply, SeenAfter;
  }

  /** While no command concerns an instance, what it shows is told by its own traffic alone, whatever else happens. */
  lemma {:induction false} TrafficTells(view: View, es: seq<Event>, id: string)
    requires id in view && InBounds(view[id]) && Untouched(es, id)
    ensures id in AfterAll(view, es) && AfterAll(view, es)[id] == Overheard(view[id], es, id)
  {
    hide AfterEvent, SeenAfter, Overheard, Touches, InBounds;
    if es == [] {
      OverheardNothing(view[id], id);
    } else {
      var front, e := es[..|es| - 1], es[|es| - 1];
      TrafficTells(view, front, id);
      UntouchedStep(AfterAll(view, front), e, id);
      OverheardNext(view[id], front, e, id);
      assert es == front + [e];
    }
  }

  lemma {:induction false} AfterConcat(view: View, xs: seq<Event>, ys: seq<Event>)
    ensures AfterAll(view, xs + ys) == AfterAll(AfterAll(view, xs), ys)
  {
    hide AfterEvent;
    if ys == [] {
      assert xs + ys == xs;
    } else {
      assert (xs + ys)[..|xs + ys| - 1] == xs + ys[..|ys| - 1];
      AfterConcat(view, xs, ys[..|ys| - 1]);
    }
  }

  /** What a successful start and the events after it leave of the instance. */
  function Since(e: Event, es: seq<Event>, id: string): Seen
    requires e.Asked? && Lists(e.c, id)
  {
    Seen(StartReply(e.c.req, e.c.env).value,
         LogState(Last(LinesOf(es, id), OUTPUT_RING_SIZE), Last(EntriesOf(es, id), LOG_BUFFER_CAP), e.c.env.now),
         CountersOf(MessagesOf(es, id)))
  }

  lemma SinceHoldsFiveHundred(e: Event, es: seq<Event>, id: string)
    requires e.Asked? && Lists(e.c, id)
    ensures var log := Since(e, es, id).log;
      && log.emuOutput == Last(LinesOf(es, id), 500) && log.bridgeLog == Last(EntriesOf(es, id), 500)
      && log.startedAt == e.c.env.now
  {
    hide LinesOf, EntriesOf, MessagesOf, CountersOf, StartReply;
  }

  /**
   * The last command that concerns an id decides, whatever was seen before the run: the id is listed
   * exactly if that command was a successful start, and then shows its last 500 lines, the last 500
   * messages and the counters of all messages since that start.
   */
  lemma LastWordDecides(view: View, es: seq<Event>, id: string, k: nat)
    requires k < |es| && Touches(es[k], id) && Untouched(es[k + 1..], id)
    ensures id in AfterAll(view, es) <==> Lists(es[k].c, id)
    ensures Lists(es[k].c, id) ==> AfterAll(view, es)[id] == Since(es[k], es[k + 1..], id)
  {
    hide StartReply, AfterAll, Overheard;
    var before, later := AfterAll(view, es[..k]), es[k + 1..];
    var here := After(before, es[k].c);
    assert es == es[..k] + [es[k]] + later;
    AfterConcat(view, es[..k] + [es[k]], later);
    AfterConcat(view, es[..k], [es[k]]);
    AfterOne(before, es[k]);
    if Lists(es[k].c, id) {
      TrafficTells(here, later, id);
      OverheardSinceStart(es[k], later, id);
    } else {
      StaysUnlisted(here, later, id);
    }
  }

  lemma AfterOne(view: View, e: Event)
    ensures AfterAll(view, [e]) == AfterEvent(view, e)
  {
    assert [e][..0] == [];
  }

  lemma OverheardSinceStart(e: Event, es: seq<Event>, id: string)
    requires e.Asked? && Lists(e.c, id)
    ensures Overheard(Opened(StartReply(e.c.req, e.c.env).value, e.c.env.now), es, id) == Since(e, es, id)
  {
    hide StartReply, LinesOf, EntriesOf, MessagesOf, Plus, CountersOf;
    PlusFromZero(MessagesOf(es, id));
    assert [] + LinesOf(es, id) == LinesOf(es, id) && [] + EntriesOf(es, id) == EntriesOf(es, id);
  }

  /** An id that is not listed and that no command concerns does not come to be listed, by traffic or otherwise. */
  lemma {:induction false} StaysUnlisted(view: View, es: seq<Event>, id: string)
    requires id !in view && Untouched(es, id)
    ensures id !in AfterAll(view, es)
  {
    hide StartReply, SeenAfter;
    if es != [] {
      StaysUnlisted(view, es[..|es| - 1], id);
      assert !Touches(es[|es| - 1], id);
    }
  }

  /**
   * What a run replies about logs and counters: event j of any run asks for an instance that event k
   * started, and nothing between concerns it. The counters are those of all messages since then, the log
   * is the unified log of the last 500 lines and the last 500 messages since then.
   */
  lemma RepliesTellTraffic(
      worlds: seq<World>, es: seq<Event>, replies: seq<Option<Reply>>, id: string, k: nat, j: nat)
    requires IsRun(worlds, es) && Replied(worlds, es, replies)
    requires k < j < |es| && es[k].Asked? && Lists(es[k].c, id) && Untouched(es[k + 1..j], id) && es[j].Asked?
    ensures |replies| == |es|
    ensures es[j].c == BridgeStats(id) ==>
      replies[j] == Some(Stats(Ok(CountersOf(MessagesOf(es[k + 1..j], id)))))
    ensures es[j].c.Logs? && es[j].c.logsOf == id ==>
      replies[j] == Some(LogEntries(Ok(
        Collected(Since(es[k], es[k + 1..j], id).log, es[j].c.source, es[j].c.tail, es[j].c.at))))
  {
    hide StartReply, IsRun, AfterAll, ViewOf, Collected, LinesOf, EntriesOf, MessagesOf, CountersOf, Last;
    RunFront(worlds, es, j);
    RunOfView(worlds, es, j);
    assert es[..j][k + 1..] == es[k + 1..j];
    LastWordDecides(ViewOf(worlds[0].slots), es[..j], id, k);
    assert Responds(worlds[j], es[j], replies[j]);
  }

  /** Said of the reports themselves: the counters replied are how many crossed the bridge, and their bytes. */
  lemma StatsReplyCountsReports(
      worlds: seq<World>, es: seq<Event>, replies: seq<Option<Reply>>, id: string, k: nat, j: nat, rs: seq<Report>)
    requires IsRun(worlds, es) && Replied(worlds, es, replies)
    requires k < j < |es| && es[k].Asked? && Lists(es[k].c, id) && Untouched(es[k + 1..j], id)
    requires es[j] == Asked(BridgeStats(id)) && MessagesOf(es[k + 1..j], id) == InterceptAll(rs)
    ensures |replies| == |es|
    ensures replies[j] == Some(Stats(Ok(
      Counters(Wrap64(|Sent(rs, HostToDevice)|), Wrap64(TotalLength(Sent(rs, HostToDevice))),
               Wrap64(|Sent(rs, DeviceToHost)|), Wrap64(TotalLength(Sent(rs, DeviceToHost)))))))
  {
    hide IsRun, Replied, Lists, Untouched, MessagesOf, InterceptAll, CountersOf, Wrap64;
    RepliesTellTraffic(worlds, es, replies, id, k, j);
    CountersOfReports(rs);
  }

  // ---- What a run replies, told by its own replies ----

  predicate WasStarted(es: seq<Event>, replies: seq<Option<Reply>>, k: nat, s: Summary) {
    k < |es| && k < |replies| && es[k].Asked? && es[k].c.Start? && replies[k] == Some(Started(Ok(s)))
  }

  /** Event k stopped the instance, shut the registry down, or was answered with a start of it. */
  ghost predicate Decides(es: seq<Event>, replies: seq<Option<Reply>>, k: nat, id: string) {
    && k < |es|
    && ((es[k].Asked? && (es[k].c == Stop(id) || es[k].c == Shutdown))
        || exists s :: WasStarted(es, replies, k, s) && s.id == id)
  }

  /** Before event j, the last event that decided about the instance was its start, answered with s. */
  ghost predicate StartedLast(es: seq<Event>, replies: seq<Option<Reply>>, j: nat, id: string, s: Summary) {
    exists k: nat :: k < j && WasStarted(es, replies, k, s) && s.id == id
                     && forall i: nat :: k < i < j ==> !Decides(es, replies, i, id)
  }

  lemma DecidesIsTouches(worlds: seq<World>, es: seq<Event>, replies: seq<Option<Reply>>, k: nat, id: string)
    requires Replied(worlds, es, replies) && k < |es|
    ensures Decides(es, replies, k, id) <==> Touches(es[k], id)
    ensures Touches(es[k], id) && Lists(es[k].c, id) ==>
      WasStarted(es, replies, k, StartReply(es[k].c.req, es[k].c.env).value)
    ensures forall s :: WasStarted(es, replies, k, s) ==>
      Lists(es[k].c, s.id) && StartReply(es[k].c.req, es[k].c.env).value == s
  {
    hide StartReply, ViewOf;
    assert Responds(worlds[k], es[k], replies[k]);
    if es[k].Asked? && es[k].c.Start? {
      var r := StartReply(es[k].c.req, es[k].c.env);
      assert replies[k] == Some(Started(r));
      assert r.Ok? ==> WasStarted(es, replies, k, r.value);
    }
  }

  /** The last event before j that concerns the id, if there is one. */
  lemma {:induction false} LastTouch(es: seq<Event>, j: nat, id: string) returns (k: Option<nat>)
    requires j <= |es|
    ensures k == None ==> Untouched(es[..j], id)
    ensures k.Some? ==> k.value < j && Touches(es[k.value], id) && Untouched(es[k.value + 1..j], id)
  {
    hide Touches;
    if j == 0 {
      k := None;
    } else if Touches(es[j - 1], id) {
      k := Some(j - 1);
    } else {
      k := LastTouch(es, j - 1, id);
      if k.Some? {
        assert es[k.value + 1..j] == es[k.value + 1..j - 1] + [es[j - 1]];
      } else {
        assert es[..j] == es[..j - 1] + [es[j - 1]];
      }
    }
  }

  /** From an empty registry, an id is listed before event j exactly as the start that still stands was answered. */
  lemma ListedAsStarted(worlds: seq<World>, es: seq<Event>, replies: seq<Option<Reply>>, j: nat, id: string)
    requires IsRun(worlds, es) && Replied(worlds, es, replies) && j < |es| && j < |worlds|
    requires worlds[0].slots == map[]
    ensures var view := ViewOf(worlds[j].slots);
      forall s :: StartedLast(es, replies, j, id, s) <==> id in view && view[id].summary == s
  {
    hide IsRun, Ends, StartReply, AfterAll, WasStarted, Decides;
    RunFront(worlds, es, j);
    RunOfView(worlds, es, j);
    var view := ViewOf(worlds[j].slots);
    assert ViewOf(worlds[0].slots) == map[];
    var last := LastTouch(es, j, id);
    if last == None {
      StaysUnlisted(map[], es[..j], id);
      forall k: nat | k < j
        ensures !Decides(es, replies, k, id)
      {
        assert es[..j][k] == es[k];
        DecidesIsTouches(worlds, es, replies, k, id);
      }
      NeverStarted(es, replies, j, id);
    } else {
      var k := last.value;
      assert es[..j][k + 1..] == es[k + 1..j] && es[..j][k] == es[k];
      LastWordDecides(map[], es[..j], id, k);
      forall i: nat | k < i < j
        ensures !Decides(es, replies, i, id)
      {
        assert es[k + 1..j][i - k - 1] == es[i];
        DecidesIsTouches(worlds, es, replies, i, id);
      }
      DecidesIsTouches(worlds, es, replies, k, id);
      StandsFrom(es, replies, j, id, k);
      if Lists(es[k].c, id) {
        assert view[id].summary == StartReply(es[k].c.req, es[k].c.env).value;
      }
    }
  }

  lemma NeverStarted(es: seq<Event>, replies: seq<Option<Reply>>, j: nat, id: string)
    requires j <= |es| && forall k: nat :: k < j ==> !Decides(es, replies, k, id)
    ensures forall s :: !StartedLast(es, replies, j, id, s)
  {
    forall s
      ensures !StartedLast(es, replies, j, id, s)
    {
      if StartedLast(es, replies, j, id, s) {
        var k: nat :| k < j && WasStarted(es, replies, k, s) && s.id == id;
        assert Decides(es, replies, k, id);
      }
    }
  }

  /** Where k is the last event that decided, only it can be the start that stands. */
  lemma StandsFrom(es: seq<Event>, replies: seq<Option<Reply>>, j: nat, id: string, k: nat)
    requires k < j <= |es| && Decides(es, replies, k, id)
    requires forall i: nat :: k < i < j ==> !Decides(es, replies, i, id)
    ensures forall s :: StartedLast(es, replies, j, id, s) <==> WasStarted(es, replies, k, s) && s.id == id
  {
    forall s
      ensures StartedLast(es, replies, j, id, s) <==> WasStarted(es, replies, k, s) && s.id == id
    {
      if StartedLast(es, replies, j, id, s) {
        var i: nat :| i < j && WasStarted(es, replies, i, s) && s.id == id
                      && forall n: nat :: i < n < j ==> !Decides(es, replies, n, id);
        assert Decides(es, replies, i, id);
        assert i == k;
      }
    }
  }

  /**
   * Status for all lists a summary exactly when, for some id, the last event that decided about it was a
   * start answered with that summary.
   */
  lemma StatusListsWhatStands(worlds: seq<World>, es: seq<Event>, replies: seq<Option<Reply>>, j: nat)
    requires IsRun(worlds, es) && Replied(worlds, es, replies) && j < |es|
    requires worlds[0].slots == map[] && es[j] == Asked(Status(None))
    ensures |replies| == |es|
    ensures replies[j].Some? && replies[j].value.Summaries? && replies[j].value.summaries.Ok?
    ensures forall s :: s in replies[j].value.summaries.value <==> exists id :: StartedLast(es, replies, j, id, s)
  {
    hide IsRun, StartedLast, ViewOf;
    var view := ViewOf(worlds[j].slots);
    assert Responds(worlds[j], es[j], replies[j]);
    forall s
      ensures s in replies[j].value.summaries.value <==> exists id :: StartedLast(es, replies, j, id, s)
    {
      if s in replies[j].value.summaries.value {
        var id :| id in view && view[id].summary == s;
        ListedAsStarted(worlds, es, replies, j, id);
        assert StartedLast(es, replies, j, id, s);
      }
      if id :| StartedLast(es, replies, j, id, s) {
        ListedAsStarted(worlds, es, replies, j, id);
        assert id in view && view[id].summary == s;
      }
    }
  }

  /** What is asked of one instance is answered for it exactly if its start stands, and InstanceNotFound otherwise. */
  lemma OneInstanceOrNotFound(
      worlds: seq<World>, es: seq<Event>, replies: seq<Option<Reply>>, j: nat, id: string)
    requires IsRun(worlds, es) && Replied(worlds, es, replies) && j < |es| && worlds[0].slots == map[]
    ensures |replies| == |es|
    ensures es[j] == Asked(Status(Some(id))) ==>
      && (forall s :: replies[j] == Some(Summaries(Ok({s}))) <==> StartedLast(es, replies, j, id, s))
      && (replies[j] == Some(Summaries(Err(InstanceNotFound))) <==> !exists s :: StartedLast(es, replies, j, id, s))
    ensures es[j].Asked? && es[j].c.Logs? && es[j].c.logsOf == id ==>
      && replies[j].Some? && replies[j].value.LogEntries?
      && (replies[j].value.entries.Ok? <==> exists s :: StartedLast(es, replies, j, id, s))
      && (replies[j].value.entries.Err? ==> replies[j].value.entries.error == InstanceNotFound)
    ensures es[j] == Asked(BridgeStats(id)) ==>
      && replies[j].Some? && replies[j].value.Stats?
      && (replies[j].value.stats.Ok? <==> exists s :: StartedLast(es, replies, j, id, s))
      && (replies[j].value.stats.Err? ==> replies[j].value.stats.error == InstanceNotFound)
  {
    hide IsRun, StartedLast, ViewOf, Collected, SummariesOf, StartReply;
    var view := ViewOf(worlds[j].slots);
    assert Responds(worlds[j], es[j], replies[j]);
    ListedAsStarted(worlds, es, replies, j, id);
    assert id in view ==> StartedLast(es, replies, j, id, view[id].summary);
    if es[j] == Asked(Status(Some(id))) && id in view {
      forall s
        ensures {s} == {view[id].summary} <==> s == view[id].summary
      {
        assert s in {s};
      }
    }
  }

  /** A stop is acknowledged whatever the id, a shutdown is always done, and traffic gets no reply. */
  lemma PlainReplies(worlds: seq<World>, es: seq<Event>, replies: seq<Option<Reply>>, j: nat)
    requires Replied(worlds, es, replies) && j < |es|
    ensures |replies| == |es|
    ensures es[j].Asked? && es[j].c.Stop? ==> replies[j] == Some(Ack)
    ensures es[j] == Asked(Shutdown) ==> replies[j] == Some(Done)
    ensures es[j].Asked? && es[j].c.Start? ==> replies[j].Some? && replies[j].value.Started?
    ensures replies[j] == None <==> !es[j].Asked?
  {
    hide ViewOf, StartReply, Collected, SummariesOf;
    assert Responds(worlds[j], es[j], replies[j]);
  }

  /** Which step of a start gives which answer. */
  lemma StartAnswers(req: StartRequest, env: StartEnv)
    ensures var r := StartReply(req, env);
      var bundle := req.wallet == BitBox02 && env.bundleManager && env.bundlePath && env.binaryExists;
      var placed := bundle && env.port.Some? && env.profileDir;
      var spawned := placed && env.emulator.binaryExists && env.emulator.dirCreated && env.emulator.spawned;
      && (r == Err(WalletUnsupported) <==> req.wallet != BitBox02)
      && (r == Err(BundleMissing) <==> req.wallet == BitBox02 && env.bundleManager && !bundle)
      && (r == Err(ResourceExhausted) <==> bundle && env.port == None)
      && (r == Err(SpawnFailed) <==> placed && !spawned)
      && (r == Err(BridgeFailed) <==> spawned && env.seeded && !(env.uhidCreated && env.connected))
      && (r == Err(Internal) <==>
            || (req.wallet == BitBox02 && !env.bundleManager)
            || (bundle && env.port.Some? && !env.profileDir)
            || (spawned && !env.seeded))
      && (r.Ok? <==> spawned && env.seeded && env.uhidCreated && env.connected)
      && (r.Ok? ==>
            && r.value.id == "bitbox02-" + env.suffix && r.value.serial == "hwwctl-bb02-" + env.suffix
            && r.value.wallet == BitBox02 && r.value.state == InstanceRunning && Some(r.value.port) == env.port
            && (req.waitReady ==> r.value.hidraw == env.hidraw) && (!req.waitReady ==> r.value.hidraw == None))
  {
  }
}
