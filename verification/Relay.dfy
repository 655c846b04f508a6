/**
 * The TCP relay between the virtual HID device and the emulator: a UHID thread and two tasks
 * joined by channels, as a step relation in which any of them may move next.
 */
module Relay {
  import opened Bytes
  import opened LogDrain

  type Chunk = seq<byte>

  // ---- State ----

  /** Where the UHID thread is in its loop. */
  datatype Phase = Checking | Draining | Polling | Sleeping | Exited

  /** Task A: the part of a block read so far, kept when Task A is gone. */
  datatype TaskA = Reading(partial: Chunk) | DoneA(partial: Chunk)

  /** Task B: waiting for a report, writing one, or gone with part of one unwritten. */
  datatype TaskB = Waiting | Writing(left: Chunk) | DoneB(left: Chunk)

  /**
   * The channels and their tasks, the bridge's running flag, and the histories at the edges: what was
   * polled from UHID and written to it, what was read from the emulator and written to it, and the
   * intercept log. After `stop`, graceA and graceB bound the steps an aborted task may still take.
   */
  datatype State = State(
    reportSize: nat,
    thread: Phase, a: TaskA, b: TaskB,
    running: bool, stopped: bool, graceA: nat, graceB: nat,
    writeQueue: seq<Chunk>, readQueue: seq<Chunk>,
    log: seq<Report>,
    polled: seq<Chunk>, uhidOut: seq<Chunk>,
    tcpIn: Chunk, tcpOut: Chunk,
    lostToHost: seq<Chunk>, lostToDevice: seq<Chunk>)

  function Init(reportSize: nat): State {
    State(reportSize, Checking, Reading([]), Waiting, true, false, 0, 0, [], [], [], [], [], [], [], [], [])
  }

  /** A report without the report-ID byte 0x00 that may stand in front of it. */
  function Strip(report: Chunk): Chunk {
    if report != [] && report[0] == 0x00 then report[1..] else report
  }

  // ---- Steps ----

  datatype PollResult = NoReport | Output(data: Chunk) | PollError

  datatype Step =
    | Check
    | UhidWrite(ok: bool)
    | Drained
    | Poll(result: PollResult)
    | Wake
    | Read(bytes: Chunk)
    | BlockDone
    | ReadFailed
    | ShutdownSeen
    | Receive
    | Write(n: nat)
    | WriteDone
    | WriteFailed
    | ChannelClosed
    | Stop(graceA: nat, graceB: nat)
    | StopReturns
    | CancelA
    | CancelB

  /** The thread ends: its receiver of the write channel is dropped with what is in it. */
  function Exit(s: State, dropped: seq<Chunk>): State {
    s.(thread := Exited, writeQueue := [], lostToHost := s.lostToHost + dropped)
  }

  function ThreadStep(s: State, step: Step): Option<State> {
    match step
    case Check =>
      if !s.thread.Checking? then None
      else if s.stopped then Some(Exit(s, s.writeQueue))
      else Some(s.(thread := Draining))
    case UhidWrite(ok) =>
      if !s.thread.Draining? || s.writeQueue == [] then None
      else if ok then Some(s.(writeQueue := s.writeQueue[1..], uhidOut := s.uhidOut + [s.writeQueue[0]]))
      else Some(Exit(s, s.writeQueue))
    case Drained =>
      if !s.thread.Draining? || s.writeQueue != [] then None else Some(s.(thread := Polling))
    case Poll(result) =>
      if !s.thread.Polling? then None
      else (match result
            case NoReport => Some(s.(thread := Sleeping))
            case PollError => Some(Exit(s, s.writeQueue))
            case Output(data) =>
              var t := s.(polled := s.polled + [data]);
              if s.b.DoneB? then Some(Exit(t.(lostToDevice := t.lostToDevice + [data]), t.writeQueue))
              else Some(t.(thread := Sleeping, readQueue := t.readQueue + [data])))
    case Wake =>
      if s.thread.Sleeping? then Some(s.(thread := Checking)) else None
    case _ => None
  }

  /** An aborted task moves only within its grace. */
  function SpendA(s: State): Option<State> {
    if !s.stopped then Some(s)
    else if s.graceA == 0 then None
    else Some(s.(graceA := s.graceA - 1))
  }

  function SpendB(s: State): Option<State> {
    if !s.stopped then Some(s)
    else if s.graceB == 0 then None
    else Some(s.(graceB := s.graceB - 1))
  }

  function MoveA(s: State, step: Step): Option<State>
    requires s.a.Reading?
  {
    match step
    case Read(bytes) =>
      if bytes == [] || |s.a.partial| + |bytes| > s.reportSize then None
      else Some(s.(a := Reading(s.a.partial + bytes), tcpIn := s.tcpIn + bytes))
    case BlockDone =>
      if |s.a.partial| != s.reportSize then None
      else
        var t := s.(a := Reading([]), log := s.log + [Report(DeviceToHost, s.a.partial)]);
        if s.thread.Exited? then Some(t.(lostToHost := t.lostToHost + [s.a.partial]))
        else Some(t.(writeQueue := t.writeQueue + [s.a.partial]))
    case ReadFailed => Some(s.(a := DoneA(s.a.partial), running := false))
    case ShutdownSeen => if s.stopped then Some(s.(a := DoneA(s.a.partial))) else None
    case _ => None
  }

  /** What Task B has taken from its channel and not yet written. */
  function Pending(s: State): Chunk {
    match s.b case Waiting => [] case Writing(left) => left case DoneB(left) => left
  }

  /** Task B ends: its receiver of the read channel is dropped with what is in it. */
  function EndB(s: State): State {
    s.(b := DoneB(Pending(s)), readQueue := [], lostToDevice := s.lostToDevice + s.readQueue)
  }

  function MoveB(s: State, step: Step): Option<State>
    requires !s.b.DoneB?
  {
    match step
    case Receive =>
      if !s.b.Waiting? || s.readQueue == [] then None
      else Some(s.(b := Writing(Strip(s.readQueue[0])), readQueue := s.readQueue[1..],
                   log := s.log + [Report(HostToDevice, s.readQueue[0])]))
    case Write(n) =>
      if !s.b.Writing? || n == 0 || n > |s.b.left| then None
      else Some(s.(b := Writing(s.b.left[n..]), tcpOut := s.tcpOut + s.b.left[..n]))
    case WriteDone =>
      if s.b.Writing? && s.b.left == [] then Some(s.(b := Waiting)) else None
    case WriteFailed =>
      if s.b.Writing? && s.b.left != [] then Some(EndB(s)) else None
    case ChannelClosed =>
      if s.b.Waiting? && s.readQueue == [] && s.thread.Exited? then Some(EndB(s)) else None
    case _ => None
  }

  predicate IsThreadStep(step: Step) {
    step.Check? || step.UhidWrite? || step.Drained? || step.Poll? || step.Wake?
  }

  predicate IsStepOfA(step: Step) {
    step.Read? || step.BlockDone? || step.ReadFailed? || step.ShutdownSeen?
  }

  /** The state after a step, or None where the step cannot be taken. */
  function Next(s: State, step: Step): Option<State> {
    if step.Stop? then
      if s.stopped then None else Some(s.(stopped := true, graceA := step.graceA, graceB := step.graceB))
    else if step.StopReturns? then
      if s.stopped && s.running then Some(s.(running := false)) else None
    else if step.CancelA? then
      if s.stopped && s.a.Reading? then Some(s.(a := DoneA(s.a.partial))) else None
    else if step.CancelB? then
      if !s.stopped || s.b.DoneB? then None
      else Some(EndB(s))
    else if IsThreadStep(step) then ThreadStep(s, step)
    else if IsStepOfA(step) then
      if !s.a.Reading? || SpendA(s) == None then None else MoveA(SpendA(s).value, step)
    else if s.b.DoneB? || SpendB(s) == None then None
    else MoveB(SpendB(s).value, step)
  }

  /** The state after a whole run, or None where one of its steps cannot be taken. */
  function Run(s: State, steps: seq<Step>): Option<State> {
    if steps == [] then Some(s)
    else match Run(s, steps[..|steps| - 1])
         case None => None
         case Some(t) => Next(t, steps[|steps| - 1])
  }

  // ---- Conservation ----

  function Flatten(parts: seq<Chunk>): Chunk {
    if parts == [] then [] else Flatten(parts[..|parts| - 1]) + parts[|parts| - 1]
  }

  function StripAll(reports: seq<Chunk>): (r: seq<Chunk>)
    ensures |r| == |reports| && forall i :: 0 <= i < |r| ==> r[i] == Strip(reports[i])
  {
    seq(|reports|, i requires 0 <= i < |reports| => Strip(reports[i]))
  }

  /** The reports logged in one direction, in the order of the log. */
  function Logged(s: State, d: Direction): seq<Chunk> {
    Sent(s.log, d)
  }

  predicate Blocks(parts: seq<Chunk>, size: nat) {
    forall i :: 0 <= i < |parts| ==> |parts[i]| == size
  }

  /**
   * Host to device, nothing is lost, duplicated or reordered wherever the run stands: what was
   * polled is what was logged, what waits in the read channel and, once Task B is gone, what was
   * dropped; the bytes written to the emulator and those pending are the logged reports, stripped.
   */
  ghost predicate OutwardConserved(s: State) {
    && s.polled == Logged(s, HostToDevice) + s.readQueue + s.lostToDevice
    && (s.lostToDevice != [] ==> s.b.DoneB?)
    && (s.b.DoneB? ==> s.readQueue == [])
    && s.tcpOut + Pending(s) == Flatten(StripAll(Logged(s, HostToDevice)))
  }

  /**
   * Device to host, the bytes read from the emulator are the logged blocks and the block under way,
   * and the logged blocks are what UHID was given, what waits in the write channel and, once the
   * thread is gone, what was dropped.
   */
  ghost predicate InwardConserved(s: State) {
    && s.tcpIn == Flatten(Logged(s, DeviceToHost)) + s.a.partial
    && Blocks(Logged(s, DeviceToHost), s.reportSize)
    && |s.a.partial| <= s.reportSize
    && Logged(s, DeviceToHost) == s.uhidOut + s.writeQueue + s.lostToHost
    && (s.lostToHost != [] ==> s.thread.Exited?)
    && (s.thread.Exited? ==> s.writeQueue == [])
  }

  lemma SentNext(log: seq<Report>, r: Report, d: Direction)
    ensures Sent(log + [r], d) == if r.direction == d then Sent(log, d) + [r.data] else Sent(log, d)
  {
    assert (log + [r])[..|log|] == log;
  }

  lemma FlattenNext(parts: seq<Chunk>, p: Chunk)
    ensures Flatten(parts + [p]) == Flatten(parts) + p
  {
    assert (parts + [p])[..|parts|] == parts;
  }

  lemma StripAllNext(reports: seq<Chunk>, r: Chunk)
    ensures StripAll(reports + [r]) == StripAll(reports) + [Strip(r)]
  {
  }

  // One lemma for each mover and direction: what the mover's own steps keep.

  lemma OutwardThread(s: State, step: Step, t: State)
    requires OutwardConserved(s) && ThreadStep(s, step) == Some(t)
    ensures OutwardConserved(t)
  {
    hide StripAll, Flatten, Sent;
    if step.Poll? && step.result.Output? {
      assert t.polled == s.polled + [step.result.data];
    } else {
      assert t.polled == s.polled;
    }
  }

  lemma OutwardA(s: State, step: Step, t: State)
    requires OutwardConserved(s) && s.a.Reading? && MoveA(s, step) == Some(t)
    ensures OutwardConserved(t)
  {
    hide StripAll, Flatten, Sent;
    if step.BlockDone? {
      SentNext(s.log, Report(DeviceToHost, s.a.partial), HostToDevice);
    }
    assert Logged(t, HostToDevice) == Logged(s, HostToDevice);
  }

  lemma OutwardB(s: State, step: Step, t: State)
    requires OutwardConserved(s) && !s.b.DoneB? && MoveB(s, step) == Some(t)
    ensures OutwardConserved(t)
  {
    hide Strip, StripAll, Flatten, Sent;
    if step.Receive? {
      var r := s.readQueue[0];
      SentNext(s.log, Report(HostToDevice, r), HostToDevice);
      StripAllNext(Logged(s, HostToDevice), r);
      FlattenNext(StripAll(Logged(s, HostToDevice)), Strip(r));
      assert s.readQueue == [r] + t.readQueue;
    }
  }

  lemma InwardExit(s: State)
    requires InwardConserved(s)
    ensures InwardConserved(Exit(s, s.writeQueue))
  {
    hide Flatten, Sent, Blocks;
    var t := Exit(s, s.writeQueue);
    assert t.log == s.log;
    assert s.uhidOut + s.writeQueue + s.lostToHost == t.uhidOut + t.writeQueue + t.lostToHost;
  }

  lemma InwardThread(s: State, step: Step, t: State)
    requires InwardConserved(s) && ThreadStep(s, step) == Some(t)
    ensures InwardConserved(t)
  {
    hide Flatten, Sent, Blocks, Exit;
    match step
    case UhidWrite(ok) =>
      InwardExit(s);
      assert s.writeQueue == [s.writeQueue[0]] + s.writeQueue[1..];
    case Poll(Output(data)) =>
      InwardExit(s.(polled := s.polled + [data], lostToDevice := s.lostToDevice + [data]));
    case _ =>
      InwardExit(s);
  }

  lemma InwardA(s: State, step: Step, t: State)
    requires InwardConserved(s) && s.a.Reading? && MoveA(s, step) == Some(t)
    ensures InwardConserved(t)
  {
    hide Flatten, Sent;
    if step.BlockDone? {
      SentNext(s.log, Report(DeviceToHost, s.a.partial), DeviceToHost);
      FlattenNext(Logged(s, DeviceToHost), s.a.partial);
    }
  }

  lemma InwardB(s: State, step: Step, t: State)
    requires InwardConserved(s) && !s.b.DoneB? && MoveB(s, step) == Some(t)
    ensures InwardConserved(t)
  {
    hide Strip, Flatten, Sent, Blocks;
    if step.Receive? {
      SentNext(s.log, Report(HostToDevice, s.readQueue[0]), DeviceToHost);
    }
    assert Logged(t, DeviceToHost) == Logged(s, DeviceToHost);
  }

  ghost predicate Conserved(s: State) {
    OutwardConserved(s) && InwardConserved(s)
  }

  /** Stopping, aborting and spending grace move no data. */
  lemma ControlConserves(s: State, t: State)
    requires Conserved(s)
    requires t == s.(running := t.running, stopped := t.stopped, graceA := t.graceA, graceB := t.graceB)
             || (s.a.Reading? && t == s.(a := DoneA(s.a.partial)))
             || (!s.b.DoneB? && t == EndB(s))
    ensures Conserved(t)
  {
    hide StripAll, Flatten, Sent, Blocks;
    assert Logged(t, DeviceToHost) == Logged(s, DeviceToHost) && Logged(t, HostToDevice) == Logged(s, HostToDevice);
    assert s.a.partial == t.a.partial && Pending(s) == Pending(t);
  }

  lemma StepConserves(s: State, step: Step, t: State)
    requires Conserved(s) && Next(s, step) == Some(t)
    ensures Conserved(t) && t.reportSize == s.reportSize
  {
    hide OutwardConserved, InwardConserved;
    if step.Stop? || step.StopReturns? || step.CancelA? || step.CancelB? {
      hide EndB;
      ControlConserves(s, t);
    } else if IsThreadStep(step) {
      hide Exit;
      OutwardThread(s, step, t);
      InwardThread(s, step, t);
    } else if IsStepOfA(step) {
      var u := SpendA(s).value;
      ControlConserves(s, u);
      OutwardA(u, step, t);
      InwardA(u, step, t);
    } else {
      var u := SpendB(s).value;
      ControlConserves(s, u);
      OutwardB(u, step, t);
      InwardB(u, step, t);
    }
  }

  /** Conservation holds in every state of every run, whatever the interleaving. */
  lemma {:induction false} RunConserves(reportSize: nat, steps: seq<Step>)
    ensures var end := Run(Init(reportSize), steps);
      end.Some? ==> Conserved(end.value) && end.value.reportSize == reportSize
  {
    hide Conserved, Next;
    if steps == [] {
      InitConserved(reportSize);
    } else if Run(Init(reportSize), steps).Some? {
      var front := steps[..|steps| - 1];
      RunConserves(reportSize, front);
      StepConserves(Run(Init(reportSize), front).value, steps[|steps| - 1], Run(Init(reportSize), steps).value);
    }
  }

  lemma InitConserved(reportSize: nat)
    ensures Conserved(Init(reportSize))
  {
  }

  // ---- What arrives ----

  lemma {:induction false} FlattenConcat(xs: seq<Chunk>, ys: seq<Chunk>)
    ensures Flatten(xs + ys) == Flatten(xs) + Flatten(ys)
  {
    hide Flatten;
    if ys == [] {
      assert xs + ys == xs;
      FlattenEmpty();
    } else {
      var front, last := ys[..|ys| - 1], ys[|ys| - 1];
      FlattenConcat(xs, front);
      FlattenNext(xs + front, last);
      FlattenNext(front, last);
      assert xs + ys == xs + front + [last] && ys == front + [last];
    }
  }

  lemma FlattenEmpty()
    ensures Flatten([]) == []
  {
  }

  lemma FlattenPrefix(xs: seq<Chunk>, ys: seq<Chunk>)
    requires xs <= ys
    ensures Flatten(StripAll(xs)) <= Flatten(StripAll(ys))
  {
    hide Flatten;
    FlattenConcat(StripAll(xs), StripAll(ys[|xs|..]));
    assert StripAll(ys) == StripAll(xs) + StripAll(ys[|xs|..]);
  }

  /**
   * Under every interleaving the log is a prefix of what UHID delivered, and the bytes written to
   * the emulator are a prefix of the logged reports, stripped: all of them whenever Task B waits.
   */
  lemma HostReportsArriveInOrder(reportSize: nat, steps: seq<Step>, t: State)
    requires Run(Init(reportSize), steps) == Some(t)
    ensures Logged(t, HostToDevice) <= t.polled
    ensures t.tcpOut <= Flatten(StripAll(Logged(t, HostToDevice))) <= Flatten(StripAll(t.polled))
    ensures t.b.Waiting? ==> t.tcpOut == Flatten(StripAll(Logged(t, HostToDevice)))
    ensures t.b.Waiting? && t.readQueue == [] ==> t.tcpOut == Flatten(StripAll(t.polled))
  {
    hide Run, Next, Flatten, StripAll, Sent, InwardConserved;
    RunConserves(reportSize, steps);
    FlattenPrefix(Logged(t, HostToDevice), t.polled);
    assert t.b.Waiting? && t.readQueue == [] ==> t.polled == Logged(t, HostToDevice);
  }

  /** Stripping undoes the report-ID prefix, whatever the report starts with itself. */
  function Prefixed(reports: seq<Chunk>): (r: seq<Chunk>)
    ensures |r| == |reports| && StripAll(r) == reports
  {
    seq(|reports|, i requires 0 <= i < |reports| => [0x00] + reports[i])
  }

  /** Reports that UHID delivers behind a report-ID byte reach the emulator as they are. */
  lemma PrefixedReportsArrive(reportSize: nat, steps: seq<Step>, t: State, reports: seq<Chunk>)
    requires Run(Init(reportSize), steps) == Some(t) && t.polled == Prefixed(reports)
    ensures t.tcpOut <= Flatten(reports)
    ensures t.b.Waiting? && t.readQueue == [] ==> t.tcpOut == Flatten(reports)
  {
    hide Run, Next, Flatten;
    HostReportsArriveInOrder(reportSize, steps, t);
  }

  /** Without the prefix a report arrives unchanged exactly when it does not start with a zero byte. */
  lemma BareReportArrives(report: Chunk)
    ensures Strip(report) == report <==> (report == [] || report[0] != 0x00)
  {
    assert Strip(report) == report ==> |Strip(report)| == |report|;
  }

  predicate IsBlock(stream: Chunk, size: nat, i: nat, block: Chunk) {
    (i + 1) * size <= |stream| && i * size <= (i + 1) * size && stream[i * size..(i + 1) * size] == block
  }

  lemma BlockOfLonger(stream: Chunk, more: Chunk, size: nat, i: nat, block: Chunk)
    requires IsBlock(stream, size, i, block)
    ensures IsBlock(stream + more, size, i, block)
  {
    var from, to := i * size, (i + 1) * size;
    assert from >= 0;
    assert (stream + more)[from..to] == stream[from..to];
  }

  lemma BlockAtEnd(stream: Chunk, size: nat, n: nat, block: Chunk)
    requires |stream| == n * size && |block| == size
    ensures IsBlock(stream + block, size, n, block) && |stream + block| == (n + 1) * size
  {
    assert (n + 1) * size == n * size + size;
    assert (stream + block)[|stream|..] == block;
  }

  lemma {:induction false} FlattenBlocks(parts: seq<Chunk>, size: nat, i: nat)
    requires Blocks(parts, size) && i < |parts|
    ensures |Flatten(parts)| == |parts| * size && IsBlock(Flatten(parts), size, i, parts[i])
  {
    hide Flatten, IsBlock;
    var front, last := parts[..|parts| - 1], parts[|parts| - 1];
    FlattenNext(front, last);
    assert parts == front + [last];
    if front == [] {
      FlattenEmpty();
    } else {
      FlattenBlocks(front, size, if i < |front| then i else 0);
    }
    BlockAtEnd(Flatten(front), size, |front|, last);
    if i < |front| {
      BlockOfLonger(Flatten(front), last, size, i, parts[i]);
    }
  }

  /**
   * Under every interleaving the reports given to UHID are a prefix of the logged blocks, and
   * report i is exactly the i-th block of reportSize bytes of what the emulator sent.
   */
  lemma EmulatorBlocksArriveInOrder(reportSize: nat, steps: seq<Step>, t: State)
    requires Run(Init(reportSize), steps) == Some(t)
    ensures t.uhidOut <= Logged(t, DeviceToHost)
    ensures |t.tcpIn| == |Logged(t, DeviceToHost)| * reportSize + |t.a.partial|
    ensures forall i :: 0 <= i < |Logged(t, DeviceToHost)| ==>
      IsBlock(t.tcpIn, reportSize, i, Logged(t, DeviceToHost)[i])
  {
    hide Run, Next, Flatten, Sent, Blocks, OutwardConserved;
    RunConserves(reportSize, steps);
    var blocks := Logged(t, DeviceToHost);
    FlattenEmpty();
    if blocks != [] {
      FlattenBlocks(blocks, reportSize, 0);
    }
    forall i | 0 <= i < |blocks|
      ensures IsBlock(t.tcpIn, reportSize, i, blocks[i])
    {
      FlattenBlocks(blocks, reportSize, i);
      assert t.tcpIn[i * reportSize..(i + 1) * reportSize] == Flatten(blocks)[i * reportSize..(i + 1) * reportSize];
    }
  }

  lemma {:induction false} FlattenLength(parts: seq<Chunk>)
    ensures |Flatten(parts)| == TotalLength(parts)
  {
    if parts != [] {
      FlattenLength(parts[..|parts| - 1]);
    }
  }

  /**
   * The counters of the drain, once it has taken the whole log, account for the traffic at the edges:
   * every complete block read from the emulator, and every report polled and not waiting or dropped.
   */
  lemma CountersAccountForTraffic(reportSize: nat, steps: seq<Step>, t: State)
    requires Run(Init(reportSize), steps) == Some(t)
    ensures |t.a.partial| <= |t.tcpIn| && |t.readQueue| + |t.lostToDevice| <= |t.polled|
    ensures var c := CountersOf(InterceptAll(t.log));
      && c.d2hBytes == Wrap64(|t.tcpIn| - |t.a.partial|)
      && c.d2hReports == Wrap64(|t.uhidOut| + |t.writeQueue| + |t.lostToHost|)
      && c.h2dReports == Wrap64(|t.polled| - |t.readQueue| - |t.lostToDevice|)
      && c.h2dBytes == Wrap64(TotalLength(t.polled[..|t.polled| - |t.readQueue| - |t.lostToDevice|]))
  {
    hide Run, Next, Flatten, TotalLength, Sent, Blocks, StripAll, Wrap64, CountersOf, InterceptAll;
    RunConserves(reportSize, steps);
    CountersOfReports(t.log);
    FlattenLength(Logged(t, DeviceToHost));
    assert t.polled[..|Logged(t, HostToDevice)|] == Logged(t, HostToDevice);
  }

  // ---- Delivery ----

  ghost predicate Reaches(s: State, t: State) {
    exists steps :: Run(s, steps) == Some(t)
  }

  lemma ReachesSelf(s: State)
    ensures Reaches(s, s)
  {
    EmptyRun(s);
  }

  lemma ReachesNext(s: State, t: State, step: Step, u: State)
    requires Reaches(s, t) && Next(t, step) == Some(u)
    ensures Reaches(s, u)
  {
    hide Run, Next;
    var steps :| Run(s, steps) == Some(t);
    RunNext(s, steps, t, step);
  }

  lemma {:induction false} RunConcat(s: State, xs: seq<Step>, t: State, ys: seq<Step>)
    requires Run(s, xs) == Some(t)
    ensures Run(s, xs + ys) == Run(t, ys)
  {
    hide Next;
    if ys == [] {
      assert xs + ys == xs;
    } else {
      RunConcat(s, xs, t, ys[..|ys| - 1]);
      assert (xs + ys)[..|xs + ys| - 1] == xs + ys[..|ys| - 1];
    }
  }

  lemma ReachesFurther(s: State, t: State, u: State)
    requires Reaches(s, t) && Reaches(t, u)
    ensures Reaches(s, u)
  {
    hide Run;
    var xs :| Run(s, xs) == Some(t);
    var ys :| Run(t, ys) == Some(u);
    RunConcat(s, xs, t, ys);
  }

  lemma {:induction false} RunKeepsConserved(s: State, steps: seq<Step>)
    requires Conserved(s)
    ensures Run(s, steps).Some? ==> Conserved(Run(s, steps).value)
  {
    hide Conserved, Next;
    if steps != [] && Run(s, steps).Some? {
      var front := steps[..|steps| - 1];
      RunKeepsConserved(s, front);
      StepConserves(Run(s, front).value, steps[|steps| - 1], Run(s, steps).value);
    }
  }

  lemma ToDraining(s: State) returns (t: State)
    requires !s.stopped && !s.thread.Exited?
    ensures t == s.(thread := Draining) && Reaches(s, t)
  {
    hide Reaches, Run;
    ReachesSelf(s);
    t := s;
    if t.thread.Polling? {
      ReachesNext(s, t, Poll(NoReport), t.(thread := Sleeping));
      t := t.(thread := Sleeping);
    }
    if t.thread.Sleeping? {
      ReachesNext(s, t, Wake, t.(thread := Checking));
      t := t.(thread := Checking);
    }
    if t.thread.Checking? {
      ReachesNext(s, t, Check, t.(thread := Draining));
      t := t.(thread := Draining);
    }
  }

  function Drain(s: State): State {
    s.(uhidOut := s.uhidOut + s.writeQueue, writeQueue := [])
  }

  /** A draining thread gives UHID everything that waits, in order. */
  lemma {:induction false} Drains(s: State)
    requires s.thread.Draining?
    ensures Reaches(s, Drain(s))
    decreases |s.writeQueue|
  {
    hide Reaches, Run;
    ReachesSelf(s);
    if s.writeQueue == [] {
      assert Drain(s) == s;
    } else {
      var u := s.(writeQueue := s.writeQueue[1..], uhidOut := s.uhidOut + [s.writeQueue[0]]);
      ReachesNext(s, s, UhidWrite(true), u);
      Drains(u);
      assert u.uhidOut + u.writeQueue == s.uhidOut + s.writeQueue;
      ReachesFurther(s, u, Drain(u));
    }
  }

  predicate NoneEmpty(parts: seq<Chunk>) {
    forall i :: 0 <= i < |parts| ==> parts[i] != []
  }

  /** Task A takes the emulator's bytes in whatever pieces they come. */
  lemma {:induction false} Reads(s: State, parts: seq<Chunk>)
    requires !s.stopped && s.a.Reading? && NoneEmpty(parts) && |s.a.partial| + |Flatten(parts)| <= s.reportSize
    ensures Reaches(s, s.(a := Reading(s.a.partial + Flatten(parts)), tcpIn := s.tcpIn + Flatten(parts)))
    decreases |parts|
  {
    hide Reaches, Run;
    ReachesSelf(s);
    var t := s.(a := Reading(s.a.partial + Flatten(parts)), tcpIn := s.tcpIn + Flatten(parts));
    if parts == [] {
      assert t == s;
    } else {
      var front, last := parts[..|parts| - 1], parts[|parts| - 1];
      Reads(s, front);
      var u := s.(a := Reading(s.a.partial + Flatten(front)), tcpIn := s.tcpIn + Flatten(front));
      assert s.a.partial + Flatten(front) + last == s.a.partial + Flatten(parts);
      assert s.tcpIn + Flatten(front) + last == s.tcpIn + Flatten(parts);
      ReachesNext(s, u, Read(last), t);
    }
  }

  /**
   * From any state, reachable or not, in which nothing has been stopped and the thread and Task A live:
   * once the emulator has sent the rest of a block, in any pieces, the block is logged and given to UHID
   * behind everything that was waiting, without anything more coming from either side.
   */
  lemma BlockIsDelivered(s: State, parts: seq<Chunk>) returns (t: State)
    requires !s.stopped && !s.thread.Exited? && s.a.Reading? && NoneEmpty(parts)
    requires |s.a.partial| + |Flatten(parts)| == s.reportSize
    ensures Reaches(s, t) && !t.stopped && !t.thread.Exited? && t.a == Reading([])
    ensures t.uhidOut == s.uhidOut + s.writeQueue + [s.a.partial + Flatten(parts)] && t.writeQueue == []
    ensures t.log == s.log + [Report(DeviceToHost, s.a.partial + Flatten(parts))]
    ensures t.tcpIn == s.tcpIn + Flatten(parts) && t.polled == s.polled && t.tcpOut == s.tcpOut
  {
    hide Reaches, Run, Flatten;
    var block := s.a.partial + Flatten(parts);
    var r := s.(a := Reading(block), tcpIn := s.tcpIn + Flatten(parts));
    Reads(s, parts);
    var u := r.(a := Reading([]), log := r.log + [Report(DeviceToHost, block)], writeQueue := r.writeQueue + [block]);
    ReachesNext(s, r, BlockDone, u);
    var d := ToDraining(u);
    ReachesFurther(s, u, d);
    Drains(d);
    t := Drain(d);
    ReachesFurther(s, d, t);
    assert s.uhidOut + (s.writeQueue + [block]) == s.uhidOut + s.writeQueue + [block];
  }

  /** Task B writes what it holds in whatever pieces the connection takes, and waits again. */
  lemma {:induction false} Writes(s: State, parts: seq<Chunk>)
    requires !s.stopped && s.b.Writing? && NoneEmpty(parts) && Flatten(parts) == s.b.left
    ensures Reaches(s, s.(b := Waiting, tcpOut := s.tcpOut + s.b.left))
  {
    hide Reaches, Run;
    WritesPart(s, parts, []);
    var u := s.(b := Writing([]), tcpOut := s.tcpOut + s.b.left);
    ReachesNext(s, u, WriteDone, u.(b := Waiting));
  }

  lemma {:induction false} WritesPart(s: State, parts: seq<Chunk>, later: Chunk)
    requires !s.stopped && s.b.Writing? && NoneEmpty(parts) && Flatten(parts) + later == s.b.left
    ensures Reaches(s, s.(b := Writing(later), tcpOut := s.tcpOut + Flatten(parts)))
    decreases |parts|
  {
    hide Reaches, Run;
    ReachesSelf(s);
    var t := s.(b := Writing(later), tcpOut := s.tcpOut + Flatten(parts));
    if parts == [] {
      assert t.tcpOut == s.tcpOut && later == s.b.left;
    } else {
      var front, last := parts[..|parts| - 1], parts[|parts| - 1];
      assert Flatten(front) + (last + later) == s.b.left;
      WritesPart(s, front, last + later);
      var u := s.(b := Writing(last + later), tcpOut := s.tcpOut + Flatten(front));
      assert (last + later)[..|last|] == last && (last + later)[|last|..] == later;
      assert s.tcpOut + Flatten(front) + last == s.tcpOut + Flatten(parts);
      ReachesNext(s, u, Write(|last|), t);
    }
  }

  lemma FinishesWriting(s: State) returns (t: State)
    requires !s.stopped && !s.b.DoneB?
    ensures Reaches(s, t) && t == s.(b := Waiting, tcpOut := s.tcpOut + Pending(s))
  {
    hide Reaches, Run;
    ReachesSelf(s);
    t := s.(b := Waiting, tcpOut := s.tcpOut + Pending(s));
    if s.b.Waiting? {
      assert t.tcpOut == s.tcpOut;
    } else if s.b.left == [] {
      FlattenEmpty();
      Writes(s, []);
    } else {
      FlattenEmpty();
      FlattenNext([], s.b.left);
      assert [] + [s.b.left] == [s.b.left];
      Writes(s, [s.b.left]);
    }
  }

  /** Task B hands the emulator everything that waits for it. */
  lemma {:induction false} HandsOver(s: State) returns (t: State)
    requires !s.stopped && s.b.Waiting?
    ensures Reaches(s, t) && t.b.Waiting? && t.readQueue == []
    ensures t == s.(readQueue := [], log := t.log, tcpOut := t.tcpOut)
    decreases |s.readQueue|
  {
    hide Reaches, Run;
    ReachesSelf(s);
    t := s;
    if s.readQueue != [] {
      var u := s.(b := Writing(Strip(s.readQueue[0])), readQueue := s.readQueue[1..],
                  log := s.log + [Report(HostToDevice, s.readQueue[0])]);
      ReachesNext(s, s, Receive, u);
      var w := FinishesWriting(u);
      ReachesFurther(s, u, w);
      t := HandsOver(w);
      ReachesFurther(s, w, t);
    }
  }

  lemma ToPolling(s: State) returns (t: State)
    requires !s.stopped && !s.thread.Exited?
    ensures Reaches(s, t) && t == s.(thread := Polling, uhidOut := t.uhidOut, writeQueue := t.writeQueue)
  {
    hide Reaches, Run;
    ReachesSelf(s);
    t := s;
    if !s.thread.Polling? {
      var d := ToDraining(s);
      Drains(d);
      ReachesFurther(s, d, Drain(d));
      t := Drain(d).(thread := Polling);
      ReachesNext(s, Drain(d), Drained, t);
    }
  }

  /**
   * From every reachable state in which nothing has been stopped and the thread and Task B live: a report
   * that UHID has for the thread is polled, and it and everything before it gets to the emulator, without
   * anything more coming from either side.
   */
  lemma ReportIsDelivered(reportSize: nat, s: State, report: Chunk) returns (t: State)
    requires Reaches(Init(reportSize), s) && !s.stopped && !s.thread.Exited? && !s.b.DoneB?
    ensures Reaches(s, t) && !t.stopped && !t.thread.Exited? && t.b.Waiting? && t.readQueue == []
    ensures t.polled == s.polled + [report] && t.tcpIn == s.tcpIn
    ensures Sent(t.log, HostToDevice) == t.polled && t.tcpOut == Flatten(StripAll(t.polled))
  {
    hide Reaches, Run, Flatten, StripAll, Sent, InwardConserved;
    var p := ToPolling(s);
    var q := p.(polled := p.polled + [report], thread := Sleeping, readQueue := p.readQueue + [report]);
    ReachesNext(s, p, Poll(Output(report)), q);
    var w := FinishesWriting(q);
    ReachesFurther(s, q, w);
    t := HandsOver(w);
    ReachesFurther(s, w, t);
    ReachesFurther(Init(reportSize), s, t);
    ReachableConserved(reportSize, t);
    assert t.polled == Logged(t, HostToDevice) + [] + [];
  }

  lemma ReachableConserved(reportSize: nat, t: State)
    requires Reaches(Init(reportSize), t)
    ensures Conserved(t)
  {
    hide Run, Conserved;
    var steps :| Run(Init(reportSize), steps) == Some(t);
    RunConserves(reportSize, steps);
  }

  /** When the thread is gone Task B still writes all it was handed, and then ends, having dropped nothing. */
  lemma TaskBFollowsThread(s: State) returns (t: State)
    requires !s.stopped && s.thread.Exited? && !s.b.DoneB?
    ensures Reaches(s, t) && t.b == DoneB([]) && t.readQueue == [] && t.lostToDevice == s.lostToDevice
  {
    hide Reaches, Run;
    var w := FinishesWriting(s);
    var h := HandsOver(w);
    ReachesFurther(s, w, h);
    t := EndB(h);
    ReachesNext(s, h, ChannelClosed, t);
    assert t.lostToDevice == h.lostToDevice;
  }

  /** Every failure can happen where the code meets it, and ends what it says. */
  lemma FailuresEnd(s: State)
    requires !s.stopped
    ensures s.thread.Draining? && s.writeQueue != [] ==>
      var t := Next(s, UhidWrite(false)); t.Some? && t.value.thread.Exited? && t.value.uhidOut == s.uhidOut
    ensures s.thread.Polling? ==>
      var t := Next(s, Poll(PollError)); t.Some? && t.value.thread.Exited? && t.value.polled == s.polled
    ensures s.thread.Polling? && s.b.DoneB? ==>
      forall data :: Next(s, Poll(Output(data))).Some? && Next(s, Poll(Output(data))).value.thread.Exited?
    ensures s.a.Reading? ==>
      var t := Next(s, ReadFailed); t.Some? && t.value.a == DoneA(s.a.partial) && !t.value.running
    ensures s.b.Writing? && s.b.left != [] ==>
      var t := Next(s, WriteFailed); t.Some? && t.value.b == DoneB(s.b.left) && t.value.tcpOut == s.tcpOut
  {
    hide Strip;
  }

  /**
   * A running bridge can be stopped at any time. A stopped thread that comes to its check exits; a stopped
   * task with steps left may still take one, Task A by seeing the shutdown.
   */
  lemma StopIsSeen(s: State, graceA: nat, graceB: nat)
    ensures !s.stopped ==>
      Next(s, Stop(graceA, graceB)) == Some(s.(stopped := true, graceA := graceA, graceB := graceB))
    ensures s.stopped && s.graceB > 0 && s.b.Waiting? && s.readQueue != [] ==>
      Next(s, Receive).Some? && Next(s, Receive).value.b.Writing?
    ensures s.stopped && s.thread.Checking? ==> Next(s, Check).Some? && Next(s, Check).value.thread.Exited?
    ensures s.stopped && s.a.Reading? && s.graceA > 0 ==>
      Next(s, ShutdownSeen).Some? && Next(s, ShutdownSeen).value.a.DoneA?
  {
  }

  // ---- What the running flag tells ----

  lemma FlagStep(s: State, step: Step, t: State)
    requires (!s.stopped ==> (s.running <==> s.a.Reading?)) && Next(s, step) == Some(t)
    ensures !t.stopped ==> (t.running <==> t.a.Reading?)
  {
    hide Strip;
  }

  /** Until stop, the bridge counts as running exactly as long as Task A reads, whatever became of the others. */
  lemma {:induction false} RunningTellsTaskA(reportSize: nat, steps: seq<Step>)
    ensures var end := Run(Init(reportSize), steps);
      end.Some? && !end.value.stopped ==> (end.value.running <==> end.value.a.Reading?)
  {
    hide Next;
    if steps != [] && Run(Init(reportSize), steps).Some? {
      var front := steps[..|steps| - 1];
      RunningTellsTaskA(reportSize, front);
      FlagStep(Run(Init(reportSize), front).value, steps[|steps| - 1], Run(Init(reportSize), steps).value);
    }
  }

  /** Without Task B nothing more is written to the emulator. */
  lemma {:induction false} NothingWrittenWithoutTaskB(s: State, steps: seq<Step>)
    requires s.b.DoneB?
    ensures Run(s, steps).Some? ==> Run(s, steps).value.b.DoneB? && Run(s, steps).value.tcpOut == s.tcpOut
  {
    hide MoveA, ThreadStep;
    if steps != [] && Run(s, steps).Some? {
      var front := steps[..|steps| - 1];
      NothingWrittenWithoutTaskB(s, front);
      KeepsTaskB(Run(s, front).value, steps[|steps| - 1]);
    }
  }

  lemma KeepsTaskB(s: State, step: Step)
    requires s.b.DoneB? && Next(s, step).Some?
    ensures Next(s, step).value.b.DoneB? && Next(s, step).value.tcpOut == s.tcpOut
  {
  }

  lemma RunNext(s: State, steps: seq<Step>, t: State, step: Step)
    requires Run(s, steps) == Some(t)
    ensures Run(s, steps + [step]) == Next(t, step)
  {
    assert (steps + [step])[..|steps|] == steps;
  }

  lemma PollOne(s: State) returns (t: State)
    requires s.thread.Polling? && !s.b.DoneB?
    ensures Next(s, Poll(Output([1]))) == Some(t) && t.readQueue != [] && t.readQueue[0] == (s.readQueue + [[1]])[0]
    ensures t.b == s.b && t.running == s.running && t.stopped == s.stopped
  {
    t := Next(s, Poll(Output([1]))).value;
  }

  lemma FailOne(s: State) returns (t: State, u: State)
    requires s.b.Waiting? && s.readQueue != [] && s.readQueue[0] == [1] && !s.stopped
    ensures Next(s, Receive) == Some(t) && Next(t, WriteFailed) == Some(u)
    ensures u.b.DoneB? && u.running == s.running && !u.stopped
  {
    t := Next(s, Receive).value;
    u := Next(t, WriteFailed).value;
  }

  /** A failed write ends Task B and leaves the flag up: a run after which the bridge counts as running. */
  lemma RunningMayBeHalfDead(reportSize: nat)
    ensures exists steps, t :: Run(Init(reportSize), steps) == Some(t) && !t.stopped && t.running && t.b.DoneB?
  {
    hide Run;
    var s0 := Init(reportSize);
    var s1 := s0.(thread := Draining);
    var s2 := s1.(thread := Polling);
    EmptyRun(s0);
    RunNext(s0, [], s0, Check);
    RunNext(s0, [] + [Check], s1, Drained);
    hide Next;
    var s3 := PollOne(s2);
    var s4, s5 := FailOne(s3);
    RunNext(s0, [] + [Check] + [Drained], s2, Poll(Output([1])));
    RunNext(s0, [] + [Check] + [Drained] + [Poll(Output([1]))], s3, Receive);
    RunNext(s0, [] + [Check] + [Drained] + [Poll(Output([1]))] + [Receive], s4, WriteFailed);
  }

  lemma EmptyRun(s: State)
    ensures Run(s, []) == Some(s)
  {
  }

  // ---- Termination after stop ----

  function PhaseRank(p: Phase): nat {
    match p
    case Exited => 0
    case Checking => 1
    case Sleeping => 2
    case Polling => 3
    case Draining => 4
  }

  /** The steps a stopped relay has left at most. */
  function Measure(s: State): nat {
    PhaseRank(s.thread) + |s.writeQueue| + (if s.running then 1 else 0)
    + (if s.a.Reading? then 2 * s.graceA + 1 else 0)
    + (if s.b.DoneB? then 0 else s.graceB + 1)
  }

  function PollsLeft(s: State): nat {
    if s.thread.Draining? || s.thread.Polling? then 1 else 0
  }

  function Polls(steps: seq<Step>): nat {
    if steps == [] then 0 else Polls(steps[..|steps| - 1]) + (if steps[|steps| - 1].Poll? then 1 else 0)
  }

  predicate Finished(s: State) {
    s.thread.Exited? && s.a.DoneA? && s.b.DoneB? && !s.running
  }

  lemma StoppedThread(s: State, step: Step, t: State)
    requires ThreadStep(s, step) == Some(t)
    ensures t.stopped == s.stopped && (s.stopped ==> Measure(t) < Measure(s))
    ensures s.stopped ==> (if step.Poll? then 1 else 0) + PollsLeft(t) <= PollsLeft(s)
  {
  }

  lemma StoppedTasks(s: State, step: Step, t: State)
    requires s.stopped && !IsThreadStep(step) && Next(s, step) == Some(t)
    ensures t.stopped && Measure(t) < Measure(s) && PollsLeft(t) == PollsLeft(s)
  {
    hide Strip, ThreadStep;
  }

  lemma StoppedStep(s: State, step: Step, t: State)
    requires s.stopped && Next(s, step) == Some(t)
    ensures t.stopped && Measure(t) < Measure(s)
    ensures (if step.Poll? then 1 else 0) + PollsLeft(t) <= PollsLeft(s)
  {
    hide ThreadStep, MoveA, MoveB, Measure, PollsLeft;
    if IsThreadStep(step) {
      StoppedThread(s, step, t);
    } else {
      StoppedTasks(s, step, t);
    }
  }

  /**
   * Every continuation of a stopped relay is bounded by the measure of the state it was stopped in
   * and polls UHID at most once more.
   */
  lemma {:induction false} StoppedRunEnds(s: State, steps: seq<Step>)
    requires s.stopped
    ensures var end := Run(s, steps);
      end.Some? ==> end.value.stopped && |steps| + Measure(end.value) <= Measure(s)
                    && Polls(steps) + PollsLeft(end.value) <= PollsLeft(s)
  {
    hide Next, Measure, PollsLeft;
    if steps != [] && Run(s, steps).Some? {
      var front := steps[..|steps| - 1];
      StoppedRunEnds(s, front);
      StoppedStep(Run(s, front).value, steps[|steps| - 1], Run(s, steps).value);
    }
  }

  /** A step that a stopped relay can always take until everything has ended. */
  function StepToEnd(s: State): Step {
    if s.a.Reading? then CancelA
    else if !s.b.DoneB? then CancelB
    else if s.running then StopReturns
    else match s.thread
         case Draining => if s.writeQueue == [] then Drained else UhidWrite(true)
         case Polling => Poll(NoReport)
         case Sleeping => Wake
         case _ => Check
  }

  /** A stopped relay that can take no step has ended its thread and both tasks, and the other way round. */
  lemma StuckIffFinished(s: State)
    requires s.stopped
    ensures (forall step :: Next(s, step) == None) <==> Finished(s)
  {
    if !Finished(s) {
      assert Next(s, StepToEnd(s)).Some?;
    } else {
      forall step
        ensures Next(s, step) == None
      {
      }
    }
  }
}
