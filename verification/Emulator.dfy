/** The lifecycle of an emulator process. */
module Emulator {
  import opened Bytes
  import opened Resources
  import LogDrain

  datatype EmulatorStatus = Stopped | Starting | Running | Error

  /** What the system answers while an emulator starts. */
  datatype EmulatorEnv = EmulatorEnv(binaryExists: bool, dirCreated: bool, spawned: bool, ready: bool)

  datatype StartFailure = BinaryNotFound | NoProfileDir | NotSpawned

  const OUTPUT_RING_SIZE: nat := 500

  class GenericEmulator {
    const host: Host
    const skipProbe: bool
    var status: EmulatorStatus
    var child: Option<nat>
    var outputLines: seq<string>

    function Held(): set<nat>
      reads this`child
    {
      if child.Some? then {child.value} else {}
    }

    /** A stopped emulator has no process; one that runs or failed its probe has one. */
    ghost predicate Valid()
      reads this
    {
      && (status.Stopped? ==> child.None?)
      && (status.Running? || status.Error? ==> child.Some?)
      && |outputLines| <= OUTPUT_RING_SIZE
    }

    constructor (host: Host, skipProbe: bool)
      ensures Valid() && this.host == host && this.skipProbe == skipProbe
      ensures status == Stopped && outputLines == []
    {
      this.host, this.skipProbe := host, skipProbe;
      status, child, outputLines := Stopped, None, [];
    }

    /**
     * Success does not mean there is a process: after a failed spawn the status stays Starting, and
     * the next start reports success without trying again.
     */
    method Start(env: EmulatorEnv) returns (r: Result<(), StartFailure>)
      requires Valid() && host.Valid() && Held() <= host.children
      modifies this`status, this`child, host
      ensures Valid() && host.Valid() && host.devices == old(host.devices)
      ensures old(status.Running? || status.Starting?) ==>
                r.Ok? && status == old(status) && child == old(child) && host.children == old(host.children)
      ensures !old(status.Running? || status.Starting?) ==>
                (r.Ok? <==> env.binaryExists && env.dirCreated && env.spawned)
      ensures !old(status.Running? || status.Starting?) && r.Err? ==>
                && r.error == (if !env.binaryExists then BinaryNotFound
                               else if !env.dirCreated then NoProfileDir else NotSpawned)
                && child == old(child) && host.children == old(host.children)
                && status == if env.binaryExists && env.dirCreated then Starting else old(status)
      ensures r.Ok? && child.None? ==> old(status.Starting? && child.None?)
      ensures !old(status.Running? || status.Starting?) && r.Ok? ==>
                && child.Some? && child.value !in old(host.children)
                && host.children == old(host.children) - old(Held()) + Held()
                && status == if skipProbe || env.ready then Running else Error
    {
      if status.Running? || status.Starting? {
        return Ok(());
      }
      if !env.binaryExists {
        return Err(BinaryNotFound);
      }
      if !env.dirCreated {
        return Err(NoProfileDir);
      }
      status := Starting;
      if !env.spawned {
        return Err(NotSpawned);
      }
      var pid := host.Spawn();
      // Assigning over a child that is still held drops it, and dropping kills it.
      host.Reap(Held());
      child := Some(pid);
      if skipProbe {
        status := Running;
        return Ok(());
      }
      status := if env.ready then Running else Error;
      return Ok(());
    }

    /** Stopping twice is stopping once. */
    method Stop()
      requires Valid() && host.Valid()
      modifies this`status, this`child, host
      ensures Valid() && host.Valid() && status == Stopped && child == None
      ensures host.children == old(host.children) - old(Held()) && host.devices == old(host.devices)
    {
      if child.Some? {
        host.Reap({child.value});
        child := None;
      }
      status := Stopped;
    }

    /** The value goes out of scope: its child is killed. */
    method Drop()
      requires host.Valid()
      modifies this`child, host
      ensures host.Valid() && child == None
      ensures host.children == old(host.children) - old(Held()) && host.devices == old(host.devices)
    {
      host.Reap(Held());
      child := None;
    }

    method PushLine(line: string)
      requires Valid()
      modifies this`outputLines
      ensures Valid() && outputLines == LogDrain.Last(old(outputLines) + [line], OUTPUT_RING_SIZE)
    {
      outputLines := LogDrain.PushBounded(outputLines, line, OUTPUT_RING_SIZE);
    }
  }

  /** A start that succeeds without a process: the spawn before it failed, and the status hid that. */
  method StartAfterFailedSpawn(host: Host)
    returns (e: GenericEmulator, first: Result<(), StartFailure>, second: Result<(), StartFailure>)
    requires host.Valid()
    modifies host
    ensures first == Err(NotSpawned) && second.Ok? && e.status == Starting && e.child == None
    ensures host.children == old(host.children)
  {
    e := new GenericEmulator(host, true);
    first := e.Start(EmulatorEnv(true, true, false, true));
    second := e.Start(EmulatorEnv(true, true, true, true));
  }
}
