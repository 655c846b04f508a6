/** The lifecycle of a UHID bridge; what runs while it is started is the relay. */
module Bridge {
  import opened Bytes
  import opened Resources

  datatype BridgeFailure = AlreadyRunning | NoUhid | NotConnected

  class GenericBridge {
    const host: Host
    var running: bool
    /** The devices whose threads wait on shutdown senders of this bridge. */
    var held: set<nat>
    var tasks: nat

    constructor (host: Host)
      ensures this.host == host && !running && held == {} && tasks == 0
    {
      this.host := host;
      running, held, tasks := false, {}, 0;
    }

    /** A failed connect leaves the bridge running and holding its device: only stop or drop releases it. */
    method Start(uhidCreated: bool, connected: bool) returns (r: Result<(), BridgeFailure>)
      requires host.Valid() && held <= host.devices
      modifies this, host
      ensures host.Valid() && held <= host.devices && host.children == old(host.children)
      ensures r.Ok? <==> !old(running) && uhidCreated && connected
      ensures running <==> old(running) || uhidCreated
      ensures old(held) <= held && (held == old(held) <==> old(running) || !uhidCreated)
      ensures (held - old(held)) !! old(host.devices) && host.devices == old(host.devices) + (held - old(held))
      ensures tasks == old(tasks) + if r.Ok? then 2 else 0
    {
      if running {
        return Err(AlreadyRunning);
      }
      if !uhidCreated {
        return Err(NoUhid);
      }
      var device := host.CreateDevice();
      held := held + {device};
      running := true;
      if !connected {
        return Err(NotConnected);
      }
      tasks := tasks + 2;
      return Ok(());
    }

    method Stop()
      requires host.Valid()
      modifies this, host
      ensures host.Valid() && !running && held == {} && tasks == 0
      ensures host.devices == old(host.devices) - old(held) && host.children == old(host.children)
    {
      host.CloseDevices(held);
      held, tasks := {}, 0;
      running := false;
    }

    /** The value goes out of scope: its senders are dropped, so its threads end. */
    method Drop()
      requires host.Valid()
      modifies this, host
      ensures host.Valid() && held == {}
      ensures host.devices == old(host.devices) - old(held) && host.children == old(host.children)
    {
      host.CloseDevices(held);
      held := {};
    }
  }
}
