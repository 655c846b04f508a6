/** What the daemon acquires from the operating system, and who owns it. */
module Resources {
  // ---- The host ----

  /** What has been acquired from the operating system and not yet released. */
  class Host {
    var children: set<nat>
    var devices: set<nat>
    var next: nat

    ghost predicate Valid()
      reads this
    {
      (forall r :: r in children ==> r < next) && (forall r :: r in devices ==> r < next)
    }

    constructor ()
      ensures Valid() && children == {} && devices == {}
    {
      children, devices, next := {}, {}, 0;
    }

    method Spawn() returns (pid: nat)
      requires Valid()
      modifies this
      ensures Valid() && pid !in old(children)
      ensures children == old(children) + {pid} && devices == old(devices)
    {
      pid := next;
      children, next := children + {pid}, next + 1;
    }

    method CreateDevice() returns (device: nat)
      requires Valid()
      modifies this
      ensures Valid() && device !in old(devices)
      ensures devices == old(devices) + {device} && children == old(children)
    {
      device := next;
      devices, next := devices + {device}, next + 1;
    }

    method Reap(gone: set<nat>)
      requires Valid()
      modifies this
      ensures Valid() && children == old(children) - gone && devices == old(devices)
    {
      children := children - gone;
    }

    method CloseDevices(gone: set<nat>)
      requires Valid()
      modifies this
      ensures Valid() && devices == old(devices) - gone && children == old(children)
    {
      devices := devices - gone;
    }
  }

  // ---- Ownership ----

  /** Each live resource is held by exactly one entry, and everything held is live. */
  ghost predicate Owned(held: map<string, set<nat>>, live: set<nat>) {
    && (forall i, j :: i in held && j in held && i != j ==> held[i] !! held[j])
    && (forall r :: r in live <==> exists i :: i in held && r in held[i])
  }

  lemma OwnedAfterRelease(held: map<string, set<nat>>, live: set<nat>, id: string)
    requires Owned(held, live) && id in held
    ensures Owned(held - {id}, live - held[id]) && held[id] <= live
  {
    var rest := held - {id};
    forall r
      ensures r in live - held[id] <==> exists i :: i in rest && r in rest[i]
    {
      if r in live - held[id] {
        var i :| i in held && r in held[i];
        assert i in rest && r in rest[i];
      }
      if i :| i in rest && r in rest[i] {
        assert i in held && r in held[i];
      }
    }
  }

  lemma OwnedAfterAcquire(held: map<string, set<nat>>, live: set<nat>, id: string, more: set<nat>)
    requires Owned(held, live) && id !in held && more !! live
    ensures Owned(held[id := more], live + more)
  {
    var grown := held[id := more];
    forall i | i in held
      ensures held[i] <= live
    {
    }
    forall r
      ensures r in live + more <==> exists i :: i in grown && r in grown[i]
    {
      if r in live {
        var i :| i in held && r in held[i];
        assert i in grown && r in grown[i];
      } else if r in more {
        assert id in grown && r in grown[id];
      }
    }
  }
}
