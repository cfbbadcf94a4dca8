/** What a network change of a running VM acts on: QEMU's devices and backends, the per-interface helper processes,
    the journal file and the saved manifest.

    The host answers commands from a script, so a property proved for every script holds for every pattern of
    successes, rejections and lost replies, for a QEMU that exits at any point, and for a crash of maco between any
    two steps: after `Crash` the host takes no more commands until `Revive`. */
module HotplugHost {
  datatype Option<T> = None | Some(value: T)

  /** Interface IDs are net0 to net31, here their numbers. */
  const SLOTS: nat := 32

  datatype Mode = User | VmnetHost | VmnetShared | Switch(group: string) | Bridge(device: string) | Bridged(uplink: string) | Unknown

  /** One network interface of a VM as the driver is given it. */
  datatype InterfaceSpec = InterfaceSpec(reference: string, id: nat, mac: nat, mode: Mode)

  datatype Change = Change(before: Option<InterfaceSpec>, after: Option<InterfaceSpec>)

  datatype Device = Device(mac: nat, offloads: bool)

  /** What one interface ID has: the guest's device, QEMU's network backend, the bridge its helper process serves. */
  datatype Slot = Slot(device: Option<Device>, backend: Option<Mode>, helper: Option<string>)

  const EMPTY := Slot(None, None, None)

  type Slots = s: seq<Slot> | |s| == SLOTS witness seq(SLOTS, i => EMPTY)

  /** networkBackend: whether netdev_add can be asked for, because the specification is complete. */
  predicate HasBackend(nic: InterfaceSpec) {
    && nic.id < SLOTS
    && match nic.mode {
         case Switch(group) => group != ""
         case Bridge(device) => device != ""
         case Bridged(uplink) => uplink != ""
         case Unknown => false
         case _ => true
       }
  }

  /** The name QEMU has for a kind of backend. */
  function TypeOf(mode: Mode): (name: string) {
    match mode
    case User => "user"
    case VmnetHost => "vmnet-host"
    case VmnetShared => "vmnet-shared"
    case Switch(_) => "socket"
    case Bridge(_) => "stream"
    case Bridged(_) => "vmnet-bridged"
    case Unknown => ""
  }

  /** networkDevice: offloads are off on a bridge. */
  function DeviceOf(nic: InterfaceSpec): (device: Device) {
    Device(nic.mac, !nic.mode.Bridge?)
  }

  /** An interface that is attached in full. */
  function SlotOf(nic: Option<InterfaceSpec>): (slot: Slot) {
    match nic
    case None => EMPTY
    case Some(n) => Slot(Some(DeviceOf(n)), Some(n.mode), if n.mode.Bridge? then Some(n.mode.device) else None)
  }

  /** One answer of the host. `Lost` is an I/O error: the command may or may not have taken effect. `Exit` is QEMU
      going away before it answers; `OtherEvent` and `GuestError` only occur while waiting for an unplug event. */
  datatype Reply = Done | Rejected(busy: bool) | Lost(applied: bool) | Crash(applied: bool) | Exit | OtherEvent | GuestError

  /** How a save ends: stored, failed, or failed after its rename so that the error is reported for a stored manifest
      (storage.WriteFile opens and syncs the directory after renaming). */
  datatype Saving = Saves | Fails | FailsLate

  predicate Healthy(script: seq<Reply>) {
    forall i :: 0 <= i < |script| ==> script[i] == Done
  }

  class Host<M(==)> {
    var running: bool
    var slots: Slots
    /** Devices whose removal the guest was asked for and has neither done nor refused. */
    var unplugging: set<nat>
    var journal: Option<Change>
    var manifest: M
    var alive: bool
    var script: seq<Reply>
    /** How many commands had an unknown effect, because maco crashed, QEMU is gone, or a reply was lost. */
    ghost var lost: nat
    /** How many commands were refused: those that attach something or only prepare for it, those that detach a device
        (a guest that is busy is asked again, and does not count), and those that clean up. */
    ghost var refused: nat
    ghost var resisted: nat
    ghost var stuck: nat

    constructor (manifest: M)
      ensures this.manifest == manifest
      ensures !running && journal == None && unplugging == {} && alive && script == []
      ensures slots == seq(SLOTS, i => EMPTY)
    {
      this.manifest := manifest;
      running, slots := false, seq(SLOTS, i => EMPTY);
      unplugging, journal := {}, None;
      alive, script := true, [];
      lost, refused, resisted, stuck := 0, 0, 0, 0;
    }

    /** A new maco process, and what the host will answer it. */
    method Revive(script: seq<Reply>)
      modifies this`alive, this`script
      ensures alive && this.script == script
    {
      alive, this.script := true, script;
    }

    /** What no command does: bring maco or QEMU back, or change more than one interface. */
    twostate predicate Steps(id: nat)
      requires id < SLOTS
      reads this
    {
      && (alive ==> old(alive))
      && (running ==> old(running))
      && slots == old(slots)[id := slots[id]]
      && Counts()
      && |script| <= |old(script)|
      && (Healthy(old(script)) && old(alive) ==> Healthy(script) && alive && running == old(running))
    }

    /** What was counted is not forgotten. */
    twostate predicate Tally()
      reads this
    {
      old(lost) <= lost && old(refused) <= refused && old(resisted) <= resisted && old(stuck) <= stuck
    }

    /** Nor is it if, besides, nothing crashes or exits while nothing is lost. */
    twostate predicate Counts()
      reads this
    {
      && Tally()
      && (lost == old(lost) ==> alive == old(alive) && running == old(running))
    }

    /** Every command had a known effect, and none that cleans up was refused. */
    twostate predicate Settled()
      reads this
    {
      lost == old(lost) && stuck == old(stuck)
    }

    /** Every command worked, except that a guest may have been busy. */
    twostate predicate Smooth()
      reads this
    {
      lost == old(lost) && refused == old(refused) && resisted == old(resisted) && stuck == old(stuck)
    }

    /** What QMP and helper commands leave alone besides. */
    twostate predicate KeepsFiles()
      reads this
    {
      journal == old(journal) && manifest == old(manifest)
    }

    /** The next answer, with whatever it does to maco and QEMU as processes. */
    method Answer() returns (r: Reply)
      modifies this`script, this`alive, this`running, this`unplugging, this`lost
      ensures lost == old(lost) + (if r.Lost? then 1 else 0)
      ensures lost == old(lost) ==> running == old(running) && alive == old(alive)
      ensures alive ==> old(alive)
      ensures running ==> old(running) && unplugging == old(unplugging)
      ensures !old(alive) ==> r == Lost(false) && running == old(running)
      ensures !alive ==> r.Lost?
      ensures !r.Crash? && !r.Exit?
      ensures |script| <= |old(script)|
      ensures r == OtherEvent || r == Rejected(true) ==> |script| < |old(script)|
      ensures Healthy(old(script)) && old(alive) ==> Healthy(script) && r == Done && alive && running == old(running)
    {
      if !alive {
        lost := lost + 1;
        return Lost(false);
      }
      if script == [] {
        return Done;
      }
      var head := script[0];
      script := script[1..];
      match head {
        case Crash(applied) =>
          alive := false;
          r := Lost(applied);
        case Exit =>
          running, unplugging := false, {};
          r := Lost(false);
        case _ => r := head;
      }
      if r.Lost? {
        lost := lost + 1;
      }
    }

    /** The reply to a QMP command: from a QEMU that is gone, and from anything else but a reply, nothing is known. */
    method Command() returns (r: Reply)
      modifies this`script, this`alive, this`running, this`unplugging, this`lost
      ensures alive ==> old(alive)
      ensures running ==> old(running) && unplugging == old(unplugging)
      ensures r.Done? || r.Rejected? || r.Lost?
      ensures r.Done? || r.Rejected? ==> alive && running
      ensures !running ==> r == Lost(false)
      ensures old(lost) <= lost && (r.Lost? <==> lost > old(lost))
      ensures |script| <= |old(script)|
      ensures r == Rejected(true) ==> |script| < |old(script)|
      ensures Healthy(old(script)) && old(alive) ==> Healthy(script) && alive && running == old(running) && (running ==> r == Done)
    {
      r := Answer();
      if !running || !(r.Done? || r.Rejected? || r.Lost?) {
        if !r.Lost? {
          lost := lost + 1;
        }
        r := Lost(false);
      }
    }

    /** A command is done, refused or lost, and lost exactly if it was counted as such. */
    twostate predicate Reports(r: Reply)
      reads this
    {
      (r.Done? || r.Rejected? || r.Lost?) && (r.Lost? <==> lost > old(lost))
    }

    // ---- QMP ----

    method NetdevAdd(id: nat, mode: Mode) returns (r: Reply)
      requires id < SLOTS
      modifies this
      ensures Steps(id) && KeepsFiles() && Reports(r)
      ensures stuck == old(stuck) && resisted == old(resisted) && refused == old(refused) + (if r.Rejected? then 1 else 0)
      ensures running ==> unplugging == old(unplugging)
      ensures slots[id] == old(slots[id]) || slots[id] == old(slots[id]).(backend := Some(mode))
      ensures r.Done? ==> alive && running && old(slots[id]).backend == None && slots[id].backend == Some(mode)
      ensures r.Rejected? ==> slots == old(slots)
      ensures Healthy(old(script)) && old(alive) && old(running) && old(slots[id]).backend == None ==> r.Done?
    {
      r := Command();
      var free := slots[id].backend == None;
      if r.Done? && !free {
        r := Rejected(false);
      } else if (r.Done? || r == Lost(true)) && free {
        slots := slots[id := slots[id].(backend := Some(mode))];
      }
      if r.Rejected? {
        refused := refused + 1;
      }
    }

    method NetdevDel(id: nat) returns (r: Reply)
      requires id < SLOTS
      modifies this
      ensures Steps(id) && KeepsFiles() && Reports(r)
      ensures refused == old(refused) && resisted == old(resisted) && stuck == old(stuck) + (if r.Rejected? then 1 else 0)
      ensures running ==> unplugging == old(unplugging)
      ensures slots[id] == old(slots[id]) || slots[id] == old(slots[id]).(backend := None)
      ensures r.Done? ==> alive && running && slots[id].backend == None
      ensures r.Rejected? ==> slots == old(slots)
      ensures Healthy(old(script)) && old(alive) && old(running) && old(slots[id]).backend != None ==> r.Done?
    {
      r := Command();
      if r.Done? && slots[id].backend == None {
        r := Rejected(false);
      } else if r.Done? || r == Lost(true) {
        slots := slots[id := slots[id].(backend := None)];
      }
      if r.Rejected? {
        stuck := stuck + 1;
      }
    }

    method DeviceAdd(id: nat, device: Device) returns (r: Reply)
      requires id < SLOTS
      modifies this
      ensures Steps(id) && KeepsFiles() && Reports(r)
      ensures stuck == old(stuck) && resisted == old(resisted) && refused == old(refused) + (if r.Rejected? then 1 else 0)
      ensures running ==> unplugging == old(unplugging)
      ensures slots[id] == old(slots[id]) || slots[id] == old(slots[id]).(device := Some(device))
      ensures r.Done? ==> alive && running && old(slots[id]).device == None && slots[id].device == Some(device)
      ensures r.Rejected? ==> slots == old(slots)
      ensures Healthy(old(script)) && old(alive) && old(running) && old(slots[id]).device == None && old(slots[id]).backend != None
        ==> r.Done?
    {
      r := Command();
      var possible := slots[id].device == None && slots[id].backend != None;
      if r.Done? && !possible {
        r := Rejected(false);
      } else if (r.Done? || r == Lost(true)) && possible {
        slots := slots[id := slots[id].(device := Some(device))];
      }
      if r.Rejected? {
        refused := refused + 1;
      }
    }

    /** Ask the guest to give up a device; the device is gone only once the guest has. */
    method DeviceDel(id: nat) returns (r: Reply)
      requires id < SLOTS
      modifies this
      ensures Steps(id) && KeepsFiles() && slots == old(slots) && Reports(r)
      ensures refused == old(refused) && stuck == old(stuck)
      ensures if r == Rejected(false) then resisted > old(resisted) else resisted == old(resisted)
      ensures running ==> unplugging == old(unplugging) || unplugging == old(unplugging) + {id}
      ensures r.Done? ==> alive && running && slots[id].device != None && unplugging == old(unplugging) + {id}
      ensures r.Rejected? && running ==> unplugging == old(unplugging)
      ensures r == Rejected(true) ==> |script| < |old(script)|
      ensures Healthy(old(script)) && old(alive) && old(running) && old(slots[id]).device != None ==> r.Done?
    {
      r := Command();
      var present := slots[id].device != None;
      if r.Done? && !present {
        r := Rejected(false);
      } else if (r.Done? || r == Lost(true)) && present {
        unplugging := unplugging + {id};
      }
      if r == Rejected(false) {
        resisted := resisted + 1;
      }
    }

    /** Read one event: `Done` is DEVICE_DELETED for the device, `GuestError` its DEVICE_UNPLUG_GUEST_ERROR. */
    method NextEvent(id: nat) returns (r: Reply)
      requires id < SLOTS
      modifies this
      ensures Steps(id) && KeepsFiles() && (r.Lost? <==> lost > old(lost))
      ensures r.Done? || r.Lost? || r.OtherEvent? || r.GuestError?
      ensures refused == old(refused) && stuck == old(stuck)
      ensures if r.GuestError? then resisted > old(resisted) else resisted == old(resisted)
      ensures slots[id] == old(slots[id]) || slots[id] == old(slots[id]).(device := None)
      ensures r.Done? ==> alive && running && slots[id].device == None && unplugging == old(unplugging) - {id}
      ensures r.GuestError? && running ==> slots == old(slots) && unplugging == old(unplugging) - {id}
      ensures r.OtherEvent? ==> |script| < |old(script)|
      ensures r.OtherEvent? && running ==> slots == old(slots) && unplugging == old(unplugging)
      ensures Healthy(old(script)) && old(alive) && old(running) && id in old(unplugging) ==> r.Done?
    {
      r := Answer();
      if !running || r.Rejected? || (r.Done? && id !in unplugging) {
        if !r.Lost? {
          lost := lost + 1;
        }
        r := Lost(false);
      } else if r.Done? || (r == Lost(true) && id in unplugging) {
        slots, unplugging := slots[id := slots[id].(device := None)], unplugging - {id};
      } else if r.GuestError? {
        unplugging := unplugging - {id};
        resisted := resisted + 1;
      }
    }

    // ---- QEMU as a process ----

    /** Start QEMU with the devices of `slots`, and record it. The helpers must be up. */
    method Spawn(wanted: Slots) returns (ok: bool)
      requires !running
      requires forall i :: 0 <= i < SLOTS ==> slots[i].helper == wanted[i].helper
      modifies this
      ensures KeepsFiles() && |script| <= |old(script)|
      ensures alive ==> old(alive)
      ensures ok == running
      ensures running ==> old(alive) && slots == wanted && unplugging == {}
      ensures !running ==> slots == old(slots)
      ensures stuck == old(stuck) && resisted == old(resisted) && old(lost) <= lost && old(refused) <= refused
      ensures if ok then lost == old(lost) && refused == old(refused) else lost > old(lost) || refused > old(refused)
      ensures lost == old(lost) ==> alive == old(alive)
      ensures Healthy(old(script)) && old(alive) ==> ok && alive && Healthy(script)
    {
      var r := Answer();
      ok := r.Done?;
      if ok {
        running, slots, unplugging := true, wanted, {};
      } else if !r.Lost? {
        refused := refused + 1;
      }
    }

    /** Signal QEMU and wait for it to be gone. */
    method Kill() returns (ok: bool)
      modifies this
      ensures KeepsFiles() && slots == old(slots) && |script| <= |old(script)|
      ensures alive ==> old(alive)
      ensures running ==> old(running) && unplugging == old(unplugging)
      ensures ok ==> !running
      ensures refused == old(refused) && resisted == old(resisted) && old(lost) <= lost
      ensures if ok then stuck == old(stuck) else stuck > old(stuck) || lost > old(lost)
      ensures stuck <= old(stuck) + 1
      ensures lost == old(lost) ==> alive == old(alive)
      ensures Healthy(old(script)) && old(alive) ==> ok && alive && Healthy(script)
    {
      var r := Answer();
      if r.Done? || r == Lost(true) {
        running, unplugging := false, {};
      }
      ok := !running;
      if !ok {
        stuck := stuck + 1;
      }
    }

    /** QEMU exits of its own accord, or the guest gives up a device it was asked for earlier. */
    method Elsewhere(exits: bool, unplugs: nat)
      modifies this
      ensures KeepsFiles() && alive == old(alive)
      ensures running ==> old(running)
      ensures running && (old(unplugging) == {} || unplugs !in old(unplugging)) ==> slots == old(slots) && unplugging == old(unplugging)
    {
      if exits {
        running, unplugging := false, {};
      } else if unplugs < SLOTS && unplugs in unplugging {
        slots, unplugging := slots[unplugs := slots[unplugs].(device := None)], unplugging - {unplugs};
      }
    }

    // ---- Helpers and files ----

    /** Start the helper of an interface; a failed start can leave it running. */
    method StartHelper(id: nat, bridge: string) returns (ok: bool)
      requires id < SLOTS
      modifies this
      ensures Steps(id) && KeepsFiles()
      ensures running ==> unplugging == old(unplugging)
      ensures slots[id] == old(slots[id]) || slots[id] == old(slots[id]).(helper := Some(bridge))
      ensures stuck == old(stuck) && resisted == old(resisted) && (!ok ==> lost > old(lost) || refused > old(refused))
      ensures ok ==> refused == old(refused) && lost == old(lost)
      ensures ok ==> alive && slots[id].helper == Some(bridge)
      ensures Healthy(old(script)) && old(alive) ==> ok
    {
      var r := Answer();
      ok := r.Done?;
      if ok || r == Lost(true) {
        slots := slots[id := slots[id].(helper := Some(bridge))];
      }
      if !ok && !r.Lost? {
        refused := refused + 1;
      }
    }

    method StopHelper(id: nat) returns (ok: bool)
      requires id < SLOTS
      modifies this
      ensures Steps(id) && KeepsFiles()
      ensures running ==> unplugging == old(unplugging)
      ensures slots[id] == old(slots[id]) || slots[id] == old(slots[id]).(helper := None)
      ensures refused == old(refused) && resisted == old(resisted) && (!ok ==> lost > old(lost) || stuck > old(stuck))
      ensures ok ==> stuck == old(stuck) && lost == old(lost)
      ensures ok ==> alive && slots[id].helper == None
      ensures Healthy(old(script)) && old(alive) ==> ok
    {
      var r := Answer();
      ok := r.Done?;
      if ok || r == Lost(true) {
        slots := slots[id := slots[id].(helper := None)];
      }
      if !ok && !r.Lost? {
        stuck := stuck + 1;
      }
    }

    /** What a file operation leaves alone. */
    twostate predicate KeepsLive()
      reads this
    {
      && (alive ==> old(alive))
      && (running ==> old(running) && unplugging == old(unplugging))
      && slots == old(slots)
      && Counts()
      && |script| <= |old(script)|
      && (Healthy(old(script)) && old(alive) ==> Healthy(script) && alive && running == old(running))
    }

    /** An operation that fails is refused, or lost. */
    twostate predicate Refusable(ok: bool)
      reads this
    {
      && stuck == old(stuck) && resisted == old(resisted)
      && (if ok then refused == old(refused) && lost == old(lost) else lost > old(lost) || refused > old(refused))
    }

    /** An operation without effect on the modelled state: looking up a file, creating a directory, dialling a socket. */
    method Prepare() returns (ok: bool)
      modifies this
      ensures KeepsLive() && KeepsFiles() && Refusable(ok)
      ensures ok ==> alive
      ensures Healthy(old(script)) && old(alive) ==> ok
    {
      var r := Answer();
      ok := r.Done?;
      if !ok && !r.Lost? {
        refused := refused + 1;
      }
    }

    /** Connect to QEMU's monitor. */
    method Dial() returns (ok: bool)
      modifies this
      ensures KeepsLive() && KeepsFiles() && stuck == old(stuck) && resisted == old(resisted)
      ensures running ==> Refusable(ok)
      ensures ok ==> alive && running
      ensures Healthy(old(script)) && old(alive) && old(running) ==> ok
    {
      var r := Answer();
      ok := r.Done? && running;
      if !ok && !r.Lost? {
        refused := refused + 1;
      }
    }

    /** Write the journal beside its place and rename it there: a reported failure leaves no journal. */
    method WriteJournal(change: Change) returns (ok: bool)
      modifies this
      ensures KeepsLive() && manifest == old(manifest) && Refusable(ok)
      ensures ok ==> alive
      ensures alive ==> journal == if ok then Some(change) else old(journal)
      ensures journal == old(journal) || journal == Some(change)
      ensures Healthy(old(script)) && old(alive) ==> ok
    {
      var r := Answer();
      ok := r.Done?;
      if ok || (!alive && r == Lost(true)) {
        journal := Some(change);
      }
      if !ok && !r.Lost? {
        refused := refused + 1;
      }
    }

    /** Remove the journal: the directory entry is gone exactly when the call says so. */
    method RemoveJournal() returns (ok: bool)
      modifies this
      ensures KeepsLive() && manifest == old(manifest)
      ensures refused == old(refused) && resisted == old(resisted) && (!ok ==> lost > old(lost) || stuck > old(stuck))
      ensures ok ==> stuck == old(stuck) && lost == old(lost)
      ensures ok ==> alive
      ensures alive ==> journal == if ok then None else old(journal)
      ensures !old(alive) ==> journal == old(journal)
      ensures journal == old(journal) || journal == None
      ensures Healthy(old(script)) && old(alive) ==> ok
    {
      var r := Answer();
      ok := r.Done?;
      if ok || (!alive && r == Lost(true)) {
        journal := None;
      }
      if !ok && !r.Lost? {
        stuck := stuck + 1;
      }
    }

    /** Save the manifest, the way the store will: a crash can come before or after the rename. */
    method SaveManifest(m: M, saving: Saving) returns (ok: bool)
      modifies this
      ensures KeepsLive() && journal == old(journal)
      ensures refused == old(refused) && resisted == old(resisted) && stuck == old(stuck)
      ensures !ok ==> !saving.Saves? || lost > old(lost)
      ensures alive ==> ok == saving.Saves? && manifest == if saving.Fails? then old(manifest) else m
      ensures !alive ==> !ok
      ensures !old(alive) ==> manifest == old(manifest)
      ensures manifest == old(manifest) || manifest == m
    {
      var r := Answer();
      ok := alive && saving.Saves?;
      if if alive then !saving.Fails? else r == Lost(true) {
        manifest := m;
      }
    }
  }
}
