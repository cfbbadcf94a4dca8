/** The journaled change of one network interface of a running VM: pkg/vm/network_hotplug.go. */
module Hotplug {
  import opened HotplugHost

  /** nil, an error that says nothing changed, or ErrNetworkStateUncertain. */
  datatype Outcome = Ok | Definite | Uncertain

  class Driver<M(==)> {
    const host: Host<M>

    constructor (host: Host<M>)
      ensures this.host == host
    {
      this.host := host;
    }

    /** A command had an unknown effect, or one that cleans up was refused. */
    twostate predicate Unknown()
      reads host
    {
      host.lost > old(host.lost) || host.stuck > old(host.stuck)
    }

    /** stop, in attachInterface: the helper of a bridge interface. */
    method StopOwnHelper(nic: InterfaceSpec) returns (ok: bool)
      requires nic.id < SLOTS
      modifies host
      ensures host.Steps(nic.id) && host.KeepsFiles()
      ensures host.running ==> host.unplugging == old(host.unplugging)
      ensures
        var s, s0 := host.slots[nic.id], old(host.slots[nic.id]);
        && (s == s0 || (nic.mode.Bridge? && s == s0.(helper := None)))
        && (ok && nic.mode.Bridge? ==> s.helper == None)
      ensures if nic.mode.Bridge? then ok ==> host.alive else ok && host.alive == old(host.alive)
      ensures host.refused == old(host.refused) && host.resisted == old(host.resisted) && (!ok ==> Unknown())
      ensures Healthy(old(host.script)) && old(host.alive) ==> ok
    {
      ok := true;
      if nic.mode.Bridge? {
        ok := host.StopHelper(nic.id);
      }
    }

    /** attachInterface after a definite error: only the helper is left to stop. */
    method GiveUp(nic: InterfaceSpec) returns (outcome: Outcome)
      requires nic.id < SLOTS
      modifies host
      ensures host.Steps(nic.id) && host.KeepsFiles()
      ensures host.running ==> host.unplugging == old(host.unplugging)
      ensures
        var s, s0 := host.slots[nic.id], old(host.slots[nic.id]);
        && (s == s0 || (nic.mode.Bridge? && s == s0.(helper := None)))
        && (outcome == Definite && nic.mode.Bridge? ==> s.helper == None)
      ensures outcome == Definite || (outcome == Uncertain && Unknown())
      ensures host.refused == old(host.refused) && host.resisted == old(host.resisted)
      ensures !nic.mode.Bridge? ==> host.alive == old(host.alive)
      ensures Healthy(old(host.script)) && old(host.alive) ==> outcome == Definite
    {
      var ok := StopOwnHelper(nic);
      outcome := if ok then Definite else Uncertain;
    }

    /** attachInterface once the backend is there. */
    method AttachDevice(nic: InterfaceSpec) returns (outcome: Outcome)
      requires nic.id < SLOTS
      requires host.alive && host.running ==> host.slots[nic.id] == SlotOf(Some(nic)).(device := None)
      modifies host
      ensures host.Steps(nic.id) && host.KeepsFiles()
      ensures host.running ==> host.unplugging == old(host.unplugging)
      ensures outcome == Ok ==> host.alive && host.running && host.slots[nic.id] == SlotOf(Some(nic))
      ensures host.alive && host.running && outcome == Definite ==> host.slots[nic.id] == EMPTY
      ensures outcome == Definite ==> host.refused > old(host.refused)
      ensures outcome == Uncertain ==> Unknown()
      ensures host.resisted == old(host.resisted)
      ensures Healthy(old(host.script)) && old(host.alive) && old(host.running) ==> outcome == Ok
    {
      var r := host.DeviceAdd(nic.id, DeviceOf(nic));
      if !r.Done? {
        if !r.Rejected? {
          return Uncertain;
        }
        r := host.NetdevDel(nic.id);
        if !r.Done? {
          return Uncertain;
        }
        outcome := GiveUp(nic);
        return;
      }
      outcome := Ok;
    }

    /** attachInterface on a free interface ID: attached in full, not at all, or uncertain. */
    method Attach(nic: InterfaceSpec) returns (outcome: Outcome)
      requires nic.id < SLOTS
      requires host.alive && host.running ==> host.slots[nic.id] == EMPTY
      modifies host
      ensures host.Steps(nic.id) && host.KeepsFiles()
      ensures host.running ==> host.unplugging == old(host.unplugging)
      ensures host.alive && host.running && outcome == Ok ==> host.slots[nic.id] == SlotOf(Some(nic))
      ensures host.alive && host.running && outcome == Definite ==> host.slots[nic.id] == EMPTY
      ensures outcome == Ok ==> HasBackend(nic) && host.alive
      ensures outcome == Definite && HasBackend(nic) ==> host.refused > old(host.refused) || Unknown()
      ensures outcome == Uncertain ==> Unknown()
      ensures host.resisted == old(host.resisted)
      ensures Healthy(old(host.script)) && old(host.alive) && old(host.running) && HasBackend(nic) ==> outcome == Ok
    {
      if !HasBackend(nic) {
        return Definite;
      }
      if nic.mode.Bridge? {
        var ok := host.Prepare();
        if !ok {
          return Definite;
        }
        ok := host.StartHelper(nic.id, nic.mode.device);
        if !ok {
          outcome := GiveUp(nic);
          return;
        }
      }
      var r := host.NetdevAdd(nic.id, nic.mode);
      if !r.Done? {
        if !r.Rejected? {
          return Uncertain;
        }
        outcome := GiveUp(nic);
        return;
      }
      outcome := AttachDevice(nic);
    }

    /** The first loop of detachInterface: ask the guest to give the device up, again while it is busy. */
    method AskRemoval(id: nat) returns (outcome: Outcome)
      requires id < SLOTS
      requires host.alive && host.running ==> host.unplugging == {}
      modifies host
      ensures host.Steps(id) && host.KeepsFiles() && host.slots == old(host.slots)
      ensures outcome == Ok ==> host.alive && host.running && host.unplugging == {id}
      ensures host.alive && host.running && outcome == Definite ==> host.unplugging == {}
      ensures outcome == Definite ==> host.resisted > old(host.resisted)
      ensures outcome == Uncertain ==> Unknown()
      ensures host.refused == old(host.refused)
      ensures Healthy(old(host.script)) && old(host.alive) && old(host.running) && host.slots[id].device != None ==> outcome == Ok
    {
      var r := host.DeviceDel(id);
      while r == Rejected(true)
        invariant host.Steps(id) && host.KeepsFiles() && host.slots == old(host.slots) && host.refused == old(host.refused)
        invariant r.Done? || r.Rejected? || host.lost > old(host.lost)
        invariant r == Rejected(false) ==> host.resisted > old(host.resisted)
        invariant host.alive && host.running && r.Rejected? ==> host.unplugging == {}
        invariant r.Done? ==> host.alive && host.running && host.unplugging == {id}
        invariant Healthy(old(host.script)) && old(host.alive) && old(host.running) && host.slots[id].device != None ==> r.Done?
        decreases |host.script|, r == Rejected(true)
      {
        r := host.DeviceDel(id);
      }
      outcome := if r.Done? then Ok else if r.Rejected? then Definite else Uncertain;
    }

    /** detachInterface until the guest has given the device up, or has not. */
    method RemoveDevice(id: nat) returns (outcome: Outcome)
      requires id < SLOTS
      requires host.alive && host.running ==> host.unplugging == {}
      modifies host
      ensures host.Steps(id) && host.KeepsFiles()
      ensures host.slots[id] == old(host.slots[id]) || host.slots[id] == old(host.slots[id]).(device := None)
      ensures outcome == Ok ==> host.alive && host.running && host.slots[id].device == None && host.unplugging == {}
      ensures host.alive && host.running && outcome == Definite ==> host.slots == old(host.slots) && host.unplugging == {}
      ensures outcome == Definite ==> host.resisted > old(host.resisted)
      ensures outcome == Uncertain ==> Unknown()
      ensures host.refused == old(host.refused)
      ensures Healthy(old(host.script)) && old(host.alive) && old(host.running) && old(host.slots[id]).device != None ==> outcome == Ok
    {
      outcome := AskRemoval(id);
      if outcome != Ok {
        return;
      }
      var r := host.NextEvent(id);
      while r.OtherEvent?
        invariant host.Steps(id) && host.KeepsFiles() && host.refused == old(host.refused)
        invariant host.slots[id] == old(host.slots[id]) || host.slots[id] == old(host.slots[id]).(device := None)
        invariant r.Done? || r.OtherEvent? || r.GuestError? || host.lost > old(host.lost)
        invariant r.GuestError? ==> host.resisted > old(host.resisted)
        invariant r.Done? ==> host.alive && host.running && host.slots[id].device == None && host.unplugging == {}
        invariant host.running && r.GuestError? ==> host.slots == old(host.slots) && host.unplugging == {}
        invariant host.running && r.OtherEvent? ==> host.slots == old(host.slots) && host.unplugging == {id}
        invariant Healthy(old(host.script)) && old(host.alive) && old(host.running) && old(host.slots[id]).device != None ==> r.Done?
        decreases |host.script|, r.OtherEvent?
      {
        r := host.NextEvent(id);
      }
      outcome := if r.Done? then Ok else if r.GuestError? then Definite else Uncertain;
    }

    /** detachInterface of an interface attached in full: gone in full, untouched, or uncertain. */
    method Detach(nic: InterfaceSpec) returns (outcome: Outcome)
      requires nic.id < SLOTS
      requires host.alive && host.running ==> host.slots[nic.id] == SlotOf(Some(nic)) && host.unplugging == {}
      modifies host
      ensures host.Steps(nic.id) && host.KeepsFiles()
      ensures outcome == Ok ==> host.alive
      ensures host.alive && host.running && outcome == Ok ==> host.slots[nic.id] == EMPTY && host.unplugging == {}
      ensures host.alive && host.running && outcome == Definite ==> host.slots == old(host.slots) && host.unplugging == {}
      ensures outcome == Definite ==> host.resisted > old(host.resisted)
      ensures outcome == Uncertain ==> Unknown()
      ensures host.refused == old(host.refused)
      ensures Healthy(old(host.script)) && old(host.alive) && old(host.running) ==> outcome == Ok
    {
      outcome := RemoveDevice(nic.id);
      if outcome != Ok {
        return;
      }
      var r := host.NetdevDel(nic.id);
      if !r.Done? {
        return Uncertain;
      }
      var ok := StopOwnHelper(nic);
      outcome := if ok then Ok else Uncertain;
    }

    /** Return `outcome` with the journal cleared, unless it is uncertain or the journal stays. */
    method Clear(outcome: Outcome) returns (result: Outcome)
      modifies host
      ensures host.KeepsLive() && host.manifest == old(host.manifest)
      ensures host.journal == old(host.journal) || (host.journal == None && outcome != Uncertain)
      ensures !old(host.alive) ==> host.journal == old(host.journal)
      ensures result == outcome || (result == Uncertain && Unknown())
      ensures host.refused == old(host.refused) && host.resisted == old(host.resisted)
      ensures host.alive && result != Uncertain ==> host.journal == None
      ensures host.alive && result == Uncertain ==> host.journal == old(host.journal)
      ensures Healthy(old(host.script)) && old(host.alive) ==> result == outcome
    {
      if outcome == Uncertain {
        return Uncertain;
      }
      var ok := host.RemoveJournal();
      result := if ok then outcome else Uncertain;
    }

    /** Attach the original interface again, after `cause`. */
    method Rollback(before: Option<InterfaceSpec>, id: nat) returns (result: Outcome)
      requires id < SLOTS && (before.Some? ==> before.value.id == id)
      requires before.Some? && host.alive && host.running ==> host.slots[id] == EMPTY
      modifies host
      ensures host.Steps(id) && host.manifest == old(host.manifest)
      ensures host.running ==> host.unplugging == old(host.unplugging)
      ensures result != Ok
      ensures result == Uncertain ==> Unknown() || (before.Some? && (host.refused > old(host.refused) || !HasBackend(before.value)))
      ensures host.resisted == old(host.resisted)
      ensures before == None ==> host.slots == old(host.slots)
      ensures !old(host.alive) ==> host.journal == old(host.journal)
      ensures host.alive && result == Definite ==> host.journal == None
      ensures host.alive && result == Uncertain ==> host.journal == old(host.journal)
      ensures host.journal == old(host.journal) || (host.journal == None && (host.running ==> Restored(before, id, old(host.slots))))
      ensures host.alive && host.running && result == Definite ==> Restored(before, id, old(host.slots))
      ensures Healthy(old(host.script)) && old(host.alive) && old(host.running) && (before.Some? ==> HasBackend(before.value))
        ==> result == Definite
    {
      if before.Some? {
        var attached := Attach(before.value);
        if attached != Ok {
          return Uncertain;
        }
      }
      result := Clear(Definite);
    }

    /** ChangeInterface: replace `before` by `after` in the running VM and save `m`, or leave everything as it was,
        or leave a journal. */
    method ChangeInterface(before: Option<InterfaceSpec>, after: Option<InterfaceSpec>, m: M, saving: Saving) returns (outcome: Outcome)
      requires before.Some? && after.Some? ==> before.value.id == after.value.id
      requires host.alive
      requires host.running && host.journal == None ==> Placed(before, after)
      modifies host
      ensures host.Counts() && (host.running ==> old(host.running))
      ensures host.manifest == old(host.manifest) || host.manifest == m
      ensures forall i :: 0 <= i < SLOTS && !About(before, after, i) ==> host.slots[i] == old(host.slots[i])
      ensures old(host.journal) != None ==>
        host.slots == old(host.slots) && host.manifest == old(host.manifest) && host.journal == old(host.journal) && outcome != Ok
      ensures !old(host.running) ==>
        && outcome != Ok && host.slots == old(host.slots) && host.manifest == old(host.manifest)
        && (host.alive ==> host.journal == old(host.journal))
      // What the caller is told is true.
      ensures host.alive && outcome == Ok ==>
        && host.journal == None
        && host.manifest == m
        && (host.running ==> forall i :: 0 <= i < SLOTS && About(before, after, i) ==> host.slots[i] == SlotOf(after))
      ensures host.alive && outcome == Definite ==>
        && host.journal == old(host.journal)
        && (host.running ==> host.slots == old(host.slots))
        && (host.manifest == old(host.manifest) || (saving.FailsLate? && host.manifest == m))
      ensures host.alive && outcome == Uncertain ==> host.journal != None
      // An error has a reason, and an uncertain one a command without a known effect, or nothing left to try.
      ensures outcome == Uncertain ==> old(host.journal) != None || Unbacked(before, saving) || Unclear(saving)
      ensures outcome == Uncertain && before == None ==>
        old(host.journal) != None || Unknown() || (!saving.Saves? && host.resisted > old(host.resisted))
      ensures outcome == Definite ==>
        || !saving.Saves? || host.resisted > old(host.resisted) || host.refused > old(host.refused) || Unknown()
        || !host.running
        || (before.Some? && before.value.id >= SLOTS)
        || (after.Some? && !HasBackend(after.value))
      ensures old(host.journal) != None && outcome == Definite ==> host.refused > old(host.refused) || Unknown()
      // Wherever maco stopped, a VM without a journal has all of the change or none of it.
      ensures host.running && host.journal == None ==>
        && host.unplugging == {}
        && (|| Untouched(old(host.slots), old(host.manifest))
            || Replaced(before, after, old(host.slots), m)
            || (saving.FailsLate? && Untouched(old(host.slots), m)))
      // A host on which every command works gets the change, or with a failing store keeps what it had.
      ensures
        && old(host.running) && old(host.journal) == None && Healthy(old(host.script))
        && (before.Some? ==> HasBackend(before.value)) && (after.Some? ==> HasBackend(after.value)) ==>
        && outcome == (if saving.Saves? then Ok else Definite)
        && host.alive && host.running
        && host.manifest == (if saving.Fails? then old(host.manifest) else m)
    {
      outcome := Begin(before, after);
      if outcome != Ok {
        return;
      }
      var id := if before.Some? then before.value.id else if after.Some? then after.value.id else 0;
      outcome := Apply(before, after, id, m, saving);
    }

    /** The checks before a change, and its journal. */
    method Begin(before: Option<InterfaceSpec>, after: Option<InterfaceSpec>) returns (outcome: Outcome)
      requires host.alive
      modifies host
      ensures host.KeepsLive() && host.manifest == old(host.manifest)
      ensures host.journal == old(host.journal) || (old(host.journal) == None && host.journal == Some(Change(before, after)))
      ensures outcome == Uncertain ==> old(host.journal) != None
      ensures outcome == Ok ==>
        && host.alive && old(host.running) && old(host.journal) == None && host.journal != None
        && (before.Some? ==> before.value.id < SLOTS) && (after.Some? ==> HasBackend(after.value))
      ensures host.alive && outcome != Ok ==> host.journal == old(host.journal)
      ensures host.stuck == old(host.stuck) && host.resisted == old(host.resisted)
      ensures outcome == Ok ==> host.refused == old(host.refused)
      ensures outcome == Definite ==>
        || host.refused > old(host.refused) || host.lost > old(host.lost)
        || (old(host.journal) == None
            && (!host.running || (before.Some? && before.value.id >= SLOTS) || (after.Some? && !HasBackend(after.value))))
      ensures
        && Healthy(old(host.script)) && old(host.running) && old(host.journal) == None
        && (before.Some? ==> before.value.id < SLOTS) && (after.Some? ==> HasBackend(after.value)) ==>
        outcome == Ok
    {
      var ok := host.Prepare();
      if !ok {
        return Definite;
      }
      if host.journal != None {
        return Uncertain;
      }
      if (before.Some? && before.value.id >= SLOTS) || (after.Some? && after.value.id >= SLOTS) {
        return Definite;
      }
      ok := host.Dial();
      if !ok {
        return Definite;
      }
      if after.Some? && !HasBackend(after.value) {
        return Definite;
      }
      ok := host.WriteJournal(Change(before, after));
      if !ok {
        return Definite;
      }
      outcome := Ok;
    }

    /** Why a change may not be known to be made in full or not at all: a command had an unknown effect or did not
        clean up, or nothing brought `before` back after the change had failed. */
    twostate predicate Unclear(saving: Saving)
      reads host
    {
      || Unknown()
      || host.refused > old(host.refused) + (if saving.Saves? then 1 else 0)
      || (!saving.Saves? && host.resisted > old(host.resisted))
    }

    /** Whether nothing could bring `before` back, because QEMU cannot even be asked for it. */
    twostate predicate Unbacked(before: Option<InterfaceSpec>, saving: Saving)
      reads host
    {
      before.Some? && !HasBackend(before.value) && (!saving.Saves? || host.refused > old(host.refused))
    }

    /** The part of ChangeInterface that runs under the journal. */
    method Apply(before: Option<InterfaceSpec>, after: Option<InterfaceSpec>, id: nat, m: M, saving: Saving) returns (outcome: Outcome)
      requires id < SLOTS && (before.Some? ==> before.value.id == id) && (after.Some? ==> after.value.id == id && HasBackend(after.value))
      requires host.alive && host.journal != None
      requires host.running ==> host.unplugging == {}
      requires host.running && (before.Some? || after.Some?) ==> host.slots[id] == SlotOf(before)
      modifies host
      ensures host.Steps(id)
      ensures host.manifest == old(host.manifest) || host.manifest == m
      ensures before == after == None ==> host.slots == old(host.slots)
      ensures host.alive && outcome != Uncertain ==> host.journal == None && (host.running ==> host.unplugging == {})
      ensures host.alive && outcome == Uncertain ==> host.journal != None
      ensures host.alive && outcome == Ok ==> host.manifest == m
      ensures host.alive && outcome == Ok && host.running && (before.Some? || after.Some?) ==> host.slots[id] == SlotOf(after)
      ensures host.alive && outcome == Definite ==>
        && (host.manifest == old(host.manifest) || (saving.FailsLate? && host.manifest == m))
        && (host.running ==> host.slots == old(host.slots))
      ensures host.running && host.journal == None ==>
        && host.unplugging == {}
        && (|| Untouched(old(host.slots), old(host.manifest))
            || (host.manifest == m && ((before.Some? || after.Some?) ==> host.slots[id] == SlotOf(after)))
            || (saving.FailsLate? && Untouched(old(host.slots), m)))
      ensures outcome == Uncertain ==> Unbacked(before, saving) || Unclear(saving)
      ensures outcome == Uncertain && before == None ==> Unknown() || (!saving.Saves? && host.resisted > old(host.resisted))
      ensures outcome == Definite ==>
        !saving.Saves? || host.resisted > old(host.resisted) || host.refused > old(host.refused) || Unknown()
      ensures old(host.running) && Healthy(old(host.script)) && (before.Some? ==> HasBackend(before.value)) ==>
        && outcome == (if saving.Saves? then Ok else Definite)
        && host.manifest == (if saving.Fails? then old(host.manifest) else m)
    {
      if before.Some? {
        var detached := Detach(before.value);
        if detached != Ok {
          outcome := Clear(detached);
          return;
        }
      }
      outcome := Install(before, after, id, m, saving);
    }

    /** ChangeInterface, once the VM is without the interface `before`. */
    method Install(before: Option<InterfaceSpec>, after: Option<InterfaceSpec>, id: nat, m: M, saving: Saving) returns (outcome: Outcome)
      requires id < SLOTS && (before.Some? ==> before.value.id == id) && (after.Some? ==> after.value.id == id && HasBackend(after.value))
      requires host.alive && host.journal != None
      requires host.running ==> host.unplugging == {}
      requires host.running && (before.Some? || after.Some?) ==> host.slots[id] == EMPTY
      modifies host
      ensures host.Steps(id)
      ensures host.manifest == old(host.manifest) || host.manifest == m
      ensures before == after == None ==> host.slots == old(host.slots)
      ensures host.alive && outcome != Uncertain ==> host.journal == None && (host.running ==> host.unplugging == {})
      ensures host.alive && outcome == Uncertain ==> host.journal != None
      ensures host.alive && outcome == Ok ==> host.manifest == m
      ensures host.alive && outcome == Ok && host.running && (before.Some? || after.Some?) ==> host.slots[id] == SlotOf(after)
      ensures host.alive && outcome == Definite ==>
        && (host.manifest == old(host.manifest) || (saving.FailsLate? && host.manifest == m))
        && (host.running && (before.Some? || after.Some?) ==> host.slots[id] == SlotOf(before))
      ensures host.running && host.journal == None ==>
        && host.unplugging == {}
        && (|| (host.manifest == m && (before.Some? || after.Some? ==> host.slots[id] == SlotOf(after)))
            || ((host.manifest == old(host.manifest) || (saving.FailsLate? && host.manifest == m))
                && (before.Some? || after.Some? ==> host.slots[id] == SlotOf(before))))
      ensures outcome == Uncertain ==> Unbacked(before, saving) || Unclear(saving)
      ensures outcome == Uncertain && before == None ==> Unknown() || (!saving.Saves? && host.resisted > old(host.resisted))
      ensures outcome == Definite ==> !saving.Saves? || host.refused > old(host.refused) || Unknown()
      ensures old(host.running) && Healthy(old(host.script)) && (before.Some? ==> HasBackend(before.value)) ==>
        && outcome == (if saving.Saves? then Ok else Definite)
        && host.manifest == (if saving.Fails? then old(host.manifest) else m)
    {
      if after.Some? {
        var attached := Attach(after.value);
        if attached == Uncertain {
          return Uncertain;
        }
        if attached == Definite {
          outcome := Rollback(before, id);
          return;
        }
      }
      outcome := SaveOrUndo(before, after, id, m, saving);
    }

    /** The end of ChangeInterface, once the VM has the interface `after`. */
    method SaveOrUndo(before: Option<InterfaceSpec>, after: Option<InterfaceSpec>, id: nat, m: M, saving: Saving) returns (outcome: Outcome)
      requires id < SLOTS && (before.Some? ==> before.value.id == id) && (after.Some? ==> after.value.id == id)
      requires host.alive && host.journal != None
      requires host.running ==> host.unplugging == {}
      requires host.running && (before.Some? || after.Some?) ==> host.slots[id] == SlotOf(after)
      modifies host
      ensures host.Steps(id)
      ensures host.manifest == old(host.manifest) || host.manifest == m
      ensures before == after == None ==> host.slots == old(host.slots)
      ensures host.alive && outcome != Uncertain ==> host.journal == None && (host.running ==> host.unplugging == {})
      ensures host.alive && outcome == Uncertain ==> host.journal != None
      ensures host.alive && outcome == Ok ==> host.manifest == m && (host.running ==> host.slots == old(host.slots))
      ensures host.alive && outcome == Definite ==>
        && (host.manifest == old(host.manifest) || (saving.FailsLate? && host.manifest == m))
        && (host.running && (before.Some? || after.Some?) ==> host.slots[id] == SlotOf(before))
      ensures host.running && host.journal == None ==>
        && host.unplugging == {}
        && (|| (host.manifest == m && host.slots == old(host.slots))
            || ((host.manifest == old(host.manifest) || (saving.FailsLate? && host.manifest == m))
                && (before.Some? || after.Some? ==> host.slots[id] == SlotOf(before))))
      ensures outcome == Uncertain ==>
        || Unknown()
        || (!saving.Saves? && (before.Some? && (host.refused > old(host.refused) || !HasBackend(before.value))))
        || (!saving.Saves? && host.resisted > old(host.resisted))
      ensures saving.Saves? ==> (host.refused == old(host.refused) && host.resisted == old(host.resisted)) || Unknown()
      ensures outcome == Definite ==> !saving.Saves? || Unknown()
      ensures old(host.running) && Healthy(old(host.script)) && (before.Some? ==> HasBackend(before.value)) ==>
        && outcome == (if saving.Saves? then Ok else Definite)
        && host.manifest == (if saving.Fails? then old(host.manifest) else m)
    {
      var saved := host.SaveManifest(m, saving);
      if !saved {
        if after.Some? {
          var detached := Detach(after.value);
          if detached != Ok {
            return Uncertain;
          }
        }
        outcome := Rollback(before, id);
        return;
      }
      outcome := Clear(Ok);
    }

    // ---- What ChangeInterface promises ----

    /** The interface to change is live as `before` says, and nothing is half removed. */
    ghost predicate Placed(before: Option<InterfaceSpec>, after: Option<InterfaceSpec>)
      reads host
    {
      && host.unplugging == {}
      && forall i :: 0 <= i < SLOTS && About(before, after, i) ==> host.slots[i] == SlotOf(before)
    }

    ghost predicate Restored(before: Option<InterfaceSpec>, id: nat, slots: Slots)
      requires id < SLOTS
      reads host
    {
      host.slots[id] == if before.Some? then SlotOf(before) else slots[id]
    }

    ghost predicate Untouched(slots: Slots, manifest: M)
      reads host
    {
      host.slots == slots && host.manifest == manifest
    }

    ghost predicate Replaced(before: Option<InterfaceSpec>, after: Option<InterfaceSpec>, slots: Slots, m: M)
      reads host
    {
      && host.manifest == m
      && forall i :: 0 <= i < SLOTS ==> host.slots[i] == if About(before, after, i) then SlotOf(after) else slots[i]
    }
  }

  /** Whether a change is about interface i. */
  predicate About(before: Option<InterfaceSpec>, after: Option<InterfaceSpec>, i: nat) {
    (before.Some? && before.value.id == i) || (after.Some? && after.value.id == i)
  }
}
