/** The USB claim registry and its users: pkg/engine/usb.go. */
module UsbRegistry {
  import opened UsbHost

  /** A persistent assignment of a kind of device to a VM; without a serial it fits every device of the kind. */
  datatype Assignment = Assignment(vendor: nat, product: nat, serial: string)

  predicate Matches(a: Assignment, d: Device) {
    a.vendor == d.vendor && a.product == d.product && (a.serial == "" || a.serial == d.serial)
  }

  lemma OwnedAppend(a: seq<Claim>, b: seq<Claim>)
    ensures Owned(a + b) == Owned(a) + Owned(b)
  {
    forall c | c in Owned(a)
      ensures c in Owned(a + b)
    {
      var i :| 0 <= i < |a| && CaptureOf(a[i]) == c;
      assert (a + b)[i] == a[i];
    }
    forall c | c in Owned(b)
      ensures c in Owned(a + b)
    {
      var i :| 0 <= i < |b| && CaptureOf(b[i]) == c;
      assert (a + b)[|a| + i] == b[i];
    }
  }

  /** Whether an assignment is the one a key names: the full key, or the key without a serial. */
  predicate Fits(key: Assignment, a: Assignment) {
    a.vendor == key.vendor && a.product == key.product && (key.serial == "" || key.serial == a.serial)
  }

  predicate OnlyMatch(assignments: seq<Assignment>, key: Assignment, k: nat) {
    k < |assignments| && forall j :: 0 <= j < |assignments| ==> (Fits(key, assignments[j]) <==> j == k)
  }

  /** The first claim with an id, and it belongs to a VM. */
  predicate IsAttachment(cs: seq<Claim>, vm: nat, runDir: nat, id: nat, i: nat) {
    && i < |cs| && cs[i].id == id && cs[i].vm == vm && cs[i].runDir == runDir
    && forall j :: 0 <= j < i ==> cs[j].id != id
  }

  predicate IsFor(c: Claim, vm: nat, runDir: nat, a: Assignment) {
    c.vm == vm && c.runDir == runDir && Matches(a, c.device)
  }

  /** The same claims with other states cover the same captures. */
  predicate SameClaim(a: Claim, b: Claim) {
    a.(state := b.state) == b
  }

  ghost predicate ComesFrom(c: Claim, claims: seq<Claim>) {
    exists j :: 0 <= j < |claims| && SameClaim(claims[j], c)
  }

  class Engine {
    const host: Host
    /** The claims as read under the registry lock, and as they will be saved. */
    var claims: seq<Claim>
    /** How often QEMU is asked again before a wait is given up. */
    const patience: nat

    constructor (host: Host, patience: nat)
      ensures this.host == host && this.patience == patience
    {
      this.host, this.patience := host, patience;
      claims := [];
    }

    ghost predicate Ready()
      reads this, host
    {
      host.Valid() && host.Safe() && host.Reliable(claims)
    }

    /** openUSBRegistry, after the lock is taken. */
    method Open() returns (ok: bool)
      requires host.Valid() && host.Safe()
      modifies this`claims, host
      ensures host.Passes() && host.Safe() && host.claims == old(host.claims)
      ensures ok ==> Ready() && claims == host.claims && host.alive
      ensures host.Takes() && (old(host.alive) && Begins([Done], old(host.script)) ==> ok)
      ensures !ok ==> host.faults > old(host.faults)
    {
      var r := host.Answer();
      ok := r.Done?;
      claims := host.claims;
    }

    method Save() returns (ok: bool)
      requires Ready()
      modifies host
      ensures host.Passes() && Ready()
      ensures ok ==> host.alive && host.claims == claims
      ensures !ok ==> host.faults > old(host.faults)
      ensures !old(host.alive) || (!ok && host.lost == old(host.lost)) ==> host.claims == old(host.claims)
      ensures !ok && host.faults == old(host.faults) + 1 ==> host.captured == old(host.captured)
    {
      ok := host.SaveClaims(claims);
    }

    /** Drop every claim that certainly holds no device any more. */
    method Reconcile()
      requires Ready()
      modifies this`claims, host
      ensures host.Passes() && Ready() && host.claims == old(host.claims)
      ensures |claims| <= |old(claims)|
      ensures forall i :: 0 <= i < |claims| ==> ComesFrom(claims[i], old(claims))
      ensures forall i :: 0 <= i < |claims| ==> !claims[i].state.Attaching?
      ensures host.faults == old(host.faults) ==> forall i :: 0 <= i < |claims| ==> host.Held(claims[i]) && claims[i].state.Attached?
    {
      hide Owned, DistinctPorts, CaptureOf, Host.Reliable;
      var retained: seq<Claim> := [];
      var i := 0;
      assert retained + claims[i..] == claims;
      while i < |claims|
        invariant i <= |claims| && claims == old(claims)
        invariant host.Passes() && host.Safe() && host.claims == old(host.claims)
        invariant host.Reliable(retained + claims[i..])
        invariant |retained| <= i
        invariant forall k :: 0 <= k < |retained| ==> ComesFrom(retained[k], claims)
        invariant forall k :: 0 <= k < |retained| ==> !retained[k].state.Attaching?
        invariant host.faults == old(host.faults) ==>
          forall k :: 0 <= k < |retained| ==> host.Held(retained[k]) && retained[k].state.Attached?
      {
        var claim := claims[i];
        ghost var rest := claims[i + 1..];
        assert claims[i..] == [claim] + rest;
        var keep, state := Check(claim, retained, rest);
        if keep {
          assert SameClaim(claims[i], claim.(state := state));
          retained := retained + [claim.(state := state)];
        }
        i := i + 1;
      }
      assert retained + claims[i..] == retained;
      claims := retained;
    }

    /** Whether a claim is kept, and the state it is shown in: attached or missing if QEMU was seen to have the device, and
        unverified if it could not be asked. */
    method Check(claim: Claim, ghost before: seq<Claim>, ghost after: seq<Claim>) returns (keep: bool, state: State)
      requires host.Valid() && host.Safe() && host.Reliable(before + ([claim] + after))
      modifies host
      ensures host.Passes() && host.Safe() && host.claims == old(host.claims)
      ensures host.Reliable(if keep then (before + [claim.(state := state)]) + after else before + after)
      ensures keep && host.faults == old(host.faults) ==> host.Held(claim) && state.Attached?
      ensures keep ==> !state.Attaching?
      ensures keep && (state.Attached? || state.Missing?) ==> host.Present(claim.runDir, claim.id)
    {
      assert (before + ([claim] + after))[|before|] == claim;
      keep, state := false, Unverified;
      var ok, generation := host.Generation(claim.runDir);
      if ok && generation != Some(claim.generation) {
        Drop(claim, before, after);
        return;
      }
      if ok {
        var gone := host.Gone(claim.generation);
        if gone {
          Drop(claim, before, after);
          return;
        }
      }
      var observed, exists_, attached := host.Observe(claim.runDir, claim.id);
      if ok && observed && !exists_ {
        Drop(claim, before, after);
        return;
      }
      keep := true;
      if ok && observed {
        state := if attached then Attached else Missing;
      }
      Restate(claim, state, before, after);
    }

    // ---- Attaching and detaching ----

    /** DetachUSB in pkg/vm/usb.go: success means QEMU no longer has the device. */
    method DetachFromQemu(runDir: nat, id: nat) returns (ok: bool)
      requires host.Valid() && host.Safe()
      modifies host
      ensures host.Goes() && host.Safe() && host.claims == old(host.claims)
      ensures ok ==> host.alive && runDir in host.pidFiles
      ensures !ok ==> host.faults > old(host.faults) || !old(host.Runs(runDir))
      ensures !ok && host.Runs(runDir) && host.lost == old(host.lost) && host.locked == Some(runDir) ==> host.faults >= old(host.faults) + 2
      ensures host.locked == Some(runDir) && host.waits > old(host.waits) ==> host.faults >= old(host.faults) + 2
      ensures ok ==> forall c :: c in host.captured && c.generation == host.pidFiles[runDir] ==> c.id != id
    {
      var observed, exists_, attached := host.Observe(runDir, id);
      if !observed {
        return false;
      }
      if !exists_ {
        return true;
      }
      ok := host.DeviceDel(runDir, id);
      if !ok {
        return false;
      }
      ok := AwaitGone(runDir, id);
    }

    /** Ask QEMU until the device is gone. */
    method AwaitGone(runDir: nat, id: nat) returns (ok: bool)
      requires host.Valid() && host.Safe()
      modifies host
      ensures host.Passes() && host.Safe() && host.claims == old(host.claims)
      ensures ok ==> host.alive && runDir in host.pidFiles
      ensures ok ==> forall c :: c in host.captured && c.generation == host.pidFiles[runDir] ==> c.id != id
      ensures !ok ==> host.faults > old(host.faults) || !old(host.Runs(runDir)) || old(host.Present(runDir, id))
      ensures !ok && host.Runs(runDir) && host.lost == old(host.lost) && host.locked == Some(runDir) ==>
        host.faults > old(host.faults) && old(host.Present(runDir, id))
      ensures host.locked == Some(runDir) && host.waits > old(host.waits) ==> old(host.Present(runDir, id)) && host.faults > old(host.faults)
    {
      for round := 0 to patience + 1
        invariant host.Passes() && host.Safe() && host.claims == old(host.claims)
        invariant host.locked == Some(runDir) && host.Present(runDir, id) ==> old(host.Present(runDir, id))
        invariant round > 0 && host.locked == Some(runDir) ==> old(host.Present(runDir, id))
        invariant host.waits == old(host.waits)
      {
        var observed, exists_, attached := host.Observe(runDir, id);
        if !observed {
          return false;
        }
        if !exists_ {
          return true;
        }
      }
      host.GiveUp();
      ok := false;
    }

    /** A claim whose device the QEMU of its run directory no longer has is released. */
    lemma DetachedIsReleased(c: Claim)
      requires host.Valid() && c.generation in host.instances && host.instances[c.generation].runDir == c.runDir
      requires c.runDir in host.pidFiles
      requires forall x :: x in host.captured && x.generation == host.pidFiles[c.runDir] ==> x.id != c.id
      ensures host.Released(c)
    {
    }

    /** AttachUSB in pkg/vm/usb.go, for a device that the saved claims already cover. */
    method AttachToQemu(claim: Claim) returns (ok: bool)
      requires host.Valid() && host.Safe() && host.locked == Some(claim.runDir)
      requires host.alive ==> CaptureOf(claim) in Owned(host.claims)
      requires claim.id < host.nextId && forall c :: c in host.captured ==> c.id != claim.id
      requires claim.runDir in host.pidFiles && host.pidFiles[claim.runDir] == claim.generation
      modifies host
      ensures host.Valid() && host.Safe() && host.claims == old(host.claims) && host.locked == old(host.locked)
      ensures (host.alive ==> old(host.alive)) && host.nextId == old(host.nextId) && old(host.faults) <= host.faults
      ensures !ok ==> host.faults > old(host.faults) || !old(host.Runs(claim.runDir))
      ensures host.captured <= old(host.captured) + {CaptureOf(claim)}
      ensures ok ==> host.Present(claim.runDir, claim.id)
      ensures ok && host.faults == old(host.faults) ==> CaptureOf(claim) in host.captured
      ensures host.waits > old(host.waits) ==> host.faults >= old(host.faults) + 2
      ensures old(host.lost) <= host.lost && (host.Runs(claim.runDir) ==> old(host.Runs(claim.runDir)))
      ensures forall g :: g in old(host.instances) ==>
        g in host.instances && host.instances[g].runDir == old(host.instances)[g].runDir
      ensures claim.runDir in host.pidFiles && host.pidFiles[claim.runDir] == claim.generation
    {
      ok := host.DeviceAdd(claim.runDir, claim.id, claim.device);
      if ok {
        ok := AwaitAttached(claim.runDir, claim.id);
      }
    }

    /** Ask QEMU until the device is attached. */
    method AwaitAttached(runDir: nat, id: nat) returns (ok: bool)
      requires host.Valid() && host.Safe()
      modifies host
      ensures host.Passes() && host.Safe() && host.claims == old(host.claims)
      ensures ok ==> host.Present(runDir, id)
      ensures !ok ==> host.faults > old(host.faults) || !old(host.Runs(runDir)) || !old(host.Present(runDir, id))
      ensures host.waits > old(host.waits) ==>
        host.faults > old(host.faults) && (host.faults >= old(host.faults) + 2 || !old(host.Present(runDir, id)))
    {
      for round := 0 to patience + 1
        invariant host.Passes() && host.Safe() && host.claims == old(host.claims)
        invariant host.waits == old(host.waits)
        invariant round > 0 ==> host.faults > old(host.faults) || !old(host.Present(runDir, id))
      {
        var observed, exists_, attached := host.Observe(runDir, id);
        if !observed {
          return false;
        }
        if attached {
          return true;
        }
      }
      host.GiveUp();
      ok := false;
    }

    /** attachUSBDevice: the claim is saved before QEMU is asked to capture the device. `selected` is the device the
        caller's selector finds, `confirmed` whether it is still the same one after the capture. */
    method AttachDevice(vm: nat, runDir: nat, selected: Option<Device>, confirmed: bool) returns (ok: bool)
      requires host.Valid() && host.Safe()
      modifies this`claims, host
      ensures host.Valid() && host.Safe()
      ensures !ok ==>
        || host.faults > old(host.faults) || !old(host.Runs(runDir)) || selected.None? || !confirmed
        || exists i ::
          && 0 <= i < |old(host.claims)| && SamePort(selected.value, old(host.claims)[i].device)
          && (host.faults == old(host.faults) ==> host.Held(old(host.claims)[i]))
      ensures ok ==> host.alive && selected.Some? && host.claims != [] && runDir in host.pidFiles
      ensures ok ==> var c := host.claims[|host.claims| - 1];
        && c == Claim(c.id, vm, runDir, host.pidFiles[runDir], selected.value, Attached)
        && (host.faults == old(host.faults) ==> CaptureOf(c) in host.captured)
      ensures !old(host.Runs(runDir)) ==> !ok && host.claims == old(host.claims)
      // What one failed command leaves: nothing more captured and no claim more, or the device captured under its claim.
      ensures !ok && host.Runs(runDir) && host.faults <= old(host.faults) + 1 && host.lost == old(host.lost) ==>
        || (host.captured <= old(host.captured) && (confirmed ==> forall c :: c in host.claims ==> ComesFrom(c, old(host.claims))))
        || (confirmed && selected.Some? && Kept(selected.value, runDir))
      ensures ok ==> forall i :: 0 <= i < |host.claims| - 1 ==>
        && ComesFrom(host.claims[i], old(host.claims))
        && !SamePort(selected.value, host.claims[i].device)
        && host.claims[i].id != host.claims[|host.claims| - 1].id
    {
      hide Owned, DistinctPorts;
      ok := Prepare(runDir);
      if !ok || selected.None? {
        return false;
      }
      var device := selected.value;
      ok := PortFree(device);
      if !ok {
        TakenBefore(device, claims, old(host.claims));
        return;
      }
      ok := AttachFree(vm, runDir, device, confirmed);
    }

    /** The last claim is for a device that is captured. */
    ghost predicate Kept(device: Device, runDir: nat)
      reads host
    {
      && host.claims != []
      && var c := host.claims[|host.claims| - 1];
         c.device == device && c.runDir == runDir && CaptureOf(c) in host.captured
    }

    /** The rest of attachUSBDevice, for a device on a port that nobody has claimed. */
    method AttachFree(vm: nat, runDir: nat, device: Device, confirmed: bool) returns (ok: bool)
      requires Ready() && host.locked == Some(runDir)
      requires forall k :: 0 <= k < |claims| ==> !SamePort(device, claims[k].device)
      modifies this`claims, host
      ensures host.Valid() && host.Safe() && old(host.faults) <= host.faults
      ensures !ok ==> host.faults > old(host.faults) || !old(host.Runs(runDir)) || !confirmed
      ensures ok ==> host.alive && runDir in host.pidFiles && |host.claims| == |old(claims)| + 1
      ensures ok ==> host.claims[..|old(claims)|] == old(claims)
      ensures ok ==> var c := host.claims[|old(claims)|];
        && c == Claim(c.id, vm, runDir, host.pidFiles[runDir], device, Attached)
        && (host.faults == old(host.faults) ==> CaptureOf(c) in host.captured)
        && forall i :: 0 <= i < |old(claims)| ==> old(claims)[i].id != c.id
      ensures old(host.lost) <= host.lost
      ensures !ok && host.Runs(runDir) && host.faults <= old(host.faults) + 1 && host.lost == old(host.lost) ==>
        || (host.captured <= old(host.captured) && (host.claims == old(host.claims) || host.claims == old(claims)))
        || (host.captured <= old(host.captured) && !confirmed)
        || (confirmed && Kept(device, runDir))
    {
      hide Owned, DistinctPorts;
      ghost var others := claims;
      var known, generation := host.Generation(runDir);
      if !known || generation.None? {
        return false;
      }
      var id := Fresh(others);
      ok := Capturing(Claim(id, vm, runDir, generation.value, device, Attaching), confirmed);
    }

    lemma TakenBefore(device: Device, now: seq<Claim>, before: seq<Claim>)
      requires forall i :: 0 <= i < |now| ==> ComesFrom(now[i], before)
      requires !forall k :: 0 <= k < |now| ==> !SamePort(device, now[k].device)
      ensures exists i :: 0 <= i < |before| && SamePort(device, before[i].device)
    {
      var k :| 0 <= k < |now| && SamePort(device, now[k].device);
      var j :| 0 <= j < |before| && SameClaim(before[j], now[k]);
      assert SamePort(device, before[j].device);
    }

    /** A new id: not that of any claim or capture. */
    method Fresh(ghost others: seq<Claim>) returns (id: nat)
      requires Ready() && others == claims
      modifies host`nextId
      ensures Ready() && id < host.nextId && forall c :: c in host.captured ==> c.id != id
      ensures forall i :: 0 <= i < |others| ==> others[i].id != id
    {
      id := host.FreshId();
    }

    /** The first half of attachUSBDevice: take both locks, read the claims, refuse a stopped VM, reconcile. */
    method Prepare(runDir: nat) returns (ok: bool)
      requires host.Valid() && host.Safe()
      modifies this`claims, host
      ensures host.Valid() && host.Safe() && host.claims == old(host.claims)
      ensures host.captured <= old(host.captured) && old(host.lost) <= host.lost
      ensures ok ==> Ready() && host.locked == Some(runDir) && old(host.Runs(runDir))
      ensures old(host.faults) <= host.faults && (!ok ==> host.faults > old(host.faults) || !old(host.Runs(runDir)))
      ensures host.faults == old(host.faults) && old(host.Runs(runDir)) ==> host.Runs(runDir)
      ensures ok ==> forall i :: 0 <= i < |claims| ==> ComesFrom(claims[i], old(host.claims)) && !claims[i].state.Attaching?
      ensures ok && host.faults == old(host.faults) ==> forall i :: 0 <= i < |claims| ==> host.Held(claims[i])
    {
      host.Lock(runDir);
      ok := Open();
      if !ok {
        return;
      }
      ok := host.Status(runDir);
      if !ok {
        return;
      }
      Reconcile();
    }

    method PortFree(device: Device) returns (free: bool)
      ensures free <==> forall k :: 0 <= k < |claims| ==> !SamePort(device, claims[k].device)
    {
      for i := 0 to |claims|
        invariant forall k :: 0 <= k < i ==> !SamePort(device, claims[k].device)
      {
        if SamePort(device, claims[i].device) {
          return false;
        }
      }
      free := true;
    }

    /** The part of attachUSBDevice after the claim is made: save it, capture the device, settle the claim's state. */
    method Capturing(claim: Claim, confirmed: bool) returns (ok: bool)
      requires Ready() && host.locked == Some(claim.runDir)
      requires forall k :: 0 <= k < |claims| ==> !SamePort(claim.device, claims[k].device)
      requires claim.id < host.nextId && forall c :: c in host.captured ==> c.id != claim.id
      requires claim.runDir in host.pidFiles && host.pidFiles[claim.runDir] == claim.generation
      modifies this`claims, host
      ensures host.Valid() && host.Safe()
      ensures old(host.faults) <= host.faults
      ensures !ok ==> host.faults > old(host.faults) || !old(host.Runs(claim.runDir)) || !confirmed
      ensures ok ==> host.alive && host.claims == old(claims) + [claim.(state := Attached)]
      ensures ok && host.faults == old(host.faults) ==> CaptureOf(claim) in host.captured
      // What one failed command leaves: nothing, or the device captured under its saved claim.
      ensures old(host.lost) <= host.lost && (host.Runs(claim.runDir) ==> old(host.Runs(claim.runDir)))
      ensures !ok && host.Runs(claim.runDir) && host.faults <= old(host.faults) + 1 && host.lost == old(host.lost) ==>
        || (host.captured <= old(host.captured) && (host.claims == old(host.claims) || host.claims == old(claims)))
        || (host.captured <= old(host.captured) && host.claims == old(claims) + [claim] && !confirmed)
        || (CaptureOf(claim) in host.captured && host.claims == old(claims) + [claim] && confirmed)
      ensures ok ==> claim.runDir in host.pidFiles && host.pidFiles[claim.runDir] == claim.generation
    {
      hide Owned, DistinctPorts;
      ghost var others := claims;
      Cover(claim, others);
      claims := claims + [claim];
      ok := Save();
      if !ok {
        return;
      }
      assert CaptureOf(claim) in Owned(claims) by {
        OwnedAt(claims, |others|);
      }
      var attached := AttachToQemu(claim);
      ok := Conclude(claim, others, attached, confirmed);
    }

    /** The end of attachUSBDevice: confirm the capture, or give it up. */
    method Conclude(claim: Claim, ghost others: seq<Claim>, attached: bool, confirmed: bool) returns (ok: bool)
      requires Ready() && host.locked == Some(claim.runDir) && claims == others + [claim]
      requires claim.runDir in host.pidFiles
      modifies this`claims, host
      ensures host.Goes() && host.Safe()
      ensures ok ==> attached && confirmed && host.alive && host.claims == others + [claim.(state := Attached)]
      ensures host.Runs(claim.runDir) && host.faults == old(host.faults) && !(attached && confirmed) ==>
        host.claims == others && host.Released(claim)
      ensures host.faults == old(host.faults) && attached && confirmed ==> ok && host.captured == old(host.captured)
      ensures !ok && host.Runs(claim.runDir) && host.faults <= old(host.faults) + 1 && host.lost == old(host.lost) ==>
        if attached && confirmed then host.captured == old(host.captured) && host.claims == old(host.claims)
        else host.Released(claim) && (host.claims == others || host.claims == old(host.claims))
    {
      hide Owned, DistinctPorts, Host.Released;
      assert others + ([claim] + []) == claims;
      if !attached || !confirmed {
        var saved := Withdraw(claim, others, attached);
        return false;
      }
      Restate(claim, Attached, others, []);
      assert (others + [claim.(state := Attached)]) + [] == claims[|claims| - 1 := claim.(state := Attached)];
      claims := claims[|claims| - 1 := claim.(state := Attached)];
      ok := Save();
    }

    /** Give a capture up that failed or is not the device asked for. Unless QEMU has let it go, the claim stays. */
    method Withdraw(claim: Claim, ghost others: seq<Claim>, attached: bool) returns (saved: bool)
      requires Ready() && host.locked == Some(claim.runDir) && claims == others + ([claim] + [])
      requires claim.runDir in host.pidFiles
      modifies this`claims, host
      ensures host.Goes() && host.Safe()
      ensures claims == others || claims == others + [if attached then claim else claim.(state := Unverified)]
      ensures if saved then host.claims == claims else host.faults > old(host.faults)
      ensures host.Runs(claim.runDir) && host.faults == old(host.faults) ==> host.claims == others && host.Released(claim)
      ensures host.Runs(claim.runDir) && host.faults <= old(host.faults) + 1 && host.lost == old(host.lost) ==>
        host.Released(claim) && (host.claims == others || host.claims == old(host.claims))
    {
      hide Owned, DistinctPorts;
      assert claims[|others|] == claim;
      var detached := DetachFromQemu(claim.runDir, claim.id);
      if detached {
        DetachedIsReleased(claim);
        Drop(claim, others, []);
        assert others + [] == claims[..|claims| - 1];
        claims := claims[..|claims| - 1];
      } else if !attached {
        Restate(claim, Unverified, others, []);
        assert (others + [claim.(state := Unverified)]) + [] == claims[|claims| - 1 := claim.(state := Unverified)];
        claims := claims[|claims| - 1 := claim.(state := Unverified)];
      }
      saved := Save();
    }

    lemma Cover(claim: Claim, others: seq<Claim>)
      requires host.Valid() && host.Reliable(others)
      requires forall k :: 0 <= k < |others| ==> !SamePort(claim.device, others[k].device)
      requires claim.runDir in host.pidFiles && host.pidFiles[claim.runDir] == claim.generation && claim.id < host.nextId
      ensures host.Reliable(others + [claim])
    {
      OwnedAppend(others, [claim]);
    }

    lemma OwnedAt(cs: seq<Claim>, i: nat)
      requires i < |cs|
      ensures CaptureOf(cs[i]) in Owned(cs)
    {
    }

    /** A claim was given up although the run of QEMU it was made for still has the device. */
    predicate Slipped(before: seq<Claim>, vm: nat, runDir: nat, id: nat)
      reads host
    {
      exists i: nat :: i < |before|
        && IsAttachment(before, vm, runDir, id, i)
        && host.claims == before[..i] + before[i + 1..]
        && CaptureOf(before[i]) in host.captured
    }

    lemma SlippedIsUnclaimed(before: seq<Claim>, vm: nat, runDir: nat, id: nat)
      requires DistinctPorts(before) && Slipped(before, vm, runDir, id)
      ensures Unclaimed(host)
    {
      hide Owned, DistinctPorts;
      var i: nat :| i < |before|
        && IsAttachment(before, vm, runDir, id, i)
        && host.claims == before[..i] + before[i + 1..]
        && CaptureOf(before[i]) in host.captured;
      NotOwned(before, i);
    }

    /** DetachUSB: a claim is given up only when the run of QEMU it was made for is dead or has let the device go, or is
        misread as stopped. The registry is unsafe afterwards exactly if a claim slipped in this way. */
    method DetachDevice(vm: nat, runDir: nat, id: nat) returns (ok: bool)
      requires host.Valid() && host.Safe()
      modifies this`claims, host
      ensures host.Valid() && host.captured <= old(host.captured)
      ensures host.Safe() <==> !Slipped(old(host.claims), vm, runDir, id)
      ensures host.misreads > old(host.misreads) || host.Safe()
      ensures !ok ==> host.faults > old(host.faults) || !exists i: nat :: IsAttachment(old(host.claims), vm, runDir, id, i)
      ensures ok ==> exists i: nat ::
        && IsAttachment(old(host.claims), vm, runDir, id, i)
        && host.claims == old(host.claims)[..i] + old(host.claims)[i + 1..]
        && (host.Released(old(host.claims)[i]) || host.misreads > old(host.misreads))
      ensures forall i: nat ::
        IsAttachment(old(host.claims), vm, runDir, id, i) && old(Misread([Done, Done, Fails, Done], host.claims[i]))
        ==> ok && host.captured == old(host.captured)
    {
      hide Owned, DistinctPorts, Host.Reliable, Slipped;
      ok := false;
      host.Lock(runDir);
      var readable := Open();
      NotSlipped(vm, runDir, id);
      if !readable {
        return;
      }
      for i := 0 to |claims|
        invariant Ready() && claims == host.claims == old(host.claims) && host.captured <= old(host.captured)
        invariant host.locked == Some(runDir) && host.alive && old(host.faults) <= host.faults && host.misreads == old(host.misreads)
        invariant forall j :: 0 <= j < i ==> claims[j].id != id
        invariant !Slipped(old(host.claims), vm, runDir, id)
        invariant forall c: Claim :: old(Misread([Done, Done, Fails, Done], c)) ==>
          Misread([Done, Fails, Done], c) && host.captured == old(host.captured)
      {
        if claims[i].id != id {
          continue;
        }
        ok := GiveUp(vm, runDir, i);
        SlippedAt(old(host.claims), vm, runDir, id, i);
        return;
      }
    }

    lemma NotSlipped(vm: nat, runDir: nat, id: nat)
      ensures !Slipped(host.claims, vm, runDir, id)
    {
    }

    lemma SlippedAt(before: seq<Claim>, vm: nat, runDir: nat, id: nat, i: nat)
      requires i < |before| && before[i].id == id && forall j :: 0 <= j < i ==> before[j].id != id
      requires host.claims == before ||
        (host.claims == before[..i] + before[i + 1..] && before[i].vm == vm && before[i].runDir == runDir)
      ensures host.claims == before || host.Released(before[i]) <==> !Slipped(before, vm, runDir, id)
      ensures host.claims != before ==> IsAttachment(before, vm, runDir, id, i)
    {
    }

    method GiveUp(vm: nat, runDir: nat, i: nat) returns (ok: bool)
      requires Ready() && i < |claims| && host.locked == Some(runDir) && claims == host.claims
      modifies this`claims, host
      ensures host.Valid() && host.captured <= old(host.captured) && old(host.misreads) <= host.misreads
      ensures host.misreads > old(host.misreads) || host.Safe()
      ensures host.Safe() <==> host.claims == old(claims) || host.Released(old(claims)[i])
      ensures host.claims != old(claims) ==>
        && host.claims == old(claims)[..i] + old(claims)[i + 1..]
        && old(claims)[i].vm == vm && old(claims)[i].runDir == runDir
      ensures ok ==> old(claims)[i].vm == vm && old(claims)[i].runDir == runDir
      ensures ok ==> host.claims == old(claims)[..i] + old(claims)[i + 1..]
      ensures ok ==> host.Released(old(claims)[i]) || host.misreads > old(host.misreads)
      ensures !ok ==> host.faults > old(host.faults) || old(claims)[i].vm != vm || old(claims)[i].runDir != runDir
      ensures old(Misread([Done, Fails, Done], claims[i])) && old(claims)[i].vm == vm && old(claims)[i].runDir == runDir ==>
        ok && host.captured == old(host.captured)
    {
      hide Owned, DistinctPorts;
      var claim := claims[i];
      if claim.vm != vm || claim.runDir != runDir {
        return false;
      }
      ghost var script := host.script;
      ok := LetGo(claim);
      if !ok {
        return;
      }
      ghost var was := claims;
      claims := claims[..i] + claims[i + 1..];
      assert old(Misread([Done, Fails, Done], claims[i])) ==> host.script[0] == script[2] == Done;
      ok := host.SaveClaims(claims);
      Dropped(was, i);
    }

    /** Without a claim the others are reliable exactly if it is released. */
    lemma Dropped(was: seq<Claim>, i: nat)
      requires host.Reliable(was) && i < |was|
      ensures host.Reliable(was[..i] + was[i + 1..]) <==> host.Released(was[i])
    {
      hide Owned, DistinctPorts;
      assert was[..i] + ([was[i]] + was[i + 1..]) == was;
      if host.Released(was[i]) {
        Drop(was[i], was[..i], was[i + 1..]);
      } else {
        NotOwned(was, i);
      }
    }

    lemma RunKnown(claim: Claim)
      requires Ready() && claim in claims
      ensures claim.generation in host.instances && host.instances[claim.generation].runDir == claim.runDir
    {
    }

    /** Make sure that a claim's device is no longer captured: detach it, unless its QEMU is dead. */
    method LetGo(claim: Claim) returns (ok: bool)
      requires Ready() && claim in claims && host.locked == Some(claim.runDir)
      modifies host
      ensures Ready() && host.claims == old(host.claims) && host.captured <= old(host.captured)
      ensures old(host.faults) <= host.faults && old(host.misreads) <= host.misreads
      ensures ok ==> host.Released(claim) || host.misreads > old(host.misreads)
      ensures !ok ==> host.faults > old(host.faults)
      ensures old(Misread([Done, Fails], claim)) ==>
        ok && host.alive && host.captured == old(host.captured) && host.script == old(host.script)[2..]
    {
      hide Owned, DistinctPorts, Host.Reliable;
      RunKnown(claim);
      ghost var script := host.script;
      var known, generation := host.Generation(claim.runDir);
      host.StaysReliable(claims);
      host.StaysReliable(host.claims);
      if !known {
        return false;
      }
      ok := true;
      if generation == Some(claim.generation) {
        assert old(Misread([Done, Fails], claim)) ==> script[1..][0] == Fails;
        label asked:
        var running := host.Status(claim.runDir);
        host.StaysReliable@asked(claims);
        host.StaysReliable@asked(host.claims);
        if running {
          label runs:
          ok := DetachFromQemu(claim.runDir, claim.id);
          host.StaysReliable@runs(claims);
        } else {
          ok := host.alive;
        }
      }
    }

    /** A claim's QEMU runs, and the replies to come begin like this. */
    ghost predicate Misread(replies: seq<Reply>, claim: Claim)
      reads host
    {
      && host.alive && Begins(replies, host.script)
      && host.Runs(claim.runDir) && host.pidFiles[claim.runDir] == claim.generation
    }

    /** UnassignUSB: the VM's only assignment with a key goes, and so do the captures made for it. Returns the
        assignments that are left. A key without a serial fits every assignment of that kind. */
    method Unassign(vm: nat, runDir: nat, assignments: seq<Assignment>, key: Assignment) returns (ok: bool, remaining: seq<Assignment>)
      requires host.Valid() && host.Safe()
      modifies this`claims, host
      ensures host.Valid() && host.Safe() && host.captured <= old(host.captured)
      ensures !ok ==> host.faults > old(host.faults) || !exists k: nat :: OnlyMatch(assignments, key, k)
      ensures ok ==> exists k: nat ::
        && OnlyMatch(assignments, key, k)
        && remaining == assignments[..k] + assignments[k + 1..]
        && (forall c :: c in host.claims ==> ComesFrom(c, old(host.claims)) && !IsFor(c, vm, runDir, assignments[k]))
    {
      hide Owned, DistinctPorts;
      remaining := [];
      ghost var faults := host.faults;
      host.Lock(runDir);
      ok := Open();
      if !ok {
        return;
      }
      var k;
      ok, k, remaining := Select(assignments, key);
      if !ok {
        return;
      }
      Reconcile();
      assert forall c :: c in claims ==> ComesFrom(c, old(host.claims));
      ok := Surrender(vm, runDir, assignments[k], faults);
    }

    /** The assignment a key names, and the others; an error if it names none or several. */
    static method Select(assignments: seq<Assignment>, key: Assignment) returns (ok: bool, k: nat, remaining: seq<Assignment>)
      ensures ok ==> OnlyMatch(assignments, key, k) && remaining == assignments[..k] + assignments[k + 1..]
      ensures ok <==> exists j: nat :: OnlyMatch(assignments, key, j)
    {
      var matched := 0;
      ghost var other := 0;
      k, remaining := 0, [];
      for n := 0 to |assignments|
        invariant matched == 0 ==> remaining == assignments[..n] && forall j :: 0 <= j < n ==> !Fits(key, assignments[j])
        invariant matched == 1 ==> k < n && Fits(key, assignments[k]) && forall j :: 0 <= j < n && j != k ==> !Fits(key, assignments[j])
        invariant matched == 1 ==> remaining == assignments[..k] + assignments[k + 1..n]
        invariant matched > 1 ==> other < k < n && Fits(key, assignments[other]) && Fits(key, assignments[k])
      {
        if Fits(key, assignments[n]) {
          matched, other, k := matched + 1, k, n;
          assert assignments[n + 1..n + 1] == [];
        } else {
          remaining := remaining + [assignments[n]];
          if matched == 1 {
            OneMore(assignments, k + 1, n);
          }
        }
      }
      ok := matched == 1;
      if ok {
        assert OnlyMatch(assignments, key, k);
      } else {
        forall j: nat | j < |assignments|
          ensures !OnlyMatch(assignments, key, j)
        {
          assert matched == 0 ==> !Fits(key, assignments[j]);
        }
      }
    }

    static lemma OneMore(assignments: seq<Assignment>, from: nat, n: nat)
      requires from <= n < |assignments|
      ensures assignments[from..n] + [assignments[n]] == assignments[from..n + 1]
    {
    }

    /** Detach every device a VM holds for an assignment, and save what is left. */
    method Surrender(vm: nat, runDir: nat, assignment: Assignment, ghost faults: nat) returns (ok: bool)
      requires Ready() && host.locked == Some(runDir) && faults <= host.faults
      requires host.faults == faults ==> forall i :: 0 <= i < |claims| ==> host.Held(claims[i])
      modifies this`claims, host
      ensures host.Valid() && host.Safe() && host.captured <= old(host.captured)
      ensures !ok ==> host.faults > faults
      ensures ok ==> forall c :: c in host.claims <==> c in old(claims) && !IsFor(c, vm, runDir, assignment)
    {
      hide Owned, DistinctPorts, Host.Reliable, Host.Held, Host.Runs, Host.Valid, IsFor;
      HeldRuns(runDir);
      ghost var needed := host.Runs(runDir);
      var retained: seq<Claim> := [];
      var i := 0;
      assert retained + claims[i..] == claims;
      while i < |claims|
        invariant i <= |claims| && claims == old(claims)
        invariant faults <= old(host.faults) <= host.faults && (host.faults == faults && needed ==> host.Runs(runDir))
        invariant host.Valid() && host.Safe() && host.captured <= old(host.captured) && host.locked == Some(runDir)
        invariant host.Reliable(retained + claims[i..])
        invariant forall c :: c in retained ==> c in claims && !IsFor(c, vm, runDir, assignment)
        invariant forall k :: 0 <= k < i && !IsFor(claims[k], vm, runDir, assignment) ==> claims[k] in retained
      {
        var claim := claims[i];
        ghost var rest := claims[i + 1..];
        assert claims[i..] == [claim] + rest;
        if IsFor(claim, vm, runDir, assignment) {
          assert claim.runDir == runDir by {
            IsForDir(claim, vm, runDir, assignment);
          }
          ok := DetachClaim(claim, retained, rest);
          if !ok {
            return;
          }
        } else {
          assert (retained + [claim]) + rest == retained + ([claim] + rest);
          retained := retained + [claim];
        }
        i := i + 1;
      }
      assert retained + claims[i..] == retained;
      claims := retained;
      ok := Save();
    }

    lemma IsForDir(claim: Claim, vm: nat, runDir: nat, assignment: Assignment)
      requires IsFor(claim, vm, runDir, assignment)
      ensures claim.runDir == runDir
    {
    }

    /** Detach the device of one claim: then the others cover every capture. */
    method DetachClaim(claim: Claim, ghost before: seq<Claim>, ghost after: seq<Claim>) returns (ok: bool)
      requires host.Valid() && host.Safe() && host.Reliable(before + ([claim] + after)) && host.locked == Some(claim.runDir)
      modifies host
      ensures host.Valid() && host.Safe() && host.locked == old(host.locked) && host.captured <= old(host.captured)
      ensures old(host.faults) <= host.faults
      ensures host.faults == old(host.faults) && old(host.Runs(claim.runDir)) ==> host.Runs(claim.runDir)
      ensures ok ==> host.Reliable(before + after)
      ensures !ok ==> host.faults > old(host.faults) || !old(host.Runs(claim.runDir))
    {
      hide Owned, DistinctPorts;
      assert (before + ([claim] + after))[|before|] == claim;
      ok := DetachFromQemu(claim.runDir, claim.id);
      if ok {
        DetachedIsReleased(claim);
        Drop(claim, before, after);
      }
    }

    /** QEMU runs where a device is captured. */
    lemma HeldRuns(runDir: nat)
      requires Ready()
      ensures forall i :: 0 <= i < |claims| && host.Held(claims[i]) && claims[i].runDir == runDir ==> host.Runs(runDir)
    {
    }

    /** ListUSBDevices, ListVMUSB, checkUSBAssignments: what they do to the registry before they read it. */
    method Refresh() returns (ok: bool)
      requires host.Valid() && host.Safe()
      modifies this`claims, host
      ensures host.Valid() && host.Safe() && host.captured <= old(host.captured)
      ensures ok ==> host.claims == claims && |claims| <= |old(host.claims)|
      ensures ok ==> forall i :: 0 <= i < |claims| ==> ComesFrom(claims[i], old(host.claims)) && !claims[i].state.Attaching?
      ensures ok && host.faults == old(host.faults) ==> forall i :: 0 <= i < |claims| ==> host.Held(claims[i]) && claims[i].state.Attached?
      ensures !ok ==> host.faults > old(host.faults)
    {
      ok := Open();
      if !ok {
        return;
      }
      Reconcile();
      ok := Save();
    }

    /** A detach that gave up a claim whose device is still captured. */
    predicate Mistaken(operation: Operation, before: seq<Claim>)
      reads host
    {
      operation.Detach? && Slipped(before, operation.vm, operation.runDir, operation.id)
    }

    /** One operation; `done` are those before it. */
    method Perform(operation: Operation, ghost done: seq<Operation>) returns (ghost now: seq<Operation>)
      requires host.Valid() && host.Safe()
      modifies this`claims, host
      ensures host.Valid() && (host.misreads > old(host.misreads) || host.Safe())
      ensures host.Safe() <==> !Mistaken(operation, old(host.claims))
      ensures now == done + [operation]
    {
      now := done + [operation];
      var ok;
      match operation {
        case Attach(vm, runDir, selected, confirmed) => ok := AttachDevice(vm, runDir, selected, confirmed);
        case Detach(vm, runDir, id) => ok := DetachDevice(vm, runDir, id);
        case Unassignment(vm, runDir, assignments, key) =>
          var remaining;
          ok, remaining := Unassign(vm, runDir, assignments, key);
        case List => ok := Refresh();
      }
    }

    // ---- How claims change ----

    lemma Drop(claim: Claim, before: seq<Claim>, after: seq<Claim>)
      requires host.Reliable(before + ([claim] + after)) && host.Released(claim)
      ensures host.Reliable(before + after)
    {
      var all, less := before + ([claim] + after), before + after;
      assert forall i :: 0 <= i < |before| ==> less[i] == all[i];
      assert forall i :: |before| <= i < |less| ==> less[i] == all[i + 1];
      forall c | c in host.captured
        ensures c in Owned(less)
      {
        var i :| 0 <= i < |all| && CaptureOf(all[i]) == c;
        assert i != |before|;
        assert less[if i < |before| then i else i - 1] == all[i];
      }
    }

    lemma Restate(claim: Claim, state: State, before: seq<Claim>, after: seq<Claim>)
      requires host.Reliable(before + ([claim] + after))
      ensures host.Reliable((before + [claim.(state := state)]) + after)
    {
      var was, now := before + ([claim] + after), (before + [claim.(state := state)]) + after;
      assert forall i :: 0 <= i < |was| ==> SameClaim(was[i], now[i]);
      forall c | c in Owned(was)
        ensures c in Owned(now)
      {
        var i :| 0 <= i < |was| && CaptureOf(was[i]) == c;
        assert CaptureOf(now[i]) == c;
      }
    }
  }

  // ---- Whole runs ----

  datatype Operation =
    | Attach(vm: nat, runDir: nat, selected: Option<Device>, confirmed: bool)
    | Detach(vm: nat, runDir: nat, id: nat)
    | Unassignment(vm: nat, runDir: nat, assignments: seq<Assignment>, key: Assignment)
    | List

  /** What one engine after another does, and what happens during each operation. */
  datatype Step = Step(operation: Operation, patience: nat, script: seq<Reply>)

  /** A device is captured that has no claim. */
  ghost predicate Unclaimed(host: Host)
    reads host
  {
    exists c :: c in host.captured && c !in Owned(host.claims)
  }

  /** Every run from nothing: however commands fail, QEMU processes die and start, saves are lost or reported lost, and
      maco crashes, no USB port is ever captured twice. The one exception is a detach that takes a QEMU that runs for
      stopped and gives up the claim of a device which that QEMU then still has: exactly then the claims fail to cover
      the captures, and the run is followed no further. */
  method Run(steps: seq<Step>) returns (host: Host, performed: nat, mistaken: bool, ghost done: seq<Operation>)
    ensures fresh(host) && host.Valid() && performed == |done| <= |steps|
    ensures forall k :: 0 <= k < performed ==> done[k] == steps[k].operation
    ensures host.Safe() <==> !mistaken
    ensures !mistaken ==> performed == |steps|
    ensures !mistaken ==>
      forall a, b :: a in host.captured && b in host.captured && a.bus == b.bus && a.port == b.port ==> a == b
    ensures mistaken ==> performed > 0 && steps[performed - 1].operation.Detach? && host.misreads > 0 && Unclaimed(host)
  {
    host := new Host();
    performed, mistaken, done := 0, false, [];
    while performed < |steps|
      invariant fresh(host) && host.Valid() && performed == |done| <= |steps|
      invariant forall k :: 0 <= k < performed ==> done[k] == steps[k].operation
      invariant host.Safe() <==> !mistaken
      invariant mistaken ==> performed > 0 && steps[performed - 1].operation.Detach? && host.misreads > 0 && Unclaimed(host)
    {
      if mistaken {
        return;
      }
      var step := steps[performed];
      host.Revive(step.script);
      var before := host.claims;
      var engine := new Engine(host, step.patience);
      done := engine.Perform(step.operation, done);
      mistaken := engine.Mistaken(step.operation, before);
      performed := performed + 1;
      if mistaken {
        engine.SlippedIsUnclaimed(before, step.operation.vm, step.operation.runDir, step.operation.id);
      }
    }
    forall a, b | !mistaken && a in host.captured && b in host.captured && a.bus == b.bus && a.port == b.port
      ensures a == b
    {
      Exclusive(host.captured, host.claims, a, b);
    }
  }

  /** Such a detach there is from every state: if the device is captured, the QEMU runs and is taken for stopped, and all
      else succeeds. */
  method MisreadLosesClaim(engine: Engine, vm: nat, runDir: nat, id: nat, ghost i: nat)
    requires engine.host.Valid() && engine.host.Safe() && IsAttachment(engine.host.claims, vm, runDir, id, i)
    requires CaptureOf(engine.host.claims[i]) in engine.host.captured
    requires engine.Misread([Done, Done, Fails, Done], engine.host.claims[i])
    modifies engine`claims, engine.host
    ensures !engine.host.Safe()
  {
    ghost var was := engine.host.claims;
    var ok := engine.DetachDevice(vm, runDir, id);
    NotOwned(was, i);
  }

  lemma NotOwned(claims: seq<Claim>, i: nat)
    requires DistinctPorts(claims) && i < |claims|
    ensures CaptureOf(claims[i]) !in Owned(claims[..i] + claims[i + 1..])
  {
    var others := claims[..i] + claims[i + 1..];
    forall k | 0 <= k < |others|
      ensures CaptureOf(others[k]) != CaptureOf(claims[i])
    {
      var j := if k < i then k else k + 1;
      assert others[k] == claims[j];
      if k < i {
        assert !SamePort(claims[j].device, claims[i].device);
      } else {
        assert !SamePort(claims[i].device, claims[j].device);
      }
    }
  }
}
