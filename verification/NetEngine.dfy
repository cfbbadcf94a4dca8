/** Creating, changing and destroying networks, and whole runs of that: pkg/engine/network.go. */
module NetEngine {
  import opened NetHost
  import opened NetReconcile
  import opened NetStore
  import opened NetTeardown

  /** What a caller asks of a network; what is recorded about applying it is not among it. */
  datatype Params = Params(
    mode: Mode, uplink: Option<Name>, parent: Option<Name>, tag: int,
    address: Option<Address>, device: Option<Name>, members: seq<Name>, vlans: seq<VlanMember>)

  datatype Outcome =
    | Succeeded
    | Refused       // nothing was begun
    | RolledBack    // a creation that failed was undone, and its manifest removed
    | Retained      // the manifest is still there, to be retried or destroyed

  function NewManifest(id: nat, p: Params): (made: Manifest) {
    Manifest(id, p.mode, p.uplink, p.parent, p.tag, p.address, p.device, p.members, p.vlans, false, [], None, [])
  }

  function Stripped(vs: seq<VlanMember>): (r: seq<VlanMember>)
    ensures |r| == |vs| && forall i :: 0 <= i < |vs| ==> r[i] == VlanMember(vs[i].parent, vs[i].tag, None, false)
  {
    seq(|vs|, i requires 0 <= i < |vs| => VlanMember(vs[i].parent, vs[i].tag, None, false))
  }

  function Changed(n: Manifest, p: Params): (made: Manifest) {
    n.(address := p.address, uplink := p.uplink, parent := p.parent, tag := p.tag, members := p.members, vlans := Stripped(p.vlans))
  }

  /** What a caller asks for, in the terms a manifest keeps it. */
  function AskedFor(p: Params): (asked: Asked) {
    Asked(p.mode, p.uplink, p.parent, p.tag, p.address, p.members,
      seq(|p.vlans|, i requires 0 <= i < |p.vlans| => Tagging(p.vlans[i].parent, p.vlans[i].tag)))
  }

  /** A new manifest asks for what its creator does, on the bridge named if one is, and records nothing as maco's. */
  lemma NewAsks(id: nat, p: Params)
    ensures var n := NewManifest(id, p); n.id == id && AskedOf(n) == AskedFor(p) && n.device == p.device && StakeOf(n).own == {}
    ensures var s := StakeOf(NewManifest(id, p)); s.members == {} && s.address.None?
  {
    assert OwnVlans([]) == {};
    assert AskedOf(NewManifest(id, p)).keys == AskedFor(p).keys;
  }

  /** A changed manifest asks for what the change does, and records what it did. */
  lemma ChangedAsks(n: Manifest, p: Params)
    requires p.mode == n.mode
    ensures AskedOf(Changed(n, p)) == AskedFor(p) && StakeOf(Changed(n, p)) == StakeOf(n) && Changed(n, p).id == n.id
  {
    assert AskedOf(Changed(n, p)).keys == AskedFor(p).keys;
  }

  /** Whether another network has a device on its bridge, or lists it. */
  predicate UsedByOther(store: map<nat, Manifest>, id: nat, device: Name): (used: bool)
    ensures used <==> exists other ::
      other in store && other != id && (device in AskedOf(store[other]).members || device in StakeOf(store[other]).members)
  {
    exists other :: other in store && other != id && (device in store[other].members || device in store[other].appliedMembers)
  }

  /** What a network's Ensure comes to when it succeeds. */
  ghost predicate Brought(was: Manifest, a: Net, n: Manifest, c: Net) {
    && (was.mode.BridgeMode? ==> Applied(was, a, n, c))
    && (was.mode.VlanMode? ==> VlanApplied(was, a, n, c))
    && (was.mode.UplinkMode? ==> was.uplink.Some? && was.uplink.value in a.devices && c == a && n == was)
    && (was.mode.PlainMode? ==> c == a && n == was)
  }

  /** Why a network's Ensure may fail although every command succeeds. */
  ghost predicate Blocked(n: Manifest, a: Net, c: Net) {
    || (n.mode.BridgeMode? && Obstacle(n, a, c))
    || (n.mode.VlanMode? && VlanObstacle(n, a))
    || (n.mode.UplinkMode? && !(n.uplink.Some? && n.uplink.value in a.devices))
  }

  /** How bringing a new network up failed: the host as it was then, the manifest in the store, and how many commands had
      failed. */
  datatype Failure = Failure(seen: Net, recorded: Manifest, faults: nat) {
    /** It is that of a network whose creation was begun on a host `a` and has left a host `c`: nothing of `a` is gone, what
        is recorded as made for the network is new, and undoing it took nothing but what is recorded. */
    ghost predicate Of(n: Manifest, a: Net, c: Net) {
      && Preserves(a, seen) && Keeps(StakeOf(recorded), seen, c)
      && recorded.id == n.id && AskedOf(recorded) == AskedOf(n)
      && StakeOf(recorded).own !! a.devices
    }
  }

  /** Networks have been applied one after the other: each one's Ensure brought it, on the host that the one before left. */
  ghost predicate AllBrought(before: map<nat, Manifest>, ids: seq<nat>, hosts: seq<Net>, after: map<nat, Manifest>) {
    && |hosts| == |ids| + 1
    && forall i :: 0 <= i < |ids| ==>
      ids[i] in before && ids[i] in after && Brought(before[ids[i]], hosts[i], after[ids[i]], hosts[i + 1])
  }

  class Engine {
    const host: Host

    constructor (host: Host)
      ensures this.host == host
    {
      this.host := host;
    }

    /** ensureNetwork for a manifest as it was just saved or loaded. */
    method EnsureSaved(n: Manifest) returns (ok: bool, after: Manifest)
      requires host.Ready() && host.Working(n.id) && host.applying.None? && Checked(n) && n.id in host.store && host.store[n.id] == n
      modifies host
      ensures host.Grows() && Keeps(StakeOf(n), old(host.net), host.net)
      ensures n.id in host.store && AskedOf(host.store[n.id]) == AskedOf(n) && SameOthers(old(host.store), host.store, n.id)
      ensures ok ==> after.id == n.id && n.id in host.store && host.store[n.id] == after && Brought(n, old(host.net), after, host.net)
      ensures !ok ==> host.faults > old(host.faults) || Blocked(n, old(host.net), host.net)
      ensures host.Calm() && !Gone(n, old(host.net)) ==> host.net.devices <= old(host.net).devices + StakeOf(host.store[n.id]).own
      ensures n.mode.VlanMode? ==> host.store[n.id].appliedVlans == n.appliedVlans
      ensures !n.mode.BridgeMode? && !n.mode.VlanMode? ==> host.net == old(host.net)
    {
      hide Host.Ready, Applied, VlanApplied, Keeps, Checked, Host.Owns, AskedOf, SameOthers, Gone, StakeOf;
      var r := new Reconciler(host, n);
      host.BeginApplying(n.id);
      ok := r.Ensure();
      after := r.n;
      host.EndApplying();
    }

    /** CreateNetwork: save the manifest, bring the host to it, and undo both if that fails. Whatever fails, and wherever
        maco crashes, everything that was on the host before is still there. */
    method CreateNetwork(id: nat, p: Params) returns (outcome: Outcome, ghost failure: Failure)
      requires host.Ready() && host.Idle() && id !in host.store
      modifies host
      ensures host.Grows()
      ensures Preserves(old(host.net), host.net)
      ensures outcome.Succeeded? ==> id in host.store && Brought(NewManifest(id, p), old(host.net), host.store[id], host.net)
      ensures outcome.Succeeded? ==> AskedOf(host.store[id]) == AskedFor(p)
      ensures outcome.Refused? && host.lost == old(host.lost) ==> host.store == old(host.store)
      ensures outcome.RolledBack? || outcome.Retained? ==>
        && failure.Of(NewManifest(id, p), old(host.net), host.net)
        && (failure.faults > old(host.faults) || Blocked(NewManifest(id, p), old(host.net), failure.seen))
      ensures outcome.RolledBack? ==> id !in host.store && Released(failure.recorded, failure.seen, host.net)
      // After one failed command, and without effect, undoing leaves the very interfaces that were there.
      ensures outcome.RolledBack? && failure.faults <= old(host.faults) + 1 && host.lost == old(host.lost) ==>
        Gone(NewManifest(id, p), old(host.net)) || host.net.devices == old(host.net).devices
      ensures outcome.Retained? ==>
        && (id in host.store ==> host.store[id] == failure.recorded)
        && (host.faults > failure.faults || Untouchable(failure.recorded, failure.seen))
      ensures SameOthers(old(host.store), host.store, id)
      ensures outcome.Refused? ==> host.net == old(host.net) && (host.store == old(host.store) || host.store.Keys == old(host.store).Keys + {id})
      ensures !Checked(NewManifest(id, p)) ==> outcome.Refused? && host.store == old(host.store)
      ensures outcome.Refused? ==> host.faults > old(host.faults) || !Checked(NewManifest(id, p))
    {
      hide Brought, Blocked, Released, Untouchable, Failure.Of, Host.Owns, SameOthers, AskedFor, AskedOf;
      OthersSame(host.store, id);
      failure := Failure(host.net, NewManifest(id, p), host.faults);
      if (!p.mode.UplinkMode? && p.uplink.Some?) || (p.mode.UplinkMode? && p.uplink.None?) {
        return Refused, failure;
      }
      if p.mode.VlanMode? && (p.parent.None? || !TagInRange(p.tag)) {
        return Refused, failure;
      }
      var n := NewManifest(id, p);
      var valid := Check(n);
      if !valid {
        return Refused, failure;
      }
      host.Begin(id);
      NewAsks(id, p);
      NothingRecorded(n);
      outcome, failure := CreateChecked(n);
      assert host.Unharmed();
      host.End();
    }

    lemma NothingRecorded(n: Manifest)
      requires host.applying.None? && !n.owned && n.appliedVlans == [] && n.appliedMembers == [] && n.appliedAddress.None?
      ensures host.Owns(n)
    {
    }

    /** The rest of CreateNetwork, for a manifest that passes the check. */
    method CreateChecked(n: Manifest) returns (outcome: Outcome, ghost failure: Failure)
      requires host.Ready() && host.creating == Some(Creation(n.id, host.net)) && host.applying.None? && Checked(n) && host.Owns(n)
      requires n.appliedVlans == []
      modifies host
      ensures host.Grows()
      ensures outcome.Succeeded? ==>
        n.id in host.store && Brought(n, old(host.net), host.store[n.id], host.net) && AskedOf(host.store[n.id]) == AskedOf(n)
      ensures outcome.Refused? && host.lost == old(host.lost) ==> host.store == old(host.store)
      ensures outcome.RolledBack? || outcome.Retained? ==>
        && failure.Of(n, old(host.net), host.net)
        && (failure.faults > old(host.faults) || Blocked(n, old(host.net), failure.seen))
      ensures outcome.RolledBack? ==> n.id !in host.store && Released(failure.recorded, failure.seen, host.net)
      ensures outcome.RolledBack? && failure.faults <= old(host.faults) + 1 && host.lost == old(host.lost) && !Gone(n, old(host.net)) ==>
        host.net.devices <= old(host.net).devices
      ensures outcome.Retained? ==>
        && (n.id in host.store ==> host.store[n.id] == failure.recorded)
        && (host.faults > failure.faults || Untouchable(failure.recorded, failure.seen))
      ensures SameOthers(old(host.store), host.store, n.id)
      ensures outcome.Refused? ==>
        && host.net == old(host.net) && host.faults > old(host.faults)
        && (host.store == old(host.store) || host.store == old(host.store)[n.id := n])
    {
      hide Brought, Applied, VlanApplied, Keeps, Checked, Host.Owns, Blocked, Released, Untouchable, AskedOf, SameOthers;
      failure := Failure(host.net, n, host.faults);
      OthersSame(host.store, n.id);
      OthersKeptBySave(host.store, host.store, n);
      var ok := host.Save(n);
      if !ok {
        return Refused, failure;
      }
      var after;
      ghost var saved := host.store;
      ok, after := EnsureSaved(n);
      OthersTwice(old(host.store), saved, host.store, n.id);
      if ok {
        return Succeeded, failure;
      }
      ghost var applied := host.store;
      Recorded(n.id);
      failure := Failure(host.net, host.store[n.id], host.faults);
      outcome := RollBack(n.id);
      OthersTwice(old(host.store), applied, host.store, n.id);
      if outcome.RolledBack? {
        AllUndone(n, failure.recorded, old(host.net), failure.seen, host.net);
      }
    }

    /** Interfaces that were made and recorded are gone once the network is taken down. */
    lemma AllUndone(n: Manifest, recorded: Manifest, a: Net, seen: Net, c: Net)
      requires Released(recorded, seen, c) && c.devices <= seen.devices && AskedOf(recorded) == AskedOf(n)
      requires n.mode.VlanMode? ==> recorded.appliedVlans == n.appliedVlans
      requires n.appliedVlans == [] && (!n.mode.BridgeMode? && !n.mode.VlanMode? ==> seen == a)
      ensures seen.devices <= a.devices + StakeOf(recorded).own ==> c.devices <= a.devices
    {
    }

    /** What is recorded of a network that is being created. */
    lemma Recorded(id: nat)
      requires host.Ready() && id in host.store && host.creating.Some? && host.creating.value.id == id
      ensures host.store[id].id == id
      ensures Preserves(host.creating.value.before, host.net)
      ensures StakeOf(host.store[id]).own !! host.creating.value.before.devices
    {
      assert host.Owns(host.store[id]);
    }

    /** What CreateNetwork does when the network could not be brought up. */
    method RollBack(id: nat) returns (outcome: Outcome)
      requires host.Ready() && host.Working(id) && host.applying.None?
      modifies host
      ensures host.Grows()
      ensures outcome.RolledBack? || outcome.Retained?
      ensures host.net.devices <= old(host.net).devices
      ensures outcome.RolledBack? ==>
        old(id in host.store) && id !in host.store && Released(old(host.store[id]), old(host.net), host.net)
      ensures outcome.Retained? ==>
        host.faults > old(host.faults) || old(id !in host.store) || Untouchable(old(host.store[id]), old(host.net))
      ensures id in host.store ==> SameEntry(old(host.store), host.store, id)
      ensures old(id in host.store) ==> Keeps(StakeOf(old(host.store[id])), old(host.net), host.net)
      ensures SameOthers(old(host.store), host.store, id)
    {
      hide Checked, Host.Owns, Released, Keeps;
      if id in host.store {
        KeepsItself(StakeOf(host.store[id]), host.net);
      }
      var ok, current := host.Load(id);
      if !ok || current.None? {
        return Retained;
      }
      ok := TakeDown(current.value);
      if !ok {
        return Retained;
      }
      ok := host.Delete(id);
      outcome := if ok then RolledBack else Retained;
    }

    /** Destroy in pkg/network/reconcile.go, for a network of any mode. */
    method TakeDown(n: Manifest) returns (ok: bool)
      requires host.Ready() && host.Working(n.id) && Checked(n) && host.Owns(n)
      modifies host`net, host`destroyed, host`faults, host`lost, host`alive, host`script
      ensures host.Grows()
      ensures Keeps(StakeOf(n), old(host.net), host.net)
      ensures ok ==> Released(n, old(host.net), host.net)
      ensures host.net.devices <= old(host.net).devices
      ensures !ok ==> host.faults > old(host.faults) || (n.mode.BridgeMode? && Untouchable(n, old(host.net)))
    {
      KeepsItself(StakeOf(n), host.net);
      if n.mode.VlanMode? {
        ok := DestroyVlan(host, n);
        if host.net != old(host.net) {
          KeepsWithout(StakeOf(n), old(host.net), n.device.value);
        }
      } else if n.mode.BridgeMode? {
        var refused;
        ok, refused := DestroyBridge(host, n);
      } else {
        ok := true;
      }
    }

    /** UpdateNetwork: save what was asked for and apply it. A VLAN that is not maco's, or that a bridge uses, is not
        changed. `inUse` says that a running VM uses the network. */
    method UpdateNetwork(id: nat, p: Params, inUse: bool) returns (outcome: Outcome)
      requires host.Ready() && host.Idle()
      modifies host
      ensures host.Grows()
      ensures outcome.Refused? ==> host.net == old(host.net)
      ensures !outcome.Refused? ==>
        && old(id in host.store) && !inUse && p.mode == old(host.store[id]).mode
        && Checked(Changed(old(host.store[id]), p))
        && Keeps(StakeOf(old(host.store[id])), old(host.net), host.net)
      // Whatever comes of it, an update that was begun was saved, and is not forgotten.
      ensures !outcome.Refused? ==> id in host.store && AskedOf(host.store[id]) == AskedFor(p)
      ensures outcome.Refused? && host.lost == old(host.lost) ==> host.store == old(host.store)
      ensures SameOthers(old(host.store), host.store, id)
      ensures outcome.Refused? && host.store != old(host.store) ==>
        old(id in host.store) && host.store == old(host.store)[id := Changed(old(host.store[id]), p)]
      ensures outcome.Succeeded? || outcome.Refused? || outcome.Retained?
      ensures outcome.Retained? ==>
        host.faults > old(host.faults) || Blocked(Changed(old(host.store[id]), p), old(host.net), host.net)
      // If one command fails, and without effect, every interface made is recorded.
      ensures !outcome.Refused? && host.Calm() && !Gone(Changed(old(host.store[id]), p), old(host.net)) ==>
        host.net.devices <= old(host.net).devices + StakeOf(host.store[id]).own
      ensures !outcome.Refused? && p.mode.VlanMode? && Retags(old(host.store[id]), p) ==>
        old(host.store[id]).owned && !UsedByOther(old(host.store), id, old(host.store[id]).device.value)
      ensures outcome.Succeeded? ==> id in host.store && Brought(Changed(old(host.store[id]), p), old(host.net), host.store[id], host.net)
      ensures outcome.Refused? ==>
        || host.faults > old(host.faults) || old(id !in host.store) || inUse
        || NotAllowed(old(host.store), id, p) || !Checked(Changed(old(host.store[id]), p))
    {
      hide Brought, Applied, VlanApplied, Keeps, Checked, Host.Owns, Blocked, AskedOf, AskedFor, SameOthers, Host.Ready;
      OthersSame(host.store, id);
      var ok, loaded := host.Load(id);
      if !ok || loaded.None? {
        return Refused;
      }
      StoredUnderId(host, id);
      var n := loaded.value;
      if p.mode != n.mode || (p.device.Some? && p.device != n.device) || inUse {
        return Refused;
      }
      if n.mode.VlanMode? && Retags(n, p) {
        if !n.owned {
          return Refused;
        }
        if UsedByOther(host.store, id, n.device.value) {
          return Refused;
        }
      }
      var changed := Changed(n, p);
      ok := Check(changed);
      if !ok {
        return Refused;
      }
      ChangedAsks(n, p);
      outcome := SaveAndApply(n, p);
    }

    /** The rest of UpdateNetwork, for an update that is allowed. */
    method SaveAndApply(n: Manifest, p: Params) returns (outcome: Outcome)
      requires host.Ready() && host.Idle() && n.id in host.store && host.store[n.id] == n && Checked(Changed(n, p))
      modifies host
      ensures host.Grows() && Keeps(StakeOf(n), old(host.net), host.net) && SameOthers(old(host.store), host.store, n.id)
      ensures outcome.Succeeded? || outcome.Refused? || outcome.Retained?
      ensures outcome.Refused? ==>
        && host.net == old(host.net) && host.faults > old(host.faults)
        && (host.store == old(host.store) || host.store == old(host.store)[n.id := Changed(n, p)])
      ensures !outcome.Refused? ==> n.id in host.store && AskedOf(host.store[n.id]) == AskedOf(Changed(n, p))
      ensures outcome.Refused? && host.lost == old(host.lost) ==> host.store == old(host.store)
      ensures outcome.Succeeded? ==> Brought(Changed(n, p), old(host.net), host.store[n.id], host.net)
      ensures outcome.Retained? ==> host.faults > old(host.faults) || Blocked(Changed(n, p), old(host.net), host.net)
      ensures !outcome.Refused? && host.Calm() && !Gone(Changed(n, p), old(host.net)) ==>
        host.net.devices <= old(host.net).devices + StakeOf(host.store[n.id]).own
    {
      hide Brought, Applied, VlanApplied, Keeps, Checked, Host.Owns, Blocked, AskedOf, SameOthers, Host.Filed,
        Host.Unharmed, Host.Valid, Changed, StakeOf, Gone;
      var changed := Changed(n, p);
      KeepsItself(StakeOf(n), host.net);
      StillOwns(host, n, p);
      OthersSame(host.store, n.id);
      OthersKeptBySave(host.store, host.store, changed);
      var ok := host.Save(changed);
      if !ok {
        return Refused;
      }
      var after;
      ghost var saved := host.store;
      ok, after := EnsureSaved(changed);
      OthersTwice(old(host.store), saved, host.store, n.id);
      outcome := if ok then Succeeded else Retained;
    }

    /** DestroyNetwork: take the network down and forget it, unless a running VM or a bridge uses it. */
    method DestroyNetwork(id: nat, inUse: bool) returns (ok: bool)
      requires host.Ready() && host.Idle()
      modifies host
      ensures host.Grows()
      ensures inUse || old(id !in host.store) ==> !ok && host.net == old(host.net) && host.store == old(host.store)
      ensures old(id in host.store) ==> Keeps(StakeOf(old(host.store[id])), old(host.net), host.net)
      ensures ok ==> host.store == old(host.store) - {id} && Released(old(host.store[id]), old(host.net), host.net)
      ensures ok && old(host.store[id]).mode.VlanMode? && old(host.store[id]).device.Some? ==>
        !UsedByOther(old(host.store), id, old(host.store[id]).device.value)
      ensures host.store == old(host.store) || host.store == old(host.store) - {id}
      ensures !ok && host.lost == old(host.lost) ==> host.store == old(host.store)
      ensures !ok ==>
        || host.faults > old(host.faults) || old(id !in host.store) || inUse
        || (old(host.store[id]).device.Some? && UsedByOther(old(host.store), id, old(host.store[id]).device.value))
        || Untouchable(old(host.store[id]), old(host.net))
    {
      hide Keeps, Checked, Host.Owns, Released;
      if id in host.store {
        KeepsItself(StakeOf(host.store[id]), host.net);
      }
      var loaded;
      ok, loaded := host.Load(id);
      if !ok || loaded.None? || inUse {
        return false;
      }
      var n := loaded.value;
      if n.mode.VlanMode? && n.device.Some? {
        if UsedByOther(host.store, id, n.device.value) {
          return false;
        }
      }
      ok := TakeDown(n);
      if !ok {
        return;
      }
      ok := host.Delete(id);
    }

    /** Reconcile: bring the host to every manifest in turn, each of which the store lists once, until one fails. Success
        means that each was brought. It fails for a fault, because a manifest is gone, or because the network it stopped at
        is blocked. */
    method Reconcile(ids: seq<nat>) returns (ok: bool, ghost hosts: seq<Net>)
      requires host.Ready() && host.Idle() && NoDuplicates(ids)
      modifies host
      ensures host.Grows()
      ensures ok ==> AllBrought(old(host.store), ids, hosts, host.store) && hosts[0] == old(host.net) && hosts[|ids|] == host.net
      ensures !ok ==> 0 < |hosts| <= |ids| && hosts[0] == old(host.net) && var i := |hosts| - 1;
        && AllBrought(old(host.store), ids[..i], hosts, host.store)
        && (host.faults > old(host.faults) || ids[i] !in old(host.store)
          || Blocked(old(host.store)[ids[i]], hosts[i], host.net))
        && (ids[i] in old(host.store) ==> Keeps(StakeOf(old(host.store)[ids[i]]), hosts[i], host.net))
      ensures forall other :: other !in ids ==> SameEntry(old(host.store), host.store, other)
    {
      hide Brought, Applied, VlanApplied, Keeps, Checked, Host.Owns, Blocked, AskedOf, StakeOf;
      ok, hosts := true, [host.net];
      for i := 0 to |ids|
        invariant host.Grows() && ok
        invariant |hosts| == i + 1 && hosts[0] == old(host.net) && hosts[i] == host.net
        invariant AllBrought(old(host.store), ids[..i], hosts, host.store)
        invariant forall other :: other !in ids[..i] ==> SameEntry(old(host.store), host.store, other)
      {
        assert ids[i] !in ids[..i] && ids[..i + 1] == ids[..i] + [ids[i]];
        assert SameEntry(old(host.store), host.store, ids[i]);
        if ids[i] in host.store {
          KeepsItself(StakeOf(host.store[ids[i]]), host.net);
        }
        var loaded;
        ok, loaded := host.Load(ids[i]);
        if !ok || loaded.None? {
          return false, hosts;
        }
        ghost var store := host.store;
        var after;
        ok, after := EnsureSaved(loaded.value);
        StillBrought(old(host.store), ids, i, hosts, store, host.store);
        if !ok {
          return;
        }
        hosts := hosts + [host.net];
      }
      assert ids[..|ids|] == ids;
    }

    lemma StillBrought(before: map<nat, Manifest>, ids: seq<nat>, i: nat, hosts: seq<Net>, store: map<nat, Manifest>,
                       after: map<nat, Manifest>)
      requires i < |ids| && NoDuplicates(ids) && AllBrought(before, ids[..i], hosts, store) && SameOthers(store, after, ids[i])
      requires forall other :: other !in ids[..i] ==> SameEntry(before, store, other)
      ensures AllBrought(before, ids[..i], hosts, after)
      ensures forall other :: other !in ids[..i + 1] ==> SameEntry(before, after, other)
    {
      hide Brought;
      assert ids[..i + 1] == ids[..i] + [ids[i]];
      forall k | 0 <= k < i
        ensures SameEntry(store, after, ids[..i][k])
      {
      }
      forall other | other !in ids[..i + 1]
        ensures SameEntry(before, after, other)
      {
        assert SameEntry(before, store, other) && SameEntry(store, after, other);
      }
    }

    /** One operation; `done` are those before it. */
    method Perform(operation: Operation, ghost done: seq<Operation>) returns (ghost now: seq<Operation>)
      requires host.Ready() && host.Idle()
      modifies host
      ensures host.Ready() && host.Idle() && now == done + [operation]
    {
      now := done + [operation];
      match operation {
        case Create(id, p) =>
          if id !in host.store {
            var outcome;
            ghost var failure;
            outcome, failure := CreateNetwork(id, p);
          }
        case Update(id, p, inUse) =>
          var outcome := UpdateNetwork(id, p, inUse);
        case Destruction(id, inUse) => var ok := DestroyNetwork(id, inUse);
        case Apply(ids) =>
          if !NoDuplicates(ids) {
            return;
          }
          var ok;
          ghost var hosts;
          ok, hosts := Reconcile(ids);
      }
    }
  }

  /** A bridge that maco refuses to take down. */
  ghost predicate Untouchable(n: Manifest, a: Net) {
    Occupied(n, a) || !NoDuplicates(n.appliedMembers)
  }

  /** An update that would change what must not change. */
  predicate NotAllowed(store: map<nat, Manifest>, id: nat, p: Params)
    requires id in store
  {
    || p.mode != store[id].mode
    || (p.device.Some? && p.device != store[id].device)
    || (p.mode.VlanMode? && Retags(store[id], p) && (!store[id].owned || UsedByOther(store, id, store[id].device.value)))
  }

  /** Whether an update gives a VLAN interface another parent or tag. */
  predicate Retags(n: Manifest, p: Params) {
    n.device.Some? && (n.parent != p.parent || n.tag != p.tag)
  }

  /** A network that was taken down no longer has anything on the host. */
  ghost predicate Released(n: Manifest, a: Net, c: Net) {
    && (n.mode.BridgeMode? ==> TakenDown(n, a, c))
    && (n.mode.VlanMode? && n.owned && n.device.Some? ==> n.device.value !in c.devices)
    && (!n.mode.BridgeMode? && !n.mode.VlanMode? ==> c == a)
  }

  lemma StoredUnderId(host: Host, id: nat)
    requires host.Ready() && id in host.store
    ensures host.store[id].id == id
  {
  }

  lemma OthersSame(store: map<nat, Manifest>, id: nat)
    ensures SameOthers(store, store, id)
  {
  }

  lemma KeepsWithout(s: Stake, a: Net, d: Name)
    requires d in s.own
    ensures Keeps(s, a, a.Without(d))
  {
  }

  lemma StillOwns(host: Host, n: Manifest, p: Params)
    requires host.Ready() && n.id in host.store && host.store[n.id] == n && host.applying.None?
    ensures host.Owns(Changed(n, p)) && StakeOf(Changed(n, p)) == StakeOf(n) && Changed(n, p).id == n.id
  {
  }

  // ---- Whole runs ----

  datatype Operation =
    | Create(id: nat, params: Params)
    | Update(id: nat, params: Params, inUse: bool)
    | Destruction(id: nat, inUse: bool)
    | Apply(ids: seq<nat>)

  /** An operation and how its commands end; before it, other programs turn the host's interfaces into `seen`, and the
      host takes `names` for the interfaces it makes. */
  datatype Step = Step(seen: Net, next: nat, names: seq<nat>, operation: Operation, script: seq<Reply>)

  /** Every run: whatever other programs do in between, however commands and saves fail, and wherever maco crashes, it
      only ever asks for the destruction of devices made for the network at hand. */
  method Run(net: Net, next: nat, steps: seq<Step>) returns (host: Host, ghost done: seq<Operation>)
    requires net.Valid() && forall d :: d in net.devices ==> d.number < next
    ensures fresh(host) && host.Ready()
    ensures |done| == |steps| && forall k :: 0 <= k < |steps| ==> done[k] == steps[k].operation
    ensures forall r :: r in host.destroyed ==> host.Created(r.device, r.network)
  {
    hide Host.Ready;
    host := new Host(net, next);
    done := [];
    for i := 0 to |steps|
      invariant fresh(host) && host.Ready() && host.Idle()
      invariant |done| == i && forall k :: 0 <= k < i ==> done[k] == steps[k].operation
    {
      if host.MayBecome(steps[i].seen, steps[i].next) {
        host.Become(steps[i].seen, steps[i].next);
      }
      host.Choose(steps[i].names);
      host.Revive(steps[i].script);
      var engine := new Engine(host);
      done := engine.Perform(steps[i].operation, done);
    }
    AllMade(host);
  }

  lemma AllMade(host: Host)
    requires host.Ready()
    ensures forall r :: r in host.destroyed ==> host.Created(r.device, r.network)
  {
  }
}
