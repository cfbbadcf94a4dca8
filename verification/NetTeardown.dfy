/** Taking a network down, and how that undoes bringing it up: Destroy in pkg/network/reconcile.go. */
module NetTeardown {
  import opened NetHost
  import opened NetReconcile

  /** A bridge that must not be taken down: a VM is on it, or, on maco's own bridge, anything maco did not put there. */
  ghost predicate Occupied(n: Manifest, net: Net) {
    && n.device.Some? && n.device.value in net.devices
    && exists m :: m in net.Members(n.device.value) && m !in n.appliedMembers && (n.owned || m.kind.Feth?)
  }

  /** What taking a bridge network down comes to. */
  ghost predicate TakenDown(n: Manifest, a: Net, c: Net) {
    var own := OwnVlans(n.appliedVlans);
    && c.devices == a.devices - own - (if n.owned && n.device.Some? then {n.device.value} else {})
    && (forall m :: c.BridgeOf(m) == if m in own || OffBridge(n, a, m) then None else a.BridgeOf(m))
    && (forall d :: c.TaggingOf(d) == if d in own then None else a.TaggingOf(d))
    && (forall x :: x in c.addresses <==> x in a.addresses && x.device !in own && !AddressGone(n, x))
  }

  ghost predicate OffBridge(n: Manifest, a: Net, m: Name) {
    && n.device.Some?
    && ((n.owned && n.device == Some(m)) || (a.BridgeOf(m) == n.device && (n.owned || m in n.appliedMembers)))
  }

  ghost predicate AddressGone(n: Manifest, x: Assigned) {
    n.device == Some(x.device) && (n.owned || n.appliedAddress == Some(x.address))
  }

  /** Destroy for a network that is a VLAN interface. */
  method DestroyVlan(host: Host, n: Manifest) returns (ok: bool)
    requires host.Ready() && Checked(n) && host.Owns(n) && host.Working(n.id) && n.mode.VlanMode?
    modifies host`net, host`destroyed, host`faults, host`lost, host`alive, host`script
    ensures host.Grows()
    ensures host.net == old(host.net) || (n.owned && n.device.Some? && host.net == old(host.net).Without(n.device.value))
    ensures ok && n.owned && n.device.Some? ==> n.device.value !in host.net.devices
    ensures !ok ==> host.faults > old(host.faults)
  {
    ok := true;
    if n.owned && n.device.Some? && n.device.value in host.net.devices {
      ok := host.Destroy(n.device.value, n.id);
    }
  }

  /** Destroy for a bridge network. */
  method DestroyBridge(host: Host, n: Manifest) returns (ok: bool, refused: bool)
    requires host.Ready() && Checked(n) && host.Owns(n) && host.Working(n.id) && n.mode.BridgeMode?
    modifies host`net, host`destroyed, host`faults, host`lost, host`alive, host`script
    ensures host.Grows()
    ensures Keeps(StakeOf(n), old(host.net), host.net) && host.net.devices <= old(host.net.devices)
    ensures refused ==> !ok && Occupied(n, old(host.net)) && host.net == old(host.net)
    ensures Occupied(n, old(host.net)) ==> !ok && host.net == old(host.net) && (refused || host.faults > old(host.faults))
    ensures ok ==> TakenDown(n, old(host.net), host.net)
    ensures !ok ==> host.faults > old(host.faults) || Occupied(n, old(host.net)) || !NoDuplicates(n.appliedMembers)
  {
    hide Checked, Host.Owns, Host.Working, BridgeGone, TakenDown, Keeps, Host.Ready;
    host.InOrder();
    refused := false;
    if n.device.Some? && n.device.value in host.net.devices {
      ok, refused := EmptyBridge(host, n);
      OthersKept(n, old(host.net), host.net, {});
      if !ok {
        return;
      }
    }
    ghost var emptied := host.net;
    ghost var dropped;
    ok, dropped := DestroyVlans(host, n);
    OthersKept(n, old(host.net), emptied, dropped);
    if !ok {
      return;
    }
    ghost var bare := host.net;
    ok := DestroyRest(host, n);
    RestKept(n, old(host.net), bare, host.net);
    if ok {
      Composed(n, old(host.net), emptied, bare, host.net);
    }
  }

  /** The end of Destroy: the address maco gave a borrowed bridge, or the whole bridge if it is maco's. */
  method DestroyRest(host: Host, n: Manifest) returns (ok: bool)
    requires n.mode.BridgeMode? && host.Ready() && Checked(n) && host.Owns(n) && host.Working(n.id)
    modifies host`net, host`destroyed, host`faults, host`lost, host`alive, host`script
    ensures host.Grows()
    ensures host.net == old(host.net) || BridgeGone(n, old(host.net), host.net)
    ensures ok ==> BridgeGone(n, old(host.net), host.net)
    ensures !ok ==> host.faults > old(host.faults)
  {
    assert n.owned && n.device.Some? ==> host.Mine(n.device.value, n.id);
    NothingLeft(n, host.net);
    if n.device.Some? {
      host.OwnsParts(n);
    }
    hide Host.Owns, Host.MayUnaddress, Checked, Host.Mine, BridgeGone;
    ok := true;
    if !n.owned && n.appliedAddress.Some? && n.device.Some? && n.device.value in host.net.devices {
      ok := host.RemoveAddress(n.device.value, n.appliedAddress.value);
    } else if n.owned && n.device.Some? && n.device.value in host.net.devices {
      ok := host.Destroy(n.device.value, n.id);
    }
  }

  lemma NothingLeft(n: Manifest, a: Net)
    requires a.Valid()
    ensures n.owned && n.device.Some? ==> BridgeGone(n, a, a.Without(n.device.value))
    ensures !n.owned && n.device.Some? && n.appliedAddress.Some? ==>
      BridgeGone(n, a, a.Unaddressed(n.device.value, n.appliedAddress.value))
    ensures n.device.None? || n.device.value !in a.devices || (!n.owned && n.appliedAddress.None?) ==> BridgeGone(n, a, a)
  {
  }

  ghost predicate BridgeGone(n: Manifest, a: Net, c: Net) {
    && c.devices == a.devices - (if n.owned && n.device.Some? then {n.device.value} else {})
    && (forall m :: c.BridgeOf(m) == if n.owned && (a.BridgeOf(m) == n.device || n.device == Some(m)) then None else a.BridgeOf(m))
    && (forall d :: c.TaggingOf(d) == if n.owned && n.device == Some(d) then None else a.TaggingOf(d))
    && (forall x :: x in c.addresses <==> x in a.addresses && !AddressGone(n, x))
  }

  lemma OthersKept(n: Manifest, a: Net, e: Net, dropped: set<Name>)
    requires a.Valid() && e == a.(bridges := e.bridges) && dropped <= OwnVlans(n.appliedVlans)
    requires forall m :: e.BridgeOf(m) == a.BridgeOf(m) || (n.device.Some? && m in n.appliedMembers && a.BridgeOf(m) == n.device)
    ensures Keeps(StakeOf(n), a, e) && Keeps(StakeOf(n), a, e.WithoutAll(dropped))
  {
  }

  lemma RestKept(n: Manifest, a: Net, e: Net, c: Net)
    requires Keeps(StakeOf(n), a, e) && (c == e || BridgeGone(n, e, c))
    ensures Keeps(StakeOf(n), a, c) && c.devices <= e.devices
  {
  }

  lemma DeviceNotOwnVlan(n: Manifest)
    requires Checked(n) && n.mode.BridgeMode?
    ensures forall x :: x in OwnVlans(n.appliedVlans) ==> x.kind.Vlan? && Some(x) != n.device
  {
  }

  lemma Composed(n: Manifest, a: Net, e: Net, d: Net, c: Net)
    requires a.Valid() && Checked(n) && n.mode.BridgeMode? && e == a.(bridges := e.bridges)
    requires forall m :: e.BridgeOf(m) == a.BridgeOf(m) || (n.device.Some? && m in n.appliedMembers && a.BridgeOf(m) == n.device)
    requires forall m :: m in n.appliedMembers && n.device.Some? && a.BridgeOf(m) == n.device ==> e.BridgeOf(m).None?
    requires d == e.WithoutAll(OwnVlans(n.appliedVlans)) && BridgeGone(n, d, c)
    ensures TakenDown(n, a, c)
  {
    DeviceNotOwnVlan(n);
    ComposedMembers(n, a, e, d, c);
  }

  lemma ComposedMembers(n: Manifest, a: Net, e: Net, d: Net, c: Net)
    requires a.Valid() && e == a.(bridges := e.bridges) && forall x :: x in OwnVlans(n.appliedVlans) ==> x.kind.Vlan? && Some(x) != n.device
    requires forall m :: e.BridgeOf(m) == a.BridgeOf(m) || (n.device.Some? && m in n.appliedMembers && a.BridgeOf(m) == n.device)
    requires forall m :: m in n.appliedMembers && n.device.Some? && a.BridgeOf(m) == n.device ==> e.BridgeOf(m).None?
    requires d == e.WithoutAll(OwnVlans(n.appliedVlans)) && BridgeGone(n, d, c)
    ensures forall m :: c.BridgeOf(m) == if m in OwnVlans(n.appliedVlans) || OffBridge(n, a, m) then None else a.BridgeOf(m)
  {
    hide OwnVlans;
    var own := OwnVlans(n.appliedVlans);
    assert forall m :: d.BridgeOf(m) == if m in own then None else e.BridgeOf(m);
  }

  method EmptyBridge(host: Host, n: Manifest) returns (ok: bool, refused: bool)
    requires host.Ready() && Checked(n) && host.Owns(n) && host.Working(n.id) && n.mode.BridgeMode?
    requires n.device.Some? && n.device.value in host.net.devices
    modifies host`net, host`destroyed, host`faults, host`lost, host`alive, host`script
    ensures host.Grows()
    ensures host.net == old(host.net).(bridges := host.net.bridges)
    ensures forall m ::
      || host.net.BridgeOf(m) == old(host.net).BridgeOf(m)
      || (m in n.appliedMembers && old(host.net).BridgeOf(m) == n.device)
    ensures refused ==> !ok && Occupied(n, old(host.net)) && host.net == old(host.net)
    ensures Occupied(n, old(host.net)) ==> !ok && host.net == old(host.net)
    ensures ok ==> forall m :: m in n.appliedMembers && old(host.net).BridgeOf(m) == n.device ==> host.net.BridgeOf(m).None?
    ensures !ok ==> host.faults > old(host.faults) || Occupied(n, old(host.net)) || !NoDuplicates(n.appliedMembers)
    ensures Occupied(n, old(host.net)) ==> refused || host.faults > old(host.faults)
  {
    assert n.device.value.kind.Bridge?;
    host.OwnsParts(n);
    hide Host.Ready, Checked, Host.Owns, Host.MayPart;
    refused := false;
    ok := host.IsBridge(n.device.value);
    if !ok {
      return;
    }
    var members;
    ok, members := host.MembersOf(n.device.value);
    if !ok {
      return;
    }
    if exists m :: m in members && m !in n.appliedMembers && (n.owned || m.kind.Feth?) {
      return false, true;
    }
    ok := TakeOff(host, n, members);
  }

  /** Take maco's members off a bridge. */
  method TakeOff(host: Host, n: Manifest, members: set<Name>) returns (ok: bool)
    requires host.Ready() && n.device.Some? && members == host.net.Members(n.device.value)
    requires forall m :: m in n.appliedMembers ==> host.MayPart(n.device.value, m)
    modifies host`net, host`faults, host`lost, host`alive, host`script
    ensures host.Grows()
    ensures host.net == old(host.net).(bridges := host.net.bridges)
    ensures forall m ::
      || host.net.BridgeOf(m) == old(host.net).BridgeOf(m)
      || (m in n.appliedMembers && old(host.net).BridgeOf(m) == n.device)
    ensures ok ==> forall m :: m in n.appliedMembers && old(host.net).BridgeOf(m) == n.device ==> host.net.BridgeOf(m).None?
    ensures !ok ==> host.faults > old(host.faults) || !NoDuplicates(n.appliedMembers)
  {
    hide Host.Ready, Host.MayPart;
    for i := 0 to |n.appliedMembers|
      invariant host.Grows() && host.net == old(host.net).(bridges := host.net.bridges)
      invariant forall m ::
        || host.net.BridgeOf(m) == old(host.net).BridgeOf(m)
        || (m in n.appliedMembers && old(host.net).BridgeOf(m) == n.device)
      invariant forall m :: m in n.appliedMembers[..i] && old(host.net).BridgeOf(m) == n.device ==> host.net.BridgeOf(m).None?
      invariant forall m :: m !in n.appliedMembers[..i] ==> host.net.BridgeOf(m) == old(host.net).BridgeOf(m)
    {
      var member := n.appliedMembers[i];
      assert n.appliedMembers[..i + 1] == n.appliedMembers[..i] + [member];
      if member in members {
        ok := host.RemoveMember(n.device.value, member);
        if !ok {
          return;
        }
      }
    }
    assert n.appliedMembers[..|n.appliedMembers|] == n.appliedMembers;
    ok := true;
  }

  /** Destroy the VLAN interfaces made for a network. */
  method DestroyVlans(host: Host, n: Manifest) returns (ok: bool, ghost dropped: set<Name>)
    requires host.Ready() && Checked(n) && host.Owns(n) && host.Working(n.id)
    modifies host`net, host`destroyed, host`faults, host`lost, host`alive, host`script
    ensures host.Grows()
    ensures host.net == old(host.net).WithoutAll(dropped) && dropped <= OwnVlans(n.appliedVlans)
    ensures ok ==> dropped == OwnVlans(n.appliedVlans)
    ensures !ok ==> host.faults > old(host.faults)
  {
    hide Checked, Host.Mine, Net.WithoutAll;
    dropped := {};
    ok := true;
    old(host.net).WithoutNone();
    for i := 0 to |n.appliedVlans|
      invariant host.Grows() && host.net == old(host.net).WithoutAll(dropped)
      invariant dropped == OwnVlans(n.appliedVlans[..i])
    {
      var a := n.appliedVlans[i];
      assert n.appliedVlans[..i + 1] == n.appliedVlans[..i] + [a];
      OwnOneMore(n.appliedVlans[..i], a);
      assert dropped <= OwnVlans(n.appliedVlans);
      if !a.borrowed && a.device.Some? {
        if a.device.value in host.net.devices {
          ghost var before := host.net;
          ok := host.Destroy(a.device.value, n.id);
          old(host.net).WithoutOneMore(dropped, a.device.value);
          if host.net != before {
            dropped := dropped + {a.device.value};
          }
          if !ok {
            return;
          }
          dropped := dropped + {a.device.value};
        } else {
          old(host.net).WithoutAbsent(dropped, a.device.value);
          dropped := dropped + {a.device.value};
        }
      }
    }
    assert n.appliedVlans[..|n.appliedVlans|] == n.appliedVlans;
  }

  // ---- What it all comes to ----

  /** The members a bridge ends up with, and which of them are recorded as maco's. */
  lemma MembersAfter(was: Manifest, a: Net, n: Manifest, c: Net)
    requires Applied(was, a, n, c)
    ensures var b, desired, applied := n.device.value, Desired(n), Elements(was.appliedMembers);
      && c.Members(b) == a.Members(b) - (applied - desired) - Surplus(Others(was), desired) + desired
      && Elements(n.appliedMembers) == (applied * desired) + (desired - a.Members(b))
  {
    hide ResolvedIn, AddressKept, AddressSettled, Undoable, OwnedBefore, Minus, Others, Unwanted;
    forall m
      ensures m in c.Members(n.device.value) <==>
        m in a.Members(n.device.value) - (Elements(was.appliedMembers) - Desired(n)) - Surplus(Others(was), Desired(n)) + Desired(n)
    {
      assert c.BridgeOf(m) == MemberOf(n, was.appliedMembers, Surplus(Others(was), Desired(n)), a, m);
    }
  }

  lemma SameMode(was: Manifest, a: Net, n: Manifest, c: Net)
    requires Applied(was, a, n, c)
    ensures n.mode == was.mode
  {
  }

  lemma AddedOnce(was: Manifest, a: Net, n: Manifest, c: Net)
    requires Applied(was, a, n, c) && was.appliedMembers == []
    ensures NoDuplicates(n.appliedMembers)
  {
  }

  lemma VlanAppliedIsInPlace(was: Manifest, a: Net, n: Manifest, c: Net)
    requires VlanApplied(was, a, n, c)
    ensures VlanInPlace(n, c) && n.mode == was.mode
  {
  }

  /** What a successful Ensure comes to, in both modes that have an interface. */
  ghost predicate WasApplied(was: Manifest, a: Net, n: Manifest, c: Net) {
    && (n.mode.BridgeMode? || n.mode.VlanMode?)
    && (n.mode.BridgeMode? ==> Applied(was, a, n, c))
    && (n.mode.VlanMode? ==> VlanApplied(was, a, n, c))
  }

  /** Apply a network that was applied: Ensure changes nothing on the host however it ends. It fails only for a fault, if
      a member or a parent is gone, or if an interface is asked for both as a member and for a VLAN; and if it succeeds
      the manifest is the same, in every order. */
  method ApplyAgain(host: Host, ghost was: Manifest, ghost a: Net, n: Manifest) returns (ok: bool, after: Manifest)
    requires host.Ready() && host.Idle() && n.id in host.store && host.store[n.id] == n && WasApplied(was, a, n, host.net)
    modifies host
    ensures host.Grows() && host.net == old(host.net)
    ensures ok ==> after == n && n.id in host.store && host.store[n.id] == n
    ensures !ok ==>
      || host.faults > old(host.faults)
      || (n.mode.BridgeMode? && !(AllThere(n, host.net) && Orderly(n)))
      || (n.mode.VlanMode? && VlanObstacle(n, host.net))
  {
    hide Applied, InPlace, VlanApplied, VlanInPlace, Keeps, Tags, Host.Owns, Checked, Obstacle, VlanObstacle;
    CheckedWhenStored(host, n);
    if n.mode.BridgeMode? {
      AppliedIsInPlace(was, a, n, host.net);
    } else {
      VlanAppliedIsInPlace(was, a, n, host.net);
    }
    var r := new Reconciler(host, n);
    ok := r.Ensure();
    after := r.n;
  }

  lemma CheckedWhenStored(host: Host, n: Manifest)
    requires host.Ready() && n.id in host.store && host.store[n.id] == n
    ensures Checked(n)
  {
  }

  /** Apply twice in sequence. `faults` is how many commands had gone wrong when the first one was done. */
  method ReconcileTwice(host: Host, n: Manifest, again: seq<Reply>)
    returns (ok: bool, okAgain: bool, first: Manifest, second: Manifest, between: Net, faults: nat)
    requires host.Ready() && host.Idle() && n.id in host.store && host.store[n.id] == n && (n.mode.BridgeMode? || n.mode.VlanMode?)
    modifies host
    ensures host.Ready() && old(host.faults) <= faults <= host.faults
    ensures host.net == between && (ok ==> WasApplied(n, old(host.net), first, between))
    ensures !ok ==>
      || faults > old(host.faults)
      || (n.mode.BridgeMode? && Obstacle(n, old(host.net), between))
      || (n.mode.VlanMode? && VlanObstacle(n, old(host.net)))
    ensures ok && okAgain ==> second == first && n.id in host.store && host.store[n.id] == first
    ensures ok && !okAgain ==>
      || host.faults > faults
      || (n.mode.BridgeMode? && !(AllThere(first, between) && Orderly(first)))
      || (n.mode.VlanMode? && VlanObstacle(first, between))
  {
    hide Applied, InPlace, VlanApplied, VlanInPlace, Keeps, Tags, Host.Owns, Checked, Obstacle, VlanObstacle;
    okAgain := false;
    var r := new Reconciler(host, n);
    ok := r.Ensure();
    first, second, between, faults := r.n, r.n, host.net, host.faults;
    if !ok {
      return;
    }
    if n.mode.BridgeMode? {
      SameMode(n, old(host.net), first, between);
    } else {
      VlanAppliedIsInPlace(n, old(host.net), first, between);
    }
    host.Revive(again);
    okAgain, second := ApplyAgain(host, n, old(host.net), first);
  }

  /** A network as CreateNetwork first saves it, on a bridge that was there before. */
  predicate Borrowing(n: Manifest, a: Net) {
    && n.mode.BridgeMode? && n.device.Some? && n.device.value in a.devices && !n.owned
    && n.appliedVlans == [] && n.appliedMembers == [] && n.appliedAddress.None?
  }

  /** Taking down what was applied to a borrowed bridge restores the members, the addresses and every interface. What
      is left over are at most VLAN interfaces that could neither be configured nor destroyed again. */
  lemma Undone(was: Manifest, a: Net, n: Manifest, c: Net, e: Net)
    requires a.Valid() && c.Valid() && e.Valid() && Checked(n) && Borrowing(was, a)
    requires Applied(was, a, n, c) && Keeps(StakeOf(was), a, c) && TakenDown(n, c, e)
    ensures e.bridges == a.bridges && e.addresses == a.addresses
    ensures e.devices == a.devices + (c.devices - OwnVlans(n.vlans))
    ensures forall d :: d in a.devices ==> e.TaggingOf(d) == a.TaggingOf(d)
    ensures c.devices <= a.devices + OwnVlans(n.vlans) ==> e == a
  {
    hide Minus, ResolvedIn, AddressKept, AddressSettled, Keeps, MemberOf;
    NothingApplied(was, a, n, c);
    MembersUndone(was, a, n, c, e);
    SameAddresses(a, n, c, e);
    if c.devices <= a.devices + OwnVlans(n.vlans) {
      assert e.devices == a.devices;
      SameTaggings(a, e);
    }
  }

  lemma MembersUndone(was: Manifest, a: Net, n: Manifest, c: Net, e: Net)
    requires a.Valid() && Borrowing(was, a)
    requires Applied(was, a, n, c) && Keeps(StakeOf(was), a, c) && TakenDown(n, c, e)
    ensures e.bridges == a.bridges
  {
    hide Minus, ResolvedIn, AddressKept, AddressSettled, Undoable, Unwanted;
    NothingApplied(was, a, n, c);
    forall m
      ensures e.BridgeOf(m) == a.BridgeOf(m)
    {
      assert c.BridgeOf(m) == MemberOf(n, was.appliedMembers, Surplus(Others(was), Desired(n)), a, m);
      if m in Desired(n) && a.BridgeOf(m).Some? {
        assert a.BridgeOf(m) == c.BridgeOf(m) == n.device;
      }
      assert m in OwnVlans(n.vlans) ==> a.BridgeOf(m).None?;
    }
    SameMaps(a, e);
  }

  lemma SameTaggings(a: Net, e: Net)
    requires a.Valid() && e.Valid() && e.devices == a.devices
    requires forall d :: d in a.devices ==> e.TaggingOf(d) == a.TaggingOf(d)
    ensures e.taggings == a.taggings
  {
    forall d
      ensures d in e.taggings <==> d in a.taggings
    {
      assert d in a.devices ==> e.TaggingOf(d) == a.TaggingOf(d);
    }
    assert forall d :: d in a.taggings ==> e.TaggingOf(d) == a.TaggingOf(d);
  }

  lemma NothingApplied(was: Manifest, a: Net, n: Manifest, c: Net)
    requires a.Valid() && Borrowing(was, a) && Applied(was, a, n, c)
    ensures Others(was) == [] && Surplus(Others(was), Desired(n)) == {} && n.appliedVlans == n.vlans
    ensures OwnVlans(n.vlans) !! a.devices && a.WithoutAll({}) == a
  {
    hide AddressKept, AddressSettled, Undoable, MemberOf, ResolvedIn, Net.WithoutAll;
    a.WithoutNone();
    assert Others(was) == [] && OwnVlans(was.appliedVlans) == {} && OwnVlans([]) == {};
    forall d | d in OwnVlans(n.vlans)
      ensures d !in a.devices
    {
      assert d in a.devices ==> d in OwnVlans(n.vlans) * a.devices;
    }
    assert Minus(Others(was), Unwanted(Others(was), Desired(n))) == [];
  }

  lemma SameMaps(a: Net, e: Net)
    requires forall m :: e.BridgeOf(m) == a.BridgeOf(m)
    ensures e.bridges == a.bridges
  {
    forall m
      ensures m in e.bridges <==> m in a.bridges
    {
      assert e.BridgeOf(m) == a.BridgeOf(m);
    }
    assert forall m :: m in a.bridges ==> e.BridgeOf(m) == a.BridgeOf(m);
  }

  lemma SameAddresses(a: Net, n: Manifest, c: Net, e: Net)
    requires a.Valid() && n.device.Some? && !n.owned && n.appliedVlans == n.vlans && OwnVlans(n.vlans) !! a.devices
    requires Undoable(n.appliedAddress, n.device.value, a, c) && TakenDown(n, c, e)
    ensures e.addresses == a.addresses
  {
  }

  /** Apply a network to a borrowed bridge and take it down again. `faults` is how many commands had gone wrong when the
      network was applied. */
  method ApplyThenDestroy(host: Host, n: Manifest, again: seq<Reply>)
    returns (brought: bool, ok: bool, refused: bool, applied: Manifest, between: Net, faults: nat)
    requires host.Ready() && host.Idle() && n.id in host.store && host.store[n.id] == n && Borrowing(n, host.net)
    modifies host
    ensures host.Ready() && old(host.faults) <= faults <= host.faults
    ensures brought ==> Applied(n, old(host.net), applied, between)
    ensures !brought ==>
      !ok && !refused && host.net == between && (faults > old(host.faults) || Obstacle(n, old(host.net), between))
    ensures ok ==> brought && TakenDown(applied, between, host.net)
    ensures ok ==> host.net.bridges == old(host.net).bridges && host.net.addresses == old(host.net).addresses
    ensures ok ==> host.net.devices == old(host.net).devices + (between.devices - OwnVlans(applied.vlans))
    ensures ok && between.devices <= old(host.net).devices + OwnVlans(applied.vlans) ==> host.net == old(host.net)
    ensures ok && faults == old(host.faults) ==> host.net == old(host.net)
    ensures brought && !ok ==>
      host.faults > faults || (exists m :: m in old(host.net).Members(n.device.value) && m.kind.Feth?)
    ensures refused ==> exists m :: m in old(host.net).Members(n.device.value) && m.kind.Feth?
  {
    hide Applied, InPlace, VlanApplied, VlanInPlace, Keeps, Tags, TakenDown, Occupied, Host.Owns, Checked, Net.Members, Obstacle;
    ok, refused := false, false;
    var r := new Reconciler(host, n);
    brought := r.Ensure();
    applied, between, faults := r.n, host.net, host.faults;
    if !brought {
      return;
    }
    SameMode(n, old(host.net), applied, between);
    AddedOnce(n, old(host.net), applied, between);
    host.Revive(again);
    ok, refused := DestroyBridge(host, r.n);
    if ok {
      Undone(n, old(host.net), applied, between, host.net);
    }
    if Occupied(applied, between) {
      StillOccupied(n, old(host.net), applied, between);
    }
  }

  lemma StillOccupied(was: Manifest, a: Net, n: Manifest, c: Net)
    requires Applied(was, a, n, c) && Borrowing(was, a) && Occupied(n, c)
    ensures exists m :: m in a.Members(was.device.value) && m.kind.Feth?
  {
    hide ResolvedIn, AddressKept, AddressSettled, Undoable, OwnedBefore, Minus, Others, Unwanted, Surplus;
    var m :| m in c.Members(n.device.value) && m !in n.appliedMembers && (n.owned || m.kind.Feth?);
    assert c.BridgeOf(m) == MemberOf(n, was.appliedMembers, Surplus(Others(was), Desired(n)), a, m);
    assert m in a.Members(was.device.value);
  }
}
