/** The check a network manifest must pass to be saved or loaded: Store.check in pkg/network/store.go. */
module NetStore {
  import opened NetHost

  method Check(n: Manifest) returns (ok: bool)
    ensures ok <==> Checked(n)
  {
    ok := CheckTags(n.vlans) && CheckTags(n.appliedVlans);
    if !ok {
      return;
    }
    ok := CheckMode(n);
    if !ok {
      return;
    }
    ok := CheckApplied(n);
    if !ok {
      return;
    }
    ok := CheckMembers(n);
    if !ok {
      return;
    }
    ok := CheckKeys(n);
  }

  predicate CheckTags(vs: seq<VlanMember>) {
    forall v :: v in vs ==> TagInRange(v.tag)
  }

  /** What each mode allows. */
  predicate ModeAllows(n: Manifest) {
    && (n.mode.UplinkMode? <==> n.uplink.Some?)
    && (n.mode.VlanMode? ==>
      && n.parent.Some? && TagInRange(n.tag)
      && n.address.None? && n.members == [] && n.vlans == []
      && (n.device.Some? ==> n.device.value.kind.Vlan?))
    && (!n.mode.VlanMode? ==>
      && n.parent.None? && n.tag == 0
      && (n.device.Some? ==> n.device.value.kind.Bridge?))
    && (!n.mode.VlanMode? && !n.mode.BridgeMode? ==> n.device.None? && n.address.None? && n.members == [] && n.vlans == [])
  }

  method CheckMode(n: Manifest) returns (ok: bool)
    ensures ok <==> ModeAllows(n)
  {
    if n.mode.UplinkMode? && n.uplink.None? {
      return false;
    }
    if !n.mode.UplinkMode? && n.uplink.Some? {
      return false;
    }
    if !n.mode.VlanMode? && (n.parent.Some? || n.tag != 0) {
      return false;
    }
    if n.mode.VlanMode? {
      if n.parent.None? {
        return false;
      }
      if !TagInRange(n.tag) {
        return false;
      }
      if n.address.Some? || n.members != [] || n.vlans != [] || n.uplink.Some? {
        return false;
      }
      if n.device.Some? && !n.device.value.kind.Vlan? {
        return false;
      }
    } else {
      if !n.mode.BridgeMode? && (n.device.Some? || n.address.Some? || n.members != [] || n.vlans != []) {
        return false;
      }
      if n.device.Some? && !n.device.value.kind.Bridge? {
        return false;
      }
    }
    ok := true;
  }

  /** A VLAN has an interface only if apply gave it that one. */
  method CheckApplied(n: Manifest) returns (ok: bool)
    ensures ok <==>
      && (forall v :: v in n.appliedVlans ==> v.device.Some? && v.device.value.kind.Vlan?)
      && (forall v :: v in n.vlans ==> v.device.Some? ==> v in n.appliedVlans)
  {
    for i := 0 to |n.appliedVlans|
      invariant forall v :: v in n.appliedVlans[..i] ==> v.device.Some? && v.device.value.kind.Vlan?
    {
      if n.appliedVlans[i].device.None? || !n.appliedVlans[i].device.value.kind.Vlan? {
        assert n.appliedVlans[i] in n.appliedVlans;
        return false;
      }
    }
    for i := 0 to |n.vlans|
      invariant forall v :: v in n.vlans[..i] ==> v.device.Some? ==> v in n.appliedVlans
    {
      if n.vlans[i].device.Some? {
        var owned := false;
        for k := 0 to |n.appliedVlans|
          invariant owned <==> n.vlans[i] in n.appliedVlans[..k]
        {
          if n.appliedVlans[k] == n.vlans[i] {
            owned := true;
          }
        }
        if !owned {
          assert n.vlans[i] in n.vlans;
          return false;
        }
      }
    }
    ok := true;
  }

  method CheckMembers(n: Manifest) returns (ok: bool)
    ensures ok <==> NoDuplicates(n.members) && (n.device.Some? ==> n.device.value !in n.members)
  {
    var seen := {};
    for i := 0 to |n.members|
      invariant forall m :: m in seen <==> m in n.members[..i]
      invariant NoDuplicates(n.members[..i]) && (n.device.Some? ==> n.device.value !in n.members[..i])
    {
      if n.members[i] in seen || Some(n.members[i]) == n.device {
        if n.members[i] in seen {
          var j :| 0 <= j < i && n.members[j] == n.members[i];
        }
        return false;
      }
      seen := seen + {n.members[i]};
    }
    assert n.members[..|n.members|] == n.members;
    ok := true;
  }

  method CheckKeys(n: Manifest) returns (ok: bool)
    ensures ok <==> DistinctKeys(n.vlans)
  {
    var seen := {};
    for i := 0 to |n.vlans|
      invariant forall k :: k in seen <==> exists j :: 0 <= j < i && Tagging(n.vlans[j].parent, n.vlans[j].tag) == k
      invariant DistinctKeys(n.vlans[..i])
    {
      var key := Tagging(n.vlans[i].parent, n.vlans[i].tag);
      if key in seen {
        var j :| 0 <= j < i && Tagging(n.vlans[j].parent, n.vlans[j].tag) == key;
        assert SameKey(n.vlans[j], n.vlans[i]);
        return false;
      }
      seen := seen + {key};
    }
    assert n.vlans[..|n.vlans|] == n.vlans;
    ok := true;
  }
}
