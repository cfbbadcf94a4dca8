/** Bringing the host's bridges and VLANs to what a manifest asks for, and taking them down again:
    pkg/network/reconcile.go and pkg/network/vlan.go. */
module NetReconcile {
  import opened NetHost

  // ---- What a manifest asks for, and what it may touch ----

  function TaggingFor(v: VlanMember): (tagging: Tagging) {
    Tagging(v.parent, v.tag)
  }

  function Devices(vs: seq<VlanMember>): (devices: set<Name>) {
    set v | v in vs && v.device.Some? :: v.device.value
  }

  /** The members the bridge should have: the listed interfaces and those that carry its VLANs. */
  function Desired(n: Manifest): (devices: set<Name>) {
    (set m | m in n.members) + Devices(n.vlans)
  }

  /** The VLAN interfaces a manifest records as made for it. */
  function OwnVlans(vs: seq<VlanMember>): (devices: set<Name>) {
    set v | v in vs && v.device.Some? && !v.borrowed :: v.device.value
  }

  /** What belongs to maco on a host: devices it made, and members and an address it gave to a bridge. */
  datatype Stake = Stake(own: set<Name>, bridge: Option<Name>, members: set<Name>, address: Option<Address>)

  function StakeOf(n: Manifest): (stake: Stake) {
    Stake(
      OwnVlans(n.appliedVlans) + (if n.owned && n.device.Some? then {n.device.value} else {}),
      n.device,
      (set m | m in n.appliedMembers),
      n.appliedAddress)
  }

  /** Nothing but what is at stake has gone: devices, memberships, VLAN configurations and addresses that are not
      maco's are still there. */
  ghost predicate Keeps(s: Stake, a: Net, b: Net) {
    && a.devices - s.own <= b.devices
    && (forall m ::
      a.BridgeOf(m).Some? && m !in s.own && a.BridgeOf(m).value !in s.own && !(m in s.members && a.BridgeOf(m) == s.bridge)
      ==> b.BridgeOf(m) == a.BridgeOf(m))
    && (forall d :: a.TaggingOf(d).Some? && d !in s.own ==> b.TaggingOf(d) == a.TaggingOf(d))
    && (forall x ::
      x in a.addresses && x.device !in s.own && !(Some(x.device) == s.bridge && Some(x.address) == s.address)
      ==> x in b.addresses)
  }

  lemma OwnOneMore(vs: seq<VlanMember>, v: VlanMember)
    ensures OwnVlans(vs + [v]) == OwnVlans(vs) + (if v.device.Some? && !v.borrowed then {v.device.value} else {})
    ensures OwnVlans([]) == {} && OwnVlans([] + [v]) == OwnVlans([v])
  {
    forall w | w in vs
      ensures w in vs + [v]
    {
    }
    assert (vs + [v])[|vs|] == v;
    assert [] + [v] == [v];
  }

  lemma SeenBefore(names: seq<Name>, i: nat)
    requires i < |names|
    ensures names[i] in names[..i] ==> !NoDuplicates(names)
  {
  }

  lemma KeepsItself(s: Stake, a: Net)
    ensures Keeps(s, a, a)
  {
  }

  // ---- Lists without some of their elements ----

  function Minus(vs: seq<VlanMember>, gone: set<VlanMember>): (r: seq<VlanMember>)
    ensures forall v :: v in r <==> v in vs && v !in gone
  {
    if vs == [] then [] else
      var rest := Minus(vs[1..], gone);
      if vs[0] in gone then rest else [vs[0]] + rest
  }

  lemma {:induction false} MinusAppend(a: seq<VlanMember>, b: seq<VlanMember>, gone: set<VlanMember>)
    ensures Minus(a + b, gone) == Minus(a, gone) + Minus(b, gone)
  {
    if a == [] {
      assert a + b == b;
    } else {
      assert (a + b)[1..] == a[1..] + b && (a + b)[0] == a[0];
      MinusAppend(a[1..], b, gone);
    }
  }

  lemma {:induction false} MinusTwice(vs: seq<VlanMember>, a: set<VlanMember>, b: set<VlanMember>)
    ensures Minus(Minus(vs, a), b) == Minus(vs, a + b)
  {
    if vs != [] {
      MinusTwice(vs[1..], a, b);
    }
  }

  lemma {:induction false} MinusSame(vs: seq<VlanMember>, a: set<VlanMember>, b: set<VlanMember>)
    requires forall v :: v in vs ==> (v in a <==> v in b)
    ensures Minus(vs, a) == Minus(vs, b)
  {
    if vs != [] {
      assert vs[0] in vs;
      MinusSame(vs[1..], a, b);
    }
  }

  lemma {:induction false} MinusNone(vs: seq<VlanMember>, gone: set<VlanMember>)
    requires forall v :: v in vs ==> v !in gone
    ensures Minus(vs, gone) == vs
  {
    if vs != [] {
      assert vs[0] in vs;
      MinusNone(vs[1..], gone);
    }
  }

  /** The last entry for a VLAN's parent and tag, or the VLAN itself if there is none. */
  ghost predicate Recollection(applied: seq<VlanMember>, v: VlanMember, r: VlanMember) {
    if forall a :: a in applied ==> !SameKey(a, v) then r == v
    else exists k: nat :: k < |applied| && r == applied[k] && SameKey(r, v) && forall j :: k < j < |applied| ==> !SameKey(applied[j], v)
  }

  lemma Recollected(applied: seq<VlanMember>, v: VlanMember, r: VlanMember)
    requires Recollection(applied, v, r)
    ensures SameKey(r, v) && (r == v || r in applied)
    ensures (forall a :: a in applied && SameKey(a, v) ==> a == v) ==> r == v
    ensures forall e :: Only(applied, v, e) ==> r == e
  {
  }

  /** The only entry for a VLAN's parent and tag. */
  predicate Only(applied: seq<VlanMember>, v: VlanMember, e: VlanMember) {
    e in applied && SameKey(e, v) && forall a :: a in applied && SameKey(a, v) ==> a == e
  }

  predicate Lists(vs: seq<VlanMember>, v: VlanMember) {
    exists w :: w in vs && SameKey(v, w)
  }

  /** The entries for a parent and tag that a list has. */
  function Listed(applied: seq<VlanMember>, vs: seq<VlanMember>): (entries: set<VlanMember>) {
    set v | v in applied && Lists(vs, v)
  }

  // ---- resolveVLANWith ----

  /** Interfaces were made and configured; no membership, address or configuration has changed. */
  ghost predicate Tags(a: Net, b: Net) {
    && a.devices <= b.devices
    && b.bridges == a.bridges
    && b.addresses == a.addresses
    && forall d :: a.TaggingOf(d).Some? ==> b.TaggingOf(d) == a.TaggingOf(d)
  }

  /** Besides, only VLAN interfaces were made, and only they and the known ones were configured. */
  ghost predicate TagsVlans(known: set<Name>, a: Net, b: Net) {
    && Tags(a, b)
    && (forall d :: d in b.devices && d !in a.devices ==> d.kind.Vlan?)
    && forall d :: d in a.devices && d !in known ==> b.TaggingOf(d) == a.TaggingOf(d)
  }

  lemma MoreDevices(known: set<Name>, a: Net, c: Net)
    requires TagsVlans(known, a, c)
    ensures a.devices <= c.devices
  {
  }

  lemma TagsNone(known: set<Name>, a: Net, was: Manifest)
    ensures TagsVlans(known, a, a) && ResolvedIn([], a) && OwnedBefore([], a.devices, was)
  {
  }

  lemma TagsTwice(known: set<Name>, a: Net, b: Net, c: Net)
    requires TagsVlans(known, a, b) && TagsVlans(known, b, c)
    ensures TagsVlans(known, a, c)
  {
  }

  /** Destroying a new interface leaves what was. */
  lemma Unmade(a: Net, c: Net, b: Net, d: Name)
    requires a.Valid() && d !in a.devices && Tags(a, c)
    requires b == c || b == c.Without(d)
    ensures Tags(a, b) && b.devices <= c.devices
    ensures forall e :: e in a.devices ==> b.TaggingOf(e) == c.TaggingOf(e)
  {
    if b == c.Without(d) {
      assert b.bridges == a.bridges;
    }
  }

  /** Why a VLAN may not get an interface: the recorded one has another configuration and no other one has the right
      one, or there is none and its parent is missing. */
  ghost predicate Resolvable(a: Net, device: Option<Name>, t: Tagging) {
    || (exists e :: a.TaggingOf(e) == Some(t))
    || (t.parent in a.devices && !(device.Some? && a.TaggingOf(device.value).Some?))
  }

  /** The next commands are done, and then one fails. */
  ghost predicate FailsAfter(host: Host, done: nat)
    reads host`script, host`alive
  {
    host.alive && done < |host.script| && host.script[done].Fails? && forall i :: 0 <= i < done ==> host.script[i].Done?
  }

  /** The next VLAN interface, which can be configured, gets a certain name. */
  ghost predicate Renames(host: Host, d: Name, t: Tagging)
    reads host`net, host`creators, host`names
  {
    host.Chosen(d) && d.kind.Vlan? && t.parent in host.net.devices && forall e :: host.net.TaggingOf(e) != Some(t)
  }

  /** So far every command was done. */
  twostate predicate DoneSoFar(host: Host, left: nat)
    reads host
  {
    FailsAfter(host, left) && host.faults == old(host.faults) && host.lost == old(host.lost)
  }

  /** Find or make the interface for a VLAN. It stays the recorded one if that is configured so; it is borrowed if
      another interface is; else a new one is made, and owned. */
  method ResolveVlan(host: Host, owner: nat, device: Option<Name>, owned: bool, t: Tagging)
    returns (ok: bool, resolved: Name, nowOwned: bool)
    requires host.Ready() && host.Working(owner)
    requires device.Some? ==> device.value.kind.Vlan? && (owned ==> host.Mine(device.value, owner))
    modifies host`net, host`destroyed, host`creators, host`next, host`names, host`faults, host`lost, host`alive, host`script
    ensures host.Grows()
    ensures Tags(old(host.net), host.net)
    ensures forall d :: d in host.net.devices && d !in old(host.net).devices ==> d.kind.Vlan? && host.Mine(d, owner)
    ensures forall d :: d in old(host.net).devices && Some(d) != device ==> host.net.TaggingOf(d) == old(host.net).TaggingOf(d)
    ensures !ok ==> host.faults > old(host.faults) || !Resolvable(old(host.net), device, t)
    ensures ok ==> host.alive && host.net.TaggingOf(resolved) == Some(t) && (nowOwned ==> host.Mine(resolved, owner))
    ensures ok && nowOwned && !(owned && Some(resolved) == device) ==>
      resolved !in old(host.net).devices && forall d :: old(host.net).TaggingOf(d) != Some(t)
    ensures ok && nowOwned && owned && Some(resolved) == device ==> resolved in old(host.net).devices
    ensures host.Calm() && t.parent in old(host.net).devices ==>
      host.net.devices <= old(host.net).devices + (if ok && nowOwned then {resolved} else {})
    ensures device.Some? && old(host.net).TaggingOf(device.value) == Some(t) ==>
      host.net == old(host.net) && (ok ==> resolved == device.value && nowOwned == owned)
    ensures device.Some? && old(FailsAfter(host, 3) && Renames(host, device.value, t)) ==>
      ok && nowOwned && resolved == device.value && DoneSoFar(host, 0)
  {
    hide Checked, Host.Owns, Host.Unharmed, Host.Filed, Renames;
    if device.Some? && Renames(host, device.value, t) {
      RenamedIsGone(host, device.value, t);
    }
    if device.Some? && device.value in host.net.devices {
      ok, resolved, nowOwned := KeepOrBorrow(host, device.value, owned, t);
    } else {
      ok, resolved, nowOwned := FindOrMake(host, owner, t);
    }
  }

  lemma RenamedIsGone(host: Host, d: Name, t: Tagging)
    requires Renames(host, d, t)
    ensures d !in host.net.devices
  {
  }

  lemma ResolvableAlone(a: Net, device: Name, t: Tagging)
    requires device in a.devices && device.kind.Vlan? && Resolvable(a, Some(device), t)
    requires a.TaggingOf(device) == Some(t) || forall e :: a.TaggingOf(e) != Some(t)
    ensures a.Configurable(device, t)
  {
    forall e | e in a.taggings && a.TaggingOf(device) != Some(t)
      ensures a.taggings[e] != t
    {
      assert a.TaggingOf(e) == Some(a.taggings[e]);
    }
  }

  /** The recorded interface is there. */
  method KeepOrBorrow(host: Host, device: Name, owned: bool, t: Tagging) returns (ok: bool, resolved: Name, nowOwned: bool)
    requires host.Ready() && device in host.net.devices && device.kind.Vlan?
    modifies host`net, host`faults, host`lost, host`alive, host`script
    ensures host.Grows()
    ensures host.net == old(host.net) || (old(host.net).TaggingOf(device).None? && host.net == old(host.net).Tagged(device, t))
    ensures !ok ==> host.faults > old(host.faults) || !Resolvable(old(host.net), Some(device), t)
    ensures ok ==> host.alive && host.net.TaggingOf(resolved) == Some(t)
    ensures ok ==> if resolved == device then nowOwned == owned else !nowOwned
    ensures old(host.net).TaggingOf(device) == Some(t) ==> host.net == old(host.net) && (ok ==> resolved == device)
  {
    hide Checked, Host.Owns, Host.Unharmed, Host.Filed;
    ok := host.Configure(device, t);
    if ok {
      return true, device, owned;
    }
    var matching;
    ok, matching := host.Find(t);
    if ok && matching.Some? && matching.value != device {
      return true, matching.value, false;
    }
    if host.faults == old(host.faults) && Resolvable(host.net, Some(device), t) {
      ResolvableAlone(host.net, device, t);
    }
    ok, resolved, nowOwned := false, device, false;
  }

  /** No interface is recorded, or it is gone. */
  method FindOrMake(host: Host, owner: nat, t: Tagging) returns (ok: bool, resolved: Name, nowOwned: bool)
    requires host.Ready() && host.Working(owner)
    modifies host`net, host`destroyed, host`creators, host`next, host`names, host`faults, host`lost, host`alive, host`script
    ensures host.Grows()
    ensures Tags(old(host.net), host.net)
    ensures forall d :: d in host.net.devices && d !in old(host.net).devices ==> d.kind.Vlan? && host.Mine(d, owner)
    ensures forall d :: d in old(host.net).devices ==> host.net.TaggingOf(d) == old(host.net).TaggingOf(d)
    ensures !ok ==> host.faults > old(host.faults) || !Resolvable(old(host.net), None, t)
    ensures ok ==> host.alive && host.net.TaggingOf(resolved) == Some(t)
    ensures ok && nowOwned ==> Fresh(host, owner, resolved, old(host.net).devices, old(host.creators))
    ensures ok && nowOwned ==> forall d :: old(host.net).TaggingOf(d) != Some(t)
    ensures host.Calm() && t.parent in old(host.net).devices ==>
      host.net.devices <= old(host.net).devices + (if ok && nowOwned then {resolved} else {})
    ensures forall d :: old(FailsAfter(host, 3) && Renames(host, d, t)) ==> ok && nowOwned && resolved == d && DoneSoFar(host, 0)
  {
    hide Checked, Host.Owns, Host.Ready;
    resolved, nowOwned := Name(Vlan, 0), false;
    var matching;
    ok, matching := host.Find(t);
    if !ok {
      return;
    }
    if matching.Some? {
      return true, matching.value, false;
    }
    forall d | old(Renames(host, d, t))
      ensures Renames(host, d, t)
    {
    }
    ok, resolved, nowOwned := MakeVlan(host, owner, t);
  }

  /** An interface made for a network, under a name that was free. */
  ghost predicate Fresh(host: Host, owner: nat, d: Name, devices: set<Name>, creators: map<Name, nat>)
    reads host
  {
    d !in devices && d !in creators && host.Mine(d, owner)
  }

  /** The end of resolveVLANWith: make an interface; if it cannot be configured, destroy it and look once more. */
  method MakeVlan(host: Host, owner: nat, t: Tagging) returns (ok: bool, resolved: Name, nowOwned: bool)
    requires host.Ready() && host.Working(owner) && forall d :: host.net.TaggingOf(d) != Some(t)
    modifies host`net, host`destroyed, host`creators, host`next, host`names, host`faults, host`lost, host`alive, host`script
    ensures host.Grows()
    ensures Tags(old(host.net), host.net)
    ensures forall d :: d in host.net.devices && d !in old(host.net).devices ==> d.kind.Vlan? && host.Mine(d, owner)
    ensures forall d :: d in old(host.net).devices ==> host.net.TaggingOf(d) == old(host.net).TaggingOf(d)
    ensures !ok ==> host.faults > old(host.faults) || t.parent !in old(host.net).devices
    ensures ok ==> host.alive && host.net.TaggingOf(resolved) == Some(t)
    ensures ok && nowOwned ==> Fresh(host, owner, resolved, old(host.net).devices, old(host.creators))
    ensures host.Calm() && t.parent in old(host.net).devices ==>
      host.net.devices <= old(host.net).devices + (if ok && nowOwned then {resolved} else {})
    ensures forall d :: old(FailsAfter(host, 2) && Renames(host, d, t)) ==> ok && nowOwned && resolved == d && DoneSoFar(host, 0)
  {
    hide Checked, Host.Owns, Host.Unharmed, Host.Filed;
    nowOwned := false;
    ok, resolved := host.Create(Vlan, owner);
    if !ok {
      return;
    }
    ok := host.Configure(resolved, t);
    if !ok {
      ok, resolved := DiscardVlan(host, owner, resolved, t, old(host.net));
      return;
    }
    nowOwned := true;
  }

  /** The end of resolveVLANWith for a new interface that could not be configured. */
  method DiscardVlan(host: Host, owner: nat, made: Name, t: Tagging, ghost a: Net) returns (ok: bool, resolved: Name)
    requires host.Ready() && host.Working(owner) && host.Mine(made, owner)
    requires a.Valid() && made !in a.devices && Tags(a, host.net) && made in host.net.devices
    modifies host`net, host`destroyed, host`faults, host`lost, host`alive, host`script
    ensures host.Grows() && Tags(a, host.net) && host.net.devices <= old(host.net).devices
    ensures forall d :: d in a.devices ==> host.net.TaggingOf(d) == old(host.net).TaggingOf(d)
    ensures ok ==> host.alive && host.net.TaggingOf(resolved) == Some(t)
    ensures host.faults == old(host.faults) ==> made !in host.net.devices
  {
    hide Checked, Host.Owns, Host.Unharmed, Host.Filed;
    ghost var was := host.net;
    resolved := made;
    var destroyed := host.Destroy(made, owner);
    Unmade(a, was, host.net, made);
    var matching;
    ok, matching := host.Find(t);
    if ok && matching.Some? {
      return true, matching.value;
    }
    ok := false;
  }

  // ---- Ensure ----

  /** A manifest in which the first VLANs have been resolved. */
  ghost predicate Resolving(was: Manifest, n: Manifest, done: nat) {
    && done <= |n.vlans| == |was.vlans|
    && n == was.(vlans := n.vlans, appliedVlans := n.appliedVlans)
    && (forall j :: 0 <= j < done ==> SameKey(n.vlans[j], was.vlans[j]) && n.vlans[j].device.Some?)
    && (forall j :: done <= j < |n.vlans| ==> n.vlans[j] == was.vlans[j])
    && n.appliedVlans == Minus(was.appliedVlans, Listed(was.appliedVlans, was.vlans[..done])) + n.vlans[..done]
  }

  lemma ResolvingNone(n: Manifest)
    ensures Resolving(n, n, 0)
  {
    MinusNone(n.appliedVlans, Listed(n.appliedVlans, n.vlans[..0]));
  }

  lemma AppliedNext(was: Manifest, n: Manifest, next: Manifest, i: nat, vlan: VlanMember)
    requires DistinctKeys(n.vlans) && Resolving(was, n, i) && i < |n.vlans|
    requires SameKey(vlan, n.vlans[i]) && vlan.device.Some?
    requires next == n.(vlans := n.vlans[i := vlan],
      appliedVlans := Minus(n.appliedVlans, set a | a in n.appliedVlans && SameKey(a, vlan)) + [vlan])
    ensures Resolving(was, next, i + 1)
  {
    hide Minus, Listed;
    assert was.vlans[..i + 1] == was.vlans[..i] + [was.vlans[i]];
    forall v | v in n.vlans[..i]
      ensures !SameKey(v, vlan)
    {
      var j :| 0 <= j < i && n.vlans[j] == v;
      assert !SameKey(n.vlans[j], n.vlans[i]);
    }
    MinusListed(was.appliedVlans, was.vlans[..i], n.vlans[..i], vlan, was.vlans[i]);
    assert next.vlans[..i + 1] == n.vlans[..i] + [vlan];
  }

  /** What is known of a VLAN about to be resolved: what it was applied with was applied before the whole run. */
  lemma Recalled(was: Manifest, n: Manifest, i: nat, vlan: VlanMember)
    requires Checked(n) && Resolving(was, n, i) && i < |n.vlans|
    requires SameKey(vlan, n.vlans[i]) && (vlan == n.vlans[i] || vlan in n.appliedVlans)
    ensures i < |was.vlans| && n.vlans[i] == was.vlans[i]
    ensures vlan.device.Some? && !vlan.borrowed ==> vlan.device.value in OwnVlans(was.appliedVlans)
    ensures vlan.device.Some? ==> vlan in n.appliedVlans && vlan in was.appliedVlans && vlan.device.value.kind.Vlan?
    ensures (forall a :: a in was.appliedVlans && SameKey(a, n.vlans[i]) ==> a == n.vlans[i]) ==>
      forall a :: a in n.appliedVlans && SameKey(a, n.vlans[i]) ==> a == n.vlans[i]
  {
    assert n.vlans[i] in n.vlans;
    assert forall j :: 0 <= j < i ==> !SameKey(n.vlans[j], n.vlans[i]);
  }

  /** Dropping the entries for one more key. */
  lemma MinusListed(applied: seq<VlanMember>, vs: seq<VlanMember>, done: seq<VlanMember>, vlan: VlanMember, w: VlanMember)
    requires SameKey(vlan, w) && forall v :: v in done ==> !SameKey(v, vlan)
    ensures var now := Minus(applied, Listed(applied, vs)) + done;
      Minus(now, set a | a in now && SameKey(a, vlan)) == Minus(applied, Listed(applied, vs + [w])) + done
  {
    var listed, more := Listed(applied, vs), Listed(applied, vs + [w]);
    var kept := Minus(applied, listed);
    var gone := set a | a in kept + done && SameKey(a, vlan);
    MinusAppend(kept, done, gone);
    MinusNone(done, gone);
    MinusTwice(applied, listed, gone);
    forall v | v in applied
      ensures v in listed + gone <==> v in more
    {
      ListsOneMore(vs, w, v);
    }
    MinusSame(applied, listed + gone, more);
  }

  lemma ListsOneMore(vs: seq<VlanMember>, w: VlanMember, v: VlanMember)
    ensures Lists(vs + [w], v) <==> Lists(vs, v) || SameKey(v, w)
  {
    if SameKey(v, w) {
      assert (vs + [w])[|vs|] == w;
    }
    if Lists(vs, v) {
      var x :| x in vs && SameKey(v, x);
      assert x in vs + [w];
    }
  }

  /** A manifest in which a VLAN was recorded can still be saved. */
  lemma StillChecked(n: Manifest, next: Manifest, i: nat, vlan: VlanMember)
    requires Checked(n) && i < |n.vlans|
    requires SameKey(vlan, n.vlans[i]) && vlan.device.Some? && vlan.device.value.kind.Vlan?
    requires next == n.(vlans := n.vlans[i := vlan],
      appliedVlans := Minus(n.appliedVlans, set a | a in n.appliedVlans && SameKey(a, vlan)) + [vlan])
    ensures Checked(next)
  {
    forall v | v in next.vlans
      ensures TagInRange(v.tag) && (v.device.Some? ==> v in next.appliedVlans)
    {
      var j :| 0 <= j < |next.vlans| && next.vlans[j] == v;
      assert n.vlans[i] in n.vlans && n.vlans[j] in n.vlans;
      if j != i {
        assert !SameKey(n.vlans[j], vlan);
      }
    }
    assert TagInRange(vlan.tag) by {
      assert n.vlans[i] in n.vlans;
    }
  }

  /** What was applied for a VLAN, and is still configured for it. */
  ghost predicate StillApplied(net: Net, was: Manifest, i: nat, e: VlanMember) {
    && i < |was.vlans| && Only(was.appliedVlans, was.vlans[i], e)
    && e.device.Some? && net.TaggingOf(e.device.value) == Some(TaggingFor(e))
  }

  /** VLANs stay what they were applied as, owned or borrowed. */
  ghost predicate RecordsKept(was: Manifest, a: Net, vs: seq<VlanMember>) {
    forall i: nat, e :: i < |vs| && StillApplied(a, was, i, e) ==> vs[i] == e
  }

  lemma OnlyStays(was: Manifest, n: Manifest, i: nat)
    requires DistinctKeys(n.vlans) && Resolving(was, n, i) && i < |n.vlans|
    ensures forall e :: Only(was.appliedVlans, was.vlans[i], e) ==> Only(n.appliedVlans, n.vlans[i], e)
  {
    assert forall j :: 0 <= j < i ==> !SameKey(n.vlans[j], n.vlans[i]);
  }

  lemma StaysApplied(was: Manifest, known: set<Name>, a: Net, c: Net, i: nat)
    requires TagsVlans(known, a, c)
    ensures forall e :: StillApplied(a, was, i, e) ==> StillApplied(c, was, i, e)
  {
  }

  lemma NoneKept(was: Manifest, a: Net)
    ensures RecordsKept(was, a, was.vlans[..0])
  {
  }

  lemma KeptNext(was: Manifest, a: Net, before: seq<VlanMember>, vs: seq<VlanMember>, i: nat)
    requires i < |vs| && |before| >= i && vs[..i] == before[..i] && RecordsKept(was, a, before[..i])
    requires forall e :: StillApplied(a, was, i, e) ==> vs[i] == e
    ensures RecordsKept(was, a, vs[..i + 1])
  {
    forall j: nat, e | j < i + 1 && StillApplied(a, was, j, e)
      ensures vs[..i + 1][j] == e
    {
      if j < i {
        assert vs[..i][j] == before[..i][j];
      }
    }
  }

  /** Every VLAN has an interface, configured for it. */
  ghost predicate ResolvedIn(vs: seq<VlanMember>, net: Net) {
    forall v :: v in vs ==> v.device.Some? && net.TaggingOf(v.device.value) == Some(TaggingFor(v))
  }

  lemma ResolvedAppend(vs: seq<VlanMember>, v: VlanMember, net: Net)
    requires ResolvedIn(vs, net) && v.device.Some? && net.TaggingOf(v.device.value) == Some(TaggingFor(v))
    ensures ResolvedIn(vs + [v], net)
  {
  }

  lemma StillResolved(vs: seq<VlanMember>, known: set<Name>, a: Net, b: Net)
    requires ResolvedIn(vs, a) && TagsVlans(known, a, b)
    ensures ResolvedIn(vs, b)
  {
  }

  /** VLAN interfaces that a network owns were made for it just now, unless it owned them before. */
  ghost predicate OwnedBefore(vs: seq<VlanMember>, base: set<Name>, was: Manifest) {
    OwnVlans(vs) * base <= OwnVlans(was.appliedVlans)
  }

  lemma OwnedAppend(vs: seq<VlanMember>, v: VlanMember, base: set<Name>, was: Manifest)
    requires OwnedBefore(vs, base, was)
    requires v.device.Some? && (v.borrowed || v.device.value !in base || v.device.value in OwnVlans(was.appliedVlans))
    ensures OwnedBefore(vs + [v], base, was)
  {
    assert forall d :: d in OwnVlans(vs + [v]) ==> d in OwnVlans(vs) || (!v.borrowed && d == v.device.value);
  }

  // Why Ensure may fail although every command succeeds:

  /** A borrowed bridge is gone. */
  predicate BridgeLost(n: Manifest, a: Net) {
    n.device.Some? && n.device.value !in a.devices && !n.owned
  }

  ghost predicate ParentsPresent(n: Manifest, a: Net) {
    forall v :: v in n.vlans ==> v.parent in a.devices
  }

  /** The interface recorded for a VLAN has another configuration. */
  ghost predicate TagConflict(applied: seq<VlanMember>, vs: seq<VlanMember>, net: Net) {
    exists v :: v in applied && Lists(vs, v) && v.device.Some?
      && net.TaggingOf(v.device.value).Some? && net.TaggingOf(v.device.value) != Some(TaggingFor(v))
  }

  /** An interface that was borrowed for a VLAN is gone. A new one may get its name, and is then taken for it. */
  ghost predicate Missing(applied: seq<VlanMember>, vs: seq<VlanMember>, a: Net) {
    exists v :: v in applied && Lists(vs, v) && v.borrowed && v.device.Some? && v.device.value !in a.devices
  }

  /** An interface that a manifest's network borrowed is gone. */
  ghost predicate Gone(n: Manifest, a: Net) {
    if n.mode.VlanMode? then n.device.Some? && !n.owned && n.device.value !in a.devices else Missing(n.appliedVlans, n.vlans, a)
  }

  lemma MissingBefore(applied: seq<VlanMember>, vs: seq<VlanMember>, a: Net, c: Net)
    requires a.devices <= c.devices
    ensures Missing(applied, vs, c) ==> Missing(applied, vs, a)
  {
  }

  lemma MissingAt(was: Manifest, i: nat, vlan: VlanMember, a: Net)
    requires i < |was.vlans| && SameKey(vlan, was.vlans[i]) && vlan in was.appliedVlans
    requires vlan.borrowed && vlan.device.Some? && vlan.device.value !in a.devices
    ensures Missing(was.appliedVlans, was.vlans, a)
  {
    assert was.vlans[i] in was.vlans && Lists(was.vlans, vlan);
  }

  lemma Conflicting(was: Manifest, i: nat, vlan: VlanMember, a: Net)
    requires i < |was.vlans| && SameKey(vlan, was.vlans[i]) && (vlan.device.Some? ==> vlan in was.appliedVlans)
    ensures vlan.parent in a.devices && !Resolvable(a, vlan.device, TaggingFor(vlan)) ==>
      TagConflict(was.appliedVlans, was.vlans, a)
  {
    assert was.vlans[i] in was.vlans && Lists(was.vlans, vlan);
  }

  lemma ConflictStays(applied: seq<VlanMember>, vs: seq<VlanMember>, known: set<Name>, a: Net, c: Net)
    requires TagsVlans(known, a, c)
    ensures TagConflict(applied, vs, a) ==> TagConflict(applied, vs, c)
  {
    if TagConflict(applied, vs, a) {
      var v :| v in applied && Lists(vs, v) && v.device.Some?
        && a.TaggingOf(v.device.value).Some? && a.TaggingOf(v.device.value) != Some(TaggingFor(v));
      assert c.TaggingOf(v.device.value) == a.TaggingOf(v.device.value);
    }
  }

  lemma ParentThere(was: Manifest, n: Manifest, i: nat, base: Net, a: Net)
    requires Resolving(was, n, i) && i < |n.vlans| && base.devices <= a.devices
    ensures ParentsPresent(was, base) ==> n.vlans[i].parent in a.devices
  {
    assert n.vlans[i] in was.vlans;
  }

  /** The bridge is gone, or an interface that should be on it is gone, is on another bridge, or is asked for twice. */
  ghost predicate MembersBlocked(desired: seq<Name>, b: Name, a: Net) {
    || b !in a.devices
    || !NoDuplicates(desired)
    || exists m :: m in desired && (m !in a.devices || (a.BridgeOf(m).Some? && a.BridgeOf(m) != Some(b)))
  }

  /** The list of interfaces that should be on the bridge, as Ensure makes it up. */
  ghost predicate IsDesired(n: Manifest, desired: seq<Name>) {
    Listing(n.members, n.vlans, desired)
  }

  ghost predicate Listing(members: seq<Name>, vs: seq<VlanMember>, desired: seq<Name>) {
    && |desired| == |members| + |vs| && desired[..|members|] == members
    && forall j :: 0 <= j < |vs| ==> Some(desired[|members| + j]) == vs[j].device
  }

  lemma ListingNext(members: seq<Name>, vs: seq<VlanMember>, desired: seq<Name>, v: VlanMember)
    requires Listing(members, vs, desired) && v.device.Some?
    ensures Listing(members, vs + [v], desired + [v.device.value])
  {
    assert (desired + [v.device.value])[..|members|] == members;
  }

  /** Why ensureVLAN may fail although every command succeeds. */
  ghost predicate VlanObstacle(n: Manifest, a: Net) {
    n.parent.Some? && (n.parent.value !in a.devices || !Resolvable(a, n.device, Tagging(n.parent.value, n.tag)))
  }

  predicate AllThere(n: Manifest, a: Net) {
    (forall m :: m in n.members ==> m in a.devices) && (forall v :: v in n.vlans ==> v.parent in a.devices)
  }

  /** Why Ensure may fail although every command succeeds: something is missing, the borrowed bridge is gone, a VLAN's
      interface has been configured differently, or an interface is on another bridge, or is asked for both as a member
      and for a VLAN. */
  ghost predicate Obstacle(was: Manifest, a: Net, c: Net) {
    || !AllThere(was, a)
    || BridgeLost(was, a)
    || TagConflict(was.appliedVlans, was.vlans, c)
    || !NoDuplicates(was.appliedMembers)
    || (exists m :: Wanted(was, c, m) && a.BridgeOf(m).Some? && a.BridgeOf(m) != was.device)
    || (exists m :: m in was.members && Carries(was, c, m))
  }

  /** An interface is configured for one of a manifest's VLANs. */
  ghost predicate Carries(n: Manifest, c: Net, m: Name) {
    exists v :: v in n.vlans && c.TaggingOf(m) == Some(TaggingFor(v))
  }

  /** An interface should be on a manifest's bridge. */
  ghost predicate Wanted(n: Manifest, c: Net, m: Name) {
    m in n.members || Carries(n, c, m)
  }

  /** No interface is recorded twice, or asked for both as a member and for a VLAN. */
  predicate Orderly(n: Manifest) {
    && NoDuplicates(n.appliedMembers)
    && forall v :: v in n.vlans && v.device.Some? ==> v.device.value !in n.members
  }

  ghost predicate Reapplies(n: Manifest, a: Net) {
    n.mode.BridgeMode? && InPlace(n, a) && AllThere(n, a) && Orderly(n)
  }

  lemma ObstacleWhy(was: Manifest, a: Net, c: Net)
    ensures BridgeLost(was, a) || !ParentsPresent(was, a) || TagConflict(was.appliedVlans, was.vlans, c) ==> Obstacle(was, a, c)
  {
  }

  /** Nothing stands in the way where the host already agrees with the manifest. */
  lemma NoObstacle(was: Manifest, a: Net)
    requires a.Valid() && InPlace(was, a) && AllThere(was, a) && Orderly(was)
    ensures !Obstacle(was, a, a)
  {
    hide Others, Minus, AddressSettled, Unwanted;
    forall m | Carries(was, a, m)
      ensures m in Devices(was.vlans)
    {
      var v :| v in was.vlans && a.TaggingOf(m) == Some(TaggingFor(v));
      var i :| 0 <= i < |was.vlans| && was.vlans[i] == v;
      assert VlanSettled(a, was, i) && a.taggings[m] == a.taggings[v.device.value];
    }
    forall v | v in was.appliedVlans && Lists(was.vlans, v)
      ensures v.device.Some? && a.TaggingOf(v.device.value) == Some(TaggingFor(v))
    {
      var w :| w in was.vlans && SameKey(v, w);
      var i :| 0 <= i < |was.vlans| && was.vlans[i] == w;
      assert VlanSettled(a, was, i);
    }
  }

  class Reconciler {
    const host: Host
    var n: Manifest

    constructor (host: Host, n: Manifest)
      ensures this.host == host && this.n == n
    {
      this.host, this.n := host, n;
    }

    /** The manifest at hand could be saved, and owns what it records as owned. */
    ghost predicate Sound()
      reads this, host
    {
      host.Ready() && Checked(n) && host.Owns(n) && host.Working(n.id)
    }

    ghost predicate MadeFor(before: set<Name>, id: nat)
      reads host
    {
      forall d :: d in host.net.devices && d !in before ==> host.Mine(d, id)
    }

    lemma MadeNone()
      ensures MadeFor(host.net.devices, n.id)
    {
    }

    /** The store has the manifest at hand. */
    ghost predicate Stored()
      reads this, host`store
    {
      n.id in host.store && host.store[n.id] == n
    }

    /** The saved manifest names the interfaces that the one at hand does. */
    ghost predicate Pinned()
      reads this, host`store
    {
      && n.id in host.store
      && var m := host.store[n.id];
         m.vlans == n.vlans && m.device == n.device && m.owned == n.owned
    }

    /** The bridge to work on: the recorded one, or a new one if it is gone and was maco's, or never was. */
    method EnsureBridge() returns (ok: bool)
      requires Sound() && n.mode.BridgeMode?
      requires forall m :: m in n.members ==> m in host.net.devices
      modifies this`n, host`net, host`destroyed, host`store, host`creators, host`next, host`names, host`faults, host`lost, host`alive, host`script
      ensures host.Grows() && Sound()
      ensures Tags(old(host.net), host.net) && host.net.taggings == old(host.net).taggings
      ensures ok ==> n.device.Some? && n.device.value in host.net.devices
      ensures old(n.device.Some? && n.device.value in host.net.devices) ==>
        n == old(n) && host.net == old(host.net) && host.store == old(host.store)
      ensures ok && old(n.device.None? || n.device.value !in host.net.devices) ==>
        && (old(n).device.None? || old(n).owned)
        && n == old(n).(device := n.device, owned := true, appliedMembers := [])
        && n.device.value !in old(host.net).devices
        && host.net == old(host.net).With(n.device.value)
      ensures !ok ==> host.faults > old(host.faults) || BridgeLost(old(n), old(host.net))
      // A bridge that was just made is in the saved manifest, or gone again.
      ensures !ok && host.Calm() ==> host.net.devices <= old(host.net).devices && host.store == old(host.store)
      ensures ok && old(Stored()) ==> Stored()
      ensures BridgeLost(old(n), old(host.net)) ==> !ok && host.net == old(host.net) && host.store == old(host.store)
    {
      if n.device.Some? && n.device.value in host.net.devices {
        ok := host.IsBridge(n.device.value);
        return;
      }
      if n.device.Some? && !n.owned {
        return false;
      }
      ok := MakeBridge();
    }

    method MakeBridge() returns (ok: bool)
      requires Sound() && n.mode.BridgeMode?
      requires forall m :: m in n.members ==> m in host.net.devices
      modifies this`n, host`net, host`destroyed, host`store, host`creators, host`next, host`names, host`faults, host`lost, host`alive, host`script
      ensures host.Grows() && Sound()
      ensures Tags(old(host.net), host.net) && host.net.taggings == old(host.net).taggings
      ensures ok ==>
        && n == old(n).(device := n.device, owned := true, appliedMembers := [])
        && n.device.Some? && n.device.value !in old(host.net).devices
        && host.net == old(host.net).With(n.device.value)
        && Stored()
      ensures !ok ==> host.faults > old(host.faults)
      ensures !ok && host.Calm() ==> host.net.devices <= old(host.net).devices && host.store == old(host.store)
    {
      hide Checked, Host.Owns, Host.Filed, Host.Working, Host.Unharmed;
      var device;
      ghost var was := host.net;
      ok, device := host.Create(Bridge, n.id);
      host.OwnsStays(n);
      if !ok {
        return;
      }
      BridgeChecks(was, device);
      n := n.(device := Some(device), owned := true, appliedMembers := []);
      ghost var made := host.net;
      ok := SaveMade(host.net.devices, device, true);
      if !ok {
        Unmade(old(host.net), made, host.net, device);
      }
    }

    lemma BridgeChecks(was: Net, device: Name)
      requires Checked(n) && host.Owns(n) && n.mode.BridgeMode? && host.Ready() && device.kind.Bridge?
      requires (forall m :: m in n.members ==> m in was.devices) && device !in was.devices && host.Mine(device, n.id)
      ensures Checked(n.(device := Some(device), owned := true, appliedMembers := []))
      ensures host.Owns(n.(device := Some(device), owned := true, appliedMembers := []))
    {
    }

    /** What was applied before for a VLAN: its interface, and whether that was borrowed. */
    method Recall(v: VlanMember) returns (r: VlanMember)
      ensures Recollection(n.appliedVlans, v, r)
    {
      r := v;
      ghost var at := -1;
      for k := 0 to |n.appliedVlans|
        invariant -1 <= at < k && SameKey(r, v)
        invariant r == if at < 0 then v else n.appliedVlans[at]
        invariant forall j :: at < j < k ==> !SameKey(n.appliedVlans[j], v)
      {
        if SameKey(n.appliedVlans[k], v) {
          r := v.(device := n.appliedVlans[k].device, borrowed := n.appliedVlans[k].borrowed);
          at := k;
        }
      }
    }

    /** slices.DeleteFunc on the applied VLANs with a given parent and tag. */
    method Forget(v: VlanMember)
      modifies this`n
      ensures n == old(n).(appliedVlans := Minus(old(n).appliedVlans, set a | a in old(n).appliedVlans && SameKey(a, v)))
    {
      ghost var gone := set a | a in n.appliedVlans && SameKey(a, v);
      var left := [];
      for k := 0 to |n.appliedVlans|
        invariant n == old(n) && left == Minus(n.appliedVlans[..k], gone)
      {
        assert n.appliedVlans[..k + 1] == n.appliedVlans[..k] + [n.appliedVlans[k]];
        MinusAppend(n.appliedVlans[..k], [n.appliedVlans[k]], gone);
        if !SameKey(n.appliedVlans[k], v) {
          left := left + [n.appliedVlans[k]];
        }
      }
      assert n.appliedVlans[..|n.appliedVlans|] == n.appliedVlans;
      n := n.(appliedVlans := left);
    }

    method Record(ghost was: Manifest, i: nat, vlan: VlanMember)
      requires Sound() && Resolving(was, n, i) && i < |n.vlans|
      requires SameKey(vlan, n.vlans[i]) && vlan.device.Some? && vlan.device.value.kind.Vlan?
      requires vlan.borrowed || host.Mine(vlan.device.value, n.id)
      modifies this`n
      ensures Sound() && Resolving(was, n, i + 1) && n.vlans == old(n).vlans[i := vlan] && n.id == old(n).id && n.members == old(n).members
    {
      ghost var before := n;
      assert DistinctKeys(n.vlans);
      hide Checked, Minus, Resolving, Host.Ready, Host.Owns, Host.Mine, DistinctKeys;
      ghost var next := Replaced(n, i, vlan);
      Recorded(next, i, vlan);
      AppliedNext(was, before, next, i, vlan);
      StillChecked(before, next, i, vlan);
      hide Replaced;
      Replace(i, vlan);
      assert host.Ready() && host.Owns(n) && host.Working(n.id);
    }

    /** A manifest in which a VLAN has been resolved. */
    ghost function Replaced(n: Manifest, i: nat, vlan: VlanMember): (r: Manifest)
      requires i < |n.vlans|
      ensures r.id == n.id && r.members == n.members && r.vlans == n.vlans[i := vlan]
    {
      n.(vlans := n.vlans[i := vlan],
        appliedVlans := Minus(n.appliedVlans, set a | a in n.appliedVlans && SameKey(a, vlan)) + [vlan])
    }

    method Replace(i: nat, vlan: VlanMember)
      requires i < |n.vlans|
      modifies this`n
      ensures n == Replaced(old(n), i, vlan)
    {
      Forget(vlan);
      n := n.(vlans := n.vlans[i := vlan], appliedVlans := n.appliedVlans + [vlan]);
    }

    lemma Recorded(next: Manifest, i: nat, vlan: VlanMember)
      requires i < |n.vlans| && next == Replaced(n, i, vlan) && SameKey(vlan, n.vlans[i])
      requires host.Owns(n) && (vlan.borrowed || (vlan.device.Some? && host.Mine(vlan.device.value, n.id)))
      ensures host.Owns(next)
    {
      assert AskedOf(next).keys == AskedOf(n).keys;
    }

    /** Save the manifest; if that fails, destroy an interface that was only just made. */
    method SaveMade(ghost base: set<Name>, device: Name, made: bool) returns (ok: bool)
      requires Sound() && MadeFor(base, n.id) && (made ==> host.Mine(device, n.id))
      modifies host`net, host`destroyed, host`store, host`faults, host`lost, host`alive, host`script
      ensures host.Grows() && Sound() && MadeFor(base, n.id)
      ensures host.net == old(host.net) || (made && host.net == old(host.net).Without(device))
      ensures ok ==> host.alive && host.net == old(host.net) && Stored()
      ensures !ok ==> host.faults > old(host.faults)
      ensures !ok && host.Calm() ==> host.store == old(host.store) && (made ==> device !in host.net.devices)
      ensures host.faults == old(host.faults) || !ok
      ensures !made ==> host.Follows()
      ensures host.store == old(host.store) || host.store == old(host.store)[n.id := n]
    {
      ok := host.Save(n);
      if !ok && made {
        var destroyed := host.Destroy(device, n.id);
      }
    }

    /** One round of the loop over the VLANs: resolve it, record it, save. */
    method ApplyVlan(ghost was: Manifest, ghost base: set<Name>, i: nat) returns (ok: bool)
      requires Sound() && Resolving(was, n, i) && i < |n.vlans|
      requires MadeFor(base, n.id)
      modifies this`n, host`net, host`destroyed, host`store, host`creators, host`next, host`names, host`faults, host`lost, host`alive, host`script
      ensures host.Grows() && n.id == old(n).id
      ensures TagsVlans(Devices(was.appliedVlans), old(host.net), host.net) && MadeFor(base, n.id)
      ensures ok ==> Sound() && host.alive && Resolving(was, n, i + 1)
      ensures ok ==> |n.vlans| == |old(n).vlans| && n.vlans[..i] == old(n).vlans[..i] && n.vlans[i].device.Some?
      ensures ok ==> n.members == old(n).members
      ensures ok ==> host.net.TaggingOf(n.vlans[i].device.value) == Some(TaggingFor(n.vlans[i]))
      ensures ok && n.vlans[i].device.value in old(host.net).devices ==>
        n.vlans[i].borrowed || n.vlans[i].device.value in OwnVlans(was.appliedVlans)
      ensures ok ==> Stored()
      ensures ok && host.Calm() ==> host.net.devices <= old(host.net).devices + OwnVlans([n.vlans[i]])
      ensures !ok && host.Calm() && !Missing(was.appliedVlans, was.vlans, old(host.net)) ==>
        || (host.store == old(host.store) && host.net.devices <= old(host.net).devices)
        || (Stored() && Resolving(was, n, i + 1) && |n.vlans| == |old(n).vlans| && n.vlans[..i] == old(n).vlans[..i]
            && host.net.devices <= old(host.net).devices + OwnVlans([n.vlans[i]]))
      ensures VlanSettled(old(host.net), was, i) ==> host.net == old(host.net) && (ok ==> n.vlans[i] == was.vlans[i])
      ensures ok ==> forall e :: StillApplied(old(host.net), was, i, e) ==> n.vlans[i] == e
      ensures !ok ==>
        || host.faults > old(host.faults) || old(n).vlans[i].parent !in old(host.net).devices
        || TagConflict(was.appliedVlans, was.vlans, host.net)
    {
      hide Minus, Resolving, Checked, Host.Owns, Host.Mine, TagsVlans, OwnVlans, TagConflict;
      var vlan, made;
      ok, vlan, made := ResolveAt(was, base, i);
      if !ok {
        ConflictStays(was.appliedVlans, was.vlans, Devices(was.appliedVlans), old(host.net), host.net);
        return;
      }
      ghost var between := host.net;
      ok := KeepVlan(was, base, i, vlan, made);
      if made {
        UnmadeVlan(Devices(was.appliedVlans), old(host.net), between, host.net, vlan.device.value);
      }
    }

    /** The end of a round: record what the VLAN resolved to, save, and bring its parent up. */
    method KeepVlan(ghost was: Manifest, ghost base: set<Name>, i: nat, vlan: VlanMember, made: bool) returns (ok: bool)
      requires Sound() && Resolving(was, n, i) && i < |n.vlans| && MadeFor(base, n.id)
      requires SameKey(vlan, n.vlans[i]) && vlan.device.Some? && vlan.device.value.kind.Vlan?
      requires (made || !vlan.borrowed) ==> host.Mine(vlan.device.value, n.id)
      modifies this`n, host`net, host`destroyed, host`store, host`faults, host`lost, host`alive, host`script
      ensures host.Grows() && n.id == old(n).id && MadeFor(base, n.id)
      ensures Resolving(was, n, i + 1) && n.vlans == old(n).vlans[i := vlan] && n.members == old(n).members
      ensures host.net == old(host.net) || (made && host.net == old(host.net).Without(vlan.device.value))
      ensures ok ==> Sound() && host.alive && host.net == old(host.net) && Stored()
      ensures !ok ==> host.faults > old(host.faults)
      ensures !ok && host.Calm() ==>
        || (host.store == old(host.store) && (made ==> vlan.device.value !in host.net.devices))
        || (host.net == old(host.net) && Stored())
    {
      hide Minus, Resolving, Checked, Host.Owns, Host.Mine;
      Record(was, i, vlan);
      ok := SaveMade(base, vlan.device.value, made);
      if ok {
        ok := host.Up(vlan.parent);
      }
    }

    lemma UnmadeVlan(known: set<Name>, a: Net, c: Net, b: Net, d: Name)
      requires a.Valid() && d !in a.devices && TagsVlans(known, a, c) && (b == c || b == c.Without(d))
      ensures TagsVlans(known, a, b)
    {
      Unmade(a, c, b, d);
    }

    /** The first part of a round: what the VLAN at an index resolves to, and whether its interface was made for it. */
    method ResolveAt(ghost was: Manifest, ghost base: set<Name>, i: nat) returns (ok: bool, vlan: VlanMember, made: bool)
      requires Sound() && Resolving(was, n, i) && i < |n.vlans|
      requires MadeFor(base, n.id)
      modifies host`net, host`destroyed, host`creators, host`next, host`names, host`faults, host`lost, host`alive, host`script
      ensures host.Grows() && Sound() && host.store == old(host.store)
      ensures TagsVlans(Devices(was.appliedVlans), old(host.net), host.net) && MadeFor(base, n.id)
      ensures ok ==> host.alive && SameKey(vlan, n.vlans[i]) && vlan.device.Some? && vlan.device.value.kind.Vlan?
      ensures ok ==> host.net.TaggingOf(vlan.device.value) == Some(TaggingFor(vlan))
      ensures ok ==> (vlan.borrowed || host.Mine(vlan.device.value, n.id))
      ensures ok ==> vlan.borrowed || vlan.device.value !in old(host.net).devices || vlan.device.value in OwnVlans(was.appliedVlans)
      ensures made ==> ok && !vlan.borrowed && vlan.device.Some?
      ensures host.Calm() && !Missing(was.appliedVlans, was.vlans, old(host.net)) ==>
        host.net.devices <= old(host.net).devices + (if made then {vlan.device.value} else {})
      ensures ok && host.Calm() ==> host.net.devices <= old(host.net).devices + OwnVlans([vlan])
      ensures made ==> vlan.device.Some? && vlan.device.value !in old(host.net).devices && host.Mine(vlan.device.value, n.id)
      ensures VlanSettled(old(host.net), was, i) ==> host.net == old(host.net) && !made && (ok ==> vlan == was.vlans[i])
      ensures ok ==> forall e :: StillApplied(old(host.net), was, i, e) ==> vlan == e
      ensures !ok ==>
        || host.faults > old(host.faults) || n.vlans[i].parent !in old(host.net).devices
        || TagConflict(was.appliedVlans, was.vlans, old(host.net))
    {
      hide Minus, Resolving, Checked, OwnVlans, TagConflict, Host.Working, Host.Filed, AskedOf, StillApplied, Missing, Resolvable;
      made := false;
      vlan := TakeUp(was, i);
      if vlan.parent !in host.net.devices {
        return false, vlan, false;
      }
      var device, owned;
      ok, device, owned := ResolveVlan(host, n.id, vlan.device, !vlan.borrowed, TaggingFor(vlan));
      if !ok {
        return;
      }
      made := owned && Some(device) != vlan.device;
      if owned && !made && vlan.borrowed && device !in old(host.net).devices {
        MissingAt(was, i, vlan, old(host.net));
      }
      vlan := vlan.(device := Some(device), borrowed := !owned);
      OwnOneMore([], vlan);
    }

    /** What a round begins with: the VLAN as it was applied before, if it was. */
    method TakeUp(ghost was: Manifest, i: nat) returns (vlan: VlanMember)
      requires Sound() && Resolving(was, n, i) && i < |n.vlans|
      ensures i < |was.vlans| && SameKey(vlan, n.vlans[i]) && SameKey(vlan, was.vlans[i])
      ensures vlan.device.Some? ==> vlan.device.value.kind.Vlan? && vlan in was.appliedVlans
      ensures vlan.device.Some? && !vlan.borrowed ==>
        vlan.device.value in OwnVlans(was.appliedVlans) && host.Mine(vlan.device.value, n.id)
      ensures vlan.device.Some? ==> vlan.device.value in Devices(was.appliedVlans)
      ensures VlanSettled(host.net, was, i) ==> vlan == was.vlans[i]
      ensures forall e :: StillApplied(host.net, was, i, e) ==>
        vlan == e && vlan.device.Some? && host.net.TaggingOf(vlan.device.value) == Some(TaggingFor(vlan))
      ensures vlan.parent in host.net.devices && !Resolvable(host.net, vlan.device, TaggingFor(vlan)) ==>
        TagConflict(was.appliedVlans, was.vlans, host.net)
    {
      hide Minus, Resolving, Checked, OwnVlans, TagConflict, Host.Working, Host.Filed, AskedOf, Recollection, StillApplied, Only,
        Resolvable;
      vlan := Recall(n.vlans[i]);
      Recollected(n.appliedVlans, n.vlans[i], vlan);
      Recalled(was, n, i, vlan);
      OnlyRecalled(was, i, vlan);
      Conflicting(was, i, vlan, host.net);
    }

    lemma OnlyRecalled(was: Manifest, i: nat, vlan: VlanMember)
      requires Checked(n) && Resolving(was, n, i) && i < |n.vlans|
      requires forall e :: Only(n.appliedVlans, n.vlans[i], e) ==> vlan == e
      ensures forall e :: StillApplied(host.net, was, i, e) ==>
        vlan == e && vlan.device.Some? && host.net.TaggingOf(vlan.device.value) == Some(TaggingFor(vlan))
    {
      hide Minus, Listed;
      OnlyStays(was, n, i);
    }

    /** Resolving the VLANs, as far as it has got: what the loop keeps. */
    ghost predicate Progress(was: Manifest, a: Net, n: Manifest, c: Net, i: nat) {
      && Resolving(was, n, i)
      && n.id == was.id && n.members == was.members
      && TagsVlans(Devices(was.appliedVlans), a, c)
      && ResolvedIn(n.vlans[..i], c) && OwnedBefore(n.vlans[..i], a.devices, was)
      && (AllSettled(was, a) ==> c == a && n.vlans[..i] == was.vlans[..i])
    }

    ghost predicate AllSettled(was: Manifest, a: Net) {
      forall i :: 0 <= i < |was.vlans| ==> VlanSettled(a, was, i)
    }

    lemma NoProgress(a: Net)
      ensures Progress(n, a, n, a, 0) && TagsVlans(Devices(n.appliedVlans), a, a)
      ensures Listing(n.members, n.vlans[..0], n.members)
    {
      ResolvingNone(n);
      TagsNone(Devices(n.appliedVlans), a, n);
    }

    lemma AllProgress(was: Manifest, a: Net, c: Net)
      requires Progress(was, a, n, c, |n.vlans|)
      ensures Resolving(was, n, |n.vlans|) && TagsVlans(Devices(was.appliedVlans), a, c) && n.id == was.id
      ensures ResolvedIn(n.vlans, c) && OwnedBefore(n.vlans, a.devices, was)
      ensures AllSettled(was, a) ==> c == a && n.vlans == was.vlans
    {
      assert n.vlans[..|n.vlans|] == n.vlans && was.vlans[..|n.vlans|] == was.vlans;
    }

    lemma SameLength(was: Manifest, i: nat)
      requires Resolving(was, n, i)
      ensures |was.vlans| == |n.vlans|
    {
    }

    lemma MoreProgress(was: Manifest, a: Net, n0: Manifest, b: Net, c: Net, i: nat)
      requires Progress(was, a, n0, b, i) && i < |n0.vlans| == |n.vlans|
      requires TagsVlans(Devices(was.appliedVlans), b, c) && Resolving(was, n, i + 1) && n.id == n0.id && n.members == n0.members
      requires n.vlans[..i] == n0.vlans[..i] && n.vlans[i].device.Some?
      requires c.TaggingOf(n.vlans[i].device.value) == Some(TaggingFor(n.vlans[i]))
      requires n.vlans[i].device.value in b.devices ==>
        n.vlans[i].borrowed || n.vlans[i].device.value in OwnVlans(was.appliedVlans)
      requires VlanSettled(b, was, i) ==> c == b && n.vlans[i] == was.vlans[i]
      ensures Progress(was, a, n, c, i + 1)
    {
      hide Resolving, TagsVlans, ResolvedIn, OwnedBefore, OwnVlans, VlanSettled, Devices;
      MoreDevices(Devices(was.appliedVlans), a, b);
      SameLength(was, i + 1);
      var vlans := n0.vlans[..i];
      assert n.vlans[..i + 1] == vlans + [n.vlans[i]];
      TagsTwice(Devices(was.appliedVlans), a, b, c);
      StillResolved(vlans, Devices(was.appliedVlans), b, c);
      ResolvedAppend(vlans, n.vlans[i], c);
      OwnedAppend(vlans, n.vlans[i], a.devices, was);
      if AllSettled(was, a) {
        assert was.vlans[..i + 1] == was.vlans[..i] + [was.vlans[i]];
      }
    }

    /** One round of the loop over the VLANs, and what the loop keeps. */
    method ApplyNext(ghost was: Manifest, ghost a: Net, i: nat) returns (ok: bool)
      requires Sound() && Progress(was, a, n, host.net, i) && MadeFor(a.devices, n.id) && i < |n.vlans| && Stored()
      modifies this`n, host`net, host`destroyed, host`store, host`creators, host`next, host`names, host`faults, host`lost, host`alive, host`script
      ensures host.Grows() && n.id == old(n).id && (ok ==> n.members == old(n).members)
      ensures TagsVlans(Devices(was.appliedVlans), a, host.net) && MadeFor(a.devices, n.id)
      ensures ok ==> Sound() && Progress(was, a, n, host.net, i + 1)
      ensures ok ==> |n.vlans| == |old(n).vlans| && n.vlans[..i] == old(n).vlans[..i] && n.vlans[i].device.Some?
      ensures AllSettled(was, a) ==> host.net == a
      ensures ok ==> forall e :: StillApplied(a, was, i, e) ==> n.vlans[i] == e
      ensures ok && host.Calm() ==> host.net.devices <= old(host.net).devices + OwnVlans([n.vlans[i]])
      ensures ok ==> Stored()
      ensures !ok && host.Calm() && !Missing(was.appliedVlans, was.vlans, a) && old(host.net.devices <= a.devices + OwnVlans(n.vlans[..i])) ==>
        Accounted(a.devices, was)
      ensures !ok ==>
        || host.faults > old(host.faults) || !ParentsPresent(was, a)
        || TagConflict(was.appliedVlans, was.vlans, host.net)
    {
      hide Checked, Host.Owns, Host.Ready, Host.Mine, Host.Working, TagsVlans, MadeFor, Resolving, VlanSettled, OwnVlans,
        TagConflict, ParentsPresent, ResolvedIn, OwnedBefore, Devices, StillApplied;
      ghost var before, n0 := host.net, n;
      MoreDevices(Devices(was.appliedVlans), a, before);
      StaysApplied(was, Devices(was.appliedVlans), a, before, i);
      ParentThere(was, n, i, a, before);
      SameLength(was, i);
      ok := ApplyVlan(was, a.devices, i);
      TagsTwice(Devices(was.appliedVlans), a, before, host.net);
      MissingBefore(was.appliedVlans, was.vlans, a, before);
      if ok {
        MoreProgress(was, a, n0, before, host.net, i);
      } else if host.Calm() && !Missing(was.appliedVlans, was.vlans, a) && before.devices <= a.devices + OwnVlans(n0.vlans[..i]) {
        OwnSoFar(was, n0, i);
        if host.store != old(host.store) || !(host.net.devices <= before.devices) {
          assert n.vlans[..i + 1] == n0.vlans[..i] + [n.vlans[i]];
          OwnOneMore(n0.vlans[..i], n.vlans[i]);
          OwnOneMore([], n.vlans[i]);
          OwnSoFar(was, n, i + 1);
        }
      }
    }

    /** The interfaces that are new are recorded as made for the network, and so is its bridge if it was. */
    ghost predicate Accounted(base: set<Name>, was: Manifest)
      reads host`net, host`store
    {
      && was.id in host.store
      && host.store[was.id].device == was.device && host.store[was.id].owned == was.owned
      && host.net.devices <= base + OwnVlans(host.store[was.id].appliedVlans)
    }

    lemma OwnSoFar(was: Manifest, n: Manifest, i: nat)
      requires Resolving(was, n, i)
      ensures OwnVlans(n.vlans[..i]) <= OwnVlans(n.appliedVlans) && n.device == was.device && n.owned == was.owned && n.id == was.id
    {
    }

    /** Resolve every VLAN. */
    method ApplyVlans() returns (ok: bool, desired: seq<Name>)
      requires Sound() && Stored()
      modifies this`n, host`net, host`destroyed, host`store, host`creators, host`next, host`names, host`faults, host`lost, host`alive, host`script
      ensures host.Grows() && n.id == old(n).id
      ensures TagsVlans(Devices(old(n).appliedVlans), old(host.net), host.net) && MadeFor(old(host.net).devices, n.id)
      ensures ok ==> Sound() && Resolving(old(n), n, |n.vlans|)
      ensures ok ==> ResolvedIn(n.vlans, host.net) && OwnedBefore(n.vlans, old(host.net.devices), old(n))
      ensures ok && host.Calm() ==> host.net.devices <= old(host.net).devices + OwnVlans(n.vlans)
      ensures ok ==> Stored()
      ensures ok ==> RecordsKept(old(n), old(host.net), n.vlans)
      ensures !ok && host.Calm() && !Missing(old(n).appliedVlans, old(n).vlans, old(host.net)) ==> Accounted(old(host.net.devices), old(n))
      ensures ok ==> Elements(desired) == Desired(n)
      ensures (forall i :: 0 <= i < |old(n).vlans| ==> VlanSettled(old(host.net), old(n), i)) ==>
        host.net == old(host.net) && (ok ==> n.vlans == old(n).vlans)
      ensures ok ==> IsDesired(n, desired)
      ensures !ok ==>
        || host.faults > old(host.faults) || !ParentsPresent(old(n), old(host.net))
        || TagConflict(old(n).appliedVlans, old(n).vlans, host.net)
    {
      hide Checked, Host.Owns, Host.Ready, Host.Mine, Host.Working, TagsVlans, MadeFor, VlanSettled, TagConflict, ParentsPresent,
        Progress, Listing, Elements, Desired, Devices, OwnedBefore, ResolvedIn, Resolving, RecordsKept, StillApplied;
      desired := n.members;
      ghost var was, a := n, host.net;
      NoneKept(was, a);
      NoProgress(a);
      MadeNone();
      ok := true;
      for i := 0 to |n.vlans|
        invariant host.Grows() && Sound() && Progress(was, a, n, host.net, i) && MadeFor(a.devices, n.id)
        invariant n.id == was.id && |n.vlans| == |was.vlans| && n.members == was.members
        invariant TagsVlans(Devices(was.appliedVlans), a, host.net)
        invariant AllSettled(was, a) ==> host.net == a
        invariant Listing(n.members, n.vlans[..i], desired)
        invariant host.Calm() ==> host.net.devices <= a.devices + OwnVlans(n.vlans[..i])
        invariant Stored()
        invariant RecordsKept(was, a, n.vlans[..i])
      {
        ghost var vlans := n.vlans;
        ok := ApplyNext(was, a, i);
        if !ok {
          return;
        }
        KeptNext(was, a, vlans, n.vlans, i);
        assert n.vlans[..i + 1] == vlans[..i] + [n.vlans[i]];
        OwnOneMore(vlans[..i], n.vlans[i]);
        OwnOneMore([], n.vlans[i]);
        ListingNext(was.members, vlans[..i], desired, n.vlans[i]);
        desired := desired + [n.vlans[i].device.value];
      }
      AllProgress(was, a, host.net);
      assert n.vlans[..|n.vlans|] == n.vlans;
      DesiredAre(desired);
    }

    lemma DesiredAre(desired: seq<Name>)
      requires Listing(n.members, n.vlans, desired)
      ensures Elements(desired) == Desired(n)
    {
      forall d | d in desired
        ensures d in Desired(n)
      {
        var k :| 0 <= k < |desired| && desired[k] == d;
        if k < |n.members| {
          assert n.members[k] == d;
        } else {
          assert n.vlans[k - |n.members|] in n.vlans;
        }
      }
      forall d | d in Desired(n)
        ensures d in desired
      {
        if d in n.members {
          assert d in desired[..|n.members|];
        } else {
          var v :| v in n.vlans && v.device == Some(d);
          var j :| 0 <= j < |n.vlans| && n.vlans[j] == v;
          assert desired[|n.members| + j] == d;
        }
      }
    }

    /** Take off the bridge what maco put there before and is not desired any more. */
    method RemoveStale(b: Name, desired: seq<Name>, members: set<Name>) returns (ok: bool)
      requires Sound() && n.mode.BridgeMode? && n.device == Some(b) && members == host.net.Members(b)
      modifies this`n, host`net, host`destroyed, host`faults, host`lost, host`alive, host`script
      ensures host.Grows() && Sound() && n == old(n).(appliedMembers := n.appliedMembers)
      ensures host.net == old(host.net).(bridges := host.net.bridges)
      ensures forall m ::
        || host.net.BridgeOf(m) == old(host.net).BridgeOf(m)
        || (m in old(n).appliedMembers && m !in desired && old(host.net).BridgeOf(m) == Some(b))
      ensures ok ==> forall m :: m in old(n).appliedMembers && m !in desired && old(host.net).BridgeOf(m) == Some(b) ==>
        host.net.BridgeOf(m).None?
      ensures ok ==> forall m :: m in n.appliedMembers <==> m in old(n).appliedMembers && m in desired
      ensures NoDuplicates(old(n).appliedMembers) ==> NoDuplicates(n.appliedMembers)
      ensures (forall m :: m in old(n).appliedMembers ==> m in desired) ==> host.net == old(host.net) && n == old(n)
      ensures !ok ==> host.faults > old(host.faults) || !NoDuplicates(old(n).appliedMembers)
    {
      hide Checked, Host.Ready, Host.Owns, Host.MayPart, Host.Working, NoDuplicates;
      var applied := n.appliedMembers;
      host.OwnsParts(n);
      ok := true;
      for i := 0 to |applied|
        invariant host.Grows() && Sound() && n == old(n).(appliedMembers := n.appliedMembers)
        invariant host.net == old(host.net).(bridges := host.net.bridges)
        invariant forall m ::
          || host.net.BridgeOf(m) == old(host.net).BridgeOf(m)
          || (m in applied && m !in desired && old(host.net).BridgeOf(m) == Some(b))
        invariant forall m :: m in applied[..i] && m !in desired && old(host.net).BridgeOf(m) == Some(b) ==>
          host.net.BridgeOf(m).None?
        invariant forall m :: m !in applied[..i] ==> host.net.BridgeOf(m) == old(host.net).BridgeOf(m)
        invariant forall m :: m in n.appliedMembers <==> m in applied && (m in desired || m !in applied[..i])
        invariant forall m :: m in applied ==> host.MayPart(b, m)
        invariant NoDuplicates(applied) ==> NoDuplicates(n.appliedMembers)
        invariant (forall m :: m in applied ==> m in desired) ==> host.net == old(host.net) && n == old(n)
      {
        var previous := applied[i];
        assert applied[..i + 1] == applied[..i] + [previous];
        SeenBefore(applied, i);
        if previous !in desired {
          ok := RemoveOne(b, previous, previous in members);
          if !ok {
            return;
          }
        }
      }
      assert applied[..|applied|] == applied;
    }

    /** One round of that loop. */
    method RemoveOne(b: Name, previous: Name, isMember: bool) returns (ok: bool)
      requires Sound() && host.MayPart(b, previous)
      modifies this`n, host`net, host`destroyed, host`faults, host`lost, host`alive, host`script
      ensures host.Grows() && Sound() && n == old(n).(appliedMembers := n.appliedMembers)
      ensures host.net != old(host.net) ==>
        isMember && host.net == old(host.net).Parted(previous) && old(host.net).BridgeOf(previous) == Some(b)
      ensures ok && isMember ==> host.net.BridgeOf(previous).None?
      ensures ok ==> forall m :: m in n.appliedMembers <==> m in old(n).appliedMembers && m != previous
      ensures NoDuplicates(old(n).appliedMembers) ==> NoDuplicates(n.appliedMembers)
      ensures !ok ==> n == old(n)
      ensures !ok ==> host.faults > old(host.faults) || (isMember && old(host.net).BridgeOf(previous) != Some(b))
    {
      hide Checked, Host.Ready, Host.Owns, Host.MayPart, Host.Working;
      ok := true;
      if isMember {
        ok := host.RemoveMember(b, previous);
      }
      if ok {
        Unrecord(previous);
      }
    }

    /** slices.DeleteFunc on the applied members. */
    method Unrecord(member: Name)
      requires Sound()
      modifies this`n
      ensures Sound() && n == old(n).(appliedMembers := n.appliedMembers)
      ensures forall m :: m in n.appliedMembers <==> m in old(n).appliedMembers && m != member
      ensures NoDuplicates(old(n).appliedMembers) ==> NoDuplicates(n.appliedMembers)
    {
      var left := [];
      for k := 0 to |n.appliedMembers|
        invariant n == old(n) && forall m :: m in left <==> m in n.appliedMembers[..k] && m != member
        invariant NoDuplicates(n.appliedMembers) ==> NoDuplicates(left)
      {
        SeenBefore(n.appliedMembers, k);
        if n.appliedMembers[k] != member {
          left := left + [n.appliedMembers[k]];
        }
      }
      n := n.(appliedMembers := left);
    }

    /** Put the desired interfaces on the bridge, recording each one that maco adds. */
    method AddMissing(b: Name, desired: seq<Name>, members: set<Name>) returns (ok: bool)
      requires Sound() && b.kind.Bridge? && n.device == Some(b)
      requires forall m :: m in desired ==> (m in members <==> host.net.BridgeOf(m) == Some(b))
      modifies this`n, host`net, host`destroyed, host`store, host`faults, host`lost, host`alive, host`script
      ensures host.Grows() && Sound() && n == old(n).(appliedMembers := n.appliedMembers)
      ensures host.net == old(host.net).(bridges := host.net.bridges)
      ensures forall m ::
        || host.net.BridgeOf(m) == old(host.net).BridgeOf(m)
        || (old(host.net).BridgeOf(m).None? && m in desired && host.net.BridgeOf(m) == Some(b))
      ensures ok ==> forall m :: m in desired ==> host.net.BridgeOf(m) == Some(b)
      ensures ok ==> forall m :: m in n.appliedMembers <==> m in old(n).appliedMembers || (m in desired && m !in members)
      ensures NoDuplicates(old(n).appliedMembers) ==> NoDuplicates(n.appliedMembers)
      ensures (forall m :: m in desired ==> m in members) ==> host.net == old(host.net) && n == old(n)
      ensures !ok ==> host.faults > old(host.faults) || MembersBlocked(desired, b, old(host.net))
      ensures old(Pinned()) ==> Pinned()
    {
      hide Checked, Host.Ready, Host.Owns, Host.Working, NoDuplicates;
      ok := true;
      for i := 0 to |desired|
        invariant old(Pinned()) ==> Pinned()
        invariant host.Grows() && Sound() && n == old(n).(appliedMembers := n.appliedMembers)
        invariant host.net == old(host.net).(bridges := host.net.bridges)
        invariant forall m ::
          || host.net.BridgeOf(m) == old(host.net).BridgeOf(m)
          || (old(host.net).BridgeOf(m).None? && m in desired && host.net.BridgeOf(m) == Some(b))
        invariant forall m :: m in desired[..i] ==> host.net.BridgeOf(m) == Some(b)
        invariant forall m :: m !in desired[..i] ==> host.net.BridgeOf(m) == old(host.net).BridgeOf(m)
        invariant forall m :: m in n.appliedMembers <==> m in old(n).appliedMembers || (m in desired[..i] && m !in members)
        invariant (forall m :: m in desired ==> m in members) ==> host.net == old(host.net) && n == old(n)
        invariant NoDuplicates(old(n).appliedMembers) ==> NoDuplicates(n.appliedMembers)
      {
        var member := desired[i];
        assert desired[..i + 1] == desired[..i] + [member];
        SeenBefore(desired, i);
        ok := Supply(b, member, member in members);
        if !ok {
          return;
        }
      }
      assert desired[..|desired|] == desired;
    }

    /** One round of that loop. */
    method Supply(b: Name, member: Name, isMember: bool) returns (ok: bool)
      requires Sound() && b.kind.Bridge? && n.device == Some(b) && (isMember ==> host.net.BridgeOf(member) == Some(b))
      modifies this`n, host`net, host`destroyed, host`store, host`faults, host`lost, host`alive, host`script
      ensures host.Grows() && Sound() && n == old(n).(appliedMembers := n.appliedMembers)
      ensures host.net == old(host.net) || (old(host.net).BridgeOf(member).None? && host.net == old(host.net).Joined(b, member))
      ensures ok ==> host.net.BridgeOf(member) == Some(b)
      ensures ok ==> forall m :: m in n.appliedMembers <==> m in old(n).appliedMembers || (m == member && !isMember)
      ensures NoDuplicates(old(n).appliedMembers) ==> NoDuplicates(n.appliedMembers)
      ensures isMember ==> host.net == old(host.net) && n == old(n)
      ensures !ok ==>
        || host.faults > old(host.faults) || b !in old(host.net).devices || member !in old(host.net).devices
        || (!isMember && old(host.net).BridgeOf(member).Some?)
      ensures old(Pinned()) ==> Pinned()
      ensures host.Calm() && host.net != old(host.net) ==> member in n.appliedMembers && (Stored() || member in old(n).appliedMembers)
    {
      hide Checked, Host.Ready, Host.Owns, Host.Working, NoDuplicates;
      if member !in host.net.devices {
        return false;
      }
      if !isMember {
        ok := AddOne(b, member);
        if !ok {
          return;
        }
      }
      ok := host.Up(member);
    }

    /** Add a member, record it, save; if it cannot be saved, take the member off again. */
    method AddOne(b: Name, member: Name) returns (ok: bool)
      requires Sound() && b.kind.Bridge? && n.device == Some(b)
      modifies this`n, host`net, host`destroyed, host`store, host`faults, host`lost, host`alive, host`script
      ensures host.Grows() && Sound() && n == old(n).(appliedMembers := n.appliedMembers)
      ensures host.net == old(host.net) || (old(host.net).BridgeOf(member).None? && host.net == old(host.net).Joined(b, member))
      ensures ok ==> host.net.BridgeOf(member) == Some(b)
      ensures ok ==> forall m :: m in n.appliedMembers <==> m in old(n).appliedMembers || m == member
      ensures NoDuplicates(old(n).appliedMembers) ==> NoDuplicates(n.appliedMembers)
      ensures !ok ==>
        || host.faults > old(host.faults) || b !in old(host.net).devices || member !in old(host.net).devices
        || old(host.net).BridgeOf(member).Some?
      ensures old(Pinned()) ==> Pinned()
      ensures ok ==> Stored() || member in old(n).appliedMembers
      ensures !ok && host.Calm() ==> host.net == old(host.net) && host.store == old(host.store)
    {
      hide Checked, Host.Ready, Host.Owns, Host.MayPart, Host.Working;
      host.NotBefore(b, member, Address(0, 0));
      ok := host.AddMember(b, member);
      if !ok {
        return;
      }
      if member !in n.appliedMembers {
        ok := RecordMember(b, member);
        if !ok {
          var removed := host.RemoveMember(b, member);
          assert old(host.net).bridges[member := b] - {member} == old(host.net).bridges;
          assert old(host.net).Joined(b, member).Parted(member) == old(host.net);
        }
      }
    }

    /** Record a member that was added, and save. */
    method RecordMember(b: Name, member: Name) returns (ok: bool)
      requires Sound() && n.device == Some(b) && host.MayPart(b, member)
      modifies this`n, host`store, host`faults, host`lost, host`alive, host`script
      ensures host.Grows() && Sound() && n == old(n).(appliedMembers := old(n).appliedMembers + [member])
      ensures !ok ==> host.faults > old(host.faults)
      ensures old(Pinned()) ==> Pinned()
      ensures ok ==> Stored()
      ensures !ok && host.lost == old(host.lost) ==> host.store == old(host.store)
    {
      hide Checked, Host.Ready, Host.Owns, Host.MayPart;
      n := n.(appliedMembers := n.appliedMembers + [member]);
      SameChecks(old(n), n);
      OneMore(old(n), b, member);
      ok := host.Save(n);
    }

    lemma OneMore(before: Manifest, b: Name, member: Name)
      requires host.Owns(before) && before.device == Some(b) && host.MayPart(b, member)
      requires n == before.(appliedMembers := before.appliedMembers + [member])
      ensures host.Owns(n)
    {
    }

    lemma SameChecks(a: Manifest, c: Manifest)
      requires Checked(a) && c == a.(appliedMembers := c.appliedMembers, appliedAddress := c.appliedAddress)
      ensures Checked(c)
    {
    }

    /** slices.DeleteFunc on the applied VLANs with a given interface. */
    method ForgetDevice(d: Name)
      modifies this`n
      ensures n == old(n).(appliedVlans := Minus(old(n).appliedVlans, set a | a in old(n).appliedVlans && a.device == Some(d)))
    {
      ghost var gone := set a | a in n.appliedVlans && a.device == Some(d);
      var left := [];
      for k := 0 to |n.appliedVlans|
        invariant n == old(n) && left == Minus(n.appliedVlans[..k], gone)
      {
        assert n.appliedVlans[..k + 1] == n.appliedVlans[..k] + [n.appliedVlans[k]];
        MinusAppend(n.appliedVlans[..k], [n.appliedVlans[k]], gone);
        if n.appliedVlans[k].device != Some(d) {
          left := left + [n.appliedVlans[k]];
        }
      }
      assert n.appliedVlans[..|n.appliedVlans|] == n.appliedVlans;
      n := n.(appliedVlans := left);
    }

    /** Destroy the VLAN interfaces made for this network that it does not need any more, and forget them. */
    method DropVlans(desired: seq<Name>) returns (ok: bool, ghost dropped: set<Name>)
      requires Sound() && forall v :: v in n.vlans && v.device.Some? ==> v.device.value in desired
      modifies this`n, host`net, host`destroyed, host`store, host`faults, host`lost, host`alive, host`script
      ensures host.Grows() && Sound() && n == old(n).(appliedVlans := n.appliedVlans)
      ensures host.net == old(host.net).WithoutAll(dropped) && dropped <= Surplus(old(n).appliedVlans, Elements(desired))
      ensures ok ==> dropped == Surplus(old(n).appliedVlans, Elements(desired))
      ensures ok ==> n == old(n).(appliedVlans := Minus(old(n).appliedVlans, Unwanted(old(n).appliedVlans, Elements(desired))))
      ensures Unwanted(old(n).appliedVlans, Elements(desired)) == {} ==> host.net == old(host.net) && n == old(n)
      ensures !ok ==> host.faults > old(host.faults)
      ensures old(Pinned()) ==> Pinned()
      ensures host.net.devices <= old(host.net.devices)
    {
      hide Checked, Host.Owns, Host.Mine, Minus, Surplus, Unwanted;
      var applied := n.appliedVlans;
      dropped := {};
      ghost var gone: set<VlanMember> := {};
      NothingGone(host.net, applied, Elements(desired));
      OwnsThen();
      ok := true;
      for i := 0 to |applied|
        invariant old(Pinned()) ==> Pinned()
        invariant host.Grows() && Sound() && n == old(n).(appliedVlans := Minus(applied, gone))
        invariant host.net == old(host.net).WithoutAll(dropped) && dropped == Surplus(applied[..i], Elements(desired))
        invariant Unwanted(applied[..i], Elements(desired)) <= gone <= Unwanted(applied, Elements(desired))
        invariant OwnedThen(applied, n.id)
      {
        var a := applied[i];
        assert applied[..i + 1] == applied[..i] + [a];
        SurplusOneMore(applied[..i], a, Elements(desired));
        SurplusWithin(applied, i, Elements(desired));
        if a.device.Some? && a.device.value !in desired {
          ok, dropped, gone := DropRound(applied, a, old(host.net), dropped, gone);
          if !ok {
            return;
          }
        }
      }
      assert applied[..|applied|] == applied;
      assert gone == Unwanted(applied, Elements(desired));
    }

    /** Whatever is on a list and not borrowed was made for the network. */
    ghost predicate OwnedThen(applied: seq<VlanMember>, id: nat)
      reads host`creators, host`creating
    {
      forall v :: v in applied && !v.borrowed && v.device.Some? ==> host.Mine(v.device.value, id)
    }

    lemma OwnsThen()
      requires host.Owns(n)
      ensures OwnedThen(n.appliedVlans, n.id)
    {
    }

    /** One round of the last loop, for an interface that is not desired. */
    method DropRound(ghost applied: seq<VlanMember>, a: VlanMember, ghost base: Net, ghost dropped: set<Name>, ghost gone: set<VlanMember>)
      returns (ok: bool, ghost nowDropped: set<Name>, ghost nowGone: set<VlanMember>)
      requires Sound() && base.Valid() && OwnedThen(applied, n.id) && a in applied && a.device.Some?
      requires host.net == base.WithoutAll(dropped) && n.appliedVlans == Minus(applied, gone)
      requires forall v :: v in n.vlans ==> v.device != a.device
      modifies this`n, host`net, host`destroyed, host`store, host`faults, host`lost, host`alive, host`script
      ensures host.Grows() && Sound() && OwnedThen(applied, n.id) && n == old(n).(appliedVlans := n.appliedVlans)
      ensures host.net == base.WithoutAll(nowDropped)
      ensures dropped <= nowDropped <= dropped + (if a.borrowed then {} else {a.device.value})
      ensures ok && !a.borrowed ==> nowDropped == dropped + {a.device.value}
      ensures ok ==> nowGone == gone + (set v | v in applied && v.device == a.device)
      ensures ok ==> n == old(n).(appliedVlans := Minus(applied, nowGone))
      ensures !ok ==> host.faults > old(host.faults)
      ensures old(Pinned()) ==> Pinned()
    {
      hide Checked, Minus;
      nowDropped, nowGone := dropped, gone;
      ghost var before := host.net;
      ok := DropOne(a);
      base.WithoutOneMore(dropped, a.device.value);
      if host.net != before {
        nowDropped := dropped + {a.device.value};
      } else if ok && !a.borrowed {
        base.WithoutAbsent(dropped, a.device.value);
        nowDropped := dropped + {a.device.value};
      }
      if ok {
        nowGone := gone + (set v | v in applied && v.device == a.device);
        ghost var same := set v | v in Minus(applied, gone) && v.device == a.device;
        MinusTwice(applied, gone, same);
        MinusSame(applied, gone + same, nowGone);
      }
    }

    lemma SurplusWithin(applied: seq<VlanMember>, i: nat, desired: set<Name>)
      requires i < |applied|
      ensures Surplus(applied[..i], desired) <= Surplus(applied, desired)
      ensures applied[i].device.Some? && !applied[i].borrowed && applied[i].device.value !in desired ==>
        applied[i].device.value in Surplus(applied, desired)
      ensures Unwanted(applied[..i + 1], desired) ==
        Unwanted(applied[..i], desired) + (if applied[i].device.Some? && applied[i].device.value !in desired then {applied[i]} else {})
      ensures applied[i].device.Some? && applied[i].device.value !in desired ==>
        (set v | v in applied && v.device == applied[i].device) <= Unwanted(applied, desired)
    {
      assert applied[..i + 1] == applied[..i] + [applied[i]];
      assert applied[i] in applied;
    }

    lemma NothingGone(net: Net, applied: seq<VlanMember>, desired: set<Name>)
      requires net.Valid()
      ensures net == net.WithoutAll({}) && applied == Minus(applied, {})
      ensures Surplus([], desired) == {} && Unwanted([], desired) == {}
      ensures Unwanted(applied, desired) == {} ==> Surplus(applied, desired) == {}
    {
      forall d | d in Surplus(applied, desired)
        ensures Unwanted(applied, desired) != {}
      {
        var v :| v in applied && v.device == Some(d) && !v.borrowed;
        assert v in Unwanted(applied, desired);
      }
      net.WithoutNone();
      MinusNone(applied, {});
    }

    /** Destroy an interface unless it was borrowed, forget it, and save. */
    method DropOne(a: VlanMember) returns (ok: bool)
      requires Sound() && a.device.Some? && (!a.borrowed ==> host.Mine(a.device.value, n.id))
      requires forall v :: v in n.vlans ==> v.device != a.device
      modifies this`n, host`net, host`destroyed, host`store, host`faults, host`lost, host`alive, host`script
      ensures host.Grows() && Sound() && n == old(n).(appliedVlans := n.appliedVlans)
      ensures host.net == old(host.net) || (!a.borrowed && host.net == old(host.net).Without(a.device.value))
      ensures ok && !a.borrowed ==> a.device.value !in host.net.devices
      ensures ok ==> n == old(n).(appliedVlans := Minus(old(n).appliedVlans,
        set v | v in old(n).appliedVlans && v.device == a.device))
      ensures !ok ==> host.faults > old(host.faults)
      ensures old(Pinned()) ==> Pinned()
      ensures ok ==> Stored()
    {
      hide Checked, Host.Ready, Minus;
      if !a.borrowed && a.device.value in host.net.devices {
        ok := host.Destroy(a.device.value, n.id);
        if !ok {
          return;
        }
      }
      ForgetDevice(a.device.value);
      ForgottenChecks(old(n), n, a.device);
      ok := host.Save(n);
    }

    lemma ForgottenChecks(was: Manifest, now: Manifest, d: Option<Name>)
      requires Checked(was) && forall v :: v in was.vlans ==> v.device != d
      requires now == was.(appliedVlans := Minus(was.appliedVlans, set a | a in was.appliedVlans && a.device == d))
      ensures Checked(now)
    {
    }

    /** The bridge's own address: take the old one away, set the new one. */
    method ApplyAddress(b: Name) returns (ok: bool)
      requires Sound() && n.mode.BridgeMode? && n.device == Some(b)
      modifies this`n, host`net, host`destroyed, host`faults, host`lost, host`alive, host`script
      ensures host.Grows() && Sound() && n == old(n).(appliedAddress := n.appliedAddress)
      ensures host.net == old(host.net).(addresses := host.net.addresses)
      ensures AddressKept(old(n).appliedAddress, old(n).address, b, old(host.net), host.net)
      ensures ok ==> AddressSettled(n.appliedAddress, n.address, b, host.net)
      ensures ok && old(n).appliedAddress.None? ==>
        Undoable(n.appliedAddress, b, old(host.net), host.net)
      ensures ok && old(n).appliedAddress.Some? && old(n).appliedAddress != n.address ==>
        !host.net.Has(b, old(n).appliedAddress.value)
      ensures AddressSettled(old(n).appliedAddress, old(n).address, b, old(host.net)) ==> host.net == old(host.net) && n == old(n)
      ensures !ok ==> host.faults > old(host.faults) || b !in old(host.net).devices
      ensures old(Pinned()) ==> Pinned()
      ensures !ok ==> n.appliedAddress == old(n).appliedAddress || n.appliedAddress.None?
    {
      hide Checked, Host.Ready, Host.Owns, Host.Working;
      ok := TakeAddress(b);
      if !ok {
        return;
      }
      if n.address.Some? && !host.net.Has(b, n.address.value) {
        host.NotBefore(b, b, n.address.value);
        SameButAddress(n.(appliedAddress := n.address), b);
        ok := host.SetAddress(b, n.address.value);
        if !ok {
          return;
        }
        n := n.(appliedAddress := n.address);
      }
    }

    /** The first part of that: the address is not the one that was applied. */
    method TakeAddress(b: Name) returns (ok: bool)
      requires Sound() && n.mode.BridgeMode? && n.device == Some(b)
      modifies this`n, host`net, host`destroyed, host`faults, host`lost, host`alive, host`script
      ensures host.Grows() && Sound()
      ensures if ok && old(n).appliedAddress.Some? && old(n).appliedAddress != n.address
        then n == old(n).(appliedAddress := None) && host.net == old(host.net).Unaddressed(b, old(n).appliedAddress.value)
        else n == old(n)
      ensures n == old(n) && host.net != old(host.net) ==>
        n.appliedAddress.Some? && n.appliedAddress != n.address && host.net == old(host.net).Unaddressed(b, n.appliedAddress.value)
      ensures ok ==> n.appliedAddress.Some? ==> n.appliedAddress == n.address && host.net == old(host.net)
      ensures !ok ==> host.faults > old(host.faults)
    {
      host.OwnsParts(n);
      SameButAddress(n.(appliedAddress := None), b);
      hide Checked, Host.Ready, Host.Owns, Host.MayUnaddress, Host.Working;
      ok := true;
      if n.appliedAddress.Some? && n.appliedAddress != n.address {
        ok := host.RemoveAddress(b, n.appliedAddress.value);
        if ok {
          n := n.(appliedAddress := None);
        }
      }
    }

    lemma SameButAddress(next: Manifest, b: Name)
      requires Checked(n) && host.Owns(n) && n.device == Some(b) && next == n.(appliedAddress := next.appliedAddress)
      requires next.appliedAddress.Some? ==> host.MayUnaddress(b, next.appliedAddress.value)
      ensures Checked(next) && host.Owns(next)
    {
    }

    /** The second part of Ensure: make the bridge's members, the VLAN interfaces and the address what they should be. */
    method Converge(desired: seq<Name>) returns (ok: bool)
      requires Sound() && n.mode.BridgeMode? && n.device.Some?
      requires Elements(desired) == Desired(n)
      modifies this`n, host`net, host`destroyed, host`store, host`faults, host`lost, host`alive, host`script
      ensures host.Grows() && n.members == old(n).members && n.vlans == old(n).vlans && n.device == old(n).device
      ensures Keeps(Leftovers(old(n), Elements(desired)), old(host.net), host.net)
      ensures ok ==> host.alive && n.id in host.store && host.store[n.id] == n && n.id == old(n).id
      ensures ok ==> Converged(old(n), Elements(desired), old(host.net), n, host.net)
      ensures NothingToDo(old(n), Elements(desired), old(host.net)) ==> host.net == old(host.net) && (ok ==> n == old(n))
      ensures !ok ==>
        || host.faults > old(host.faults) || !NoDuplicates(old(n).appliedMembers)
        || MembersBlocked(desired, old(n).device.value, old(host.net))
      ensures old(Pinned()) ==> Pinned()
      ensures host.net.devices <= old(host.net.devices) && n.owned == old(n).owned && n.id == old(n).id
    {
      hide Checked, Host.Owns, Host.Ready, Host.Working, Elements, Desired, Minus, Surplus, Unwanted, Keeps, AddressKept, AddressSettled, Undoable,
        Converged, MembersConverged, MembersSettled, MembersKept, Pinned;
      var b := n.device.value;
      HostValid();
      CarriersDesired(b, desired);
      ok := ConvergeMembers(b, desired);
      KeepsMembers(old(n), Elements(desired), old(host.net), host.net);
      if ok {
        ok := ConvergeRest(b, desired, old(n), old(host.net));
      }
    }

    lemma CarriersDesired(b: Name, desired: seq<Name>)
      requires Sound() && n.mode.BridgeMode? && n.device == Some(b) && Elements(desired) == Desired(n)
      ensures b.kind.Bridge? && forall v :: v in n.vlans && v.device.Some? ==> v.device.value in desired
    {
      forall v | v in n.vlans && v.device.Some?
        ensures v.device.value in desired
      {
        assert v.device.value in Desired(n);
        assert v.device.value in Elements(desired);
      }
    }

    method ConvergeRest(b: Name, desired: seq<Name>, ghost was: Manifest, ghost a: Net) returns (ok: bool)
      requires Sound() && n.mode.BridgeMode? && was.device == Some(b) && n == was.(appliedMembers := n.appliedMembers)
      requires forall v :: v in n.vlans && v.device.Some? ==> v.device.value in desired
      requires a.Valid() && host.net == a.(bridges := host.net.bridges) && MembersKept(was.appliedMembers, b, a, host.net)
      requires MembersConverged(was.appliedMembers, Elements(desired), b, a, n.appliedMembers, host.net)
      modifies this`n, host`net, host`destroyed, host`store, host`faults, host`lost, host`alive, host`script
      ensures host.Grows() && n.members == old(n).members && n.vlans == old(n).vlans && n.device == old(n).device
      ensures Keeps(Leftovers(was, Elements(desired)), a, host.net)
      ensures ok ==> host.alive && n.id in host.store && host.store[n.id] == n && n.id == was.id
      ensures ok ==> Converged(was, Elements(desired), a, n, host.net)
      ensures Unwanted(was.appliedVlans, Elements(desired)) == {} && AddressSettled(was.appliedAddress, was.address, b, old(host.net)) ==>
        host.net == old(host.net) && (ok ==> n == old(n))
      ensures !ok ==> host.faults > old(host.faults) || b !in a.devices
      ensures old(Pinned()) ==> Pinned()
      ensures host.net.devices <= old(host.net.devices) && n.owned == old(n).owned && n.id == old(n).id
    {
      hide Checked, Host.Owns, Host.Ready, Minus, Surplus, Unwanted, Keeps, AddressKept, AddressSettled, Undoable,
        Converged, MembersConverged, MembersKept, Net.WithoutAll, Elements, Host.Working, Pinned;
      Kinds(Elements(desired));
      ghost var joined, n1 := host.net, n;
      ghost var dropped;
      ok, dropped := DropVlans(desired);
      KeepsDropped(was, Elements(desired), a, joined, dropped);
      if !ok {
        return;
      }
      ghost var bare := host.net;
      ok := ApplyAddress(b);
      KeepsAddress(was, Elements(desired), b, a, bare, host.net);
      if !ok {
        return;
      }
      ok := UpAndSave(b);
      Composed(was, Elements(desired), b, a, n1, joined, n, host.net);
    }

    lemma Kinds(desired: set<Name>)
      requires Checked(n) && n.mode.BridgeMode? && n.device.Some?
      ensures n.device.value.kind.Bridge? && forall d :: d in Surplus(n.appliedVlans, desired) ==> d.kind.Vlan?
    {
    }

    method UpAndSave(device: Name) returns (ok: bool)
      requires Sound()
      modifies host`store, host`faults, host`lost, host`alive, host`script
      ensures host.Grows() && Sound()
      ensures ok ==> host.alive && n.id in host.store && host.store[n.id] == n
      ensures !ok ==> host.faults > old(host.faults)
      ensures old(Pinned()) ==> Pinned()
      ensures old(Stored()) ==> Stored()
      ensures host.store == old(host.store) || host.store == old(host.store)[n.id := n]
    {
      hide Checked, Host.Owns, Host.Ready;
      ok := host.Up(device);
      if ok {
        ok := host.Save(n);
      }
    }

    lemma Composed(n0: Manifest, desired: set<Name>, b: Name, a: Net, n1: Manifest, j: Net, n2: Manifest, c: Net)
      requires n0.device == Some(b) && b.kind.Bridge? && a.Valid() && j == a.(bridges := j.bridges)
      requires forall d :: d in Surplus(n0.appliedVlans, desired) ==> d.kind.Vlan?
      requires MembersConverged(n0.appliedMembers, desired, b, a, n1.appliedMembers, j)
      requires n1 == n0.(appliedMembers := n1.appliedMembers)
      requires n2 == n1.(appliedVlans := Minus(n1.appliedVlans, Unwanted(n1.appliedVlans, desired)), appliedAddress := n2.appliedAddress)
      requires var bare := j.WithoutAll(Surplus(n0.appliedVlans, desired));
        && c == bare.(addresses := c.addresses) && AddressKept(n0.appliedAddress, n0.address, b, bare, c)
        && (n0.appliedAddress.None? ==> Undoable(n2.appliedAddress, b, bare, c))
      requires AddressSettled(n2.appliedAddress, n2.address, b, c)
      ensures Converged(n0, desired, a, n2, c)
    {
      hide Minus, Unwanted, AddressSettled;
      var surplus := Surplus(n0.appliedVlans, desired);
      assert j.WithoutAll(surplus).addresses == a.WithoutAll(surplus).addresses;
    }

    /** Make the members of the bridge the desired ones, except for members that are not maco's. */
    method ConvergeMembers(b: Name, desired: seq<Name>) returns (ok: bool)
      requires Sound() && n.mode.BridgeMode? && b.kind.Bridge? && n.device == Some(b)
      modifies this`n, host`net, host`destroyed, host`store, host`faults, host`lost, host`alive, host`script
      ensures host.Grows() && Sound() && n == old(n).(appliedMembers := n.appliedMembers)
      ensures host.net == old(host.net).(bridges := host.net.bridges)
      ensures MembersKept(old(n).appliedMembers, b, old(host.net), host.net)
      ensures ok ==> MembersConverged(old(n).appliedMembers, Elements(desired), b, old(host.net), n.appliedMembers, host.net)
      ensures MembersSettled(old(n).appliedMembers, Elements(desired), b, old(host.net)) ==> host.net == old(host.net) && n == old(n)
      ensures !ok ==> host.faults > old(host.faults) || !NoDuplicates(old(n).appliedMembers) || MembersBlocked(desired, b, old(host.net))
      ensures old(Pinned()) ==> Pinned()
    {
      hide Checked, Host.Owns, Host.Ready;
      var members;
      ok, members := host.MembersOf(b);
      if !ok {
        return;
      }
      ok := RemoveStale(b, desired, members);
      if !ok {
        return;
      }
      ok := AddMissing(b, desired, members);
    }

    lemma KeepsMembers(n: Manifest, desired: set<Name>, a: Net, c: Net)
      requires n.device.Some? && c == a.(bridges := c.bridges) && MembersKept(n.appliedMembers, n.device.value, a, c)
      ensures Keeps(Leftovers(n, desired), a, c)
    {
    }

    lemma KeepsDropped(n: Manifest, desired: set<Name>, a: Net, c: Net, dropped: set<Name>)
      requires n.device.Some? && c == a.(bridges := c.bridges) && MembersKept(n.appliedMembers, n.device.value, a, c)
      requires dropped <= Surplus(n.appliedVlans, desired)
      ensures Keeps(Leftovers(n, desired), a, c.WithoutAll(dropped))
    {
    }

    lemma KeepsAddress(n: Manifest, desired: set<Name>, b: Name, a: Net, c: Net, d: Net)
      requires n.device == Some(b) && Keeps(Leftovers(n, desired), a, c) && AddressKept(n.appliedAddress, n.address, b, c, d)
      requires d == c.(addresses := d.addresses)
      ensures Keeps(Leftovers(n, desired), a, d)
    {
    }

    /** Ensure, for a network that is a bridge. */
    method EnsureBridgeMode() returns (ok: bool)
      requires host.Ready() && host.Working(n.id)
      modifies this`n, host`net, host`destroyed, host`store, host`creators, host`next, host`names, host`faults, host`lost, host`alive, host`script
      ensures host.Grows()
      ensures old(n.id !in host.store) ==> !ok && host.net == old(host.net)
      ensures old(n.id in host.store) ==> Keeps(StakeOf(old(host.store[n.id])), old(host.net), host.net)
      ensures ok ==> host.alive && n.id == old(n).id && n.id in host.store && host.store[n.id] == n
      ensures ok ==> Applied(old(host.store[n.id]), old(host.net), n, host.net)
      ensures ok && host.Calm() ==> NoLeftovers(n, old(host.net), host.net)
      ensures host.Calm() && old(n.id in host.store && !Gone(host.store[n.id], host.net)) ==> Held(old(host.net.devices), old(n).id)
      ensures old(n.id in host.store && InPlace(host.store[n.id], host.net)) ==>
        host.net == old(host.net) && (ok ==> n == old(host.store[n.id]))
      ensures !ok ==>
        || host.faults > old(host.faults) || old(n.id !in host.store) || !old(host.store[n.id]).mode.BridgeMode?
        || Obstacle(old(host.store[n.id]), old(host.net), host.net)
      ensures old(n.id in host.store && Reapplies(host.store[n.id], host.net)) ==> ok || host.faults > old(host.faults)
      ensures old(n.id in host.store && !AllThere(host.store[n.id], host.net)) ==>
        !ok && host.net == old(host.net) && host.store == old(host.store)
      ensures ok ==> RecordsKept(old(host.store[n.id]), old(host.net), n.vlans)
    {
      hide Applied, Keeps, InPlace, Checked, Host.Owns, Orderly;
      if n.id in host.store {
        KeepsItself(StakeOf(host.store[n.id]), host.net);
      }
      var current;
      ok, current := host.Load(n.id);
      if !ok || current.None? {
        return false;
      }
      n := current.value;
      if !n.mode.BridgeMode? {
        return false;
      }
      ok := AllPresent();
      if !ok {
        return;
      }
      ok := EnsurePresent();
    }

    /** Ensure, once the manifest is loaded and everything it refers to exists. */
    method EnsurePresent() returns (ok: bool)
      requires Sound() && n.mode.BridgeMode? && Stored()
      requires AllThere(n, host.net)
      modifies this`n, host`net, host`destroyed, host`store, host`creators, host`next, host`names, host`faults, host`lost, host`alive, host`script
      ensures host.Grows()
      ensures Keeps(StakeOf(old(n)), old(host.net), host.net)
      ensures ok ==> host.alive && n.id == old(n).id && n.id in host.store && host.store[n.id] == n
      ensures ok ==> Applied(old(n), old(host.net), n, host.net)
      ensures ok && host.Calm() ==> NoLeftovers(n, old(host.net), host.net)
      ensures host.Calm() && !Missing(old(n).appliedVlans, old(n).vlans, old(host.net)) ==> Held(old(host.net.devices), old(n.id))
      ensures InPlace(old(n), old(host.net)) ==> host.net == old(host.net) && (ok ==> n == old(n))
      ensures !ok ==> host.faults > old(host.faults) || Obstacle(old(n), old(host.net), host.net)
      ensures InPlace(old(n), old(host.net)) && Orderly(old(n)) && !ok ==> host.faults > old(host.faults)
      ensures ok ==> RecordsKept(old(n), old(host.net), n.vlans)
    {
      hide Checked, Host.Owns, Host.Ready, Host.Working, Keeps, Tags, Applied, Interfaces, InterfacesSettled, Converged, NothingToDo,
        Surplus, Unwanted, Minus, Others, InPlace, BridgeLost, TagConflict, IsDesired, Obstacle, Pinned, Held, Missing, NoLeftovers, RecordsKept;
      ghost var was, a := n, host.net;
      HostValid();
      ObstacleWhy(was, a, a);
      InPlaceSettled(was, a);
      var desired;
      ok, desired := EnsureInterfaces();
      KeepsTags(StakeOf(was), a, host.net);
      if ok {
        if InPlace(was, a) {
          InPlaceStays(was, a, n);
        }
        InterfacesId(was, a, n, host.net);
        StoredIsPinned();
        ghost var n1, made := n, host.net;
        ok := EnsureMembers(desired, was, a);
        PinnedIsHeld(was, a, n1, made);
      } else {
        ObstacleWhy(was, a, host.net);
      }
      if InPlace(was, a) && Orderly(was) {
        NoObstacle(was, a);
      }
    }

    lemma HostValid()
      requires Sound()
      ensures host.net.Valid() && DistinctKeys(n.vlans) && NoDuplicates(n.members)
    {
    }

    lemma StoredIsPinned()
      requires Stored()
      ensures Pinned()
    {
    }

    lemma PinnedIsHeld(was: Manifest, a: Net, n1: Manifest, made: Net)
      requires host.Ready() && Pinned() && n.vlans == n1.vlans && n.device == n1.device && n.owned == n1.owned
      requires Interfaces(was, a, n1, made) && host.net.devices <= made.devices
      ensures NoLeftovers(n1, a, made) ==> Held(a.devices, n.id)
      ensures NoLeftovers(n1, a, made) ==> NoLeftovers(n, a, host.net)
    {
      var m := host.store[n.id];
      assert Checked(m);
      assert OwnVlans(m.vlans) <= OwnVlans(m.appliedVlans);
    }

    method EnsureMembers(desired: seq<Name>, ghost was: Manifest, ghost a: Net) returns (ok: bool)
      requires Sound() && n.mode.BridgeMode? && n.device.Some? && Elements(desired) == Desired(n) && IsDesired(n, desired)
      requires a.Valid() && Tags(a, host.net) && Interfaces(was, a, n, host.net)
      modifies this`n, host`net, host`destroyed, host`store, host`creators, host`next, host`names, host`faults, host`lost, host`alive, host`script
      ensures host.Grows()
      ensures Keeps(StakeOf(was), a, host.net)
      ensures ok ==> host.alive && n.id == was.id && n.id in host.store && host.store[n.id] == n
      ensures ok ==> Applied(was, a, n, host.net)
      ensures ok ==> host.net.devices <= old(host.net).devices
      ensures NothingToDo(old(n), Desired(old(n)), old(host.net)) ==> host.net == old(host.net) && (ok ==> n == old(n))
      ensures n.members == old(n).members && n.vlans == old(n).vlans && n.device == old(n).device
      ensures !ok && AllThere(was, a) ==> host.faults > old(host.faults) || Obstacle(was, a, host.net)
      ensures old(Pinned()) ==> Pinned()
      ensures host.net.devices <= old(host.net.devices) && n.owned == old(n).owned && n.id == old(n).id
    {
      hide Checked, Host.Owns, Host.Ready, Host.Working, Keeps, Tags, Applied, Interfaces, Converged, NothingToDo,
        Surplus, Unwanted, Minus, Others, BridgeLost, TagConflict, IsDesired, MembersBlocked, Obstacle, AllThere, DistinctKeys;
      ghost var n1, between := n, host.net;
      HostValid();
      InterfacesId(was, a, n1, between);
      ok := Converge(desired);
      KeepsAll(was, a, n1, between, host.net);
      if ok {
        AppliedAll(was, a, n1, between, n, host.net);
      } else if AllThere(was, a) {
        Why(was, a, n1, between, desired, host.net);
      }
    }

    /** Whether the members and the parents of the VLANs exist. */
    method AllPresent() returns (ok: bool)
      ensures ok <==> AllThere(n, host.net)
    {
      for i := 0 to |n.members|
        invariant forall m :: m in n.members[..i] ==> m in host.net.devices
      {
        if n.members[i] !in host.net.devices {
          return false;
        }
      }
      for i := 0 to |n.vlans|
        invariant forall v :: v in n.vlans[..i] ==> v.parent in host.net.devices
      {
        if n.vlans[i].parent !in host.net.devices {
          return false;
        }
      }
      ok := true;
    }

    /** The first part of Ensure: the bridge and the VLAN interfaces exist. */
    method EnsureInterfaces() returns (ok: bool, desired: seq<Name>)
      requires Sound() && n.mode.BridgeMode? && Stored()
      requires forall m :: m in n.members ==> m in host.net.devices
      modifies this`n, host`net, host`destroyed, host`store, host`creators, host`next, host`names, host`faults, host`lost, host`alive, host`script
      ensures host.Grows() && Tags(old(host.net), host.net)
      ensures ok ==> Sound() && Interfaces(old(n), old(host.net), n, host.net) && Elements(desired) == Desired(n) && Stored()
      ensures ok && host.Calm() ==> NoLeftovers(n, old(host.net), host.net)
      ensures ok ==> RecordsKept(old(n), old(host.net), n.vlans)
      ensures !ok && host.Calm() && !Missing(old(n).appliedVlans, old(n).vlans, old(host.net)) ==> Held(old(host.net.devices), old(n.id))
      ensures InterfacesSettled(old(n), old(host.net)) ==> host.net == old(host.net) && (ok ==> n.vlans == old(n).vlans)
      ensures ok ==> IsDesired(n, desired)
      ensures !ok ==>
        || host.faults > old(host.faults) || BridgeLost(old(n), old(host.net)) || !ParentsPresent(old(n), old(host.net))
        || TagConflict(old(n).appliedVlans, old(n).vlans, host.net)
    {
      hide Host.Ready, Checked, Host.Owns, Minus, VlanSettled, ResolvedIn, Resolving, OwnedBefore, Unaffected, Missing, OwnVlans, Held,
        Accounted, RecordsKept;
      desired := [];
      ok := EnsureBridge();
      if !ok {
        if host.Calm() {
          NothingNew(old(host.net.devices), old(n.id));
        }
        return;
      }
      ghost var n1, made := n, host.net;
      ok, desired := ApplyVlans();
      MissingBefore(n1.appliedVlans, n1.vlans, old(host.net), made);
      if ok {
        ResolvedAll(n1, n);
        NotAffected(old(n), old(host.net), n1, made, n, host.net);
        SameKept(old(n), n1, old(host.net), made, n.vlans);
      } else if Accounted(made.devices, n1) {
        AccountedIsHeld(old(host.net.devices), made.devices, n1);
      }
    }

    /** The interfaces that are new are recorded in the saved manifest as made for the network. */
    ghost predicate Held(base: set<Name>, id: nat)
      reads host`net, host`store
    {
      id in host.store && host.net.devices <= base + StakeOf(host.store[id]).own
    }

    lemma NothingNew(base: set<Name>, id: nat)
      requires id in host.store && host.net.devices <= base
      ensures Held(base, id)
    {
    }

    lemma AccountedIsHeld(base: set<Name>, made: set<Name>, n1: Manifest)
      requires Accounted(made, n1) && made <= base + (if n1.owned && n1.device.Some? then {n1.device.value} else {})
      ensures Held(base, n1.id)
    {
    }

    lemma NotAffected(was: Manifest, a: Net, n1: Manifest, between: Net, n: Manifest, c: Net)
      requires n1.appliedVlans == was.appliedVlans && a.devices <= between.devices && between.taggings == a.taggings
      requires TagsVlans(Devices(n1.appliedVlans), between, c) && OwnedBefore(n.vlans, between.devices, n1)
      ensures Unaffected(was, a, n, c)
    {
    }

    lemma SameKept(was: Manifest, n1: Manifest, a: Net, made: Net, vs: seq<VlanMember>)
      requires n1.vlans == was.vlans && n1.appliedVlans == was.appliedVlans && made.taggings == a.taggings
      requires RecordsKept(n1, made, vs)
      ensures RecordsKept(was, a, vs)
    {
      forall i: nat, e | i < |vs| && StillApplied(a, was, i, e)
        ensures vs[i] == e
      {
        assert StillApplied(made, n1, i, e);
      }
    }

    lemma ResolvedAll(was: Manifest, n: Manifest)
      requires Resolving(was, n, |n.vlans|)
      ensures n == was.(vlans := n.vlans, appliedVlans := n.appliedVlans) && n.appliedVlans == Others(was) + n.vlans
      ensures |n.vlans| == |was.vlans| && forall i :: 0 <= i < |n.vlans| ==> SameKey(n.vlans[i], was.vlans[i])
    {
      assert was.vlans[..|n.vlans|] == was.vlans && n.vlans[..|n.vlans|] == n.vlans;
    }

    /** A network's interface was borrowed and is gone, and the one made instead will get its name. */
    ghost predicate Unlucky(m: Manifest)
      reads host`net, host`creators, host`names
    {
      m.mode.VlanMode? && m.device.Some? && m.parent.Some? && !m.owned && Renames(host, m.device.value, Tagging(m.parent.value, m.tag))
    }

    /** ensureVLAN: Ensure, for a network that is a VLAN interface. */
    method EnsureVlanMode() returns (ok: bool)
      requires host.Ready() && host.Working(n.id)
      modifies this`n, host`net, host`destroyed, host`store, host`creators, host`next, host`names, host`faults, host`lost, host`alive, host`script
      ensures host.Grows() && Tags(old(host.net), host.net)
      ensures ok ==> host.alive && n.id == old(n).id && old(n.id in host.store) && n.id in host.store && host.store[n.id] == n
      ensures ok ==> VlanApplied(old(host.store[n.id]), old(host.net), n, host.net)
      ensures old(n.id in host.store && VlanInPlace(host.store[n.id], host.net)) ==>
        host.net == old(host.net) && (ok ==> n == old(host.store[n.id]))
      ensures host.Calm() && old(n.id in host.store && !Gone(host.store[n.id], host.net)) ==> Held(old(host.net.devices), old(n).id)
      ensures !ok ==>
        || host.faults > old(host.faults) || old(n.id !in host.store) || !old(host.store[n.id]).mode.VlanMode?
        || VlanObstacle(old(host.store[n.id]), old(host.net))
      ensures old(FailsAfter(host, 4) && n.id in host.store && Unlucky(host.store[n.id])) ==>
        !ok && host.Calm() && old(host.store[n.id]).device.value in host.net.devices && host.store == old(host.store)
      ensures old(n.id in host.store && host.store[n.id].parent.Some? && host.store[n.id].parent.value !in host.net.devices) ==>
        !ok && host.net == old(host.net) && host.store == old(host.store)
      ensures old(n.id in host.store) ==> old(n).id in host.store && host.store[old(n).id].appliedVlans == old(host.store[n.id]).appliedVlans
    {
      hide Checked, Host.Owns, Host.Mine, Host.Unharmed, Host.Filed, Net.Valid, Held, Gone, VlanApplied, VlanInPlace, Resolvable, Renames;
      if n.id in host.store {
        NothingNew(host.net.devices, n.id);
      }
      var current;
      ok, current := host.Load(n.id);
      if !ok || current.None? {
        return false;
      }
      n := current.value;
      if !n.mode.VlanMode? {
        return false;
      }
      OwnsVlan();
      if n.parent.value !in host.net.devices {
        UnluckyParent(n);
        return false;
      }
      ok := EnsureVlanPresent();
    }

    lemma UnluckyParent(m: Manifest)
      ensures Unlucky(m) ==> m.parent.value in host.net.devices && m.device.value !in host.net.devices
    {
    }

    method EnsureVlanPresent() returns (ok: bool)
      requires Sound() && n.mode.VlanMode? && Stored() && n.parent.value in host.net.devices
      modifies this`n, host`net, host`destroyed, host`store, host`creators, host`next, host`names, host`faults, host`lost, host`alive, host`script
      ensures host.Grows() && Tags(old(host.net), host.net)
      ensures ok ==> host.alive && n.id == old(n).id && n.id in host.store && host.store[n.id] == n
      ensures ok ==> VlanApplied(old(n), old(host.net), n, host.net)
      ensures VlanInPlace(old(n), old(host.net)) ==> host.net == old(host.net) && (ok ==> n == old(n))
      ensures host.Calm() && !Gone(old(n), old(host.net)) ==> Held(old(host.net.devices), old(n).id)
      ensures !ok ==>
        || host.faults > old(host.faults)
        || !Resolvable(old(host.net), old(n).device, Tagging(old(n).parent.value, old(n).tag))
      ensures old(FailsAfter(host, 3) && Unlucky(n)) ==>
        !ok && host.Calm() && old(n).device.value in host.net.devices && host.store == old(host.store)
      ensures n.id == old(n).id && n.id in host.store && host.store[n.id].appliedVlans == old(n).appliedVlans
    {
      hide Host.Ready, Host.Owns, Host.Mine, Host.Working, Checked, Resolvable, Renames, Held;
      OwnsVlan();
      var device, owned;
      ghost var was, a := n, host.net;
      ok, device, owned := ResolveVlan(host, n.id, n.device, n.owned, Tagging(n.parent.value, n.tag));
      if !ok {
        if host.Calm() {
          NothingNew(a.devices, n.id);
        }
        return;
      }
      ghost var between := host.net;
      host.OwnsStays(n);
      host.InOrder();
      ok := UseVlan(device, owned);
      if host.net != between {
        Unmade(a, between, host.net, device);
      }
      if host.Calm() && !Gone(was, a) {
        UsedIsHeld(was, a, between, device, owned);
      }
    }

    /** ensureVLAN, once the interface is found or made. */
    method UseVlan(device: Name, owned: bool) returns (ok: bool)
      requires Sound() && n.mode.VlanMode? && n.parent.Some?
      requires host.net.TaggingOf(device).Some? && (owned ==> host.Mine(device, n.id))
      modifies this`n, host`net, host`destroyed, host`store, host`faults, host`lost, host`alive, host`script
      ensures host.Grows() && n == old(n).(device := Some(device), owned := owned)
      ensures
        var made := owned && Some(device) != old(n).device;
        && (host.net == old(host.net) || (made && host.net == old(host.net).Without(device)))
        && (host.Calm() ==> Stored() || (!ok && host.store == old(host.store) && (made ==> device !in host.net.devices)))
        && (!made && old(FailsAfter(host, 0)) ==>
          !ok && host.net == old(host.net) && host.store == old(host.store) && host.faults == old(host.faults) + 1 && host.lost == old(host.lost))
      ensures ok ==> host.alive && host.net == old(host.net) && Stored()
      ensures !ok ==> host.faults > old(host.faults)
      ensures host.store == old(host.store) || host.store == old(host.store)[n.id := n]
    {
      hide Host.Ready, Host.Owns, Host.Mine, Checked;
      VlanChecks(device, owned);
      var previous := n.device;
      n := n.(device := Some(device), owned := owned);
      ok := PersistVlan(device, owned && Some(device) != previous);
    }

    lemma UsedIsHeld(was: Manifest, a: Net, between: Net, device: Name, owned: bool)
      requires was.mode.VlanMode? && !Gone(was, a) && n == was.(device := Some(device), owned := owned)
      requires between.devices <= a.devices + (if owned then {device} else {}) && host.net.devices <= between.devices
      requires owned && was.owned && Some(device) == was.device ==> device in a.devices
      requires Stored() || (n.id in host.store && (owned && Some(device) != was.device ==> device !in host.net.devices))
      ensures Held(a.devices, n.id)
    {
    }

    /** The end of ensureVLAN: save what was found or made, bring it up, and save again. */
    method PersistVlan(device: Name, made: bool) returns (ok: bool)
      requires Sound() && n.parent.Some? && (made ==> host.Mine(device, n.id))
      modifies host`net, host`destroyed, host`store, host`faults, host`lost, host`alive, host`script
      ensures host.Grows()
      ensures host.net == old(host.net) || (made && host.net == old(host.net).Without(device))
      ensures ok ==> host.alive && host.net == old(host.net) && n.id in host.store && host.store[n.id] == n
      ensures !ok ==> host.faults > old(host.faults)
      ensures host.Calm() ==> Stored() || (!ok && host.store == old(host.store) && (made ==> device !in host.net.devices))
      ensures !made && old(FailsAfter(host, 0)) ==>
        !ok && host.net == old(host.net) && host.store == old(host.store) && host.faults == old(host.faults) + 1 && host.lost == old(host.lost)
      ensures host.store == old(host.store) || host.store == old(host.store)[n.id := n]
    {
      MadeNone();
      hide Checked, Host.Owns, Host.Ready, Host.Mine, MadeFor;
      ok := SaveMade(host.net.devices, device, made);
      if !ok {
        return;
      }
      ok := host.Up(n.parent.value);
      if ok {
        ok := UpAndSave(device);
      }
    }

    lemma VlanChecks(device: Name, owned: bool)
      requires Sound() && n.mode.VlanMode? && host.net.TaggingOf(device).Some? && (owned ==> host.Mine(device, n.id))
      ensures Checked(n.(device := Some(device), owned := owned)) && host.Owns(n.(device := Some(device), owned := owned))
    {
    }

    lemma OwnsVlan()
      requires Sound() && n.mode.VlanMode?
      ensures host.net.Valid() && n.parent.Some?
      ensures n.device.Some? ==> n.device.value.kind.Vlan? && (n.owned ==> host.Mine(n.device.value, n.id))
    {
    }

    /** Ensure: bring the host to what a network's manifest asks for. */
    method Ensure() returns (ok: bool)
      requires host.Ready() && host.Working(n.id)
      modifies this`n, host`net, host`destroyed, host`store, host`creators, host`next, host`names, host`faults, host`lost, host`alive, host`script
      ensures host.Grows()
      ensures old(n.id !in host.store) ==> Tags(old(host.net), host.net)
      ensures old(n.id in host.store) ==> Keeps(StakeOf(old(host.store[n.id])), old(host.net), host.net)
      ensures ok && (old(n).mode.BridgeMode? || old(n).mode.VlanMode?) ==>
        old(n.id in host.store) && n.id == old(n).id && n.id in host.store && host.store[n.id] == n
      ensures ok && old(n).mode.BridgeMode? ==> Applied(old(host.store[n.id]), old(host.net), n, host.net)
      ensures ok && old(n).mode.VlanMode? ==> VlanApplied(old(host.store[n.id]), old(host.net), n, host.net)
      ensures ok && old(n).mode.BridgeMode? && host.Calm() ==> NoLeftovers(n, old(host.net), host.net)
      // If one command fails, and without effect, every interface made is recorded, unless it took a borrowed one's name.
      ensures host.Calm() && old(n.id in host.store && !Gone(host.store[n.id], host.net)) ==> Held(old(host.net.devices), old(n).id)
      ensures !old(n).mode.BridgeMode? && !old(n).mode.VlanMode? ==>
        host.net == old(host.net) && host.store == old(host.store) && n == old(n)
      ensures old(n).mode.BridgeMode? && old(n.id in host.store && InPlace(host.store[n.id], host.net)) ==>
        host.net == old(host.net) && (ok ==> n == old(host.store[n.id]))
      ensures old(n).mode.VlanMode? && old(n.id in host.store && VlanInPlace(host.store[n.id], host.net)) ==>
        host.net == old(host.net) && (ok ==> n == old(host.store[n.id]))
      ensures old(n).mode.UplinkMode? ==> (ok <==> old(n).uplink.Some? && old(n).uplink.value in host.net.devices)
      ensures old(n).mode.PlainMode? ==> ok
      ensures !ok && old(n.id in host.store && host.store[n.id] == n) ==>
        || host.faults > old(host.faults)
        || (old(n).mode.BridgeMode? && Obstacle(old(n), old(host.net), host.net))
        || (old(n).mode.VlanMode? && VlanObstacle(old(n), old(host.net)))
        || (old(n).mode.UplinkMode? && !(old(n).uplink.Some? && old(n).uplink.value in old(host.net).devices))
      ensures old(n.id in host.store && host.store[n.id] == n && Reapplies(n, host.net)) ==> ok || host.faults > old(host.faults)
      ensures old(n).mode.VlanMode? && old(n.id in host.store) ==>
        old(n).id in host.store && host.store[old(n).id].appliedVlans == old(host.store[n.id]).appliedVlans
      ensures ok && old(n).mode.BridgeMode? ==> RecordsKept(old(host.store[n.id]), old(host.net), n.vlans)
    {
      if n.mode.VlanMode? {
        ok := EnsureVlanMode();
        if old(n.id in host.store) {
          KeepsTags(StakeOf(old(host.store[n.id])), old(host.net), host.net);
        }
      } else if n.mode.UplinkMode? {
        ok := n.uplink.Some? && n.uplink.value in host.net.devices;
      } else if !n.mode.BridgeMode? {
        ok := true;
      } else {
        ok := EnsureBridgeMode();
      }
    }
  }

  /** From every such state one failing save leaves an interface that nothing records as maco's: it has the name of the
      one that was borrowed, and so is not destroyed. */
  method RenamedIsLost(host: Host, n: Manifest)
    requires host.Ready() && host.Working(n.id) && n.id in host.store
    requires
      var m := host.store[n.id];
      m.mode.VlanMode? && m.device.Some? && m.parent.Some? && Gone(m, host.net)
        && Renames(host, m.device.value, Tagging(m.parent.value, m.tag)) && FailsAfter(host, 4)
    modifies host`net, host`destroyed, host`store, host`creators, host`next, host`names, host`faults, host`lost, host`alive, host`script
    ensures host.Ready() && host.Calm() && n.id in host.store
    ensures var d := old(host.store[n.id]).device.value;
      d in host.net.devices && d !in old(host.net).devices && d !in StakeOf(host.store[n.id]).own
  {
    var r := new Reconciler(host, n);
    var ok := r.EnsureVlanMode();
  }

  /** What a successful ensureVLAN comes to: the interface has the parent and tag, and is owned only if it was, or was
      made for the network just now because there was none. */
  ghost predicate VlanApplied(was: Manifest, a: Net, n: Manifest, c: Net) {
    && was.parent.Some? && n.device.Some?
    && n == was.(device := n.device, owned := n.owned)
    && c.TaggingOf(n.device.value) == Some(Tagging(was.parent.value, was.tag))
    && (n.owned && !(was.owned && n.device == was.device) ==>
      n.device.value !in a.devices && forall d :: a.TaggingOf(d) != Some(Tagging(was.parent.value, was.tag)))
  }

  ghost predicate VlanInPlace(n: Manifest, a: Net) {
    n.device.Some? && n.parent.Some? && a.TaggingOf(n.device.value) == Some(Tagging(n.parent.value, n.tag))
  }

  /** The members are those desired and those that were not maco's; recorded are those that maco added. */
  ghost predicate MembersConverged(was: seq<Name>, desired: set<Name>, b: Name, a: Net, now: seq<Name>, c: Net) {
    && (forall m ::
      c.BridgeOf(m) == if m in desired then Some(b) else if m in was && a.BridgeOf(m) == Some(b) then None else a.BridgeOf(m))
    && (forall m :: m in now <==> m in desired && (m in was || a.BridgeOf(m) != Some(b)))
    && (NoDuplicates(was) ==> NoDuplicates(now))
  }

  ghost predicate MembersSettled(applied: seq<Name>, desired: set<Name>, b: Name, net: Net) {
    && (forall m :: m in applied ==> m in desired)
    && (forall m :: m in desired ==> net.BridgeOf(m) == Some(b))
  }

  /** Only interfaces that maco put on a bridge have left it, or any. */
  ghost predicate MembersKept(applied: seq<Name>, b: Name, a: Net, c: Net) {
    forall m :: a.BridgeOf(m).Some? && !(m in applied && a.BridgeOf(m) == Some(b)) ==> c.BridgeOf(m) == a.BridgeOf(m)
  }

  /** What the first part of Ensure comes to. */
  ghost predicate Interfaces(was: Manifest, a: Net, n: Manifest, c: Net) {
    && n == was.(device := n.device, owned := n.owned, vlans := n.vlans, appliedVlans := n.appliedVlans, appliedMembers := n.appliedMembers)
    && n.device.Some? && n.device.value in c.devices
    && (if was.device.Some? && was.device.value in a.devices
        then n.device == was.device && n.owned == was.owned && n.appliedMembers == was.appliedMembers
        else (was.device.None? || was.owned) && n.owned && n.device.value !in a.devices && n.appliedMembers == [])
    && |n.vlans| == |was.vlans|
    && (forall i :: 0 <= i < |n.vlans| ==> SameKey(n.vlans[i], was.vlans[i]))
    && ResolvedIn(n.vlans, c)
    && n.appliedVlans == Others(was) + n.vlans
    && Unaffected(was, a, n, c)
  }

  /** Interfaces that were there and are not recorded as applied are as they were, and are not taken for maco's. */
  ghost predicate Unaffected(was: Manifest, a: Net, n: Manifest, c: Net) {
    && (forall d :: d in a.devices && d !in Devices(was.appliedVlans) ==> c.TaggingOf(d) == a.TaggingOf(d))
    && OwnedBefore(n.vlans, a.devices, was)
  }

  lemma InterfacesId(was: Manifest, a: Net, n: Manifest, c: Net)
    requires Interfaces(was, a, n, c)
    ensures n.id == was.id && n.mode == was.mode && n.device.Some?
  {
  }

  /** An interface that should be on the bridge is among those desired, or is there for a VLAN. */
  lemma DesiredWanted(was: Manifest, a: Net, n: Manifest, between: Net, c: Net, m: Name)
    requires Interfaces(was, a, n, between) && Keeps(Leftovers(n, Desired(n)), between, c) && m in Desired(n)
    ensures Wanted(was, c, m) && (m !in was.members ==> m in Devices(n.vlans))
    ensures m in Devices(n.vlans) ==> Carries(was, c, m)
  {
    hide Minus, Others;
    if m in Devices(n.vlans) {
      var v :| v in n.vlans && v.device == Some(m);
      var i :| 0 <= i < |n.vlans| && n.vlans[i] == v;
      assert m !in Surplus(n.appliedVlans, Desired(n));
      assert c.TaggingOf(m) == between.TaggingOf(m) == Some(TaggingFor(was.vlans[i]));
      assert was.vlans[i] in was.vlans;
    }
  }

  lemma Why(was: Manifest, a: Net, n: Manifest, between: Net, desired: seq<Name>, c: Net)
    requires a.Valid() && between.Valid() && Tags(a, between) && Interfaces(was, a, n, between) && Checked(n) && AllThere(was, a)
    requires IsDesired(n, desired) && Elements(desired) == Desired(n) && Keeps(Leftovers(n, Desired(n)), between, c)
    ensures !NoDuplicates(n.appliedMembers) || MembersBlocked(desired, n.device.value, between) ==> Obstacle(was, a, c)
  {
    hide Minus, Others, Surplus, Keeps, Leftovers, Carries, Wanted;
    forall m | m in desired
      ensures m in between.devices && Wanted(was, c, m)
    {
      assert m in Desired(n);
      DesiredWanted(was, a, n, between, c, m);
    }
    if v :| v in n.vlans && v.device.value in n.members {
      DesiredWanted(was, a, n, between, c, v.device.value);
      assert v.device.value in was.members && Carries(was, c, v.device.value);
    } else {
      DesiredDistinct(n, between, desired);
    }
  }

  lemma DesiredDistinct(n: Manifest, net: Net, desired: seq<Name>)
    requires NoDuplicates(n.members) && DistinctKeys(n.vlans) && ResolvedIn(n.vlans, net) && IsDesired(n, desired)
    requires forall v :: v in n.vlans ==> v.device.value !in n.members
    ensures NoDuplicates(desired)
  {
    forall i, j | 0 <= i < j < |desired|
      ensures desired[i] != desired[j]
    {
      var k := |n.members|;
      if j < k {
        assert desired[i] == n.members[i] && desired[j] == n.members[j];
      } else {
        var w := n.vlans[j - k];
        assert w in n.vlans;
        if i < k {
          assert desired[i] == n.members[i];
        } else {
          var v := n.vlans[i - k];
          assert v in n.vlans && !SameKey(v, w);
        }
      }
    }
  }

  lemma KeepsTags(s: Stake, a: Net, c: Net)
    requires Tags(a, c)
    ensures Keeps(s, a, c)
  {
  }

  lemma KeepsAll(was: Manifest, a: Net, n: Manifest, between: Net, c: Net)
    requires a.Valid() && Tags(a, between) && Interfaces(was, a, n, between)
    requires Keeps(Leftovers(n, Desired(n)), between, c)
    ensures Keeps(StakeOf(was), a, c)
  {
    hide Minus, ResolvedIn;
    SurplusAppend(Others(was), n.vlans, Desired(n));
    assert forall d :: d in Surplus(Others(was), Desired(n)) ==> d in OwnVlans(was.appliedVlans);
  }

  lemma SurplusAppend(applied: seq<VlanMember>, vs: seq<VlanMember>, desired: set<Name>)
    requires Devices(vs) <= desired
    ensures Surplus(applied + vs, desired) == Surplus(applied, desired)
    ensures Unwanted(applied + vs, desired) == Unwanted(applied, desired)
    ensures Minus(applied + vs, Unwanted(applied, desired)) == Minus(applied, Unwanted(applied, desired)) + vs
  {
    MinusAppend(applied, vs, Unwanted(applied, desired));
    MinusNone(vs, Unwanted(applied, desired));
    forall d | d in Surplus(applied, desired)
      ensures d in Surplus(applied + vs, desired)
    {
      var v :| v in applied && v.device == Some(d) && !v.borrowed;
      assert v in applied + vs;
    }
  }

  lemma AppliedAll(was: Manifest, a: Net, n1: Manifest, between: Net, n: Manifest, c: Net)
    requires a.Valid() && Tags(a, between) && Interfaces(was, a, n1, between) && Checked(n1) && n1.mode.BridgeMode?
    requires Converged(n1, Desired(n1), between, n, c)
    ensures Applied(was, a, n, c) && c.devices <= between.devices
  {
    hide Minus, AddressSettled, AddressKept, Undoable, OwnedBefore, Unwanted;
    var desired := Desired(n);
    var surplus := Surplus(Others(was), desired);
    SurplusAppend(Others(was), n.vlans, desired);
    StaysResolved(n, surplus, between, c);
    assert forall d :: d in surplus ==> d.kind.Vlan? by {
      assert forall v :: v in Others(was) ==> v in n1.appliedVlans;
    }
    assert between.WithoutAll(surplus).addresses == a.WithoutAll(surplus).addresses;
    SameAddresses(n1, n, n.device.value, between.WithoutAll(surplus), a.WithoutAll(surplus), c);
    MembersAll(was, a, n1, between, n, c);
    assert forall d :: d in surplus ==> d in Devices(was.appliedVlans);
  }

  lemma SameAddresses(was: Manifest, n: Manifest, b: Name, a: Net, a': Net, c: Net)
    requires a.addresses == a'.addresses
    ensures AddressKept(was.appliedAddress, was.address, b, a, c) ==> AddressKept(was.appliedAddress, was.address, b, a', c)
    ensures Undoable(n.appliedAddress, b, a, c) ==> Undoable(n.appliedAddress, b, a', c)
  {
  }

  lemma MembersAll(was: Manifest, a: Net, n1: Manifest, between: Net, n: Manifest, c: Net)
    requires a.Valid() && Tags(a, between) && Interfaces(was, a, n1, between)
    requires Converged(n1, Desired(n1), between, n, c)
    ensures forall m :: c.BridgeOf(m) == MemberOf(n, was.appliedMembers, Surplus(Others(was), Desired(n)), a, m)
    ensures forall m :: m in n.appliedMembers <==> m in Desired(n) && (m in was.appliedMembers || a.BridgeOf(m) != n.device)
  {
    hide Minus, AddressSettled, AddressKept, Undoable, OwnedBefore, Unwanted;
    SurplusAppend(Others(was), n.vlans, Desired(n));
  }

  lemma StaysResolved(n: Manifest, surplus: set<Name>, a: Net, c: Net)
    requires ResolvedIn(n.vlans, a) && surplus !! Desired(n)
    requires forall d :: c.TaggingOf(d) == if d in surplus then None else a.TaggingOf(d)
    ensures ResolvedIn(n.vlans, c)
  {
    forall v | v in n.vlans
      ensures c.TaggingOf(v.device.value) == a.TaggingOf(v.device.value)
    {
      assert v.device.value in Desired(n);
    }
  }

  lemma InPlaceSettled(n: Manifest, a: Net)
    ensures InPlace(n, a) ==> InterfacesSettled(n, a)
  {
  }

  lemma InPlaceStays(was: Manifest, a: Net, n: Manifest)
    requires InPlace(was, a) && Interfaces(was, a, n, a) && n.vlans == was.vlans
    ensures n == was && NothingToDo(n, Desired(n), a)
  {
  }

  /** What was applied for VLANs that the manifest does not ask for any more. */
  function Others(n: Manifest): (entries: seq<VlanMember>) {
    Minus(n.appliedVlans, Listed(n.appliedVlans, n.vlans))
  }

  /** Which bridge an interface belongs to after a successful Ensure. */
  function MemberOf(n: Manifest, appliedBefore: seq<Name>, surplus: set<Name>, a: Net, m: Name): (bridge: Option<Name>) {
    if m in Desired(n) then n.device
    else if m in surplus then None
    else if m in appliedBefore && a.BridgeOf(m) == n.device then None
    else a.BridgeOf(m)
  }

  /** What a successful Ensure makes of a manifest and a host. The bridge's members are those desired, and those that
      are not maco's; recorded are those that maco added. */
  ghost predicate Applied(was: Manifest, a: Net, n: Manifest, c: Net) {
    var desired := Desired(n);
    var surplus := Surplus(Others(was), desired);
    && n == was.(device := n.device, owned := n.owned, vlans := n.vlans, appliedVlans := n.appliedVlans,
      appliedAddress := n.appliedAddress, appliedMembers := n.appliedMembers)
    && n.device.Some? && n.device.value in c.devices
    && (if was.device.Some? && was.device.value in a.devices
        then n.device == was.device && n.owned == was.owned
        else (was.device.None? || was.owned) && n.owned && n.device.value !in a.devices)
    && |n.vlans| == |was.vlans|
    && (forall i :: 0 <= i < |n.vlans| ==> SameKey(n.vlans[i], was.vlans[i]))
    && ResolvedIn(n.vlans, c)
    && n.appliedVlans == Minus(Others(was), Unwanted(Others(was), desired)) + n.vlans
    && (forall m :: c.BridgeOf(m) == MemberOf(n, was.appliedMembers, surplus, a, m))
    && (forall m :: m in n.appliedMembers <==> m in desired && (m in was.appliedMembers || a.BridgeOf(m) != n.device))
    && (NoDuplicates(was.appliedMembers) ==> NoDuplicates(n.appliedMembers))
    && a.devices - surplus <= c.devices && c.devices !! surplus
    && (forall d :: d in a.devices && d !in Devices(was.appliedVlans) ==> c.TaggingOf(d) == a.TaggingOf(d))
    && OwnedBefore(n.vlans, a.devices, was)
    && AddressKept(was.appliedAddress, was.address, n.device.value, a.WithoutAll(surplus), c)
    && AddressSettled(n.appliedAddress, n.address, n.device.value, c)
    && (was.appliedAddress.None? ==> Undoable(n.appliedAddress, n.device.value, a.WithoutAll(surplus), c))
  }

  /** The only interfaces that are new are those recorded. */
  ghost predicate NoLeftovers(n: Manifest, a: Net, c: Net) {
    c.devices <= a.devices + OwnVlans(n.vlans) + (if n.device.Some? then {n.device.value} else {})
  }

  ghost predicate InterfacesSettled(n: Manifest, a: Net) {
    && n.device.Some? && n.device.value in a.devices
    && forall i :: 0 <= i < |n.vlans| ==> VlanSettled(a, n, i)
  }

  /** A manifest that the host already agrees with. */
  ghost predicate InPlace(n: Manifest, a: Net) {
    && InterfacesSettled(n, a)
    && n.appliedVlans == Others(n) + n.vlans
    && NothingToDo(n, Desired(n), a)
  }

  /** What the second part of Ensure may take away. */
  function Leftovers(n: Manifest, desired: set<Name>): (stake: Stake) {
    Stake(Surplus(n.appliedVlans, desired), n.device, (set m | m in n.appliedMembers), n.appliedAddress)
  }

  ghost predicate AddressKept(applied: Option<Address>, wanted: Option<Address>, b: Name, a: Net, c: Net) {
    && (forall x ::
      x in a.addresses && !(x.device == b && Some(x.address) == applied && applied != wanted)
      ==> x in c.addresses)
    && (forall x :: x in c.addresses ==> x in a.addresses || (x.device == b && Some(x.address) == wanted))
  }

  /** Taking the applied address away restores what there was. */
  ghost predicate Undoable(applied: Option<Address>, b: Name, a: Net, c: Net) {
    if applied.None? then c.addresses == a.addresses else
      !a.Has(b, applied.value) && c.addresses - {Assigned(b, applied.value)} == a.addresses
  }

  /** Which bridge an interface belongs to once a bridge's members are what they should be. */
  function BridgeAfter(n: Manifest, desired: set<Name>, a: Net, m: Name): (bridge: Option<Name>) {
    if m in desired then n.device
    else if m in Surplus(n.appliedVlans, desired) then None
    else if m in n.appliedMembers && a.BridgeOf(m) == n.device then None
    else a.BridgeOf(m)
  }

  /** What the second part of Ensure comes to when it succeeds. */
  ghost predicate Converged(was: Manifest, desired: set<Name>, a: Net, n: Manifest, c: Net) {
    var surplus := Surplus(was.appliedVlans, desired);
    && n == was.(appliedVlans := n.appliedVlans, appliedAddress := n.appliedAddress, appliedMembers := n.appliedMembers)
    && n.device.Some?
    && n.appliedVlans == Minus(was.appliedVlans, Unwanted(was.appliedVlans, desired))
    && (forall m :: m in n.appliedMembers <==> m in desired && (m in was.appliedMembers || a.BridgeOf(m) != was.device))
    && (NoDuplicates(was.appliedMembers) ==> NoDuplicates(n.appliedMembers))
    && c.devices == a.devices - surplus
    && (forall m :: c.BridgeOf(m) == BridgeAfter(was, desired, a, m))
    && (forall d :: c.TaggingOf(d) == if d in surplus then None else a.TaggingOf(d))
    && AddressKept(was.appliedAddress, was.address, n.device.value, a.WithoutAll(surplus), c)
    && AddressSettled(n.appliedAddress, n.address, n.device.value, c)
    && (was.appliedAddress.None? ==> Undoable(n.appliedAddress, n.device.value, a.WithoutAll(surplus), c))
  }

  /** The second part of Ensure has nothing to change. */
  ghost predicate NothingToDo(n: Manifest, desired: set<Name>, a: Net) {
    && n.device.Some?
    && MembersSettled(n.appliedMembers, desired, n.device.value, a)
    && Unwanted(n.appliedVlans, desired) == {}
    && AddressSettled(n.appliedAddress, n.address, n.device.value, a)
  }

  /** The bridge has the wanted address, or its IP address with another mask, which maco does not replace. */
  ghost predicate AddressSettled(applied: Option<Address>, wanted: Option<Address>, b: Name, net: Net) {
    && (applied.Some? ==> applied == wanted)
    && (wanted.Some? ==>
      net.Has(b, wanted.value) || (net.IpTaken(b, wanted.value.ip) && applied == wanted))
  }

  function Elements(names: seq<Name>): (devices: set<Name>) {
    set d | d in names
  }

  /** VLAN interfaces made for a network that are not among those desired. */
  function Surplus(applied: seq<VlanMember>, desired: set<Name>): (devices: set<Name>) {
    set d | d in OwnVlans(applied) && d !in desired
  }

  lemma SurplusOneMore(applied: seq<VlanMember>, a: VlanMember, desired: set<Name>)
    ensures Surplus(applied + [a], desired) ==
      Surplus(applied, desired) + (if a.device.Some? && !a.borrowed && a.device.value !in desired then {a.device.value} else {})
    ensures Surplus([], desired) == {}
  {
    forall d | d in OwnVlans(applied + [a])
      ensures d in OwnVlans(applied) || (a.device == Some(d) && !a.borrowed)
    {
    }
    forall v | v in applied
      ensures v in applied + [a]
    {
    }
    assert (applied + [a])[|applied|] == a;
  }

  function Unwanted(applied: seq<VlanMember>, desired: set<Name>): (entries: set<VlanMember>) {
    set v | v in applied && v.device.Some? && v.device.value !in desired
  }

  /** A VLAN that was applied and whose interface is still configured for it. */
  ghost predicate VlanSettled(net: Net, n: Manifest, i: nat) {
    && i < |n.vlans|
    && n.vlans[i].device.Some?
    && net.TaggingOf(n.vlans[i].device.value) == Some(TaggingFor(n.vlans[i]))
    && forall a :: a in n.appliedVlans && SameKey(a, n.vlans[i]) ==> a == n.vlans[i]
  }

  // ---- Reconciling again changes nothing ----

  /** After a successful Ensure the host agrees with the manifest. */
  lemma AppliedIsInPlace(was: Manifest, a: Net, n: Manifest, c: Net)
    requires Checked(n) && Applied(was, a, n, c)
    ensures InPlace(n, c)
  {
    hide AddressSettled, AddressKept, Undoable, OwnedBefore, Minus, MemberOf, Surplus;
    var others := Minus(Others(was), Unwanted(Others(was), Desired(n)));
    assert forall v :: v in others ==> !Lists(was.vlans, v);
    SameKeysListed(was.vlans, n.vlans);
    OthersStay(others, n);
    forall i | 0 <= i < |n.vlans|
      ensures VlanSettled(c, n, i)
    {
      OnlyEntry(others, n, i);
      assert n.vlans[i] in n.vlans;
    }
    AllWanted(others, n);
    MembersAreSettled(was, a, n, c);
  }

  lemma MembersAreSettled(was: Manifest, a: Net, n: Manifest, c: Net)
    requires Applied(was, a, n, c)
    ensures MembersSettled(n.appliedMembers, Desired(n), n.device.value, c)
  {
    hide AddressSettled, AddressKept, Undoable, OwnedBefore, Minus, Surplus, Others, ResolvedIn;
  }

  lemma AllWanted(others: seq<VlanMember>, n: Manifest)
    requires n.appliedVlans == others + n.vlans
    requires forall v :: v in others ==> !(v.device.Some? && v.device.value !in Desired(n))
    ensures Unwanted(n.appliedVlans, Desired(n)) == {}
  {
  }

  /** Lists with the same keys have the same entries. */
  lemma SameKeysListed(a: seq<VlanMember>, c: seq<VlanMember>)
    requires |a| == |c| && forall i :: 0 <= i < |c| ==> SameKey(c[i], a[i])
    ensures forall v :: Lists(a, v) <==> Lists(c, v)
  {
    forall v
      ensures Lists(a, v) <==> Lists(c, v)
    {
      if Lists(a, v) {
        var w :| w in a && SameKey(v, w);
        var i :| 0 <= i < |a| && a[i] == w;
        assert c[i] in c && SameKey(v, c[i]);
      }
      if Lists(c, v) {
        var w :| w in c && SameKey(v, w);
        var i :| 0 <= i < |c| && c[i] == w;
        assert a[i] in a && SameKey(v, a[i]);
      }
    }
  }

  lemma OthersStay(others: seq<VlanMember>, n: Manifest)
    requires n.appliedVlans == others + n.vlans && forall v :: v in others ==> !Lists(n.vlans, v)
    ensures n.appliedVlans == Others(n) + n.vlans
  {
    hide Minus;
    var listed := Listed(n.appliedVlans, n.vlans);
    MinusAppend(others, n.vlans, listed);
    MinusNone(others, listed);
    forall v | v in n.vlans
      ensures v in listed
    {
      assert SameKey(v, v);
    }
    MinusAll(n.vlans, listed);
  }

  lemma OnlyEntry(others: seq<VlanMember>, n: Manifest, i: nat)
    requires DistinctKeys(n.vlans) && n.appliedVlans == others + n.vlans && i < |n.vlans|
    requires forall v :: v in others ==> !Lists(n.vlans, v)
    ensures forall a :: a in n.appliedVlans && SameKey(a, n.vlans[i]) ==> a == n.vlans[i]
  {
    forall a | a in n.appliedVlans && SameKey(a, n.vlans[i])
      ensures a == n.vlans[i]
    {
      if a in others {
        assert n.vlans[i] in n.vlans && Lists(n.vlans, a);
      } else {
        var j :| 0 <= j < |n.vlans| && n.vlans[j] == a;
      }
    }
  }

  lemma {:induction false} MinusAll(vs: seq<VlanMember>, gone: set<VlanMember>)
    requires forall v :: v in vs ==> v in gone
    ensures Minus(vs, gone) == []
  {
    if vs != [] {
      assert vs[0] in vs;
      MinusAll(vs[1..], gone);
    }
  }
}
