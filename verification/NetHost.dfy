/** What network reconciliation is about: the host's interfaces (pkg/hostnet/hostnet.go) and the network manifests
    (pkg/network/store.go).

    As commands are issued, a script decides how each ends: done, refused, failed with unknown effect, or maco crashes. */
module NetHost {
  datatype Option<T> = None | Some(value: T)

  datatype Kind = Bridge | Vlan | Feth | Port

  datatype Name = Name(kind: Kind, number: nat)

  datatype Address = Address(ip: nat, mask: nat)

  datatype Assigned = Assigned(device: Name, address: Address)

  datatype Tagging = Tagging(parent: Name, tag: int)

  /** The host's interfaces: which exist, which bridge each belongs to, how VLAN interfaces are configured, and the
      addresses. An interface belongs to one bridge at most. */
  datatype Net = Net(devices: set<Name>, bridges: map<Name, Name>, taggings: map<Name, Tagging>, addresses: set<Assigned>) {
    predicate Valid() {
      && (forall m :: m in bridges ==> m in devices && bridges[m] in devices && bridges[m].kind.Bridge?)
      && (forall d :: d in taggings ==> d in devices && d.kind.Vlan?)
      && (forall d, e :: d in taggings && e in taggings && taggings[d] == taggings[e] ==> d == e)
      && (forall a :: a in addresses ==> a.device in devices)
    }

    function BridgeOf(m: Name): (bridge: Option<Name>) {
      if m in bridges then Some(bridges[m]) else None
    }

    function TaggingOf(d: Name): (tagging: Option<Tagging>) {
      if d in taggings then Some(taggings[d]) else None
    }

    function Members(b: Name): (ms: set<Name>)
      ensures forall m :: m in ms <==> BridgeOf(m) == Some(b)
    {
      set m | m in bridges && bridges[m] == b
    }

    predicate Has(d: Name, a: Address) {
      Assigned(d, a) in addresses
    }

    predicate IpTaken(d: Name, ip: nat) {
      exists a :: a in addresses && a.device == d && a.address.ip == ip
    }

    function With(d: Name): (net: Net) {
      this.(devices := devices + {d})
    }

    function Without(d: Name): (net: Net) {
      Net(
        devices - {d},
        map m | m in bridges && m != d && bridges[m] != d :: bridges[m],
        taggings - {d},
        set a | a in addresses && a.device != d)
    }

    function WithoutAll(ds: set<Name>): (net: Net) {
      Net(
        devices - ds,
        map m | m in bridges && m !in ds && bridges[m] !in ds :: bridges[m],
        taggings - ds,
        set a | a in addresses && a.device !in ds)
    }

    lemma WithoutNone()
      requires Valid()
      ensures WithoutAll({}) == this
    {
      assert WithoutAll({}).bridges == bridges;
    }

    lemma StaysValid(d: Name)
      requires Valid()
      ensures Without(d).Valid()
    {
    }

    lemma WithoutOneMore(ds: set<Name>, d: Name)
      ensures WithoutAll(ds).Without(d) == WithoutAll(ds + {d})
    {
      assert WithoutAll(ds).Without(d).bridges == WithoutAll(ds + {d}).bridges;
    }

    lemma WithoutAbsent(ds: set<Name>, d: Name)
      requires Valid() && d !in WithoutAll(ds).devices
      ensures WithoutAll(ds + {d}) == WithoutAll(ds)
    {
      assert WithoutAll(ds + {d}).bridges == WithoutAll(ds).bridges;
    }

    function Joined(b: Name, m: Name): (net: Net) {
      this.(bridges := bridges[m := b])
    }

    function Parted(m: Name): (net: Net) {
      this.(bridges := bridges - {m})
    }

    function Addressed(d: Name, a: Address): (net: Net) {
      this.(addresses := addresses + {Assigned(d, a)})
    }

    function Unaddressed(d: Name, a: Address): (net: Net) {
      this.(addresses := addresses - {Assigned(d, a)})
    }

    /** Whether an interface has a VLAN configuration or can be given it. */
    predicate Configurable(d: Name, t: Tagging) {
      && d in devices
      && (TaggingOf(d) == Some(t)
        || (TaggingOf(d).None? && d.kind.Vlan? && t.parent in devices && forall e :: e in taggings ==> taggings[e] != t))
    }

    function Tagged(d: Name, t: Tagging): (net: Net) {
      this.(taggings := taggings[d := t])
    }
  }

  datatype Mode = BridgeMode | VlanMode | UplinkMode | PlainMode

  datatype VlanMember = VlanMember(parent: Name, tag: int, device: Option<Name>, borrowed: bool)

  predicate SameKey(a: VlanMember, b: VlanMember) {
    a.parent == b.parent && a.tag == b.tag
  }

  datatype Manifest = Manifest(
    id: nat, mode: Mode, uplink: Option<Name>, parent: Option<Name>, tag: int,
    address: Option<Address>, device: Option<Name>, members: seq<Name>, vlans: seq<VlanMember>,
    owned: bool, appliedVlans: seq<VlanMember>, appliedAddress: Option<Address>, appliedMembers: seq<Name>)

  predicate TagInRange(tag: int) {
    1 <= tag <= 4094
  }

  predicate NoDuplicates<T(==)>(s: seq<T>) {
    forall i, j :: 0 <= i < j < |s| ==> s[i] != s[j]
  }

  predicate DistinctKeys(vs: seq<VlanMember>) {
    forall i, j :: 0 <= i < j < |vs| ==> !SameKey(vs[i], vs[j])
  }

  /** Store.check: what a manifest must satisfy to be saved, and does when it is loaded. */
  predicate Checked(n: Manifest) {
    && (n.mode.UplinkMode? <==> n.uplink.Some?)
    && (n.mode.VlanMode? ==>
      && n.parent.Some? && TagInRange(n.tag)
      && n.address.None? && n.members == [] && n.vlans == []
      && (n.device.Some? ==> n.device.value.kind.Vlan?))
    && (!n.mode.VlanMode? ==>
      && n.parent.None? && n.tag == 0
      && (n.device.Some? ==> n.device.value.kind.Bridge?))
    && (!n.mode.VlanMode? && !n.mode.BridgeMode? ==> n.device.None? && n.address.None? && n.members == [] && n.vlans == [])
    && (forall v :: v in n.appliedVlans ==> TagInRange(v.tag) && v.device.Some? && v.device.value.kind.Vlan?)
    && (forall v :: v in n.vlans ==> TagInRange(v.tag) && (v.device.Some? ==> v in n.appliedVlans))
    && NoDuplicates(n.members)
    && (n.device.Some? ==> n.device.value !in n.members)
    && DistinctKeys(n.vlans)
  }

  /** What a manifest asks for; what is recorded about applying it, and the interfaces, are not among it. */
  datatype Asked = Asked(
    mode: Mode, uplink: Option<Name>, parent: Option<Name>, tag: int,
    address: Option<Address>, members: seq<Name>, keys: seq<Tagging>)

  function AskedOf(n: Manifest): (asked: Asked) {
    Asked(n.mode, n.uplink, n.parent, n.tag, n.address, n.members,
      seq(|n.vlans|, i requires 0 <= i < |n.vlans| => Tagging(n.vlans[i].parent, n.vlans[i].tag)))
  }

  predicate SameEntry(a: map<nat, Manifest>, c: map<nat, Manifest>, id: nat) {
    (id in a <==> id in c) && (id in a ==> a[id] == c[id])
  }

  ghost predicate SameOthers(a: map<nat, Manifest>, c: map<nat, Manifest>, id: nat) {
    forall other :: other != id ==> SameEntry(a, c, other)
  }

  lemma OthersTwice(a: map<nat, Manifest>, b: map<nat, Manifest>, c: map<nat, Manifest>, id: nat)
    requires SameOthers(a, b, id) && SameOthers(b, c, id)
    ensures SameOthers(a, c, id)
  {
    forall other | other != id
      ensures SameEntry(a, c, other)
    {
      assert SameEntry(a, b, other) && SameEntry(b, c, other);
    }
  }

  lemma OthersKeptBySave(a: map<nat, Manifest>, c: map<nat, Manifest>, n: Manifest)
    requires SameOthers(a, c, n.id)
    ensures SameOthers(a, c[n.id := n], n.id)
  {
    var d := c[n.id := n];
    forall other | other != n.id
      ensures SameEntry(a, d, other)
    {
      assert SameEntry(a, c, other);
    }
  }

  datatype Request = Request(device: Name, network: nat)

  datatype Reply = Done | Fails | Lost(applied: bool) | Crash(applied: bool)

  /** A network that is being created, and the host as it was before. */
  datatype Creation = Creation(id: nat, before: Net)

  /** A network that is being applied: what it is asked for, and the manifests as they were. */
  datatype Application = Application(id: nat, asked: Asked, store: map<nat, Manifest>)

  /** Nothing that was there has gone: interfaces, memberships, configurations and addresses. */
  ghost predicate Preserves(a: Net, c: Net) {
    && a.devices <= c.devices
    && (forall m :: a.BridgeOf(m).Some? ==> c.BridgeOf(m) == a.BridgeOf(m))
    && (forall d :: a.TaggingOf(d).Some? ==> c.TaggingOf(d) == a.TaggingOf(d))
    && a.addresses <= c.addresses
  }

  lemma PreservesWith(a: Net, c: Net, d: Name)
    requires Preserves(a, c)
    ensures Preserves(a, c.With(d)) && a.devices <= c.devices
  {
  }

  lemma PreservesWithout(a: Net, c: Net, d: Name)
    requires a.Valid() && Preserves(a, c) && d !in a.devices
    ensures Preserves(a, c.Without(d))
  {
  }

  lemma PreservesJoined(a: Net, c: Net, b: Name, m: Name)
    requires Preserves(a, c)
    ensures c.BridgeOf(m).None? ==> Preserves(a, c.Joined(b, m))
    ensures a.BridgeOf(m) != c.BridgeOf(m) ==> Preserves(a, c.Parted(m))
  {
  }

  lemma PreservesTagged(a: Net, c: Net, d: Name, t: Tagging)
    requires Preserves(a, c)
    ensures c.TaggingOf(d).None? ==> Preserves(a, c.Tagged(d, t))
  {
  }

  lemma PreservesAddress(a: Net, c: Net, d: Name, x: Address)
    requires Preserves(a, c)
    ensures Preserves(a, c.Addressed(d, x))
    ensures !a.Has(d, x) ==> Preserves(a, c.Unaddressed(d, x))
  {
  }

  /** The members and the address that a bridge's manifest records as maco's were not there. */
  ghost predicate AddedSince(a: Net, n: Manifest) {
    n.mode.BridgeMode? && n.device.Some? ==>
      && (forall m :: m in n.appliedMembers ==> a.BridgeOf(m) != n.device)
      && (n.appliedAddress.Some? ==> !a.Has(n.device.value, n.appliedAddress.value))
  }

  class Host {
    var net: Net
    var store: map<nat, Manifest>
    /** Which network had a device created. A name that maco once created is not used for another device. */
    var creators: map<Name, nat>
    /** Every request to destroy a device, and the network it was made for. */
    var destroyed: seq<Request>
    /** The network being created, if any. */
    ghost var creating: Option<Creation>
    /** The network being applied, if any. */
    ghost var applying: Option<Application>
    var next: nat
    /** The numbers that the host gives to new interfaces, as far as it may. */
    var names: seq<nat>
    /** How many commands did not simply succeed. */
    var faults: nat
    /** How many of them had an unknown effect, because their reply was lost or maco crashed. */
    ghost var lost: nat
    var alive: bool
    var script: seq<Reply>

    constructor (net: Net, next: nat)
      requires net.Valid() && forall d :: d in net.devices ==> d.number < next
      ensures Ready() && this.net == net && store == map[] && creators == map[] && alive && script == [] && destroyed == [] && Idle()
    {
      this.net, store, creators, destroyed := net, map[], map[], [];
      creating, applying := None, None;
      this.next, names := next, [];
      alive, script, faults, lost := true, [], 0, 0;
    }

    ghost predicate Valid()
      reads this`net, this`creators, this`next
    {
      && net.Valid()
      && (forall d :: d in net.devices ==> d.number < next)
      && (forall d :: d in creators ==> d.number < next)
    }

    /** Whatever a manifest records as owned was created for that network; while the network is created, that and
        whatever else it records as maco's is new. While the network is applied, it asks for the same. */
    ghost predicate Owns(n: Manifest)
      reads this`creators, this`creating, this`applying
    {
      && (n.owned && n.device.Some? ==> Mine(n.device.value, n.id))
      && (forall v :: v in n.appliedVlans && !v.borrowed && v.device.Some? ==> Mine(v.device.value, n.id))
      && (creating.Some? && creating.value.id == n.id ==> AddedSince(creating.value.before, n))
      && (applying.Some? && applying.value.id == n.id ==> AskedOf(n) == applying.value.asked)
    }

    ghost predicate Mine(d: Name, id: nat)
      reads this`creators, this`creating
    {
      Created(d, id) && (creating.Some? && creating.value.id == id ==> d !in creating.value.before.devices)
    }

    /** While a network is created or applied, no other is worked on. */
    ghost predicate Working(id: nat)
      reads this`creating, this`applying
    {
      (creating.Some? ==> creating.value.id == id) && (applying.Some? ==> applying.value.id == id)
    }

    ghost predicate Idle()
      reads this`creating, this`applying
    {
      creating.None? && applying.None?
    }

    ghost predicate Created(d: Name, id: nat)
      reads this`creators
    {
      d in creators && creators[d] == id
    }

    ghost predicate Ready()
      reads this`net, this`store, this`creators, this`creating, this`applying, this`destroyed, this`next
    {
      && Valid()
      && Unharmed()
      && Filed()
      && (forall id :: id in store ==> store[id].id == id && Checked(store[id]) && Owns(store[id]))
      && forall r :: r in destroyed ==> Created(r.device, r.network)
    }

    /** While a network is created, nothing that was there before goes away. */
    ghost predicate Unharmed()
      reads this`net, this`creating
    {
      creating.Some? ==> creating.value.before.Valid() && Preserves(creating.value.before, net)
    }

    /** While a network is applied, its manifest stays in the store, and the others as they are. */
    ghost predicate Filed()
      reads this`store, this`applying
    {
      applying.Some? ==> applying.value.id in store && SameOthers(applying.value.store, store, applying.value.id)
    }

    /** Whether something may be taken away while a network is created. */
    ghost predicate MayPart(b: Name, m: Name)
      reads this`creating
    {
      creating.Some? ==> creating.value.before.BridgeOf(m) != Some(b)
    }

    ghost predicate MayUnaddress(d: Name, a: Address)
      reads this`creating
    {
      creating.Some? ==> !creating.value.before.Has(d, a)
    }

    /** What is not there now was not there before the network at hand was created. */
    lemma NotBefore(d: Name, m: Name, a: Address)
      requires Ready()
      ensures net.BridgeOf(m).None? ==> MayPart(d, m)
      ensures !net.Has(d, a) ==> MayUnaddress(d, a)
    {
    }

    lemma InOrder()
      requires Ready()
      ensures net.Valid()
    {
    }

    /** What a bridge's manifest records as maco's may be taken off it. */
    lemma OwnsParts(n: Manifest)
      requires Owns(n) && Working(n.id) && n.mode.BridgeMode? && n.device.Some?
      ensures forall m :: m in n.appliedMembers ==> MayPart(n.device.value, m)
      ensures n.appliedAddress.Some? ==> MayUnaddress(n.device.value, n.appliedAddress.value)
    {
    }

    ghost method Begin(id: nat)
      requires Ready() && creating.None? && id !in store
      modifies this`creating
      ensures Ready() && creating == Some(Creation(id, net))
    {
      creating := Some(Creation(id, net));
    }

    ghost method BeginApplying(id: nat)
      requires Ready() && applying.None? && id in store
      modifies this`applying
      ensures Ready() && applying == Some(Application(id, AskedOf(store[id]), store))
    {
      applying := Some(Application(id, AskedOf(store[id]), store));
    }

    ghost method EndApplying()
      requires Ready()
      modifies this`applying
      ensures Ready() && applying == None
      ensures old(applying).Some? ==> var a := old(applying).value;
        a.id in store && AskedOf(store[a.id]) == a.asked && SameOthers(a.store, store, a.id)
    {
      applying := None;
    }

    ghost method End()
      requires Ready()
      modifies this`creating
      ensures Ready() && creating == None
    {
      creating := None;
    }

    /** What every command keeps: manifests stay in order, and who created what is not forgotten. */
    twostate predicate Grows()
      reads this`net, this`store, this`creators, this`creating, this`applying, this`destroyed, this`next, this`faults, this`lost, this`alive
    {
      && Ready()
      && (forall d, id :: old(Created(d, id)) ==> Created(d, id))
      && creating == old(creating) && applying == old(applying)
      && (alive ==> old(alive))
      && 0 <= lost - old(lost) <= faults - old(faults)
    }

    /** One command failed at most, and without effect. */
    twostate predicate Calm()
      reads this`faults, this`lost
    {
      lost == old(lost) && faults <= old(faults) + 1
    }

    /** A command that is done, or plainly fails, does so as the script says. */
    twostate predicate Follows()
      reads this`faults, this`lost, this`alive, this`script
    {
      old(alive) && old(script) != [] && (old(script)[0].Done? || old(script)[0].Fails?) ==>
        && alive && script == old(script)[1..] && lost == old(lost)
        && faults == old(faults) + (if old(script)[0].Done? then 0 else 1)
    }

    method Answer() returns (r: Reply)
      requires Ready()
      modifies this`faults, this`lost, this`alive, this`script
      ensures Grows()
      ensures r.Done? || r.Fails? || r.Lost?
      ensures faults == old(faults) + (if r.Done? then 0 else 1)
      ensures r.Lost? <==> lost > old(lost)
      ensures Follows()
      ensures !alive ==> r.Lost?
      ensures !old(alive) ==> r == Lost(false)
    {
      hide Host.Ready;
      if !alive {
        faults, lost := faults + 1, lost + 1;
        return Lost(false);
      }
      if script == [] {
        return Done;
      }
      r := script[0];
      script := script[1..];
      if !r.Done? {
        faults := faults + 1;
      }
      if r.Crash? {
        alive := false;
        r := Lost(r.applied);
      }
      if r.Lost? {
        lost := lost + 1;
      }
    }

    method Revive(script: seq<Reply>)
      requires Ready()
      modifies this`alive, this`script
      ensures Ready() && alive
    {
      this.script, alive := script, true;
    }

    /** Other programs may do anything to the interfaces, but a name that maco once created is not used again. */
    predicate MayBecome(seen: Net, next: nat)
      reads this`net, this`creators, this`next
    {
      && seen.Valid() && this.next <= next
      && forall d :: d in seen.devices ==> d.number < next && (d in net.devices || d !in creators)
    }

    method Become(seen: Net, next: nat)
      requires Ready() && MayBecome(seen, next) && creating.None?
      modifies this`net, this`next
      ensures Ready() && net == seen
    {
      net, this.next := seen, next;
    }

    // ---- Interfaces ----

    /** Bring an interface up; whether it is up is not part of this model. */
    method Up(device: Name) returns (ok: bool)
      requires Ready()
      modifies this`faults, this`lost, this`alive, this`script
      ensures Grows() && (ok ==> alive)
      ensures !ok ==> faults > old(faults)
    {
      var r := Answer();
      ok := r.Done?;
    }

    method MembersOf(b: Name) returns (ok: bool, members: set<Name>)
      requires Ready()
      modifies this`faults, this`lost, this`alive, this`script
      ensures Grows()
      ensures ok ==> alive && members == net.Members(b)
      ensures !ok ==> faults > old(faults)
    {
      var r := Answer();
      ok, members := r.Done?, net.Members(b);
    }

    /** IsBridge; an interface that cannot be inspected counts as none. */
    method IsBridge(device: Name) returns (yes: bool)
      requires Ready()
      modifies this`faults, this`lost, this`alive, this`script
      ensures Grows()
      ensures yes ==> alive && device in net.devices && device.kind.Bridge?
      ensures !yes ==> faults > old(faults) || device !in net.devices || !device.kind.Bridge?
    {
      var r := Answer();
      yes := r.Done? && device in net.devices && device.kind.Bridge?;
    }

    method Choose(names: seq<nat>)
      requires Ready()
      modifies this`names
      ensures Ready() && this.names == names
    {
      this.names := names;
    }

    /** Whether the next interface of a kind will get this name. */
    predicate Chosen(device: Name)
      reads this`net, this`creators, this`names
    {
      names != [] && names[0] == device.number && device !in net.devices && device !in creators
    }

    /** The name of the next interface of a kind: the one chosen, or one that was never used. */
    method Choice(kind: Kind) returns (device: Name)
      requires Ready()
      modifies this`names
      ensures Ready() && device.kind == kind && device !in net.devices && device !in creators
      ensures forall d: Name :: d.kind == kind && old(Chosen(d)) ==> device == d
    {
      if names == [] {
        return Name(kind, next);
      }
      device := Name(kind, names[0]);
      if !Chosen(device) {
        device := Name(kind, next);
      }
      names := names[1..];
    }

    /** ifconfig create. The name may be one that was in use before, but not one of maco's. */
    method Create(kind: Kind, owner: nat) returns (ok: bool, device: Name)
      requires Ready()
      modifies this`net, this`creators, this`next, this`names, this`faults, this`lost, this`alive, this`script
      ensures Grows()
      ensures device !in old(net).devices && device !in old(creators) && device.kind == kind
      ensures net == old(net) || (net == old(net).With(device) && Mine(device, owner))
      ensures ok ==> alive && net == old(net).With(device)
      ensures !ok ==> faults > old(faults)
      ensures !ok && lost == old(lost) ==> net == old(net)
      ensures Follows()
      ensures forall d: Name :: d.kind == kind && old(Chosen(d)) ==> device == d
    {
      hide Checked, Preserves, Host.Owns, Host.Filed, Host.Ready;
      device := Choice(kind);
      var r := Answer();
      ok := r.Done?;
      if ok || r == Lost(true) {
        Make(device, owner);
      }
    }

    method Make(device: Name, owner: nat)
      requires Ready() && device !in net.devices && device !in creators
      modifies this`net, this`creators, this`next
      ensures Grows() && net == old(net).With(device) && Mine(device, owner)
    {
      hide Checked, Preserves, Host.Owns, Host.Filed;
      if creating.Some? {
        PreservesWith(creating.value.before, net, device);
      }
      next := if device.number < next then next else device.number + 1;
      net := net.With(device);
      creators := creators[device := owner];
      forall id | id in store
        ensures Owns(store[id])
      {
        OwnsStays(store[id]);
      }
    }

    twostate lemma OwnsStays(n: Manifest)
      requires old(Owns(n)) && creating == old(creating) && applying == old(applying) && forall d, id :: old(Created(d, id)) ==> Created(d, id)
      ensures Owns(n)
    {
    }

    /** ifconfig destroy, which maco may only use on what it created for this network. */
    method Destroy(device: Name, owner: nat) returns (ok: bool)
      requires Ready() && Mine(device, owner) && Working(owner)
      modifies this`net, this`destroyed, this`faults, this`lost, this`alive, this`script
      ensures Grows() && destroyed == old(destroyed) + [Request(device, owner)]
      ensures net == old(net) || net == old(net).Without(device)
      ensures ok ==> alive && net == old(net).Without(device)
      ensures !ok ==> faults > old(faults) || device !in old(net).devices
      ensures !ok && lost == old(lost) ==> net == old(net)
    {
      hide Checked, Host.Owns, Preserves, Net.Valid, Host.Filed;
      net.StaysValid(device);
      if creating.Some? {
        PreservesWithout(creating.value.before, net, device);
      }
      var r := Answer();
      destroyed := destroyed + [Request(device, owner)];
      ok := r.Done? && device in net.devices;
      if ok || r == Lost(true) {
        net := net.Without(device);
      }
    }

    method AddMember(b: Name, m: Name) returns (ok: bool)
      requires Ready() && b.kind.Bridge?
      modifies this`net, this`faults, this`lost, this`alive, this`script
      ensures Grows()
      ensures net == old(net) || (net == old(net).Joined(b, m) && old(net).BridgeOf(m).None?)
      ensures ok ==> alive && net == old(net).Joined(b, m) && old(net).BridgeOf(m).None?
      ensures !ok ==> faults > old(faults) || b !in old(net).devices || m !in old(net).devices || old(net).BridgeOf(m).Some?
      ensures !ok && lost == old(lost) ==> net == old(net)
    {
      hide Checked, Host.Owns, Preserves, Host.Filed;
      if creating.Some? {
        PreservesJoined(creating.value.before, net, b, m);
      }
      var r := Answer();
      var possible := b in net.devices && m in net.devices && m !in net.bridges;
      ok := r.Done? && possible;
      if possible && (ok || r == Lost(true)) {
        net := net.Joined(b, m);
      }
    }

    method RemoveMember(b: Name, m: Name) returns (ok: bool)
      requires Ready() && MayPart(b, m)
      modifies this`net, this`faults, this`lost, this`alive, this`script
      ensures Grows()
      ensures net == old(net) || (net == old(net).Parted(m) && old(net).BridgeOf(m) == Some(b))
      ensures ok ==> alive && net == old(net).Parted(m) && old(net).BridgeOf(m) == Some(b)
      ensures !ok ==> faults > old(faults) || old(net).BridgeOf(m) != Some(b)
      ensures !ok && lost == old(lost) ==> net == old(net)
    {
      hide Checked, Host.Owns, Preserves, Host.Filed;
      if creating.Some? {
        PreservesJoined(creating.value.before, net, b, m);
      }
      var r := Answer();
      var possible := net.BridgeOf(m) == Some(b);
      ok := r.Done? && possible;
      if possible && (ok || r == Lost(true)) {
        net := net.Parted(m);
      }
    }

    /** An alias for an IP address the interface already has changes nothing and is no error. */
    method SetAddress(d: Name, a: Address) returns (ok: bool)
      requires Ready()
      modifies this`net, this`faults, this`lost, this`alive, this`script
      ensures Grows()
      ensures net == old(net) || (net == old(net).Addressed(d, a) && !old(net).IpTaken(d, a.ip))
      ensures ok ==> alive
      ensures ok && !old(net).IpTaken(d, a.ip) ==> net == old(net).Addressed(d, a)
      ensures !ok ==> faults > old(faults) || d !in old(net).devices
      ensures !ok && lost == old(lost) ==> net == old(net)
    {
      hide Checked, Host.Owns, Preserves, Host.Filed;
      if creating.Some? {
        PreservesAddress(creating.value.before, net, d, a);
      }
      var r := Answer();
      ok := r.Done? && d in net.devices;
      if d in net.devices && !net.IpTaken(d, a.ip) && (ok || r == Lost(true)) {
        net := net.Addressed(d, a);
      }
    }

    /** Does nothing unless the interface has the address with that very mask. */
    method RemoveAddress(d: Name, a: Address) returns (ok: bool)
      requires Ready() && MayUnaddress(d, a)
      modifies this`net, this`faults, this`lost, this`alive, this`script
      ensures Grows()
      ensures net == old(net) || net == old(net).Unaddressed(d, a)
      ensures ok ==> alive && net == old(net).Unaddressed(d, a)
      ensures !ok ==> faults > old(faults)
      ensures !ok && lost == old(lost) ==> net == old(net)
    {
      hide Checked, Host.Owns, Preserves, Host.Filed;
      if creating.Some? {
        PreservesAddress(creating.value.before, net, d, a);
      }
      var r := Answer();
      ok := r.Done?;
      if ok || r == Lost(true) {
        net := net.Unaddressed(d, a);
      }
    }

    /** ConfigureVLAN: fine if the interface has that configuration, an error if it has another. The host refuses a
        second interface with the same parent and tag. */
    method Configure(d: Name, t: Tagging) returns (ok: bool)
      requires Ready()
      modifies this`net, this`faults, this`lost, this`alive, this`script
      ensures Grows()
      ensures net == old(net) || (net == old(net).Tagged(d, t) && old(net).TaggingOf(d).None? && d in net.devices)
      ensures ok ==> alive && d in net.devices && net.TaggingOf(d) == Some(t)
      ensures !ok ==> faults > old(faults) || !old(net).Configurable(d, t)
      ensures !ok && lost == old(lost) ==> net == old(net)
      ensures Follows()
    {
      hide Checked, Host.Owns, Preserves, Host.Filed;
      if creating.Some? {
        PreservesTagged(creating.value.before, net, d, t);
      }
      var r := Answer();
      if d !in net.devices || d in net.taggings {
        ok := r.Done? && d in net.devices && net.taggings[d] == t;
        return;
      }
      var possible := d.kind.Vlan? && t.parent in net.devices && forall e :: e in net.taggings ==> net.taggings[e] != t;
      ok := r.Done? && possible;
      if possible && (ok || r == Lost(true)) {
        net := net.Tagged(d, t);
      }
    }

    /** FindVLAN: the interface with a parent and tag, if there is one. */
    method Find(t: Tagging) returns (ok: bool, found: Option<Name>)
      requires Ready()
      modifies this`faults, this`lost, this`alive, this`script
      ensures Grows()
      ensures ok ==> alive
      ensures ok && found.Some? ==> net.TaggingOf(found.value) == Some(t)
      ensures ok && found.None? ==> forall d :: net.TaggingOf(d) != Some(t)
      ensures !ok ==> faults > old(faults)
      ensures Follows()
    {
      var r := Answer();
      ok := r.Done?;
      found := None;
      if d :| d in net.taggings && net.taggings[d] == t {
        found := Some(d);
      }
    }

    // ---- Manifests ----

    /** Store.Save after its check. The file is renamed into place whole, but an error can be reported after that. */
    method Save(n: Manifest) returns (ok: bool)
      requires Ready() && Checked(n) && Owns(n) && Working(n.id)
      modifies this`store, this`faults, this`lost, this`alive, this`script
      ensures Grows()
      ensures store == old(store) || store == old(store)[n.id := n]
      ensures ok ==> alive && store == old(store)[n.id := n]
      ensures !ok ==> faults > old(faults)
      ensures !ok && lost == old(lost) ==> store == old(store)
      ensures Follows()
      ensures ok ==> faults == old(faults)
    {
      hide Checked, Host.Owns, Host.Unharmed, Net.Valid, SameOthers;
      if applying.Some? {
        OthersKeptBySave(applying.value.store, store, n);
      }
      var r := Answer();
      ok := r.Done?;
      if ok || r == Lost(true) {
        store := store[n.id := n];
      }
    }

    method Load(id: nat) returns (ok: bool, n: Option<Manifest>)
      requires Ready()
      modifies this`faults, this`lost, this`alive, this`script
      ensures Grows()
      ensures ok ==> alive && n == if id in store then Some(store[id]) else None
      ensures !ok ==> faults > old(faults)
      ensures Follows()
    {
      var r := Answer();
      ok := r.Done?;
      n := if id in store then Some(store[id]) else None;
    }

    method Delete(id: nat) returns (ok: bool)
      requires Ready() && applying.None?
      modifies this`store, this`faults, this`lost, this`alive, this`script
      ensures Grows()
      ensures store == old(store) || store == old(store) - {id}
      ensures ok ==> alive && store == old(store) - {id}
      ensures !ok ==> faults > old(faults)
      ensures !ok && lost == old(lost) ==> store == old(store)
    {
      hide Checked, Host.Owns, Host.Unharmed, Net.Valid;
      var r := Answer();
      ok := r.Done?;
      if ok || r == Lost(true) {
        store := store - {id};
      }
    }
  }
}
