/** The callers of the hotplug transaction: ManageInterface in pkg/engine/vm_interfaces.go, and starting and stopping
    a VM in pkg/vm/driver.go, with every history they can make together. */
module NicEngine {
  import opened HotplugHost
  import opened Hotplug

  datatype MacText = Unset | Malformed | Address(value: nat)

  /** One interface as a manifest lists it. */
  datatype Nic = Nic(id: nat, network: string, mac: MacText)

  /** A network of the store as a VM can use it; a VLAN network cannot be used directly. */
  datatype Network = Network(id: string, mode: Mode, vlan: bool)

  /** The store under both names of each network: its ID and its name. */
  type Networks = map<string, Network>

  datatype Action = Add | Update | Remove

  predicate Unicast(mac: nat) {
    mac < 0x1_0000_0000_0000 && mac / 0x100_0000_0000 % 2 == 0
  }

  predicate Reserved(network: string) {
    network == "user" || network == "vmnet-shared" || network == "vmnet-host"
  }

  ghost predicate Consistent(nets: Networks) {
    forall name :: name in nets ==> nets[name].id in nets && nets[nets[name].id] == nets[name] && !Reserved(nets[name].id) && nets[name].id != ""
  }

  /** resolveNetwork. */
  function ModeOf(nets: Networks, network: string): (mode: Mode) {
    if network == "" || network == "user" then User
    else if network == "vmnet-host" then VmnetHost
    else if network == "vmnet-shared" then VmnetShared
    else if network in nets && !nets[network].vlan then nets[network].mode
    else Unknown
  }

  function MacOf(macs: seq<nat>, nic: Nic): (mac: nat) {
    if nic.mac.Address? then nic.mac.value else if nic.id < |macs| then macs[nic.id] else 0
  }

  function SpecOf(nets: Networks, macs: seq<nat>, nic: Nic): (spec: InterfaceSpec) {
    InterfaceSpec(nic.network, nic.id, MacOf(macs, nic), ModeOf(nets, nic.network))
  }

  /** Spell out the defaults of one interface. */
  function FillIn(macs: seq<nat>, nic: Nic): (filled: Nic) {
    Nic(nic.id, if nic.network == "" then "user" else nic.network, if nic.mac.Unset? then Address(MacOf(macs, nic)) else nic.mac)
  }

  /** One interface the way normalizedInterfaces leaves it, if it accepts it. */
  function Normal(nets: Networks, macs: seq<nat>, nic: Nic): (normal: Option<Nic>) {
    var full := FillIn(macs, nic);
    if nic.id >= SLOTS || !full.mac.Address? || !Unicast(full.mac.value) then None
    else if Reserved(full.network) then Some(full)
    else if full.network in nets && !nets[full.network].vlan then Some(full.(network := nets[full.network].id))
    else None
  }

  /** What normalizedInterfaces accepts of one interface: an ID from net0 to net31, a unicast MAC of 48 bits, given or
      derived, and a network that is built in, or in the store and not a VLAN. */
  lemma NormalAccepts(nets: Networks, macs: seq<nat>, nic: Nic)
    ensures Normal(nets, macs, nic).Some? <==>
      && nic.id < 32 && !nic.mac.Malformed?
      && (var mac := MacOf(macs, nic); mac < 0x1_0000_0000_0000 && mac / 0x100_0000_0000 % 2 == 0)
      && (nic.network in ["", "user", "vmnet-shared", "vmnet-host"] || (nic.network in nets && !nets[nic.network].vlan))
  {
  }

  predicate Distinct(nics: seq<Nic>) {
    && (forall i, j :: 0 <= i < j < |nics| ==> nics[i].id != nics[j].id)
    && (forall i, j :: 0 <= i < j < |nics| ==> nics[i].mac != nics[j].mac)
  }

  predicate IdsOk(nics: seq<Nic>) {
    && (forall i :: 0 <= i < |nics| ==> nics[i].id < SLOTS)
    && (forall i, j :: 0 <= i < j < |nics| ==> nics[i].id != nics[j].id)
  }

  /** The networks a list refers to are in the store. */
  predicate Bound(nets: Networks, nics: seq<Nic>) {
    forall i :: 0 <= i < |nics| ==> nics[i].network == "" || Reserved(nics[i].network) || nics[i].network in nets
  }

  predicate IsFilled(macs: seq<nat>, nics: seq<Nic>, filled: seq<Nic>) {
    && |filled| == |nics|
    && forall k :: 0 <= k < |nics| ==> filled[k] == FillIn(macs, nics[k])
  }

  predicate IsNormalized(nets: Networks, macs: seq<nat>, nics: seq<Nic>, result: seq<Nic>) {
    && |result| == |nics| <= SLOTS
    && (forall i :: 0 <= i < |nics| ==> Normal(nets, macs, nics[i]) == Some(result[i]))
    && Distinct(result)
  }

  /** Where an interface ID is in a list. */
  function Find(nics: seq<Nic>, id: nat): (r: Option<nat>)
    ensures r.Some? ==> r.value < |nics| && nics[r.value].id == id && forall k :: 0 <= k < r.value ==> nics[k].id != id
    ensures r.None? ==> forall k :: 0 <= k < |nics| ==> nics[k].id != id
  {
    if nics == [] then None
    else if nics[0].id == id then Some(0)
    else
      var r := Find(nics[1..], id);
      assert forall k :: 1 <= k < |nics| ==> nics[k] == nics[1..][k - 1];
      if r.Some? then Some(r.value + 1) else None
  }

  function SpecAt(nets: Networks, macs: seq<nat>, nics: seq<Nic>, id: nat): (spec: Option<InterfaceSpec>) {
    var at := Find(nics, id);
    if at.Some? then Some(SpecOf(nets, macs, nics[at.value])) else None
  }

  /** What a running VM with these interfaces must have at each interface ID. */
  function SlotAt(nets: Networks, macs: seq<nat>, nics: seq<Nic>, id: nat): (slot: Slot) {
    SlotOf(SpecAt(nets, macs, nics, id))
  }

  lemma NormalKeepsSlot(nets: Networks, macs: seq<nat>, nic: Nic)
    requires Consistent(nets) && Normal(nets, macs, nic).Some?
    ensures
      var n := Normal(nets, macs, nic).value;
      && n.id == nic.id
      && SlotOf(Some(SpecOf(nets, macs, n))) == SlotOf(Some(SpecOf(nets, macs, nic)))
  {
  }

  lemma NormalizedKeepsSlots(nets: Networks, macs: seq<nat>, nics: seq<Nic>, result: seq<Nic>, id: nat)
    requires Consistent(nets) && IsNormalized(nets, macs, nics, result)
    ensures SlotAt(nets, macs, result, id) == SlotAt(nets, macs, nics, id)
  {
    forall k | 0 <= k < |nics|
      ensures result[k].id == nics[k].id
      ensures SlotOf(Some(SpecOf(nets, macs, result[k]))) == SlotOf(Some(SpecOf(nets, macs, nics[k])))
    {
      NormalKeepsSlot(nets, macs, nics[k]);
    }
  }

  /** Every interface of a normalized list is what the VM must have at its ID: with its own MAC, on the backend QEMU has
      under that name or on the network it refers to, with a helper and without offloads exactly on a bridge. */
  lemma NormalIsLive(nets: Networks, macs: seq<nat>, nics: seq<Nic>, result: seq<Nic>, k: nat)
    requires Consistent(nets) && IsNormalized(nets, macs, nics, result) && k < |result|
    ensures
      var n, given, slot := result[k], nics[k], SlotAt(nets, macs, result, result[k].id);
      && slot.device.Some? && slot.backend.Some?
      && n.mac == Address(slot.device.value.mac)
      && (if !given.mac.Unset? then n.mac == given.mac else given.id < |macs| ==> n.mac == Address(macs[given.id]))
      && n.id == given.id
      && (if Reserved(n.network) then TypeOf(slot.backend.value) == n.network
          else n.network in nets && nets[n.network].id == n.network && !nets[n.network].vlan && slot.backend.value == nets[n.network].mode)
      && (if Reserved(given.network) then n.network == given.network
          else if given.network == "" then n.network == "user"
          else given.network in nets && nets[given.network] == nets[n.network])
      && (slot.device.value.offloads <==> slot.helper == None)
      && (forall bridge :: slot.helper == Some(bridge) <==> slot.backend == Some(Bridge(bridge)))
  {
    assert Normal(nets, macs, nics[k]) == Some(result[k]);
    assert Find(result, result[k].id) == Some(k);
  }

  lemma FilledKeepsSlots(nets: Networks, macs: seq<nat>, nics: seq<Nic>, filled: seq<Nic>, id: nat)
    requires IsFilled(macs, nics, filled)
    ensures SlotAt(nets, macs, filled, id) == SlotAt(nets, macs, nics, id)
  {
  }

  /** The list an edit asks for, before normalization: interface `id` added, replaced or taken out. */
  ghost predicate Edited(action: Action, nics: seq<Nic>, id: nat, network: string, mac: MacText, result: seq<Nic>) {
    match action
    case Add => Find(nics, id) == None && (forall k :: 0 <= k < id ==> Find(nics, k).Some?) && result == nics + [Nic(id, network, mac)]
    case Update =>
      var at := Find(nics, id);
      at.Some? && result == nics[at.value := Nic(id, network, if mac.Unset? then nics[at.value].mac else mac)]
    case Remove =>
      var at := Find(nics, id);
      at.Some? && result == nics[..at.value] + nics[at.value + 1..]
  }

  lemma EditKeepsOthers(nets: Networks, macs: seq<nat>, action: Action, nics: seq<Nic>, id: nat, network: string, mac: MacText,
                        result: seq<Nic>, i: nat)
    requires Edited(action, nics, id, network, mac, result) && i != id
    ensures SlotAt(nets, macs, result, i) == SlotAt(nets, macs, nics, i)
  {
    hide SlotOf, SpecOf, Find;
    var was, now := Find(nics, i), Find(result, i);
    match action {
      case Add =>
        assert forall k :: 0 <= k < |nics| ==> result[k] == nics[k];
        assert was.Some? ==> result[was.value].id == i;
      case Update =>
        assert was.Some? ==> result[was.value] == nics[was.value];
      case Remove =>
        var j := Find(nics, id).value;
        assert forall k :: 0 <= k < j ==> result[k] == nics[k];
        assert forall k :: j <= k < |result| ==> result[k] == nics[k + 1];
        if was.Some? {
          var k := was.value;
          assert k != j;
          assert result[if k < j then k else k - 1] == nics[k];
        }
        if now.Some? {
          var k := now.value;
          assert result[k] == nics[if k < j then k else k + 1];
        }
    }
  }

  /** What a manifest becomes when an edit succeeds. */
  ghost predicate IsResult(nets: Networks, macs: seq<nat>, manifest: seq<Nic>, action: Action, id: nat, network: string, mac: MacText,
                           result: seq<Nic>)
  {
    exists filled: seq<Nic>, changed: nat, edited: seq<Nic> ::
      && IsFilled(macs, manifest, filled)
      && Edited(action, filled, changed, network, mac, edited)
      && (action.Add? || changed == id)
      && IsNormalized(nets, macs, edited, result)
  }

  /** Whether QEMU can be asked for an interface, if there is one. */
  /** Whether the network an interface refers to can be used. */
  predicate Known(spec: Option<InterfaceSpec>) {
    spec.Some? ==> spec.value.mode != Unknown
  }

  predicate Backed(spec: Option<InterfaceSpec>) {
    spec.Some? ==> HasBackend(spec.value)
  }

  predicate AllBacked(nets: Networks, macs: seq<nat>, nics: seq<Nic>) {
    forall i :: 0 <= i < |nics| ==> HasBackend(SpecOf(nets, macs, nics[i]))
  }

  lemma FilledBacked(nets: Networks, macs: seq<nat>, nics: seq<Nic>, filled: seq<Nic>)
    requires IsFilled(macs, nics, filled) && AllBacked(nets, macs, nics)
    ensures AllBacked(nets, macs, filled)
  {
    forall i | 0 <= i < |filled|
      ensures HasBackend(SpecOf(nets, macs, filled[i]))
    {
      assert filled[i] == FillIn(macs, nics[i]) && HasBackend(SpecOf(nets, macs, nics[i]));
    }
  }

  lemma FilledIsUnique(macs: seq<nat>, nics: seq<Nic>, a: seq<Nic>, b: seq<Nic>)
    requires IsFilled(macs, nics, a) && IsFilled(macs, nics, b)
    ensures a == b
  {
  }

  lemma EditedIsUnique(action: Action, nics: seq<Nic>, a: nat, b: nat, network: string, mac: MacText, x: seq<Nic>, y: seq<Nic>)
    requires Edited(action, nics, a, network, mac, x) && Edited(action, nics, b, network, mac, y) && (action.Add? || a == b)
    ensures x == y && a == b
  {
    hide Find;
  }

  /** PendingNetworkReferences: the networks an unfinished change is about. */
  function References(journal: Option<Change>): (names: seq<string>)
    ensures forall name :: name in names <==> name != "" && journal.Some? && (Refers(journal.value.before, name) || Refers(journal.value.after, name))
  {
    match journal
    case None => []
    case Some(change) => Reference(change.before) + Reference(change.after)
  }

  predicate Refers(nic: Option<InterfaceSpec>, name: string) {
    nic.Some? && nic.value.reference == name
  }

  function Reference(nic: Option<InterfaceSpec>): (names: seq<string>) {
    if nic.Some? && nic.value.reference != "" then [nic.value.reference] else []
  }

  class Engine {
    const driver: Driver<seq<Nic>>
    const host: Host<seq<Nic>>
    /** The MAC derived from the VM and interface ID, for interfaces without one. */
    const macs: seq<nat>
    var nets: Networks

    constructor (host: Host<seq<Nic>>, macs: seq<nat>, nets: Networks)
      ensures this.host == host && this.macs == macs && this.nets == nets && driver.host == host
    {
      this.host, this.macs, this.nets := host, macs, nets;
      driver := new Driver(host);
    }

    /** Whenever the VM runs and no journal is pending, its live interfaces are those of the saved manifest. */
    ghost predicate Synced()
      reads this, host
    {
      host.running && host.journal == None ==>
        && host.unplugging == {}
        && forall i :: 0 <= i < SLOTS ==> host.slots[i] == SlotAt(nets, macs, host.manifest, i)
    }

    ghost predicate Valid()
      reads this, host, driver
    {
      && driver.host == host
      && Consistent(nets)
      && Synced()
      && (host.running ==> IdsOk(host.manifest) && Bound(nets, host.manifest))
    }

    /** normalizedInterfaces. */
    method NormalizedInterfaces(nics: seq<Nic>) returns (r: Option<seq<Nic>>)
      ensures r.Some? ==> IsNormalized(nets, macs, nics, r.value)
      ensures r.None? ==> forall result :: !IsNormalized(nets, macs, nics, result)
    {
      hide Normal;
      if |nics| > SLOTS {
        return None;
      }
      var done: seq<Nic> := [];
      var ids: set<nat>, seen: set<MacText> := {}, {};
      for i := 0 to |nics|
        invariant |done| == i && Distinct(done)
        invariant forall k :: 0 <= k < i ==> Normal(nets, macs, nics[k]) == Some(done[k])
        invariant ids == set k | 0 <= k < i :: done[k].id
        invariant seen == set k | 0 <= k < i :: done[k].mac
      {
        var n := Normal(nets, macs, nics[i]);
        if n.None? || n.value.id in ids || n.value.mac in seen {
          return None;
        }
        ids, seen := ids + {n.value.id}, seen + {n.value.mac};
        done := done + [n.value];
      }
      r := Some(done);
    }

    /** The lowest unused of net0 to net31. */
    method FirstFree(nics: seq<Nic>) returns (id: nat)
      ensures id <= SLOTS
      ensures forall k :: 0 <= k < id ==> Find(nics, k).Some?
      ensures id < SLOTS ==> Find(nics, id).None?
    {
      id := 0;
      while id < SLOTS && Find(nics, id).Some?
        invariant id <= SLOTS
        invariant forall k :: 0 <= k < id ==> Find(nics, k).Some?
      {
        id := id + 1;
      }
    }

    method Filled(nics: seq<Nic>) returns (filled: seq<Nic>)
      ensures IsFilled(macs, nics, filled)
    {
      filled := [];
      for i := 0 to |nics|
        invariant |filled| == i
        invariant forall k :: 0 <= k < i ==> filled[k] == FillIn(macs, nics[k])
      {
        filled := filled + [FillIn(macs, nics[i])];
      }
    }

    /** Apply one edit to a list, choosing the ID of an added interface. */
    method Edit(action: Action, nics: seq<Nic>, id: nat, network: string, mac: MacText) returns (r: Option<seq<Nic>>, changed: nat)
      ensures r.Some? ==> Edited(action, nics, changed, network, mac, r.value)
      ensures r.Some? && !action.Add? ==> changed == id
      ensures r.None? <==> if action.Add? then forall k :: 0 <= k < SLOTS ==> Find(nics, k).Some? else Find(nics, id).None?
    {
      changed := id;
      match action {
        case Add =>
          changed := FirstFree(nics);
          r := if changed == SLOTS then None else Some(nics + [Nic(changed, network, mac)]);
        case Update =>
          var at := Find(nics, id);
          r := if at.None? then None
               else Some(nics[at.value := Nic(id, network, if mac.Unset? then nics[at.value].mac else mac)]);
        case Remove =>
          var at := Find(nics, id);
          r := if at.None? then None else Some(nics[..at.value] + nics[at.value + 1..]);
      }
    }

    /** The specification of one interface of a list, after applying the network it uses. */
    method ResolveSpec(nics: seq<Nic>, id: nat) returns (ok: bool, spec: Option<InterfaceSpec>)
      modifies host
      ensures host.KeepsLive() && host.KeepsFiles()
      ensures ok ==> spec == SpecAt(nets, macs, nics, id) && Known(spec) && host.Smooth()
      ensures host.Smooth() && old(host.alive) && Backed(SpecAt(nets, macs, nics, id)) ==> ok
      ensures host.stuck == old(host.stuck) && host.resisted == old(host.resisted)
      ensures Healthy(old(host.script)) && old(host.alive) && Backed(SpecAt(nets, macs, nics, id)) ==> ok
    {
      ok, spec := true, SpecAt(nets, macs, nics, id);
      if spec.Some? {
        ok := host.Prepare();
        ok := ok && spec.value.mode != Unknown;
      }
    }

    method ManageInterface(action: Action, id: nat, network: string, mac: MacText, saving: Saving) returns (outcome: Outcome)
      requires Valid() && host.alive
      modifies host
      ensures Valid() || saving.FailsLate?
      ensures host.running ==> old(host.running)
      ensures host.alive && outcome == Ok ==> IsResult(nets, macs, old(host.manifest), action, id, network, mac, host.manifest)
      ensures host.alive && outcome == Definite ==>
        || host.manifest == old(host.manifest)
        || (saving.FailsLate? && IsResult(nets, macs, old(host.manifest), action, id, network, mac, host.manifest))
      ensures host.alive && outcome == Uncertain ==> host.journal != None
      // A change that is pending is left alone.
      ensures old(host.running) && References(old(host.journal)) != [] && host.lost == old(host.lost) ==>
        && Untouched() && host.manifest == old(host.manifest)
        && (outcome == Uncertain || (outcome == Definite && host.refused > old(host.refused)))
      // Where every command works, an edit that can be made is made, and an uncertain outcome has a reason.
      ensures Healthy(old(host.script)) && saving.Saves? && old(Possible(action, id, network, mac)) ==> host.alive && outcome == Ok
      ensures host.Smooth() && saving.Saves? && old(Possible(action, id, network, mac)) ==> host.alive && outcome == Ok
      ensures outcome == Uncertain ==>
        || old(host.journal) != None
        || driver.Unclear(saving)
        || (!old(AllBacked(nets, macs, host.manifest)) && (!saving.Saves? || host.refused > old(host.refused)))
    {
      hide SlotOf, SlotAt, IdsOk, Bound, IsNormalized, Edited, IsFilled, AllBacked, Backed, Find;
      var ok := host.Prepare();
      if !ok {
        return Definite;
      }
      if host.running {
        if References(host.journal) != [] {
          return Uncertain;
        }
      }
      var previous, m, changed := EditedList(action, id, network, mac);
      if m.None? {
        return Definite;
      }
      outcome := Commit(previous, m.value, changed, saving);
    }

    /** The interfaces as they are and as they are to be, with the ID of the one that changes. */
    method EditedList(action: Action, id: nat, network: string, mac: MacText)
      returns (previous: seq<Nic>, m: Option<seq<Nic>>, changed: nat)
      requires Valid()
      ensures m.None? ==> !Possible(action, id, network, mac)
      ensures m.Some? ==>
        && IsResult(nets, macs, host.manifest, action, id, network, mac, m.value)
        && IdsOk(m.value) && Bound(nets, m.value)
        && (host.running ==> changed < SLOTS)
        && (Find(previous, changed).Some? || Find(m.value, changed).Some?)
        && SlotAt(nets, macs, previous, changed) == SlotAt(nets, macs, host.manifest, changed)
        && (forall i :: i != changed ==> SlotAt(nets, macs, m.value, i) == SlotAt(nets, macs, host.manifest, i))
      ensures m.Some? && Possible(action, id, network, mac) && host.running ==>
        && host.journal == None
        && Backed(SpecAt(nets, macs, previous, changed))
        && Backed(SpecAt(nets, macs, m.value, changed))
      ensures AllBacked(nets, macs, host.manifest) ==> Backed(SpecAt(nets, macs, previous, changed))
    {
      hide SlotOf, SlotAt, IdsOk, Bound, IsNormalized, Edited, IsFilled, AllBacked, Backed, Find, SpecAt;
      previous := Filled(host.manifest);
      var edited;
      edited, changed := Edit(action, previous, id, network, mac);
      if AllBacked(nets, macs, host.manifest) {
        PreviousBacked(previous, changed);
      }
      if edited.None? {
        NotEdited(previous, action, id, network, mac);
        m := None;
        return;
      }
      m := NormalizedInterfaces(edited.value);
      if m.None? {
        OnlyEdit(previous, action, id, network, mac, changed, edited.value);
        return;
      }
      if Possible(action, id, network, mac) {
        PossibleIs(previous, action, id, network, mac, changed, edited.value, m.value);
      }
      EditedSlots(host.manifest, previous, action, changed, network, mac, edited.value, m.value);
    }

    lemma PreviousBacked(previous: seq<Nic>, changed: nat)
      requires IsFilled(macs, host.manifest, previous) && AllBacked(nets, macs, host.manifest)
      ensures Backed(SpecAt(nets, macs, previous, changed))
    {
      FilledBacked(nets, macs, host.manifest, previous);
    }

    /** An edit that this VM can be given: it leads to a list that can be normalized, and if the VM runs, no change is
        pending and QEMU can be asked for every interface. */
    ghost predicate Possible(action: Action, id: nat, network: string, mac: MacText)
      reads this, host
    {
      exists result ::
        && IsResult(nets, macs, host.manifest, action, id, network, mac, result)
        && (host.running ==> host.journal == None && AllBacked(nets, macs, host.manifest) && AllBacked(nets, macs, result))
    }

    /** An edit that was refused has no result. */
    lemma NotEdited(previous: seq<Nic>, action: Action, id: nat, network: string, mac: MacText)
      requires IsFilled(macs, host.manifest, previous)
      requires if action.Add? then forall k :: 0 <= k < SLOTS ==> Find(previous, k).Some? else Find(previous, id).None?
      ensures !Possible(action, id, network, mac)
    {
      forall filled: seq<Nic>, changed: nat, edited: seq<Nic>, result: seq<Nic> |
        && IsFilled(macs, host.manifest, filled) && Edited(action, filled, changed, network, mac, edited)
        && (action.Add? || changed == id)
        ensures !IsNormalized(nets, macs, edited, result)
      {
        FilledIsUnique(macs, host.manifest, filled, previous);
        assert action.Add? ==> changed >= SLOTS && edited[|filled|].id == changed;
        assert action.Add? ==> Normal(nets, macs, edited[|filled|]) == None;
      }
    }

    /** A possible edit is the one that Edit makes. */
    lemma OnlyEdit(previous: seq<Nic>, action: Action, id: nat, network: string, mac: MacText, changed: nat, edited: seq<Nic>)
      requires IsFilled(macs, host.manifest, previous) && Edited(action, previous, changed, network, mac, edited)
      requires action.Add? || changed == id
      ensures forall result :: IsResult(nets, macs, host.manifest, action, id, network, mac, result) ==>
        IsNormalized(nets, macs, edited, result)
    {
      hide IsFilled, Edited, IsNormalized;
      forall result | IsResult(nets, macs, host.manifest, action, id, network, mac, result)
        ensures IsNormalized(nets, macs, edited, result)
      {
        var filled: seq<Nic>, other: nat, list: seq<Nic> :|
          && IsFilled(macs, host.manifest, filled)
          && Edited(action, filled, other, network, mac, list)
          && (action.Add? || other == id)
          && IsNormalized(nets, macs, list, result);
        FilledIsUnique(macs, host.manifest, filled, previous);
        EditedIsUnique(action, previous, changed, other, network, mac, edited, list);
      }
    }

    lemma PossibleIs(previous: seq<Nic>, action: Action, id: nat, network: string, mac: MacText, changed: nat, edited: seq<Nic>,
                     m: seq<Nic>)
      requires IsFilled(macs, host.manifest, previous) && Edited(action, previous, changed, network, mac, edited)
      requires (action.Add? || changed == id) && IsNormalized(nets, macs, edited, m) && Possible(action, id, network, mac)
      ensures host.running ==>
        host.journal == None && Backed(SpecAt(nets, macs, previous, changed)) && Backed(SpecAt(nets, macs, m, changed))
    {
      hide IsFilled, Edited, IsNormalized, IsResult;
      var result :| IsResult(nets, macs, host.manifest, action, id, network, mac, result)
        && (host.running ==> host.journal == None && AllBacked(nets, macs, host.manifest) && AllBacked(nets, macs, result));
      OnlyEdit(previous, action, id, network, mac, changed, edited);
      NormalizedIsUnique(edited, m, result);
      if host.running {
        FilledBacked(nets, macs, host.manifest, previous);
      }
    }

    /** No live interface and no journal has changed. */
    twostate predicate Untouched()
      reads host
    {
      host.slots == old(host.slots) && host.journal == old(host.journal)
    }

    /** Save the edited list, through the hotplug transaction when the VM runs. */
    method Commit(previous: seq<Nic>, m: seq<Nic>, changed: nat, saving: Saving) returns (outcome: Outcome)
      requires Valid() && host.alive && IdsOk(m) && Bound(nets, m)
      requires SlotAt(nets, macs, previous, changed) == SlotAt(nets, macs, host.manifest, changed)
      requires forall i :: i != changed ==> SlotAt(nets, macs, m, i) == SlotAt(nets, macs, host.manifest, i)
      requires Find(previous, changed).Some? || Find(m, changed).Some?
      requires host.running ==> changed < SLOTS
      modifies host
      ensures Valid() || saving.FailsLate?
      ensures host.running ==> old(host.running)
      ensures host.alive && outcome == Ok ==> host.manifest == m
      ensures host.alive && outcome == Definite ==> host.manifest == old(host.manifest) || (saving.FailsLate? && host.manifest == m)
      ensures host.alive && outcome == Uncertain ==> host.journal != None
      // After an error that says nothing changed, the VM is in step exactly if the store kept the old manifest, or the
      // new one asks for the same live interface.
      ensures host.alive && host.running && outcome == Definite && old(host.journal) == None ==>
        (Synced() <==>
          || host.manifest == old(host.manifest)
          || SlotAt(nets, macs, m, changed) == SlotAt(nets, macs, old(host.manifest), changed))
      ensures Healthy(old(host.script)) && saving.Saves? && (old(host.running) ==>
        old(host.journal) == None && Backed(SpecAt(nets, macs, previous, changed)) && Backed(SpecAt(nets, macs, m, changed))) ==>
        host.alive && outcome == Ok
      ensures host.Smooth() && saving.Saves? && (old(host.running) ==>
        old(host.journal) == None && Backed(SpecAt(nets, macs, previous, changed)) && Backed(SpecAt(nets, macs, m, changed))) ==>
        host.alive && outcome == Ok
      ensures outcome == Uncertain ==>
        || old(host.journal) != None
        || driver.Unclear(saving)
        || (!Backed(SpecAt(nets, macs, previous, changed)) && (!saving.Saves? || host.refused > old(host.refused)))
      // An interface whose network cannot be used is not touched, and one that stays the same is only saved.
      ensures old(host.running) && (!Known(SpecAt(nets, macs, previous, changed)) || !Known(SpecAt(nets, macs, m, changed))) ==>
        outcome == Definite && Untouched() && host.manifest == old(host.manifest)
      ensures old(host.running) && SpecAt(nets, macs, previous, changed) == SpecAt(nets, macs, m, changed) ==> Untouched()
    {
      hide IdsOk, Bound, SlotOf;
      if !host.running {
        var saved := host.SaveManifest(m, saving);
        return if saved then Ok else Definite;
      }
      outcome := CommitLive(previous, m, changed, saving);
    }

    /** The interface as it is and as it is to be, and the lock of the networks. */
    method ResolveBoth(previous: seq<Nic>, m: seq<Nic>, changed: nat)
      returns (ok: bool, before: Option<InterfaceSpec>, after: Option<InterfaceSpec>)
      modifies host
      ensures host.KeepsLive() && host.KeepsFiles()
      ensures ok ==> before == SpecAt(nets, macs, previous, changed) && after == SpecAt(nets, macs, m, changed)
      ensures ok ==> Known(before) && Known(after)
      ensures ok ==> host.alive && host.Smooth()
      ensures host.stuck == old(host.stuck) && host.resisted == old(host.resisted)
      ensures
        && old(host.alive) && (Healthy(old(host.script)) || host.Smooth())
        && Backed(SpecAt(nets, macs, previous, changed)) && Backed(SpecAt(nets, macs, m, changed)) ==>
        ok
    {
      hide SpecAt, HasBackend;
      after := None;
      ok, before := ResolveSpec(previous, changed);
      if !ok {
        return;
      }
      ok, after := ResolveSpec(m, changed);
      if !ok {
        return;
      }
      ok := host.Prepare();
    }

    /** Commit, when the VM runs. */
    method CommitLive(previous: seq<Nic>, m: seq<Nic>, changed: nat, saving: Saving) returns (outcome: Outcome)
      requires Valid() && host.alive && host.running && IdsOk(m) && Bound(nets, m)
      requires SlotAt(nets, macs, previous, changed) == SlotAt(nets, macs, host.manifest, changed)
      requires forall i :: i != changed ==> SlotAt(nets, macs, m, i) == SlotAt(nets, macs, host.manifest, i)
      requires Find(previous, changed).Some? || Find(m, changed).Some?
      requires changed < SLOTS
      modifies host
      ensures Valid() || saving.FailsLate?
      ensures host.alive && outcome == Ok ==> host.manifest == m
      ensures host.alive && outcome == Definite ==> host.manifest == old(host.manifest) || (saving.FailsLate? && host.manifest == m)
      ensures host.alive && outcome == Uncertain ==> host.journal != None
      ensures host.alive && host.running && outcome == Definite && old(host.journal) == None ==>
        (Synced() <==>
          || host.manifest == old(host.manifest)
          || SlotAt(nets, macs, m, changed) == SlotAt(nets, macs, old(host.manifest), changed))
      ensures
        && saving.Saves? && old(host.journal) == None
        && Backed(SpecAt(nets, macs, previous, changed)) && Backed(SpecAt(nets, macs, m, changed)) ==>
        (Healthy(old(host.script)) || host.Smooth() ==> host.alive && outcome == Ok)
      ensures outcome == Uncertain ==>
        || old(host.journal) != None
        || driver.Unclear(saving)
        || (!Backed(SpecAt(nets, macs, previous, changed)) && (!saving.Saves? || host.refused > old(host.refused)))
      // An interface whose network cannot be used is not touched, and one that stays the same is only saved.
      ensures (!Known(SpecAt(nets, macs, previous, changed)) || !Known(SpecAt(nets, macs, m, changed))) ==>
        outcome == Definite && Untouched() && host.manifest == old(host.manifest)
      ensures SpecAt(nets, macs, previous, changed) == SpecAt(nets, macs, m, changed) ==> Untouched()
    {
      hide IdsOk, Bound, SlotOf;
      var ok, before, after := ResolveBoth(previous, m, changed);
      if !ok {
        return Definite;
      }
      if before.Some? && before == after {
        var saved := host.SaveManifest(m, saving);
        return if saved then Ok else Definite;
      }
      outcome := driver.ChangeInterface(before, after, m, saving);
    }

    /** A normalized edit changes what must be live at the edited interface only. */
    lemma EditedSlots(manifest: seq<Nic>, previous: seq<Nic>, action: Action, changed: nat, network: string, mac: MacText,
                      edited: seq<Nic>, m: seq<Nic>)
      requires Consistent(nets) && IsFilled(macs, manifest, previous)
      requires Edited(action, previous, changed, network, mac, edited) && IsNormalized(nets, macs, edited, m)
      ensures IdsOk(m) && Bound(nets, m) && (Find(previous, changed).Some? || Find(m, changed).Some?)
      ensures IdsOk(manifest) ==> changed < SLOTS
      ensures SlotAt(nets, macs, previous, changed) == SlotAt(nets, macs, manifest, changed)
      ensures forall i :: i != changed ==> SlotAt(nets, macs, m, i) == SlotAt(nets, macs, manifest, i)
    {
      hide IsFilled, Edited, IsNormalized, Find, SlotAt, IdsOk, Bound;
      NormalizedIdsOk(edited, m);
      EditedIds(manifest, previous, action, changed, network, mac, edited, m);
      forall i
        ensures SlotAt(nets, macs, previous, i) == SlotAt(nets, macs, manifest, i)
        ensures i != changed ==> SlotAt(nets, macs, m, i) == SlotAt(nets, macs, manifest, i)
      {
        FilledKeepsSlots(nets, macs, manifest, previous, i);
        NormalizedKeepsSlots(nets, macs, edited, m, i);
        if i != changed {
          EditKeepsOthers(nets, macs, action, previous, changed, network, mac, edited, i);
        }
      }
    }

    lemma EditedIds(manifest: seq<Nic>, previous: seq<Nic>, action: Action, changed: nat, network: string, mac: MacText,
                    edited: seq<Nic>, m: seq<Nic>)
      requires IsFilled(macs, manifest, previous)
      requires Edited(action, previous, changed, network, mac, edited) && IsNormalized(nets, macs, edited, m)
      ensures Find(previous, changed).Some? || Find(m, changed).Some?
      ensures IdsOk(manifest) ==> changed < SLOTS
    {
      hide Distinct;
      if action.Add? {
        assert Normal(nets, macs, edited[|previous|]) == Some(m[|previous|]);
        assert m[|previous|].id == changed < SLOTS;
      } else {
        var at := Find(previous, changed).value;
        assert previous[at].id == manifest[at].id == changed;
      }
    }

    // ---- Starting and stopping ----

    ghost predicate NoHelpers()
      reads host
    {
      forall i :: 0 <= i < SLOTS ==> host.slots[i].helper == None
    }

    /** stopNetworkHelpers: stop every helper; the journal goes only once all of them have. */
    method StopNetworkHelpers() returns (ok: bool)
      requires !host.running
      modifies host
      ensures !host.running && host.manifest == old(host.manifest)
      ensures host.alive ==> old(host.alive)
      ensures ok ==> host.alive && host.journal == None
      ensures ok ==> NoHelpers()
      ensures host.Counts() && host.refused == old(host.refused)
      ensures ok <==> host.Settled()
      ensures Healthy(old(host.script)) && old(host.alive) ==> ok && Healthy(host.script)
    {
      var result := true;
      for i := 0 to SLOTS
        invariant !host.running && host.manifest == old(host.manifest)
        invariant host.alive ==> old(host.alive)
        invariant host.Counts() && host.refused == old(host.refused)
        invariant if result then host.lost == old(host.lost) && host.stuck == old(host.stuck) else
          host.lost > old(host.lost) || host.stuck > old(host.stuck)
        invariant result ==> forall k :: 0 <= k < i ==> host.slots[k].helper == None
        invariant Healthy(old(host.script)) && old(host.alive) ==> result && host.alive && Healthy(host.script)
      {
        var stopped := host.StopHelper(i);
        result := result && stopped;
      }
      if result {
        result := host.RemoveJournal();
      }
      return result;
    }

    /** StartPreparedContext: QEMU comes up with exactly the interfaces of the manifest, and without a journal. */
    method Start() returns (ok: bool)
      requires Valid()
      modifies host
      ensures Valid() && host.manifest == old(host.manifest)
      ensures ok && !old(host.running) ==> host.running && host.journal == None && Synced()
      ensures ok ==> host.running
      ensures Healthy(old(host.script)) && old(host.alive) && Startable(old(host.manifest)) ==> ok
      // A failure has a reason, and leaves no helper that was not there, unless one cannot be stopped.
      ensures old(host.alive) && host.Smooth() && Startable(old(host.manifest)) ==> ok
      ensures !ok && host.Settled() ==> host.slots == old(host.slots) || NoHelpers()
      // What cannot be started is not tried.
      ensures ok && !old(host.running) ==> Startable(old(host.manifest))
      ensures !old(host.running) && !Usable(old(host.manifest)) ==> !ok && Untouched()
    {
      if host.running {
        return true;
      }
      var m := host.manifest;
      var normalized := NormalizedInterfaces(m);
      if normalized.None? {
        assert !Startable(m);
        return false;
      }
      var nics := normalized.value;
      ok := ResolveAll(nics);
      if !ok {
        assert Startable(m) && Healthy(old(host.script)) && old(host.alive) ==> false by {
          if Startable(m) {
            var other :| IsNormalized(nets, macs, m, other) && forall i :: 0 <= i < |other| ==> HasBackend(SpecOf(nets, macs, other[i]));
            NormalizedIsUnique(m, nics, other);
          }
        }
        return false;
      }
      ok := StopNetworkHelpers();
      if !ok {
        return false;
      }
      ok := host.RemoveJournal();
      if !ok {
        return false;
      }
      NormalizedIdsOk(m, nics);
      ok := Launch(nics);
      forall i | 0 <= i < SLOTS
        ensures SlotAt(nets, macs, nics, i) == SlotAt(nets, macs, m, i)
      {
        NormalizedKeepsSlots(nets, macs, m, nics, i);
      }
    }

    /** Start the helpers, then QEMU. */
    method Launch(nics: seq<Nic>) returns (ok: bool)
      requires !host.running && host.alive && host.journal == None && IdsOk(nics)
      requires NoHelpers()
      modifies host
      ensures host.manifest == old(host.manifest) && ok == host.running
      ensures !ok && host.Settled() ==> NoHelpers()
      ensures ok ==> forall i :: 0 <= i < |nics| ==> HasBackend(SpecOf(nets, macs, nics[i]))
      ensures host.Tally()
      ensures host.Smooth() && (forall i :: 0 <= i < |nics| ==> HasBackend(SpecOf(nets, macs, nics[i]))) ==> ok
      ensures ok ==>
        && host.journal == None
        && host.unplugging == {}
        && forall i :: 0 <= i < SLOTS ==> host.slots[i] == SlotAt(nets, macs, nics, i)
      ensures Healthy(old(host.script)) && (forall i :: 0 <= i < |nics| ==> HasBackend(SpecOf(nets, macs, nics[i]))) ==> ok
    {
      ok := StartHelpers(nics);
      if !ok {
        return false;
      }
      var networks, derived := nets, macs;
      var wanted: Slots := seq(SLOTS, i requires 0 <= i < SLOTS => SlotAt(networks, derived, nics, i));
      ok := host.Spawn(wanted);
      if !ok {
        var stopped := StopNetworkHelpers();
        return false;
      }
    }

    /** Resolve, and apply, the network of every interface. */
    method ResolveAll(nics: seq<Nic>) returns (ok: bool)
      modifies host
      ensures host.KeepsLive() && host.KeepsFiles()
      ensures ok ==> forall i :: 0 <= i < |nics| ==> ModeOf(nets, nics[i].network) != Unknown
      ensures host.Smooth() && old(host.alive) && (forall i :: 0 <= i < |nics| ==> ModeOf(nets, nics[i].network) != Unknown) ==> ok
      ensures host.stuck == old(host.stuck)
      ensures Healthy(old(host.script)) && old(host.alive) && (forall i :: 0 <= i < |nics| ==> ModeOf(nets, nics[i].network) != Unknown)
        ==> ok
    {
      for i := 0 to |nics|
        invariant host.KeepsLive() && host.KeepsFiles()
        invariant forall k :: 0 <= k < i ==> ModeOf(nets, nics[k].network) != Unknown
        invariant host.stuck == old(host.stuck)
      {
        var resolved := host.Prepare();
        if !resolved || ModeOf(nets, nics[i].network) == Unknown {
          return false;
        }
      }
      ok := true;
    }

    /** Whether the interfaces of a manifest have networks that can be used. */
    ghost predicate Usable(m: seq<Nic>)
      reads this
    {
      exists nics: seq<Nic> :: IsNormalized(nets, macs, m, nics) && forall i :: 0 <= i < |nics| ==> ModeOf(nets, nics[i].network) != Unknown
    }

    /** Whether the interfaces of a manifest can be turned into QEMU arguments. */
    ghost predicate Startable(m: seq<Nic>)
      reads this
    {
      exists nics :: IsNormalized(nets, macs, m, nics) && forall i :: 0 <= i < |nics| ==> HasBackend(SpecOf(nets, macs, nics[i]))
    }

    lemma NormalizedIsUnique(m: seq<Nic>, a: seq<Nic>, b: seq<Nic>)
      requires IsNormalized(nets, macs, m, a) && IsNormalized(nets, macs, m, b)
      ensures a == b
    {
      forall i | 0 <= i < |m|
        ensures a[i] == b[i]
      {
        assert Some(a[i]) == Normal(nets, macs, m[i]) == Some(b[i]);
      }
    }

    lemma NormalizedIdsOk(m: seq<Nic>, nics: seq<Nic>)
      requires Consistent(nets) && IsNormalized(nets, macs, m, nics)
      ensures IdsOk(m) && IdsOk(nics) && Bound(nets, m) && Bound(nets, nics)
    {
      forall k | 0 <= k < |m|
        ensures nics[k].id == m[k].id < SLOTS
      {
        assert Normal(nets, macs, m[k]) == Some(nics[k]);
      }
    }

    /** Check every interface's arguments, then start the helpers of the bridge interfaces. */
    method StartHelpers(nics: seq<Nic>) returns (ok: bool)
      requires !host.running && host.alive && host.journal == None && IdsOk(nics)
      requires NoHelpers()
      modifies host
      ensures !host.running && host.manifest == old(host.manifest)
      ensures !ok && host.Settled() ==> NoHelpers()
      ensures ok ==> forall i :: 0 <= i < |nics| ==> HasBackend(SpecOf(nets, macs, nics[i]))
      ensures (exists i :: 0 <= i < |nics| && !HasBackend(SpecOf(nets, macs, nics[i]))) ==> !ok && host.slots == old(host.slots)
      ensures host.Counts()
      ensures host.Smooth() && (forall i :: 0 <= i < |nics| ==> HasBackend(SpecOf(nets, macs, nics[i]))) ==> ok
      ensures ok ==> host.Smooth()
      ensures host.alive ==> old(host.alive)
      ensures ok ==> host.journal == None
      ensures ok ==> forall i :: 0 <= i < SLOTS ==> host.slots[i].helper == SlotAt(nets, macs, nics, i).helper
      ensures Healthy(old(host.script)) && (forall i :: 0 <= i < |nics| ==> HasBackend(SpecOf(nets, macs, nics[i]))) ==>
        ok && host.alive && Healthy(host.script)
    {
      for i := 0 to |nics|
        invariant forall k :: 0 <= k < i ==> HasBackend(SpecOf(nets, macs, nics[k]))
      {
        if !HasBackend(SpecOf(nets, macs, nics[i])) {
          return false;
        }
      }
      for i := 0 to |nics|
        invariant !host.running && host.manifest == old(host.manifest) && host.journal == None
        invariant host.alive ==> old(host.alive)
        invariant forall k :: 0 <= k < SLOTS ==> host.slots[k].helper == SlotAt(nets, macs, nics[..i], k).helper
        invariant Healthy(old(host.script)) ==> host.alive && Healthy(host.script)
        invariant host.Counts() && host.Smooth()
      {
        var spec := SpecOf(nets, macs, nics[i]);
        ghost var helpers := host.slots;
        if spec.mode.Bridge? {
          var ready := host.Prepare();
          if ready {
            ready := host.StartHelper(spec.id, spec.mode.device);
          }
          if !ready {
            var stopped := StopNetworkHelpers();
            return false;
          }
        }
        forall k | 0 <= k < SLOTS
          ensures host.slots[k].helper == SlotAt(nets, macs, nics[..i + 1], k).helper
        {
          NextHelper(nics, i, k);
        }
      }
      assert nics[..|nics|] == nics;
      ok := true;
    }

    lemma NextHelper(nics: seq<Nic>, i: nat, k: nat)
      requires i < |nics| && IdsOk(nics)
      ensures SlotAt(nets, macs, nics[..i + 1], k) == if k == nics[i].id then SlotOf(Some(SpecOf(nets, macs, nics[i]))) else SlotAt(nets, macs, nics[..i], k)
      ensures k == nics[i].id ==> SlotAt(nets, macs, nics[..i], k) == EMPTY
    {
      var was, now := Find(nics[..i], k), Find(nics[..i + 1], k);
      assert nics[..i + 1][i] == nics[i];
      assert forall j :: 0 <= j < i ==> nics[..i + 1][j] == nics[..i][j] == nics[j];
    }

    /** driver.stop: the journal goes only after QEMU and all helpers are gone. */
    method Stop(graceful: bool) returns (ok: bool)
      requires Valid()
      modifies host
      ensures Valid() && host.manifest == old(host.manifest)
      ensures ok ==> !host.running && host.journal == None && NoHelpers()
      ensures Healthy(old(host.script)) && old(host.alive) ==> ok
      // A failure has a reason: QEMU withstood every way there is to stop it, or its helpers did.
      ensures !ok ==> !host.Settled()
      ensures !ok && host.running && host.lost == old(host.lost) ==>
        host.stuck >= old(host.stuck) + 2 && (graceful ==> host.stuck >= old(host.stuck) + 3 || host.refused > old(host.refused))
    {
      if !host.running {
        ok := StopNetworkHelpers();
        return;
      }
      ok := false;
      if graceful {
        var dialled := host.Dial();
        if dialled {
          ok := host.Kill();
        }
      }
      if !ok {
        ok := host.Kill();
      }
      if !ok {
        ok := host.Kill();
      }
      if !ok {
        return false;
      }
      ok := StopNetworkHelpers();
    }

    /** Whether a running VM uses a network, or an unfinished change of its interfaces is about it. */
    predicate InUse(id: string, name: string)
      reads this, host
    {
      && host.running
      && (id in References(host.journal) || name in References(host.journal)
        || exists k :: 0 <= k < |host.manifest| && (host.manifest[k].network == id || host.manifest[k].network == name))
    }

    /** The store under a running VM: UpdateNetwork (`changed` is the network as it is to be) or DestroyNetwork (`changed`
        is nothing) refuses a network that the VM refers to. Then what the VM's references resolve to stays. */
    method ChangeNetwork(id: string, name: string, changed: Option<Network>) returns (ok: bool)
      requires Valid()
      modifies this`nets
      ensures Valid()
      ensures ok <==> Named(old(nets), id, name) && !old(InUse(id, name))
      ensures nets == if !ok then old(nets) else if changed.None? then old(nets) - {id, name} else Stored(old(nets), id, name, changed.value)
      ensures host.running ==> SameModes(old(nets), nets, host.manifest)
    {
      hide SlotAt, ModeOf, Named, Consistent, IdsOk, Bound;
      if !Named(nets, id, name) {
        return false;
      }
      if host.running {
        if id in References(host.journal) || name in References(host.journal) {
          return false;
        }
        for i := 0 to |host.manifest|
          invariant forall k :: 0 <= k < i ==> host.manifest[k].network != id && host.manifest[k].network != name
        {
          if host.manifest[i].network == id || host.manifest[i].network == name {
            return false;
          }
        }
      }
      var next := if changed.None? then nets - {id, name} else Stored(nets, id, name, changed.value);
      ChangeKeeps(nets, next, id, name);
      if host.running {
        ElsewhereSame(nets, next, id, name, macs, host.manifest);
      }
      nets := next;
      ok := true;
    }

    /** A network that is new to the store: nothing that a running VM refers to. */
    method AddNetwork(id: string, name: string, network: Network) returns (ok: bool)
      requires Valid()
      modifies this`nets
      ensures Valid()
      ensures ok <==> id !in old(nets) && name !in old(nets) && id != "" && !Reserved(id)
      ensures nets == if ok then Stored(old(nets), id, name, network) else old(nets)
      ensures host.running ==> SameModes(old(nets), nets, host.manifest)
    {
      hide SlotAt, ModeOf, Consistent, IdsOk, Bound;
      ok := id !in nets && name !in nets && id != "" && !Reserved(id);
      if ok {
        var next := Stored(nets, id, name, network);
        AdditionKeeps(nets, next, id, name);
        if host.running {
          AdditionSame(nets, next, id, name, macs, host.manifest);
        }
        nets := next;
      }
    }
  }

  /** Whether a network is in the store under an ID and a name, and under nothing else. */
  predicate Named(nets: Networks, id: string, name: string) {
    && id in nets && nets[id].id == id && name in nets && nets[name] == nets[id]
    && forall key :: key in nets && nets[key].id == id ==> key == id || key == name
  }

  function Stored(nets: Networks, id: string, name: string, network: Network): (r: Networks) {
    nets[id := network.(id := id)][name := network.(id := id)]
  }

  /** The references of a list resolve to the same networks. */
  ghost predicate SameModes(before: Networks, after: Networks, nics: seq<Nic>) {
    forall k :: 0 <= k < |nics| ==> ModeOf(after, nics[k].network) == ModeOf(before, nics[k].network)
  }

  /** Only the two keys of a network have changed: it is there under both, or is gone. */
  ghost predicate Differ(before: Networks, after: Networks, id: string, name: string) {
    && (forall key :: key != id && key != name ==> (key in after <==> key in before) && (key in before ==> after[key] == before[key]))
    && (id in after <==> name in after)
    && (id in after ==> after[id] == after[name] && after[id].id == id)
  }

  lemma ChangeKeeps(before: Networks, after: Networks, id: string, name: string)
    requires Consistent(before) && Named(before, id, name)
    requires after == before - {id, name} || exists network :: after == Stored(before, id, name, network)
    ensures Consistent(after) && Differ(before, after, id, name)
  {
    hide Stored, Consistent;
    StoredDiffers(before, after, id, name);
    forall key | key in before && key != id && key != name
      ensures before[key].id != id && before[key].id != name
    {
      KeyOf(before, key);
    }
    KeyOf(before, id);
    StaysConsistent(before, after, id, name);
  }

  lemma AdditionKeeps(before: Networks, after: Networks, id: string, name: string)
    requires Consistent(before) && id !in before && name !in before && id != "" && !Reserved(id)
    requires exists network :: after == Stored(before, id, name, network)
    ensures Consistent(after) && Differ(before, after, id, name)
  {
    hide Stored, Consistent;
    StoredDiffers(before, after, id, name);
    forall key | key in before
      ensures before[key].id != id && before[key].id != name
    {
      KeyOf(before, key);
    }
    StaysConsistent(before, after, id, name);
  }

  lemma StoredDiffers(before: Networks, after: Networks, id: string, name: string)
    requires after == before - {id, name} || exists network :: after == Stored(before, id, name, network)
    ensures Differ(before, after, id, name)
  {
  }

  lemma KeyOf(nets: Networks, key: string)
    requires Consistent(nets) && key in nets
    ensures nets[key].id in nets && nets[nets[key].id] == nets[key] && nets[key].id != "" && !Reserved(nets[key].id)
  {
  }

  lemma StaysConsistent(before: Networks, after: Networks, id: string, name: string)
    requires Consistent(before) && Differ(before, after, id, name) && id != "" && !Reserved(id)
    requires forall key :: key in before && key != id && key != name ==> before[key].id != id && before[key].id != name
    ensures Consistent(after)
  {
    forall key | key in after
      ensures after[key].id in after && after[after[key].id] == after[key] && !Reserved(after[key].id) && after[key].id != ""
    {
      if key != id && key != name {
        KeyOf(before, key);
      }
    }
  }

  lemma ElsewhereSame(before: Networks, after: Networks, id: string, name: string, macs: seq<nat>, nics: seq<Nic>)
    requires Differ(before, after, id, name) && Bound(before, nics)
    requires forall k :: 0 <= k < |nics| ==> nics[k].network != id && nics[k].network != name
    ensures SameModes(before, after, nics) && Bound(after, nics)
    ensures forall i :: SlotAt(after, macs, nics, i) == SlotAt(before, macs, nics, i)
  {
    SameSlots(before, after, macs, nics);
  }

  lemma AdditionSame(before: Networks, after: Networks, id: string, name: string, macs: seq<nat>, nics: seq<Nic>)
    requires Differ(before, after, id, name) && Bound(before, nics) && id !in before && name !in before
    ensures SameModes(before, after, nics) && Bound(after, nics)
    ensures forall i :: SlotAt(after, macs, nics, i) == SlotAt(before, macs, nics, i)
  {
    SameSlots(before, after, macs, nics);
  }

  /** References that resolve to the same networks ask for the same live interfaces. */
  lemma SameSlots(before: Networks, after: Networks, macs: seq<nat>, nics: seq<Nic>)
    requires SameModes(before, after, nics)
    ensures forall i :: SlotAt(after, macs, nics, i) == SlotAt(before, macs, nics, i)
  {
  }

  // ---- Whole runs ----

  datatype Operation =
    | Manage(action: Action, id: nat, network: string, mac: MacText, saving: Saving)
    | StartVM
    | StopVM(graceful: bool)
    | NewNetwork(key: string, name: string, added: Network)
    | NetworkChange(key: string, name: string, changed: Option<Network>)
    | QemuExits
    | GuestUnplugs(id: nat)

  /** One operation by a maco process that lives as long as `script` lets it. */
  datatype Event = Event(operation: Operation, script: seq<Reply>)

  /** The environment keeps to what is assumed of it: a save that fails left the old manifest. */
  ghost predicate Assumed(e: Event) {
    e.operation.Manage? ==> !e.operation.saving.FailsLate?
  }

  method Perform(e: Event, engine: Engine, ghost done: seq<Event>) returns (ghost now: seq<Event>)
    requires engine.Valid() && Assumed(e)
    modifies engine`nets, engine.host
    ensures engine.Valid() && now == done + [e]
    ensures engine.host.Smooth() ==>
      match e.operation
      case Manage(action, id, network, mac, saving) =>
        saving.Saves? && old(engine.Possible(action, id, network, mac)) ==>
        IsResult(engine.nets, engine.macs, old(engine.host.manifest), action, id, network, mac, engine.host.manifest)
      case StartVM => old(engine.Startable(engine.host.manifest)) ==> engine.host.running
      case StopVM(_) => !engine.host.running
      case _ => true
  {
    now := done + [e];
    engine.host.Revive(e.script);
    match e.operation {
      case Manage(action, id, network, mac, saving) =>
        var outcome := engine.ManageInterface(action, id, network, mac, saving);
      case StartVM => var ok := engine.Start();
      case StopVM(graceful) => var ok := engine.Stop(graceful);
      case NewNetwork(key, name, added) => var ok := engine.AddNetwork(key, name, added);
      case NetworkChange(key, name, changed) => var ok := engine.ChangeNetwork(key, name, changed);
      case QemuExits => engine.host.Elsewhere(true, 0);
      case GuestUnplugs(id) => engine.host.Elsewhere(false, id);
    }
  }

  /** From a stopped VM on, over every history of edits, starts, stops, network changes, QEMU exits and late unplugs,
      each cut short anywhere by a crash: a running VM without a journal has the interfaces its manifest says. */
  method Run(history: seq<Event>, manifest: seq<Nic>, macs: seq<nat>, nets: Networks) returns (engine: Engine, ghost done: seq<Event>)
    requires Consistent(nets)
    requires forall i :: 0 <= i < |history| ==> Assumed(history[i])
    ensures engine.Synced() && done == history
  {
    var host := new Host(manifest);
    engine := new Engine(host, macs, nets);
    done := [];
    for i := 0 to |history|
      invariant engine.Valid() && fresh(engine) && fresh(engine.host) && done == history[..i]
    {
      done := Perform(history[i], engine, done);
    }
  }

  /** Whatever an uncertain change left behind, stopping and starting the VM on a host that works ends with the
      interfaces of the manifest and no journal. */
  method Recover(engine: Engine) returns (ok: bool)
    requires engine.Valid() && engine.Startable(engine.host.manifest)
    modifies engine.host
    ensures ok && engine.host.running && engine.host.journal == None && engine.Synced()
    ensures engine.host.manifest == old(engine.host.manifest)
  {
    engine.host.Revive([]);
    var stopped := engine.Stop(false);
    engine.host.Revive([]);
    ok := engine.Start();
  }

  /** Why a failed save must leave the old manifest: a VM with one user-mode interface, a second one added, every
      command working, and only the directory sync after the rename of the manifest failing. */
  method LateSaveLosesSync() returns (engine: Engine)
    ensures engine.host.running && engine.host.journal == None && !engine.Synced()
  {
    var nic0, nic1 := Nic(0, "user", Address(0x02)), Nic(1, "user", Address(0x04));
    var one, two := [nic0], [nic0, nic1];
    assert Find(one, 1) == None && Find(two, 1) == Some(1);
    var host := new Host(one);
    engine := new Engine(host, [], map[]);
    assert engine.Startable(one) by {
      assert Normal(map[], [], nic0) == Some(nic0);
      assert IsNormalized(map[], [], one, one);
      assert HasBackend(SpecOf(map[], [], one[0]));
    }
    var started := engine.Start();
    assert host.slots[1] == SlotAt(map[], [], one, 1) == EMPTY;
    host.Revive([]);
    var after := Some(SpecOf(map[], [], nic1));
    assert SlotAt(map[], [], two, 1) == SlotOf(after) != EMPTY;
    var outcome := engine.driver.ChangeInterface(None, after, two, FailsLate);
    assert host.slots[1] == EMPTY;
  }
}
