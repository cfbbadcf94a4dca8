/** The order in which a VM's devices boot: EffectiveBootOrder in pkg/types/vm.go, bootOrder in web/src/bootOrder.ts, and
    bootIndex in pkg/vm/qemu.go. */
module BootOrder {
  datatype Option<T> = None | Some(value: T)

  predicate NoDuplicates(s: seq<string>) {
    forall i, j :: 0 <= i < j < |s| ==> s[i] != s[j]
  }

  /** The place of the first occurrence; the length if there is none. */
  function IndexOf(s: seq<string>, x: string): (k: nat)
    ensures k <= |s|
    ensures k < |s| ==> s[k] == x
    ensures k < |s| <==> x in s
    ensures forall j :: 0 <= j < k ==> s[j] != x
  {
    if s == [] then 0 else if s[0] == x then 0 else 1 + IndexOf(s[1..], x)
  }

  function Filter(s: seq<string>, keep: set<string>): (r: seq<string>)
    ensures forall x :: x in r <==> x in s && x in keep
  {
    if s == [] then [] else
      var rest := Filter(s[1..], keep);
      if s[0] in keep then [s[0]] + rest else rest
  }

  /** The elements of a list in the order in which they first occur, as JavaScript's Set lists them. */
  function Unique(s: seq<string>): (r: seq<string>)
    ensures forall x :: x in r <==> x in s
    ensures NoDuplicates(r)
  {
    if s == [] then [] else
      var before := Unique(s[..|s| - 1]);
      if s[|s| - 1] in before then before else before + [s[|s| - 1]]
  }

  function Tagged(tag: string, ids: seq<string>): (r: seq<string>)
    ensures |r| == |ids| && forall i :: 0 <= i < |ids| ==> r[i] == tag + ids[i]
  {
    seq(|ids|, i requires 0 <= i < |ids| => tag + ids[i])
  }

  const DISK := "disk"

  function Devices(disks: seq<string>, isos: seq<string>): (names: seq<string>) {
    [DISK] + Tagged("disk:", disks) + Tagged("iso:", isos)
  }

  function Preferred(order: seq<string>, isos: seq<string>): (names: seq<string>) {
    if order != [] then order else Tagged("iso:", isos) + [DISK]
  }

  function Elements(s: seq<string>): (names: set<string>) {
    set x | x in s
  }

  /** bootOrder in the web UI: one expression of a set and a filter. */
  function WebOrder(order: seq<string>, disks: seq<string>, isos: seq<string>): (names: seq<string>) {
    var devices := Devices(disks, isos);
    Filter(Unique(Preferred(order, isos) + devices), Elements(devices))
  }

  /** EffectiveBootOrder: one pass with maps of what is valid and what was seen. It gives what the web UI shows. */
  method EffectiveBootOrder(order: seq<string>, disks: seq<string>, isos: seq<string>) returns (result: seq<string>)
    ensures result == WebOrder(order, disks, isos)
  {
    hide Unique, Filter;
    var devices := ListDevices(disks, isos);
    var preferred := order;
    if |order| == 0 {
      preferred := UsualOrder(isos);
    }
    var valid := {};
    for i := 0 to |devices|
      invariant forall x :: x in valid <==> x in devices[..i]
    {
      valid := valid + {devices[i]};
    }
    assert devices[..|devices|] == devices;
    assert valid == Elements(devices);
    result := Pick(preferred + devices, valid);
  }

  method ListDevices(disks: seq<string>, isos: seq<string>) returns (devices: seq<string>)
    ensures devices == Devices(disks, isos)
  {
    devices := [DISK];
    for i := 0 to |disks|
      invariant devices == [DISK] + Tagged("disk:", disks)[..i]
    {
      devices := devices + ["disk:" + disks[i]];
    }
    for i := 0 to |isos|
      invariant devices == [DISK] + Tagged("disk:", disks) + Tagged("iso:", isos)[..i]
    {
      devices := devices + ["iso:" + isos[i]];
    }
  }

  method UsualOrder(isos: seq<string>) returns (preferred: seq<string>)
    ensures preferred == Preferred([], isos)
  {
    preferred := [];
    for i := 0 to |isos|
      invariant preferred == Tagged("iso:", isos)[..i]
    {
      preferred := preferred + ["iso:" + isos[i]];
    }
    preferred := preferred + [DISK];
  }

  /** The last loop of EffectiveBootOrder. */
  method Pick(all: seq<string>, valid: set<string>) returns (result: seq<string>)
    ensures result == Filter(Unique(all), valid)
  {
    var seen := {};
    result := [];
    for i := 0 to |all|
      invariant result == Filter(Unique(all[..i]), valid)
      invariant forall x :: x in seen <==> x in result
    {
      var id := all[i];
      assert all[..i + 1][..i] == all[..i];
      if id !in Unique(all[..i]) {
        FilterAppend(Unique(all[..i]), [id], valid);
      }
      if id in valid && id !in seen {
        result := result + [id];
        seen := seen + {id};
      }
    }
    assert all[..|all|] == all;
  }

  lemma {:induction false} FilterAppend(a: seq<string>, b: seq<string>, keep: set<string>)
    ensures Filter(a + b, keep) == Filter(a, keep) + Filter(b, keep)
  {
    if a == [] {
      assert a + b == b;
    } else {
      assert (a + b)[1..] == a[1..] + b;
      FilterAppend(a[1..], b, keep);
    }
  }

  // ---- What the order is ----

  /** Filtering keeps the order. */
  lemma {:induction false} FilterKeepsOrder(s: seq<string>, keep: set<string>, x: string, y: string)
    requires x in keep && y in keep
    ensures IndexOf(Filter(s, keep), x) < IndexOf(Filter(s, keep), y) <==> IndexOf(s, x) < IndexOf(s, y)
  {
    if s != [] {
      FilterKeepsOrder(s[1..], keep, x, y);
      var rest := Filter(s[1..], keep);
      if s[0] in keep {
        assert ([s[0]] + rest)[1..] == rest;
      }
    }
  }

  lemma {:induction false} FilterNoDuplicates(s: seq<string>, keep: set<string>)
    requires NoDuplicates(s)
    ensures NoDuplicates(Filter(s, keep))
  {
    if s != [] {
      FilterNoDuplicates(s[1..], keep);
    }
  }

  lemma {:induction false} IndexAppend(a: seq<string>, b: seq<string>, x: string)
    ensures IndexOf(a + b, x) == if x in a then IndexOf(a, x) else |a| + IndexOf(b, x)
  {
    if a == [] {
      assert a + b == b;
    } else {
      assert (a + b)[1..] == a[1..] + b;
      IndexAppend(a[1..], b, x);
    }
  }

  lemma {:induction false} UniqueKeepsOrder(s: seq<string>, x: string, y: string)
    requires x in s || y in s
    ensures IndexOf(Unique(s), x) < IndexOf(Unique(s), y) <==> IndexOf(s, x) < IndexOf(s, y)
  {
    var before, last := s[..|s| - 1], s[|s| - 1];
    assert s == before + [last];
    IndexAppend(before, [last], x);
    IndexAppend(before, [last], y);
    IndexAppend(Unique(before), [last], x);
    IndexAppend(Unique(before), [last], y);
    if x in before || y in before {
      UniqueKeepsOrder(before, x, y);
    }
  }

  /** The order lists each device once, and nothing else. */
  lemma EachDeviceOnce(order: seq<string>, disks: seq<string>, isos: seq<string>)
    ensures NoDuplicates(WebOrder(order, disks, isos))
    ensures Elements(WebOrder(order, disks, isos)) == Elements(Devices(disks, isos))
  {
    var devices := Devices(disks, isos);
    FilterNoDuplicates(Unique(Preferred(order, isos) + devices), Elements(devices));
  }

  /** Devices boot in the order in which they first occur among those preferred, and then as they are listed. */
  lemma KeepsPreference(order: seq<string>, disks: seq<string>, isos: seq<string>, x: string, y: string)
    requires x in Devices(disks, isos) && y in Devices(disks, isos)
    ensures var r, all := WebOrder(order, disks, isos), Preferred(order, isos) + Devices(disks, isos);
      IndexOf(r, x) < IndexOf(r, y) <==> IndexOf(all, x) < IndexOf(all, y)
  {
    var all := Preferred(order, isos) + Devices(disks, isos);
    UniqueKeepsOrder(all, x, y);
    FilterKeepsOrder(Unique(all), Elements(Devices(disks, isos)), x, y);
  }

  /** The boot disk, a data disk and an ISO image have different names. */
  lemma NamesDiffer(disks: seq<string>, isos: seq<string>, d: string, i: string)
    requires d in disks && i in isos
    ensures "disk:" + d in Tagged("disk:", disks) && "disk:" + d !in Tagged("iso:", isos) && "disk:" + d != DISK
    ensures "iso:" + i in Tagged("iso:", isos) && "iso:" + i !in Tagged("disk:", disks) && "iso:" + i != DISK
    ensures DISK !in Tagged("disk:", disks) && DISK !in Tagged("iso:", isos)
  {
    var k :| 0 <= k < |disks| && disks[k] == d;
    assert Tagged("disk:", disks)[k] == "disk:" + d;
    var j :| 0 <= j < |isos| && isos[j] == i;
    assert Tagged("iso:", isos)[j] == "iso:" + i;
    assert forall x: string :: ("disk:" + x)[0] == 'd' && |"disk:" + x| == 5 + |x|;
    assert forall x: string :: ("iso:" + x)[0] == 'i';
    assert DISK[0] == 'd' && |DISK| == 4;
  }

  /** The places of the boot disk, a data disk and an ISO image among the devices. */
  lemma DevicesInOrder(disks: seq<string>, isos: seq<string>, d: string, i: string)
    requires d in disks && i in isos
    ensures
      var devices := Devices(disks, isos);
      && DISK in devices && "disk:" + d in devices && "iso:" + i in devices
      && IndexOf(devices, DISK) < IndexOf(devices, "disk:" + d) < IndexOf(devices, "iso:" + i) < |devices|
  {
    hide IndexOf;
    NamesDiffer(disks, isos, d, i);
    var front := [DISK] + Tagged("disk:", disks);
    assert Devices(disks, isos) == front + Tagged("iso:", isos);
    forall x
      ensures IndexOf(Devices(disks, isos), x) == if x in front then IndexOf(front, x) else |front| + IndexOf(Tagged("iso:", isos), x)
      ensures IndexOf(front, x) == if x in [DISK] then IndexOf([DISK], x) else 1 + IndexOf(Tagged("disk:", disks), x)
    {
      IndexAppend(front, Tagged("iso:", isos), x);
      IndexAppend([DISK], Tagged("disk:", disks), x);
    }
  }

  /** With no order chosen, the ISO images boot first, then the boot disk, then the data disks. */
  lemma UsualBoot(disks: seq<string>, isos: seq<string>, d: string, i: string)
    requires d in disks && i in isos
    ensures
      var r := WebOrder([], disks, isos);
      IndexOf(r, "iso:" + i) < IndexOf(r, DISK) < IndexOf(r, "disk:" + d) < |r|
  {
    hide IndexOf, WebOrder;
    NamesDiffer(disks, isos, d, i);
    DevicesInOrder(disks, isos, d, i);
    var preferred, devices := Preferred([], isos), Devices(disks, isos);
    KeepsPreference([], disks, isos, "iso:" + i, DISK);
    KeepsPreference([], disks, isos, DISK, "disk:" + d);
    IndexAppend(preferred, devices, "iso:" + i);
    IndexAppend(preferred, devices, DISK);
    IndexAppend(preferred, devices, "disk:" + d);
    IndexAppend(Tagged("iso:", isos), [DISK], "iso:" + i);
    IndexAppend(Tagged("iso:", isos), [DISK], DISK);
    assert "disk:" + d !in preferred;
    InOrderOnce([], disks, isos, "disk:" + d);
  }

  /** Devices that the chosen order does not name boot after those it names: first the boot disk, then the data disks, then
      the ISO images. */
  lemma UnnamedLast(order: seq<string>, disks: seq<string>, isos: seq<string>, d: string, i: string)
    requires order != [] && d in disks && i in isos && "iso:" + i !in order
    ensures
      var r := WebOrder(order, disks, isos);
      && (forall x :: x in order && x in Devices(disks, isos) ==> IndexOf(r, x) < IndexOf(r, "iso:" + i))
      && IndexOf(r, "disk:" + d) < IndexOf(r, "iso:" + i) && IndexOf(r, DISK) < IndexOf(r, "iso:" + i)
      && ("disk:" + d !in order ==> IndexOf(r, DISK) < IndexOf(r, "disk:" + d))
  {
    hide IndexOf, WebOrder;
    DevicesInOrder(disks, isos, d, i);
    var devices := Devices(disks, isos);
    forall x | x in devices
      ensures IndexOf(order + devices, x) == if x in order then IndexOf(order, x) else |order| + IndexOf(devices, x)
      ensures x in order ==> IndexOf(order, x) < |order|
    {
      IndexAppend(order, devices, x);
      InOrder(order, x);
    }
    forall x, y | x in devices && y in devices
      ensures IndexOf(WebOrder(order, disks, isos), x) < IndexOf(WebOrder(order, disks, isos), y)
        <==> IndexOf(order + devices, x) < IndexOf(order + devices, y)
    {
      KeepsPreference(order, disks, isos, x, y);
    }
  }

  lemma InOrder(s: seq<string>, x: string)
    ensures IndexOf(s, x) < |s| <==> x in s
  {
  }

  lemma InOrderOnce(order: seq<string>, disks: seq<string>, isos: seq<string>, x: string)
    requires x in Devices(disks, isos)
    ensures IndexOf(WebOrder(order, disks, isos), x) < |WebOrder(order, disks, isos)|
  {
    assert x in Elements(WebOrder(order, disks, isos)) by {
      EachDeviceOnce(order, disks, isos);
    }
  }

  // ---- Boot indices ----

  /** bootIndex: the place of a device in the order, counted from one; an empty order means the usual one. */
  method BootIndex(bootOrder: seq<string>, disks: seq<string>, isos: seq<string>, id: string) returns (index: Option<nat>)
    ensures bootOrder != [] ==> index == if id in bootOrder then Some(IndexOf(bootOrder, id) + 1) else None
    ensures bootOrder == [] ==> var order := Tagged("iso:", isos) + [DISK] + Tagged("disk:", disks);
      index == if id in order then Some(IndexOf(order, id) + 1) else None
  {
    var order := bootOrder;
    if |order| == 0 {
      order := Tagged("iso:", isos) + [DISK] + Tagged("disk:", disks);
    }
    for i := 0 to |order|
      invariant id !in order[..i]
    {
      if order[i] == id {
        FirstAt(order, id, i);
        return Some(i + 1);
      }
    }
    assert order[..|order|] == order;
    index := None;
  }

  lemma FirstAt(s: seq<string>, x: string, i: nat)
    requires i < |s| && s[i] == x && x !in s[..i]
    ensures IndexOf(s, x) == i
  {
    forall j | 0 <= j < i
      ensures s[j] != x
    {
      assert s[j] == s[..i][j];
    }
  }

  /** With the effective order, different devices get different indices, and the indices are those from one up to the
      number of devices. */
  lemma BootIndicesAreDistinct(order: seq<string>, disks: seq<string>, isos: seq<string>)
    ensures var r := WebOrder(order, disks, isos);
      && (forall x, y :: x in r && y in r && x != y ==> IndexOf(r, x) != IndexOf(r, y))
      && (forall k :: 0 <= k < |r| ==> IndexOf(r, r[k]) == k)
  {
    var r := WebOrder(order, disks, isos);
    EachDeviceOnce(order, disks, isos);
    forall k | 0 <= k < |r|
      ensures IndexOf(r, r[k]) == k
    {
      FirstAt(r, r[k], k);
    }
  }

  // ---- Removing a data disk ----

  function Without(s: seq<string>, x: string): (r: seq<string>)
    ensures forall y :: y in r <==> y in s && y != x
  {
    if s == [] then [] else
      var rest := Without(s[1..], x);
      if s[0] == x then rest else [s[0]] + rest
  }

  lemma {:induction false} WithoutAppend(a: seq<string>, b: seq<string>, x: string)
    ensures Without(a + b, x) == Without(a, x) + Without(b, x)
  {
    if a == [] {
      assert a + b == b;
    } else {
      assert (a + b)[1..] == a[1..] + b;
      WithoutAppend(a[1..], b, x);
    }
  }

  lemma {:induction false} WithoutAbsent(s: seq<string>, x: string)
    requires x !in s
    ensures Without(s, x) == s
  {
    if s != [] {
      WithoutAbsent(s[1..], x);
    }
  }

  /** The loop of ManageDisk that drops a device from the boot order, reusing its array. */
  method DropInPlace(order: array<string>, device: string) returns (n: nat)
    modifies order
    ensures n <= order.Length && order[..n] == Without(old(order[..]), device)
  {
    n := 0;
    for i := 0 to order.Length
      invariant n <= i && order[..n] == Without(old(order[..i]), device)
      invariant order[i..] == old(order[i..])
    {
      ghost var was := old(order[..]);
      assert order[i] == order[i..][0] == was[i];
      assert was[..i + 1] == was[..i] + [was[i]] && old(order[..i]) == was[..i] && old(order[..i + 1]) == was[..i + 1];
      WithoutAppend(was[..i], [was[i]], device);
      if order[i] != device {
        order[n] := order[i];
        n := n + 1;
      }
      assert order[i + 1..] == old(order[i + 1..]);
    }
    assert old(order[..order.Length]) == old(order[..]);
  }

  lemma {:induction false} UniqueWithout(s: seq<string>, x: string)
    ensures Unique(Without(s, x)) == Without(Unique(s), x)
  {
    if s != [] {
      var before, last := s[..|s| - 1], s[|s| - 1];
      assert s == before + [last];
      UniqueWithout(before, x);
      WithoutAppend(before, [last], x);
      WithoutAppend(Unique(before), [last], x);
      if last == x {
        assert Without(before, x) + [] == Without(before, x);
      } else {
        assert (Without(before, x) + [last])[..|Without(before, x)|] == Without(before, x);
      }
    }
  }

  lemma {:induction false} FilterWithout(s: seq<string>, keep: set<string>, x: string)
    ensures Filter(Without(s, x), keep - {x}) == Without(Filter(s, keep), x)
  {
    if s != [] {
      FilterWithout(s[1..], keep, x);
      var f := Filter(s[1..], keep);
      assert s[0] in keep ==> ([s[0]] + f)[1..] == f;
      var w := Without(s[1..], x);
      assert s[0] != x ==> ([s[0]] + w)[1..] == w;
    }
  }

  lemma {:induction false} TaggedWithout(disks: seq<string>, id: string)
    ensures Tagged("disk:", Without(disks, id)) == Without(Tagged("disk:", disks), "disk:" + id)
  {
    if disks != [] {
      TaggedWithout(disks[1..], id);
      assert Tagged("disk:", disks)[1..] == Tagged("disk:", disks[1..]);
      assert ("disk:" + disks[0])[5..] == disks[0] && ("disk:" + id)[5..] == id;
    }
  }

  lemma DevicesWithout(disks: seq<string>, isos: seq<string>, id: string)
    ensures Devices(Without(disks, id), isos) == Without(Devices(disks, isos), "disk:" + id)
    ensures "disk:" + id !in Tagged("iso:", isos) + [DISK]
  {
    var x := "disk:" + id;
    assert x[0] == 'd' && x[4] == ':' && |DISK| == 4;
    assert forall i :: 0 <= i < |isos| ==> Tagged("iso:", isos)[i][0] == 'i';
    WithoutAppend([DISK] + Tagged("disk:", disks), Tagged("iso:", isos), x);
    WithoutAppend([DISK], Tagged("disk:", disks), x);
    TaggedWithout(disks, id);
    WithoutAbsent(Tagged("iso:", isos), x);
    WithoutAbsent([DISK], x);
  }

  /** Removing a data disk from the manifest and from its boot order removes it from the effective order and changes
      nothing else, except when there was an explicit order with nothing else in it: then the usual order applies
      instead, which is the same only if there are no ISO images. */
  lemma RemovalCommutes(order: seq<string>, disks: seq<string>, isos: seq<string>, id: string)
    ensures var device := "disk:" + id;
      && (order != [] && Without(order, device) == [] && isos != [] <==>
        WebOrder(Without(order, device), Without(disks, id), isos) != Without(WebOrder(order, disks, isos), device))
  {
    hide Unique, Filter, Without;
    var device := "disk:" + id;
    var fewer := Devices(Without(disks, id), isos);
    var all := Preferred(order, isos) + Devices(disks, isos);
    DevicesWithout(disks, isos, id);
    WithoutAppend(Preferred(order, isos), Devices(disks, isos), device);
    OrderWithout(order, disks, isos, id);
    if order == [] || Without(order, device) != [] {
      if order == [] {
        WithoutAbsent(Preferred(order, isos), device);
        WithoutAbsent([], device);
      }
      assert Without(all, device) == Preferred(Without(order, device), isos) + fewer;
    } else {
      assert Without(all, device) == [] + fewer == fewer;
      LastResort(fewer, Elements(fewer), isos);
    }
  }

  lemma OrderWithout(order: seq<string>, disks: seq<string>, isos: seq<string>, id: string)
    ensures var device, fewer := "disk:" + id, Devices(Without(disks, id), isos);
      Without(WebOrder(order, disks, isos), device) ==
        Filter(Unique(Without(Preferred(order, isos) + Devices(disks, isos), device)), Elements(fewer))
  {
    hide Unique, Filter, Without;
    var device, devices := "disk:" + id, Devices(disks, isos);
    DevicesWithout(disks, isos, id);
    assert Elements(Devices(Without(disks, id), isos)) == Elements(devices) - {device};
    UniqueWithout(Preferred(order, isos) + devices, device);
    FilterWithout(Unique(Preferred(order, isos) + devices), Elements(devices), device);
  }

  /** The usual order and the plain list of devices. */
  lemma LastResort(devices: seq<string>, keep: set<string>, isos: seq<string>)
    requires devices != [] && devices[0] == DISK && keep == Elements(devices)
    requires forall i :: 0 <= i < |isos| ==> Tagged("iso:", isos)[i] in devices
    ensures Filter(Unique(Tagged("iso:", isos) + [DISK] + devices), keep) == Filter(Unique(devices), keep) <==> isos == []
  {
    var all := Tagged("iso:", isos) + [DISK] + devices;
    if isos == [] {
      assert all == [DISK] + devices;
      UniqueTwice(devices, DISK);
    } else {
      var iso := "iso:" + isos[0];
      assert iso == all[0] && iso[0] == 'i' && DISK[0] == 'd';
      UniqueKeepsOrder(all, iso, DISK);
      FilterKeepsOrder(Unique(all), keep, iso, DISK);
      UniqueKeepsOrder(devices, iso, DISK);
      FilterKeepsOrder(Unique(devices), keep, iso, DISK);
      assert IndexOf(all, iso) == 0 && IndexOf(devices, DISK) == 0;
    }
  }

  lemma {:induction false} UniqueTwice(s: seq<string>, x: string)
    requires s != [] && s[0] == x
    ensures Unique([x] + s) == Unique(s)
  {
    var before, last := s[..|s| - 1], s[|s| - 1];
    assert ([x] + s)[..|s|] == [x] + before;
    if before != [] {
      UniqueTwice(before, x);
    } else {
      assert s == [x] && [x] + before == [x] && Unique([x]) == [x];
    }
  }
}
