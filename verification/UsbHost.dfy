/** What the USB claim registry is about: QEMU processes, the pid file of each VM's run directory, the USB ports QEMU
    has captured, and the claims file that every engine of the same user shares.

    As commands are issued, a script decides how each ends and what happens meanwhile: QEMU processes die, other
    engines start theirs, devices go away, and maco itself may crash between any two steps. */
module UsbHost {
  datatype Option<T> = None | Some(value: T)

  /** A USB device as far as the registry tells devices apart: by bus and port, and by identity. */
  datatype Device = Device(bus: nat, port: string, vendor: nat, product: nat, serial: string)

  predicate SamePort(a: Device, b: Device) {
    a.bus == b.bus && a.port == b.port
  }

  /** One USB host device in one run of QEMU. The generation of a run is its pid and the time of its pid file. */
  datatype Capture = Capture(generation: nat, id: nat, bus: nat, port: string)

  datatype State = Attaching | Attached | Missing | Unverified

  datatype Claim = Claim(id: nat, vm: nat, runDir: nat, generation: nat, device: Device, state: State)

  function CaptureOf(c: Claim): (capture: Capture) {
    Capture(c.generation, c.id, c.device.bus, c.device.port)
  }

  function Owned(claims: seq<Claim>): (captures: set<Capture>) {
    set i | 0 <= i < |claims| :: CaptureOf(claims[i])
  }

  predicate DistinctPorts(claims: seq<Claim>) {
    forall i, j :: 0 <= i < j < |claims| ==> !SamePort(claims[i].device, claims[j].device)
  }

  /** The registry's promise. If every captured port has a claim and no two claims share a port, no port is captured
      twice: not by two runs of QEMU, and not twice by one. */
  lemma Exclusive(captured: set<Capture>, claims: seq<Claim>, a: Capture, b: Capture)
    requires captured <= Owned(claims) && DistinctPorts(claims)
    requires a in captured && b in captured && a.bus == b.bus && a.port == b.port
    ensures a == b
  {
    var i :| 0 <= i < |claims| && CaptureOf(claims[i]) == a;
    var j :| 0 <= j < |claims| && CaptureOf(claims[j]) == b;
    if i < j {
      assert SamePort(claims[i].device, claims[j].device);
    } else if j < i {
      assert SamePort(claims[j].device, claims[i].device);
    }
  }

  datatype Instance = Instance(runDir: nat, alive: bool)

  /** How a command ends, or what happens before it. */
  datatype Reply =
    | Done
    | Fails
    | Lost(applied: bool)
    | Crash(applied: bool)
    | Dies(generation: nat)
    | Starts(runDir: nat)
    | Clears(runDir: nat)
    | Vanishes(capture: Capture)

  predicate IsEvent(r: Reply) {
    r.Dies? || r.Starts? || r.Clears? || r.Vanishes?
  }

  /** The replies to come begin like this. */
  predicate Begins(replies: seq<Reply>, script: seq<Reply>) {
    replies <= script
  }

  class Host {
    var instances: map<nat, Instance>
    var pidFiles: map<nat, nat>
    var captured: set<Capture>
    /** claims.json. */
    var claims: seq<Claim>
    /** The run directory whose lifecycle lock the current operation holds: no other engine starts that VM. */
    var locked: Option<nat>
    var nextGeneration: nat
    var nextId: nat
    /** How many commands did not simply succeed, devices went away, waits were given up, and QEMUs died. */
    var faults: nat
    /** How many commands had an unknown effect, because their reply was lost or maco crashed. */
    ghost var lost: nat
    /** How many waits were given up. */
    ghost var waits: nat
    /** How often a QEMU that runs was taken for stopped, because its pid file or its process could not be looked at. */
    var misreads: nat
    var alive: bool
    var script: seq<Reply>

    constructor ()
      ensures Valid() && Safe() && alive && claims == [] && captured == {} && misreads == 0
    {
      instances, pidFiles, captured, claims := map[], map[], {}, [];
      locked, nextGeneration, nextId, faults, misreads, lost, waits := None, 0, 0, 0, 0, 0, 0;
      alive, script := true, [];
    }

    ghost predicate Valid()
      reads this
    {
      && (forall g :: g in instances ==> g < nextGeneration)
      // A pid file is replaced or removed only after its process has died.
      && (forall g :: g in instances && instances[g].alive ==> instances[g].runDir in pidFiles && pidFiles[instances[g].runDir] == g)
      && (forall d :: d in pidFiles ==> pidFiles[d] in instances && instances[pidFiles[d]].runDir == d)
      && (forall c :: c in captured ==> c.generation in instances && instances[c.generation].alive && c.id < nextId)
    }

    /** Claims that can be relied on: they cover every capture, share no port, and name the run they were made for. */
    ghost predicate Reliable(cs: seq<Claim>)
      reads this`instances, this`captured, this`nextId
    {
      && captured <= Owned(cs)
      && DistinctPorts(cs)
      && forall i :: 0 <= i < |cs| ==>
        && cs[i].id < nextId
        && cs[i].generation in instances && instances[cs[i].generation].runDir == cs[i].runDir
    }

    ghost predicate Safe()
      reads this`instances, this`captured, this`nextId, this`claims
    {
      Reliable(claims)
    }

    /** What time can do to the host while a command is under way. */
    twostate predicate Passes()
      reads this
    {
      Goes() && (faults == old(faults) ==> captured == old(captured))
    }

    twostate predicate Goes()
      reads this
    {
      Drifts() && misreads == old(misreads)
    }

    twostate predicate Drifts()
      reads this
    {
      && Valid()
      && captured <= old(captured)
      && (forall g :: g in old(instances) ==>
        && g in instances
        && instances[g].runDir == old(instances)[g].runDir
        && (instances[g].alive ==> old(instances)[g].alive))
      && (old(locked).Some? ==>
        (old(locked).value in pidFiles <==> old(locked).value in old(pidFiles))
        && (old(locked).value in pidFiles ==> pidFiles[old(locked).value] == old(pidFiles)[old(locked).value]))
      && locked == old(locked)
      && nextId == old(nextId)
      && (alive ==> old(alive))
      && old(faults) <= faults && old(misreads) <= misreads && old(lost) <= lost
      && (faults == old(faults) ==> forall g :: g in old(instances) ==> instances[g] == old(instances)[g])
    }

    /** Claims that can be relied on remain so. */
    twostate lemma StaysReliable(cs: seq<Claim>)
      requires old(Reliable(cs)) && Drifts()
      ensures Reliable(cs)
    {
    }

    /** If the next thing to happen is a reply, nothing else happens. */
    twostate predicate Takes()
      reads this
    {
      old(alive) && old(script) != [] && !IsEvent(old(script)[0]) ==>
        script == old(script)[1..] && instances == old(instances) && pidFiles == old(pidFiles) && captured == old(captured)
    }

    /** The device of a claim is in the QEMU it was made for. */
    ghost predicate Held(c: Claim)
      reads this`captured
    {
      exists x :: x in captured && x.generation == c.generation && x.id == c.id
    }

    /** A QEMU that runs has a device with an id. */
    ghost predicate Present(runDir: nat, id: nat)
      reads this`pidFiles, this`captured
    {
      runDir in pidFiles && exists c :: c in captured && c.generation == pidFiles[runDir] && c.id == id
    }

    predicate Runs(runDir: nat)
      reads this`pidFiles, this`instances
    {
      runDir in pidFiles && pidFiles[runDir] in instances && instances[pidFiles[runDir]].alive
    }

    /** Whether the run a claim was made for is dead, or has no such device. Once true this stays true. */
    ghost predicate Released(c: Claim)
      reads this`captured
    {
      CaptureOf(c) !in captured
    }

    method Happens(event: Reply)
      requires Valid()
      modifies this`instances, this`pidFiles, this`captured, this`nextGeneration, this`faults
      ensures Passes()
    {
      match event {
        case Dies(g) => Kill(g);
        case Starts(d) =>
          if locked != Some(d) && (d !in pidFiles || !instances[pidFiles[d]].alive) {
            instances := instances[nextGeneration := Instance(d, true)];
            pidFiles := pidFiles[d := nextGeneration];
            nextGeneration := nextGeneration + 1;
          }
        case Clears(d) =>
          // A stop of the VM removes the pid file, once its process has died.
          if locked != Some(d) && d in pidFiles && !instances[pidFiles[d]].alive {
            pidFiles := pidFiles - {d};
          }
        case Vanishes(c) =>
          captured := captured - {c};
          faults := faults + 1;
        case _ =>
      }
    }

    method Kill(g: nat)
      requires Valid()
      modifies this`instances, this`captured, this`faults
      ensures Passes()
    {
      if g in instances {
        instances := instances[g := instances[g].(alive := false)];
        captured := set c | c in captured && c.generation != g;
        faults := faults + 1;
      }
    }

    /** What happens before the next reply. */
    method Meanwhile()
      requires Valid()
      modifies this
      ensures Passes() && claims == old(claims) && alive == old(alive) && lost == old(lost) && waits == old(waits)
      ensures !alive || script == [] || !IsEvent(script[0])
      ensures old(script) == [] || !IsEvent(old(script)[0]) ==>
        script == old(script) && instances == old(instances) && pidFiles == old(pidFiles) && captured == old(captured)
    {
      while alive && script != [] && IsEvent(script[0])
        invariant old(script) == [] || !IsEvent(old(script)[0]) ==>
          script == old(script) && instances == old(instances) && pidFiles == old(pidFiles) && captured == old(captured)
        invariant Passes() && claims == old(claims) && alive == old(alive) && lost == old(lost) && waits == old(waits)
        decreases |script|
      {
        var event := script[0];
        script := script[1..];
        Happens(event);
      }
    }

    method Answer() returns (r: Reply)
      requires Valid()
      modifies this
      ensures Passes() && claims == old(claims)
      ensures r.Done? || r.Fails? || r.Lost?
      ensures !r.Done? ==> faults > old(faults)
      ensures r.Lost? <==> lost > old(lost)
      ensures waits == old(waits)
      ensures !r.Done? && faults == old(faults) + 1 ==> captured == old(captured)
      ensures !alive ==> r.Lost?
      ensures !old(alive) ==> r == Lost(false)
      ensures Takes() && (old(alive) && old(script) != [] && !IsEvent(old(script)[0]) && !old(script)[0].Crash? ==>
        r == old(script)[0] && alive)
    {
      Meanwhile();
      if !alive {
        faults, lost := faults + 1, lost + 1;
        return Lost(false);
      }
      if script == [] {
        return Done;
      }
      r := script[0];
      script := script[1..];
      if !r.Done? {
        faults := faults + 1;
      }
      if r.Crash? {
        alive := false;
        r := Lost(r.applied);
      }
      if r.Lost? {
        lost := lost + 1;
      }
    }

    /** A wait is given up. */
    method GiveUp()
      requires Valid()
      modifies this`faults, this`waits
      ensures Passes() && faults == old(faults) + 1 && waits == old(waits) + 1
    {
      faults, waits := faults + 1, waits + 1;
    }

    method Lock(runDir: nat)
      requires Valid()
      modifies this`locked
      ensures Valid() && locked == Some(runDir)
    {
      locked := Some(runDir);
    }

    method Revive(script: seq<Reply>)
      requires Valid()
      modifies this`locked, this`alive, this`script
      ensures Valid() && alive && locked == None
    {
      this.script, alive, locked := script, true, None;
    }

    method FreshId() returns (id: nat)
      requires Valid()
      modifies this`nextId
      ensures Valid() && id == old(nextId) < nextId
      ensures forall c :: c in captured ==> c.id != id
    {
      id := nextId;
      nextId := nextId + 1;
    }

    // ---- What maco can find out ----

    /** Driver.Status: whether the QEMU named by the pid file is alive. If that file cannot be read, or the process cannot be
        looked at, it says no. */
    method Status(runDir: nat) returns (running: bool)
      requires Valid()
      modifies this
      ensures Drifts() && claims == old(claims) && (faults == old(faults) ==> captured == old(captured))
      ensures captured <= old(captured)
      ensures running ==> Runs(runDir) && misreads == old(misreads)
      ensures !running ==> !Runs(runDir) || (misreads == old(misreads) + 1 && faults > old(faults))
      ensures !alive ==> faults > old(faults)
      ensures Takes() && (old(alive) && Begins([Fails], old(script)) && old(Runs(runDir)) ==> !running && alive)
    {
      var r := Answer();
      running := runDir in pidFiles && instances[pidFiles[runDir]].alive;
      if running && r.Fails? {
        running, misreads := false, misreads + 1;
      }
    }

    /** usbGeneration: the generation in a run directory; nothing if there is no pid file, an error if it cannot be read. */
    method Generation(runDir: nat) returns (ok: bool, generation: Option<nat>)
      requires Valid()
      modifies this
      ensures Passes() && claims == old(claims)
      ensures ok ==> alive && generation == if runDir in pidFiles then Some(pidFiles[runDir]) else None
      ensures !ok ==> faults > old(faults)
      ensures Takes() && (old(alive) && Begins([Done], old(script)) ==> ok)
    {
      var r := Answer();
      ok := r.Done?;
      generation := if runDir in pidFiles then Some(pidFiles[runDir]) else None;
    }

    /** kill(pid, 0) with no such process. The pid may meanwhile belong to another process, so this may miss a death. */
    method Gone(generation: nat) returns (gone: bool)
      requires Valid()
      modifies this
      ensures Passes() && claims == old(claims)
      ensures gone ==> alive && generation in instances && !instances[generation].alive
      ensures !gone ==> faults > old(faults) || generation !in instances || instances[generation].alive
    {
      var r := Answer();
      gone := r.Done? && generation in instances && !instances[generation].alive;
    }

    /** ObserveUSB, on whatever QEMU serves the monitor socket of the run directory. */
    method Observe(runDir: nat, id: nat) returns (ok: bool, exists_: bool, attached: bool)
      requires Valid()
      modifies this
      ensures Passes() && claims == old(claims)
      ensures ok ==> alive && runDir in pidFiles
      ensures ok && !exists_ ==> forall c :: c in captured && c.generation == pidFiles[runDir] ==> c.id != id
      ensures attached ==> exists_
      ensures exists_ ==> Present(runDir, id)
      ensures !ok || (exists_ && !attached) ==> faults > old(faults) || !Runs(runDir)
      ensures !ok ==> lost > old(lost) || !Runs(runDir)
      ensures waits == old(waits)
    {
      var r := Answer();
      ok := (r.Done? || r.Fails?) && runDir in pidFiles && instances[pidFiles[runDir]].alive;
      exists_ := exists c :: c in captured && runDir in pidFiles && c.generation == pidFiles[runDir] && c.id == id;
      attached := exists_ && r.Done?;
    }

    // ---- What maco can do ----

    /** device_add of a usb-host device on a bus and port. */
    method DeviceAdd(runDir: nat, id: nat, device: Device) returns (ok: bool)
      requires Valid()
      requires id < nextId && forall c :: c in captured ==> c.id != id
      modifies this
      ensures Valid() && claims == old(claims) && locked == old(locked) && nextId == old(nextId)
      ensures alive ==> old(alive)
      ensures !old(alive) ==> captured <= old(captured)
      ensures forall g :: g in old(instances) ==>
        && g in instances && instances[g].runDir == old(instances)[g].runDir
        && (instances[g].alive ==> old(instances)[g].alive)
      ensures old(lost) <= lost && (!ok && lost == old(lost) ==> captured <= old(captured))
      ensures waits == old(waits)
      ensures old(locked) == Some(runDir) ==>
        && (runDir in pidFiles <==> runDir in old(pidFiles))
        && (runDir in pidFiles ==> pidFiles[runDir] == old(pidFiles)[runDir])
      ensures old(faults) <= faults && (!ok ==> faults > old(faults) || !Runs(runDir))
      ensures faults == old(faults) ==> (forall g :: g in old(instances) ==> g in instances && instances[g] == old(instances)[g])
      ensures ok && faults == old(faults) ==> runDir in pidFiles && Capture(pidFiles[runDir], id, device.bus, device.port) in captured
      ensures captured <= old(captured) + (if runDir in pidFiles then {Capture(pidFiles[runDir], id, device.bus, device.port)} else {})
      ensures misreads == old(misreads)
    {
      var r := Answer();
      var reachable := runDir in pidFiles && instances[pidFiles[runDir]].alive;
      ok := r.Done? && reachable;
      if reachable && (r.Done? || r == Lost(true)) {
        captured := captured + {Capture(pidFiles[runDir], id, device.bus, device.port)};
      }
    }

    /** device_del: the device goes when the guest lets it, or not at all. */
    method DeviceDel(runDir: nat, id: nat) returns (ok: bool)
      requires Valid()
      modifies this
      ensures Goes() && claims == old(claims)
      ensures !ok ==> lost > old(lost) && faults > old(faults)
      ensures waits == old(waits)
      ensures faults == old(faults) ==> !Present(runDir, id)
    {
      var r := Answer();
      ok := r.Done? || r.Fails?;
      if runDir in pidFiles && (r.Done? || r == Lost(true)) {
        var g := pidFiles[runDir];
        captured := set c | c in captured && !(c.generation == g && c.id == id);
      }
    }

    /** Write claims.json. It is renamed into place whole, but an error can be reported after the rename. */
    method SaveClaims(cs: seq<Claim>) returns (ok: bool)
      requires Valid()
      modifies this
      ensures Passes()
      ensures ok ==> alive && claims == cs
      ensures claims == old(claims) || claims == cs
      ensures !ok && lost == old(lost) ==> claims == old(claims)
      ensures !ok && faults == old(faults) + 1 ==> captured == old(captured)
      ensures !old(alive) ==> claims == old(claims)
      ensures !ok ==> faults > old(faults)
      ensures Takes() && (old(alive) && Begins([Done], old(script)) ==> ok)
    {
      var r := Answer();
      ok := r.Done?;
      if ok || r == Lost(true) {
        claims := cs;
      }
    }
  }
}
