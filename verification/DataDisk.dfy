/** Adding data disks to a VM and removing them: pkg/engine/disks.go and AttachDisk in pkg/vm/disks.go.

    A script decides how each command ends: done, rejected with no effect, failed with unknown effect, or QEMU dies
    first. */
module DataDisk {
  /** The file of a disk, under its own name or renamed out of the way. */
  datatype Path = Active(id: nat) | Removed(id: nat)

  datatype Reply = Done | Fails | Lost(applied: bool) | Dies

  datatype Attachment = Attached | Rejected | Uncertain

  class Host {
    var files: set<Path>
    /** The disks in the saved manifest. */
    var saved: seq<nat>
    /** The disks whose files a backend of QEMU has open. */
    var open: set<nat>
    /** The disks the guest has a device for. */
    var plugged: set<nat>
    var running: bool
    var nextId: nat
    /** How many saves reported an error after they had taken effect. */
    var lateSaves: nat
    /** How many commands did not simply succeed. */
    var faults: nat
    /** How many of them had an unknown effect. */
    ghost var lost: nat
    var script: seq<Reply>

    constructor (running: bool, script: seq<Reply>)
      ensures Valid() && Backed() && saved == [] && files == {} && lateSaves == 0
      ensures this.running == running && this.script == script
    {
      files, saved, open, plugged, nextId, lateSaves, faults, lost := {}, [], {}, {}, 0, 0, 0, 0;
      this.running, this.script := running, script;
    }

    ghost predicate Valid()
      reads this
    {
      && (!running ==> open == {}) && plugged <= open
      && (forall p :: p in files ==> p.id < nextId)
      && (forall i :: 0 <= i < |saved| ==> saved[i] < nextId)
      && (forall id :: id in open ==> id < nextId)
      && (forall i, j :: 0 <= i < j < |saved| ==> saved[i] != saved[j])
    }

    /** Every disk in the saved manifest has its file. */
    ghost predicate Backed()
      reads this
    {
      forall i :: 0 <= i < |saved| ==> Active(saved[i]) in files
    }

    /** The next command ends like this. */
    ghost predicate Says(r: Reply)
      reads this
    {
      script != [] && script[0] == r && !r.Dies?
    }

    /** What may happen before any command: QEMU dies. */
    twostate predicate Passes()
      reads this
    {
      && Valid() && nextId == old(nextId)
      && (old(script) != [] && !old(script)[0].Dies? ==> script == old(script)[1..])
      && open <= old(open) && plugged <= old(plugged)
      && 0 <= lost - old(lost) <= faults - old(faults)
      && (running ==> old(running) && open == old(open) && plugged == old(plugged))
    }

    /** One command failed at most, and without effect. */
    twostate predicate Calm()
      reads this
    {
      lost == old(lost) && faults <= old(faults) + 1
    }

    method Answer() returns (r: Reply)
      requires Valid()
      modifies this`open, this`plugged, this`running, this`faults, this`lost, this`script
      ensures Passes() && !r.Dies?
      ensures faults == old(faults) + (if r.Done? then 0 else 1) && (r.Lost? <==> lost > old(lost))
      ensures old(script) != [] && !old(script)[0].Dies? ==> r == old(script)[0]
    {
      while script != [] && script[0].Dies?
        invariant Valid() && nextId == old(nextId) && faults == old(faults) && lost == old(lost)
        invariant open <= old(open) && plugged <= old(plugged)
        invariant running ==> old(running) && open == old(open) && plugged == old(plugged)
        invariant old(script) != [] && !old(script)[0].Dies? ==> script == old(script)
        decreases |script|
      {
        script := script[1..];
        open, plugged, running := {}, {}, false;
      }
      if script == [] {
        return Done;
      }
      r := script[0];
      script := script[1..];
      if !r.Done? {
        faults := faults + 1;
      }
      if r.Lost? {
        lost := lost + 1;
      }
    }

    method FreshId() returns (id: nat)
      requires Valid()
      modifies this`nextId
      ensures Valid() && id == old(nextId) < nextId
    {
      id := nextId;
      nextId := nextId + 1;
    }

    method Status() returns (up: bool)
      requires Valid()
      modifies this`open, this`plugged, this`running, this`faults, this`lost, this`script
      ensures Passes() && up == running
    {
      var r := Answer();
      up := running;
    }

    /** image.CreateVMDisk, which may leave an unfinished file behind. */
    method Create(id: nat) returns (ok: bool)
      requires Valid() && id < nextId
      modifies this`files, this`open, this`plugged, this`running, this`faults, this`lost, this`script
      ensures Passes() && (files == old(files) || files == old(files) + {Active(id)})
      ensures ok ==> files == old(files) + {Active(id)} && faults == old(faults)
      ensures !ok ==> faults > old(faults) && (lost == old(lost) ==> files == old(files))
      ensures old(Says(Done)) ==> ok
    {
      var r := Answer();
      ok := r.Done?;
      if ok || r == Lost(true) {
        files := files + {Active(id)};
      }
    }

    /** Delete a file: no backend of QEMU has it open, and no saved manifest needs it. */
    method Delete(path: Path) returns (ok: bool)
      requires Valid() && (path.Active? ==> path.id !in open)
      requires path.id in saved ==> lateSaves > 0
      modifies this`files, this`open, this`plugged, this`running, this`faults, this`lost, this`script
      ensures Passes() && (files == old(files) || files == old(files) - {path})
      ensures ok ==> files == old(files) - {path}
      ensures !ok ==> faults > old(faults) && (lost == old(lost) ==> files == old(files))
      ensures old(Says(Done)) ==> ok
    {
      var r := Answer();
      ok := r.Done?;
      if ok || r == Lost(true) {
        files := files - {path};
      }
    }

    method Rename(a: Path, b: Path) returns (ok: bool)
      requires Valid() && a.id == b.id
      modifies this`files, this`open, this`plugged, this`running, this`faults, this`lost, this`script
      ensures Passes()
      ensures files == if ok then old(files) - {a} + {b} else old(files)
      ensures ok ==> a in old(files)
      ensures !ok ==> faults > old(faults) || a !in old(files)
    {
      var r := Answer();
      ok := r.Done? && a in files;
      if ok {
        files := files - {a} + {b};
      }
    }

    /** Save the manifest. The file is renamed into place whole, but an error can be reported after that. */
    method Save(disks: seq<nat>) returns (ok: bool)
      requires Valid() && (forall i :: 0 <= i < |disks| ==> disks[i] < nextId)
      requires forall i, j :: 0 <= i < j < |disks| ==> disks[i] != disks[j]
      modifies this`saved, this`lateSaves, this`open, this`plugged, this`running, this`faults, this`lost, this`script
      ensures Passes()
      ensures ok ==> saved == disks && lateSaves == old(lateSaves) && faults == old(faults)
      ensures !ok && lateSaves == old(lateSaves) ==> saved == old(saved)
      ensures !ok && lateSaves != old(lateSaves) ==> saved == disks && lateSaves == old(lateSaves) + 1
      ensures old(Says(Lost(true))) ==> !ok && saved == disks
      ensures !ok ==> faults > old(faults) && (lost == old(lost) ==> saved == old(saved))
    {
      var r := Answer();
      ok := r.Done?;
      if ok || r == Lost(true) {
        if !ok && saved != disks {
          lateSaves := lateSaves + 1;
        }
        saved := disks;
      }
    }

    // ---- QMP ----

    /** How a QMP command is counted: from a QEMU that is gone nothing is known. */
    twostate predicate Counted(r: Reply)
      reads this
    {
      && !r.Dies? && (r.Lost? <==> lost > old(lost))
      && faults == old(faults) + (if r.Done? then 0 else 1) && 0 <= lost - old(lost) <= faults - old(faults)
    }

    method BlockdevAdd(id: nat) returns (r: Reply)
      requires Valid() && id < nextId && id !in open
      modifies this`open, this`plugged, this`running, this`faults, this`lost, this`script
      ensures Valid() && nextId == old(nextId) && open <= old(open) + {id} && plugged <= old(plugged) && (running ==> old(running))
      ensures Counted(r)
      ensures r.Done? ==> running && open == old(open) + {id}
      ensures r.Fails? ==> id !in open
    {
      r := Answer();
      if !running && r.Done? {
        faults, lost := faults + 1, lost + 1;
        r := Lost(false);
      }
      if !running {
        return;
      }
      if r.Done? || r == Lost(true) {
        open := open + {id};
      }
    }

    method DeviceAdd(id: nat) returns (r: Reply)
      requires Valid() && (running ==> id in open)
      modifies this`open, this`plugged, this`running, this`faults, this`lost, this`script
      ensures Valid() && nextId == old(nextId) && open <= old(open) && plugged <= old(plugged) + {id}
      ensures running ==> old(running) && open == old(open)
      ensures Counted(r)
      ensures r.Done? ==> running && id in plugged
      ensures r.Fails? ==> plugged <= old(plugged)
    {
      r := Answer();
      if !running && r.Done? {
        faults, lost := faults + 1, lost + 1;
        r := Lost(false);
      }
      if running && (r.Done? || r == Lost(true)) {
        plugged := plugged + {id};
      }
    }

    /** blockdev-del, for a node that no device uses. */
    method BlockdevDel(id: nat) returns (ok: bool)
      requires Valid() && id !in plugged
      modifies this`open, this`plugged, this`running, this`faults, this`lost, this`script
      ensures Valid() && nextId == old(nextId) && open <= old(open) && plugged <= old(plugged) && (running ==> old(running))
      ensures 0 <= lost - old(lost) <= faults - old(faults)
      ensures ok ==> id !in open
      ensures !ok ==> faults > old(faults)
    {
      var r := Answer();
      ok := r.Done? && running;
      if r.Done? && !running {
        faults, lost := faults + 1, lost + 1;
      }
      if ok || r == Lost(true) {
        open := open - {id};
      }
    }

    /** AttachDisk: a definite failure means that no backend has the file open. */
    method AttachDisk(id: nat) returns (result: Attachment)
      requires Valid() && id < nextId && id !in open
      modifies this`open, this`plugged, this`running, this`faults, this`lost, this`script
      ensures Valid() && nextId == old(nextId) && open <= old(open) + {id} && (running ==> old(running))
      ensures 0 <= lost - old(lost) <= faults - old(faults) && (!result.Attached? ==> faults > old(faults))
      ensures result.Attached? ==> running && id in open && id in plugged && faults == old(faults)
      ensures result.Rejected? ==> id !in open
      ensures result.Uncertain? ==> lost > old(lost) || faults >= old(faults) + 2
    {
      var dialled := Answer();
      if !dialled.Done? {
        return Rejected;
      }
      var r := BlockdevAdd(id);
      if !r.Done? {
        return if r.Fails? then Rejected else Uncertain;
      }
      r := DeviceAdd(id);
      if !r.Done? {
        if !r.Fails? {
          return Uncertain;
        }
        var closed := BlockdevDel(id);
        return if closed then Rejected else Uncertain;
      }
      result := Attached;
    }
  }

  /** addDataDisk. At every return each disk in the saved manifest has its file, except exactly if it fails with the new
      disk in the saved manifest and no new file: the first save took effect although it reported an error. */
  method AddDisk(host: Host) returns (ok: bool, id: nat)
    requires host.Valid() && host.Backed()
    modifies host
    ensures host.Valid()
    ensures !ok ==> host.faults > old(host.faults)
    // After one failed command, and without effect, all is as it was.
    ensures !ok && host.Calm() ==> host.saved == old(host.saved) && host.files == old(host.files)
    ensures host.lateSaves == old(host.lateSaves) ==> host.Backed()
    ensures host.Backed() <==> !(!ok && host.saved == old(host.saved) + [id] && host.files == old(host.files))
    ensures ok ==> host.saved == old(host.saved) + [id] && Active(id) in host.files && host.Backed()
    ensures old(host.files) <= host.files <= old(host.files) + {Active(id)}
    ensures host.saved == old(host.saved) || host.saved == old(host.saved) + [id]
    ensures ok && host.running ==> id in host.open && id in host.plugged
    ensures id in host.open ==> Active(id) in host.files
    ensures old(host.script[..]) == [Done, Lost(true), Done] ==> !ok && !host.Backed()
  {
    id := host.FreshId();
    ok := CreateDisk(host, id);
    if !ok {
      return;
    }
    ok := List(host, id);
    assert host.saved == old(host.saved) + [id] ==> host.saved[|host.saved| - 1] == id;
    if ok {
      ok := PlugIn(host, id);
    }
  }

  /** Create the file of a new disk; if that fails, delete what it left behind. */
  method CreateDisk(host: Host, id: nat) returns (ok: bool)
    requires host.Valid() && id < host.nextId && id !in host.saved && id !in host.open && Active(id) !in host.files
    modifies host`files, host`open, host`plugged, host`running, host`faults, host`lost, host`script
    ensures host.Valid() && host.nextId == old(host.nextId) && host.open <= old(host.open)
    ensures 0 <= host.lost - old(host.lost) <= host.faults - old(host.faults)
    ensures if ok then host.files == old(host.files) + {Active(id)} && host.faults == old(host.faults) else host.faults > old(host.faults)
    ensures host.files == old(host.files) || host.files == old(host.files) + {Active(id)}
    ensures !ok && host.faults == old(host.faults) + 1 ==> host.files == old(host.files)
    ensures old(host.Says(Done)) ==> ok && host.script == old(host.script)[1..]
  {
    ok := host.Create(id);
    if !ok {
      var cleaned := host.Delete(Active(id));
    }
  }

  /** Save the manifest with a new disk; if that fails, delete the disk's file. */
  method List(host: Host, id: nat) returns (ok: bool)
    requires host.Valid() && id < host.nextId && id !in host.saved && id !in host.open && Active(id) in host.files
    modifies host`saved, host`lateSaves, host`files, host`open, host`plugged, host`running, host`faults, host`lost, host`script
    ensures host.Valid() && host.nextId == old(host.nextId) && host.open <= old(host.open)
    ensures 0 <= host.lost - old(host.lost) <= host.faults - old(host.faults) && (ok ==> host.faults == old(host.faults))
    ensures !ok && host.Calm() ==> host.saved == old(host.saved) && host.files == old(host.files) - {Active(id)}
    ensures if ok then host.saved == old(host.saved) + [id] && host.files == old(host.files) && host.lateSaves == old(host.lateSaves)
      else host.files == old(host.files) || host.files == old(host.files) - {Active(id)}
    ensures host.saved == old(host.saved) || host.saved == old(host.saved) + [id]
    ensures !ok && host.lateSaves == old(host.lateSaves) ==> host.saved == old(host.saved)
    ensures !ok ==> host.faults > old(host.faults)
    ensures old(host.script) == [Lost(true), Done] ==>
      !ok && host.saved == old(host.saved) + [id] && host.files == old(host.files) - {Active(id)}
  {
    ok := host.Save(host.saved + [id]);
    if !ok {
      assert host.saved == old(host.saved) + [id] ==> host.saved[|host.saved| - 1] == id;
      var removed := host.Delete(Active(id));
    }
  }

  /** The end of addDataDisk: give the disk to a running VM. If that fails, take it out of the manifest again, and delete
      its file unless QEMU may have it open or the manifest may list it. */
  method PlugIn(host: Host, id: nat) returns (ok: bool)
    requires host.Valid() && host.Backed() && host.saved != [] && host.saved[|host.saved| - 1] == id && id !in host.open
    modifies host`saved, host`lateSaves, host`files, host`open, host`plugged, host`running, host`faults, host`lost, host`script
    ensures host.Valid() && host.Backed() && host.nextId == old(host.nextId)
    ensures ok ==> host.saved == old(host.saved) && host.files == old(host.files) && host.lateSaves == old(host.lateSaves)
    ensures 0 <= host.lost - old(host.lost) <= host.faults - old(host.faults) && (!ok ==> host.faults > old(host.faults))
    ensures !ok && host.Calm() ==>
      host.saved == old(host.saved)[..|old(host.saved)| - 1] && host.files == old(host.files) - {Active(id)}
    ensures ok && host.running ==> id in host.open && id in host.plugged
    ensures !old(host.running) ==> ok
    ensures old(host.files) - {Active(id)} <= host.files <= old(host.files)
    ensures host.saved == old(host.saved) || host.saved == old(host.saved)[..|old(host.saved)| - 1]
    ensures id in host.open ==> Active(id) in host.files
  {
    assert Active(id) in host.files;
    ok := true;
    var up := host.Status();
    if up {
      var disks := host.saved;
      var result := host.AttachDisk(id);
      if !result.Attached? {
        ok := false;
        var restored := host.Save(disks[..|disks| - 1]);
        if restored && result.Rejected? {
          var removed := host.Delete(Active(id));
        }
      }
    }
  }

  /** Removing a data disk, of a stopped VM. At every return each disk in the saved manifest has its file, unless the
      manifest could not be saved and then the file could not be renamed back either; its data is never lost. */
  method RemoveDisk(host: Host, index: nat) returns (ok: bool, restoreFailed: bool)
    requires host.Valid() && host.Backed() && index < |host.saved|
    modifies host
    ensures host.Valid()
    ensures !ok ==> host.faults > old(host.faults) || (host.running && host.saved == old(host.saved) && host.files == old(host.files))
    ensures host.Backed() <==> !(restoreFailed && host.saved == old(host.saved))
    ensures restoreFailed ==> !ok && Removed(old(host.saved)[index]) in host.files && host.faults >= old(host.faults) + 2
    ensures restoreFailed && host.lateSaves == old(host.lateSaves) ==> host.saved == old(host.saved)
    ensures host.running ==> !ok && host.saved == old(host.saved) && host.files == old(host.files)
    // After one failed command, and without effect, the disk is as it was, or is removed but for its renamed file.
    ensures !ok && host.Calm() ==>
      var id := old(host.saved)[index];
      || (host.saved == old(host.saved) && host.files - {Removed(id)} == old(host.files) - {Removed(id)})
      || (host.saved == old(host.saved)[..index] + old(host.saved)[index + 1..]
          && host.files == old(host.files) - {Active(id)} + {Removed(id)})
    ensures ok ==> host.saved == old(host.saved)[..index] + old(host.saved)[index + 1..]
    ensures ok ==> Active(old(host.saved)[index]) !in host.files && Removed(old(host.saved)[index]) !in host.files
    ensures old(host.saved)[index] in host.saved ==>
      Active(old(host.saved)[index]) in host.files || Removed(old(host.saved)[index]) in host.files
    ensures forall p :: p in old(host.files) && p.id != old(host.saved)[index] ==> p in host.files
  {
    restoreFailed := false;
    var up := host.Status();
    if up {
      return false, false;
    }
    var id := host.saved[index];
    ok := host.Rename(Active(id), Removed(id));
    if ok {
      ok, restoreFailed := Unlist(host, index);
    }
  }

  /** The rest of the removal, once the file is out of the way: save the manifest and delete the file, or put it back. */
  method Unlist(host: Host, index: nat) returns (ok: bool, restoreFailed: bool)
    requires host.Valid() && index < |host.saved| && Removed(host.saved[index]) in host.files
    requires forall i :: 0 <= i < |host.saved| ==> (Active(host.saved[i]) in host.files <==> i != index)
    modifies host`saved, host`lateSaves, host`files, host`open, host`plugged, host`running, host`faults, host`lost, host`script
    ensures host.Valid() && (host.running ==> old(host.running))
    ensures 0 <= host.lost - old(host.lost) <= host.faults - old(host.faults) && (!ok ==> host.faults > old(host.faults))
    ensures !ok && host.Calm() ==>
      var id := old(host.saved)[index];
      || (host.saved == old(host.saved) && host.files == old(host.files) - {Removed(id)} + {Active(id)})
      || (host.saved == old(host.saved)[..index] + old(host.saved)[index + 1..] && host.files == old(host.files))
    ensures host.Backed() <==> !(restoreFailed && host.saved == old(host.saved))
    ensures restoreFailed ==> !ok && Removed(old(host.saved)[index]) in host.files && host.faults >= old(host.faults) + 2
    ensures restoreFailed && host.lateSaves == old(host.lateSaves) ==> host.saved == old(host.saved)
    ensures ok ==> host.saved == old(host.saved)[..index] + old(host.saved)[index + 1..]
    ensures ok ==> Active(old(host.saved)[index]) !in host.files && Removed(old(host.saved)[index]) !in host.files
    ensures old(host.saved)[index] in host.saved ==>
      Active(old(host.saved)[index]) in host.files || Removed(old(host.saved)[index]) in host.files
    ensures forall p :: p in old(host.files) && p.id != old(host.saved)[index] ==> p in host.files
  {
    restoreFailed := false;
    var id := host.saved[index];
    var disks := host.saved[..index] + host.saved[index + 1..];
    ok := host.Save(disks);
    if !ok {
      var restored := host.Rename(Removed(id), Active(id));
      restoreFailed := !restored;
      return;
    }
    ok := host.Delete(Removed(id));
  }

  /** The first save of addDataDisk can take effect although it reports an error. Then the manifest lists a disk whose
      file is deleted. */
  method LateSaveLosesDisk() returns (host: Host)
    ensures host.Valid() && !host.Backed()
  {
    host := new Host(false, [Done, Lost(true), Done]);
    var ok, id := AddDisk(host);
  }
}
