/** What a live backup is about: the block jobs of one QEMU, the guest's file systems, and the staging directory.

    As commands are issued, a script decides how each ends and what happens meanwhile: jobs conclude, QEMU dies, and
    maco itself may crash. */
module BackupHost {
  datatype Status = Active | Cancelling | Concluded(failed: bool)

  datatype Reply =
    | Done
    | Fails
    | Lost(applied: bool)
    | Crash(applied: bool)
    | Concludes(job: nat, failed: bool)
    | Dies

  /** A map with further keys, all of them for one value. */
  function Extended<T>(m: map<nat, T>, keys: seq<nat>, value: T): (r: map<nat, T>)
    ensures forall k :: k in r <==> k in m || k in keys
    ensures forall k :: k in r ==> r[k] == if k in m then m[k] else value
  {
    map k | k in m.Keys + (set i | 0 <= i < |keys| :: keys[i]) :: if k in m then m[k] else value
  }

  class Host {
    /** The block jobs QEMU has. A concluded job stays until it is dismissed. */
    var jobs: map<nat, Status>
    /** Every job that was ever started, and whether the guest was frozen then. */
    var began: map<nat, bool>
    /** The jobs that concluded without failure. */
    var succeeded: set<nat>
    var frozen: bool
    /** Whether QEMU is running. */
    var up: bool
    /** Whether the guest's agent answered when it was last dialled. */
    var agent: bool
    /** The staging directory is there; the jobs of a backup write into it. */
    var staging: bool
    /** Every file of the backup at hand has been copied to where it will be published. */
    var copied: bool
    /** A backup was published; whether it says that it is consistent. */
    var published: seq<bool>
    var nextId: nat
    /** How many commands did not simply succeed, jobs failed, waits were given up, and QEMUs died. */
    var faults: nat
    /** How many commands had an unknown effect, because their reply was lost or maco crashed. */
    ghost var lost: nat
    /** How many waits were given up. */
    ghost var waits: nat
    /** The jobs QEMU refused to dismiss, because they had not concluded, or to cancel, because they had. */
    ghost var refused: seq<nat>
    var alive: bool
    var script: seq<Reply>

    constructor (script: seq<Reply>)
      ensures Valid() && up && alive && jobs == map[] && !frozen && !staging && published == []
    {
      jobs, began, succeeded, frozen, up := map[], map[], {}, false, true;
      agent, staging, copied, published, nextId, faults, alive := false, false, false, [], 0, 0, true;
      lost, waits, refused := 0, 0, [];
      this.script := script;
    }

    ghost predicate Valid()
      reads this
    {
      && (forall id :: id in began ==> id < nextId)
      && jobs.Keys <= began.Keys
      && succeeded <= began.Keys
      && (forall id :: id in jobs && jobs[id] == Concluded(false) ==> id in succeeded)
      && (!up ==> jobs == map[] && !frozen)
    }

    /** What time does: jobs conclude, and QEMU may die. */
    twostate predicate Passes()
      reads this
    {
      && Valid()
      && began == old(began) && nextId == old(nextId)
      && old(succeeded) <= succeeded
      && staging == old(staging) && published == old(published)
      && old(faults) <= faults && (faults == old(faults) ==> up == old(up) && Advances())
      && old(lost) <= lost && refused == old(refused)
      && NoneStarts()
      && jobs.Keys <= old(jobs).Keys
      && (up ==> old(up) && jobs.Keys == old(jobs).Keys && frozen == old(frozen))
      && (forall id :: id in jobs && jobs[id].Cancelling? ==> old(jobs)[id].Cancelling?)
      && (frozen ==> old(frozen))
      && (alive ==> old(alive))
    }

    /** A job is not active unless it was, and one that has concluded stays so. */
    twostate predicate NoneStarts()
      reads this
    {
      && (forall id :: id in jobs && jobs[id].Active? ==> id in old(jobs) && old(jobs)[id].Active?)
      && (forall id :: id in jobs && id in old(jobs) && old(jobs)[id].Concluded? ==> jobs[id] == old(jobs)[id])
    }

    /** Jobs have gone on, and none has failed. */
    twostate predicate Advances()
      reads this
    {
      forall id :: id in jobs ==>
        && id in old(jobs)
        && (jobs[id] == old(jobs)[id] || (old(jobs)[id].Active? && jobs[id] == Concluded(false)) || old(jobs)[id].Cancelling?)
    }

    twostate predicate AdvancesBut(but: nat)
      reads this
    {
      && (forall id :: id in old(jobs) && id != but ==> id in jobs)
      && forall id :: id in jobs ==>
        && id in old(jobs)
        && (jobs[id] == old(jobs)[id] || (old(jobs)[id].Active? && jobs[id] == Concluded(false)) || old(jobs)[id].Cancelling?)
    }

    method Happens(event: Reply)
      requires Valid()
      modifies this`jobs, this`succeeded, this`frozen, this`up, this`faults
      ensures Passes()
    {
      match event {
        case Concludes(id, failed) =>
          if id in jobs && !jobs[id].Concluded? {
            var bad := failed || jobs[id].Cancelling?;
            jobs := jobs[id := Concluded(bad)];
            if failed {
              faults := faults + 1;
            }
            if !bad {
              succeeded := succeeded + {id};
            }
          }
        case Dies => jobs, frozen, up, faults := map[], false, false, faults + 1;
        case _ =>
      }
    }

    /** What happens before the next reply. */
    method Meanwhile()
      requires Valid()
      modifies this`jobs, this`succeeded, this`frozen, this`up, this`faults, this`script
      ensures Passes()
      ensures !alive || script == [] || !(script[0].Concludes? || script[0].Dies?)
    {
      while alive && script != [] && (script[0].Concludes? || script[0].Dies?)
        invariant Passes()
        decreases |script|
      {
        var event := script[0];
        script := script[1..];
        Happens(event);
      }
    }

    method Answer() returns (r: Reply)
      requires Valid()
      modifies this`jobs, this`succeeded, this`frozen, this`up, this`faults, this`alive, this`script, this`lost
      ensures Passes()
      ensures r.Done? || r.Fails? || r.Lost?
      ensures !r.Done? ==> faults > old(faults)
      ensures r.Lost? <==> lost > old(lost)
      ensures !alive ==> r.Lost?
      ensures !old(alive) ==> r == Lost(false)
    {
      Meanwhile();
      if !alive {
        faults, lost := faults + 1, lost + 1;
        return Lost(false);
      }
      if script == [] {
        return Done;
      }
      r := script[0];
      script := script[1..];
      if !r.Done? {
        faults := faults + 1;
      }
      if r.Crash? {
        alive := false;
        r := Lost(r.applied);
      }
      if r.Lost? {
        lost := lost + 1;
      }
    }

    /** A wait is given up. */
    method GiveUp()
      requires Valid()
      modifies this`faults, this`waits
      ensures Valid() && faults == old(faults) + 1 && waits == old(waits) + 1
    {
      faults, waits := faults + 1, waits + 1;
    }

    method FreshId() returns (id: nat)
      requires Valid()
      modifies this`nextId
      ensures Valid() && id == old(nextId) && nextId == id + 1
    {
      id := nextId;
      nextId := nextId + 1;
    }

    /** Something that may fail but has no effect to speak of: dialling a socket, a query, copying a file. */
    method Try() returns (ok: bool)
      requires Valid()
      modifies this`jobs, this`succeeded, this`frozen, this`up, this`faults, this`alive, this`script, this`lost
      ensures Passes() && (ok ==> alive) && (!ok ==> faults > old(faults))
    {
      var r := Answer();
      ok := r.Done?;
    }

    // ---- QEMU ----

    /** A transaction of drive-backup actions: all of the jobs start, or none. */
    method Transaction(ids: seq<nat>) returns (ok: bool)
      requires Valid() && forall i :: 0 <= i < |ids| ==> ids[i] !in began && ids[i] < nextId
      modifies this`jobs, this`began, this`succeeded, this`frozen, this`up, this`faults, this`alive, this`script, this`lost
      ensures Valid() && staging == old(staging) && published == old(published) && nextId == old(nextId)
      ensures (frozen ==> old(frozen)) && (alive ==> old(alive)) && (up ==> old(up) && frozen == old(frozen))
      ensures Untouched(ids)
      ensures forall id :: id in began ==> id in old(began) || id in ids
      ensures forall id :: id in old(began) ==> id in began && began[id] == old(began)[id]
      ensures ok ==> alive && up && forall id :: id in ids ==> id in began && began[id] == old(frozen)
      ensures old(faults) <= faults && (!ok ==> faults > old(faults) || !old(up))
      ensures old(lost) <= lost && refused == old(refused)
      ensures ok && faults == old(faults) ==> forall id :: id in ids ==> id in jobs && jobs[id].Active?
    {
      hide Extended;
      var r := Answer();
      ok := r.Done? && up;
      if up && (ok || r == Lost(true)) {
        jobs, began := Extended(jobs, ids, Active), Extended(began, ids, frozen);
      }
    }

    /** While QEMU runs, jobs other than those given have not been cancelled or dismissed. */
    twostate predicate Untouched(ids: seq<nat>)
      reads this
    {
      && (up ==> old(up) && forall id :: id in old(jobs) && id !in ids ==> id in jobs)
      && (forall id :: id in jobs && id !in ids ==> id in old(jobs) && (jobs[id].Cancelling? ==> old(jobs)[id].Cancelling?))
    }

    method QueryJobs() returns (ok: bool, result: map<nat, Status>)
      requires Valid()
      modifies this`jobs, this`succeeded, this`frozen, this`up, this`faults, this`alive, this`script, this`lost
      ensures Passes()
      ensures ok ==> alive && up && result == jobs
      ensures !ok ==> faults > old(faults) || !old(up)
    {
      var r := Answer();
      ok, result := r.Done? && up, jobs;
    }

    /** job-dismiss, for a job that has concluded. */
    method Dismiss(id: nat) returns (ok: bool)
      requires Valid()
      modifies this`jobs, this`succeeded, this`frozen, this`up, this`faults, this`alive, this`script, this`lost, this`refused
      ensures Valid() && began == old(began) && nextId == old(nextId) && staging == old(staging) && published == old(published)
      ensures (frozen ==> old(frozen)) && (alive ==> old(alive)) && old(succeeded) <= succeeded
      ensures Untouched([id]) && jobs.Keys <= old(jobs).Keys && (up ==> frozen == old(frozen))
      ensures ok ==> alive && id !in jobs
      ensures old(faults) <= faults && old(lost) <= lost
      ensures refused == old(refused) || (!ok && refused == old(refused) + [id])
      ensures !ok ==> faults > old(faults) || !up || refused == old(refused) + [id]
      ensures !ok && faults == old(faults) ==> id !in old(jobs) || !old(jobs)[id].Concluded?
      ensures faults == old(faults) ==> up == old(up) && AdvancesBut(id)
      ensures NoneStarts()
      ensures refused != old(refused) ==> up && (id !in old(jobs) || !old(jobs)[id].Concluded?)
    {
      var r := Answer();
      var possible := id in jobs && jobs[id].Concluded?;
      ok := r.Done? && possible;
      if possible && (ok || r == Lost(true)) {
        jobs := jobs - {id};
      }
      if r.Done? && up && !possible {
        refused := refused + [id];
      }
    }

    /** job-cancel: the job will conclude as failed, some time later. */
    method Cancel(id: nat) returns (ok: bool)
      requires Valid()
      modifies this`jobs, this`succeeded, this`frozen, this`up, this`faults, this`alive, this`script, this`lost, this`refused
      ensures Valid() && began == old(began) && nextId == old(nextId) && staging == old(staging) && published == old(published)
      ensures (frozen ==> old(frozen)) && (alive ==> old(alive)) && old(succeeded) <= succeeded
      ensures Untouched([id]) && jobs.Keys <= old(jobs).Keys && (up ==> frozen == old(frozen))
      ensures old(faults) <= faults && old(lost) <= lost && (faults == old(faults) ==> up == old(up))
      ensures !ok && faults == old(faults) ==> id !in jobs || jobs[id].Concluded?
      ensures refused == old(refused) || (!ok && refused == old(refused) + [id])
      ensures !ok ==> faults > old(faults) || !up || refused == old(refused) + [id]
      ensures NoneStarts() && (ok ==> id in jobs ==> !jobs[id].Active?)
      ensures refused != old(refused) ==> up && (id in old(jobs) ==> id in jobs && jobs[id].Concluded?)
    {
      var r := Answer();
      var possible := id in jobs && !jobs[id].Concluded?;
      ok := r.Done? && possible;
      if possible && (ok || r == Lost(true)) {
        jobs := jobs[id := Cancelling];
      }
      if r.Done? && up && !possible {
        refused := refused + [id];
      }
    }

    // ---- The guest agent ----

    method DialAgent() returns (ok: bool)
      requires Valid()
      modifies this`agent, this`jobs, this`succeeded, this`frozen, this`up, this`faults, this`alive, this`script, this`lost
      ensures Passes() && agent == ok && (ok ==> alive) && (!ok ==> faults > old(faults))
    {
      var r := Answer();
      ok, agent := r.Done?, r.Done?;
    }

    method FsFreeze(freeze: bool) returns (ok: bool)
      requires Valid() && agent
      modifies this`jobs, this`succeeded, this`frozen, this`up, this`faults, this`alive, this`script, this`lost
      ensures Valid() && began == old(began) && nextId == old(nextId) && staging == old(staging) && published == old(published)
      ensures (alive ==> old(alive)) && old(succeeded) <= succeeded && Untouched([]) && jobs.Keys <= old(jobs).Keys
      ensures ok ==> alive && up && frozen == freeze
      ensures frozen ==> old(frozen) || freeze
      ensures old(faults) <= faults && (!ok ==> faults > old(faults) || !old(up))
      ensures old(lost) <= lost && refused == old(refused)
      ensures faults == old(faults) ==> up == old(up) && jobs.Keys == old(jobs).Keys && Advances()
    {
      var r := Answer();
      ok := r.Done? && up;
      if up && (ok || r == Lost(true)) {
        frozen := freeze;
      }
    }

    // ---- Files ----

    method MakeStaging() returns (ok: bool)
      requires Valid()
      modifies this`staging, this`copied, this`jobs, this`succeeded, this`frozen, this`up, this`faults, this`alive, this`script, this`lost
      ensures Valid() && began == old(began) && nextId == old(nextId) && published == old(published)
      ensures (frozen ==> old(frozen)) && (alive ==> old(alive)) && old(succeeded) <= succeeded && Untouched([])
      ensures ok ==> alive && staging
      ensures !copied
      ensures old(lost) <= lost && refused == old(refused) && (!ok && lost == old(lost) ==> staging == old(staging))
      ensures old(faults) <= faults && (faults == old(faults) ==> up == old(up))
      ensures !ok ==> faults > old(faults)
    {
      var r := Answer();
      ok, copied := r.Done?, false;
      if ok || r == Lost(true) {
        staging := true;
      }
    }

    /** Delete the staging directory, which no job may be writing to. */
    method RemoveStaging(ids: seq<nat>)
      requires Valid() && forall id :: id in ids ==> id !in jobs
      modifies this`staging, this`jobs, this`succeeded, this`frozen, this`up, this`faults, this`alive, this`script, this`lost
      ensures Valid() && began == old(began) && nextId == old(nextId) && published == old(published)
      ensures (frozen ==> old(frozen)) && (alive ==> old(alive)) && old(succeeded) <= succeeded && Untouched([])
      ensures forall id :: id in ids ==> id !in jobs
      ensures old(faults) <= faults && (faults == old(faults) ==> up == old(up) && !staging)
      ensures old(lost) <= lost && refused == old(refused)
    {
      var r := Answer();
      if r.Done? || r == Lost(true) {
        staging := false;
      }
    }

    /** Copy the files of the jobs, which must all be done, and the manifest. */
    method Copy(ids: seq<nat>) returns (ok: bool)
      requires Valid() && forall id :: id in ids ==> id in succeeded && id !in jobs
      modifies this`copied, this`jobs, this`succeeded, this`frozen, this`up, this`faults, this`alive, this`script, this`lost
      ensures Passes() && (ok ==> alive && copied) && (!ok ==> faults > old(faults))
    {
      var r := Answer();
      ok, copied := r.Done?, r.Done?;
    }

    /** Rename the finished backup into place. */
    method Publish(consistent: bool) returns (ok: bool)
      requires Valid() && copied
      modifies this`published, this`jobs, this`succeeded, this`frozen, this`up, this`faults, this`alive, this`script, this`lost
      ensures Valid() && began == old(began) && nextId == old(nextId) && staging == old(staging)
      ensures (frozen ==> old(frozen)) && (alive ==> old(alive)) && old(succeeded) <= succeeded && Untouched([])
      ensures jobs.Keys <= old(jobs).Keys
      ensures published == old(published) || published == old(published) + [consistent]
      ensures ok ==> published == old(published) + [consistent]
      ensures old(lost) <= lost && refused == old(refused) && (!ok && lost == old(lost) ==> published == old(published))
      ensures old(faults) <= faults && (faults == old(faults) ==> up == old(up))
      ensures !ok ==> faults > old(faults)
    {
      var r := Answer();
      ok := r.Done?;
      if ok || r == Lost(true) {
        published := published + [consistent];
      }
    }
  }
}
