/** Backing up the disks of a running VM: pkg/vm/backup.go, pkg/vm/guestagent.go, and the end of BackupVM in
    pkg/engine/backup.go. */
module Backup {
  import opened BackupHost

  /** How a backup of disks ends. An error may say that jobs could not be confirmed stopped (ErrBackupCleanup), or that
      the guest could not be thawed. */
  datatype Outcome = Outcome(ok: bool, jobsUnconfirmed: bool, thawFailed: bool)

  class Driver {
    const host: Host
    /** How often QEMU is asked again before a wait is given up. */
    const patience: nat
    /** How often a guest could not be thawed, and how often jobs could not be cancelled. */
    ghost var unthawed: nat
    ghost var uncancelled: nat

    constructor (host: Host, patience: nat)
      ensures this.host == host && this.patience == patience
    {
      this.host, this.patience := host, patience;
      unthawed, uncancelled := 0, 0;
    }

    ghost predicate None(ids: seq<nat>)
      reads host
    {
      forall id :: id in ids ==> id !in host.jobs
    }

    /** Those of the jobs that are still there have concluded or been cancelled. */
    ghost predicate NoneActive(ids: seq<nat>)
      reads host
    {
      forall id :: id in ids && id in host.jobs ==> !host.jobs[id].Active?
    }

    /** The jobs concluded without failure, and are gone from QEMU. */
    ghost predicate AllDone(ids: seq<nat>)
      reads host
    {
      forall id :: id in ids ==> id in host.succeeded && id !in host.jobs && id in host.began
    }

    /** What waiting for jobs, or cancelling them, leaves alone. */
    twostate predicate Leaves(ids: seq<nat>)
      reads host
    {
      && host.Valid() && host.Untouched(ids)
      && host.began == old(host.began) && host.nextId == old(host.nextId)
      && host.staging == old(host.staging) && host.published == old(host.published)
      && old(host.succeeded) <= host.succeeded && host.jobs.Keys <= old(host.jobs).Keys
      && (host.alive ==> old(host.alive)) && old(host.faults) <= host.faults
      && old(host.lost) <= host.lost && old(host.refused) <= host.refused
      && (host.up ==> old(host.up))
    }

    /** QEMU has refused to dismiss or cancel one of these jobs. */
    twostate predicate Refused(ids: seq<nat>)
      reads host
    {
      exists k :: |old(host.refused)| <= k < |host.refused| && host.refused[k] in ids
    }

    /** A job that is there, and has not failed or been cancelled. */
    ghost predicate Fine(id: nat)
      reads host
    {
      id in host.jobs && (host.jobs[id].Active? || host.jobs[id] == Concluded(false))
    }

    /** Unless something went wrong, jobs have only gone on. */
    twostate predicate Undisturbed()
      reads host
    {
      host.faults == old(host.faults) ==> host.up == old(host.up) && host.jobs.Keys == old(host.jobs).Keys && host.Advances()
    }

    method ThawGuest() returns (ok: bool)
      requires host.Valid()
      modifies host, this`unthawed
      ensures Leaves([])
      ensures unthawed == old(unthawed) + (if ok then 0 else 1)
      ensures (ok ==> !host.frozen) && (host.frozen ==> old(host.frozen))
      ensures Undisturbed() && (!ok ==> host.faults > old(host.faults) || !old(host.up))
    {
      ok := host.DialAgent();
      if ok {
        ok := host.FsFreeze(false);
      }
      if !ok {
        unthawed := unthawed + 1;
      }
    }

    /** freezeGuest: not frozen if no agent answers; if the agent fails, the guest is thawed again. */
    method FreezeGuest() returns (ok: bool, froze: bool, thawFailed: bool)
      requires host.Valid()
      modifies host, this`unthawed
      ensures old(unthawed) <= unthawed && (thawFailed <==> unthawed > old(unthawed))
      ensures !ok && host.frozen && !old(host.frozen) ==> host.faults >= old(host.faults) + 2
      ensures Leaves([])
      ensures ok && froze ==> host.up && host.frozen
      ensures ok && !froze ==> host.frozen ==> old(host.frozen)
      ensures !ok && host.frozen ==> thawFailed
      ensures ok ==> !thawFailed
      ensures Undisturbed() && (!ok || !froze ==> host.faults > old(host.faults) || !old(host.up))
    {
      froze, thawFailed := false, false;
      var connected := host.DialAgent();
      if !connected {
        return true, false, false;
      }
      ok := host.FsFreeze(true);
      if !ok {
        var thawed := ThawGuest();
        return false, false, !thawed;
      }
      froze := true;
    }

    /** A job that has concluded is dismissed, and may have failed. */
    method DismissJob(id: nat) returns (ok: bool)
      requires host.Valid() && id in host.jobs && host.jobs[id].Concluded?
      modifies host
      ensures Leaves([id]) && (host.frozen ==> old(host.frozen)) && host.waits == old(host.waits)
      ensures ok ==> id in host.succeeded && id !in host.jobs
      ensures !ok ==> host.faults > old(host.faults) || !old(Fine(id))
      ensures host.faults == old(host.faults) ==> host.up == old(host.up) && host.AdvancesBut(id)
    {
      var failed := host.jobs[id].failed;
      var dismissed := host.Dismiss(id);
      ok := dismissed && !failed;
    }

    /** awaitJobStatus for a backup job: success means that it concluded without failure and was dismissed. A guest that
        was frozen for the backup is not kept so meanwhile. */
    method AwaitBackup(id: nat, ghost froze: bool) returns (ok: bool)
      requires host.Valid() && (froze ==> !host.frozen)
      modifies host
      ensures Leaves([id]) && (host.frozen ==> old(host.frozen))
      ensures ok ==> id in host.succeeded && id !in host.jobs
      ensures !ok ==> host.faults > old(host.faults) || !old(host.up) || !old(Fine(id))
      ensures host.faults == old(host.faults) ==> host.up == old(host.up) && host.AdvancesBut(id)
      ensures host.waits > old(host.waits) ==> id in old(host.jobs) && !old(host.jobs)[id].Concluded?
    {
      ok := AwaitConcluded(id);
      if ok {
        ok := DismissJob(id);
      }
    }

    /** Ask QEMU until the job has concluded. */
    method AwaitConcluded(id: nat) returns (ok: bool)
      requires host.Valid()
      modifies host
      ensures Leaves([]) && (host.frozen ==> old(host.frozen)) && Undisturbed()
      ensures ok ==> id in host.jobs && host.jobs[id].Concluded?
      ensures !ok ==> host.faults > old(host.faults) || !old(host.up) || id !in old(host.jobs)
      ensures host.waits > old(host.waits) ==> !ok && id in old(host.jobs) && !old(host.jobs)[id].Concluded?
    {
      for round := 0 to patience + 1
        invariant Leaves([]) && (host.frozen ==> old(host.frozen)) && Undisturbed()
        invariant host.waits == old(host.waits)
        invariant id in host.jobs && !host.jobs[id].Concluded? ==> id in old(host.jobs) && !old(host.jobs)[id].Concluded?
        invariant round > 0 ==> id in old(host.jobs) && !old(host.jobs)[id].Concluded?
      {
        var queried, jobs := host.QueryJobs();
        if !queried || id !in jobs {
          return false;
        }
        if jobs[id].Concluded? {
          return true;
        }
      }
      host.GiveUp();
      ok := false;
    }

    /** cancelBackups: success means that QEMU was seen without any of the jobs. It fails only for a fault, a dead QEMU, or
        if one of the jobs was there: it can conclude after it is listed and before it is cancelled. */
    method CancelBackups(ids: seq<nat>) returns (ok: bool)
      requires host.Valid()
      modifies host, this`uncancelled
      ensures Leaves(ids) && (host.frozen ==> old(host.frozen))
      ensures ok ==> None(ids)
      ensures !ok ==> host.faults > old(host.faults) || !host.up || Refused(ids)
      ensures host.waits > old(host.waits) ==> NoneActive(ids) && !old(None(ids))
      ensures host.faults == old(host.faults) ==> host.up == old(host.up)
      ensures uncancelled == old(uncancelled) + (if ok then 0 else 1)
    {
      ok := Cancelled(ids);
      if !ok {
        uncancelled := uncancelled + 1;
      }
    }

    method Cancelled(ids: seq<nat>) returns (ok: bool)
      requires host.Valid()
      modifies host
      ensures Leaves(ids) && (host.frozen ==> old(host.frozen))
      ensures ok ==> None(ids)
      ensures !ok ==> host.faults > old(host.faults) || !host.up || Refused(ids)
      ensures host.waits > old(host.waits) ==> NoneActive(ids) && !old(None(ids))
      ensures host.faults == old(host.faults) ==> host.up == old(host.up)
    {
      ok := host.Try();
      if !ok {
        return;
      }
      for round := 0 to patience + 1
        invariant host.waits == old(host.waits) && (round > 0 ==> NoneActive(ids) && !old(None(ids)))
        invariant Leaves(ids) && (host.frozen ==> old(host.frozen))
        invariant host.faults == old(host.faults) ==> host.up == old(host.up)
      {
        var jobs;
        ok, jobs := host.QueryJobs();
        if !ok {
          return;
        }
        var active;
        ok, active := CancelSome(ids, jobs);
        if !ok {
          return;
        }
        if !active {
          return;
        }
      }
      host.GiveUp();
      ok := false;
    }

    /** One round: dismiss those of the jobs that have concluded, cancel the others. */
    method CancelSome(ids: seq<nat>, jobs: map<nat, Status>) returns (ok: bool, active: bool)
      requires host.Valid() && jobs == host.jobs
      modifies host
      ensures Leaves(ids) && (host.frozen ==> old(host.frozen))
      ensures ok && !active ==> None(ids)
      ensures active ==> !old(None(ids))
      ensures ok ==> NoneActive(ids)
      ensures host.waits == old(host.waits)
      ensures host.faults == old(host.faults) ==> host.up == old(host.up)
      ensures !ok ==> host.faults > old(host.faults) || !host.up || Refused(ids)
      ensures Refused(ids) ==> ConcludedSince(ids, jobs)
    {
      active := false;
      var left := jobs.Keys;
      while left != {}
        invariant left <= jobs.Keys && Leaves(ids) && (host.frozen ==> old(host.frozen))
        invariant host.faults == old(host.faults) ==> host.up == old(host.up)
        invariant host.waits == old(host.waits) && host.refused == old(host.refused)
        invariant active ==> !forall id :: id in ids ==> id !in jobs
        invariant forall id :: id in ids && id in host.jobs && host.jobs[id].Active? ==> id in left
        invariant host.up ==> forall id :: id in left ==> id in host.jobs && (jobs[id].Concluded? ==> host.jobs[id].Concluded?)
        invariant !active ==> host.jobs == jobs && forall id :: id in ids && id in jobs ==> id in left
      {
        var id :| id in left;
        left := left - {id};
        if id in ids {
          active := true;
          ok := CancelOne(id, jobs[id]);
          if !ok {
            return;
          }
        }
      }
      ok := true;
    }

    /** One of these jobs has concluded that had not. */
    ghost predicate ConcludedSince(ids: seq<nat>, jobs: map<nat, Status>)
      reads host
    {
      exists id :: id in ids && id in jobs && !jobs[id].Concluded? && id in host.jobs && host.jobs[id].Concluded?
    }

    method CancelOne(id: nat, status: Status) returns (ok: bool)
      requires host.Valid() && (host.up ==> id in host.jobs && (status.Concluded? ==> host.jobs[id].Concluded?))
      modifies host
      ensures Leaves([id]) && (host.frozen ==> old(host.frozen))
      ensures host.faults == old(host.faults) ==> host.up == old(host.up)
      ensures ok && id in host.jobs ==> !status.Concluded? && !host.jobs[id].Active?
      ensures host.NoneStarts() && host.waits == old(host.waits)
      ensures !ok ==> host.faults > old(host.faults) || !host.up || Refused([id])
      ensures host.refused == old(host.refused) || (!ok && host.refused == old(host.refused) + [id])
      ensures host.refused != old(host.refused) ==> id in host.jobs && host.jobs[id].Concluded? && !status.Concluded?
    {
      if status.Concluded? {
        ok := host.Dismiss(id);
      } else {
        ok := host.Cancel(id);
      }
      assert host.refused != old(host.refused) ==> host.refused[|old(host.refused)|] == id;
    }

    /** BackupDisksContext. Its deferred calls run last to first: cancel the jobs if there is an error, then thaw the
        guest if that is still to be done. */
    method BackupDisks(disks: nat) returns (consistent: bool, outcome: Outcome, ids: seq<nat>, ghost failedAt: nat)
      requires host.Valid()
      modifies host, this`unthawed, this`uncancelled
      ensures host.Valid() && host.staging == old(host.staging) && host.published == old(host.published)
      ensures (host.alive ==> old(host.alive)) && host.Untouched(ids)
      ensures forall id :: id in ids ==> id !in old(host.began)
      ensures outcome.ok ==> |ids| == disks && AllDone(ids) && !outcome.jobsUnconfirmed && !outcome.thawFailed
      ensures consistent ==> outcome.ok && forall id :: id in ids ==> id in host.began && host.began[id]
      ensures outcome.ok && !consistent && !old(host.frozen) ==> forall id :: id in ids ==> id in host.began && !host.began[id]
      ensures !outcome.ok && !outcome.jobsUnconfirmed ==> None(ids)
      ensures host.frozen ==> old(host.frozen) || (!outcome.ok && outcome.thawFailed)
      ensures outcome.ok && host.frozen ==> !consistent
      // The two special errors are reported exactly when they occurred, and a second failure must cause them: `failedAt` is
      // the number of faults when the backup itself had failed.
      ensures old(unthawed) <= unthawed && (outcome.thawFailed <==> unthawed > old(unthawed))
      ensures old(uncancelled) <= uncancelled && (outcome.jobsUnconfirmed <==> uncancelled > old(uncancelled))
      ensures old(host.frozen) || !host.frozen || host.faults >= old(host.faults) + 2
      ensures outcome.jobsUnconfirmed ==>
        && (failedAt > old(host.faults) || !old(host.up))
        && (host.faults > failedAt || !host.up || Refused(ids))
      ensures old(host.lost) <= host.lost && old(host.refused) <= host.refused && (host.up ==> old(host.up))
      ensures !outcome.ok || !consistent ==> host.faults > old(host.faults) || !old(host.up)
      ensures old(host.faults) <= host.faults && (host.faults == old(host.faults) ==> host.up == old(host.up))
    {
      consistent, outcome, failedAt := false, Outcome(false, false, false), 0;
      var ok;
      ok, ids := Prepare(disks);
      if !ok {
        return;
      }
      var froze, thawFailed;
      ok, froze, thawFailed := FreezeGuest();
      if !ok {
        outcome := Outcome(false, false, thawFailed);
        return;
      }
      var thawed;
      ok, thawed, thawFailed := Attempt(ids, froze);
      failedAt := host.faults;
      var unconfirmed, unthawedStill := CleanUp(ids, ok, thawed);
      thawFailed := thawFailed || unthawedStill;
      consistent, outcome := ok && froze && !thawFailed, Outcome(ok && !thawFailed, unconfirmed, thawFailed);
    }

    /** The deferred calls, last to first: cancel the jobs after an error, and thaw the guest if that is still to be done. */
    method CleanUp(ids: seq<nat>, ok: bool, thawed: bool) returns (unconfirmed: bool, thawFailed: bool)
      requires host.Valid()
      modifies host, this`unthawed, this`uncancelled
      ensures Leaves(ids) && (host.frozen ==> old(host.frozen)) && (thawed || thawFailed || !host.frozen)
      ensures !ok && !unconfirmed ==> None(ids)
      ensures host.faults == old(host.faults) ==> host.up == old(host.up)
      ensures unconfirmed ==> host.faults > old(host.faults) || !host.up || Refused(ids)
      ensures thawFailed ==> host.faults > old(host.faults) || !old(host.up)
      ensures uncancelled == old(uncancelled) + (if unconfirmed then 1 else 0) && unthawed == old(unthawed) + (if thawFailed then 1 else 0)
      // Nothing is done that is not called for.
      ensures ok ==> !unconfirmed && Leaves([])
      ensures thawed ==> !thawFailed
      ensures ok && thawed ==> host.faults == old(host.faults) && host.jobs == old(host.jobs)
    {
      unconfirmed, thawFailed := false, false;
      if !ok {
        var cancelled := CancelBackups(ids);
        unconfirmed := !cancelled;
      }
      if !thawed {
        var thawedNow := ThawGuest();
        thawFailed := !thawedNow;
      }
    }

    /** Connect, find the disks' nodes, and choose the jobs' ids. */
    method Prepare(disks: nat) returns (ok: bool, ids: seq<nat>)
      requires host.Valid()
      modifies host
      ensures Quiet()
      ensures forall i :: 0 <= i < |ids| ==> ids[i] !in host.began && ids[i] < host.nextId
      ensures forall i, j :: 0 <= i < j < |ids| ==> ids[i] < ids[j]
      ensures ok ==> |ids| == disks
      ensures !ok ==> host.faults > old(host.faults)
    {
      ids := [];
      ok := host.Try();
      if !ok {
        return;
      }
      for i := 0 to disks
        invariant Quiet() && |ids| == i
        invariant forall j :: 0 <= j < i ==> ids[j] !in host.began && ids[j] < host.nextId
        invariant forall j, k :: 0 <= j < k < i ==> ids[j] < ids[k]
      {
        ok := host.Try();
        if !ok {
          return;
        }
        var id := host.FreshId();
        ids := ids + [id];
      }
      ok := true;
    }

    /** Nothing but time passed, and ids were used up. */
    twostate predicate Quiet()
      reads host
    {
      && host.Valid() && host.Untouched([])
      && host.began == old(host.began) && old(host.succeeded) <= host.succeeded
      && host.staging == old(host.staging) && host.published == old(host.published)
      && host.jobs.Keys <= old(host.jobs).Keys
      && (host.frozen ==> old(host.frozen)) && (host.alive ==> old(host.alive))
      && old(host.faults) <= host.faults && (host.faults == old(host.faults) ==> host.up == old(host.up))
      && old(host.lost) <= host.lost && host.refused == old(host.refused) && (host.up ==> old(host.up))
    }

    /** From the transaction on: start the jobs, thaw the guest, wait for each job. */
    method Attempt(ids: seq<nat>, froze: bool) returns (ok: bool, thawed: bool, thawFailed: bool)
      requires host.Valid() && (froze ==> host.up && host.frozen)
      requires forall i :: 0 <= i < |ids| ==> ids[i] !in host.began && ids[i] < host.nextId
      requires forall i, j :: 0 <= i < j < |ids| ==> ids[i] < ids[j]
      modifies host, this`unthawed
      ensures host.Valid() && host.Untouched(ids)
      ensures old(host.lost) <= host.lost && old(host.refused) <= host.refused
      ensures old(unthawed) <= unthawed && (thawFailed <==> unthawed > old(unthawed)) && (thawFailed ==> froze)
      ensures old(host.faults) <= host.faults && (!ok ==> host.faults > old(host.faults) || !old(host.up))
      ensures host.faults == old(host.faults) ==> host.up == old(host.up)
      ensures host.staging == old(host.staging) && host.published == old(host.published) && (host.alive ==> old(host.alive))
      ensures ok ==> AllDone(ids) && thawed && !thawFailed
      ensures ok ==> forall id :: id in ids ==> id in host.began && host.began[id] == old(host.frozen)
      ensures thawed && host.frozen ==> !froze && old(host.frozen)
      ensures host.frozen ==> old(host.frozen)
    {
      thawed, thawFailed := !froze, false;
      ok := host.Transaction(ids);
      if !ok {
        return;
      }
      if !thawed {
        thawed := ThawGuest();
        if !thawed {
          return false, false, true;
        }
      }
      ok := AwaitAll(ids, froze);
    }

    /** Wait for each job in turn. */
    method AwaitAll(ids: seq<nat>, ghost froze: bool) returns (ok: bool)
      requires host.Valid() && (froze ==> !host.frozen)
      requires forall i, j :: 0 <= i < j < |ids| ==> ids[i] < ids[j]
      modifies host
      ensures Leaves(ids) && (host.frozen ==> old(host.frozen))
      ensures ok ==> forall id :: id in ids ==> id in host.succeeded && id !in host.jobs
      ensures !ok ==> host.faults > old(host.faults) || !old(host.up) || exists id :: id in ids && !old(Fine(id))
      ensures host.faults == old(host.faults) ==> host.up == old(host.up)
    {
      ok := false;
      for i := 0 to |ids|
        invariant Leaves(ids) && (host.frozen ==> old(host.frozen))
        invariant forall j :: 0 <= j < i ==> ids[j] in host.succeeded && ids[j] !in host.jobs
        invariant host.faults == old(host.faults) ==>
          host.up == old(host.up) && forall j :: i <= j < |ids| && old(Fine(ids[j])) ==> Fine(ids[j])
      {
        ok := AwaitBackup(ids[i], froze);
        if !ok {
          return;
        }
      }
      ok := true;
    }

    /** BackupVM for a running VM: jobs write into a staging directory, whose files are then copied and published. The
        directory is removed on the way out, unless a job may still be writing to it. */
    method BackupVM(disks: nat) returns (ok: bool, consistent: bool, ids: seq<nat>)
      requires host.Valid()
      modifies host, this`unthawed, this`uncancelled
      ensures host.Valid() && (host.alive ==> old(host.alive)) && host.Untouched(ids)
      ensures forall id :: id in ids ==> id !in old(host.began)
      ensures ok ==> |ids| == disks > 0 && AllDone(ids) && host.published == old(host.published) + [consistent]
      ensures consistent ==> |ids| == disks > 0 && forall id :: id in ids ==> id in host.began && host.began[id]
      ensures !ok || !consistent ==> host.faults > old(host.faults) || !old(host.up) || disks == 0
      ensures !host.staging ==> None(ids)
      // The directory stays only if the jobs could not be cancelled, or it could not be removed.
      ensures host.staging && !old(host.staging) ==>
        || uncancelled > old(uncancelled) || host.lost > old(host.lost)
        || host.faults >= old(host.faults) + (if ok then 1 else 2)
        || !old(host.up)
      ensures host.published != old(host.published) ==> host.published == old(host.published) + [consistent] && AllDone(ids)
    {
      consistent, ids := false, [];
      if disks == 0 {
        return false, false, [];
      }
      ok := host.MakeStaging();
      if !ok {
        return;
      }
      var outcome;
      ghost var failedAt;
      consistent, outcome, ids, failedAt := BackupDisks(disks);
      if !outcome.ok {
        if !outcome.jobsUnconfirmed {
          host.RemoveStaging(ids);
        }
        return false, false, ids;
      }
      ok := host.Copy(ids);
      if ok {
        ok := host.Publish(consistent);
      }
      host.RemoveStaging(ids);
    }
  }
}
