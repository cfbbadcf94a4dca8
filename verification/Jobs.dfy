/** How jobs are run: pkg/jobs/jobs.go and pkg/jobs/lock.go, as a system of concurrent steps.

    A task may be delivered any number of times, to any number of workers. Each worker takes one lock, a lease in Redis,
    before it looks at the job's record. At any time a process may crash, a command may fail with or without effect, a
    lease may run out, and a stale copy of a record may be written back as failed. */
module Jobs {
  datatype Option<T> = None | Some(value: T)

  datatype Status = Pending | Running | Succeeded | Failed

  datatype Job = Job(status: Status, started: bool)

  predicate Terminal(j: Job) {
    j.status.Succeeded? || j.status.Failed?
  }

  /** A record that no worker will execute. */
  predicate Spent(j: Job) {
    Terminal(j) || j.started
  }

  /** The lock key in Redis; it is as good as gone once it has expired. */
  datatype Lease = Lease(token: nat, expires: nat)

  const LOCK_TTL: nat := 30

  /** Where a worker is in ProcessTask. Up to `Leaving` it renews its lease now and then. */
  datatype Phase =
    | Acquiring
    | Holding(token: nat)
    | Loaded(token: nat)
    | Marked(token: nat)
    | Executed(token: nat)
    | Leaving(token: nat)

  datatype Worker = Worker(id: nat, phase: Phase)

  /** A record as somebody read it, to be written back as failed. */
  datatype Copy = Copy(id: nat, job: Job)

  datatype State = State(
    now: nat,
    lock: Option<Lease>,
    nextToken: nat,
    records: map<nat, Job>,
    used: set<nat>,
    workers: map<nat, Worker>,
    copies: set<Copy>,
    trims: set<nat>,
    marked: set<nat>,
    executions: seq<nat>)

  const INITIAL: State := State(0, None, 0, map[], {}, map[], {}, {}, {}, [])

  datatype Event =
    | Tick(time: nat)
    // Submit saves a new record, and keeps its copy in case the task cannot be enqueued.
    | Submit(id: nat, saved: bool)
    // Get and reconcileOrphans read an unfinished record; with Submit's, the copy may be written back as failed.
    | Read(id: nat)
    | Overwrite(copy: Copy)
    // trimHistory reads that a job is finished or gone, and deletes it later; a private job's record expires.
    | TrimRead(id: nat)
    | TrimDelete(id: nat)
    | Expire(id: nat)
    // ProcessTask.
    | Deliver(worker: nat, id: nat)
    | Acquire(worker: nat, known: bool)
    | Renew(worker: nat)
    | Load(worker: nat)
    | Mark(worker: nat, ok: bool, saved: bool)
    | Execute(worker: nat)
    | Abort(worker: nat)
    | Finish(worker: nat, succeeded: bool, saved: bool)
    | Release(worker: nat)
    | Crash(worker: nat)

  predicate Live(s: State) {
    s.lock.Some? && s.now < s.lock.value.expires
  }

  predicate Holds(s: State, token: nat) {
    Live(s) && s.lock.value.token == token
  }

  /** Nobody took the lock after the worker with a token, whether or not the lease has run out. */
  predicate HasLock(s: State, token: nat) {
    s.lock.Some? && s.lock.value.token == token
  }

  predicate HasToken(p: Phase) {
    !p.Acquiring?
  }

  function At(s: State, worker: nat, phase: Phase): (next: State)
    requires worker in s.workers
  {
    s.(workers := s.workers[worker := s.workers[worker].(phase := phase)])
  }

  function Gone(s: State, worker: nat): (next: State) {
    s.(workers := s.workers - {worker})
  }

  /** What an event does; one that cannot happen does nothing. */
  function Next(s: State, e: Event): (next: State) {
    match e
    case Tick(time) => s.(now := s.now + time)
    case Submit(id, saved) =>
      if id in s.used then s else
        s.(used := s.used + {id},
          copies := s.copies + {Copy(id, Job(Pending, false))},
          records := if saved then s.records[id := Job(Pending, false)] else s.records)
    case Read(id) =>
      if id in s.records && !Terminal(s.records[id]) then s.(copies := s.copies + {Copy(id, s.records[id])}) else s
    case Overwrite(copy) =>
      if copy in s.copies then s.(records := s.records[copy.id := copy.job.(status := Failed)]) else s
    case TrimRead(id) => if id !in s.records || Terminal(s.records[id]) then s.(trims := s.trims + {id}) else s
    case TrimDelete(id) => if id in s.trims then s.(records := s.records - {id}) else s
    case Expire(id) => s.(records := s.records - {id})
    case Deliver(worker, id) => if worker in s.workers then s else s.(workers := s.workers[worker := Worker(id, Acquiring)])
    case Crash(worker) => Gone(s, worker)
    case _ => if e.worker in s.workers then WorkerNext(s, e, s.workers[e.worker].id, s.workers[e.worker].phase) else s
  }

  /** What a worker's own step does. */
  function WorkerNext(s: State, e: Event, id: nat, phase: Phase): (next: State)
    requires e.Acquire? || e.Renew? || e.Load? || e.Mark? || e.Execute? || e.Abort? || e.Finish? || e.Release?
    requires e.worker in s.workers && s.workers[e.worker] == Worker(id, phase)
  {
    match e
    case Acquire(w, known) =>
      // SET NX with a new token; if its answer is lost, the worker gives up, but the key may be there.
      if !phase.Acquiring? || Live(s) then s else
        var taken := s.(lock := Some(Lease(s.nextToken, s.now + LOCK_TTL)), nextToken := s.nextToken + 1);
        if known then At(taken, w, Holding(s.nextToken)) else Gone(taken, w)
    case Renew(w) =>
      if HasToken(phase) && Holds(s, phase.token) then s.(lock := Some(Lease(phase.token, s.now + LOCK_TTL))) else s
    case Load(w) =>
      if !phase.Holding? then s
      else if id !in s.records || Spent(s.records[id]) then At(s, w, Leaving(phase.token))
      else At(s, w, Loaded(phase.token))
    case Mark(w, ok, saved) =>
      if !phase.Loaded? then s else
        var written := if ok || saved then s.(records := s.records[id := Job(Running, true)]) else s;
        if ok then At(written, w, Marked(phase.token)).(marked := s.marked + {id}) else At(written, w, Leaving(phase.token))
    case Execute(w) =>
      if phase.Marked? then At(s, w, Executed(phase.token)).(executions := s.executions + [id]) else s
    case Abort(w) =>
      if HasToken(phase) && !phase.Executed? then At(s, w, Leaving(phase.token)) else s
    case Finish(w, succeeded, saved) =>
      if !phase.Executed? then s else
        var written :=
          if saved then s.(records := s.records[id := Job(if succeeded then Succeeded else Failed, true)]) else s;
        At(written, w, Leaving(phase.token))
    case Release(w) =>
      if !phase.Leaving? then s else
        var freed := if Holds(s, phase.token) then s.(lock := None) else s;
        Gone(freed, w)
  }

  function Run(s: State, events: seq<Event>): (next: State)
    decreases events
  {
    if events == [] then s else Run(Next(s, events[0]), events[1..])
  }

  /** A run respects the lease if no worker marks a job as started after another took the lock it held. That the lease
      runs out does no harm as long as nobody takes the lock. */
  predicate RespectsLease(s: State, events: seq<Event>)
    decreases events
  {
    events == [] || (InLease(s, events[0]) && RespectsLease(Next(s, events[0]), events[1..]))
  }

  predicate InLease(s: State, e: Event) {
    e.Mark? && e.worker in s.workers && s.workers[e.worker].phase.Loaded? ==> HasLock(s, s.workers[e.worker].phase.token)
  }

  predicate NoDuplicates(ids: seq<nat>) {
    forall i, j :: 0 <= i < j < |ids| ==> ids[i] != ids[j]
  }

  // ---- The invariant ----

  ghost predicate Tokens(s: State) {
    && (s.lock.Some? ==> s.lock.value.token < s.nextToken)
    && (forall w :: w in s.workers && HasToken(s.workers[w].phase) ==> s.workers[w].phase.token < s.nextToken)
    && (forall v, w ::
      v in s.workers && w in s.workers && HasToken(s.workers[v].phase) && HasToken(s.workers[w].phase) && v != w
      ==> s.workers[v].phase.token != s.workers[w].phase.token)
  }

  ghost predicate Known(s: State) {
    && s.records.Keys <= s.used && s.marked <= s.used
    && (forall c :: c in s.copies ==> c.id in s.used)
    && (forall w ::
      w in s.workers && (s.workers[w].phase.Loaded? || s.workers[w].phase.Marked? || s.workers[w].phase.Executed?)
      ==> s.workers[w].id in s.used)
  }

  ghost predicate Once(s: State) {
    // A job marked as started never looks as if it were not.
    && (forall id :: id in s.marked && id in s.records ==> Spent(s.records[id]))
    // A worker about to mark a job is the first, as long as nobody else took the lock.
    && (forall w ::
      w in s.workers && s.workers[w].phase.Loaded? && s.lock.Some? && s.lock.value.token == s.workers[w].phase.token
      ==> s.workers[w].id !in s.marked)
    // A worker about to execute a job is the only one, and the first.
    && (forall w :: w in s.workers && s.workers[w].phase.Marked? ==> s.workers[w].id in s.marked && s.workers[w].id !in s.executions)
    && (forall v, w ::
      v in s.workers && w in s.workers && s.workers[v].phase.Marked? && s.workers[w].phase.Marked? && v != w
      ==> s.workers[v].id != s.workers[w].id)
    && (forall id :: id in s.executions ==> id in s.marked)
    && NoDuplicates(s.executions)
  }

  ghost predicate Invariant(s: State) {
    Tokens(s) && Known(s) && Once(s)
  }

  // ---- Every step keeps the invariant ----

  /** Steps outside any worker touch records and copies only. */
  lemma RecordsKeep(s: State, e: Event)
    requires Invariant(s)
    requires e.Tick? || e.Submit? || e.Read? || e.Overwrite? || e.TrimRead? || e.TrimDelete? || e.Expire?
    ensures Invariant(Next(s, e))
  {
  }

  lemma DeliverKeeps(s: State, w: nat, id: nat)
    requires Invariant(s)
    ensures Invariant(Next(s, Deliver(w, id)))
  {
  }

  lemma GoneKeeps(s: State, w: nat)
    requires Invariant(s)
    ensures Invariant(Gone(s, w))
  {
  }

  lemma AcquireKeeps(s: State, w: nat, known: bool)
    requires Invariant(s)
    ensures Invariant(Next(s, Acquire(w, known)))
  {
  }

  lemma RenewKeeps(s: State, w: nat)
    requires Invariant(s)
    ensures Invariant(Next(s, Renew(w)))
  {
  }

  lemma LoadKeeps(s: State, w: nat)
    requires Invariant(s)
    ensures Invariant(Next(s, Load(w)))
  {
  }

  lemma MarkKeeps(s: State, w: nat, ok: bool, saved: bool)
    requires Invariant(s) && InLease(s, Mark(w, ok, saved))
    ensures Invariant(Next(s, Mark(w, ok, saved)))
  {
  }

  lemma ExecuteKeeps(s: State, w: nat)
    requires Invariant(s)
    ensures Invariant(Next(s, Execute(w)))
  {
  }

  lemma LeaveKeeps(s: State, w: nat)
    requires Invariant(s) && w in s.workers && HasToken(s.workers[w].phase)
    ensures Invariant(At(s, w, Leaving(s.workers[w].phase.token)))
  {
  }

  lemma FinishKeeps(s: State, w: nat, succeeded: bool, saved: bool)
    requires Invariant(s)
    ensures Invariant(Next(s, Finish(w, succeeded, saved)))
  {
  }

  lemma ReleaseKeeps(s: State, w: nat)
    requires Invariant(s)
    ensures Invariant(Next(s, Release(w)))
  {
  }

  lemma NextKeeps(s: State, e: Event)
    requires Invariant(s) && InLease(s, e)
    ensures Invariant(Next(s, e))
  {
    hide Invariant;
    match e {
      case Deliver(w, id) => DeliverKeeps(s, w, id);
      case Crash(w) => GoneKeeps(s, w);
      case Acquire(w, known) => AcquireKeeps(s, w, known);
      case Renew(w) => RenewKeeps(s, w);
      case Load(w) => LoadKeeps(s, w);
      case Mark(w, ok, saved) => MarkKeeps(s, w, ok, saved);
      case Execute(w) => ExecuteKeeps(s, w);
      case Abort(w) =>
        if w in s.workers && HasToken(s.workers[w].phase) {
          LeaveKeeps(s, w);
        }
      case Finish(w, succeeded, saved) => FinishKeeps(s, w, succeeded, saved);
      case Release(w) => ReleaseKeeps(s, w);
      case _ => RecordsKeep(s, e);
    }
  }

  // ---- Whole runs ----

  lemma {:induction false} RunKeeps(s: State, events: seq<Event>)
    requires Invariant(s) && RespectsLease(s, events)
    ensures Invariant(Run(s, events))
    decreases events
  {
    hide Invariant, InLease;
    if events != [] {
      NextKeeps(s, events[0]) by {
        assert RespectsLease(s, events);
      }
      RunKeeps(Next(s, events[0]), events[1..]);
    }
  }

  /** In every run that respects the lease, whatever is delivered again, crashes, fails or is overwritten, each job is
      executed once at most, and the record of an executed job never again looks as if it had not been started. */
  lemma AtMostOnce(events: seq<Event>)
    requires RespectsLease(INITIAL, events)
    ensures var s := Run(INITIAL, events);
      && NoDuplicates(s.executions)
      && forall id :: id in s.executions && id in s.records ==> Spent(s.records[id])
  {
    RunKeeps(INITIAL, events);
  }

  // ---- Outcomes ----

  /** One delivery of a task to a worker, undisturbed. */
  function Delivery(worker: nat, id: nat, succeeded: bool): (events: seq<Event>) {
    [Deliver(worker, id), Acquire(worker, true), Load(worker), Mark(worker, true, true), Execute(worker),
      Finish(worker, succeeded, true), Release(worker)]
  }

  /** From every state in which nobody has the lock, one undisturbed delivery of a job that is not started executes it
      once, records how that ended, and gives the lock back. */
  lemma DeliveryCompletes(s: State, worker: nat, id: nat, succeeded: bool)
    requires worker !in s.workers && id in s.records && !Spent(s.records[id]) && !Live(s)
    ensures
      var t := Run(s, Delivery(worker, id, succeeded));
      && t.executions == s.executions + [id]
      && t.records == s.records[id := Job(if succeeded then Succeeded else Failed, true)]
      && t.lock == None && t.workers == s.workers
  {
    hide Run;
    var t := Begun(s, worker, id, succeeded);
    var events := Delivery(worker, id, succeeded);
    t := Step(t, events, 3);
    t := Step(t, events, 4);
    t := Step(t, events, 5);
    t := Step(t, events, 6);
    assert t.workers == s.workers;
    assert events[7..] == [];
    Ended(t);
  }

  lemma Begun(s: State, worker: nat, id: nat, succeeded: bool) returns (t: State)
    requires worker !in s.workers && id in s.records && !Spent(s.records[id]) && !Live(s)
    ensures Run(s, Delivery(worker, id, succeeded)) == Run(t, Delivery(worker, id, succeeded)[3..])
    ensures t.workers == s.workers[worker := Worker(id, Loaded(s.nextToken))] && Holds(t, s.nextToken)
    ensures t.executions == s.executions && t.records == s.records
  {
    var events := Delivery(worker, id, succeeded);
    assert events[0..] == events;
    t := Step(s, events, 0);
    t := Step(t, events, 1);
    t := Step(t, events, 2);
  }

  lemma Ended(s: State)
    ensures Run(s, []) == s
  {
  }

  /** A worker that has executed a job reports success. */
  predicate Succeeds(s: State, e: Event, id: nat) {
    e.Finish? && e.succeeded && e.worker in s.workers && s.workers[e.worker].id == id && s.workers[e.worker].phase.Executed?
  }

  ghost predicate SucceedsAt(s: State, events: seq<Event>, k: nat, id: nat) {
    k < |events| && Succeeds(Run(s, events[..k]), events[k], id)
  }

  predicate RecordedSucceeded(s: State, id: nat) {
    id in s.records && s.records[id].status.Succeeded?
  }

  /** A record says that a job succeeded only if a worker that had executed it reported so, in any run at all. */
  lemma {:induction false} SuccessIsTrue(s: State, events: seq<Event>, id: nat)
    requires RecordedSucceeded(Run(s, events), id)
    ensures RecordedSucceeded(s, id) || exists k: nat :: SucceedsAt(s, events, k, id)
    decreases events
  {
    if events != [] {
      var e, rest := events[0], events[1..];
      SuccessIsTrue(Next(s, e), rest, id);
      if RecordedSucceeded(Next(s, e), id) {
        OnlyFinishing(s, e, id);
        assert Succeeds(s, e, id) ==> SucceedsAt(s, events, 0, id);
      } else {
        var k: nat :| SucceedsAt(Next(s, e), rest, k, id);
        assert events[..k + 1][0] == e && events[..k + 1][1..] == rest[..k];
        assert SucceedsAt(s, events, k + 1, id);
      }
    }
  }

  /** Copies are of jobs that have not succeeded, so only a report makes a record say so. */
  lemma OnlyFinishing(s: State, e: Event, id: nat)
    requires RecordedSucceeded(Next(s, e), id)
    ensures RecordedSucceeded(s, id) || Succeeds(s, e, id)
  {
  }

  // ---- The lease decides ----

  /** What can happen after a worker's lease ran out: another worker takes the lock and executes the job, and the first
      one goes on. */
  function Race(first: nat, second: nat, id: nat): (events: seq<Event>) {
    [Deliver(second, id), Acquire(second, true), Load(second), Mark(second, true, true), Execute(second),
      Mark(first, true, true), Execute(first)]
  }

  /** A worker has loaded a job, but its lease has run out. */
  predicate Lapsed(s: State, worker: nat, id: nat) {
    && worker in s.workers && s.workers[worker].phase.Loaded? && s.workers[worker].id == id
    && id in s.records && !Spent(s.records[id])
    && !Live(s)
  }

  /** From every state in which a worker has loaded a job and its lease has run out, the job can be executed twice, and
      without any more time passing: the code looks at the lease no more before it marks the job. */
  lemma LeaseIsNeeded(s: State, first: nat, second: nat, id: nat)
    requires Lapsed(s, first, id) && second !in s.workers
    ensures Run(s, Race(first, second, id)).executions == s.executions + [id, id]
  {
    hide Next, Run, Race;
    var t := SecondLoads(s, first, second, id);
    t := SecondExecutes(s, t, first, second, id);
    t := FirstExecutes(s, t, first, second, id);
  }

  lemma SecondLoads(s: State, first: nat, second: nat, id: nat) returns (t: State)
    requires Lapsed(s, first, id) && second !in s.workers
    ensures Run(s, Race(first, second, id)) == Run(t, Race(first, second, id)[3..])
    ensures first in t.workers && t.workers[first] == s.workers[first] && t.executions == s.executions
    ensures second in t.workers && t.workers[second] == Worker(id, Loaded(s.nextToken))
  {
    var race := Race(first, second, id);
    assert race[0..] == race;
    t := Step(s, race, 0);
    t := Step(t, race, 1);
    t := Step(t, race, 2);
  }

  lemma SecondExecutes(s: State, t: State, first: nat, second: nat, id: nat) returns (u: State)
    requires Lapsed(s, first, id) && second !in s.workers
    requires first in t.workers && t.workers[first] == s.workers[first] && t.executions == s.executions
    requires second in t.workers && t.workers[second] == Worker(id, Loaded(s.nextToken))
    ensures Run(t, Race(first, second, id)[3..]) == Run(u, Race(first, second, id)[5..])
    ensures first in u.workers && u.workers[first] == s.workers[first] && u.executions == s.executions + [id]
  {
    u := Step(t, Race(first, second, id), 3);
    u := Step(u, Race(first, second, id), 4);
  }

  lemma FirstExecutes(s: State, t: State, first: nat, second: nat, id: nat) returns (u: State)
    requires Lapsed(s, first, id) && second !in s.workers
    requires first in t.workers && t.workers[first] == s.workers[first] && t.executions == s.executions + [id]
    ensures Run(t, Race(first, second, id)[5..]) == u && u.executions == s.executions + [id, id]
  {
    u := Step(t, Race(first, second, id), 5);
    u := Step(u, Race(first, second, id), 6);
    assert Race(first, second, id)[7..] == [];
    assert s.executions + [id] + [id] == s.executions + [id, id];
  }

  lemma Step(s: State, events: seq<Event>, i: nat) returns (t: State)
    requires i < |events|
    ensures t == Next(s, events[i]) && Run(s, events[i..]) == Run(t, events[i + 1..])
  {
    t := Next(s, events[i]);
    assert events[i..][1..] == events[i + 1..];
  }

  /** No time passes. */
  predicate Instant(events: seq<Event>) {
    forall e :: e in events ==> !e.Tick?
  }

  /** The lock, if it is there, has not run out, and is that of every worker that may yet mark a job. */
  ghost predicate Current(s: State) {
    && (s.lock.Some? ==> Live(s))
    && forall w ::
      w in s.workers && (s.workers[w].phase.Holding? || s.workers[w].phase.Loaded?) ==> HasLock(s, s.workers[w].phase.token)
  }

  lemma StaysCurrent(s: State, e: Event)
    requires Tokens(s) && Current(s) && !e.Tick?
    ensures InLease(s, e) && Current(Next(s, e))
  {
  }

  lemma {:induction false} CurrentRespects(s: State, events: seq<Event>)
    requires Invariant(s) && Current(s) && Instant(events)
    ensures RespectsLease(s, events)
    decreases events
  {
    if events != [] {
      hide Next, Known, Once, Current, Tokens;
      assert events[0] in events && forall e :: e in events[1..] ==> e in events;
      StaysCurrent(s, events[0]);
      NextKeeps(s, events[0]);
      CurrentRespects(Next(s, events[0]), events[1..]);
    }
  }

  /** One worker has loaded a job under the lock, and no other worker is that far. */
  ghost predicate Alone(s: State, worker: nat) {
    && Invariant(s)
    && worker in s.workers && s.workers[worker].phase.Loaded? && HasLock(s, s.workers[worker].phase.token)
    && s.workers[worker].id in s.records && !Spent(s.records[s.workers[worker].id])
    && forall v ::
      v in s.workers && v != worker ==> !s.workers[v].phase.Holding? && !s.workers[v].phase.Loaded?
  }

  /** The lease is what it takes: while a worker has loaded a job and nobody took the lock from it, jobs are executed once
      at most, whatever happens before any more time passes, if and only if its lease has not run out. */
  lemma LeaseDecides(s: State, worker: nat)
    requires Alone(s, worker)
    ensures Live(s) <==> forall events :: Instant(events) ==> NoDuplicates(Run(s, events).executions)
  {
    if Live(s) {
      forall events | Instant(events)
        ensures NoDuplicates(Run(s, events).executions)
      {
        CurrentRespects(s, events);
        RunKeeps(s, events);
      }
    } else {
      var id, second := s.workers[worker].id, Unused(s.workers.Keys);
      LeaseIsNeeded(s, worker, second, id);
      var twice := Run(s, Race(worker, second, id)).executions;
      assert Instant(Race(worker, second, id));
      assert twice[|s.executions|] == twice[|s.executions| + 1] == id;
    }
  }

  /** A number greater than all those in a set. */
  ghost function Unused(ids: set<nat>): (n: nat)
    ensures forall m :: m in ids ==> m < n
  {
    if ids == {} then 0 else
      var m :| m in ids;
      var n := Unused(ids - {m});
      assert forall k :: k in ids ==> k == m || k in ids - {m};
      if m < n then n else m + 1
  }

  // ---- The lease ----

  /** Whether a step is the lock's holder giving it up. */
  predicate GivesUp(s: State, e: Event, token: nat) {
    e.Release? && e.worker in s.workers && s.workers[e.worker].phase == Leaving(token)
  }

  predicate NeverGivesUp(s: State, events: seq<Event>, token: nat)
    decreases events
  {
    events == [] || (!GivesUp(s, events[0], token) && NeverGivesUp(Next(s, events[0]), events[1..], token))
  }

  predicate HeldUntil(s: State, token: nat, expires: nat) {
    s.lock.Some? && s.lock.value.token == token && s.lock.value.expires >= expires
  }

  lemma {:induction false} TimePasses(s: State, events: seq<Event>)
    ensures s.now <= Run(s, events).now
    decreases events
  {
    if events != [] {
      TimePasses(Next(s, events[0]), events[1..]);
    }
  }

  /** Until it expires, nobody but its holder can take the lock away: not by a renewal or a release under a token of
      their own, and not by acquiring it. */
  lemma {:induction false} LeaseIsExclusive(s: State, events: seq<Event>, token: nat, expires: nat)
    requires HeldUntil(s, token, expires) && NeverGivesUp(s, events, token)
    requires Run(s, events).now < expires <= s.now + LOCK_TTL
    ensures HeldUntil(Run(s, events), token, expires)
    decreases events
  {
    if events != [] {
      TimePasses(s, events);
      TimePasses(Next(s, events[0]), events[1..]);
      assert HeldUntil(Next(s, events[0]), token, expires);
      LeaseIsExclusive(Next(s, events[0]), events[1..], token, expires);
    }
  }

  /** Every step that a worker makes under a token leaves the lock alone. */
  predicate LeavesLock(s: State, events: seq<Event>, token: nat)
    decreases events
  {
    events == [] || (
      && (Acts(s, events[0], token) ==> Next(s, events[0]).lock == s.lock)
      && LeavesLock(Next(s, events[0]), events[1..], token))
  }

  predicate Acts(s: State, e: Event, token: nat) {
    && (e.Renew? || e.Load? || e.Mark? || e.Execute? || e.Abort? || e.Finish? || e.Release? || e.Crash?)
    && e.worker in s.workers && HasToken(s.workers[e.worker].phase) && s.workers[e.worker].phase.token == token
  }

  /** Once a worker's lease has passed to another, that worker never again extends or removes the lock, whoever holds it
      and whatever happens in between. */
  lemma {:induction false} LapsedIsHarmless(s: State, token: nat, events: seq<Event>)
    requires token < s.nextToken && !HasLock(s, token)
    ensures LeavesLock(s, events, token) && !HasLock(Run(s, events), token)
    decreases events
  {
    if events != [] {
      LapsedIsHarmless(Next(s, events[0]), token, events[1..]);
    }
  }
}
