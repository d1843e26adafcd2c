/**
 The job table of one connection. Creating a job checks and inserts under a
 transaction lock and is one step; everything else interleaves freely: a worker
 claims a job it read earlier without looking again, and one whose job was
 closed as stale goes on touching and finishing it.
 Times are milliseconds.
 */
module SyncJobs {
  import opened Base

  datatype JobType = Full | Incremental | Webhook
  datatype Status = Queued | Running | Success | Failed

  /** `sawSnapshot` is the connection's lastFullSyncAt as loaded with the job when it was claimed. */
  datatype Job = Job(kind: JobType, status: Status, heartbeatAt: Option<int>, startedAt: Option<int>, createdAt: int,
                     sawSnapshot: bool)

  datatype Table = Table(
    now: int,
    jobs: map<nat, Job>,
    hasSnapshot: bool,     // lastFullSyncAt is set
    hasPulled: bool,       // lastIncrementalSyncAt is set
    fullSucceeded: bool)   // some full pull was marked SUCCESS: history, not a column

  predicate Active(j: Job) {
    j.status.Queued? || j.status.Running?
  }

  predicate ActivePull(j: Job) {
    Active(j) && !j.kind.Webhook?
  }

  predicate ActiveWebhook(j: Job) {
    Active(j) && j.kind.Webhook?
  }

  predicate ActiveFull(j: Job) {
    Active(j) && j.kind.Full?
  }

  /** How long a job may be silent: FULL, WEBHOOK and INCREMENTAL each have their own limit. */
  datatype Timeouts = Timeouts(full: nat, webhook: nat, incremental: nat)

  function Timeout(t: Timeouts, kind: JobType): nat {
    match kind
    case Full => t.full
    case Webhook => t.webhook
    case Incremental => t.incremental
  }

  function LastSign(j: Job): int {
    match j.heartbeatAt
    case Some(at) => at
    case None => match j.startedAt case Some(at) => at case None => j.createdAt
  }

  predicate Stale(t: Timeouts, now: int, j: Job) {
    Active(j) && LastSign(j) < now - Timeout(t, j.kind)
  }

  function NewJob(kind: JobType, now: int): Job {
    Job(kind, Queued, Some(now), None, now, false)
  }

  /** The first pull is always a full one. */
  function ResolveType(w: Table, requested: JobType): JobType {
    if requested.Full? || (!w.hasSnapshot && !w.hasPulled) then Full else requested
  }

  // ----- steps -----

  datatype Action =
    | Tick(to: int)
    | CreatePull(id: nat, requested: JobType)
    | CreateWebhook(id: nat)
    | Claim(id: nat)
    | Touch(id: nat)
    | Finish(id: nat, ok: bool, recorded: bool)
    | Expire

  ghost predicate PullFree(w: Table) {
    forall id <- w.jobs :: !ActivePull(w.jobs[id])
  }

  ghost predicate WebhookFree(w: Table) {
    w.hasSnapshot && forall id <- w.jobs :: !ActiveFull(w.jobs[id]) && !ActiveWebhook(w.jobs[id])
  }

  ghost predicate Enabled(w: Table, a: Action) {
    match a
    case Tick(to) => w.now <= to
    case CreatePull(id, requested) => id !in w.jobs && !requested.Webhook? && PullFree(w)
    case CreateWebhook(id) => id !in w.jobs && WebhookFree(w)
    case Claim(id) => id in w.jobs
    case Touch(id) => id in w.jobs && w.jobs[id].startedAt.Some?
    case Finish(id, _, _) => id in w.jobs && w.jobs[id].startedAt.Some?
    case Expire => true
  }

  function With(w: Table, id: nat, j: Job): Table {
    w.(jobs := w.jobs[id := j])
  }

  /** Claiming writes RUNNING whatever the row holds by then: the worker read it earlier and does not look again. */
  function Claimed(w: Table, id: nat): Table
    requires id in w.jobs
  {
    With(w, id, w.jobs[id].(status := Running, startedAt := Some(w.now), heartbeatAt := Some(w.now),
                            sawSnapshot := w.hasSnapshot))
  }

  function Touched(w: Table, id: nat): Table
    requires id in w.jobs
  {
    With(w, id, w.jobs[id].(heartbeatAt := Some(w.now)))
  }

  /**
   The end of a job writes its row and then, unless the worker dies between the
   two, the connection: lastFullSyncAt is the new one after a full pull, else
   the one the job loaded.
   */
  function Finished(w: Table, id: nat, ok: bool, recorded: bool): Table
    requires id in w.jobs
  {
    var j := w.jobs[id];
    var w' := With(w, id, j.(status := if ok then Success else Failed, heartbeatAt := Some(w.now)));
    if !ok then w'
    else
      var w'' := w'.(fullSucceeded := w.fullSucceeded || j.kind.Full?);
      if !recorded then w''
      else w''.(hasSnapshot := j.kind.Full? || j.sawSnapshot, hasPulled := w.hasPulled || !j.kind.Webhook?)
  }

  function Expired(w: Table, t: Timeouts): Table {
    w.(jobs := map id | id in w.jobs ::
                 if Stale(t, w.now, w.jobs[id]) then w.jobs[id].(status := Failed) else w.jobs[id])
  }

  ghost function Next(w: Table, t: Timeouts, a: Action): Table
    requires Enabled(w, a)
  {
    match a
    case Tick(to) => w.(now := to)
    case CreatePull(id, requested) => With(w, id, NewJob(ResolveType(w, requested), w.now))
    case CreateWebhook(id) => With(w, id, NewJob(Webhook, w.now))
    case Claim(id) => Claimed(w, id)
    case Touch(id) => Touched(w, id)
    case Finish(id, ok, recorded) => Finished(w, id, ok, recorded)
    case Expire => Expired(w, t)
  }

  ghost predicate Initial(w: Table) {
    w.jobs == map[] && !w.hasSnapshot && !w.hasPulled && !w.fullSucceeded
  }

  ghost predicate IsStep(w: Table, t: Timeouts, a: Action, w': Table) {
    Enabled(w, a) && w' == Next(w, t, a)
  }

  /** The tables of a run and the actions between them. */
  ghost predicate IsRun(run: seq<Table>, acts: seq<Action>, t: Timeouts) {
    && |run| == |acts| + 1 && Initial(run[0])
    && (forall i :: 0 <= i < |acts| ==> IsStep(run[i], t, acts[i], run[i + 1]))
  }

  // ----- the invariant -----

  ghost predicate OnePull(w: Table) {
    forall a <- w.jobs, b <- w.jobs :: ActivePull(w.jobs[a]) && ActivePull(w.jobs[b]) ==> a == b
  }

  ghost predicate OneWebhook(w: Table) {
    forall a <- w.jobs, b <- w.jobs :: ActiveWebhook(w.jobs[a]) && ActiveWebhook(w.jobs[b]) ==> a == b
  }

  /**
   lastFullSyncAt is set only after a full pull has succeeded. Every other job
   was created after that and knows it, so none writes an empty value back.
   */
  ghost predicate SnapshotFirst(w: Table) {
    && (w.hasSnapshot ==> w.fullSucceeded) && (w.hasPulled ==> w.hasSnapshot)
    && (forall id <- w.jobs :: !w.jobs[id].kind.Full? ==>
          w.hasSnapshot && (w.jobs[id].startedAt.Some? ==> w.jobs[id].sawSnapshot))
  }

  ghost predicate Unique(w: Table) {
    OnePull(w) && OneWebhook(w)
  }

  lemma StepKeepsSnapshot(w: Table, t: Timeouts, a: Action)
    requires SnapshotFirst(w) && Enabled(w, a)
    ensures SnapshotFirst(Next(w, t, a))
  {
  }

  /** Whatever is claimed, in every state of every run lastFullSyncAt is set only after a full pull has succeeded. */
  lemma {:induction false} EveryRunKnowsItsSnapshot(run: seq<Table>, acts: seq<Action>, t: Timeouts, k: nat)
    requires IsRun(run, acts, t) && k < |run|
    ensures SnapshotFirst(run[k])
  {
    if k > 0 {
      EveryRunKnowsItsSnapshot(run, acts, t, k - 1);
      assert IsStep(run[k - 1], t, acts[k - 1], run[k - 1 + 1]);
      hide SnapshotFirst;
      StepKeepsSnapshot(run[k - 1], t, acts[k - 1]);
    }
  }

  // ----- the claim does not check again -----

  /** A claim of an active job, or of a closed one while no other job of its kind, pull or webhook, is active. */
  ghost predicate SafeClaim(w: Table, a: Action) {
    a.Claim? && a.id in w.jobs ==>
      var kind := w.jobs[a.id].kind;
      Active(w.jobs[a.id]) || forall x <- w.jobs :: Active(w.jobs[x]) ==> w.jobs[x].kind.Webhook? != kind.Webhook?
  }

  lemma OtherStepsKeepUnique(w: Table, t: Timeouts, a: Action)
    requires Unique(w) && Enabled(w, a) && !a.Claim?
    ensures Unique(Next(w, t, a))
  {
    OtherStepsKeepPull(w, t, a);
    OtherStepsKeepWebhook(w, t, a);
  }

  lemma OtherStepsKeepPull(w: Table, t: Timeouts, a: Action)
    requires OnePull(w) && Enabled(w, a) && !a.Claim?
    ensures OnePull(Next(w, t, a))
  {
  }

  lemma OtherStepsKeepWebhook(w: Table, t: Timeouts, a: Action)
    requires OneWebhook(w) && Enabled(w, a) && !a.Claim?
    ensures OneWebhook(Next(w, t, a))
  {
  }

  /** A step keeps at most one active job of each kind exactly when it is no claim or a safe one. */
  lemma StepKeepsUniqueIff(w: Table, t: Timeouts, a: Action)
    requires Unique(w) && Enabled(w, a)
    ensures Unique(Next(w, t, a)) <==> SafeClaim(w, a)
  {
    if !a.Claim? {
      OtherStepsKeepUnique(w, t, a);
    } else {
      var w', job := Claimed(w, a.id), w.jobs[a.id];
      assert Active(w'.jobs[a.id]);
      if !SafeClaim(w, a) {
        var other :| other in w.jobs && Active(w.jobs[other]) && w.jobs[other].kind.Webhook? == job.kind.Webhook?;
        assert w'.jobs[other] == w.jobs[other];
      }
    }
  }

  /**
   At most one pull and one webhook job are active in every state of a run if
   and only if every claim of the run is safe.
   */
  lemma EveryRunIsUniqueIff(run: seq<Table>, acts: seq<Action>, t: Timeouts)
    requires IsRun(run, acts, t)
    ensures (forall k :: 0 <= k < |run| ==> Unique(run[k])) <==>
            (forall k :: 0 <= k < |acts| ==> SafeClaim(run[k], acts[k]))
  {
    hide Enabled, Next, SafeClaim;
    if forall k :: 0 <= k < |acts| ==> SafeClaim(run[k], acts[k]) {
      forall k | 0 <= k < |run|
        ensures Unique(run[k])
      {
        SafeRunIsUnique(run, acts, t, k);
      }
    }
    if forall k :: 0 <= k < |run| ==> Unique(run[k]) {
      forall k | 0 <= k < |acts|
        ensures SafeClaim(run[k], acts[k])
      {
        assert IsStep(run[k], t, acts[k], run[k + 1]);
        assert Unique(run[k]) && Unique(run[k + 1]);
        StepKeepsUniqueIff(run[k], t, acts[k]);
      }
    }
  }

  lemma {:induction false} SafeRunIsUnique(run: seq<Table>, acts: seq<Action>, t: Timeouts, k: nat)
    requires IsRun(run, acts, t) && k < |run| && forall i :: 0 <= i < |acts| ==> SafeClaim(run[i], acts[i])
    ensures Unique(run[k])
  {
    if k > 0 {
      SafeRunIsUnique(run, acts, t, k - 1);
      assert IsStep(run[k - 1], t, acts[k - 1], run[k - 1 + 1]);
      assert SafeClaim(run[k - 1], acts[k - 1]);
      hide Unique, SafeClaim;
      StepKeepsUniqueIff(run[k - 1], t, acts[k - 1]);
    }
  }

  /** A job read while queued, closed as stale, replaced, and only then claimed gives two active pulls. */
  lemma LateClaimBreaks(t: Timeouts) returns (run: seq<Table>, acts: seq<Action>)
    ensures IsRun(run, acts, t) && !OnePull(run[|run| - 1])
  {
    acts := [CreatePull(1, Full), Tick(t.full + 1), Expire, CreatePull(2, Full), Claim(1)];
    var w0 := Table(0, map[], false, false, false);
    var w1 := Next(w0, t, acts[0]);
    var w2 := Next(w1, t, acts[1]);
    var w3 := Next(w2, t, acts[2]);
    assert w3.jobs[1].status.Failed?;
    assert PullFree(w3);
    var w4 := Next(w3, t, acts[3]);
    var w5 := Next(w4, t, acts[4]);
    run := [w0, w1, w2, w3, w4, w5];
    assert IsStep(w0, t, acts[0], w1) && IsStep(w1, t, acts[1], w2) && IsStep(w2, t, acts[2], w3);
    assert IsStep(w3, t, acts[3], w4) && IsStep(w4, t, acts[4], w5);
    assert ActivePull(w5.jobs[1]) && ActivePull(w5.jobs[2]);
  }

  // ----- closed jobs -----

  /** What time does to jobs: none disappears, a closed one stays closed, and a snapshot once taken stays known. */
  ghost predicate Settles(w: Table, w': Table) {
    && (forall id <- w.jobs :: id in w'.jobs && (Active(w'.jobs[id]) ==> Active(w.jobs[id])))
    && (w.hasSnapshot ==> w'.hasSnapshot)
  }

  ghost predicate Reopens(w: Table, a: Action) {
    a.Claim? && a.id in w.jobs && !Active(w.jobs[a.id])
  }

  /** Only the claim of a closed job makes a closed job active again: no touch, finish or expiry does, however late. */
  lemma StepSettlesIff(w: Table, t: Timeouts, a: Action)
    requires SnapshotFirst(w) && Enabled(w, a)
    ensures Settles(w, Next(w, t, a)) <==> !Reopens(w, a)
  {
    if w.hasSnapshot {
      SnapshotStays(w, t, a);
    }
    if Reopens(w, a) {
      assert Active(Next(w, t, a).jobs[a.id]);
    } else {
      JobsSettle(w, t, a);
      hide SnapshotFirst, Enabled, Next, Reopens;
    }
  }

  lemma SnapshotStays(w: Table, t: Timeouts, a: Action)
    requires SnapshotFirst(w) && Enabled(w, a) && w.hasSnapshot
    ensures Next(w, t, a).hasSnapshot
  {
  }

  lemma JobsSettle(w: Table, t: Timeouts, a: Action)
    requires Enabled(w, a) && !Reopens(w, a)
    ensures var w' := Next(w, t, a);
            forall id <- w.jobs :: id in w'.jobs && (Active(w'.jobs[id]) ==> Active(w.jobs[id]))
  {
  }

  /** Over any stretch of a run in which no closed job is claimed, closed jobs stay closed, late workers or not. */
  lemma {:induction false} ClosedStaysClosed(run: seq<Table>, acts: seq<Action>, t: Timeouts, i: nat, j: nat)
    requires IsRun(run, acts, t) && i <= j < |run| && forall k :: i <= k < j ==> !Reopens(run[k], acts[k])
    ensures Settles(run[i], run[j])
    decreases j - i
  {
    if i < j {
      ClosedStaysClosed(run, acts, t, i, j - 1);
      EveryRunKnowsItsSnapshot(run, acts, t, j - 1);
      StepOf(run, acts, t, j - 1);
      assert !Reopens(run[j - 1], acts[j - 1]);
      hide *;
      StepSettlesIff(run[j - 1], t, acts[j - 1]);
      SettlesOn(run[i], run[j - 1], run[j]);
    } else {
      SettlesAlready(run[i]);
    }
  }

  lemma StepOf(run: seq<Table>, acts: seq<Action>, t: Timeouts, k: nat)
    requires IsRun(run, acts, t) && k < |acts|
    ensures Enabled(run[k], acts[k]) && run[k + 1] == Next(run[k], t, acts[k])
  {
    hide Enabled, Next;
    assert IsStep(run[k], t, acts[k], run[k + 1]);
  }

  lemma SettlesAlready(w: Table)
    ensures Settles(w, w)
  {
  }

  lemma SettlesOn(w: Table, w': Table, w'': Table)
    requires Settles(w, w') && Settles(w', w'')
    ensures Settles(w, w'')
  {
  }

  /** A webhook job appears only after a full pull has succeeded and while none is active. */
  lemma WebhooksWaitForSnapshot(w: Table, t: Timeouts, a: Action, id: nat)
    requires SnapshotFirst(w) && Enabled(w, a)
    requires id !in w.jobs && id in Next(w, t, a).jobs && Next(w, t, a).jobs[id].kind.Webhook?
    ensures w.fullSucceeded && w.hasSnapshot
    ensures forall x <- w.jobs :: w.jobs[x].kind == Full ==> w.jobs[x].status !in {Queued, Running}
    ensures forall x <- w.jobs :: w.jobs[x].kind == Webhook ==> w.jobs[x].status !in {Queued, Running}
  {
  }

  /**
   The job that a pull request creates: queued, a sign of life at once, and full
   if and only if that was asked for or no pull of the connection was ever recorded.
   It is created exactly while no other pull is queued or running.
   */
  lemma FirstPullIsFull(w: Table, t: Timeouts, id: nat, requested: JobType)
    requires id !in w.jobs && !requested.Webhook?
    ensures Enabled(w, CreatePull(id, requested)) <==>
            forall x <- w.jobs :: w.jobs[x].status in {Queued, Running} ==> w.jobs[x].kind == Webhook
    ensures Enabled(w, CreatePull(id, requested)) ==>
              var w' := Next(w, t, CreatePull(id, requested));
              && id in w'.jobs && w'.jobs[id].status == Queued
              && w'.jobs[id].heartbeatAt == Some(w.now) && w'.jobs[id].startedAt == None
              && w'.jobs[id].createdAt == w.now
              && (w'.jobs[id].kind == Full <==> requested == Full || !(w.hasSnapshot || w.hasPulled))
              && (w'.jobs[id].kind != Full ==> w'.jobs[id].kind == requested)
              && forall x <- w.jobs :: x in w'.jobs && w'.jobs[x] == w.jobs[x]
  {
    hide LastSign, Timeout;
  }

  /** A full pull whose end was recorded opens the webhook queue, as soon as no other such job is under way. */
  lemma FullPullOpensWebhooks(w: Table, t: Timeouts, id: nat, hook: nat)
    requires Enabled(w, Finish(id, true, true)) && w.jobs[id].kind == Full && hook !in w.jobs
    ensures var w' := Next(w, t, Finish(id, true, true));
            && w'.jobs[id].status == Success && w'.hasSnapshot && w'.hasPulled
            && (Enabled(w', CreateWebhook(hook)) <==>
                  forall x <- w.jobs ::
                    x != id && w.jobs[x].status in {Queued, Running} ==> w.jobs[x].kind == Incremental)
  {
    var w' := Next(w, t, Finish(id, true, true));
    assert w'.jobs.Keys == w.jobs.Keys;
    assert forall x <- w.jobs :: x != id ==> w'.jobs[x] == w.jobs[x];
  }

  /** An end that was not recorded, or not a success, leaves the connection as it was. */
  lemma UnrecordedEndChangesNoConnection(w: Table, t: Timeouts, id: nat, ok: bool, recorded: bool)
    requires Enabled(w, Finish(id, ok, recorded))
    ensures var w' := Next(w, t, Finish(id, ok, recorded));
            && w'.jobs[id].status == (if ok then Success else Failed)
            && (!ok || !recorded ==> w'.hasSnapshot == w.hasSnapshot && w'.hasPulled == w.hasPulled)
            && (ok && recorded && w.jobs[id].kind != Full ==>
                  && w'.hasSnapshot == w.jobs[id].sawSnapshot
                  && w'.hasPulled == (w.hasPulled || w.jobs[id].kind == Incremental))
  {
  }

  /**
   The pull and the webhook transaction hold different locks. A full pull that is
   inserted between a webhook's check and its insert gives the table of the
   enabled order: the webhook job first, the full pull right after it.
   */
  lemma RacingInsertsAreCovered(w: Table, t: Timeouts, hook: nat, pull: nat)
    requires hook != pull && Enabled(w, CreateWebhook(hook)) && Enabled(w, CreatePull(pull, Full))
    ensures var first := Next(w, t, CreateWebhook(hook));
            && Enabled(first, CreatePull(pull, Full))
            && Next(first, t, CreatePull(pull, Full))
                 == With(Next(w, t, CreatePull(pull, Full)), hook, NewJob(Webhook, w.now))
  {
    var raced := With(Next(w, t, CreatePull(pull, Full)), hook, NewJob(Webhook, w.now));
    assert Next(Next(w, t, CreateWebhook(hook)), t, CreatePull(pull, Full)).jobs == raced.jobs;
  }

  // ----- expiry -----

  /** After closing stale jobs the queue is free unless a worker has shown itself within its limit. */
  lemma ExpiryFreesTheQueue(w: Table, t: Timeouts)
    ensures PullFree(Expired(w, t)) <==>
            forall id <- w.jobs :: ActivePull(w.jobs[id]) ==> LastSign(w.jobs[id]) < w.now - Timeout(t, w.jobs[id].kind)
  {
    hide LastSign, Timeout;
    var w' := Expired(w, t);
    assert forall id <- w.jobs :: ActivePull(w'.jobs[id]) <==> ActivePull(w.jobs[id]) && !Stale(t, w.now, w.jobs[id]);
    assert w'.jobs.Keys == w.jobs.Keys;
  }

  /**
   Expiry closes an active job exactly when its last sign of life, its heartbeat
   or else its start or else its creation, is older than the limit of its kind.
   */
  lemma ExpiryClosesSilentJobs(w: Table, t: Timeouts, id: nat)
    requires id in w.jobs
    ensures var j, j' := w.jobs[id], Expired(w, t).jobs[id];
            var limit := if j.kind == Full then t.full else if j.kind == Webhook then t.webhook else t.incremental;
            var sign := if j.heartbeatAt != None then j.heartbeatAt.value
                        else if j.startedAt != None then j.startedAt.value else j.createdAt;
            j' == if j.status in {Queued, Running} && sign < w.now - limit then j.(status := Failed) else j
  {
  }

  /** So a heartbeat, or the claim itself, keeps a job for exactly that limit. */
  lemma HeartbeatKeepsJob(w: Table, t: Timeouts, id: nat, later: int)
    requires id in w.jobs && Active(w.jobs[id]) && w.now <= later
    ensures var job, kind := Expired(Touched(w, id).(now := later), t).jobs[id], w.jobs[id].kind;
            var limit := if kind == Full then t.full else if kind == Webhook then t.webhook else t.incremental;
            if later - w.now <= limit then job == w.jobs[id].(heartbeatAt := Some(w.now)) else job.status == Failed
    ensures var job, kind := Expired(Claimed(w, id).(now := later), t).jobs[id], w.jobs[id].kind;
            var limit := if kind == Full then t.full else if kind == Webhook then t.webhook else t.incremental;
            job.startedAt == Some(w.now) && job.sawSnapshot == w.hasSnapshot && job.kind == kind
            && job.status == if later - w.now <= limit then Running else Failed
  {
  }

  // ----- the operations -----

  datatype Response =
    | Ignored | Busy | Idle | WaitingFullSnapshot | WaitingInitialSnapshot
    | Existing(id: nat)
    | Created(id: nat)

  class JobQueue {
    const timeouts: Timeouts
    var now: int
    var jobs: map<nat, Job>
    var hasSnapshot: bool
    var hasPulled: bool
    ghost var fullSucceeded: bool

    ghost function View(): Table
      reads this
    {
      Table(now, jobs, hasSnapshot, hasPulled, fullSucceeded)
    }

    constructor (timeouts: Timeouts, now: int)
      ensures Initial(View()) && this.timeouts == timeouts && this.now == now
    {
      this.timeouts, this.now, jobs, hasSnapshot, hasPulled, fullSucceeded := timeouts, now, map[], false, false, false;
    }

    method ExpireStaleJobs() returns (count: nat)
      modifies this`jobs
      ensures View() == Next(old(View()), timeouts, Expire)
      ensures count == 0 <==> View() == old(View())
    {
      var expired := set id | id in jobs && Stale(timeouts, now, jobs[id]);
      jobs := map id | id in jobs :: if id in expired then jobs[id].(status := Failed) else jobs[id];
      if expired == {} {
        assert jobs == old(jobs);
      } else {
        var id :| id in expired;
        assert jobs[id] != old(jobs)[id];
      }
      count := |expired|;
    }

    /** The transaction of a manual or scheduled pull; `locked` is the try-lock, `id` the next row id. */
    method EnqueuePullSync(requested: JobType, locked: bool, id: nat) returns (r: Response)
      requires id !in jobs
      modifies this`jobs
      ensures var w := Expired(old(View()), timeouts);
              if requested.Webhook? then r == Ignored && View() == old(View())
              else if r.Created? then locked && r.id == id && Enabled(w, CreatePull(id, requested))
                                      && View() == Next(w, timeouts, CreatePull(id, requested))
              else
                && View() == w
                && if locked then r.Existing? && r.id in w.jobs && ActivePull(w.jobs[r.id]) else r.Busy?
    {
      if requested.Webhook? {
        return Ignored;
      }
      var syncType := if requested.Full? || (!hasSnapshot && !hasPulled) then Full else requested;
      var _ := ExpireStaleJobs();
      if !locked {
        return Busy;
      }
      var running := set x | x in jobs && ActivePull(jobs[x]);
      if running != {} {
        var existing :| existing in running;
        return Existing(existing);
      }
      assert forall x <- jobs :: ActivePull(jobs[x]) ==> x in running;
      jobs := jobs[id := NewJob(syncType, now)];
      r := Created(id);
    }

    /** The transaction that starts the webhook queue, refused while a full pull may still rewrite the store. */
    method TriggerWebhookQueue(locked: bool, pendingWebhooks: nat, id: nat) returns (r: Response)
      requires id !in jobs
      modifies this`jobs
      ensures var w := Expired(old(View()), timeouts);
              if r.Created? then
                && r.id == id && locked && pendingWebhooks > 0 && Enabled(w, CreateWebhook(id))
                && View() == Next(w, timeouts, CreateWebhook(id))
              else View() == w && (locked && pendingWebhooks > 0 ==> !WebhookFree(w))
      ensures (r.Busy? <==> !locked) && (r.Idle? <==> locked && pendingWebhooks == 0)
      ensures r.WaitingInitialSnapshot? ==> !hasSnapshot
      ensures r.WaitingFullSnapshot? ==> exists x <- jobs :: ActiveFull(jobs[x])
      ensures r.Existing? ==> r.id in jobs && ActiveWebhook(jobs[r.id])
    {
      var _ := ExpireStaleJobs();
      if !locked {
        return Busy;
      }
      if pendingWebhooks == 0 {
        return Idle;
      }
      var runningFull := set x | x in jobs && ActiveFull(jobs[x]);
      if runningFull != {} || !hasSnapshot {
        return if runningFull != {} then WaitingFullSnapshot else WaitingInitialSnapshot;
      }
      var runningWebhook := set x | x in jobs && ActiveWebhook(jobs[x]);
      if runningWebhook != {} {
        var existing :| existing in runningWebhook;
        return Existing(existing);
      }
      assert forall x <- jobs :: ActiveFull(jobs[x]) ==> x in runningFull;
      assert forall x <- jobs :: ActiveWebhook(jobs[x]) ==> x in runningWebhook;
      jobs := jobs[id := NewJob(Webhook, now)];
      r := Created(id);
    }

    method StartJob(id: nat)
      requires id in jobs
      modifies this`jobs
      ensures View() == Next(old(View()), timeouts, Claim(id))
    {
      jobs := jobs[id := jobs[id].(status := Running, startedAt := Some(now), heartbeatAt := Some(now),
                                   sawSnapshot := hasSnapshot)];
    }

    method TouchJob(id: nat)
      requires id in jobs
      modifies this`jobs
      ensures View() == Touched(old(View()), id)
    {
      jobs := jobs[id := jobs[id].(heartbeatAt := Some(now))];
    }

    /** The row first; the connection after it, unless the worker dies between, as it may if `mayDie`. */
    method FinishJob(id: nat, ok: bool, mayDie: bool) returns (recorded: bool)
      requires id in jobs
      ensures ok && !mayDie ==> recorded
      modifies this`jobs, this`hasSnapshot, this`hasPulled, this`fullSucceeded
      ensures View() == Finished(old(View()), id, ok, recorded)
    {
      var job := jobs[id];
      jobs := jobs[id := job.(status := if ok then Success else Failed, heartbeatAt := Some(now))];
      recorded := false;
      if ok {
        if job.kind.Full? {
          fullSucceeded := true;
        }
        if mayDie {
          if * {
            return;
          }
        }
        hasSnapshot := job.kind.Full? || job.sawSnapshot;
        if !job.kind.Webhook? {
          hasPulled := true;
        }
        recorded := true;
      }
    }
  }
}
