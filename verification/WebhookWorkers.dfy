/**
 The webhook inbox under several workers. A worker whose job was closed as stale
 goes on while its successor reads the same rows, and marking a row does not
 look at what the row holds by then. A step is one read or one write.
 */
module WebhookWorkers {
  import opened Base
  import opened WebhookInbox

  /** `held` are the ids that each worker read and has not marked yet. */
  datatype Queue = Queue(now: int, rows: map<string, Row>, held: map<nat, set<string>>)

  datatype Action =
    | Tick(to: int)
    | Arrive(row: Row)
    | Read(worker: nat, ids: seq<string>)
    | MarkGroup(worker: nat, ids: seq<string>, status: Status)
    | Quit(worker: nat)

  ghost predicate Enabled(q: Queue, a: Action) {
    match a
    case Tick(to) => q.now <= to
    case Arrive(row) => row.id !in q.rows && row.status.Received? && row.attempts == 0
                        && row.appliedAt.None? && row.nextAttemptAt.None?
    case Read(worker, ids) =>
      worker !in q.held && |ids| <= 100 && forall id <- ids :: id in q.rows && Ready(q.rows[id], q.now)
    case MarkGroup(worker, ids, status) =>
      worker in q.held && !status.Received? && forall id <- ids :: id in q.held[worker]
    case Quit(worker) => worker in q.held
  }

  function Next(q: Queue, a: Action): Queue {
    match a
    case Tick(to) => q.(now := to)
    case Arrive(row) => q.(rows := q.rows[row.id := row])
    case Read(worker, ids) => q.(held := q.held[worker := Elements(ids)])
    case MarkGroup(worker, ids, status) =>
      q.(rows := MarkAll(q.rows, ids, status, q.now),
         held := if worker in q.held then q.held[worker := q.held[worker] - Elements(ids)] else q.held)
    case Quit(worker) => q.(held := q.held - {worker})
  }

  ghost predicate IsStep(q: Queue, a: Action, q': Queue) {
    Enabled(q, a) && q' == Next(q, a)
  }

  ghost predicate IsRun(run: seq<Queue>, acts: seq<Action>) {
    && |run| == |acts| + 1 && run[0].held == map[]
    && (forall i :: 0 <= i < |acts| ==> IsStep(run[i], acts[i], run[i + 1]))
  }

  function IdsOf(events: seq<Row>): seq<string> {
    seq(|events|, k requires 0 <= k < |events| => events[k].id)
  }

  /** A webhook job's query is a read of its worker, and each group it ends a mark of rows it read. */
  lemma BatchIsActions(q: Queue, worker: nat, events: seq<Row>, order: seq<string>, groups: map<string, Group>,
                       key: string, status: Status, mayFail: bool)
    requires IsBatch(events, q.rows, q.now) && worker !in q.held
    requires Groups(events, order, groups) && key in groups && EndOf(groups[key], status, mayFail)
    ensures Enabled(q, Read(worker, IdsOf(events)))
    ensures Enabled(Next(q, Read(worker, IdsOf(events))), MarkGroup(worker, groups[key].ids, status))
  {
    forall id | id in IdsOf(events)
      ensures id in q.rows && Ready(q.rows[id], q.now)
    {
      var k :| 0 <= k < |events| && IdsOf(events)[k] == id;
      assert events[k] in events;
    }
    forall id | id in groups[key].ids
      ensures id in IdsOf(events)
    {
      IdsWithKeyMean(events, key, id);
      var k :| 0 <= k < |events| && events[k].id == id && Key(events[k]) == key;
      assert IdsOf(events)[k] == id;
    }
  }

  // ----- when a finished row stays finished -----

  ghost predicate Marks(a: Action, id: string) {
    a.MarkGroup? && id in a.ids
  }

  /** An error mark on a row that another worker has already applied or skipped. */
  ghost predicate Reopens(q: Queue, a: Action) {
    a.MarkGroup? && a.status.Error? && exists id <- a.ids :: id in q.rows && Done(q.rows[id])
  }

  /** Any mark on such a row. */
  ghost predicate MarksDone(q: Queue, a: Action) {
    a.MarkGroup? && exists id <- a.ids :: id in q.rows && Done(q.rows[id])
  }

  /** Every finished row is still finished. */
  ghost predicate KeepsDone(q: Queue, q': Queue) {
    forall id <- q.rows :: Done(q.rows[id]) ==> id in q'.rows && Done(q'.rows[id])
  }

  /** Every finished row is as it was. */
  ghost predicate LeavesDone(q: Queue, q': Queue) {
    forall id <- q.rows :: Done(q.rows[id]) ==> id in q'.rows && q'.rows[id] == q.rows[id]
  }

  lemma StepKeepsDoneIff(q: Queue, a: Action)
    requires Enabled(q, a)
    ensures KeepsDone(q, Next(q, a)) <==> !Reopens(q, a)
    ensures LeavesDone(q, Next(q, a)) <==> !MarksDone(q, a)
  {
    if Reopens(q, a) {
      var id :| id in a.ids && id in q.rows && Done(q.rows[id]);
      assert !Done(Next(q, a).rows[id]);
    }
    if MarksDone(q, a) {
      var id :| id in a.ids && id in q.rows && Done(q.rows[id]);
      assert Next(q, a).rows[id].attempts == q.rows[id].attempts + 1;
    }
  }

  /** Over every run, finished rows stay finished if and only if no worker marks one as an error. */
  lemma EveryRunKeepsDoneIff(run: seq<Queue>, acts: seq<Action>)
    requires IsRun(run, acts)
    ensures (forall k :: 0 <= k < |acts| ==> KeepsDone(run[k], run[k + 1])) <==>
            (forall k :: 0 <= k < |acts| ==> !Reopens(run[k], acts[k]))
  {
    hide Enabled, Next, KeepsDone, Reopens;
    if forall k :: 0 <= k < |acts| ==> !Reopens(run[k], acts[k]) {
      forall k | 0 <= k < |acts|
        ensures KeepsDone(run[k], run[k + 1])
      {
        assert IsStep(run[k], acts[k], run[k + 1]) && !Reopens(run[k], acts[k]);
        StepKeepsDoneIff(run[k], acts[k]);
      }
    }
    if forall k :: 0 <= k < |acts| ==> KeepsDone(run[k], run[k + 1]) {
      forall k | 0 <= k < |acts|
        ensures !Reopens(run[k], acts[k])
      {
        assert IsStep(run[k], acts[k], run[k + 1]) && KeepsDone(run[k], run[k + 1]);
        StepKeepsDoneIff(run[k], acts[k]);
      }
    }
  }

  /** They never change if and only if no worker marks one at all. */
  lemma EveryRunLeavesDoneIff(run: seq<Queue>, acts: seq<Action>)
    requires IsRun(run, acts)
    ensures (forall k :: 0 <= k < |acts| ==> LeavesDone(run[k], run[k + 1])) <==>
            (forall k :: 0 <= k < |acts| ==> !MarksDone(run[k], acts[k]))
  {
    hide Enabled, Next, LeavesDone, MarksDone;
    if forall k :: 0 <= k < |acts| ==> !MarksDone(run[k], acts[k]) {
      forall k | 0 <= k < |acts|
        ensures LeavesDone(run[k], run[k + 1])
      {
        assert IsStep(run[k], acts[k], run[k + 1]) && !MarksDone(run[k], acts[k]);
        StepKeepsDoneIff(run[k], acts[k]);
      }
    }
    if forall k :: 0 <= k < |acts| ==> LeavesDone(run[k], run[k + 1]) {
      forall k | 0 <= k < |acts|
        ensures !MarksDone(run[k], acts[k])
      {
        assert IsStep(run[k], acts[k], run[k + 1]) && LeavesDone(run[k], run[k + 1]);
        StepKeepsDoneIff(run[k], acts[k]);
      }
    }
  }

  /** Over any stretch without such a mark, an applied or skipped row is never ready again. */
  lemma {:induction false} DoneForever(run: seq<Queue>, acts: seq<Action>, i: nat, j: nat, id: string)
    requires IsRun(run, acts) && i <= j < |run| && id in run[i].rows && Done(run[i].rows[id])
    requires forall k :: i <= k < j ==> !Reopens(run[k], acts[k])
    ensures id in run[j].rows && Done(run[j].rows[id]) && forall now :: !Ready(run[j].rows[id], now)
    decreases j - i
  {
    if i < j {
      DoneForever(run, acts, i, j - 1, id);
      assert IsStep(run[j - 1], acts[j - 1], run[j - 1 + 1]);
      assert !Reopens(run[j - 1], acts[j - 1]);
      hide Enabled, Next, Reopens;
      StepKeepsDoneIff(run[j - 1], acts[j - 1]);
    }
  }

  // ----- attempts -----

  /** How many marks of a row lie between two moments. */
  ghost function MarkCount(acts: seq<Action>, i: nat, j: nat, id: string): nat
    requires i <= j <= |acts|
    decreases j
  {
    if i == j then 0 else MarkCount(acts, i, j - 1, id) + if Marks(acts[j - 1], id) then 1 else 0
  }

  /** In every run a row's attempts grow by exactly the marks it got, from whichever workers. */
  lemma {:induction false} AttemptsCountMarks(run: seq<Queue>, acts: seq<Action>, i: nat, j: nat, id: string)
    requires IsRun(run, acts) && i <= j < |run| && id in run[i].rows
    ensures id in run[j].rows && run[j].rows[id].attempts == run[i].rows[id].attempts + MarkCount(acts, i, j, id)
    decreases j - i
  {
    if i < j {
      AttemptsCountMarks(run, acts, i, j - 1, id);
      assert IsStep(run[j - 1], acts[j - 1], run[j - 1 + 1]);
      StepCountsMarks(run[j - 1], acts[j - 1], id);
    }
  }

  lemma StepCountsMarks(q: Queue, a: Action, id: string)
    requires Enabled(q, a) && id in q.rows
    ensures var q' := Next(q, a);
            id in q'.rows && q'.rows[id].attempts == q.rows[id].attempts + if Marks(a, id) then 1 else 0
  {
  }

  // ----- workers apart -----

  /** A read of rows that no other worker holds. */
  ghost predicate ApartRead(q: Queue, a: Action) {
    a.Read? ==> forall k <- q.held :: q.held[k] !! Elements(a.ids)
  }

  /** No row is held twice, and no held row is finished. */
  ghost predicate Owned(q: Queue) {
    && (forall k <- q.held, l <- q.held :: k != l ==> q.held[k] !! q.held[l])
    && (forall k <- q.held, id <- q.held[k] :: id in q.rows && !Done(q.rows[id]))
  }

  ghost predicate IsApartRun(run: seq<Queue>, acts: seq<Action>) {
    IsRun(run, acts) && forall i :: 0 <= i < |acts| ==> ApartRead(run[i], acts[i])
  }

  lemma ApartStepKeepsOwned(q: Queue, a: Action)
    requires Owned(q) && Enabled(q, a) && ApartRead(q, a)
    ensures Owned(Next(q, a))
  {
  }

  lemma {:induction false} ApartRunIsOwned(run: seq<Queue>, acts: seq<Action>, k: nat)
    requires IsApartRun(run, acts) && k < |run|
    ensures Owned(run[k])
  {
    if k > 0 {
      ApartRunIsOwned(run, acts, k - 1);
      assert IsStep(run[k - 1], acts[k - 1], run[k - 1 + 1]);
      assert ApartRead(run[k - 1], acts[k - 1]);
      hide Owned, ApartRead, Enabled, Next;
      ApartStepKeepsOwned(run[k - 1], acts[k - 1]);
    }
  }

  /** Where workers only read rows that no other holds, no finished row ever changes. */
  lemma ApartRunsLeaveDone(run: seq<Queue>, acts: seq<Action>, k: nat)
    requires IsApartRun(run, acts) && k < |acts|
    ensures !MarksDone(run[k], acts[k]) && !Reopens(run[k], acts[k])
  {
    ApartRunIsOwned(run, acts, k);
    assert IsStep(run[k], acts[k], run[k + 1]);
  }

  /** There, nobody else touches a row that a worker holds. */
  lemma {:induction false} HeldRowIsUntouched(run: seq<Queue>, acts: seq<Action>, i: nat, k: nat, worker: nat,
                                              id: string)
    requires IsApartRun(run, acts) && i <= k < |run|
    requires forall m :: i <= m <= k ==> worker in run[m].held && id in run[m].held[worker]
    ensures id in run[i].rows && id in run[k].rows && run[k].rows[id] == run[i].rows[id]
    decreases k - i
  {
    ApartRunIsOwned(run, acts, k);
    assert worker in run[k].held && id in run[k].held[worker];
    if i < k {
      HeldRowIsUntouched(run, acts, i, k - 1, worker, id);
      ApartRunIsOwned(run, acts, k - 1);
      assert IsStep(run[k - 1], acts[k - 1], run[k - 1 + 1]);
      assert worker in run[k - 1].held && id in run[k - 1].held[worker];
      assert !Marks(acts[k - 1], id);
    }
  }

  /** So each row of a batch gets one end and one more attempt from the worker that read it. */
  lemma ReadRowIsMarkedOnce(run: seq<Queue>, acts: seq<Action>, i: nat, k: nat, id: string)
    requires IsApartRun(run, acts) && i < k < |acts| && acts[i].Read? && id in acts[i].ids
    requires Marks(acts[k], id) && acts[k].worker == acts[i].worker
    requires forall m :: i < m <= k ==> acts[i].worker in run[m].held && id in run[m].held[acts[i].worker]
    ensures id in run[i].rows && id in run[k + 1].rows
    ensures run[k + 1].rows[id] == Mark(run[i].rows[id], acts[k].status, run[k].now)
  {
    assert IsStep(run[i], acts[i], run[i + 1]) && IsStep(run[k], acts[k], run[k + 1]);
    HeldRowIsUntouched(run, acts, i + 1, k, acts[i].worker, id);
  }

  // ----- workers overlapping -----

  /** Two workers that hold one row can apply it and then open it again. */
  lemma OverlapCanReopen(q: Queue, k: nat, l: nat, id: string)
    requires k != l && k in q.held && l in q.held && id in q.held[k] && id in q.held[l] && id in q.rows
    ensures var a, b := MarkGroup(k, [id], Applied), MarkGroup(l, [id], Error);
            Enabled(q, a) && Enabled(Next(q, a), b) && Reopens(Next(q, a), b)
  {
    var q' := Next(q, MarkGroup(k, [id], Applied));
    assert id in [id] && q'.rows[id] == Mark(q.rows[id], Applied, q.now);
    assert q'.held[l] == q.held[l];
  }

  /** A row that two workers read, one applies, the other marks as an error, and that is ready again a minute later. */
  lemma AppliedRowIsReadyAgain() returns (run: seq<Queue>, acts: seq<Action>, id: string)
    ensures IsRun(run, acts) && |acts| == 5
    ensures id in run[3].rows && Done(run[3].rows[id])
    ensures id in run[5].rows && Ready(run[5].rows[id], run[5].now) && run[5].rows[id].attempts == 2
  {
    id := "r";
    var row := Row(id, "leads", Some("7"), Received, 0, 0, None, None);
    acts := [Read(1, [id]), Read(2, [id]), MarkGroup(1, [id], Applied), MarkGroup(2, [id], Error), Tick(60000)];
    var q0 := Queue(0, map[id := row], map[]);
    var q1 := Next(q0, acts[0]);
    var q2 := Next(q1, acts[1]);
    var q3 := Next(q2, acts[2]);
    var q4 := Next(q3, acts[3]);
    var q5 := Next(q4, acts[4]);
    run := [q0, q1, q2, q3, q4, q5];
    assert q3.rows[id] == Mark(row, Applied, 0) && q4.rows[id] == Mark(q3.rows[id], Error, 0);
    assert IsStep(q0, acts[0], q1) && IsStep(q1, acts[1], q2) && IsStep(q2, acts[2], q3);
    assert IsStep(q3, acts[3], q4) && IsStep(q4, acts[4], q5);
  }
}
