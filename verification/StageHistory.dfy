/**
 The stage history of deals, filled from stage-change events as they arrive and
 again from the stored events. A row is known by deal, stages and moment; the
 table does not enforce that it is unique. Times are seconds.
 */
module StageHistory {
  import opened Base

  /** What an event value says about a stage: a status id, and a pipeline id if it carries one. */
  datatype StageRef = StageRef(statusId: nat, pipelineId: Option<nat>)

  datatype Event = Event(id: nat, isStatusChange: bool, dealId: Option<nat>, before: Option<StageRef>,
                         after: Option<StageRef>, createdAt: int)

  datatype Row = Row(dealId: nat, fromStage: Option<nat>, toStage: nat, movedAt: int)

  type StageMap = map<(nat, nat), nat>

  function StageOf(stages: StageMap, ref: Option<StageRef>): Option<nat> {
    if ref.Some? && ref.value.pipelineId.Some? && (ref.value.pipelineId.value, ref.value.statusId) in stages then
      Some(stages[(ref.value.pipelineId.value, ref.value.statusId)])
    else None
  }

  /** The row an event stands for, if it moves a stored deal to a known stage other than the one it left. */
  function RowOf(stages: StageMap, e: Event): (row: Option<Row>)
    ensures row.Some? ==> row.value.fromStage != Some(row.value.toStage)
  {
    var to, from := StageOf(stages, e.after), StageOf(stages, e.before);
    if e.dealId.None? || to.None? || from == to then None
    else Some(Row(e.dealId.value, from, to.value, e.createdAt))
  }

  /** The value names a pipeline and a status, and the maps know them as this stage. */
  ghost predicate Names(stages: StageMap, ref: Option<StageRef>, stage: nat) {
    exists p: nat, s: nat :: ref == Some(StageRef(s, Some(p))) && (p, s) in stages && stages[(p, s)] == stage
  }

  /**
   A row is the move of its deal at the event's moment into the stage that the
   value after names, out of the one that the value before names, if it names one,
   and the two differ.
   */
  lemma RowIsMoveIff(stages: StageMap, e: Event, row: Row)
    ensures RowOf(stages, e) == Some(row) <==>
            && e.dealId == Some(row.dealId) && e.createdAt == row.movedAt && Names(stages, e.after, row.toStage)
            && (match row.fromStage
                case Some(from) => Names(stages, e.before, from) && from != row.toStage
                case None => forall stage :: !Names(stages, e.before, stage))
  {
    KnownStage(stages, e.after);
    KnownStage(stages, e.before);
  }

  lemma KnownStage(stages: StageMap, ref: Option<StageRef>)
    ensures forall stage: nat :: Names(stages, ref, stage) <==> StageOf(stages, ref) == Some(stage)
  {
    if StageOf(stages, ref).Some? {
      assert ref == Some(StageRef(ref.value.statusId, Some(ref.value.pipelineId.value)));
    }
  }

  function Apply(stages: StageMap, rows: seq<Row>, e: Event): seq<Row> {
    match RowOf(stages, e)
    case None => rows
    case Some(row) => if row in rows then rows else rows + [row]
  }

  function ApplyAll(stages: StageMap, rows: seq<Row>, events: seq<Event>): seq<Row> {
    if |events| == 0 then rows
    else Apply(stages, ApplyAll(stages, rows, events[..|events| - 1]), events[|events| - 1])
  }

  /** The rows the events stand for, without any order. */
  function RowsOf(stages: StageMap, events: seq<Event>): set<Row> {
    set e | e in events && RowOf(stages, e).Some? :: RowOf(stages, e).value
  }

  lemma ApplyMeans(stages: StageMap, rows: seq<Row>, e: Event)
    ensures rows <= Apply(stages, rows, e)
    ensures Elements(Apply(stages, rows, e)) == Elements(rows) + RowsOf(stages, [e])
    ensures Distinct(rows) ==> Distinct(Apply(stages, rows, e))
  {
    var row := RowOf(stages, e);
    assert RowsOf(stages, [e]) == if row.Some? then {row.value} else {} by { assert e in [e]; }
    hide RowsOf, RowOf;
  }

  lemma RowsOfMore(stages: StageMap, events: seq<Event>, more: seq<Event>)
    ensures RowsOf(stages, events + more) == RowsOf(stages, events) + RowsOf(stages, more)
  {
  }

  lemma {:induction false} ApplyAllMeans(stages: StageMap, rows: seq<Row>, events: seq<Event>)
    ensures rows <= ApplyAll(stages, rows, events)
    ensures Elements(ApplyAll(stages, rows, events)) == Elements(rows) + RowsOf(stages, events)
    ensures Distinct(rows) ==> Distinct(ApplyAll(stages, rows, events))
  {
    if |events| > 0 {
      var n := |events| - 1;
      assert events == events[..n] + [events[n]];
      hide RowsOf, Apply, Distinct;
      ApplyAllMeans(stages, rows, events[..n]);
      ApplyMeans(stages, ApplyAll(stages, rows, events[..n]), events[n]);
      RowsOfMore(stages, events[..n], [events[n]]);
    }
  }

  /**
   The history converges: any two lists with the same events, whatever their
   order and repeats, give the same rows, each once.
   */
  lemma HistoryConverges(stages: StageMap, rows: seq<Row>, a: seq<Event>, b: seq<Event>)
    requires Distinct(rows) && forall e :: e in a <==> e in b
    ensures multiset(ApplyAll(stages, rows, a)) == multiset(ApplyAll(stages, rows, b))
  {
    ApplyAllMeans(stages, rows, a);
    ApplyAllMeans(stages, rows, b);
    assert RowsOf(stages, a) == RowsOf(stages, b);
    SameElements(ApplyAll(stages, rows, a), ApplyAll(stages, rows, b));
  }

  lemma SameElements(a: seq<Row>, b: seq<Row>)
    requires Distinct(a) && Distinct(b) && Elements(a) == Elements(b)
    ensures multiset(a) == multiset(b)
  {
    OnceEach(a);
    OnceEach(b);
    forall r: Row
      ensures multiset(a)[r] == multiset(b)[r]
    {
      assert r in a <==> r in Elements(a);
      assert r in b <==> r in Elements(b);
    }
  }

  lemma {:induction false} OnceEach(s: seq<Row>)
    requires Distinct(s)
    ensures forall r :: multiset(s)[r] == if r in s then 1 else 0
  {
    if |s| > 0 {
      var n := |s| - 1;
      OnceEach(s[..n]);
      assert s == s[..n] + [s[n]];
    }
  }

  // ----- the back-fill -----

  predicate IsSelected(e: Event, since: Option<int>) {
    e.isStatusChange && e.dealId.Some? && (since.None? || e.createdAt >= since.value)
  }

  function Selected(stored: seq<Event>, since: Option<int>): seq<Event> {
    if |stored| == 0 then []
    else
      var last := stored[|stored| - 1];
      Selected(stored[..|stored| - 1], since) + if IsSelected(last, since) then [last] else []
  }

  lemma {:induction false} SelectedMeans(stored: seq<Event>, since: Option<int>, e: Event)
    ensures e in Selected(stored, since) <==>
            e in stored && e.isStatusChange && e.dealId != None && (since == None || since.value <= e.createdAt)
  {
    if |stored| > 0 {
      var n := |stored| - 1;
      SelectedMeans(stored[..n], since, e);
      assert stored == stored[..n] + [stored[n]];
    }
  }

  /** Every stored event that the back-fill passes over left its row in the table, or another event does. */
  ghost predicate NothingOutOfReach(stages: StageMap, rows: seq<Row>, live: seq<Event>, stored: seq<Event>,
                                    since: Option<int>) {
    forall e <- stored :: RowOf(stages, e).Some? && !IsSelected(e, since) ==>
      RowOf(stages, e).value in Elements(rows) + RowsOf(stages, live) + RowsOf(stages, Selected(stored, since))
  }

  /**
   Whatever part of the stored events was applied when they arrived, the
   back-fill completes the history and repeats nothing, if and only if nothing
   it passes over is missing by then.
   */
  lemma BackfillCompletesIff(stages: StageMap, rows: seq<Row>, live: seq<Event>, stored: seq<Event>, since: Option<int>)
    requires Distinct(rows) && forall e <- live :: e in stored
    ensures multiset(ApplyAll(stages, ApplyAll(stages, rows, live), Selected(stored, since)))
              == multiset(ApplyAll(stages, rows, stored)) <==>
            NothingOutOfReach(stages, rows, live, stored, since)
  {
    var selected := Selected(stored, since);
    var first := ApplyAll(stages, rows, live);
    var filled, whole := ApplyAll(stages, first, selected), ApplyAll(stages, rows, stored);
    ApplyAllMeans(stages, rows, live);
    ApplyAllMeans(stages, first, selected);
    ApplyAllMeans(stages, rows, stored);
    hide ApplyAll, Selected;
    ReachedRows(stages, rows, live, stored, since);
    if Elements(filled) == Elements(whole) {
      SameElements(filled, whole);
    } else if multiset(filled) == multiset(whole) {
      SameSet(filled, whole);
    }
  }

  lemma SameSet(a: seq<Row>, b: seq<Row>)
    requires multiset(a) == multiset(b)
    ensures Elements(a) == Elements(b)
  {
    forall r: Row
      ensures r in a <==> r in b
    {
      assert r in a <==> r in multiset(a);
      assert r in b <==> r in multiset(b);
    }
  }

  /** The rows that live events and the back-fill give are all of them exactly when nothing is out of reach. */
  lemma ReachedRows(stages: StageMap, rows: seq<Row>, live: seq<Event>, stored: seq<Event>, since: Option<int>)
    requires forall e <- live :: e in stored
    ensures Elements(rows) + RowsOf(stages, live) + RowsOf(stages, Selected(stored, since))
              == Elements(rows) + RowsOf(stages, stored) <==>
            NothingOutOfReach(stages, rows, live, stored, since)
  {
    forall e
      ensures e in Selected(stored, since) <==> e in stored && IsSelected(e, since)
    {
      SelectedMeans(stored, since, e);
    }
    hide Selected, RowOf, IsSelected;
    var some := Elements(rows) + RowsOf(stages, live) + RowsOf(stages, Selected(stored, since));
    forall e | e in stored && RowOf(stages, e).Some?
      ensures RowOf(stages, e).value in RowsOf(stages, stored)
      ensures IsSelected(e, since) ==> RowOf(stages, e).value in some
    {
    }
  }

  /**
   Two stored stage moves that the back-fill passes over: one that came as an
   event of another type, and one from before its lower bound. If neither was
   applied live, neither is ever in the history.
   */
  lemma BackfillCanMiss() returns (stages: StageMap, otherType: Event, older: Event, since: Option<int>)
    ensures !otherType.isStatusChange && older.isStatusChange && since.Some? && older.createdAt < since.value
    ensures forall e <- [otherType, older] :: RowOf(stages, e).Some? && ApplyAll(stages, [], Selected([e], since)) == []
    ensures forall e <- [otherType, older] :: !NothingOutOfReach(stages, [], [], [e], since)
  {
    stages, since := map[(1, 10) := 100], Some(50);
    var to := Some(StageRef(10, Some(1)));
    otherType, older := Event(1, false, Some(7), None, to, 60), Event(2, true, Some(7), None, to, 40);
    forall e | e in [otherType, older]
      ensures RowOf(stages, e).Some? && ApplyAll(stages, [], Selected([e], since)) == []
      ensures !NothingOutOfReach(stages, [], [], [e], since)
    {
      assert [e][..0] == [];
      assert Selected([e][..0], since) == [];
      assert Selected([e], since) == [];
      assert e in [e] && RowOf(stages, e).Some? && !IsSelected(e, since);
    }
  }

  class History {
    const stages: StageMap
    var rows: seq<Row>

    constructor (stages: StageMap, rows: seq<Row>)
      ensures this.stages == stages && this.rows == rows
    {
      this.stages, this.rows := stages, rows;
    }

    method CreateStageHistoryIfMissing(row: Row)
      modifies this`rows
      ensures rows == if row in old(rows) then old(rows) else old(rows) + [row]
    {
      if row in rows {
        return;
      }
      rows := rows + [row];
    }

    method ApplyEventToStageHistory(event: Event, dealId: nat)
      requires event.dealId == Some(dealId)
      modifies this`rows
      ensures rows == Apply(stages, old(rows), event)
    {
      if event.after.None? || event.after.value.pipelineId.None? {
        return;
      }
      var toStageId, fromStageId := StageOf(stages, event.after), StageOf(stages, event.before);
      if toStageId.None? {
        return;
      }
      if fromStageId.Some? && fromStageId == toStageId {
        return;
      }
      CreateStageHistoryIfMissing(Row(dealId, fromStageId, toStageId.value, event.createdAt));
    }

    method BackfillStageHistoryFromStoredEvents(stored: seq<Event>, since: Option<int>)
      modifies this`rows
      ensures rows == ApplyAll(stages, old(rows), Selected(stored, since))
    {
      var events := Selected(stored, since);
      for i := 0 to |events|
        invariant rows == ApplyAll(stages, old(rows), events[..i])
      {
        SelectedMeans(stored, since, events[i]);
        ApplyEventToStageHistory(events[i], events[i].dealId.value);
        assert events[..i + 1][..i] == events[..i];
      }
      assert events[..|events|] == events;
    }
  }
}
