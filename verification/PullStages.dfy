/**
 The stages of a pull job and its resumption: the job's cursor names the stage
 last begun, and a restarted job skips the stages before it. Any stage may
 fail, and the worker may die between any two writes, where `mayFail` says so.
 */
module PullStages {
  import opened Base
  import Decimal
  import EventCursor

  datatype Stage =
    | Metadata | Deals | Notes | Events | Tasks | ContactsCompanies | EmailThreadState | EntityLinks | FactMarts
    | Notifications

  const PULL_STAGE_ORDER: seq<Stage> :=
    [Metadata, Deals, Notes, Events, Tasks, ContactsCompanies, EmailThreadState, EntityLinks, FactMarts, Notifications]

  function IndexOf(stage: Stage): (i: nat)
    ensures i < 10 && PULL_STAGE_ORDER[i] == stage
  {
    match stage
    case Metadata => 0
    case Deals => 1
    case Notes => 2
    case Events => 3
    case Tasks => 4
    case ContactsCompanies => 5
    case EmailThreadState => 6
    case EntityLinks => 7
    case FactMarts => 8
    case Notifications => 9
  }

  function Name(stage: Stage): string {
    match stage
    case Metadata => "metadata"
    case Deals => "deals"
    case Notes => "notes"
    case Events => "events"
    case Tasks => "tasks"
    case ContactsCompanies => "contacts_companies"
    case EmailThreadState => "email_thread_state"
    case EntityLinks => "entity_links"
    case FactMarts => "fact_marts"
    case Notifications => "notifications"
  }

  /** Only a full pull reads the metadata and the entity links. */
  predicate Applicable(full: bool, stage: Stage) {
    full || (stage != Metadata && stage != EntityLinks)
  }

  // ----- the step text -----

  function BeforeColon(step: string): string {
    if |step| == 0 || step[0] == ':' then "" else [step[0]] + BeforeColon(step[1..])
  }

  function Named(name: string, from: nat): Option<Stage>
    requires from <= 10
    decreases 10 - from
  {
    if from == 10 then None
    else if Name(PULL_STAGE_ORDER[from]) == name then Some(PULL_STAGE_ORDER[from])
    else Named(name, from + 1)
  }

  function StageOf(step: string): Option<Stage> {
    Named(BeforeColon(step), 0)
  }

  lemma {:induction false} NameEnds(name: string, rest: string)
    requires (forall c <- name :: c != ':') && (|rest| > 0 ==> rest[0] == ':')
    ensures BeforeColon(name + rest) == name
  {
    if |name| == 0 {
      assert name + rest == rest && name == "";
    } else {
      assert (name + rest)[1..] == name[1..] + rest;
      assert forall c <- name[1..] :: c in name;
      assert name[0] in name;
      NameEnds(name[1..], rest);
      assert name == [name[0]] + name[1..];
    }
  }

  lemma NamesAreWords(stage: Stage)
    ensures forall c <- Name(stage) :: c != ':'
  {
  }

  lemma NamesDiffer(a: Stage, b: Stage)
    requires Name(a) == Name(b)
    ensures a == b
  {
  }

  lemma {:induction false} NamedFinds(stage: Stage, from: nat)
    requires from <= IndexOf(stage)
    ensures Named(Name(stage), from) == Some(stage)
    decreases 10 - from
  {
    var here := PULL_STAGE_ORDER[from];
    if Name(here) == Name(stage) {
      NamesDiffer(here, stage);
    } else {
      assert from < IndexOf(stage);
      NamedFinds(stage, from + 1);
    }
  }

  /** Every step a stage writes, alone or with a detail after a colon, names that stage. */
  lemma StepNamesItsStage(stage: Stage, detail: string)
    requires |detail| > 0 ==> detail[0] == ':'
    ensures StageOf(Name(stage) + detail) == Some(stage)
  {
    NamesAreWords(stage);
    NameEnds(Name(stage), detail);
    NamedFinds(stage, 0);
  }

  /** A job that died inside the event back-fill is resumed in that stage, at the position it persisted. */
  lemma EventStepResumesEvents(p: EventCursor.Position, page: nat, fetched: nat, inserted: nat)
    ensures var step := EventCursor.Step(p, page, fetched, inserted);
            StageOf(step) == Some(Events) && EventCursor.ResumePosition(step) == Some(p)
  {
    hide *;
    EventCursor.StepReadsBack(p, page, fetched, inserted);
    EventStepText(p, page, fetched, inserted);
  }

  lemma EventStepText(p: EventCursor.Position, page: nat, fetched: nat, inserted: nat)
    ensures StageOf(EventCursor.Step(p, page, fetched, inserted)) == Some(Events)
  {
    hide Decimal.Digits, StageOf;
    var counters := ":page:" + Decimal.Digits(page) + ":fetched:" + Decimal.Digits(fetched)
                    + ":inserted:" + Decimal.Digits(inserted);
    var rest := Decimal.Digits(p.stream) + (":window:" + Decimal.Digits(p.from) + counters);
    assert EventCursor.Step(p, page, fetched, inserted) == "events:stream:" + rest;
    hide EventCursor.Step;
    assert "events:stream:" + rest == "events" + (":stream:" + rest);
    StepNamesItsStage(Events, ":stream:" + rest);
  }

  // ----- running the stages -----

  /** Every applicable stage with an index below n has run to its end in some run of the job. */
  ghost predicate Reached(full: bool, ended: set<Stage>, n: nat) {
    forall s: Stage :: Applicable(full, s) && IndexOf(s) < n ==> s in ended
  }

  lemma ReachedNext(full: bool, ended: set<Stage>, stage: Stage)
    requires Reached(full, ended, IndexOf(stage)) && (Applicable(full, stage) ==> stage in ended)
    ensures Reached(full, ended, IndexOf(stage) + 1)
  {
    forall s: Stage | Applicable(full, s) && IndexOf(s) < IndexOf(stage) + 1
      ensures s in ended
    {
      if IndexOf(s) == IndexOf(stage) {
        assert s == stage;
      }
    }
  }

  /** A cursor that would be resumed from has every stage before it behind it. */
  ghost predicate Safe(full: bool, step: Option<string>, ended: set<Stage>) {
    step.Some? && StageOf(step.value).Some? ==> Reached(full, ended, IndexOf(StageOf(step.value).value))
  }

  /** The step names a stage with at least this index. */
  ghost predicate Latest(step: string, index: nat) {
    StageOf(step).Some? && index <= IndexOf(StageOf(step).value)
  }

  /**
   The stages begun in one run, all with an index below n: none before the
   resumed one, in an incremental pull neither metadata nor links; and the cursor
   names the latest of them, or a later stage, so that is where a restart resumes.
   */
  ghost predicate BegunInOrder(full: bool, begun: set<Stage>, step: Option<string>, resumeStage: Option<Stage>,
                               n: nat) {
    forall s <- begun ::
      && (resumeStage.Some? ==> IndexOf(resumeStage.value) <= IndexOf(s)) && IndexOf(s) < n
      && (full || s !in {Metadata, EntityLinks})
      && (s != Metadata ==> step.Some? && Latest(step.value, IndexOf(s)))
  }

  lemma BegunNext(full: bool, begun: set<Stage>, step: Option<string>, step': Option<string>,
                  resumeStage: Option<Stage>, stage: Stage)
    requires BegunInOrder(full, begun, step, resumeStage, IndexOf(stage)) && Applicable(full, stage)
    requires resumeStage.Some? ==> IndexOf(resumeStage.value) <= IndexOf(stage)
    requires if stage == Metadata then step' == step else step'.Some? && Latest(step'.value, IndexOf(stage))
    ensures BegunInOrder(full, begun + {stage}, step', resumeStage, IndexOf(stage) + 1)
  {
    hide StageOf;
  }

  lemma BegunLater(full: bool, begun: set<Stage>, step: Option<string>, resumeStage: Option<Stage>, n: nat, m: nat)
    requires BegunInOrder(full, begun, step, resumeStage, n) && n <= m
    ensures BegunInOrder(full, begun, step, resumeStage, m)
  {
    hide StageOf;
  }

  class PullJob {
    const full: bool
    var startedAt: bool
    var step: Option<string>
    var succeeded: bool
    ghost var ended: set<Stage>  // stages that ran to their end, in this run or an earlier one
    ghost var begun: set<Stage>  // stages begun in the latest run
    ghost var inOrder: bool      // no stage was ever begun before all earlier ones had ended

    constructor (full: bool)
      ensures this.full == full && !startedAt && step.None? && !succeeded && ended == begun == {} && inOrder
    {
      this.full, startedAt, step, succeeded, ended, begun, inOrder := full, false, None, false, {}, {}, true;
    }

    ghost predicate Ready(n: nat)
      reads this
    {
      inOrder && Safe(full, step, ended) && Reached(full, ended, n)
    }

    ghost predicate Begun(resumeStage: Option<Stage>, n: nat)
      reads this
    {
      BegunInOrder(full, begun, step, resumeStage, n)
    }

    method TouchJob(stage: Stage, detail: string)
      requires (|detail| > 0 ==> detail[0] == ':') && Ready(IndexOf(stage))
      modifies this`step
      ensures Ready(IndexOf(stage)) && step == Some(Name(stage) + detail) && Latest(step.value, IndexOf(stage))
    {
      step := Some(Name(stage) + detail);
      StepNamesItsStage(stage, detail);
    }

    /** The work of a stage, with a touch at its start and after each page; the metadata stage touches nothing. */
    method RunPages(stage: Stage, mayFail: bool) returns (ok: bool)
      requires Ready(IndexOf(stage))
      modifies this`step
      ensures Ready(IndexOf(stage)) && (ok || mayFail)
      ensures if stage == Metadata then step == old(step) else step.Some? && Latest(step.value, IndexOf(stage))
    {
      ok := false;
      if stage != Metadata {
        TouchJob(stage, "");
      }
      var pages: nat :| true;
      for page := 0 to pages
        invariant Ready(IndexOf(stage))
        invariant if stage == Metadata then step == old(step) else step.Some? && Latest(step.value, IndexOf(stage))
      {
        if mayFail {
          if * {
            return;
          }
        }
        if stage != Metadata {
          var detail: string := *;
          TouchJob(stage, ":" + detail);
        }
      }
      if mayFail {
        if * {
          return;
        }
      }
      ok := true;
    }

    /** One stage with its page-by-page touches; a skipped one is behind the resumed cursor already. */
    method RunStage(stage: Stage, resumeStage: Option<Stage>, mayFail: bool) returns (ok: bool)
      requires Ready(IndexOf(stage))
      requires Begun(resumeStage, IndexOf(stage))
      requires resumeStage.Some? ==> Reached(full, ended, IndexOf(resumeStage.value))
      modifies this`step, this`ended, this`begun, this`inOrder
      ensures Begun(resumeStage, 10) && (ok || mayFail)
      ensures old(ended) <= ended && inOrder && Safe(full, step, ended)
      ensures resumeStage.Some? ==> Reached(full, ended, IndexOf(resumeStage.value))
      ensures ok ==> Ready(IndexOf(stage) + 1) && Begun(resumeStage, IndexOf(stage) + 1)
    {
      hide BegunInOrder, Latest, StageOf;
      var shouldRun := resumeStage.None? || IndexOf(stage) >= IndexOf(resumeStage.value);
      BegunLater(full, begun, step, resumeStage, IndexOf(stage), IndexOf(stage) + 1);
      BegunLater(full, begun, step, resumeStage, IndexOf(stage), 10);
      if !Applicable(full, stage) || !shouldRun {
        ReachedNext(full, ended, stage);
        return true;
      }
      inOrder := inOrder && Reached(full, ended, IndexOf(stage));
      begun := begun + {stage};
      ok := RunPages(stage, mayFail);
      BegunNext(full, old(begun), old(step), step, resumeStage, stage);
      BegunLater(full, begun, step, resumeStage, IndexOf(stage) + 1, 10);
      if !ok {
        return;
      }
      ended := ended + {stage};
      ReachedNext(full, ended, stage);
    }

    method RunSourceStages(resumeStage: Option<Stage>, mayFail: bool) returns (ok: bool)
      requires Ready(0)
      requires Begun(resumeStage, 0) && (resumeStage.Some? ==> Reached(full, ended, IndexOf(resumeStage.value)))
      modifies this`step, this`ended, this`begun, this`inOrder
      ensures Begun(resumeStage, 10) && (ok || mayFail)
      ensures old(ended) <= ended && inOrder && Safe(full, step, ended)
      ensures resumeStage.Some? ==> Reached(full, ended, IndexOf(resumeStage.value))
      ensures ok ==> Ready(5) && Begun(resumeStage, 5)
    {
      hide Reached, Safe, BegunInOrder;
      ok := RunStage(Metadata, resumeStage, mayFail);
      if ok {
        ok := RunStage(Deals, resumeStage, mayFail);
      }
      if ok {
        ok := RunStage(Notes, resumeStage, mayFail);
      }
      if ok {
        ok := RunStage(Events, resumeStage, mayFail);
      }
      if ok {
        ok := RunStage(Tasks, resumeStage, mayFail);
      }
    }

    method RunDerivedStages(resumeStage: Option<Stage>, mayFail: bool) returns (ok: bool)
      requires Ready(5)
      requires Begun(resumeStage, 5) && (resumeStage.Some? ==> Reached(full, ended, IndexOf(resumeStage.value)))
      modifies this`step, this`ended, this`begun, this`inOrder
      ensures Begun(resumeStage, 10) && (ok || mayFail)
      ensures old(ended) <= ended && inOrder && Safe(full, step, ended)
      ensures resumeStage.Some? ==> Reached(full, ended, IndexOf(resumeStage.value))
      ensures ok ==> Ready(10)
    {
      hide Reached, Safe, BegunInOrder;
      ok := RunStage(ContactsCompanies, resumeStage, mayFail);
      if ok {
        ok := RunStage(EmailThreadState, resumeStage, mayFail);
      }
      if ok {
        ok := RunStage(EntityLinks, resumeStage, mayFail);
      }
      if ok {
        ok := RunStage(FactMarts, resumeStage, mayFail);
      }
      if ok {
        ok := RunStage(Notifications, resumeStage, mayFail);
      }
    }

    method RunStages(resumeStage: Option<Stage>, mayFail: bool) returns (ok: bool)
      requires inOrder && Safe(full, step, ended)
      requires Begun(resumeStage, 0) && (resumeStage.Some? ==> Reached(full, ended, IndexOf(resumeStage.value)))
      modifies this`step, this`ended, this`begun, this`inOrder
      ensures Begun(resumeStage, 10) && (ok || mayFail)
      ensures old(ended) <= ended && inOrder && Safe(full, step, ended)
      ensures ok ==> Reached(full, ended, 10)
    {
      assert Ready(0);
      hide Reached, Safe, BegunInOrder;
      ok := RunSourceStages(resumeStage, mayFail);
      if ok {
        ok := RunDerivedStages(resumeStage, mayFail);
      }
    }

    /** Every stage that a pull of this kind has: only a full one reads the metadata and the entity links. */
    ghost predicate AllEnded()
      reads this
    {
      forall stage: Stage :: full || stage !in {Metadata, EntityLinks} ==> stage in ended
    }

    /** One run of the job, from the claim to SUCCESS or to wherever it stops. */
    method RunPullJob(mayFail: bool)
      requires inOrder && Safe(full, if startedAt then step else None, ended)
      requires !startedAt ==> step.None?
      modifies this
      ensures old(ended) <= ended && inOrder && Safe(full, step, ended) && startedAt
      ensures Begun(if old(startedAt) && old(step).Some? then StageOf(old(step).value) else None, 10)
      ensures succeeded && !old(succeeded) ==> AllEnded()
      ensures old(succeeded) || !mayFail ==> succeeded
    {
      var resumeStage := if startedAt && step.Some? then StageOf(step.value) else None;
      startedAt, begun := true, {};
      var ok := RunStages(resumeStage, mayFail);
      if !ok {
        return;
      }
      succeeded := true;
    }

    /**
     Any number of runs of one job, each resuming from the cursor the one before
     left behind; a faulty run may break anywhere.
     */
    method Restart(faulty: seq<bool>)
      requires !startedAt && step.None? && !succeeded && ended == {} && inOrder
      modifies this
      ensures inOrder && (succeeded ==> AllEnded())
      ensures (exists k :: 0 <= k < |faulty| && !faulty[k]) ==> succeeded
    {
      for k := 0 to |faulty|
        invariant inOrder && Safe(full, step, ended) && (!startedAt ==> step.None?)
        invariant succeeded ==> AllEnded()
        invariant (exists j :: 0 <= j < k && !faulty[j]) ==> succeeded
      {
        RunPullJob(faulty[k]);
      }
    }
  }
}
