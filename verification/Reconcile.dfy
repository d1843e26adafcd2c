/**
 The recent-changes reconciliation: bounded windows behind a persisted cursor.
 A lead carries the second it was last changed, its pipeline stage, and a
 version standing for all its other fields. Times are milliseconds unless a
 name says seconds.
 */
module Reconcile {
  import opened Base
  import opened Paging

  datatype Lead = Lead(updatedAt: int, stage: nat, version: nat)

  /** `stages` are the pipeline stages present in the metadata maps. */
  datatype Config = Config(lookbackMs: nat, overlapMs: nat, maxDeals: nat, maxEvents: nat, stages: set<nat>)

  datatype World = World(
    leads: map<nat, Lead>,       // amoCRM
    stageEvents: map<nat, int>,  // amoCRM: created_at second of every stage change
    deals: map<nat, Lead>,       // stored copies, not deleted
    crmEvents: set<nat>,         // stored stage changes
    cursor: Option<int>,
    first: int,                  // lower second of the very first window
    now: int)

  ghost predicate ValidConfig(c: Config) {
    c.lookbackMs > 0 && c.maxDeals > 0 && c.maxEvents > 0
  }

  // ----- windows -----

  function WindowFrom(c: Config, w: World): int {
    match w.cursor
    case None => w.now - c.lookbackMs
    case Some(previous) => previous - c.overlapMs
  }

  function WindowThrough(c: Config, w: World): int {
    var base := if w.cursor.Some? then w.cursor.value else WindowFrom(c, w);
    Min(w.now, base + c.lookbackMs)
  }

  /** Ids whose time stamp lies in the closed interval of seconds. */
  function Within(stamps: map<nat, int>, from: int, through: int): set<nat> {
    set id | id in stamps && from <= stamps[id] <= through
  }

  function UpdatedAt(leads: map<nat, Lead>): map<nat, int> {
    map id | id in leads :: leads[id].updatedAt
  }

  /** The leads a pass has to copy. */
  function RecentLeads(c: Config, w: World): set<nat> {
    Within(UpdatedAt(w.leads), WindowFrom(c, w) / 1000, WindowThrough(c, w) / 1000)
  }

  function RecentEvents(c: Config, w: World): set<nat> {
    Within(w.stageEvents, WindowFrom(c, w) / 1000, WindowThrough(c, w) / 1000)
  }

  /** The store after upserting these leads; a lead whose stage is unknown is passed over without an error. */
  function Upserted(c: Config, leads: map<nat, Lead>, deals: map<nat, Lead>, ids: set<nat>): map<nat, Lead> {
    deals + map id | id in ids && id in leads && leads[id].stage in c.stages :: leads[id]
  }

  function Upsert(c: Config, w: World, ids: set<nat>): map<nat, Lead> {
    Upserted(c, w.leads, w.deals, ids)
  }

  // ----- steps -----

  function WithLead(w: World, id: nat, stage: nat, version: nat): World {
    w.(leads := w.leads[id := Lead(w.now / 1000, stage, version)])
  }

  function WithStageEvent(w: World, id: nat): World {
    w.(stageEvents := w.stageEvents[id := w.now / 1000])
  }

  ghost predicate LeadChanges(w: World, w': World) {
    exists id, stage, version :: w' == WithLead(w, id, stage, version)
  }

  ghost predicate StageEventAppears(w: World, w': World) {
    exists id :: id !in w.stageEvents && w' == WithStageEvent(w, id)
  }

  ghost predicate TimePasses(w: World, w': World) {
    w'.now >= w.now && w' == w.(now := w'.now)
  }

  /** A pass that stops early has copied some of its leads and events, and keeps the cursor. */
  ghost predicate PassFails(c: Config, w: World, w': World) {
    exists leads, events | leads <= RecentLeads(c, w) && events <= RecentEvents(c, w) ::
      w' == PartlyCopied(c, w, leads, events)
  }

  lemma PassFailsWith(c: Config, w: World, leads: set<nat>, events: set<nat>)
    requires leads <= RecentLeads(c, w) && events <= RecentEvents(c, w)
    ensures PassFails(c, w, PartlyCopied(c, w, leads, events))
  {
  }

  function PartlyCopied(c: Config, w: World, leads: set<nat>, events: set<nat>): World {
    w.(deals := Upsert(c, w, leads), crmEvents := w.crmEvents + events)
  }

  /** A pass that the parity guard lets through has every lead of its window live, of known stage or not. */
  ghost predicate PassSucceeds(c: Config, w: World, w': World) {
    && (w.cursor.Some? ==> w.cursor.value <= w.now)
    && RecentLeads(c, w) <= w'.deals.Keys
    && w' == w.(deals := Upsert(c, w, RecentLeads(c, w)),
                crmEvents := w.crmEvents + RecentEvents(c, w),
                cursor := Some(WindowThrough(c, w)),
                first := if w.cursor.Some? then w.first else WindowFrom(c, w) / 1000)
  }

  /**
   Another writer of the connection's settings, which had read them before the
   cursor was last moved, writes an earlier or empty cursor back.
   */
  ghost predicate CursorPutBack(w: World, w': World) {
    && w.cursor.Some? && (w'.cursor.Some? ==> w'.cursor.value < w.cursor.value)
    && w' == w.(cursor := w'.cursor)
  }

  /**
   What a successful pass has read and what it leaves, from the settings alone:
   the window starts the overlap before the cursor, or a lookback before the
   clock when there is none, and ends a lookback after the cursor or at the
   clock, whichever is first. Every lead and stage change stamped in a second of
   it is stored, and no other row has changed.
   */
  lemma PassCovers(c: Config, w: World, w': World, id: nat)
    requires PassSucceeds(c, w, w')
    ensures w'.first == if w.cursor.Some? then w.first else (w.now - c.lookbackMs) / 1000
    ensures w'.cursor == Some(if w.cursor.Some? then Min(w.now, w.cursor.value + c.lookbackMs) else w.now)
    ensures var from := if w.cursor.Some? then w.cursor.value - c.overlapMs else w.now - c.lookbackMs;
            var through := if w.cursor.Some? then Min(w.now, w.cursor.value + c.lookbackMs) else w.now;
            && (id in w.leads && from / 1000 <= w.leads[id].updatedAt <= through / 1000 ==>
                  id in w'.deals && (w.leads[id].stage in c.stages ==> w'.deals[id] == w.leads[id]))
            && (id in w.stageEvents && from / 1000 <= w.stageEvents[id] <= through / 1000 ==> id in w'.crmEvents)
            && (!(id in w.leads && from / 1000 <= w.leads[id].updatedAt <= through / 1000) ==>
                  (id in w'.deals <==> id in w.deals) && (id in w.deals ==> w'.deals[id] == w.deals[id]))
            && (!(id in w.stageEvents && from / 1000 <= w.stageEvents[id] <= through / 1000) ==>
                  (id in w'.crmEvents <==> id in w.crmEvents))
  {
    assert WindowThrough(c, w) == if w.cursor.Some? then Min(w.now, w.cursor.value + c.lookbackMs) else w.now;
    if id in w.leads {
      assert UpdatedAt(w.leads)[id] == w.leads[id].updatedAt;
    }
    assert id in RecentLeads(c, w) ==> id in w'.deals;
  }

  ghost predicate Step(c: Config, w: World, w': World) {
    || CursorPutBack(w, w')
    || LeadChanges(w, w')
    || StageEventAppears(w, w')
    || TimePasses(w, w')
    || PassFails(c, w, w')
    || PassSucceeds(c, w, w')
  }

  ghost predicate Initial(w: World) {
    && w.cursor == None
    && w.crmEvents <= w.stageEvents.Keys
    && (forall id <- w.leads :: w.leads[id].updatedAt <= w.now / 1000)
    && (forall id <- w.stageEvents :: w.stageEvents[id] <= w.now / 1000)
  }

  ghost predicate IsRun(c: Config, run: seq<World>) {
    && |run| > 0
    && Initial(run[0])
    && (forall i :: 0 < i < |run| ==> Step(c, run[i - 1], run[i]))
  }

  // ----- what the cursor promises -----

  ghost predicate Covered(w: World, second: int) {
    w.cursor.Some? && w.first <= second < w.cursor.value / 1000
  }

  /**
   Every lead and stage change strictly before the cursor's second is stored; a
   lead of a known stage as amoCRM has it.
   */
  ghost predicate Sound(c: Config, w: World) {
    && (forall id <- w.leads :: Covered(w, w.leads[id].updatedAt) ==>
          id in w.deals && (w.leads[id].stage in c.stages ==> w.deals[id] == w.leads[id]))
    && (forall id <- w.stageEvents :: Covered(w, w.stageEvents[id]) ==> id in w.crmEvents)
  }

  ghost predicate Inv(c: Config, w: World) {
    && (w.cursor.Some? ==> w.cursor.value <= w.now)
    && w.crmEvents <= w.stageEvents.Keys
    && (forall id <- w.leads :: w.leads[id].updatedAt <= w.now / 1000)
    && (forall id <- w.stageEvents :: w.stageEvents[id] <= w.now / 1000)
    && Sound(c, w)
  }

  lemma FloorMonotone(a: int, b: int)
    requires a <= b
    ensures a / 1000 <= b / 1000
  {
  }

  /** A change stamped now falls at or after the cursor's second, outside its promise. */
  lemma SourceKeepsInv(c: Config, w: World, w': World)
    requires Inv(c, w)
    requires LeadChanges(w, w') || StageEventAppears(w, w') || TimePasses(w, w')
    ensures Inv(c, w')
  {
    FloorMonotone(w.now, w'.now);
    if w.cursor.Some? {
      FloorMonotone(w.cursor.value, w.now);
    }
  }

  /** An earlier cursor promises less. */
  lemma PutBackKeepsInv(c: Config, w: World, w': World)
    requires Inv(c, w) && CursorPutBack(w, w')
    ensures Inv(c, w')
  {
    if w'.cursor.Some? {
      FloorMonotone(w'.cursor.value, w.cursor.value);
    }
  }

  lemma PassFailsKeepsInv(c: Config, w: World, w': World)
    requires Inv(c, w) && PassFails(c, w, w')
    ensures Inv(c, w')
  {
  }

  /** The window of a successful pass starts no later than the cursor's second, so no second is skipped. */
  lemma PassSucceedsKeepsInv(c: Config, w: World, w': World)
    requires ValidConfig(c) && Inv(c, w) && PassSucceeds(c, w, w')
    ensures Inv(c, w')
  {
    var from, through := WindowFrom(c, w), WindowThrough(c, w);
    if w.cursor.Some? {
      FloorMonotone(from, w.cursor.value);
    }
    var stamps := UpdatedAt(w.leads);
    forall id | id in w.leads && Covered(w', w.leads[id].updatedAt)
      ensures id in w'.deals && (w.leads[id].stage in c.stages ==> w'.deals[id] == w.leads[id])
    {
      assert stamps[id] == w.leads[id].updatedAt;
      if from / 1000 <= stamps[id] {
        assert id in RecentLeads(c, w);
      } else {
        assert Covered(w, w.leads[id].updatedAt);
      }
    }
    forall id | id in w.stageEvents && Covered(w', w.stageEvents[id])
      ensures id in w'.crmEvents
    {
      if from / 1000 <= w.stageEvents[id] {
        assert id in RecentEvents(c, w);
      } else {
        assert Covered(w, w.stageEvents[id]);
      }
    }
  }

  /**
   In every state of every run, failures included, each lead and each stage
   change from the first window up to the cursor is stored, leads of a known
   stage at their source version.
   */
  lemma {:induction false} EveryRunIsSound(c: Config, run: seq<World>)
    requires ValidConfig(c) && IsRun(c, run)
    ensures forall w <- run :: Inv(c, w)
  {
    var n := |run| - 1;
    if n == 0 {
      assert Inv(c, run[0]);
    } else {
      var before := run[..n];
      EveryRunIsSound(c, before);
      var w, w' := run[n - 1], run[n];
      assert w == before[n - 1];
      assert Step(c, w, w');
      if PassSucceeds(c, w, w') {
        PassSucceedsKeepsInv(c, w, w');
      } else if PassFails(c, w, w') {
        PassFailsKeepsInv(c, w, w');
      } else if CursorPutBack(w, w') {
        PutBackKeepsInv(c, w, w');
      } else {
        SourceKeepsInv(c, w, w');
      }
      assert run == before + [w'];
    }
  }

  /**
   No step moves the cursor past the clock, and one moves it back if and only if
   another writer puts an older one back; success moves it by min(lag, lookback).
   */
  lemma CursorAdvance(c: Config, w: World, w': World)
    requires ValidConfig(c) && Inv(c, w) && Step(c, w, w') && w.cursor.Some?
    ensures w'.cursor.Some? ==> w'.cursor.value <= w'.now
    ensures (w'.cursor.Some? && w.cursor.value <= w'.cursor.value) <==> !CursorPutBack(w, w')
    ensures PassSucceeds(c, w, w') ==>
              w'.cursor.value - w.cursor.value == Min(w.now - w.cursor.value, c.lookbackMs)
  {
  }

  /** Over any stretch of a run without such a write, the cursor never goes back. */
  lemma {:induction false} CursorNeverGoesBack(c: Config, run: seq<World>, i: nat, j: nat)
    requires ValidConfig(c) && IsRun(c, run) && i <= j < |run| && run[i].cursor.Some?
    requires forall k :: i < k <= j ==> !CursorPutBack(run[k - 1], run[k])
    ensures run[j].cursor.Some? && run[i].cursor.value <= run[j].cursor.value
    decreases j
  {
    EveryRunIsSound(c, run);
    if i < j {
      CursorNeverGoesBack(c, run, i, j - 1);
      assert Step(c, run[j - 1], run[j]) && !CursorPutBack(run[j - 1], run[j]);
      hide Step, CursorPutBack, Inv;
      CursorAdvance(c, run[j - 1], run[j]);
    }
  }

  ghost predicate ArePasses(c: Config, passes: seq<World>) {
    && |passes| > 0 && passes[0].cursor.Some? && passes[0].cursor.value <= passes[0].now
    && (forall i :: 0 < i < |passes| ==> PassSucceeds(c, passes[i - 1], passes[i]))
  }

  /** A long outage is caught up: the k-th pass at one clock reading reaches min(now, cursor + k * lookback). */
  lemma {:induction false} OutageIsCaughtUp(c: Config, passes: seq<World>)
    requires ArePasses(c, passes)
    ensures var first, last := passes[0], passes[|passes| - 1];
            && last.now == first.now
            && last.cursor == Some(Min(first.now, first.cursor.value + (|passes| - 1) * c.lookbackMs))
  {
    var n := |passes| - 1;
    if n > 0 {
      var before := passes[..n];
      OutageIsCaughtUp(c, before);
      assert before[n - 1] == passes[n - 1];
      assert n * c.lookbackMs == (n - 1) * c.lookbackMs + c.lookbackMs;
      assert PassSucceeds(c, passes[n - 1], passes[n]);
    }
  }

  /**
   The parity guard counts live rows, not versions. After a pass that it lets
   through, a lead of the window is stored as amoCRM has it exactly when its
   stage is known or the stored copy was already current.
   */
  lemma FreshnessAfterPass(c: Config, w: World, w': World, id: nat)
    requires PassSucceeds(c, w, w') && id in RecentLeads(c, w)
    ensures (id in w'.deals && w'.deals[id] == w.leads[id])
              <==> (w.leads[id].stage in c.stages || (id in w.deals && w.deals[id] == w.leads[id]))
  {
  }

  /** A stored deal moved to an unknown stage stays stale behind an advanced cursor. */
  lemma ParityMissesUnknownStage()
    ensures exists c, w, w', id ::
              && ValidConfig(c) && Inv(c, w) && PassSucceeds(c, w, w') && id in w.leads && id in w'.deals
              && RecentLeads(c, w) <= w'.deals.Keys
              && Covered(w', w.leads[id].updatedAt) && w'.deals[id] != w.leads[id]
  {
    var c := Config(1800000, 0, 5000, 10000, {});
    var w := World(map[7 := Lead(1, 9, 2)], map[], map[7 := Lead(0, 3, 1)], {}, None, 0, 9000);
    var w' := w.(cursor := Some(WindowThrough(c, w)), first := WindowFrom(c, w) / 1000);
    assert Inv(c, w);
    assert Upsert(c, w, RecentLeads(c, w)) == w.deals;
    assert PassSucceeds(c, w, w');
    assert Covered(w', w.leads[7].updatedAt);
  }

  // ----- the pass itself -----

  datatype Outcome = Done | WaitingInitialSnapshot | CursorInFuture | RequestFailed | Truncated | ParityFailed

  /** The server's answer order for a filter: every match once. */
  ghost predicate Lists(listing: seq<nat>, matches: set<nat>) {
    Distinct(listing) && Elements(listing) == matches
  }

  /** The store after one lead. */
  function UpsertedOne(c: Config, leads: map<nat, Lead>, deals: map<nat, Lead>, id: nat): map<nat, Lead>
    requires id in leads
  {
    if leads[id].stage in c.stages then deals[id := leads[id]] else deals
  }

  lemma UpsertOne(c: Config, leads: map<nat, Lead>, deals: map<nat, Lead>, ids: set<nat>, id: nat)
    requires id in leads
    ensures Upserted(c, leads, deals, ids + {id}) == UpsertedOne(c, leads, Upserted(c, leads, deals, ids), id)
  {
  }

  lemma UpsertNext(c: Config, leads: map<nat, Lead>, deals: map<nat, Lead>, batch: seq<nat>, n: nat)
    requires n < |batch| && batch[n] in leads
    ensures Upserted(c, leads, deals, Elements(batch[..n + 1]))
         == UpsertedOne(c, leads, Upserted(c, leads, deals, Elements(batch[..n])), batch[n])
  {
    hide Upserted, UpsertedOne;
    assert Elements(batch[..n + 1]) == Elements(batch[..n]) + {batch[n]};
    UpsertOne(c, leads, deals, Elements(batch[..n]), batch[n]);
  }

  lemma UpsertNone(c: Config, leads: map<nat, Lead>, deals: map<nat, Lead>, batch: seq<nat>)
    ensures Upserted(c, leads, deals, Elements(batch[..0])) == deals
  {
  }

  lemma UpsertUnion(c: Config, leads: map<nat, Lead>, deals: map<nat, Lead>, a: set<nat>, b: set<nat>)
    ensures Upserted(c, leads, Upserted(c, leads, deals, a), b) == Upserted(c, leads, deals, a + b)
  {
  }

  lemma UpsertTwice(c: Config, leads: map<nat, Lead>, deals: map<nat, Lead>, a: seq<nat>, b: seq<nat>)
    ensures Upserted(c, leads, Upserted(c, leads, deals, Elements(a)), Elements(b))
         == Upserted(c, leads, deals, Elements(AddNew(a, b)))
  {
    hide *;
    AddNewMeans(a, b);
    UpsertUnion(c, leads, deals, Elements(a), Elements(b));
  }

  lemma PrefixElements(a: seq<nat>, b: seq<nat>)
    requires a <= b
    ensures Elements(a) <= Elements(b)
  {
  }

  /** Counting the stored ids, as the parity guard does, tells whether all of them are stored. */
  lemma CountTellsSubset(ids: set<nat>, stored: set<nat>)
    ensures |ids * stored| == |ids| <==> ids <= stored
  {
    SubsetIsWholeIff(ids * stored, ids);
    assert ids * stored == ids <==> ids <= stored;
  }

  /**
   Collects distinct events page after page; unlike the deal loop it finishes
   exactly the listings within its cap. Here and below, requests and writes may
   fail at any point where `mayFail` says so, and nowhere otherwise.
   */
  method CollectStageEvents(listing: seq<nat>, max: nat, mayFail: bool) returns (r: Outcome, eventsById: seq<nat>)
    requires Distinct(listing) && max > 0
    ensures eventsById <= listing
    ensures r.Done? || (r.RequestFailed? && mayFail) || r.Truncated?
    ensures r.Truncated? ==> |listing| > |eventsById| == max
    ensures r.Done? ==> |listing| <= max && eventsById == listing
  {
    var pageLimit := Min(100, max);
    var page, hasNextPage := 1, false;
    ghost var asked: nat := pageLimit;
    eventsById := [];
    while |eventsById| < max
      invariant EventLoop(|listing|, max, page, asked, |eventsById|)
      invariant eventsById <= listing
      invariant hasNextPage == (page > 1)
      decreases |listing| + 1 - page
    {
      if mayFail {
        if * {
          return RequestFailed, eventsById;
        }
      }
      var limit := Min(pageLimit, max - |eventsById|);
      EventPage(|listing|, max, page, asked, |eventsById|);
      FetchBounds(listing, page, limit);
      PrefixGrows(listing, eventsById, page, limit);
      var data := Fetch(listing, page, limit);
      if |data.items| == 0 {
        break;
      }
      eventsById := AddNew(eventsById, data.items);
      hasNextPage := data.hasNext;
      if !hasNextPage {
        break;
      }
      page, asked := page + 1, limit;
    }
    r := if hasNextPage && |eventsById| >= max then Truncated else Done;
  }

  class Reconciler {
    const config: Config
    var leads: map<nat, Lead>
    var stageEvents: map<nat, int>
    var deals: map<nat, Lead>
    var crmEvents: set<nat>
    var cursor: Option<int>
    var first: int
    var now: int

    ghost function View(): World
      reads this
    {
      World(leads, stageEvents, deals, crmEvents, cursor, first, now)
    }

    constructor (config: Config, leads: map<nat, Lead>, stageEvents: map<nat, int>, deals: map<nat, Lead>, now: int)
      requires forall id <- leads :: leads[id].updatedAt <= now / 1000
      requires forall id <- stageEvents :: stageEvents[id] <= now / 1000
      ensures this.config == config && Initial(View())
      ensures this.leads == leads && this.stageEvents == stageEvents && this.deals == deals && this.now == now
    {
      this.config := config;
      this.leads, this.stageEvents, this.deals, this.now := leads, stageEvents, deals, now;
      crmEvents, cursor, first := {}, None, 0;
    }

    /** Stores a lead; one of an unknown stage is passed over without an error. */
    method UpsertDeal(id: nat)
      requires id in leads
      modifies this`deals
      ensures deals == UpsertedOne(config, leads, old(deals), id)
    {
      if leads[id].stage !in config.stages {
        return;
      }
      deals := deals[id := leads[id]];
    }

    /** Stores the leads of a page one by one; a write may fail after any of them. */
    method UpsertLeads(batch: seq<nat>, mayFail: bool) returns (stored: nat)
      requires forall id <- batch :: id in leads
      modifies this`deals
      ensures !mayFail ==> stored == |batch|
      ensures stored <= |batch| && deals == Upserted(config, leads, old(deals), Elements(batch[..stored]))
    {
      hide *;
      stored := 0;
      UpsertNone(config, leads, deals, batch);
      while stored < |batch|
        invariant stored <= |batch| && deals == Upserted(config, leads, old(deals), Elements(batch[..stored]))
      {
        if mayFail {
          if * {
            return;
          }
        }
        UpsertNext(config, leads, old(deals), batch, stored);
        UpsertDeal(batch[stored]);
        stored := stored + 1;
      }
    }

    /** Stores the leads of a page, counting in the ones seen for the first time. */
    method UpsertPage(listing: seq<nat>, seen: seq<nat>, page: nat, limit: nat, ghost before: map<nat, Lead>,
                      mayFail: bool)
      returns (stored: nat, copied: seq<nat>)
      requires page >= 1 && limit >= 1 && Distinct(listing) && seen <= listing && Span(page - 1, limit) <= |seen|
      requires forall id <- Fetch(listing, page, limit).items :: id in leads
      requires deals == Upserted(config, leads, before, Elements(seen))
      modifies this`deals
      ensures var items := Fetch(listing, page, limit).items;
              && stored <= |items| && (!mayFail ==> stored == |items|)
              && copied == AddNew(seen, items[..stored]) && copied <= listing
              && (stored == |items| ==> copied == AddNew(seen, items))
      ensures deals == Upserted(config, leads, before, Elements(copied))
    {
      hide *;
      var items := Fetch(listing, page, limit).items;
      stored := UpsertLeads(items, mayFail);
      UpsertTwice(config, leads, before, seen, items[..stored]);
      PartGrows(listing, seen, page, limit, stored);
      copied := AddNew(seen, items[..stored]);
      assert stored == |items| ==> items[..stored] == items;
    }

    /** Copies page after page until no page follows or maxDeals records were fetched. */
    method CopyRecentDeals(listing: seq<nat>, mayFail: bool) returns (r: Outcome, externalIds: seq<nat>)
      requires ValidConfig(config)
      requires Distinct(listing) && forall id <- listing :: id in leads
      modifies this`deals
      ensures externalIds <= listing
      ensures deals == Upserted(config, leads, old(deals), Elements(externalIds))
      ensures r.Done? || (r.RequestFailed? && mayFail) || r.Truncated?
      ensures r.Truncated? ==> |listing| > |externalIds| == DealCapacity(config.maxDeals)
      ensures r.Done? ==> |listing| <= DealCapacity(config.maxDeals) && externalIds == listing
    {
      var max := config.maxDeals;
      var pageLimit := Min(250, max);
      var page, total, hasNextPage := 1, 0, false;
      externalIds := [];
      UpsertNone(config, leads, deals, externalIds);
      assert pageLimit >= 1 && DealLoop(|listing|, max, page, total, |externalIds|);
      hide *;
      while total < max
        invariant DealLoop(|listing|, max, page, total, |externalIds|) && hasNextPage == (page > 1)
        invariant externalIds <= listing
        invariant deals == Upserted(config, leads, old(deals), Elements(externalIds))
        decreases max - total
      {
        if mayFail {
          if * {
            return RequestFailed, externalIds;
          }
        }
        var limit: nat := Min(pageLimit, max - total);
        assert limit >= 1;
        DealStep(listing, externalIds, max, page, total);
        var data := Fetch(listing, page, limit);
        if |data.items| == 0 {
          break;
        }
        var stored, copied := UpsertPage(listing, externalIds, page, limit, old(deals), mayFail);
        if stored < |data.items| {
          return RequestFailed, copied;
        }
        externalIds := copied;
        total := total + |data.items|;
        hasNextPage := data.hasNext;
        if !hasNextPage {
          break;
        }
        page := page + 1;
      }
      if hasNextPage && total >= max {
        CapUsedUp(|listing|, max, page, total, |externalIds|);
        return Truncated, externalIds;
      }
      r := Done;
    }

    /** The copy followed by the parity guard, which counts the live rows of the leads fetched. */
    method SyncRecentDeals(listing: seq<nat>, mayFail: bool) returns (r: Outcome, ghost copied: seq<nat>)
      requires ValidConfig(config)
      requires Distinct(listing) && forall id <- listing :: id in leads
      modifies this`deals
      ensures copied <= listing
      ensures deals == Upserted(config, leads, old(deals), Elements(copied))
      ensures !r.WaitingInitialSnapshot? && !r.CursorInFuture? && (r.RequestFailed? ==> mayFail)
      ensures r.Truncated? ==> |listing| > |copied| == DealCapacity(config.maxDeals)
      ensures r.Done? || r.ParityFailed? ==>
                |listing| <= DealCapacity(config.maxDeals) && copied == listing
      ensures r.Done? ==> Elements(listing) <= deals.Keys
      ensures r.ParityFailed? ==> !(Elements(listing) <= deals.Keys)
    {
      var externalIds;
      r, externalIds := CopyRecentDeals(listing, mayFail);
      copied := externalIds;
      if r.Done? {
        var ids := Elements(externalIds);
        CountTellsSubset(ids, deals.Keys);
        r := if |ids * deals.Keys| != |ids| then ParityFailed else Done;
      }
    }

    /** The events collected are stored even when the listing turns out truncated. */
    method SyncRecentStageEvents(listing: seq<nat>, mayFail: bool) returns (r: Outcome)
      requires ValidConfig(config) && Distinct(listing)
      modifies this`crmEvents
      ensures old(crmEvents) <= crmEvents <= old(crmEvents) + Elements(listing)
      ensures r.Done? || (r.RequestFailed? && mayFail) || r.Truncated?
      ensures r.Truncated? ==> |listing| > config.maxEvents
      ensures r.Truncated? && !mayFail ==> crmEvents == old(crmEvents) + Elements(listing[..config.maxEvents])
      ensures r.Done? ==> |listing| <= config.maxEvents && Elements(listing) <= crmEvents
    {
      var eventsById;
      r, eventsById := CollectStageEvents(listing, config.maxEvents, mayFail);
      if r.RequestFailed? {
        return;
      }
      for i := 0 to |eventsById|
        invariant crmEvents == old(crmEvents) + Elements(eventsById[..i])
        invariant Elements(eventsById[..i]) <= Elements(listing)
      {
        if mayFail {
          if * {
            r := RequestFailed;
            return;
          }
        }
        assert Elements(eventsById[..i + 1]) == Elements(eventsById[..i]) + {eventsById[i]};
        PrefixElements(eventsById[..i + 1], listing);
        crmEvents := crmEvents + {eventsById[i]};
      }
      if r.Done? {
        var ids := Elements(eventsById);
        CountTellsSubset(ids, crmEvents);
        r := if |ids * crmEvents| != |ids| then ParityFailed else Done;
      }
    }

    /** Both copies in order; what was copied before a failure is kept. */
    method CopyWindow(dealListing: seq<nat>, eventListing: seq<nat>, mayFail: bool)
      returns (r: Outcome, ghost copied: set<nat>, ghost stored: set<nat>)
      requires ValidConfig(config)
      requires Distinct(dealListing) && (forall id <- dealListing :: id in leads) && Distinct(eventListing)
      modifies this`deals, this`crmEvents
      ensures !r.WaitingInitialSnapshot? && !r.CursorInFuture? && (r.RequestFailed? ==> mayFail)
      ensures r.ParityFailed? ==> copied == Elements(dealListing) && !(Elements(dealListing) <= deals.Keys)
      ensures copied <= Elements(dealListing) && stored <= Elements(eventListing)
      ensures deals == Upserted(config, leads, old(deals), copied) && crmEvents == old(crmEvents) + stored
      ensures r.Done? ==> copied == Elements(dealListing) && stored == Elements(eventListing)
      ensures r.Done? ==> Elements(dealListing) <= deals.Keys
      ensures r.Done? ==> |dealListing| <= DealCapacity(config.maxDeals) && |eventListing| <= config.maxEvents
      ensures r.Truncated? ==> |dealListing| > DealCapacity(config.maxDeals) || |eventListing| > config.maxEvents
    {
      ghost var ids;
      r, ids := SyncRecentDeals(dealListing, mayFail);
      PrefixElements(ids, dealListing);
      copied, stored := Elements(ids), {};
      if r.Done? {
        r := SyncRecentStageEvents(eventListing, mayFail);
        stored := if r.Done? then Elements(eventListing) else crmEvents - old(crmEvents);
      }
    }

    /**
     One reconciliation pass; every way it can end is a step of the run model.
     When nothing breaks, it succeeds if and only if there is a snapshot, the
     cursor is not in the future, both listings are within their limits, and
     every lead of the window is of a known stage or live already.
     */
    method ReconcileRecentChanges(hasSnapshot: bool, dealListing: seq<nat>, eventListing: seq<nat>, mayFail: bool)
      returns (r: Outcome)
      requires ValidConfig(config)
      requires Lists(dealListing, RecentLeads(config, View()))
      requires Lists(eventListing, RecentEvents(config, View()))
      modifies this`deals, this`crmEvents, this`cursor, this`first
      ensures r.Done? ==> PassSucceeds(config, old(View()), View())
      ensures !r.Done? ==> PassFails(config, old(View()), View())
      ensures r.WaitingInitialSnapshot? <==> !hasSnapshot
      ensures r.CursorInFuture? <==> hasSnapshot && old(cursor).Some? && old(cursor).value > now
      ensures r.WaitingInitialSnapshot? || r.CursorInFuture? ==> View() == old(View())
      ensures r.RequestFailed? ==> mayFail
      ensures r.Done? ==> |dealListing| <= DealCapacity(config.maxDeals) && |eventListing| <= config.maxEvents
      ensures r.Truncated? ==> |dealListing| > DealCapacity(config.maxDeals) || |eventListing| > config.maxEvents
      ensures r.Done? ==>
                forall id <- dealListing :: id in leads && (leads[id].stage in config.stages || id in old(deals))
      ensures r.ParityFailed? ==>
                exists id <- dealListing :: id in leads && leads[id].stage !in config.stages && id !in old(deals)
    {
      ghost var w := View();
      if !hasSnapshot || (cursor.Some? && cursor.value > now) {
        assert View() == PartlyCopied(config, w, {}, {});
        PassFailsWith(config, w, {}, {});
        return if !hasSnapshot then WaitingInitialSnapshot else CursorInFuture;
      }
      var syncFrom := if cursor.Some? then cursor.value - config.overlapMs else now - config.lookbackMs;
      var syncThrough := Min(now, (if cursor.Some? then cursor.value else syncFrom) + config.lookbackMs);
      ListedLeadsExist(config, w, dealListing);
      hide Elements, Within, Upserted, DealCapacity, Distinct;
      ghost var copied, stored;
      r, copied, stored := CopyWindow(dealListing, eventListing, mayFail);
      assert View() == PartlyCopied(config, w, copied, stored);
      PassFailsWith(config, w, copied, stored);
      hide PassFails;
      if copied == Elements(dealListing) {
        LiveAfterCopyIff(config, w.leads, w.deals, dealListing);
      }
      if r.Done? {
        if mayFail {
          if * {
            return RequestFailed;  // the fact marts could not be refreshed
          }
        }
        if cursor.None? {
          first := syncFrom / 1000;
        }
        cursor := Some(syncThrough);
      }
    }
  }

  /** After the copy every listed lead is live exactly when each one's stage is known or it was live before. */
  lemma LiveAfterCopyIff(c: Config, leads: map<nat, Lead>, deals: map<nat, Lead>, listing: seq<nat>)
    requires forall id <- listing :: id in leads
    ensures Elements(listing) <= Upserted(c, leads, deals, Elements(listing)).Keys <==>
            forall id <- listing :: leads[id].stage in c.stages || id in deals
  {
    var after := Upserted(c, leads, deals, Elements(listing));
    forall id | id in listing
      ensures id in after <==> leads[id].stage in c.stages || id in deals
    {
      assert id in Elements(listing);
    }
    assert forall id :: id in Elements(listing) <==> id in listing;
  }

  lemma ListedLeadsExist(c: Config, w: World, listing: seq<nat>)
    requires Lists(listing, RecentLeads(c, w))
    ensures forall id <- listing :: id in w.leads
  {
    forall id | id in listing
      ensures id in w.leads
    {
      assert id in Elements(listing);
    }
  }
}
