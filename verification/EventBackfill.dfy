/**
 The event back-fill: every stream of events is read in daily windows, a window
 the server finds too large is bisected, and the position is persisted so that
 a crashed run resumes. The server may refuse a window after any page where
 `refuses` says so; any request or write may fail or be the last one before a
 crash where `mayFail` says so, and nowhere otherwise. Times are seconds.
 */
module EventBackfill {
  import opened Base
  import opened Paging
  import opened EventCursor

  datatype Event = Event(id: nat, at: nat)

  /** The ids of a stream's events created in [lo, hi), in the server's order. */
  function Window(stream: seq<Event>, lo: nat, hi: nat): seq<nat> {
    if |stream| == 0 then []
    else (if lo <= stream[0].at < hi then [stream[0].id] else []) + Window(stream[1..], lo, hi)
  }

  /** The same as a set. */
  function Ids(stream: seq<Event>, lo: nat, hi: nat): set<nat> {
    set e | e in stream && lo <= e.at < hi :: e.id
  }

  lemma {:induction false} WindowHasIds(stream: seq<Event>, lo: nat, hi: nat)
    ensures Elements(Window(stream, lo, hi)) == Ids(stream, lo, hi)
  {
    if |stream| > 0 {
      WindowHasIds(stream[1..], lo, hi);
      var head := if lo <= stream[0].at < hi then {stream[0].id} else {};
      assert Ids(stream, lo, hi) == head + Ids(stream[1..], lo, hi);
      assert Elements(Window(stream, lo, hi)) == head + Elements(Window(stream[1..], lo, hi));
    }
  }

  lemma SplitIds(stream: seq<Event>, lo: nat, mid: nat, hi: nat)
    requires lo <= mid <= hi
    ensures Ids(stream, lo, hi) == Ids(stream, lo, mid) + Ids(stream, mid, hi)
  {
  }

  // ----- daily windows -----

  const DAY: nat := 24 * 60 * 60

  datatype TimeWindow = Closed(from: nat, to: nat) | Open(from: nat)

  function DailyWindows(from: nat, to: nat): seq<TimeWindow>
    decreases 1 + to - from
  {
    if to < from then [] else [Closed(from, Min(to, from + DAY - 1))] + DailyWindows(from + DAY, to)
  }

  /** A range that ends before it starts becomes one window without an upper end. */
  method EventTimeWindows(from: nat, to: nat) returns (windows: seq<TimeWindow>)
    ensures windows == if to < from then [Open(from)] else DailyWindows(from, to)
  {
    if to < from {
      return [Open(from)];
    }
    windows := [];
    var windowFrom := from;
    while windowFrom <= to
      invariant windows + DailyWindows(windowFrom, to) == DailyWindows(from, to)
      decreases 1 + to - windowFrom
    {
      windows := windows + [Closed(windowFrom, Min(to, windowFrom + DAY - 1))];
      windowFrom := windowFrom + DAY;
    }
  }

  /** The windows tile [from, to]: each starts right after the one before it; all but the last are exactly a day. */
  ghost predicate Tiles(windows: seq<TimeWindow>, from: nat, to: nat) {
    && |windows| > 0
    && var w := windows[0];
       && w.Closed? && from == w.from <= w.to <= to && w.to < from + 86400
       && if |windows| == 1 then w.to == to else w.to + 1 == from + 86400 && Tiles(windows[1..], w.to + 1, to)
  }

  lemma {:induction false} DailyWindowsTile(from: nat, to: nat)
    requires from <= to
    ensures Tiles(DailyWindows(from, to), from, to)
    decreases 1 + to - from
  {
    var windows, rest := DailyWindows(from, to), DailyWindows(from + DAY, to);
    assert windows[1..] == rest;
    if from + DAY <= to {
      DailyWindowsTile(from + DAY, to);
    }
  }

  /** Every second of a tiled range lies in exactly one window. */
  lemma {:induction false} EachSecondInOneWindow(windows: seq<TimeWindow>, from: nat, to: nat, t: nat) returns (k: nat)
    requires Tiles(windows, from, to) && from <= t <= to
    ensures k < |windows|
    ensures forall j :: 0 <= j < |windows| ==> windows[j].Closed? && (windows[j].from <= t <= windows[j].to <==> j == k)
  {
    if t <= windows[0].to {
      k := 0;
      if |windows| > 1 {
        LaterWindows(windows[1..], windows[0].to + 1, to);
      }
      assert forall j :: 0 < j < |windows| ==> windows[j] == windows[1..][j - 1];
    } else {
      var k' := EachSecondInOneWindow(windows[1..], windows[0].to + 1, to, t);
      k := k' + 1;
      assert forall j :: 0 < j < |windows| ==> windows[j] == windows[1..][j - 1];
    }
  }

  lemma {:induction false} LaterWindows(windows: seq<TimeWindow>, from: nat, to: nat)
    requires Tiles(windows, from, to)
    ensures forall w <- windows :: w.Closed? && from <= w.from
  {
    if |windows| > 1 {
      LaterWindows(windows[1..], windows[0].to + 1, to);
      assert windows == [windows[0]] + windows[1..];
    }
  }

  // ----- what is stored, and what the cursor promises -----

  /** The events of the first n streams created in [lower, end). */
  function StreamIds(streams: seq<seq<Event>>, n: nat, lower: nat, end: nat): set<nat>
    requires n <= |streams|
  {
    if n == 0 then {} else StreamIds(streams, n - 1, lower, end) + Ids(streams[n - 1], lower, end)
  }

  /** The events due before position p: all of the streams before it, and its own stream up to its second. */
  function Due(streams: seq<seq<Event>>, lower: nat, end: nat, p: Position): set<nat>
    requires p.stream < |streams|
  {
    StreamIds(streams, p.stream, lower, end) + Ids(streams[p.stream], lower, p.from)
  }

  lemma {:induction false} StreamIdsMeans(streams: seq<seq<Event>>, n: nat, lower: nat, end: nat, id: nat)
    requires n <= |streams|
    ensures id in StreamIds(streams, n, lower, end) <==>
              exists j, e :: 0 <= j < n && e in streams[j] && lower <= e.at < end && e.id == id
  {
    if n > 0 {
      StreamIdsMeans(streams, n - 1, lower, end, id);
    }
  }

  /** A later lower bound leaves less to store. */
  lemma {:induction false} LaterBound(streams: seq<seq<Event>>, n: nat, lower: nat, lower': nat, end: nat)
    requires n <= |streams| && lower <= lower'
    ensures StreamIds(streams, n, lower', end) <= StreamIds(streams, n, lower, end)
  {
    if n > 0 {
      LaterBound(streams, n - 1, lower, lower', end);
    }
  }

  /** Reading a window that starts at position p makes the events up to its end due and stored. */
  lemma WindowIsDue(streams: seq<seq<Event>>, lower: nat, end: nat, i: nat, from: nat, hi: nat)
    requires i < |streams| && lower <= from <= hi
    ensures Due(streams, lower, end, Position(i, hi))
              == Due(streams, lower, end, Position(i, from)) + Ids(streams[i], from, hi)
  {
    SplitIds(streams[i], lower, from, hi);
  }

  /** A persisted position can be resumed from without losing an event. */
  ghost predicate Safe(c: Cursor, store: set<nat>, streams: seq<seq<Event>>, lower: nat, end: nat, now: nat) {
    c.At? ==> c.p.from <= now && c.p.stream < |streams| && Due(streams, lower, end, c.p) <= store
  }

  datatype Outcome = Done | TooManyData | Failed

  class EventSync {
    const streams: seq<seq<Event>>
    const refuses: (nat, nat, nat) -> bool  // the server may find this window of a stream, from .. to, too large
    var crmEvents: set<nat>
    var insertedEvents: nat
    var fetchedEvents: nat
    var cursor: Cursor
    var now: nat
    ghost var start: Option<Position>  // the position the current run resumes from
    ghost var last: Option<Position>   // the latest position it persisted, or its start
    ghost var inOrder: bool            // no position it persisted was before an earlier one

    constructor (streams: seq<seq<Event>>, refuses: (nat, nat, nat) -> bool, crmEvents: set<nat>, now: nat)
      ensures this.streams == streams && this.refuses == refuses && this.crmEvents == crmEvents && this.now == now
      ensures cursor == Empty && InOrder() && insertedEvents == fetchedEvents == 0
    {
      this.streams, this.refuses, this.crmEvents, this.now := streams, refuses, crmEvents, now;
      insertedEvents, fetchedEvents, cursor, start, last, inOrder := 0, 0, Empty, None, None, true;
    }

    /** The server may refuse some single second of a stream, which cannot be split. */
    ghost predicate SecondRefused(i: nat, from: nat, to: nat) {
      exists t: nat :: from <= t <= to && refuses(i, t, t)
    }

    /** Stores the events of a page that were not stored before it, counting each. */
    method IngestPage(events: seq<nat>, mayFail: bool) returns (ok: bool)
      modifies this`crmEvents, this`insertedEvents, this`fetchedEvents
      ensures ok || mayFail
      ensures fetchedEvents == old(fetchedEvents) + |Elements(events)|
      ensures old(crmEvents) <= crmEvents <= old(crmEvents) + Elements(events)
      ensures ok ==> crmEvents == old(crmEvents) + Elements(events)
      ensures insertedEvents - old(insertedEvents) == |crmEvents| - |old(crmEvents)|
    {
      var uniqueEvents := AddNew([], events);
      UniqueEvents(events);
      var existingIds := crmEvents;
      fetchedEvents := fetchedEvents + |uniqueEvents|;
      assert crmEvents == Stored(existingIds, uniqueEvents, 0);
      hide AddNew, Distinct, Elements;
      for i := 0 to |uniqueEvents|
        invariant fetchedEvents == old(fetchedEvents) + |uniqueEvents|
        invariant crmEvents == Stored(existingIds, uniqueEvents, i)
        invariant insertedEvents - old(insertedEvents) == |crmEvents| - |existingIds|
      {
        var id := uniqueEvents[i];
        StoreNext(existingIds, uniqueEvents, i);
        if id !in existingIds {
          if mayFail {
            if * {
              return false;
            }
          }
          crmEvents := crmEvents + {id};
          insertedEvents := insertedEvents + 1;
        }
      }
      ok := true;
    }

    /** Stores a page and persists the window it belongs to. */
    method IngestBatch(i: nat, from: nat, events: seq<nat>, page: nat, mayFail: bool, ghost lower: nat, ghost end: nat)
      returns (ok: bool)
      requires Ready(i, from, lower, end)
      modifies this`crmEvents, this`insertedEvents, this`fetchedEvents, this`cursor, this`last, this`inOrder
      ensures Ready(i, from, lower, end) && (ok || mayFail)
      ensures ok ==> cursor == At(Position(i, from), page, fetchedEvents, insertedEvents)
      ensures old(crmEvents) <= crmEvents <= old(crmEvents) + Elements(events)
      ensures ok ==> crmEvents == old(crmEvents) + Elements(events)
      ensures insertedEvents - old(insertedEvents) == |crmEvents| - |old(crmEvents)|
    {
      ok := IngestPage(events, mayFail);
      if ok {
        TouchJob(i, from, page);
      }
    }

    /** The positions persisted so far never decreased from the start, and the cursor holds the latest. */
    ghost predicate InOrder()
      reads this
    {
      && inOrder && (cursor.At? ==> last == Some(cursor.p))
      && (start.Some? ==> last.Some? && AtMost(start.value, last.value))
    }

    /** Position p may come next. */
    ghost predicate Ordered(p: Position)
      reads this
    {
      InOrder() && (last.Some? ==> AtMost(last.value, p))
    }

    /** The window starting at `from` in stream i may be read next. */
    ghost predicate Ready(i: nat, from: nat, lower: nat, end: nat)
      reads this
    {
      && i < |streams| && lower <= from <= now
      && Safe(cursor, crmEvents, streams, lower, end, now)
      && Due(streams, lower, end, Position(i, from)) <= crmEvents
      && Ordered(Position(i, from))
    }

    /**
     Reads one window, `from` .. `to`, page by page. A page may be refused as too
     much data, or end the call; pages already ingested stay stored.
     */
    method PaginateWindow(i: nat, from: nat, to: nat, mayFail: bool, ghost lower: nat, ghost end: nat)
      returns (r: Outcome)
      requires i < |streams| && Ready(i, from, lower, end)
      modifies this`crmEvents, this`insertedEvents, this`fetchedEvents, this`cursor, this`last, this`inOrder
      ensures Ready(i, from, lower, end)
      ensures (r.TooManyData? ==> refuses(i, from, to)) && (r.Failed? ==> mayFail)
      ensures old(crmEvents) <= crmEvents <= old(crmEvents) + Elements(Window(streams[i], from, to + 1))
      ensures r.Done? ==> crmEvents == old(crmEvents) + Elements(Window(streams[i], from, to + 1))
      ensures r.Done? && Window(streams[i], from, to + 1) != [] ==> cursor.At? && cursor.p == Position(i, from)
      ensures insertedEvents - old(insertedEvents) == |crmEvents| - |old(crmEvents)|
    {
      hide *;
      var listing := Window(streams[i], from, to + 1);
      ghost var store := crmEvents;
      var page := 1;
      NoneStored(store, listing);
      while true
        invariant page >= 1 && Span(page - 1, 100) <= |listing|
        invariant crmEvents == Stored(store, listing, Span(page - 1, 100))
        invariant insertedEvents - old(insertedEvents) == |crmEvents| - |store|
        invariant Ready(i, from, lower, end) && (page > 1 ==> cursor.At? && cursor.p == Position(i, from))
        decreases |listing| + 1 - page
      {
        if refuses(i, from, to) {
          if * {
            return TooManyData;
          }
        }
        if mayFail {
          if * {
            return Failed;
          }
        }
        var data := Fetch(listing, page, 100);
        StorePage(store, listing, page);
        if |data.items| == 0 {
          return Done;
        }
        var ok := IngestBatch(i, from, data.items, page, mayFail, lower, end);
        if !ok {
          return Failed;
        }
        if !data.hasNext {
          return Done;
        }
        page := page + 1;
      }
    }

    method TouchJob(i: nat, from: nat, page: nat)
      modifies this`cursor, this`last, this`inOrder
      ensures cursor == At(Position(i, from), page, fetchedEvents, insertedEvents)
      ensures last == Some(Position(i, from))
      ensures inOrder == (old(inOrder) && (old(last).Some? ==> AtMost(old(last).value, Position(i, from))))
    {
      cursor := At(Position(i, from), page, fetchedEvents, insertedEvents);
      inOrder := inOrder && (last.Some? ==> AtMost(last.value, cursor.p));
      last := Some(cursor.p);
    }

    /**
     A refused window wider than one second is split in half; a one-second window
     is not. So only a broken call or a refused second leaves the window undone.
     */
    method IngestWindow(i: nat, from: nat, to: nat, mayFail: bool, ghost lower: nat, ghost end: nat)
      returns (r: Outcome)
      requires from <= to <= now && Ready(i, from, lower, end)
      modifies this`crmEvents, this`insertedEvents, this`fetchedEvents, this`cursor, this`last, this`inOrder
      ensures old(crmEvents) <= crmEvents <= old(crmEvents) + Ids(streams[i], from, to + 1)
      ensures r.Done? ==> crmEvents == old(crmEvents) + Ids(streams[i], from, to + 1)
      ensures r.Done? ==> Due(streams, lower, end, Position(i, to + 1)) <= crmEvents
      ensures insertedEvents - old(insertedEvents) == |crmEvents| - |old(crmEvents)|
      ensures Safe(cursor, crmEvents, streams, lower, end, now) && Ordered(Position(i, to))
      ensures !r.TooManyData? && (r.Failed? ==> mayFail || SecondRefused(i, from, to))
      decreases 1 + to - from
    {
      hide *;
      ReadyUpTo(i, from, to, lower, end);
      WindowHasIds(streams[i], from, to + 1);
      r := PaginateWindow(i, from, to, mayFail, lower, end);
      ReadyUpTo(i, from, to, lower, end);
      if r.TooManyData? {
        if to <= from {
          RefusedHere(i, from);
          return Failed;
        }
        var midpoint := (from + to) / 2;
        SplitIds(streams[i], from, midpoint + 1, to + 1);
        r := IngestWindow(i, from, midpoint, mayFail, lower, end);
        OrderedLater(i, midpoint, to);
        RefusedWithin(i, from, midpoint, from, to);
        if r.Done? {
          ReadyNext(i, midpoint, lower, end);
          RefusedWithin(i, midpoint + 1, to, from, to);
          r := IngestWindow(i, midpoint + 1, to, mayFail, lower, end);
        }
      }
    }

    lemma ReadyUpTo(i: nat, from: nat, to: nat, lower: nat, end: nat)
      requires Ready(i, from, lower, end) && from <= to
      ensures i < |streams| && lower <= from <= now
      ensures Safe(cursor, crmEvents, streams, lower, end, now) && Ordered(Position(i, to))
      ensures Ids(streams[i], from, to + 1) <= crmEvents ==> Due(streams, lower, end, Position(i, to + 1)) <= crmEvents
    {
      WindowIsDue(streams, lower, end, i, from, to + 1);
      hide Due, Ids, Safe;
    }

    lemma ReadyNext(i: nat, to: nat, lower: nat, end: nat)
      requires i < |streams| && lower <= to + 1 <= now && Ordered(Position(i, to))
      requires Safe(cursor, crmEvents, streams, lower, end, now)
      requires Due(streams, lower, end, Position(i, to + 1)) <= crmEvents
      ensures Ready(i, to + 1, lower, end)
    {
      hide Due, Ids, Safe;
    }

    lemma OrderedLater(i: nat, from: nat, to: nat)
      requires Ordered(Position(i, from)) && from <= to
      ensures Ordered(Position(i, to))
    {
    }

    lemma RefusedHere(i: nat, t: nat)
      requires refuses(i, t, t)
      ensures SecondRefused(i, t, t)
    {
    }

    lemma RefusedWithin(i: nat, from: nat, to: nat, from': nat, to': nat)
      requires from' <= from && to <= to'
      ensures SecondRefused(i, from, to) ==> SecondRefused(i, from', to')
    {
    }

    /** The first window and then the rest, as long as each one is read to its end. */
    method IngestWindows(i: nat, windows: seq<TimeWindow>, from: nat, mayFail: bool, ghost lower: nat, ghost end: nat)
      returns (done: bool)
      requires Tiles(windows, from, now) && Ready(i, from, lower, end)
      modifies this`crmEvents, this`insertedEvents, this`fetchedEvents, this`cursor, this`last, this`inOrder
      ensures done || mayFail || SecondRefused(i, from, now)
      ensures done ==> crmEvents == old(crmEvents) + Ids(streams[i], from, now + 1)
      ensures done ==> Due(streams, lower, end, Position(i, now + 1)) <= crmEvents
      ensures old(crmEvents) <= crmEvents <= old(crmEvents) + Ids(streams[i], from, now + 1)
      ensures insertedEvents - old(insertedEvents) == |crmEvents| - |old(crmEvents)|
      ensures Safe(cursor, crmEvents, streams, lower, end, now) && Ordered(Position(i, now))
      decreases |windows|
    {
      var w := windows[0];
      hide Due, Ids, Safe, Ordered, SecondRefused;
      SplitIds(streams[i], from, w.to + 1, now + 1);
      RefusedWithin(i, from, w.to, from, now);
      RefusedWithin(i, w.to + 1, now, from, now);
      var r := IngestWindow(i, w.from, w.to, mayFail, lower, end);
      OrderedLater(i, w.to, now);
      if !r.Done? {
        return false;
      }
      if |windows| == 1 {
        return true;
      }
      done := IngestWindows(i, windows[1..], w.to + 1, mayFail, lower, end);
    }

    /** One stream from `from` to the present. */
    method IngestStream(i: nat, from: nat, mayFail: bool, ghost lower: nat, ghost end: nat) returns (done: bool)
      requires Ready(i, from, lower, end) && end <= now + 1
      modifies this`crmEvents, this`insertedEvents, this`fetchedEvents, this`cursor, this`last, this`inOrder
      ensures done || mayFail || SecondRefused(i, from, now)
      ensures old(crmEvents) <= crmEvents <= old(crmEvents) + Ids(streams[i], from, now + 1)
      ensures done ==> crmEvents == old(crmEvents) + Ids(streams[i], from, now + 1)
      ensures done ==> StreamIds(streams, i + 1, lower, end) <= crmEvents
      ensures insertedEvents - old(insertedEvents) == |crmEvents| - |old(crmEvents)|
      ensures Safe(cursor, crmEvents, streams, lower, end, now) && Ordered(Position(i, now))
    {
      var windows := EventTimeWindows(from, now);
      DailyWindowsTile(from, now);
      done := IngestWindows(i, windows, from, mayFail, lower, end);
      if lower <= end {
        SplitIds(streams[i], lower, end, now + 1);
      }
    }

    /** Stream i from where the resumed run left it, or from the start. */
    method SyncStream(i: nat, from: nat, resume: Option<Position>, mayFail: bool, ghost end: nat) returns (done: bool)
      requires i < |streams| && from <= now && end <= now + 1
      requires Ordered(Position(i, if resume.Some? && resume.value.stream == i then resume.value.from else 0))
      requires Safe(cursor, crmEvents, streams, from, end, now)
      requires StreamIds(streams, i, from, end) <= crmEvents
      requires resume.Some? && resume.value.stream == i ==>
                 resume.value.from <= now && Due(streams, from, end, resume.value) <= crmEvents
      modifies this`crmEvents, this`insertedEvents, this`fetchedEvents, this`cursor, this`last, this`inOrder
      ensures old(crmEvents) <= crmEvents <= old(crmEvents) + Ids(streams[i], from, now + 1)
      ensures done || mayFail || SecondRefused(i, from, now)
      ensures done ==> StreamIds(streams, i + 1, from, end) <= crmEvents
      ensures insertedEvents - old(insertedEvents) == |crmEvents| - |old(crmEvents)|
      ensures Safe(cursor, crmEvents, streams, from, end, now) && Ordered(Position(i + 1, 0))
    {
      var streamFrom := from;
      if resume.Some? && resume.value.stream == i {
        streamFrom := Max(from, resume.value.from);
      }
      SplitIds(streams[i], from, streamFrom, now + 1);
      done := IngestStream(i, streamFrom, mayFail, from, end);
    }

    /** What holds wherever the run that started from `store` stops. */
    ghost predicate Sound(store: set<nat>, from: nat, end: nat)
      reads this
    {
      && store <= crmEvents && insertedEvents == |crmEvents| - |store|
      && Safe(cursor, crmEvents, streams, from, end, now) && InOrder()
    }

    /** The streams before the i-th are complete, by this run or the one it resumes. */
    ghost predicate Synced(i: nat, resume: Option<Position>, store: set<nat>, from: nat, end: nat)
      reads this
    {
      && i <= |streams| && Sound(store, from, end) && OrderedUpTo(i, resume)
      && ((resume.Some? && i <= resume.value.stream) || StreamIds(streams, i, from, end) <= crmEvents)
    }

    ghost predicate OrderedUpTo(i: nat, resume: Option<Position>)
      reads this
    {
      start == resume && InOrder()
      && (Ordered(Position(i, 0)) || (resume.Some? && last == resume && i <= resume.value.stream))
    }

    lemma OrderedNext(i: nat, resume: Option<Position>)
      requires OrderedUpTo(i, resume)
      ensures resume.Some? && i < resume.value.stream ==> OrderedUpTo(i + 1, resume)
      ensures Ordered(Position(i, if resume.Some? && resume.value.stream == i then resume.value.from else 0))
              || (resume.Some? && i < resume.value.stream)
    {
    }

    /** The i-th stream, unless the run that is resumed had completed it. */
    method SyncNext(i: nat, from: nat, resume: Option<Position>, mayFail: bool, ghost store: set<nat>, ghost end: nat)
      returns (ok: bool)
      requires i < |streams| && from <= now && end <= now + 1
      requires Resumable(resume, store, streams, from, end, now) && Synced(i, resume, store, from, end)
      modifies this`crmEvents, this`insertedEvents, this`fetchedEvents, this`cursor, this`last, this`inOrder, this`now
      ensures old(now) <= now
      ensures if ok then Synced(i + 1, resume, store, from, end) else Sound(store, from, end)
      ensures ok || mayFail || SecondRefused(i, from, now)
    {
      OrderedNext(i, resume);
      ResumeHere(resume, store, streams, from, end, now);
      hide Resumable, Due, Ids, StreamIds;
      if resume.Some? && i < resume.value.stream {
        return true;
      }
      var later: nat :| now <= later;
      SafeLater(cursor, crmEvents, streams, from, from, end, now, later);
      hide Safe;
      now := later;
      ok := SyncStream(i, from, resume, mayFail, end);
    }

    /**
     The event stage of one run: `resumeCursor` is the cursor text the job was
     loaded with. The stage marker replaces it before anything is read.
     */
    method SyncEvents(from: nat, resumeCursor: string, mayFail: bool, ghost end: nat) returns (done: bool)
      requires resumeCursor == Text(cursor) && from <= now && end <= now + 1
      requires Safe(cursor, crmEvents, streams, from, end, now)
      modifies this
      ensures old(now) <= now && Sound(old(crmEvents), from, end)
      ensures done ==> StreamIds(streams, |streams|, from, end) <= crmEvents
      ensures done || mayFail || exists i :: 0 <= i < |streams| && SecondRefused(i, from, now)
      ensures old(cursor).At? && cursor.At? ==>
                || cursor.p.stream > old(cursor).p.stream
                || (cursor.p.stream == old(cursor).p.stream && cursor.p.from >= old(cursor).p.from)
    {
      hide *;
      var resume := ResumePosition(resumeCursor);
      CursorReadsBack(cursor);
      ghost var store := crmEvents;
      LoadedIsResumable(cursor, store, streams, from, end, now);
      insertedEvents, fetchedEvents, start, last, inOrder := 0, 0, resume, resume, true;
      cursor := StageMarker;
      NothingSynced(resume, from, end);
      for i := 0 to |streams|
        invariant old(now) <= now && start == resume && Synced(i, resume, store, from, end)
      {
        ResumableLater(resume, store, streams, from, end, old(now), now);
        var ok := SyncNext(i, from, resume, mayFail, store, end);
        if !ok {
          CursorMovedOn(old(cursor), store, from, end);
          return false;
        }
      }
      AllSynced(resume, store, from, end, old(now));
      CursorMovedOn(old(cursor), store, from, end);
      done := true;
    }

    lemma NothingSynced(resume: Option<Position>, from: nat, end: nat)
      requires cursor == StageMarker && insertedEvents == 0 && last == start == resume && inOrder
      ensures Synced(0, resume, crmEvents, from, end)
    {
      assert StreamIds(streams, 0, from, end) == {};
    }

    lemma AllSynced(resume: Option<Position>, store: set<nat>, from: nat, end: nat, start: nat)
      requires Synced(|streams|, resume, store, from, end) && Resumable(resume, store, streams, from, end, start)
      ensures Sound(store, from, end) && StreamIds(streams, |streams|, from, end) <= crmEvents
    {
      hide Sound, OrderedUpTo, StreamIds, Due;
    }

    lemma CursorMovedOn(was: Cursor, store: set<nat>, from: nat, end: nat)
      requires Sound(store, from, end) && start == Persisted(was)
      ensures was.At? && cursor.At? ==>
                || cursor.p.stream > was.p.stream
                || (cursor.p.stream == was.p.stream && cursor.p.from >= was.p.from)
    {
    }

    /**
     Any number of runs, each resuming from the cursor the one before left
     behind, with a lower bound that only moves forward. A faulty run may crash
     anywhere. As soon as one run is not faulty and no single second of any
     stream is refused, everything is stored.
     */
    method Recover(faulty: seq<bool>, ghost end: nat) returns (done: bool, from: nat)
      requires end <= now + 1 && cursor == Empty
      modifies this
      ensures old(crmEvents) <= crmEvents
      ensures done ==> StreamIds(streams, |streams|, from, end) <= crmEvents
      ensures (exists k :: 0 <= k < |faulty| && !faulty[k]) && (forall i, t :: !refuses(i, t, t)) ==> done
    {
      done, from := false, 0;
      for k := 0 to |faulty|
        invariant old(crmEvents) <= crmEvents && end <= now + 1 && !done && from <= now
        invariant Safe(cursor, crmEvents, streams, from, end, now)
        invariant (forall i, t :: !refuses(i, t, t)) ==> forall j :: 0 <= j < k ==> faulty[j]
      {
        var later, bound: nat :| now <= later && from <= bound <= later;
        SafeLater(cursor, crmEvents, streams, from, bound, end, now, later);
        now, from := later, bound;
        done := SyncEvents(from, Text(cursor), faulty[k], end);
        if done {
          return;
        }
      }
    }
  }

  /** What a position read from the cursor promises of the store it was read with. */
  ghost predicate Resumable(resume: Option<Position>, store: set<nat>, streams: seq<seq<Event>>, lower: nat, end: nat,
                            now: nat) {
    resume.Some? ==>
      resume.value.from <= now && resume.value.stream < |streams| && Due(streams, lower, end, resume.value) <= store
  }

  lemma LoadedIsResumable(c: Cursor, store: set<nat>, streams: seq<seq<Event>>, lower: nat, end: nat, now: nat)
    requires Safe(c, store, streams, lower, end, now)
    ensures Resumable(Persisted(c), store, streams, lower, end, now)
  {
  }

  lemma ResumableLater(resume: Option<Position>, store: set<nat>, streams: seq<seq<Event>>, lower: nat, end: nat,
                       now: nat, now': nat)
    requires Resumable(resume, store, streams, lower, end, now) && now <= now'
    ensures Resumable(resume, store, streams, lower, end, now')
  {
  }

  lemma ResumeHere(resume: Option<Position>, store: set<nat>, streams: seq<seq<Event>>, lower: nat, end: nat, now: nat)
    requires Resumable(resume, store, streams, lower, end, now)
    ensures resume.Some? ==>
              && resume.value.from <= now && resume.value.stream < |streams|
              && Due(streams, lower, end, resume.value) <= store
              && StreamIds(streams, resume.value.stream, lower, end) <= store
  {
    if resume.Some? {
      DueCoversStreams(streams, lower, end, resume.value);
    }
  }

  lemma DueCoversStreams(streams: seq<seq<Event>>, lower: nat, end: nat, p: Position)
    requires p.stream < |streams|
    ensures StreamIds(streams, p.stream, lower, end) <= Due(streams, lower, end, p)
  {
  }

  lemma SafeLater(c: Cursor, store: set<nat>, streams: seq<seq<Event>>, lower: nat, lower': nat, end: nat,
                  now: nat, now': nat)
    requires Safe(c, store, streams, lower, end, now) && lower <= lower' && now <= now'
    ensures Safe(c, store, streams, lower', end, now')
  {
    if c.At? {
      LaterBound(streams, c.p.stream, lower, lower', end);
    }
  }

  lemma UniqueEvents(events: seq<nat>)
    ensures Distinct(AddNew([], events)) && Elements(AddNew([], events)) == Elements(events)
    ensures |AddNew([], events)| == |Elements(events)|
  {
    AddNewMeans([], events);
    DistinctCount(AddNew([], events));
  }

  /** The store once the first n of these ids were handled. */
  function Stored(existing: set<nat>, ids: seq<nat>, n: nat): (store: set<nat>)
    requires n <= |ids|
    ensures existing <= store <= existing + Elements(ids)
    ensures n == |ids| ==> store == existing + Elements(ids)
  {
    assert ids[..|ids|] == ids;
    existing + Elements(ids[..n])
  }

  lemma NoneStored(existing: set<nat>, ids: seq<nat>)
    ensures Span(0, 100) == 0 && Stored(existing, ids, 0) == existing
  {
  }

  /** One more page: the last one completes the listing. */
  lemma StorePage(existing: set<nat>, ids: seq<nat>, page: nat)
    requires page >= 1 && Span(page - 1, 100) <= |ids|
    ensures var data, whole := Fetch(ids, page, 100), existing + Elements(ids);
            var store := Stored(existing, ids, Span(page - 1, 100));
            && store + Elements(data.items) <= whole
            && (|data.items| == 0 ==> store == whole && (page == 1 ==> ids == []))
            && (!data.hasNext ==> store + Elements(data.items) == whole)
            && (data.hasNext ==> page < |ids| && Span(page, 100) <= |ids|
                                 && store + Elements(data.items) == Stored(existing, ids, Span(page, 100)))
  {
    FetchBounds(ids, page, 100);
    var lo, hi := Span(page - 1, 100), Min(Span(page, 100), |ids|);
    assert ids[..hi] == ids[..lo] + ids[lo..hi];
    assert Elements(ids[..hi]) == Elements(ids[..lo]) + Elements(ids[lo..hi]);
    assert Stored(existing, ids, lo) + Elements(ids[lo..hi]) == Stored(existing, ids, hi);
  }

  lemma StoreNext(existing: set<nat>, ids: seq<nat>, n: nat)
    requires Distinct(ids) && n < |ids|
    ensures var store, store' := Stored(existing, ids, n), Stored(existing, ids, n + 1);
            if ids[n] in existing then store' == store
            else store' == store + {ids[n]} && |store'| == |store| + 1
  {
    assert ids[..n + 1] == ids[..n] + [ids[n]];
    assert Elements(ids[..n + 1]) == Elements(ids[..n]) + {ids[n]};
    assert ids[n] !in ids[..n];
  }
}
