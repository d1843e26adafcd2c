/**
 The webhook inbox: a batch of ready rows is grouped by what it concerns, each
 group is processed once, and every row of it is marked. Processing, marking
 and the worker itself may fail at any point where `mayFail` says so, and nowhere
 otherwise; a write that fails changes nothing. Times are milliseconds.
 */
module WebhookInbox {
  import opened Base

  datatype Status = Received | Error | Applied | Skipped

  /** `entity` is normalised and `externalId` already taken from the payload where the column is empty. */
  datatype Row = Row(id: string, entity: string, externalId: Option<string>, status: Status, attempts: nat,
                     receivedAt: int, appliedAt: Option<int>, nextAttemptAt: Option<int>)

  predicate Ready(r: Row, now: int) {
    r.appliedAt.None? && (r.status.Received? || r.status.Error?) &&
    (r.nextAttemptAt.None? || r.nextAttemptAt.value <= now)
  }

  /** Marking as an error keeps the row for another attempt a minute later. */
  function Mark(r: Row, status: Status, at: int): Row {
    r.(status := status, attempts := r.attempts + 1, appliedAt := if status.Error? then None else Some(at),
       nextAttemptAt := if status.Error? then Some(at + 60000) else None)
  }

  /** Nothing more is to be done for the row. */
  ghost predicate Done(r: Row) {
    r.appliedAt.Some? && (r.status.Applied? || r.status.Skipped?)
  }

  // ----- groups -----

  datatype Group = Group(ids: seq<string>, entity: string, externalId: Option<string>)

  function Target(r: Row): string {
    match r.externalId
    case Some(x) => x
    case None => r.id
  }

  function KeyText(entity: string, target: string): string {
    entity + ":" + target
  }

  function Key(r: Row): string {
    KeyText(r.entity, Target(r))
  }

  /** The ids of the rows with a key, in order. */
  function IdsWithKey(events: seq<Row>, key: string): seq<string> {
    if |events| == 0 then []
    else
      var last := events[|events| - 1];
      IdsWithKey(events[..|events| - 1], key) + if Key(last) == key then [last.id] else []
  }

  lemma {:induction false} IdsWithKeyMean(events: seq<Row>, key: string, id: string)
    ensures id in IdsWithKey(events, key) <==>
            exists k :: 0 <= k < |events| && events[k].id == id && Key(events[k]) == key
  {
    if |events| > 0 {
      var n := |events| - 1;
      IdsWithKeyMean(events[..n], key, id);
      if id in IdsWithKey(events[..n], key) {
        var k :| 0 <= k < n && events[..n][k].id == id && Key(events[..n][k]) == key;
        assert events[k].id == id;
      }
      if k :| 0 <= k < |events| && events[k].id == id && Key(events[k]) == key {
        assert k < n ==> events[..n][k] == events[k];
      }
    }
  }

  /** Some row of the group gave it its entity and id. */
  ghost predicate Headed(events: seq<Row>, key: string, g: Group) {
    exists e <- events :: Key(e) == key && e.entity == g.entity && e.externalId == g.externalId
  }

  ghost predicate Keyed(order: seq<string>, groups: map<string, Group>) {
    Distinct(order) && forall key :: key in order <==> key in groups
  }

  ghost predicate Filled(events: seq<Row>, groups: map<string, Group>) {
    && (forall e <- events :: Key(e) in groups)
    && (forall key <- groups :: groups[key].ids == IdsWithKey(events, key) && |groups[key].ids| > 0)
  }

  /** The map of the grouping loop: its keys in the order they came, each with all of its rows. */
  ghost predicate Groups(events: seq<Row>, order: seq<string>, groups: map<string, Group>) {
    Keyed(order, groups) && Filled(events, groups) && forall key <- groups :: Headed(events, key, groups[key])
  }

  method GroupWebhookEvents(events: seq<Row>) returns (order: seq<string>, groups: map<string, Group>)
    ensures Groups(events, order, groups)
  {
    order, groups := [], map[];
    for i := 0 to |events|
      invariant Groups(events[..i], order, groups)
    {
      var event := events[i];
      assert events[..i + 1] == events[..i] + [event];
      GroupsGrow(events[..i], order, groups, event);
      hide Groups;
      var key := Key(event);
      var group := if key in groups then groups[key] else Group([], event.entity, event.externalId);
      order := if key in groups then order else order + [key];
      groups := groups[key := group.(ids := group.ids + [event.id])];
    }
    assert events[..|events|] == events;
  }

  function WithKey(order: seq<string>, groups: map<string, Group>, key: string): seq<string> {
    if key in groups then order else order + [key]
  }

  function WithEvent(groups: map<string, Group>, e: Row): map<string, Group> {
    var key := Key(e);
    var group := if key in groups then groups[key] else Group([], e.entity, e.externalId);
    groups[key := group.(ids := group.ids + [e.id])]
  }

  lemma GroupsGrow(events: seq<Row>, order: seq<string>, groups: map<string, Group>, e: Row)
    requires Groups(events, order, groups)
    ensures Groups(events + [e], WithKey(order, groups, Key(e)), WithEvent(groups, e))
  {
    KeyedGrows(order, groups, e);
    FilledGrows(events, groups, e);
    forall key | key in WithEvent(groups, e)
      ensures Headed(events + [e], key, WithEvent(groups, e)[key])
    {
      HeadedGrows(events, groups, e, key);
    }
  }

  lemma KeyedGrows(order: seq<string>, groups: map<string, Group>, e: Row)
    requires Keyed(order, groups)
    ensures Keyed(WithKey(order, groups, Key(e)), WithEvent(groups, e))
  {
    assert forall x :: x in WithKey(order, groups, Key(e)) <==> x in order || x == Key(e);
  }

  lemma FilledGrows(events: seq<Row>, groups: map<string, Group>, e: Row)
    requires Filled(events, groups)
    ensures Filled(events + [e], WithEvent(groups, e))
  {
    assert (events + [e])[..|events|] == events;
    assert forall x :: x in events + [e] <==> x in events || x == e;
    if Key(e) !in groups {
      NoIds(events, Key(e));
    }
  }

  lemma HeadedGrows(events: seq<Row>, groups: map<string, Group>, e: Row, key: string)
    requires (forall k <- groups :: Headed(events, k, groups[k])) && key in WithEvent(groups, e)
    ensures Headed(events + [e], key, WithEvent(groups, e)[key])
  {
    if key in groups {
      assert Headed(events, key, groups[key]);
      var x :| x in events && Key(x) == key && x.entity == groups[key].entity && x.externalId == groups[key].externalId;
      assert x in events + [e];
    } else {
      assert e in events + [e];
    }
  }

  lemma {:induction false} NoIds(events: seq<Row>, key: string)
    requires forall e <- events :: Key(e) != key
    ensures IdsWithKey(events, key) == []
  {
    if |events| > 0 {
      NoIds(events[..|events| - 1], key);
    }
  }

  // ----- when a key names one target -----

  /**
   Keys tell (entity, target) pairs apart exactly when no entity continues
   another with a colon, whatever the targets.
   */
  lemma KeysAreUniqueIff(entities: set<string>)
    ensures (forall a <- entities, b <- entities, s: string, t: string ::
               KeyText(a, s) == KeyText(b, t) ==> a == b && s == t)
        <==> (forall a <- entities, b <- entities :: !(a + ":" <= b))
  {
    if forall a <- entities, b <- entities :: !(a + ":" <= b) {
      forall a, b, s: string, t: string | a in entities && b in entities && KeyText(a, s) == KeyText(b, t)
        ensures a == b && s == t
      {
        KeysDiffer(a, s, b, t);
      }
    } else {
      var a, b :| a in entities && b in entities && a + ":" <= b;
      var s := b[|a| + 1..] + ":";
      assert KeyText(a, s) == KeyText(b, "");
    }
  }

  /** The entities that normalisation gives the five known kinds of webhook. */
  const KNOWN_ENTITIES: set<string> := {"leads", "tasks", "contacts", "companies", "customers"}

  /** Among them keys are never ambiguous. */
  lemma KnownEntitiesAreUnambiguous(a: string, s: string, b: string, t: string)
    requires a in KNOWN_ENTITIES && b in KNOWN_ENTITIES && KeyText(a, s) == KeyText(b, t)
    ensures a == b && s == t
  {
    NoColon(a);
    NoColon(b);
    KeysDiffer(a, s, b, t);
    ColonInside(a, b);
    ColonInside(b, a);
  }

  lemma ColonInside(a: string, b: string)
    ensures a + ":" <= b ==> ':' in b
  {
    if a + ":" <= b {
      assert b[|a|] == ':';
    }
  }

  lemma NoColon(entity: string)
    requires entity in KNOWN_ENTITIES
    ensures ':' !in entity
  {
  }

  lemma KeysDiffer(a: string, s: string, b: string, t: string)
    requires KeyText(a, s) == KeyText(b, t)
    ensures (a == b && s == t) || a + ":" <= b || b + ":" <= a
  {
    var k := KeyText(a, s);
    assert k[..|a| + 1] == a + ":" && k[..|b| + 1] == b + ":";
    if |a| < |b| {
      assert b == k[..|b|] && a + ":" == b[..|a| + 1];
    } else if |b| < |a| {
      assert a == k[..|a|] && b + ":" == a[..|b| + 1];
    } else {
      assert a == k[..|a|] == b;
      assert s == k[|a| + 1..] == t;
    }
  }

  ghost predicate DistinctIds(events: seq<Row>) {
    forall i, j :: 0 <= i < j < |events| ==> events[i].id != events[j].id
  }

  /** Every row of the batch is in the group of its key and in no other. */
  lemma EachRowInOneGroup(events: seq<Row>, order: seq<string>, groups: map<string, Group>, k: nat, key: string)
    requires Groups(events, order, groups) && DistinctIds(events) && k < |events| && key in groups
    ensures events[k].id in groups[key].ids <==> key == Key(events[k])
  {
    IdsWithKeyMean(events, key, events[k].id);
  }

  /** Two rows of a batch are handled together. */
  ghost predicate Together(order: seq<string>, groups: map<string, Group>, e: Row, f: Row) {
    exists key <- order :: key in groups && e.id in groups[key].ids && f.id in groups[key].ids
  }

  /** Rows of one entity and one external id are handled together, whatever the entities. */
  lemma SameTargetTogether(events: seq<Row>, order: seq<string>, groups: map<string, Group>, i: nat, j: nat)
    requires Groups(events, order, groups) && DistinctIds(events) && i < |events| && j < |events|
    requires events[i].entity == events[j].entity && events[i].externalId == events[j].externalId
    requires events[i].externalId.Some? || i == j
    ensures Together(order, groups, events[i], events[j])
    ensures forall key <- groups :: events[i].id in groups[key].ids <==> events[j].id in groups[key].ids
  {
    var key := Key(events[i]);
    assert events[i] in events && key == Key(events[j]) && key in order;
    EachRowInOneGroup(events, order, groups, i, key);
    EachRowInOneGroup(events, order, groups, j, key);
    forall k | k in groups
      ensures events[i].id in groups[k].ids <==> events[j].id in groups[k].ids
    {
      EachRowInOneGroup(events, order, groups, i, k);
      EachRowInOneGroup(events, order, groups, j, k);
    }
  }

  /** No entity of the batch continues another with a colon, and no external id is a row's id. */
  ghost predicate Unambiguous(events: seq<Row>, entities: set<string>) {
    && (forall a <- entities, b <- entities :: !(a + ":" <= b))
    && (forall e <- events :: e.entity in entities)
    && (forall e <- events, f <- events :: e.externalId != Some(f.id))
  }

  lemma KeyIsOneTarget(events: seq<Row>, entities: set<string>, i: nat, j: nat)
    requires Unambiguous(events, entities) && DistinctIds(events)
    requires i < |events| && j < |events| && Key(events[i]) == Key(events[j])
    ensures events[i].entity == events[j].entity && events[i].externalId == events[j].externalId
    ensures events[i].externalId.None? ==> i == j
  {
    var e, f := events[i], events[j];
    assert e in events && f in events;
    KeysDiffer(e.entity, Target(e), f.entity, Target(f));
  }

  /**
   Where keys are unambiguous, two rows are handled together if and only if they
   have one entity and one external id, or are one row.
   */
  lemma TogetherIff(events: seq<Row>, order: seq<string>, groups: map<string, Group>, entities: set<string>,
                    i: nat, j: nat)
    requires Groups(events, order, groups) && DistinctIds(events) && Unambiguous(events, entities)
    requires i < |events| && j < |events|
    ensures Together(order, groups, events[i], events[j]) <==>
            || i == j
            || (events[i].entity == events[j].entity && events[i].externalId == events[j].externalId
                && events[i].externalId.Some?)
  {
    if Together(order, groups, events[i], events[j]) {
      var key :| key in order && key in groups && events[i].id in groups[key].ids && events[j].id in groups[key].ids;
      EachRowInOneGroup(events, order, groups, i, key);
      EachRowInOneGroup(events, order, groups, j, key);
      KeyIsOneTarget(events, entities, i, j);
    } else if events[i].entity == events[j].entity && events[i].externalId == events[j].externalId
              && (events[i].externalId.Some? || i == j) {
      SameTargetTogether(events, order, groups, i, j);
    }
  }

  /** The (entity, external id) pairs that a batch names. */
  function Named(events: seq<Row>): set<(string, string)> {
    set e | e in events && e.externalId.Some? :: (e.entity, e.externalId.value)
  }

  /** The rows of a batch that name no external id. */
  function Unnamed(events: seq<Row>): set<Row> {
    set e | e in events && e.externalId.None?
  }

  function NamedKeys(events: seq<Row>): set<string> {
    set p | p in Named(events) :: KeyText(p.0, p.1)
  }

  function UnnamedKeys(events: seq<Row>): set<string> {
    set e | e in Unnamed(events) :: KeyText(e.entity, e.id)
  }

  /** There, as many groups as pairs named and rows that name none: nothing is handled twice, nothing is mixed. */
  lemma GroupCount(events: seq<Row>, order: seq<string>, groups: map<string, Group>, entities: set<string>)
    requires Groups(events, order, groups) && DistinctIds(events) && Unambiguous(events, entities)
    ensures |order| == |Named(events)| + |Unnamed(events)|
  {
    NamedKeysCount(events, entities);
    UnnamedKeysCount(events, entities);
    KeysApart(events, entities);
    AllKeys(events, order, groups);
    DistinctCount(order);
  }

  lemma AllKeys(events: seq<Row>, order: seq<string>, groups: map<string, Group>)
    requires Groups(events, order, groups)
    ensures Distinct(order)
    ensures Elements(order) == NamedKeys(events) + UnnamedKeys(events)
  {
    var keys := NamedKeys(events) + UnnamedKeys(events);
    forall e | e in events
      ensures Key(e) in keys
    {
      if e.externalId.Some? {
        assert (e.entity, e.externalId.value) in Named(events);
      } else {
        assert e in Unnamed(events);
      }
    }
    forall key | key in order
      ensures key in keys
    {
      assert Headed(events, key, groups[key]);
    }
    forall key | key in keys
      ensures key in order
    {
      var e :| e in events && Key(e) == key;
    }
  }

  lemma KeysApart(events: seq<Row>, entities: set<string>)
    requires Unambiguous(events, entities)
    ensures NamedKeys(events) !! UnnamedKeys(events)
  {
    forall p, e | p in Named(events) && e in Unnamed(events)
      ensures KeyText(p.0, p.1) != KeyText(e.entity, e.id)
    {
      var f :| f in events && f.externalId.Some? && (f.entity, f.externalId.value) == p;
      if KeyText(p.0, p.1) == KeyText(e.entity, e.id) {
        KeysDiffer(p.0, p.1, e.entity, e.id);
        assert false;
      }
    }
  }

  lemma NamedKeysCount(events: seq<Row>, entities: set<string>)
    requires Unambiguous(events, entities)
    ensures |NamedKeys(events)| == |Named(events)|
  {
    var key := (p: (string, string)) => KeyText(p.0, p.1);
    forall p, q | p in Named(events) && q in Named(events) && key(p) == key(q)
      ensures p == q
    {
      KeysDiffer(p.0, p.1, q.0, q.1);
    }
    hide Unambiguous;
    ImageCount(Named(events), key);
    assert NamedKeys(events) == Image(Named(events), key);
  }

  lemma UnnamedKeysCount(events: seq<Row>, entities: set<string>)
    requires Unambiguous(events, entities) && DistinctIds(events)
    ensures |UnnamedKeys(events)| == |Unnamed(events)|
  {
    var key := (e: Row) => KeyText(e.entity, e.id);
    forall e, f | e in Unnamed(events) && f in Unnamed(events) && key(e) == key(f)
      ensures e == f
    {
      KeysDiffer(e.entity, e.id, f.entity, f.id);
      assert e.id == f.id;
    }
    hide Unambiguous, DistinctIds;
    ImageCount(Unnamed(events), key);
    assert UnnamedKeys(events) == Image(Unnamed(events), key);
  }

  // ----- one run of the queue -----

  /** What findMany gives: the first hundred ready rows by arrival. */
  ghost predicate IsBatch(events: seq<Row>, rows: map<string, Row>, now: int) {
    && DistinctIds(events) && |events| <= 100
    && (forall e <- events :: e.id in rows && rows[e.id] == e && Ready(e, now))
    && (forall i, j :: 0 <= i < j < |events| ==> events[i].receivedAt <= events[j].receivedAt)
    && (forall id <- rows :: Ready(rows[id], now) && rows[id] !in events ==>
          |events| == 100 && events[99].receivedAt <= rows[id].receivedAt)
  }

  /** A group without an id is skipped, one with an id applied, and either may end as an error. */
  ghost predicate EndOf(group: Group, status: Status, mayFail: bool) {
    var hasId := group.externalId.Some? && group.externalId.value != "";
    (mayFail && status.Error?) || status == if hasId then Applied else Skipped
  }

  /** The row was marked once, with an end of its group. */
  ghost predicate MarkedOnce(before: Row, after: Row, group: Group, mayFail: bool) {
    exists status: Status, at: int :: EndOf(group, status, mayFail) && after == Mark(before, status, at)
  }

  function MarkAll(rows: map<string, Row>, ids: seq<string>, status: Status, at: int): map<string, Row> {
    map id | id in rows :: if id in ids then Mark(rows[id], status, at) else rows[id]
  }

  /** The rows of the groups in `handled` were marked once; no other row changed. */
  ghost predicate Marked(groups: map<string, Group>, handled: seq<string>, before: map<string, Row>,
                         after: map<string, Row>, mayFail: bool)
    requires forall key <- handled :: key in groups
  {
    && after.Keys == before.Keys
    && (forall key <- handled, id <- before :: id in groups[key].ids ==>
          MarkedOnce(before[id], after[id], groups[key], mayFail))
    && (forall id <- before :: (forall key <- handled :: id !in groups[key].ids) ==> after[id] == before[id])
  }

  /** Marking one more group leaves the others as they are: no row is in two groups. */
  lemma MarkedGrows(groups: map<string, Group>, handled: seq<string>, key: string, before: map<string, Row>,
                    after: map<string, Row>, status: Status, at: int, mayFail: bool)
    requires key in groups && (forall k <- handled :: k in groups && k != key)
    requires forall k <- handled, id <- groups[key].ids :: id !in groups[k].ids
    requires Marked(groups, handled, before, after, mayFail) && EndOf(groups[key], status, mayFail)
    ensures Marked(groups, handled + [key], before, MarkAll(after, groups[key].ids, status, at), mayFail)
  {
  }

  class Inbox {
    var rows: map<string, Row>
    var now: int

    constructor (rows: map<string, Row>, now: int)
      ensures this.rows == rows && this.now == now
    {
      this.rows, this.now := rows, now;
    }

    method MarkRawAmoEvents(ids: seq<string>, status: Status, mayFail: bool) returns (ok: bool)
      modifies this`rows
      ensures ok || mayFail
      ensures rows == if ok then MarkAll(old(rows), ids, status, now) else old(rows)
    {
      if mayFail {
        if * {
          return false;
        }
      }
      rows := MarkAll(rows, ids, status, now);
      ok := true;
    }

    /** One group; whatever fails in it turns it into an error. */
    method ProcessGroup(group: Group, mayFail: bool) returns (end: Option<Status>)
      modifies this`rows
      ensures end.None? ==> rows == old(rows) && mayFail
      ensures end.Some? ==> EndOf(group, end.value, mayFail) && rows == MarkAll(old(rows), group.ids, end.value, now)
    {
      var status := if group.externalId.None? || group.externalId.value == "" then Skipped else Applied;
      var processed := true;
      if mayFail {
        processed := *;
      }
      if processed {
        var ok := MarkRawAmoEvents(group.ids, status, mayFail);
        if ok {
          return Some(status);
        }
      }
      var ok := MarkRawAmoEvents(group.ids, Error, mayFail);
      end := if ok then Some(Error) else None;
    }

    /** The i-th group, after time has passed and unless the worker stops. */
    method NextGroup(group: Group, ghost events: seq<Row>, ghost order: seq<string>, ghost groups: map<string, Group>,
                     ghost i: nat, ghost before: map<string, Row>, mayFail: bool) returns (ok: bool)
      requires Groups(events, order, groups) && DistinctIds(events) && i < |order| && order[i] in groups
      requires group == groups[order[i]] && MarkedUpTo(groups, order, i, before, rows, mayFail)
      modifies this`rows, this`now
      ensures old(now) <= now && MarkedUpTo(groups, order, if ok then i + 1 else i, before, rows, mayFail)
      ensures ok || mayFail
    {
      hide MarkAll, EndOf;
      var later: int :| now <= later;
      now := later;
      if mayFail {
        if * {
          return false;
        }
      }
      ghost var rows0 := rows;
      var end := ProcessGroup(group, mayFail);
      ok := end.Some?;
      if ok {
        GroupsAreApart(events, order, groups, i);
        hide Marked, Groups;
        MarkedGrows(groups, order[..i], order[i], before, rows0, end.value, now, mayFail);
        assert order[..i + 1] == order[..i] + [order[i]];
      }
    }

    /** One batch. When it finishes, every row of it was marked exactly once; if it breaks off, at most once. */
    method RunWebhookJob(events: seq<Row>, mayFail: bool)
      returns (finished: bool, ghost order: seq<string>, ghost groups: map<string, Group>, ghost handled: nat)
      requires IsBatch(events, rows, now)
      modifies this`rows, this`now
      ensures Groups(events, order, groups) && (finished ==> handled == |order|) && (finished || mayFail)
      ensures old(now) <= now && MarkedUpTo(groups, order, handled, old(rows), rows, mayFail)
    {
      hide *;
      var keys, groupsByKey := GroupWebhookEvents(events);
      order, groups, handled := keys, groupsByKey, 0;
      NothingMarked(events, order, groups, rows, now, mayFail);
      for i := 0 to |keys|
        invariant handled == i && old(now) <= now
        invariant MarkedUpTo(groups, order, i, old(rows), rows, mayFail)
      {
        var ok := NextGroup(groupsByKey[keys[i]], events, order, groups, i, old(rows), mayFail);
        if !ok {
          return false, order, groups, handled;
        }
        handled := i + 1;
      }
      finished := true;
    }
  }

  /** The first n groups were handled. */
  ghost predicate MarkedUpTo(groups: map<string, Group>, order: seq<string>, n: nat, before: map<string, Row>,
                             after: map<string, Row>, mayFail: bool) {
    n <= |order| && (forall key <- order :: key in groups) && Marked(groups, order[..n], before, after, mayFail)
  }

  lemma NothingMarked(events: seq<Row>, order: seq<string>, groups: map<string, Group>, rows: map<string, Row>,
                      now: int, mayFail: bool)
    requires IsBatch(events, rows, now) && Groups(events, order, groups)
    ensures DistinctIds(events) && (forall key <- order :: key in groups)
    ensures MarkedUpTo(groups, order, 0, rows, rows, mayFail)
  {
  }

  lemma GroupsAreApart(events: seq<Row>, order: seq<string>, groups: map<string, Group>, i: nat)
    requires Groups(events, order, groups) && DistinctIds(events) && i < |order|
    ensures order[i] in groups && forall k <- order[..i] :: k in groups && k != order[i]
    ensures forall k <- order[..i], id <- groups[order[i]].ids :: id !in groups[k].ids
  {
    assert forall k <- order[..i] :: k in order;
    forall k, id | k in order[..i] && id in groups[order[i]].ids
      ensures id !in groups[k].ids
    {
      IdsWithKeyMean(events, order[i], id);
      var n :| 0 <= n < |events| && events[n].id == id && Key(events[n]) == order[i];
      EachRowInOneGroup(events, order, groups, n, k);
    }
  }

  // ----- conservation -----

  lemma MarkedMeans(groups: map<string, Group>, handled: seq<string>, before: map<string, Row>, after: map<string, Row>,
                    key: string, id: string, mayFail: bool)
    requires (forall k <- handled :: k in groups) && Marked(groups, handled, before, after, mayFail)
    requires key in handled && id in before && id in groups[key].ids
    ensures id in after && MarkedOnce(before[id], after[id], groups[key], mayFail)
  {
  }

  /** What the end of a group means for its rows. */
  lemma EndsMean(before: Row, after: Row, group: Group, mayFail: bool)
    requires MarkedOnce(before, after, group, mayFail)
    ensures after.attempts == before.attempts + 1 && (after.status.Error? || Done(after))
    ensures (after.status.Error? ==> mayFail)
         && (after.status.Applied? ==> group.externalId !in {None, Some("")})
         && (after.status.Skipped? ==> group.externalId in {None, Some("")})
  {
  }

  /**
   A mark counts one attempt and leaves what the row is about alone. One as an
   error opens the row again exactly a minute later; any other ends it for good.
   */
  lemma MarkMeans(r: Row, status: Status, at: int)
    requires !status.Received?
    ensures var r' := Mark(r, status, at);
            && r'.attempts == r.attempts + 1 && r'.status == status
            && (r'.id, r'.entity, r'.externalId, r'.receivedAt) == (r.id, r.entity, r.externalId, r.receivedAt)
            && (status.Error? ==> forall now :: Ready(r', now) <==> now >= at + 60000)
            && (!status.Error? ==> Done(r') && r'.appliedAt == Some(at) && forall now :: !Ready(r', now))
  {
  }

  lemma OutsideGroups(events: seq<Row>, groups: map<string, Group>, rows: map<string, Row>, now: int, id: string)
    requires IsBatch(events, rows, now) && Filled(events, groups) && id in rows && rows[id] !in events
    ensures forall key <- groups :: id !in groups[key].ids
  {
    forall key | key in groups
      ensures id !in groups[key].ids
    {
      IdsWithKeyMean(events, key, id);
    }
  }

  /** A batch, finished or broken off after n groups. */
  ghost predicate BatchStep(before: map<string, Row>, after: map<string, Row>, events: seq<Row>, now: int,
                            order: seq<string>, groups: map<string, Group>, n: nat, mayFail: bool) {
    && IsBatch(events, before, now) && Groups(events, order, groups)
    && MarkedUpTo(groups, order, n, before, after, mayFail)
  }

  /** A finished batch gives each of its rows one end and one more attempt, and an error only where something broke. */
  lemma BatchMovesItsRows(before: map<string, Row>, after: map<string, Row>, events: seq<Row>, now: int,
                          order: seq<string>, groups: map<string, Group>, k: nat, mayFail: bool)
    requires BatchStep(before, after, events, now, order, groups, |order|, mayFail) && k < |events|
    ensures var row := events[k];
            && row.id in after && after[row.id].attempts == row.attempts + 1
            && (after[row.id].status.Error? || Done(after[row.id])) && (after[row.id].status.Error? ==> mayFail)
  {
    var row := events[k];
    var key := Key(row);
    assert order[..|order|] == order && key in order && row.id in before && before[row.id] == row;
    EachRowInOneGroup(events, order, groups, k, key);
    hide Key, IsBatch, Groups, MarkedOnce, Done;
    MarkedMeans(groups, order, before, after, key, row.id, mayFail);
    EndsMean(row, after[row.id], groups[key], mayFail);
  }

  /**
   Where a group is one target, each row that did not fail was skipped exactly if
   it names no external id, and applied if it names one.
   */
  lemma RowEndsByItsId(before: map<string, Row>, after: map<string, Row>, events: seq<Row>, now: int,
                       order: seq<string>, groups: map<string, Group>, entities: set<string>, k: nat, mayFail: bool)
    requires BatchStep(before, after, events, now, order, groups, |order|, mayFail) && k < |events|
    requires Unambiguous(events, entities)
    ensures var row := events[k];
            && row.id in after
            && (after[row.id].status.Applied? ==> row.externalId !in {None, Some("")})
            && (after[row.id].status.Skipped? ==> row.externalId in {None, Some("")})
  {
    var row := events[k];
    var key := Key(row);
    assert order[..|order|] == order && key in order && row.id in before && before[row.id] == row;
    EachRowInOneGroup(events, order, groups, k, key);
    assert Headed(events, key, groups[key]);
    var e :| e in events && Key(e) == key && e.entity == groups[key].entity && e.externalId == groups[key].externalId;
    var j :| 0 <= j < |events| && events[j] == e;
    KeyIsOneTarget(events, entities, k, j);
    hide Key, IsBatch, Groups, MarkedOnce, Done, Unambiguous;
    MarkedMeans(groups, order, before, after, key, row.id, mayFail);
    EndsMean(row, after[row.id], groups[key], mayFail);
  }

  /** No row outside the batch changes, whether it finishes or not. */
  lemma OtherRowsStay(before: map<string, Row>, after: map<string, Row>, events: seq<Row>, now: int,
                      order: seq<string>, groups: map<string, Group>, n: nat, id: string, mayFail: bool)
    requires BatchStep(before, after, events, now, order, groups, n, mayFail) && id in before && before[id] !in events
    ensures id in after && after[id] == before[id]
  {
    OutsideGroups(events, groups, before, now, id);
    hide IsBatch, Filled, Headed;
  }
}
