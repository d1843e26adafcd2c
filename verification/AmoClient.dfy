/**
 The amoCRM client as a machine over a monotone clock: requests reserve rate
 limit slots in order, sleep, refresh the token, fetch, back off and abort in
 any interleaving. A step is the code between two awaits. Times are
 milliseconds; tokens are numbered in the order the server issues them.
 */
module AmoClient {
  import opened Base

  datatype Phase =
    | Queued                // waiting for its turn, or at the top of the slot loop
    | Sleeping(until: int)  // until the slot may be free
    | Refreshing            // until the token is fresh
    | Granted
    | Fetching
    | AwaitingRefresh       // after an answer 401
    | BackingOff(until: int)
    | Finished

  /** `heard` is the last answer, `failed` tells that a refresh it waited for failed. */
  datatype Request = Request(phase: Phase, attempt: nat, fetches: nat, usedToken: nat, heard: Option<Answer>,
                             failed: bool, aborted: bool)

  /** `cause` is the access token whose rejection started the call; expiry starts one without. */
  datatype Call = Call(sent: nat, cause: Option<nat>, saved: bool)
  datatype Grant = Grant(id: nat, at: int)
  datatype Refresh = Refresh(spent: nat, replaced: nat, cause: Option<nat>)

  datatype Client = Client(
    now: int,
    lastRequestAt: int,
    pausedUntil: int,
    queue: seq<nat>,              // the slot chain; only its head runs
    requests: map<nat, Request>,
    accessToken: nat,
    refreshToken: nat,
    expiresAt: int,
    refreshInFlight: Option<nat>,
    calls: map<nat, Call>,        // refresh calls not yet settled
    grants: seq<Grant>,           // every slot granted so far
    refreshes: seq<Refresh>)      // every successful refresh so far

  /** The server's answer to a fetch, or the lack of one. */
  datatype Answer = Final | Unauthorized | Throttled(retryAfter: int) | Broken(retryAfter: int) | NoAnswer

  function MinDelay(interval: int): int {
    Max(160, interval)
  }

  // ----- steps of a request -----

  function With(c: Client, id: nat, r: Request): Client {
    c.(requests := c.requests[id := r])
  }

  function Enqueue(c: Client, id: nat, r: Request): Client {
    With(c, id, r.(phase := Queued)).(queue := c.queue + [id])
  }

  ghost predicate AtHead(c: Client, phase: Phase) {
    |c.queue| > 0 && c.queue[0] in c.requests && c.requests[c.queue[0]].phase == phase
  }

  /** refreshToken(): starts a call unless one is in flight. */
  function StartRefresh(c: Client, call: nat, cause: Option<nat>): Client {
    if c.refreshInFlight.Some? then c
    else c.(refreshInFlight := Some(call), calls := c.calls[call := Call(c.refreshToken, cause, false)])
  }

  /** One turn of the slot loop: sleep, or go on to the token check. */
  function CheckSlot(c: Client, interval: int, call: nat): Client
    requires |c.queue| > 0 && c.queue[0] in c.requests
  {
    var id := c.queue[0];
    var r := c.requests[id];
    var delay := Max(c.lastRequestAt + MinDelay(interval), c.pausedUntil) - c.now;
    if delay > 0 then With(c, id, r.(phase := Sleeping(c.now + delay)))
    else
      var c' := With(c, id, r.(phase := Refreshing));
      if c.now < c.expiresAt - 60000 then c' else StartRefresh(c', call, None)
  }

  /** After the token check: take the slot unless a cooldown began meanwhile. */
  function TakeSlot(c: Client): Client
    requires |c.queue| > 0 && c.queue[0] in c.requests
  {
    var id := c.queue[0];
    var r := c.requests[id];
    if c.pausedUntil <= c.now then
      With(c, id, r.(phase := Granted)).(queue := c.queue[1..], lastRequestAt := c.now,
                                         grants := c.grants + [Grant(id, c.now)])
    else With(c, id, r.(phase := Queued))
  }

  function BackoffMs(attempt: nat): int {
    if attempt == 0 then 1000 else 2 * BackoffMs(attempt - 1)
  }

  function RetryDelay(attempt: nat, retryAfter: int): int {
    Min(60000, Max(BackoffMs(attempt), retryAfter))
  }

  function Answered(c: Client, id: nat, answer: Answer, call: nat): Client
    requires id in c.requests
  {
    var r := c.requests[id].(heard := Some(answer));
    match answer
    case Final => With(c, id, r.(phase := Finished))
    case Unauthorized =>
      if r.attempt > 0 then With(c, id, r.(phase := Finished))
      else if r.usedToken == c.accessToken then
        StartRefresh(With(c, id, r.(phase := AwaitingRefresh)), call, Some(r.usedToken))
      else Enqueue(c, id, r.(attempt := r.attempt + 1))
    case Throttled(retryAfter) =>
      var delay := RetryDelay(r.attempt, retryAfter);
      Retry(c.(pausedUntil := Max(c.pausedUntil, c.now + delay)), id, r, delay)
    case Broken(retryAfter) => Retry(c, id, r, RetryDelay(r.attempt, retryAfter))
    case NoAnswer => Retry(c, id, r, BackoffMs(r.attempt))
  }

  /** Back off, except after the fourth attempt. */
  function Retry(c: Client, id: nat, r: Request, delay: int): Client {
    With(c, id, r.(phase := if r.attempt >= 3 then Finished else BackingOff(c.now + delay)))
  }

  function Save(c: Client, call: nat, token: nat, expiresAt: int): Client
    requires call in c.calls
  {
    c.(accessToken := token, refreshToken := token, expiresAt := expiresAt,
       calls := c.calls[call := c.calls[call].(saved := true)],
       refreshes := c.refreshes + [Refresh(c.calls[call].sent, c.accessToken, c.calls[call].cause)])
  }

  /** The end of a refresh call, good or bad, clears the field whatever it holds. */
  function Settle(c: Client, call: nat): Client {
    c.(refreshInFlight := None, calls := c.calls - {call})
  }

  // ----- the interleaving -----

  datatype Action =
    | Tick(to: int)
    | Start(id: nat)
    | Turn(call: nat)
    | Wake
    | Fresh
    | Drop
    | Fail(id: nat)
    | Fetch(id: nat)
    | Answer(id: nat, answer: Answer, call: nat)
    | Resume(id: nat)
    | Abort(id: nat)
    | Saved(call: nat, expiresAt: int)
    | Settled(call: nat)

  ghost predicate Enabled(c: Client, a: Action) {
    match a
    case Tick(t) => c.now <= t
    case Start(id) => id !in c.requests
    case Turn(call) => AtHead(c, Queued) && call !in c.calls
    case Wake => |c.queue| > 0 && c.queue[0] in c.requests
                 && c.requests[c.queue[0]].phase.Sleeping? && c.requests[c.queue[0]].phase.until <= c.now
    case Fresh => AtHead(c, Refreshing)
    case Drop => AtHead(c, Finished)
    case Fail(id) => id in c.requests && c.requests[id].phase in {Refreshing, AwaitingRefresh}
    case Fetch(id) => id in c.requests && c.requests[id].phase == Granted
    case Answer(id, _, call) => id in c.requests && c.requests[id].phase == Fetching && call !in c.calls
    case Resume(id) => id in c.requests && (c.requests[id].phase == AwaitingRefresh
                       || (c.requests[id].phase.BackingOff? && c.requests[id].phase.until <= c.now))
    case Abort(id) => id in c.requests
    case Saved(call, _) => call in c.calls && !c.calls[call].saved
    case Settled(call) => call in c.calls
  }

  ghost function Next(c: Client, interval: int, a: Action): Client
    requires Enabled(c, a)
  {
    match a
    case Tick(t) => c.(now := t)
    case Start(id) => Enqueue(c, id, Request(Queued, 0, 0, 0, None, false, false))
    case Turn(call) => CheckSlot(c, interval, call)
    case Wake => With(c, c.queue[0], c.requests[c.queue[0]].(phase := Queued))
    case Fresh => TakeSlot(c)
    case Drop => c.(queue := c.queue[1..])
    case Fail(id) => With(c, id, c.requests[id].(phase := Finished, failed := true))
    case Fetch(id) =>
      var r := c.requests[id];
      With(c, id, r.(phase := Fetching, fetches := r.fetches + 1, usedToken := c.accessToken))
    case Answer(id, answer, call) => Answered(c, id, answer, call)
    case Resume(id) => Enqueue(c, id, c.requests[id].(attempt := c.requests[id].attempt + 1))
    case Abort(id) => With(c, id, c.requests[id].(phase := Finished, aborted := true))
    case Saved(call, expiresAt) => Save(c, call, Max(c.accessToken, c.refreshToken) + 1, expiresAt)
    case Settled(call) => Settle(c, call)
  }

  ghost predicate Initial(c: Client) {
    && c.now >= 0 && c.lastRequestAt == 0 && c.queue == [] && c.requests == map[] && c.calls == map[]
    && c.refreshInFlight == None && c.grants == [] && c.refreshes == []
  }

  ghost predicate IsStep(c: Client, interval: int, c': Client) {
    exists a :: Enabled(c, a) && c' == Next(c, interval, a)
  }

  ghost predicate IsRun(run: seq<Client>, interval: int) {
    && |run| > 0 && Initial(run[0])
    && (forall i :: 0 < i < |run| ==> IsStep(run[i - 1], interval, run[i]))
  }

  // ----- slots -----

  ghost predicate Spaced(grants: seq<Grant>, delay: int) {
    forall i, j :: 0 <= i < j < |grants| ==> grants[i].at + delay <= grants[j].at
  }

  ghost predicate InQueue(p: Phase) {
    p.Queued? || p.Sleeping? || p.Refreshing?
  }

  /** The slot chain: only its head has left the waiting line, and past the sleep the delay is over. */
  ghost predicate SlotInv(c: Client, interval: int) {
    && Distinct(c.queue) && 0 <= c.lastRequestAt <= c.now
    && (forall id <- c.queue :: id in c.requests && (InQueue(c.requests[id].phase) || c.requests[id].phase.Finished?))
    && (forall id <- c.requests :: InQueue(c.requests[id].phase) ==> id in c.queue)
    && (forall id <- c.requests :: c.requests[id].phase.Refreshing? ==>
          c.queue[..1] == [id] && c.lastRequestAt + MinDelay(interval) <= c.now)
    && (forall id <- c.requests :: c.requests[id].phase.Sleeping? ==> c.queue[..1] == [id])
    && Spaced(c.grants, MinDelay(interval))
    && (forall g <- c.grants :: g.at <= c.lastRequestAt)
  }

  // ----- attempts -----

  /** The request's last answer is one that a caller gets. */
  ghost predicate Answers(r: Request) {
    && r.heard.Some? && r.fetches == r.attempt + 1
    && (r.heard.value.Final? || (r.heard.value.Unauthorized? && r.attempt > 0) || r.attempt == 3)
  }

  ghost predicate AttemptInv(r: Request) {
    && r.attempt <= 3
    && r.fetches <= r.attempt + (if InQueue(r.phase) || r.phase.Granted? then 0 else 1)
    && (!r.phase.Finished? ==> r.fetches == r.attempt + (if InQueue(r.phase) || r.phase.Granted? then 0 else 1))
    && (r.phase.Finished? && !r.aborted && !r.failed ==> Answers(r))
    && (r.phase.AwaitingRefresh? ==> r.attempt == 0)
    && (r.phase.BackingOff? ==> r.attempt <= 2)
    && (r.aborted ==> r.phase.Finished?)
  }

  // ----- refreshes -----

  /**
   At most one call is out and it sends the current token; no token was spent or
   replaced twice; and a rejected token is still the current one when its
   refresh succeeds, so that refresh replaces it.
   */
  ghost predicate RefreshInv(c: Client) {
    && c.calls.Keys == (if c.refreshInFlight.Some? then {c.refreshInFlight.value} else {})
    && (forall call <- c.calls :: !c.calls[call].saved ==>
          c.calls[call].sent == c.refreshToken && c.calls[call].cause in {None, Some(c.accessToken)})
    && (forall f <- c.refreshes :: f.cause in {None, Some(f.replaced)})
    && (forall i, j :: 0 <= i < j < |c.refreshes| ==>
          c.refreshes[i].spent < c.refreshes[j].spent && c.refreshes[i].replaced < c.refreshes[j].replaced)
    && (forall f <- c.refreshes :: f.spent < c.refreshToken && f.replaced < c.accessToken)
  }

  ghost predicate Inv(c: Client, interval: int) {
    && SlotInv(c, interval)
    && (forall id <- c.requests :: AttemptInv(c.requests[id]))
    && RefreshInv(c)
  }

  lemma StartKeeps(c: Client, call: nat, cause: Option<nat>)
    requires RefreshInv(c) && call !in c.calls && (cause.Some? ==> cause.value == c.accessToken)
    ensures RefreshInv(StartRefresh(c, call, cause))
  {
  }

  lemma SaveKeeps(c: Client, call: nat, expiresAt: int)
    requires RefreshInv(c) && call in c.calls && !c.calls[call].saved
    ensures RefreshInv(Save(c, call, Max(c.accessToken, c.refreshToken) + 1, expiresAt))
  {
  }

  lemma SameTokens(c: Client, c': Client)
    requires RefreshInv(c) && c'.calls == c.calls && c'.refreshInFlight == c.refreshInFlight
    requires c'.refreshes == c.refreshes && c'.refreshToken == c.refreshToken && c'.accessToken == c.accessToken
    ensures RefreshInv(c')
  {
  }

  lemma RefreshStep(c: Client, interval: int, a: Action)
    requires RefreshInv(c) && Enabled(c, a)
    ensures RefreshInv(Next(c, interval, a))
  {
    hide RefreshInv;
    match a
    case Turn(call) =>
      var id := c.queue[0];
      var c' := With(c, id, c.requests[id].(phase := Refreshing));
      SameTokens(c, c');
      StartKeeps(c', call, None);
      SameTokens(c, With(c, id, Next(c, interval, a).requests[id]));
    case Answer(id, answer, call) =>
      var r := c.requests[id].(heard := Some(answer));
      if answer.Unauthorized? && r.attempt == 0 && r.usedToken == c.accessToken {
        var c' := With(c, id, r.(phase := AwaitingRefresh));
        SameTokens(c, c');
        StartKeeps(c', call, Some(r.usedToken));
      } else {
        SameTokens(c, Next(c, interval, a));
      }
    case Saved(call, expiresAt) => SaveKeeps(c, call, expiresAt);
    case Settled(call) => SettleKeeps(c, call);
    case _ => SameTokens(c, Next(c, interval, a));
  }

  lemma SettleKeeps(c: Client, call: nat)
    requires RefreshInv(c) && call in c.calls
    ensures RefreshInv(Settle(c, call))
  {
  }

  lemma AttemptStep(c: Client, interval: int, a: Action)
    requires (forall id <- c.requests :: AttemptInv(c.requests[id])) && Enabled(c, a)
    ensures forall id <- Next(c, interval, a).requests :: AttemptInv(Next(c, interval, a).requests[id])
  {
    if a.Answer? {
      AnswerShape(c, a.id, a.answer, a.call);
      AnswerAttempt(c, a.id, a.answer, a.call);
      hide AttemptInv, Answered;
    } else {
      OtherAttempt(c, interval, a);
    }
  }

  lemma AnswerAttempt(c: Client, id: nat, answer: Answer, call: nat)
    requires id in c.requests && AttemptInv(c.requests[id]) && c.requests[id].phase.Fetching?
    ensures AttemptInv(Answered(c, id, answer, call).requests[id])
  {
  }

  lemma OtherAttempt(c: Client, interval: int, a: Action)
    requires (forall id <- c.requests :: AttemptInv(c.requests[id])) && Enabled(c, a) && !a.Answer?
    ensures forall id <- Next(c, interval, a).requests :: AttemptInv(Next(c, interval, a).requests[id])
  {
    hide Answered;
  }

  // Changing one request in place, without touching the chain or the slots.
  lemma PhaseKeeps(c: Client, interval: int, id: nat, r: Request)
    requires SlotInv(c, interval) && id in c.requests
    requires InQueue(r.phase) ==> InQueue(c.requests[id].phase)
    requires r.phase.Refreshing? || r.phase.Sleeping? ==> c.queue[..1] == [id]
    requires r.phase.Refreshing? ==> c.lastRequestAt + MinDelay(interval) <= c.now
    requires id in c.queue ==> InQueue(r.phase) || r.phase.Finished?
    ensures SlotInv(With(c, id, r), interval)
  {
  }

  lemma EnqueueKeeps(c: Client, interval: int, id: nat, r: Request)
    requires SlotInv(c, interval) && id !in c.queue
    ensures SlotInv(Enqueue(c, id, r), interval)
  {
    var c' := Enqueue(c, id, r);
    assert forall x :: x in c'.queue <==> x in c.queue || x == id;
    assert |c.queue| > 0 ==> c'.queue[..1] == c.queue[..1];
  }

  lemma TakeKeeps(c: Client, interval: int)
    requires SlotInv(c, interval) && AtHead(c, Refreshing)
    ensures SlotInv(TakeSlot(c), interval)
  {
    var id := c.queue[0];
    if c.pausedUntil <= c.now {
      var c' := TakeSlot(c);
      assert forall x :: x in c.queue <==> x in c'.queue || x == id;
    } else {
      PhaseKeeps(c, interval, id, c.requests[id].(phase := Queued));
    }
  }

  lemma DropKeeps(c: Client, interval: int)
    requires SlotInv(c, interval) && AtHead(c, Finished)
    ensures SlotInv(c.(queue := c.queue[1..]), interval)
  {
    var id := c.queue[0];
    assert forall x :: x in c.queue <==> x in c.queue[1..] || x == id;
  }

  /** An answer sends its request back to the end of the chain, or out of it. */
  lemma AnswerShape(c: Client, id: nat, answer: Answer, call: nat)
    requires id in c.requests
    ensures var r, c' := c.requests[id], Answered(c, id, answer, call);
            && id in c'.requests
            && if c'.requests[id].phase.Queued? then
                 c' == Enqueue(c, id, r.(attempt := r.attempt + 1, heard := Some(answer)))
               else
                 && c'.requests == c.requests[id := c'.requests[id]] && c'.queue == c.queue
                 && c'.now == c.now && c'.lastRequestAt == c.lastRequestAt && c'.grants == c.grants
                 && !InQueue(c'.requests[id].phase) && !c'.requests[id].phase.Granted?
  {
  }

  lemma AnswerKeeps(c: Client, interval: int, id: nat, answer: Answer, call: nat)
    requires SlotInv(c, interval) && Enabled(c, Answer(id, answer, call))
    ensures SlotInv(Answered(c, id, answer, call), interval)
  {
    var r := c.requests[id];
    var c' := Answered(c, id, answer, call);
    assert id !in c.queue;
    AnswerShape(c, id, answer, call);
    hide SlotInv, Answered;
    if c'.requests[id].phase.Queued? {
      EnqueueKeeps(c, interval, id, r.(attempt := r.attempt + 1, heard := Some(answer)));
    } else {
      PhaseKeeps(c, interval, id, c'.requests[id]);
      SameSlots(With(c, id, c'.requests[id]), c', interval);
    }
  }

  lemma SameSlots(c: Client, c': Client, interval: int)
    requires SlotInv(c, interval) && c.now <= c'.now && c'.lastRequestAt == c.lastRequestAt
    requires c'.queue == c.queue && c'.requests == c.requests && c'.grants == c.grants
    ensures SlotInv(c', interval)
  {
  }

  lemma TurnKeeps(c: Client, interval: int, call: nat)
    requires SlotInv(c, interval) && AtHead(c, Queued)
    ensures SlotInv(CheckSlot(c, interval, call), interval)
  {
    var id := c.queue[0];
    var c' := CheckSlot(c, interval, call);
    PhaseKeeps(c, interval, id, c'.requests[id]);
    SameSlots(With(c, id, c'.requests[id]), c', interval);
  }

  lemma SlotStep(c: Client, interval: int, a: Action)
    requires SlotInv(c, interval) && Enabled(c, a)
    ensures SlotInv(Next(c, interval, a), interval)
  {
    var c' := Next(c, interval, a);
    match a
    case Start(id) => EnqueueKeeps(c, interval, id, c'.requests[id]);
    case Turn(call) => TurnKeeps(c, interval, call);
    case Fresh => TakeKeeps(c, interval);
    case Drop => DropKeeps(c, interval);
    case Answer(id, answer, call) => AnswerKeeps(c, interval, id, answer, call);
    case Resume(id) => EnqueueKeeps(c, interval, id, c'.requests[id]);
    case Wake => PhaseKeeps(c, interval, c.queue[0], c'.requests[c.queue[0]]);
    case Fail(id) => PhaseKeeps(c, interval, id, c'.requests[id]);
    case Fetch(id) => PhaseKeeps(c, interval, id, c'.requests[id]);
    case Abort(id) => PhaseKeeps(c, interval, id, c'.requests[id]);
    case _ => SameSlots(c, c', interval);
  }

  lemma InvStep(c: Client, interval: int, c': Client)
    requires Inv(c, interval) && IsStep(c, interval, c')
    ensures Inv(c', interval)
  {
    hide SlotInv, AttemptInv, RefreshInv;
    var a :| Enabled(c, a) && c' == Next(c, interval, a);
    hide Enabled, Next;
    SlotStep(c, interval, a);
    AttemptStep(c, interval, a);
    RefreshStep(c, interval, a);
  }

  lemma {:induction false} RunKeepsInv(run: seq<Client>, interval: int)
    requires IsRun(run, interval)
    ensures Inv(run[|run| - 1], interval)
  {
    var n := |run| - 1;
    if n > 0 {
      var before := run[..n];
      RunKeepsInv(before, interval);
      assert before[n - 1] == run[n - 1];
      InvStep(run[n - 1], interval, run[n]);
    }
  }

  /**
   In every state of every run: granted slots are spaced, no request has
   fetched more than four times, at most one refresh call is out, and no two
   successful refreshes spent or replaced the same token. However many answers
   401 an access token gets, at most one successful refresh is due to them, and
   it replaces that token.
   */
  lemma EveryRunIsPaced(run: seq<Client>, interval: int, k: nat)
    requires IsRun(run, interval) && k < |run|
    ensures var c := run[k];
            && Spaced(c.grants, Max(160, interval))
            && (forall id <- c.requests :: c.requests[id].fetches <= 4)
            && |c.calls| <= 1
            && (forall i, j :: 0 <= i < j < |c.refreshes| ==>
                  c.refreshes[i].spent != c.refreshes[j].spent && c.refreshes[i].replaced != c.refreshes[j].replaced)
            && (forall i, j :: 0 <= i < j < |c.refreshes| && c.refreshes[i].cause.Some? ==>
                  c.refreshes[i].cause != c.refreshes[j].cause)
            && (forall f <- c.refreshes :: f.cause.Some? ==> f.cause.value == f.replaced)
  {
    RunKeepsInv(run[..k + 1], interval);
    InvMeans(run[k], interval);
  }

  lemma InvMeans(c: Client, interval: int)
    requires Inv(c, interval)
    ensures |c.calls| <= 1 && forall id <- c.requests :: c.requests[id].fetches <= 4
  {
    assert |c.calls| == |c.calls.Keys|;
  }

  /** Any j - i consecutive slots take at least j - i delays: the rate limit itself. */
  lemma {:induction false} RateIsBounded(grants: seq<Grant>, delay: int, i: nat, j: nat)
    requires Spaced(grants, delay) && i <= j < |grants|
    ensures grants[i].at + (j - i) * delay <= grants[j].at
    decreases j - i
  {
    if i < j {
      RateIsBounded(grants, delay, i, j - 1);
      assert (j - i) * delay == (j - 1 - i) * delay + delay;
    }
  }

  /** What one step may do to the slots, the cooldown and an aborted request. */
  ghost predicate Careful(c: Client, c': Client, interval: int) {
    && c.pausedUntil <= c'.pausedUntil
    && (forall id <- c.requests :: c.requests[id].aborted ==> id in c'.requests && c'.requests[id].aborted)
    && (c'.grants != c.grants ==>
          && |c.queue| > 0 && c.queue[0] in c.requests && !c.requests[c.queue[0]].aborted
          && c'.grants == c.grants + [Grant(c.queue[0], c.now)]
          && Max(c.pausedUntil, c.lastRequestAt + MinDelay(interval)) <= c.now == c'.lastRequestAt)
  }

  lemma StepIsCareful(c: Client, interval: int, a: Action)
    requires Inv(c, interval) && Enabled(c, a)
    ensures Careful(c, Next(c, interval, a), interval)
  {
    if a.Fresh? {
      var id := c.queue[0];
      assert AttemptInv(c.requests[id]) && c.lastRequestAt + MinDelay(interval) <= c.now;
      hide Inv, SlotInv, AttemptInv, RefreshInv;
    } else {
      assert forall id <- c.requests :: AttemptInv(c.requests[id]);
      OthersAreCareful(c, interval, a);
    }
  }

  lemma OthersAreCareful(c: Client, interval: int, a: Action)
    requires Enabled(c, a) && !a.Fresh?
    requires forall id <- c.requests :: c.requests[id].aborted ==> c.requests[id].phase.Finished?
    ensures Careful(c, Next(c, interval, a), interval)
  {
  }

  /** What any number of steps leaves of an earlier state's cooldown and aborts. */
  ghost predicate Respects(c: Client, later: Client) {
    && c.grants <= later.grants && c.pausedUntil <= later.pausedUntil
    && (forall id <- c.requests :: c.requests[id].aborted ==> id in later.requests && later.requests[id].aborted)
    && (forall k :: |c.grants| <= k < |later.grants| ==>
          var g := later.grants[k];
          c.pausedUntil <= g.at && (g.id in c.requests ==> !c.requests[g.id].aborted))
  }

  lemma CarefulRespects(c: Client, interval: int, later: Client, next: Client)
    requires Respects(c, later) && Careful(later, next, interval)
    ensures Respects(c, next)
  {
  }

  lemma StepRespects(c: Client, interval: int, later: Client, next: Client)
    requires Respects(c, later) && Inv(later, interval) && IsStep(later, interval, next)
    ensures Respects(c, next)
  {
    hide Respects, Inv;
    var a :| Enabled(later, a) && next == Next(later, interval, a);
    hide Enabled, Next;
    StepIsCareful(later, interval, a);
    CarefulRespects(c, interval, later, next);
  }

  /**
   From any state of a run on: no slot is granted before a cooldown of that
   state is over, and none to a request that was aborted by then.
   */
  lemma {:induction false} NoSlotInCooldownOrAfterAbort(run: seq<Client>, interval: int, i: nat, j: nat)
    requires IsRun(run, interval) && i <= j < |run|
    ensures Respects(run[i], run[j])
    decreases j - i
  {
    if i == j {
      hide IsRun, IsStep;
    } else {
      RunPrefix(run, interval, j);
      hide IsRun, Respects, Inv, IsStep;
      NoSlotInCooldownOrAfterAbort(run, interval, i, j - 1);
      RunKeepsInv(run[..j], interval);
      StepRespects(run[i], interval, run[j - 1], run[j]);
    }
  }

  lemma RunPrefix(run: seq<Client>, interval: int, n: nat)
    requires IsRun(run, interval) && 0 < n <= |run|
    ensures IsRun(run[..n], interval)
    ensures n < |run| ==> IsStep(run[n - 1], interval, run[n])
  {
    hide IsStep;
  }

  /** How long the n-th retry waits: 1, 2, 4 or 8 seconds, or longer by the server's word, up to a minute. */
  lemma BackoffIs(retryAfter: int)
    ensures [BackoffMs(0), BackoffMs(1), BackoffMs(2), BackoffMs(3)] == [1000, 2000, 4000, 8000]
    ensures forall n :: 0 <= n <= 3 ==>
              RetryDelay(n, retryAfter) == if retryAfter > 60000 then 60000
                                           else if retryAfter > [1000, 2000, 4000, 8000][n] then retryAfter
                                           else [1000, 2000, 4000, 8000][n]
  {
    assert BackoffMs(1) == 2 * BackoffMs(0) && BackoffMs(2) == 2 * BackoffMs(1) && BackoffMs(3) == 2 * BackoffMs(2);
  }

  /** An answer 429 starts a cooldown of at least its backoff, and at most a minute. */
  lemma ThrottlingPauses(c: Client, id: nat, retryAfter: int, call: nat)
    requires id in c.requests && c.requests[id].attempt <= 3
    ensures var delay := RetryDelay(c.requests[id].attempt, retryAfter);
            && Answered(c, id, Throttled(retryAfter), call).pausedUntil == Max(c.pausedUntil, c.now + delay)
            && [1000, 2000, 4000, 8000][c.requests[id].attempt] <= delay <= 60000
            && (retryAfter <= 60000 ==> retryAfter <= delay)
  {
    BackoffIs(retryAfter);
  }

  /**
   An answer ends its request if and only if it is final, a 401 after the first
   fetch, or a failure of the fourth; after any other failure the request backs
   off. Other requests are left alone.
   */
  lemma AnswerEndsIff(c: Client, interval: int, id: nat, answer: Answer, call: nat)
    requires Enabled(c, Action.Answer(id, answer, call)) && c.requests[id].attempt <= 3
    ensures var c' := Next(c, interval, Action.Answer(id, answer, call));
            var r, r' := c.requests[id], c'.requests[id];
            var failure := answer.Throttled? || answer.Broken? || answer.NoAnswer?;
            && (r'.phase == Finished <==>
                  answer == Final || (answer == Unauthorized && r.attempt > 0) || (failure && r.attempt == 3))
            && (failure && r.attempt < 3 ==>
                  r'.phase == BackingOff(c.now + if answer.NoAnswer? then [1000, 2000, 4000][r.attempt]
                                                 else RetryDelay(r.attempt, answer.retryAfter)))
            && (failure ==> r'.attempt == r.attempt && c'.queue == c.queue)
            && (forall x <- c.requests :: x != id ==> x in c'.requests && c'.requests[x] == c.requests[x])
  {
    hide BackoffMs, RetryDelay;
    BackoffIs(0);
  }

  /**
   After a 401 to the first fetch the request waits for a refresh that is under
   way, or goes straight back into the chain when its token was replaced meanwhile.
   */
  lemma UnauthorizedRefreshes(c: Client, interval: int, id: nat, call: nat)
    requires Enabled(c, Action.Answer(id, Unauthorized, call)) && c.requests[id].attempt == 0
    ensures var c' := Next(c, interval, Action.Answer(id, Unauthorized, call));
            var r, r' := c.requests[id], c'.requests[id];
            if r.usedToken == c.accessToken then
              r'.phase == AwaitingRefresh && c'.queue == c.queue
              && if c.refreshInFlight.Some? then c'.refreshInFlight == c.refreshInFlight && c'.calls == c.calls
                 else c'.refreshInFlight == Some(call)
                      && c'.calls == c.calls[call := Call(c.refreshToken, Some(r.usedToken), false)]
            else
              r'.phase == Queued && r'.attempt == 1 && c'.queue == c.queue + [id] && c'.calls == c.calls
  {
  }

  /** A waiting request comes back once its backoff is over, at the end of the chain and with one attempt more. */
  lemma ComesBackIff(c: Client, interval: int, id: nat)
    requires id in c.requests
    ensures c.requests[id].phase.BackingOff? ==>
              (Enabled(c, Resume(id)) <==> c.now >= c.requests[id].phase.until)
    ensures c.requests[id].phase == AwaitingRefresh ==> Enabled(c, Resume(id))
    ensures Enabled(c, Resume(id)) ==>
              var c', r := Next(c, interval, Resume(id)), c.requests[id];
              c'.queue == c.queue + [id]
              && c' == c.(queue := c'.queue,
                          requests := c.requests[id := r.(phase := Queued, attempt := r.attempt + 1)])
  {
  }

  /** A turn of the slot loop: a sleep until exactly when the slot is free, or the token check. */
  lemma TurnMeans(c: Client, interval: int, call: nat)
    requires Enabled(c, Turn(call))
    ensures var c', id := Next(c, interval, Turn(call)), c.queue[0];
            var free := Max(c.lastRequestAt + Max(160, interval), c.pausedUntil);
            && (c'.requests[id].phase == if free > c.now then Sleeping(free) else Refreshing)
            && c'.requests[id].attempt == c.requests[id].attempt && c'.queue == c.queue
            && (free > c.now || c.now < c.expiresAt - 60000 || c.refreshInFlight.Some? ==>
                  c'.refreshInFlight == c.refreshInFlight && c'.calls == c.calls)
            && (free <= c.now && c.now >= c.expiresAt - 60000 && c.refreshInFlight.None? ==>
                  c'.refreshInFlight == Some(call) && c'.calls == c.calls[call := Call(c.refreshToken, None, false)])
  {
  }

  /** After the token check the head takes the slot exactly if no cooldown holds, and goes on waiting otherwise. */
  lemma FreshMeans(c: Client, interval: int)
    requires Enabled(c, Fresh)
    ensures var c', id := Next(c, interval, Fresh), c.queue[0];
            if c.pausedUntil <= c.now then
              c'.requests[id].phase == Granted && c'.queue == c.queue[1..] && c'.lastRequestAt == c.now
              && c'.grants == c.grants + [Grant(id, c.now)]
            else
              c'.requests[id].phase == Queued && c'.queue == c.queue && c'.grants == c.grants
              && c'.lastRequestAt == c.lastRequestAt
  {
  }

  /** A fetch carries the access token of its moment, so a later answer 401 is about that token. */
  lemma FetchMeans(c: Client, interval: int, id: nat)
    requires Enabled(c, Fetch(id))
    ensures var c' := Next(c, interval, Fetch(id));
            c' == c.(requests := c'.requests) && id in c'.requests && c'.requests[id].phase == Fetching
            && c'.requests[id].usedToken == c.accessToken && c'.requests[id].fetches == c.requests[id].fetches + 1
  {
  }

  /** A refresh replaces both tokens by newer ones, and only its end makes room for another. */
  lemma RefreshMeans(c: Client, interval: int, call: nat, expiresAt: int)
    requires Enabled(c, Saved(call, expiresAt))
    ensures var c' := Next(c, interval, Saved(call, expiresAt));
            && c.accessToken < c'.accessToken && c.refreshToken < c'.refreshToken && c'.expiresAt == expiresAt
            && c'.refreshInFlight == c.refreshInFlight && c'.requests == c.requests && c'.queue == c.queue
            && Enabled(c', Settled(call)) && Next(c', interval, Settled(call)).refreshInFlight == None
            && Next(c', interval, Settled(call)).accessToken == c'.accessToken
  {
  }

  /**
   In every state of every run, a request still under way has fetched once for
   each earlier attempt and its own; one that has ended, other than by an abort
   or a failed refresh, got a final answer, a 401 to a later fetch, or, after a
   failure, exactly four fetches.
   */
  lemma EveryRunRetries(run: seq<Client>, interval: int, k: nat, id: nat)
    requires IsRun(run, interval) && k < |run| && id in run[k].requests
    ensures var r := run[k].requests[id];
            && (r.phase.Fetching? || r.phase.AwaitingRefresh? || r.phase.BackingOff? ==> r.fetches == r.attempt + 1)
            && (r.phase.Queued? || r.phase.Sleeping? || r.phase.Refreshing? || r.phase.Granted? ==>
                  r.fetches == r.attempt)
            && (r.phase.Finished? && !r.aborted && !r.failed ==>
                  && r.heard.Some?
                  && (r.heard.value.Unauthorized? ==> 2 <= r.fetches <= 4)
                  && (r.heard.value.Throttled? || r.heard.value.Broken? || r.heard.value.NoAnswer? ==> r.fetches == 4))
  {
    RunKeepsInv(run[..k + 1], interval);
    assert AttemptInv(run[k].requests[id]);
  }

  // ----- the client object, whose methods are the steps -----

  class ApiClient {
    const interval: int
    var now: int
    var lastRequestAt: int
    var pausedUntil: int
    var rateLimitQueue: seq<nat>
    var accessToken: nat
    var refreshToken: nat
    var expiresAt: int
    var refreshInFlight: Option<nat>
    ghost var requests: map<nat, Request>  // where each request stands between two awaits
    ghost var calls: map<nat, Call>
    ghost var grants: seq<Grant>
    ghost var refreshes: seq<Refresh>

    ghost function View(): Client
      reads this
    {
      Client(now, lastRequestAt, pausedUntil, rateLimitQueue, requests, accessToken, refreshToken, expiresAt,
             refreshInFlight, calls, grants, refreshes)
    }

    constructor (interval: int, now: int, token: nat, expiresAt: int)
      requires now >= 0
      ensures Initial(View()) && this.interval == interval && this.now == now
      ensures accessToken == refreshToken == token && this.expiresAt == expiresAt
    {
      this.interval, this.now, this.expiresAt := interval, now, expiresAt;
      lastRequestAt, pausedUntil, rateLimitQueue, refreshInFlight := 0, 0, [], None;
      accessToken, refreshToken := token, token;
      requests, calls, grants, refreshes := map[], map[], [], [];
    }

    ghost method Move(id: nat, phase: Phase)
      requires id in requests
      modifies this`requests
      ensures View() == With(old(View()), id, old(requests)[id].(phase := phase))
    {
      requests := requests[id := requests[id].(phase := phase)];
    }

    /** `cause` is the rejected token that asks for the refresh, if one does. */
    method RefreshToken(call: nat, ghost cause: Option<nat>)
      requires call !in calls
      modifies this`refreshInFlight, this`calls
      ensures View() == StartRefresh(old(View()), call, cause)
    {
      if refreshInFlight.None? {
        refreshInFlight := Some(call);
        calls := calls[call := Call(refreshToken, cause, false)];
      }
    }

    method EnsureFreshToken(call: nat)
      requires call !in calls
      modifies this`refreshInFlight, this`calls
      ensures View() == if now < expiresAt - 60000 then old(View()) else StartRefresh(old(View()), call, None)
    {
      if now < expiresAt - 60000 {
        return;
      }
      RefreshToken(call, None);
    }

    method WaitForRateLimit(id: nat)
      requires Enabled(View(), Start(id))
      modifies this`rateLimitQueue, this`requests
      ensures View() == Next(old(View()), interval, Start(id))
    {
      rateLimitQueue := rateLimitQueue + [id];
      requests := requests[id := Request(Queued, 0, 0, 0, None, false, false)];
    }

    /** One turn of the slot loop, up to the sleep or the token check. */
    method SlotTurn(call: nat)
      requires Enabled(View(), Turn(call))
      modifies this`requests, this`refreshInFlight, this`calls
      ensures View() == Next(old(View()), interval, Turn(call))
    {
      var minDelayMs := Max(160, interval);
      var delay := Max(lastRequestAt + minDelayMs, pausedUntil) - now;
      if delay > 0 {
        Move(rateLimitQueue[0], Sleeping(now + delay));
      } else {
        Move(rateLimitQueue[0], Refreshing);
        EnsureFreshToken(call);
      }
    }

    /** The rest of that turn: the slot is taken unless a cooldown began meanwhile. */
    method SlotTaken() returns (granted: bool)
      requires Enabled(View(), Fresh)
      modifies this`requests, this`rateLimitQueue, this`lastRequestAt, this`grants
      ensures View() == Next(old(View()), interval, Fresh)
      ensures granted == (pausedUntil <= now)
    {
      granted := pausedUntil <= now;
      if granted {
        Move(rateLimitQueue[0], Granted);
        grants := grants + [Grant(rateLimitQueue[0], now)];
        lastRequestAt := now;
        rateLimitQueue := rateLimitQueue[1..];
      } else {
        Move(rateLimitQueue[0], Queued);
      }
    }

    method SaveTokens(call: nat, token: nat, expiresAt: int)
      requires Enabled(View(), Saved(call, expiresAt)) && token == Max(accessToken, refreshToken) + 1
      modifies this`accessToken, this`refreshToken, this`expiresAt, this`calls, this`refreshes
      ensures View() == Next(old(View()), interval, Saved(call, expiresAt))
    {
      refreshes := refreshes + [Refresh(calls[call].sent, accessToken, calls[call].cause)];
      calls := calls[call := calls[call].(saved := true)];
      accessToken, refreshToken, this.expiresAt := token, token, expiresAt;
    }

    method RefreshSettled(call: nat)
      requires Enabled(View(), Settled(call))
      modifies this`refreshInFlight, this`calls
      ensures View() == Next(old(View()), interval, Settled(call))
    {
      refreshInFlight := None;
      calls := calls - {call};
    }

    method Backoff(attempt: nat) returns (ms: int)
      ensures ms == BackoffMs(attempt)
    {
      ms := 1000;
      for i := 0 to attempt
        invariant ms == BackoffMs(i)
      {
        ms := 2 * ms;
      }
    }

    method DelayAfter(attempt: nat, answer: Answer) returns (delay: int)
      requires answer.Throttled? || answer.Broken? || answer.NoAnswer?
      ensures delay == if answer.NoAnswer? then BackoffMs(attempt) else RetryDelay(attempt, answer.retryAfter)
    {
      delay := Backoff(attempt);
      if !answer.NoAnswer? {
        delay := Min(60000, Max(delay, answer.retryAfter));
      }
    }

    /** Waits longer after each failure, and after the fourth gives up. */
    method BackOff(id: nat, attempt: nat, answer: Answer, ghost call: nat)
      requires id in requests && attempt == requests[id].attempt
      requires answer.Throttled? || answer.Broken? || answer.NoAnswer?
      modifies this`requests, this`pausedUntil
      ensures View() == Answered(old(View()), id, answer, call)
    {
      hide BackoffMs, RetryDelay, StartRefresh, Enqueue;
      var delay := DelayAfter(attempt, answer);
      if answer.Throttled? {
        pausedUntil := Max(pausedUntil, now + delay);
      }
      Hear(id, answer);
      Move(id, if attempt >= 3 then Finished else BackingOff(now + delay));
    }

    ghost method Hear(id: nat, answer: Answer)
      requires id in requests
      modifies this`requests
      ensures View() == With(old(View()), id, old(requests)[id].(heard := Some(answer)))
    {
      requests := requests[id := requests[id].(heard := Some(answer))];
    }

    /** The answer to a fetch: finish, refresh, or back off and retry. */
    method HandleAnswer(id: nat, attempt: nat, usedAccessToken: nat, answer: Answer, call: nat)
      requires Enabled(View(), Action.Answer(id, answer, call))
      requires attempt == requests[id].attempt && usedAccessToken == requests[id].usedToken
      modifies this`requests, this`refreshInFlight, this`calls, this`pausedUntil, this`rateLimitQueue
      ensures View() == Next(old(View()), interval, Action.Answer(id, answer, call))
    {
      if answer.Throttled? || answer.Broken? || answer.NoAnswer? {
        BackOff(id, attempt, answer, call);
        return;
      }
      Hear(id, answer);
      if answer.Final? || attempt > 0 {
        Move(id, Finished);
      } else if usedAccessToken == accessToken {
        Move(id, AwaitingRefresh);
        RefreshToken(call, Some(usedAccessToken));
      } else {
        rateLimitQueue := rateLimitQueue + [id];
        requests := requests[id := requests[id].(phase := Queued, attempt := attempt + 1)];
      }
    }
  }
}
