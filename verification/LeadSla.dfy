/** The running state of a lead's response deadline, in business seconds. */
module LeadSla {
  import opened Base
  import opened BusinessTime

  datatype Status = Waiting | Active | Warning | Overdue

  datatype Card = Card(startAt: Option<int>, dueAt: Option<int>, elapsedSeconds: int, remainingSeconds: int,
                       progressPercent: int, status: Status)

  datatype Runtime = Runtime(elapsedSeconds: int, progressPercent: int, status: Status, totalSeconds: int)

  /** Math.round of a number of milliseconds over 1000, halves upwards. */
  function RoundedSeconds(ms: nat): nat {
    (ms + 500) / 1000
  }

  /** Math.round of 100 * part / whole. */
  function RoundedPercent(part: nat, whole: nat): nat
    requires whole >= 1
  {
    (200 * part + whole) / (2 * whole)
  }

  /** A card whose dates do not parse keeps the values it came with. */
  function LeadSlaRuntime(card: Card, nowMs: int): Runtime {
    if card.startAt.None? || card.dueAt.None? then
      Runtime(card.elapsedSeconds, card.progressPercent, card.status,
              Max(1, card.elapsedSeconds + card.remainingSeconds))
    else
      var startMs := card.startAt.value;
      var totalSeconds := Max(1, RoundedSeconds(Count(startMs, card.dueAt.value)));
      var elapsedSeconds := RoundedSeconds(Count(startMs, nowMs));
      var remainingSeconds := Max(0, totalSeconds - elapsedSeconds);
      var status :=
        if nowMs < startMs then Waiting
        else if elapsedSeconds >= totalSeconds then Overdue
        else if remainingSeconds <= 5 * 60 then Warning
        else Active;
      Runtime(elapsedSeconds, Min(100, RoundedPercent(elapsedSeconds, totalSeconds)), status, totalSeconds)
  }

  /** The nearest whole number of seconds, of two the greater. */
  ghost predicate NearestSecond(seconds: int, ms: int) {
    1000 * seconds - 500 <= ms < 1000 * seconds + 500
  }

  /**
   What a card shows: the seconds nearest to the business time gone and given, of
   which it is given one at least; it waits before its start, is overdue from the
   end of its time on, and warns in the last five minutes.
   */
  lemma CardShows(card: Card, nowMs: int)
    requires card.startAt.Some? && card.dueAt.Some?
    ensures var a, given := LeadSlaRuntime(card, nowMs), Count(card.startAt.value, card.dueAt.value);
            && NearestSecond(a.elapsedSeconds, Count(card.startAt.value, nowMs))
            && (if given < 500 then a.totalSeconds == 1 else NearestSecond(a.totalSeconds, given))
            && (a.status == Waiting <==> nowMs < card.startAt.value)
            && (a.status == Overdue <==> nowMs >= card.startAt.value && a.elapsedSeconds >= a.totalSeconds)
            && (a.status == Warning <==>
                  nowMs >= card.startAt.value && a.totalSeconds - 300 <= a.elapsedSeconds < a.totalSeconds)
  {
    hide Count;
  }

  /** Its progress is the nearest whole percentage of the time given, of two the greater, and 100 at most. */
  lemma CardProgress(card: Card, nowMs: int)
    requires card.startAt.Some? && card.dueAt.Some?
    ensures var a := LeadSlaRuntime(card, nowMs);
            var twice := 2 * a.totalSeconds;
            && a.progressPercent * twice <= 200 * a.elapsedSeconds + a.totalSeconds
            && (a.progressPercent < 100 ==> 200 * a.elapsedSeconds + a.totalSeconds < (a.progressPercent + 1) * twice)
            && a.progressPercent <= 100
  {
    hide Count;
    var a := LeadSlaRuntime(card, nowMs);
    Quotient(200 * a.elapsedSeconds + a.totalSeconds, 2 * a.totalSeconds, a.progressPercent);
  }

  lemma Quotient(n: nat, d: nat, q: int)
    requires d >= 1 && q == Min(100, n / d)
    ensures q * d <= n && (q < 100 ==> n < (q + 1) * d)
  {
    var k := n / d - q;
    assert n / d * d <= n < n / d * d + d;
    assert n / d * d == q * d + k * d;
    assert k >= 0 ==> k * d >= 0;
  }

  /** A card whose dates do not parse shows what it came with. */
  lemma UndatedCardStays(card: Card, nowMs: int)
    requires card.startAt.None? || card.dueAt.None?
    ensures var a := LeadSlaRuntime(card, nowMs);
            && a.elapsedSeconds == card.elapsedSeconds && a.progressPercent == card.progressPercent
            && a.status == card.status
            && a.totalSeconds >= 1
            && (card.elapsedSeconds + card.remainingSeconds >= 1 ==>
                  a.totalSeconds == card.elapsedSeconds + card.remainingSeconds)
  {
  }

  predicate NotAfter(s: Status, t: Status) {
    match s
    case Waiting => true
    case Active => !t.Waiting?
    case Warning => t.Warning? || t.Overdue?
    case Overdue => t.Overdue?
  }

  /** As time passes the card only moves on, and its clock and progress never run back. */
  lemma OnlyMovesOn(card: Card, now: int, later: int)
    requires now <= later && card.startAt.Some? && card.dueAt.Some?
    ensures var a, b := LeadSlaRuntime(card, now), LeadSlaRuntime(card, later);
            && NotAfter(a.status, b.status) && a.elapsedSeconds <= b.elapsedSeconds
            && 0 <= a.progressPercent <= b.progressPercent <= 100 && a.totalSeconds == b.totalSeconds
  {
    var a, b := LeadSlaRuntime(card, now), LeadSlaRuntime(card, later);
    Monotone(card.startAt.value, now, later);
    PercentGrows(a.elapsedSeconds, b.elapsedSeconds, a.totalSeconds);
  }

  lemma PercentGrows(a: nat, b: nat, whole: nat)
    requires a <= b && whole >= 1
    ensures RoundedPercent(a, whole) <= RoundedPercent(b, whole)
  {
    DivideGrows(200 * a + whole, 200 * b + whole, 2 * whole);
  }

  lemma DivideGrows(a: nat, b: nat, d: nat)
    requires a <= b && d >= 1
    ensures a / d <= b / d
  {
    var p, q := a / d, b / d;
    var k := p - q;
    assert d * p == d * q + d * k;
    assert k >= 1 ==> d * k >= d;
  }

  /** A card is overdue at its deadline exactly when it was given at least half a second of business time. */
  lemma OverdueAtDeadline(card: Card)
    requires card.startAt.Some? && card.dueAt.Some?
    ensures LeadSlaRuntime(card, card.dueAt.value).status.Overdue? <==>
            Count(card.startAt.value, card.dueAt.value) >= 500
  {
  }

  /** Time outside working hours never moves an open card. */
  lemma StandsStillOffHours(card: Card, now: int, later: int)
    requires card.startAt.Some? && card.dueAt.Some? && card.startAt.value <= now <= later
    requires forall t :: now <= t < later ==> !Business(t)
    ensures LeadSlaRuntime(card, later) == LeadSlaRuntime(card, now)
  {
    CountNone(now, later);
    Additive(card.startAt.value, now, later);
  }
}
