/** The job cursor that the event back-fill writes as text and reads after a crash. */
module EventCursor {
  import opened Base
  import opened Decimal

  datatype Position = Position(stream: nat, from: nat)

  /** Position order: streams first, then time. */
  predicate AtMost(p: Position, q: Position) {
    p.stream < q.stream || (p.stream == q.stream && p.from <= q.from)
  }

  function Step(p: Position, page: nat, fetched: nat, inserted: nat): string {
    "events:stream:" + Digits(p.stream) + (":window:" + Digits(p.from) + (":page:" + Digits(page)
      + ":fetched:" + Digits(fetched) + ":inserted:" + Digits(inserted)))
  }

  /** Reads `prefix`, a numeral, and gives back the numeral and what follows it. */
  function Numeral(prefix: string, s: string): Option<(nat, string)> {
    if !(prefix <= s) then None
    else
      var rest := s[|prefix|..];
      if Run(rest) == 0 then None else Some((Value(rest[..Run(rest)]), rest[Run(rest)..]))
  }

  function ResumePosition(step: string): Option<Position> {
    match Current(step)
    case Some(p) => Some(p)
    case None => Legacy(step)
  }

  function Current(step: string): Option<Position> {
    match Numeral("events:stream:", step)
    case None => None
    case Some((stream, rest)) =>
      match Numeral(":window:", rest)
      case None => None
      case Some((from, rest')) => if ":" <= rest' then Some(Position(stream, from)) else None
  }

  function Legacy(step: string): Option<Position> {
    match Numeral("events:window:", step)
    case None => None
    case Some((from, rest)) => if ":" <= rest then Some(Position(0, from)) else None
  }

  lemma NumeralReadsBack(prefix: string, n: nat, rest: string)
    requires rest == [] || !IsDigit(rest[0])
    ensures Numeral(prefix, prefix + Digits(n) + rest) == Some((n, rest))
  {
    DigitsValue(n);
    RunStops(Digits(n), rest);
    var s := prefix + Digits(n) + rest;
    assert s[|prefix|..] == Digits(n) + rest;
    assert (Digits(n) + rest)[..|Digits(n)|] == Digits(n);
    assert (Digits(n) + rest)[|Digits(n)|..] == rest;
  }

  /** A written position is read back as it was, whatever the counters beside it. */
  lemma StepReadsBack(p: Position, page: nat, fetched: nat, inserted: nat)
    ensures ResumePosition(Step(p, page, fetched, inserted)) == Some(p)
  {
    var tail := ":page:" + Digits(page) + ":fetched:" + Digits(fetched) + ":inserted:" + Digits(inserted);
    var middle := ":window:" + Digits(p.from) + tail;
    assert tail[0] == ':' && middle[0] == ':';
    assert ":" <= tail;
    NumeralReadsBack("events:stream:", p.stream, middle);
    NumeralReadsBack(":window:", p.from, tail);
  }

  /** Cursors of the older single-stream form resume in stream 0. */
  lemma LegacyReadsBack(from: nat, tail: string)
    requires tail != [] && tail[0] == ':'
    ensures ResumePosition("events:window:" + Digits(from) + tail) == Some(Position(0, from))
  {
    var s := "events:window:" + Digits(from) + tail;
    NumeralReadsBack("events:window:", from, tail);
    assert s[7] == 'w' && "events:stream:"[7] == 's';
  }

  /** The cursor column: empty, the marker of a starting stage, or a position with its counters. */
  datatype Cursor = Empty | StageMarker | At(p: Position, page: nat, fetched: nat, inserted: nat)

  function Text(c: Cursor): string {
    match c
    case Empty => ""
    case StageMarker => "events"
    case At(p, page, fetched, inserted) => Step(p, page, fetched, inserted)
  }

  function Persisted(c: Cursor): Option<Position> {
    if c.At? then Some(c.p) else None
  }

  /** Only a written position is resumed from; the stage marker and an empty column name none. */
  lemma CursorReadsBack(c: Cursor)
    ensures ResumePosition(Text(c)) == Persisted(c)
  {
    if c.At? {
      StepReadsBack(c.p, c.page, c.fetched, c.inserted);
    }
  }
}
