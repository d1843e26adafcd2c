/**
 Transcription of recordings: the channels of interleaved samples are split
 chunk by chunk, each channel's segments are checked, and all of them merged by
 time. The engine may fail and the time run out where `mayFail` says so, and
 nowhere otherwise. Times are milliseconds.
 */
module Transcript {
  import opened Base
  import opened Paging

  // ----- channels -----

  /** samples[channel::channels] */
  function Stride(samples: seq<int>, channel: nat, channels: nat): seq<int>
    requires channel < channels
  {
    if |samples| <= channel then []
    else if |samples| < channels then [samples[channel]]
    else [samples[channel]] + Stride(samples[channels..], channel, channels)
  }

  /** Striding distributes over a cut between two frames. */
  lemma {:induction false} StrideSplits(a: seq<int>, b: seq<int>, frames: nat, channel: nat, channels: nat)
    requires channel < channels && |a| == Span(frames, channels)
    ensures Stride(a + b, channel, channels) == Stride(a, channel, channels) + Stride(b, channel, channels)
  {
    if frames == 0 {
      assert a + b == b;
    } else {
      assert (a + b)[channels..] == a[channels..] + b;
      StrideSplits(a[channels..], b, frames - 1, channel, channels);
    }
  }

  /** The frames in order, each made of the next sample of every channel. */
  function Interleave(columns: seq<seq<int>>, frames: nat): seq<int>
    requires forall column <- columns :: |column| == frames
    decreases frames
  {
    if frames == 0 then [] else Heads(columns) + Interleave(Tails(columns), frames - 1)
  }

  function Columns(samples: seq<int>, channels: nat): seq<seq<int>> {
    seq(channels, c requires 0 <= c < channels => Stride(samples, c, channels))
  }

  lemma {:induction false} StrideLength(samples: seq<int>, frames: nat, channel: nat, channels: nat)
    requires channel < channels && |samples| == Span(frames, channels)
    ensures |Stride(samples, channel, channels)| == frames
  {
    if frames > 0 {
      StrideLength(samples[channels..], frames - 1, channel, channels);
    }
  }

  function Heads(columns: seq<seq<int>>): seq<int>
    requires forall column <- columns :: |column| > 0
  {
    seq(|columns|, c requires 0 <= c < |columns| => columns[c][0])
  }

  function Tails(columns: seq<seq<int>>): seq<seq<int>>
    requires forall column <- columns :: |column| > 0
  {
    seq(|columns|, c requires 0 <= c < |columns| => columns[c][1..])
  }

  lemma ColumnLengths(samples: seq<int>, frames: nat, channels: nat)
    requires |samples| == Span(frames, channels)
    ensures forall column <- Columns(samples, channels) :: |column| == frames
  {
    forall c | 0 <= c < channels
      ensures |Columns(samples, channels)[c]| == frames
    {
      StrideLength(samples, frames, c, channels);
    }
  }

  lemma ColumnsSplit(samples: seq<int>, frames: nat, channels: nat)
    requires frames > 0 && |samples| == Span(frames, channels)
    requires forall column <- Columns(samples, channels) :: |column| > 0
    ensures Heads(Columns(samples, channels)) == samples[..channels]
    ensures Tails(Columns(samples, channels)) == Columns(samples[channels..], channels)
  {
    forall c | 0 <= c < channels
      ensures Columns(samples, channels)[c][0] == samples[c]
      ensures Columns(samples, channels)[c][1..] == Stride(samples[channels..], c, channels)
    {
      FirstFrame(samples, frames, c, channels);
    }
    hide Stride;
  }

  /** Putting the split channels back together restores the recording. */
  lemma {:induction false} InterleaveRestores(samples: seq<int>, frames: nat, channels: nat)
    requires channels >= 1 && |samples| == Span(frames, channels)
    ensures forall column <- Columns(samples, channels) :: |column| == frames
    ensures Interleave(Columns(samples, channels), frames) == samples
  {
    hide Columns, Heads, Tails;
    ColumnLengths(samples, frames, channels);
    if frames > 0 {
      ColumnsSplit(samples, frames, channels);
      InterleaveRestores(samples[channels..], frames - 1, channels);
    }
  }

  lemma FirstFrame(samples: seq<int>, frames: nat, channel: nat, channels: nat)
    requires channel < channels && frames > 0 && |samples| == Span(frames, channels)
    ensures var column := Stride(samples, channel, channels);
            && |column| > 0 && column[0] == samples[channel]
            && column[1..] == Stride(samples[channels..], channel, channels)
  {
  }

  const CHUNK: nat := 8192

  lemma ChunkStrides(samples: seq<int>, from: nat, to: nat, frames: nat, channel: nat, channels: nat)
    requires channel < channels && from <= to <= |samples| && to - from == Span(frames, channels)
    ensures Stride(samples[from..], channel, channels)
         == Stride(samples[from..to], channel, channels) + Stride(samples[to..], channel, channels)
  {
    hide Stride, Span;
    assert samples[from..] == samples[from..to] + samples[to..];
    StrideSplits(samples[from..to], samples[to..], frames, channel, channels);
  }

  /** Reads 8192 frames at a time and strides every chunk by itself. */
  method SplitChannel(incoming: seq<int>, frames: nat, channel: nat, channels: nat, mayFail: bool)
    returns (r: Option<seq<int>>)
    requires channels >= 1 && |incoming| == Span(frames, channels)
    ensures channel < channels && !mayFail ==> r.Some?
    ensures r.Some? ==> channel < channels && r.value == Stride(incoming, channel, channels)
  {
    if channel >= channels {
      return None;
    }
    var outgoing := [];
    var position: nat, left: nat := 0, frames;
    assert incoming[0..] == incoming && Span(0, channels) == 0 && Stride([], channel, channels) == [];
    hide Stride, Span;
    while left > 0
      invariant position <= |incoming| && |incoming| - position == Span(left, channels)
      invariant outgoing + Stride(incoming[position..], channel, channels) == Stride(incoming, channel, channels)
    {
      if mayFail {
        if * {
          return None;  // out of time
        }
      }
      var count: nat := Min(CHUNK, left);
      SpanSplits(count, left - count, channels);
      var end := position + Span(count, channels);
      var samples := incoming[position..end];
      ChunkStrides(incoming, position, end, count, channel, channels);
      Associative(outgoing, Stride(samples, channel, channels), Stride(incoming[end..], channel, channels));
      outgoing := outgoing + Stride(samples, channel, channels);
      position, left := end, left - count;
    }
    assert incoming[position..] == [];
    r := Some(outgoing);
  }

  lemma {:induction false} SpanSplits(a: nat, b: nat, size: nat)
    ensures Span(a + b, size) == Span(a, size) + Span(b, size)
  {
    if b > 0 {
      SpanSplits(a, b - 1, size);
    }
  }

  // ----- the segments of one channel -----

  const MAX_SEGMENTS: nat := 10000
  const MAX_TEXT: nat := 200000

  /** `blank` says that the text is white space only. */
  datatype Item = Item(from: int, to: int, text: string, blank: bool)

  datatype Segment = Segment(channel: nat, startMs: int, endMs: int, text: string)

  function Chars(items: seq<Item>): nat {
    if |items| == 0 then 0 else Chars(items[..|items| - 1]) + |items[|items| - 1].text|
  }

  /** The end of the last of some items, spoken or blank. */
  function PreviousEnd(items: seq<Item>): int {
    if |items| == 0 then 0 else items[|items| - 1].to
  }

  predicate ItemOk(item: Item, previousEnd: int, durationMs: int) {
    && 0 <= item.from <= item.to <= durationMs && previousEnd <= item.from && |item.text| <= 16000
    && (item.blank || item.from < item.to)
  }

  /** What the check accepts: items in order within the duration, and not too much text. */
  predicate Acceptable(items: seq<Item>, durationMs: int) {
    || |items| == 0
    || (var n := |items| - 1;
        && Acceptable(items[..n], durationMs)
        && ItemOk(items[n], PreviousEnd(items[..n]), durationMs) && Chars(items) <= MAX_TEXT)
  }

  lemma {:induction false} CharsGrow(items: seq<Item>, n: nat)
    requires n <= |items|
    ensures Chars(items[..n]) <= Chars(items)
    decreases |items|
  {
    if n == |items| {
      assert items[..n] == items;
    } else {
      CharsGrow(items[..|items| - 1], n);
      assert items[..|items| - 1][..n] == items[..n];
    }
  }

  /** Each item by itself, and against the one before it. */
  ghost predicate InTurn(items: seq<Item>, durationMs: int) {
    && (forall item <- items ::
          && 0 <= item.from <= item.to <= durationMs && |item.text| <= 16000 && (item.blank || item.from < item.to))
    && (forall k :: 0 < k < |items| ==> items[k - 1].to <= items[k].from)
  }

  /** A list is acceptable exactly when its items are in turn and their texts within the limit together. */
  lemma {:induction false} AcceptableIff(items: seq<Item>, durationMs: int)
    ensures Acceptable(items, durationMs) <==> InTurn(items, durationMs) && Chars(items) <= 200000
  {
    if |items| > 0 {
      var n := |items| - 1;
      AcceptableIff(items[..n], durationMs);
      CharsGrow(items, n);
      InTurnMore(items, durationMs);
      hide Chars, InTurn;
    }
  }

  lemma InTurnMore(items: seq<Item>, durationMs: int)
    requires |items| > 0
    ensures var n := |items| - 1;
            InTurn(items, durationMs) <==>
              InTurn(items[..n], durationMs) && ItemOk(items[n], PreviousEnd(items[..n]), durationMs)
  {
    var n := |items| - 1;
    assert items == items[..n] + [items[n]];
    assert forall k :: 0 <= k < n ==> items[..n][k] == items[k];
  }

  function Kept(items: seq<Item>, channel: nat): seq<Segment> {
    if |items| == 0 then []
    else
      var last := items[|items| - 1];
      Kept(items[..|items| - 1], channel)
      + if last.blank then [] else [Segment(channel, last.from, last.to, last.text)]
  }

  /** A segment is kept exactly when it is some spoken item's, on this channel. */
  lemma {:induction false} KeptIff(items: seq<Item>, channel: nat, s: Segment)
    ensures s in Kept(items, channel) <==>
            s.channel == channel && exists item <- items ::
              !item.blank && s.startMs == item.from && s.endMs == item.to && s.text == item.text
  {
    if |items| > 0 {
      var n := |items| - 1;
      KeptIff(items[..n], channel, s);
      assert items == items[..n] + [items[n]];
    }
  }

  /** Strictly ordered, disjoint, and within the duration. */
  ghost predicate InOrder(segments: seq<Segment>, durationMs: int) {
    && (forall s <- segments :: 0 <= s.startMs < s.endMs <= durationMs)
    && (forall i, j :: 0 <= i < j < |segments| ==> segments[i].endMs <= segments[j].startMs)
  }

  lemma {:induction false} KeptAreInOrder(items: seq<Item>, channel: nat, durationMs: int)
    requires Acceptable(items, durationMs)
    ensures InOrder(Kept(items, channel), durationMs)
    ensures forall s <- Kept(items, channel) :: s.channel == channel && s.endMs <= PreviousEnd(items)
    ensures |Kept(items, channel)| <= |items| && PreviousEnd(items) >= 0
  {
    if |items| > 0 {
      KeptAreInOrder(items[..|items| - 1], channel, durationMs);
    }
  }

  lemma {:induction false} RejectedStays(items: seq<Item>, n: nat, durationMs: int)
    requires n <= |items| && !Acceptable(items[..n], durationMs)
    ensures !Acceptable(items, durationMs)
    decreases |items|
  {
    if n == |items| {
      assert items[..n] == items;
    } else {
      assert items[..|items| - 1][..n] == items[..n];
      RejectedStays(items[..|items| - 1], n, durationMs);
    }
  }

  method NormalizeSegments(items: seq<Item>, channel: nat, durationMs: int) returns (r: Option<seq<Segment>>)
    ensures r.Some? <==> |items| <= 10000 && Acceptable(items, durationMs)
    ensures r.Some? ==> r.value == Kept(items, channel)
  {
    if |items| > MAX_SEGMENTS {
      return None;
    }
    var segments: seq<Segment>, textChars, previousEnd := [], 0, 0;
    for i := 0 to |items|
      invariant Acceptable(items[..i], durationMs) && segments == Kept(items[..i], channel)
      invariant textChars == Chars(items[..i]) && previousEnd == PreviousEnd(items[..i])
    {
      var item := items[i];
      ghost var here := items[..i + 1];
      assert here[..i] == items[..i] && here[i] == item;
      if !Acceptable(here, durationMs) {
        RejectedStays(items, i + 1, durationMs);
      }
      hide Acceptable, Kept, Chars;
      if item.from < 0 || item.to < item.from || item.to > durationMs || item.from < previousEnd
         || |item.text| > 16000 {
        return None;
      }
      previousEnd := item.to;
      textChars := textChars + |item.text|;
      if textChars > MAX_TEXT {
        return None;
      }
      if item.blank {
        continue;
      }
      if item.from == item.to {
        return None;
      }
      segments := segments + [Segment(channel, item.from, item.to, item.text)];
    }
    assert items[..|items|] == items;
    r := Some(segments);
  }

  // ----- the merge -----

  /** The order of the merged list: by start, then channel, then end. */
  predicate NotLater(a: Segment, b: Segment) {
    || a.startMs < b.startMs
    || (a.startMs == b.startMs && (a.channel < b.channel || (a.channel == b.channel && a.endMs <= b.endMs)))
  }

  ghost predicate Sorted(segments: seq<Segment>) {
    forall i, j :: 0 <= i < j < |segments| ==> NotLater(segments[i], segments[j])
  }

  function InsertSegment(s: Segment, sorted: seq<Segment>): seq<Segment> {
    if |sorted| == 0 || NotLater(s, sorted[0]) then [s] + sorted
    else [sorted[0]] + InsertSegment(s, sorted[1..])
  }

  function SortSegments(segments: seq<Segment>): seq<Segment> {
    if |segments| == 0 then [] else InsertSegment(segments[0], SortSegments(segments[1..]))
  }

  /** The segments of one channel, in their order. */
  function Channel(segments: seq<Segment>, channel: nat): seq<Segment> {
    if |segments| == 0 then []
    else (if segments[0].channel == channel then [segments[0]] else []) + Channel(segments[1..], channel)
  }

  lemma {:induction false} InsertAdds(s: Segment, sorted: seq<Segment>)
    ensures multiset(InsertSegment(s, sorted)) == multiset{s} + multiset(sorted)
  {
    if |sorted| > 0 {
      assert sorted == [sorted[0]] + sorted[1..];
      InsertAdds(s, sorted[1..]);
    }
  }

  lemma {:induction false} InsertKeepsOrder(s: Segment, sorted: seq<Segment>)
    requires Sorted(sorted)
    ensures Sorted(InsertSegment(s, sorted))
  {
    if |sorted| > 0 && !NotLater(s, sorted[0]) {
      InsertKeepsOrder(s, sorted[1..]);
      InsertAdds(s, sorted[1..]);
      var rest := InsertSegment(s, sorted[1..]);
      forall x | x in rest
        ensures NotLater(sorted[0], x)
      {
        assert x in multiset(rest);
        assert x == s || x in sorted[1..];
      }
    }
  }

  /** The merged list is sorted and holds exactly the segments it was given. */
  lemma {:induction false} SortSorts(segments: seq<Segment>)
    ensures Sorted(SortSegments(segments)) && multiset(SortSegments(segments)) == multiset(segments)
  {
    if |segments| > 0 {
      SortSorts(segments[1..]);
      InsertKeepsOrder(segments[0], SortSegments(segments[1..]));
      InsertAdds(segments[0], SortSegments(segments[1..]));
      assert segments == [segments[0]] + segments[1..];
    }
  }

  /** Sorted means by start, then by channel, then by end. */
  lemma SortedIff(segments: seq<Segment>)
    ensures Sorted(segments) <==>
            forall i, j :: 0 <= i < j < |segments| ==>
              var a, b := segments[i], segments[j];
              && a.startMs <= b.startMs
              && (a.startMs == b.startMs ==> a.channel <= b.channel)
              && (a.startMs == b.startMs && a.channel == b.channel ==> a.endMs <= b.endMs)
  {
  }

  lemma {:induction false} InsertInChannel(s: Segment, sorted: seq<Segment>, channel: nat)
    requires s.channel == channel ==> forall x <- Channel(sorted, channel) :: NotLater(s, x)
    ensures Channel(InsertSegment(s, sorted), channel)
         == (if s.channel == channel then [s] else []) + Channel(sorted, channel)
  {
    if |sorted| == 0 || NotLater(s, sorted[0]) {
      assert ([s] + sorted)[1..] == sorted;
    } else {
      assert sorted[0].channel == channel ==> sorted[0] in Channel(sorted, channel);
      InsertInChannel(s, sorted[1..], channel);
      assert ([sorted[0]] + InsertSegment(s, sorted[1..]))[1..] == InsertSegment(s, sorted[1..]);
    }
  }

  /** Sorting leaves every channel whose segments were in order as it was. */
  lemma {:induction false} SortKeepsChannel(segments: seq<Segment>, channel: nat, durationMs: int)
    requires InOrder(Channel(segments, channel), durationMs)
    ensures Channel(SortSegments(segments), channel) == Channel(segments, channel)
  {
    if |segments| > 0 {
      var first, rest := segments[0], segments[1..];
      if first.channel == channel {
        assert Channel(segments, channel) == [first] + Channel(rest, channel);
        InOrderTail(first, Channel(rest, channel), durationMs);
      } else {
        assert Channel(segments, channel) == Channel(rest, channel);
      }
      hide InOrder, NotLater;
      SortKeepsChannel(rest, channel, durationMs);
      InsertInChannel(first, SortSegments(rest), channel);
    }
  }

  lemma InOrderTail(first: Segment, rest: seq<Segment>, durationMs: int)
    requires InOrder([first] + rest, durationMs)
    ensures InOrder(rest, durationMs) && forall s <- rest :: NotLater(first, s)
  {
    var all := [first] + rest;
    forall i | 0 <= i < |rest|
      ensures rest[i] == all[i + 1] && NotLater(first, rest[i])
    {
      assert all[0] == first && all[i + 1] in all && all[0] in all;
    }
  }

  lemma {:induction false} ChannelJoin(a: seq<Segment>, b: seq<Segment>, channel: nat)
    ensures Channel(a + b, channel) == Channel(a, channel) + Channel(b, channel)
  {
    JoinNothing(a, b);
    if |a| > 0 {
      assert (a + b)[1..] == a[1..] + b && (a + b)[0] == a[0];
      ChannelJoin(a[1..], b, channel);
      var head := if a[0].channel == channel then [a[0]] else [];
      assert head + (Channel(a[1..], channel) + Channel(b, channel))
          == head + Channel(a[1..], channel) + Channel(b, channel);
    }
  }

  lemma {:induction false} OneChannel(segments: seq<Segment>, own: nat, channel: nat)
    requires forall s <- segments :: s.channel == own
    ensures Channel(segments, channel) == if channel == own then segments else []
  {
    if |segments| > 0 {
      OneChannel(segments[1..], own, channel);
      assert segments == [segments[0]] + segments[1..];
    }
  }

  // ----- all channels -----

  /** The kept segments of the first n channels, channel after channel. */
  function Extended(raw: seq<seq<Item>>, n: nat): seq<Segment>
    requires n <= |raw|
  {
    if n == 0 then [] else Extended(raw, n - 1) + Kept(raw[n - 1], n - 1)
  }

  function TextChars(segments: seq<Segment>): nat {
    if |segments| == 0 then 0 else TextChars(segments[..|segments| - 1]) + |segments[|segments| - 1].text|
  }

  /** A transcript holds every channel's accepted segments within the limits. */
  predicate Fits(raw: seq<seq<Item>>, n: nat, durationMs: int)
    requires n <= |raw|
  {
    n == 0 || (Fits(raw, n - 1, durationMs) && |raw[n - 1]| <= MAX_SEGMENTS && Acceptable(raw[n - 1], durationMs)
               && |Extended(raw, n)| <= MAX_SEGMENTS && TextChars(Extended(raw, n)) <= MAX_TEXT)
  }

  lemma {:induction false} ChannelOf(raw: seq<seq<Item>>, n: nat, channel: nat, durationMs: int)
    requires n <= |raw| && Fits(raw, n, durationMs)
    ensures Channel(Extended(raw, n), channel) == if channel < n then Kept(raw[channel], channel) else []
  {
    hide *;
    if n == 0 {
      NothingExtended(raw, channel);
    } else {
      FitsStep(raw, n, durationMs);
      KeptAreInOrder(raw[n - 1], n - 1, durationMs);
      ChannelOf(raw, n - 1, channel, durationMs);
      OneMore(Extended(raw, n - 1), Kept(raw[n - 1], n - 1), n - 1, channel);
    }
  }

  lemma NothingExtended(raw: seq<seq<Item>>, channel: nat)
    ensures Channel(Extended(raw, 0), channel) == []
  {
  }

  lemma FitsStep(raw: seq<seq<Item>>, n: nat, durationMs: int)
    requires 0 < n <= |raw| && Fits(raw, n, durationMs)
    ensures Extended(raw, n) == Extended(raw, n - 1) + Kept(raw[n - 1], n - 1)
    ensures Fits(raw, n - 1, durationMs) && Acceptable(raw[n - 1], durationMs)
  {
    hide Acceptable, Kept, TextChars;
  }

  /** One channel's list after others leaves the others' lists as they were. */
  lemma OneMore(before: seq<Segment>, last: seq<Segment>, own: nat, channel: nat)
    requires forall s <- last :: s.channel == own
    ensures channel != own ==> Channel(before + last, channel) == Channel(before, channel)
    ensures channel == own && Channel(before, channel) == [] ==> Channel(before + last, channel) == last
  {
    ChannelJoin(before, last, channel);
    OneChannel(last, own, channel);
    JoinNothing(Channel(before, channel), Channel(last, channel));
  }

  lemma JoinNothing<X>(a: seq<X>, b: seq<X>)
    ensures |a| == 0 ==> a + b == b
    ensures |b| == 0 ==> a + b == a
  {
  }

  lemma {:induction false} FitsBefore(raw: seq<seq<Item>>, m: nat, n: nat, durationMs: int)
    requires m <= n <= |raw| && Fits(raw, n, durationMs)
    ensures Fits(raw, m, durationMs)
    decreases n - m
  {
    if m < n {
      FitsBefore(raw, m, n - 1, durationMs);
    }
  }

  /** The merged transcript restricted to a channel is that channel's own list. */
  lemma MergeKeepsChannels(raw: seq<seq<Item>>, n: nat, channel: nat, durationMs: int)
    requires channel < n <= |raw| && Fits(raw, n, durationMs)
    ensures Channel(SortSegments(Extended(raw, n)), channel) == Kept(raw[channel], channel)
  {
    hide Kept, Extended, Channel, InOrder, TextChars, SortSegments;
    ChannelOf(raw, n, channel, durationMs);
    FitsBefore(raw, channel + 1, n, durationMs);
    KeptAreInOrder(raw[channel], channel, durationMs);
    SortKeepsChannel(Extended(raw, n), channel, durationMs);
  }

  /**
   The channel loop: a channel that fails ends it, and what came before is still
   merged. Unless something breaks, the transcript is complete if and only if
   every channel fits, and otherwise ends at the first that does not.
   */
  method Transcribe(raw: seq<seq<Item>>, durationMs: int, mayFail: bool)
    returns (segments: seq<Segment>, processingComplete: bool, ghost done: nat)
    ensures done <= |raw| && Fits(raw, done, durationMs) && segments == SortSegments(Extended(raw, done))
    ensures processingComplete <==> done == |raw|
    ensures done < |raw| ==> mayFail || !Fits(raw, done + 1, durationMs)
    ensures |segments| <= 10000
  {
    var value: seq<Segment> := [];
    processingComplete, done := true, 0;
    assert Extended(raw, 0) == [] && Fits(raw, 0, durationMs);
    hide Acceptable, Kept, Extended, Fits, TextChars, SortSegments;
    for channel := 0 to |raw|
      invariant done == channel && processingComplete
      invariant value == Extended(raw, channel) && Fits(raw, channel, durationMs) && |value| <= MAX_SEGMENTS
    {
      FitsNextIff(raw, channel, durationMs);
      if mayFail {
        if * {
          processingComplete := false;  // the engine or the clock
          break;
        }
      }
      var r := NormalizeSegments(raw[channel], channel, durationMs);
      if r.None? {
        processingComplete := false;
        break;
      }
      if |value| + |r.value| > MAX_SEGMENTS || TextChars(value + r.value) > MAX_TEXT {
        processingComplete := false;
        break;
      }
      value := value + r.value;
      done := channel + 1;
    }
    segments := SortSegments(value);
    SortedLength(value);
  }

  lemma {:induction false} TextGrows(a: seq<Segment>, b: seq<Segment>)
    ensures TextChars(a) <= TextChars(a + b)
  {
    if |b| == 0 {
      assert a + b == a;
    } else {
      var n := |b| - 1;
      assert (a + b)[..|a| + n] == a + b[..n];
      TextGrows(a, b[..n]);
    }
  }

  /** A transcript fits exactly when each channel is acceptable and all of them together are within the limits. */
  lemma {:induction false} FitsIff(raw: seq<seq<Item>>, n: nat, durationMs: int)
    requires n <= |raw|
    ensures Fits(raw, n, durationMs) <==>
            && (forall c :: 0 <= c < n ==> |raw[c]| <= 10000 && Acceptable(raw[c], durationMs))
            && |Extended(raw, n)| <= 10000 && TextChars(Extended(raw, n)) <= 200000
  {
    hide Acceptable, Kept;
    if n > 0 {
      FitsIff(raw, n - 1, durationMs);
      TextGrows(Extended(raw, n - 1), Kept(raw[n - 1], n - 1));
    }
  }

  lemma SortedLength(segments: seq<Segment>)
    ensures |SortSegments(segments)| == |segments|
  {
    SortSorts(segments);
    hide SortSegments, Sorted;
    assert |multiset(SortSegments(segments))| == |multiset(segments)|;
  }

  lemma FitsNextIff(raw: seq<seq<Item>>, n: nat, durationMs: int)
    requires n < |raw| && Fits(raw, n, durationMs)
    ensures Extended(raw, n + 1) == Extended(raw, n) + Kept(raw[n], n)
    ensures Fits(raw, n + 1, durationMs) <==>
            && |raw[n]| <= MAX_SEGMENTS && Acceptable(raw[n], durationMs)
            && |Extended(raw, n) + Kept(raw[n], n)| <= MAX_SEGMENTS
            && TextChars(Extended(raw, n) + Kept(raw[n], n)) <= MAX_TEXT
  {
    hide Acceptable, Kept, TextChars;
  }
}
