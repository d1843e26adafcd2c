/** The bounded accumulator of extracted units: what is kept, and what is admitted to be missing. */
module Extraction {
  const MAX_TEXT: nat := 200000
  const MAX_UNITS: nat := 50000

  /** A text offered with the place it was found at. */
  datatype Piece = Piece(part: string, path: string, text: string)

  datatype Unit = Unit(part: string, path: string, text: string, complete: bool)

  datatype Problem = UnitLimit | TextLimit | NoText | Other(code: string)

  datatype Content = Content(units: seq<Unit>, problems: seq<Problem>, textChars: nat)

  function WithProblem(c: Content, p: Problem): Content {
    if p in c.problems then c else c.(problems := c.problems + [p])
  }

  /** Adding one text: the new content, and whether more may be added. */
  function Added(c: Content, p: Piece): (Content, bool) {
    if |p.text| == 0 then (c, true)
    else if |c.units| >= MAX_UNITS then (WithProblem(c, UnitLimit), false)
    else if c.textChars >= MAX_TEXT then (WithProblem(c, TextLimit), false)
    else
      var remaining := MAX_TEXT - c.textChars;
      var clipped := |p.text| > remaining;
      var text := if clipped then p.text[..remaining] else p.text;
      var c' := if clipped then WithProblem(c, TextLimit) else c;
      (c'.(units := c'.units + [Unit(p.part, p.path, text, !clipped)], textChars := c'.textChars + |text|), !clipped)
  }

  /** The limit that a refused or clipped text met is the one reported; an empty text meets none. */
  lemma LimitsAreReported(c: Content, p: Piece)
    ensures var (c', ok) := Added(c, p);
            && (p.text == "" ==> ok && c' == c)
            && (p.text != "" && |c.units| >= 50000 ==> !ok && UnitLimit in c'.problems && c'.units == c.units)
            && (p.text != "" && |c.units| < 50000 && c.textChars + |p.text| > 200000 ==>
                  !ok && TextLimit in c'.problems)
            && (|c.units| < 50000 && c.textChars + |p.text| <= 200000 ==> ok && c'.problems == c.problems)
  {
  }

  /** Adding texts one by one until one is refused or clipped. */
  function AddAll(c: Content, pieces: seq<Piece>): (r: (Content, bool))
    ensures r.1 ==> r.0.problems == c.problems
  {
    if |pieces| == 0 then (c, true)
    else
      var (c', ok) := AddAll(c, pieces[..|pieces| - 1]);
      if ok then Added(c', pieces[|pieces| - 1]) else (c', false)
  }

  lemma {:induction false} AddAllSplits(c: Content, a: seq<Piece>, b: seq<Piece>)
    ensures AddAll(c, a + b) == if AddAll(c, a).1 then AddAll(AddAll(c, a).0, b) else AddAll(c, a)
  {
    if |b| == 0 {
      assert a + b == a;
    } else {
      var n := |b| - 1;
      assert (a + b)[..|a| + n] == a + b[..n];
      AddAllSplits(c, a, b[..n]);
    }
  }

  lemma AddAllOne(c: Content, p: Piece)
    ensures AddAll(c, [p]) == Added(c, p)
  {
    assert [p][..0] == [];
  }

  /** The unit of one text, if it is not empty. */
  function WholeOf(p: Piece): seq<Unit> {
    if |p.text| == 0 then [] else [Unit(p.part, p.path, p.text, true)]
  }

  /** The whole units of all texts that are not empty: what an unlimited extraction would keep. */
  function Whole(pieces: seq<Piece>): seq<Unit> {
    if |pieces| == 0 then []
    else
      Whole(pieces[..|pieces| - 1]) + WholeOf(pieces[|pieces| - 1])
  }

  function Chars(units: seq<Unit>): nat {
    if |units| == 0 then 0 else Chars(units[..|units| - 1]) + |units[|units| - 1].text|
  }

  ghost predicate WithinLimits(c: Content) {
    |c.units| <= MAX_UNITS && c.textChars == Chars(c.units) <= MAX_TEXT
  }

  /** A unit shorter than what it was offered. */
  ghost predicate Clipped(k: Unit, u: Unit) {
    k.part == u.part && k.path == u.path && !k.complete && k.text < u.text
  }

  /** The last unit may be cut short; the others are as they were found. */
  ghost predicate KeptOf(kept: seq<Unit>, whole: seq<Unit>) {
    && |kept| <= |whole|
    && (forall i :: 0 <= i < |kept| - 1 ==> kept[i] == whole[i])
    && (|kept| > 0 ==>
          var k, w := kept[|kept| - 1], whole[|kept| - 1];
          k == w || Clipped(k, w))
  }

  /** Part of `whole` is missing from `kept`. */
  ghost predicate Cut(kept: seq<Unit>, whole: seq<Unit>) {
    |kept| < |whole| || (|kept| > 0 && !kept[|kept| - 1].complete)
  }

  /** More units, or more text, than a result may hold. */
  ghost predicate TooMuch(whole: seq<Unit>) {
    |whole| > 50000 || Chars(whole) > 200000
  }

  /** The state of an extraction that was offered `whole`. */
  ghost predicate Faithful(c: Content, ok: bool, whole: seq<Unit>) {
    && WithinLimits(c) && KeptOf(c.units, whole)
    && (if ok then c.units == whole else Cut(c.units, whole) && c.problems != [] && TooMuch(whole))
  }

  lemma WholeMore(pieces: seq<Piece>, p: Piece)
    ensures Whole(pieces + [p]) == Whole(pieces) + WholeOf(p)
  {
    assert (pieces + [p])[..|pieces|] == pieces;
  }

  lemma CharsMore(units: seq<Unit>, u: Unit)
    ensures Chars(units + [u]) == Chars(units) + |u.text|
  {
    assert (units + [u])[..|units|] == units;
  }

  lemma KeptMore(whole: seq<Unit>, k: Unit, u: Unit)
    requires k == u || Clipped(k, u)
    ensures KeptOf(whole + [k], whole + [u])
    ensures Clipped(k, u) ==> Cut(whole + [k], whole + [u])
  {
  }

  lemma KeptSame(whole: seq<Unit>, u: Unit)
    ensures KeptOf(whole, whole + [u]) && Cut(whole, whole + [u])
  {
  }

  lemma RefusedIsFaithful(c: Content, whole: seq<Unit>, u: Unit, p: Problem)
    requires Faithful(c, true, whole) && (|whole| >= MAX_UNITS || (c.textChars >= MAX_TEXT && |u.text| > 0))
    ensures Faithful(WithProblem(c, p), false, whole + [u])
  {
    hide Chars, KeptOf, Cut;
    KeptSame(whole, u);
    CharsMore(whole, u);
  }

  lemma AppendedIsFaithful(c: Content, whole: seq<Unit>, k: Unit, u: Unit, c': Content, ok: bool)
    requires Faithful(c, true, whole) && if ok then k == u else Clipped(k, u) && c'.problems != []
    requires |whole| < MAX_UNITS && c.textChars + |k.text| <= MAX_TEXT
    requires !ok ==> c.textChars + |u.text| > MAX_TEXT
    requires c'.units == c.units + [k] && c'.textChars == c.textChars + |k.text|
    ensures Faithful(c', ok, whole + [u])
  {
    hide Chars, KeptOf, Cut, Clipped;
    CharsMore(whole, k);
    CharsMore(whole, u);
    KeptMore(whole, k, u);
  }

  lemma AddIsFaithful(c: Content, whole: seq<Unit>, p: Piece)
    requires Faithful(c, true, whole)
    ensures var (c', ok) := Added(c, p); Faithful(c', ok, whole + WholeOf(p))
  {
    var (c', ok) := Added(c, p);
    var u := Unit(p.part, p.path, p.text, true);
    assert c.units == whole && |whole| <= MAX_UNITS && c.textChars <= MAX_TEXT;
    if |p.text| == 0 {
      assert whole + WholeOf(p) == whole;
    } else if |c.units| >= MAX_UNITS || c.textChars >= MAX_TEXT {
      hide Faithful, WithProblem;
      RefusedIsFaithful(c, whole, u, if |c.units| >= MAX_UNITS then UnitLimit else TextLimit);
    } else {
      var k := c'.units[|c.units|];
      hide Faithful;
      AppendedIsFaithful(c, whole, k, u, c', ok);
    }
  }

  lemma RefusalIsFaithful(c: Content, whole: seq<Unit>, more: seq<Unit>)
    requires Faithful(c, false, whole)
    ensures Faithful(c, false, whole + more)
  {
    hide Chars;
    CharsGrow(whole, more);
  }

  lemma {:induction false} CharsGrow(whole: seq<Unit>, more: seq<Unit>)
    ensures Chars(whole) <= Chars(whole + more)
  {
    if |more| == 0 {
      assert whole + more == whole;
    } else {
      hide Chars;
      var n := |more| - 1;
      var before := whole + more[..n];
      assert whole + more == before + [more[n]];
      CharsGrow(whole, more[..n]);
      CharsMore(before, more[n]);
    }
  }

  lemma {:induction false} AddAllIsFaithful(c: Content, whole: seq<Unit>, pieces: seq<Piece>)
    requires Faithful(c, true, whole)
    ensures var (c', ok) := AddAll(c, pieces); Faithful(c', ok, whole + Whole(pieces))
  {
    if |pieces| == 0 {
      assert whole + Whole(pieces) == whole;
    } else {
      var n := |pieces| - 1;
      var before, p := pieces[..n], pieces[n];
      AddAllIsFaithful(c, whole, before);
      assert pieces == before + [p];
      WholeMore(before, p);
      var (c', ok) := AddAll(c, before);
      var more := WholeOf(p);
      assert whole + Whole(pieces) == whole + Whole(before) + more;
      hide Faithful, Whole, Added;
      if ok {
        AddIsFaithful(c', whole + Whole(before), p);
      } else {
        RefusalIsFaithful(c', whole + Whole(before), more);
      }
    }
  }

  lemma {:induction false} WholeIsComplete(pieces: seq<Piece>)
    ensures forall u <- Whole(pieces) :: u.complete
  {
    if |pieces| > 0 {
      WholeIsComplete(pieces[..|pieces| - 1]);
    }
  }

  lemma {:induction false} WholeJoin(a: seq<Piece>, b: seq<Piece>)
    ensures Whole(a + b) == Whole(a) + Whole(b)
  {
    if |b| == 0 {
      assert a + b == a;
    } else {
      hide Whole;
      var before, p := b[..|b| - 1], b[|b| - 1];
      assert b == before + [p] && a + b == a + before + [p];
      WholeJoin(a, before);
      WholeMore(before, p);
      WholeMore(a + before, p);
      assert Whole(a) + (Whole(before) + WholeOf(p)) == Whole(a) + Whole(before) + WholeOf(p);
    }
  }

  /** Pieces that were never offered only make the cut longer. */
  lemma KeptOfMore(kept: seq<Unit>, a: seq<Piece>, b: seq<Piece>)
    requires KeptOf(kept, Whole(a)) && a <= b
    ensures KeptOf(kept, Whole(b))
  {
    WholeJoin(a, b[|a|..]);
    assert b == a + b[|a|..];
  }

  lemma TooMuchMore(a: seq<Piece>, b: seq<Piece>)
    requires a <= b
    ensures TooMuch(Whole(a)) ==> TooMuch(Whole(b))
  {
    WholeJoin(a, b[|a|..]);
    assert b == a + b[|a|..];
    CharsGrow(Whole(a), Whole(b[|a|..]));
    hide Whole, Chars;
  }

  /**
   Extraction is never silently lossy: from an empty result, what is kept is a
   prefix of what an unlimited extraction would keep, within both limits; it is
   all of it exactly when no problem was recorded, and that is exactly when the
   whole is no more than 50000 units and 200000 characters.
   */
  lemma NothingIsLostSilently(pieces: seq<Piece>)
    ensures var (c, ok) := AddAll(Content([], [], 0), pieces);
            && WithinLimits(c) && KeptOf(c.units, Whole(pieces))
            && (c.problems == [] <==> c.units == Whole(pieces)) && (ok <==> c.problems == [])
            && (ok <==> |Whole(pieces)| <= 50000 && Chars(Whole(pieces)) <= 200000)
  {
    AddAllIsFaithful(Content([], [], 0), [], pieces);
    assert [] + Whole(pieces) == Whole(pieces);
    WholeIsComplete(pieces);
  }

  class Result {
    var units: seq<Unit>
    var problems: seq<Problem>
    var textChars: nat

    ghost function View(): Content
      reads this
    {
      Content(units, problems, textChars)
    }

    constructor ()
      ensures View() == Content([], [], 0)
    {
      units, problems, textChars := [], [], 0;
    }

    method Problem(code: Problem)
      modifies this`problems
      ensures View() == WithProblem(old(View()), code)
    {
      if code !in problems {
        problems := problems + [code];
      }
    }

    method Add(p: Piece) returns (ok: bool)
      modifies this
      ensures (View(), ok) == Added(old(View()), p)
    {
      if |p.text| == 0 {
        return true;
      }
      if |units| >= MAX_UNITS {
        Problem(UnitLimit);
        return false;
      }
      var remaining := MAX_TEXT - textChars;
      if remaining <= 0 {
        Problem(TextLimit);
        return false;
      }
      var text := p.text;
      var clipped := |text| > remaining;
      if clipped {
        text := text[..remaining];
        Problem(TextLimit);
      }
      units := units + [Unit(p.part, p.path, text, !clipped)];
      textChars := textChars + |text|;
      ok := !clipped;
    }

    /** COMPLETE is claimed only for a result with text and without any problem. */
    method Payload() returns (complete: bool)
      modifies this`problems
      ensures complete <==> |units| > 0 && old(problems) == []
      ensures complete <==> problems == []
    {
      if |units| == 0 {
        Problem(NoText);
      }
      complete := |problems| == 0;
    }
  }
}
