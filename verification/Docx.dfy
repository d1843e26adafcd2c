/**
 The walk over a WordprocessingML part (ECMA-376 Part 1, section 17.3): every
 paragraph is added with a path to it, and a paragraph's text is gathered by a
 second recursion that stops at nested paragraphs and deletions.
 */
module Docx {
  import opened Base
  import opened Decimal
  import opened Extraction

  /** `wml` tells the main namespace; `id` is the node's own identity, `noteId` its w:id. */
  datatype Node = Node(wml: bool, local: string, noteId: Option<string>, text: string, id: nat, children: seq<Node>)

  /** The note ids that the document refers to. */
  datatype Notes = Notes(footnotes: set<Option<string>>, endnotes: set<Option<string>>)

  predicate Is(n: Node, local: string) {
    n.wml && n.local == local
  }

  predicate Unwanted(n: Node, wanted: Notes) {
    || (n.local == "footnote" && n.noteId !in wanted.footnotes)
    || (n.local == "endnote" && n.noteId !in wanted.endnotes)
  }

  // ----- the text of one paragraph -----

  datatype Glyph = T(id: nat, text: string) | Tab | Break

  function OwnGlyph(n: Node): seq<Glyph> {
    if Is(n, "t") then [T(n.id, n.text)]
    else if Is(n, "tab") then [Tab]
    else if Is(n, "br") || Is(n, "cr") then [Break]
    else []
  }

  /** What the text recursion yields at a node and below it. */
  function Glyphs(n: Node): seq<Glyph>
    decreases n, 1
  {
    OwnGlyph(n) + GlyphsFrom(n, 0)
  }

  function GlyphsFrom(n: Node, i: nat): seq<Glyph>
    requires i <= |n.children|
    decreases n, 0, |n.children| - i
  {
    if i == |n.children| then []
    else
      var child := n.children[i];
      (if Is(child, "p") || Is(child, "del") then [] else Glyphs(child)) + GlyphsFrom(n, i + 1)
  }

  function Rendered(glyphs: seq<Glyph>): string {
    if |glyphs| == 0 then ""
    else
      var own := match glyphs[0] case T(_, text) => text case Tab => "\t" case Break => "\n";
      own + Rendered(glyphs[1..])
  }

  // ----- the walk -----

  datatype Paragraph = Paragraph(path: string, glyphs: seq<Glyph>)

  /** How many of the first n children have this local name. */
  function Occurrences(children: seq<Node>, n: nat, local: string): nat
    requires n <= |children|
  {
    if n == 0 then 0
    else Occurrences(children, n - 1, local) + if children[n - 1].local == local then 1 else 0
  }

  /** The path step to the i-th child: its local name and its number among its namesakes. */
  function PathStep(n: Node, i: nat): string
    requires i < |n.children|
  {
    "/" + n.children[i].local + "[" + Digits(Occurrences(n.children, i + 1, n.children[i].local)) + "]"
  }

  /** The paragraphs that the walk adds, in order. */
  function Paragraphs(n: Node, path: string, wanted: Notes): seq<Paragraph>
    decreases n, 1
  {
    if Unwanted(n, wanted) || Is(n, "del") then []
    else (if Is(n, "p") then [Paragraph(path, Glyphs(n))] else []) + ParagraphsFrom(n, 0, path, wanted)
  }

  function ParagraphsFrom(n: Node, i: nat, path: string, wanted: Notes): seq<Paragraph>
    requires i <= |n.children|
    decreases n, 0, |n.children| - i
  {
    if i == |n.children| then []
    else Paragraphs(n.children[i], path + PathStep(n, i), wanted) + ParagraphsFrom(n, i + 1, path, wanted)
  }

  function TextIds(glyphs: seq<Glyph>): seq<nat> {
    if |glyphs| == 0 then [] else (if glyphs[0].T? then [glyphs[0].id] else []) + TextIds(glyphs[1..])
  }

  /** The text nodes that the walk emits. */
  function Emitted(paragraphs: seq<Paragraph>): seq<nat> {
    if |paragraphs| == 0 then [] else TextIds(paragraphs[0].glyphs) + Emitted(paragraphs[1..])
  }

  // ----- the reference: one pass that carries what it is inside of -----

  /** The text nodes under a paragraph, outside deletions and notes not referred to. */
  function Visible(n: Node, inParagraph: bool, wanted: Notes): seq<nat>
    decreases n, 1
  {
    if Unwanted(n, wanted) || Is(n, "del") then []
    else
      (if Is(n, "t") && inParagraph then [n.id] else [])
      + VisibleFrom(n, 0, inParagraph || Is(n, "p"), wanted)
  }

  function VisibleFrom(n: Node, i: nat, inParagraph: bool, wanted: Notes): seq<nat>
    requires i <= |n.children|
    decreases n, 0, |n.children| - i
  {
    if i == |n.children| then []
    else Visible(n.children[i], inParagraph, wanted) + VisibleFrom(n, i + 1, inParagraph, wanted)
  }

  /** Text directly in a note that is not referred to but stands inside a paragraph. */
  function Stray(n: Node, inParagraph: bool, wanted: Notes): seq<nat>
    decreases n, 1
  {
    if Is(n, "del") then []
    else if Unwanted(n, wanted) then if inParagraph then TextIds(Glyphs(n)) else []
    else StrayFrom(n, 0, inParagraph || Is(n, "p"), wanted)
  }

  function StrayFrom(n: Node, i: nat, inParagraph: bool, wanted: Notes): seq<nat>
    requires i <= |n.children|
    decreases n, 0, |n.children| - i
  {
    if i == |n.children| then []
    else Stray(n.children[i], inParagraph, wanted) + StrayFrom(n, i + 1, inParagraph, wanted)
  }

  lemma {:induction false} TextIdsJoin(a: seq<Glyph>, b: seq<Glyph>)
    ensures TextIds(a + b) == TextIds(a) + TextIds(b)
  {
    if |a| == 0 {
      assert a + b == b;
    } else {
      assert (a + b)[1..] == a[1..] + b && (a + b)[0] == a[0];
      TextIdsJoin(a[1..], b);
    }
  }

  lemma {:induction false} EmittedJoin(a: seq<Paragraph>, b: seq<Paragraph>)
    ensures Emitted(a + b) == Emitted(a) + Emitted(b)
  {
    if |a| == 0 {
      assert a + b == b;
    } else {
      assert (a + b)[1..] == a[1..] + b;
      EmittedJoin(a[1..], b);
    }
  }

  /** What a paragraph above gathers from a node. */
  function Gathered(n: Node, inParagraph: bool): seq<nat> {
    if !inParagraph || Is(n, "p") || Is(n, "del") then [] else TextIds(Glyphs(n))
  }

  function GatheredFrom(n: Node, i: nat, inParagraph: bool): seq<nat>
    requires i <= |n.children|
  {
    if inParagraph then TextIds(GlyphsFrom(n, i)) else []
  }

  /** As many of every id on both sides. */
  ghost predicate Balanced(emitted: seq<nat>, gathered: seq<nat>, visible: seq<nat>, stray: seq<nat>) {
    multiset(emitted) + multiset(gathered) == multiset(visible) + multiset(stray)
  }

  lemma BalancedJoin(e: seq<nat>, g: seq<nat>, v: seq<nat>, s: seq<nat>,
                     e': seq<nat>, g': seq<nat>, v': seq<nat>, s': seq<nat>)
    requires Balanced(e, g, v, s) && Balanced(e', g', v', s')
    ensures Balanced(e + e', g + g', v + v', s + s')
  {
    forall x: nat
      ensures (multiset(e + e') + multiset(g + g'))[x] == (multiset(v + v') + multiset(s + s'))[x]
    {
      assert (multiset(e) + multiset(g))[x] == (multiset(v) + multiset(s))[x];
      assert (multiset(e') + multiset(g'))[x] == (multiset(v') + multiset(s'))[x];
    }
  }

  /** The two recursions together emit the visible text once, and with it the stray text. */
  lemma {:induction false} WalkConserves(n: Node, path: string, inParagraph: bool, wanted: Notes)
    ensures Balanced(Emitted(Paragraphs(n, path, wanted)), Gathered(n, inParagraph),
                     Visible(n, inParagraph, wanted), Stray(n, inParagraph, wanted))
    decreases n, 1
  {
    if Unwanted(n, wanted) || Is(n, "del") {
      SkippedBalances(n, path, inParagraph, wanted);
    } else {
      FromConserves(n, 0, path, inParagraph || Is(n, "p"), wanted);
      if Is(n, "p") {
        ParagraphBalances(n, path, inParagraph, wanted);
      } else {
        PlainBalances(n, path, inParagraph, wanted);
      }
    }
  }

  lemma SkippedBalances(n: Node, path: string, inParagraph: bool, wanted: Notes)
    requires Unwanted(n, wanted) || Is(n, "del")
    ensures Balanced(Emitted(Paragraphs(n, path, wanted)), Gathered(n, inParagraph),
                     Visible(n, inParagraph, wanted), Stray(n, inParagraph, wanted))
  {
    NamesDiffer(n, wanted);
    hide Glyphs, TextIds, Unwanted;
  }

  lemma ParagraphBalances(n: Node, path: string, inParagraph: bool, wanted: Notes)
    requires !Unwanted(n, wanted) && Is(n, "p")
    requires Balanced(Emitted(ParagraphsFrom(n, 0, path, wanted)), GatheredFrom(n, 0, true),
                      VisibleFrom(n, 0, true, wanted), StrayFrom(n, 0, true, wanted))
    ensures Balanced(Emitted(Paragraphs(n, path, wanted)), Gathered(n, inParagraph),
                     Visible(n, inParagraph, wanted), Stray(n, inParagraph, wanted))
  {
    NamesDiffer(n, wanted);
    TextOf(n);
    var rest := ParagraphsFrom(n, 0, path, wanted);
    EmittedFirst(Paragraph(path, Glyphs(n)), rest);
    assert Visible(n, inParagraph, wanted) == VisibleFrom(n, 0, true, wanted);
    assert Paragraphs(n, path, wanted) == [Paragraph(path, Glyphs(n))] + rest;
    assert TextIds(Glyphs(n)) == GatheredFrom(n, 0, true);
    assert Emitted(Paragraphs(n, path, wanted)) == GatheredFrom(n, 0, true) + Emitted(rest);
    hide Emitted, Paragraphs, ParagraphsFrom, Glyphs, GlyphsFrom, TextIds;
    hide Visible, VisibleFrom, StrayFrom, GatheredFrom;
  }

  lemma PlainBalances(n: Node, path: string, inParagraph: bool, wanted: Notes)
    requires !Unwanted(n, wanted) && !Is(n, "p") && !Is(n, "del")
    requires Balanced(Emitted(ParagraphsFrom(n, 0, path, wanted)), GatheredFrom(n, 0, inParagraph),
                      VisibleFrom(n, 0, inParagraph, wanted), StrayFrom(n, 0, inParagraph, wanted))
    ensures Balanced(Emitted(Paragraphs(n, path, wanted)), Gathered(n, inParagraph),
                     Visible(n, inParagraph, wanted), Stray(n, inParagraph, wanted))
  {
    TextOf(n);
    var own := if Is(n, "t") && inParagraph then [n.id] else [];
    assert Paragraphs(n, path, wanted) == ParagraphsFrom(n, 0, path, wanted);
    assert Gathered(n, inParagraph) == own + GatheredFrom(n, 0, inParagraph);
    assert Visible(n, inParagraph, wanted) == own + VisibleFrom(n, 0, inParagraph, wanted);
    assert Stray(n, inParagraph, wanted) == StrayFrom(n, 0, inParagraph, wanted);
    hide Emitted, Paragraphs, ParagraphsFrom, Gathered, GatheredFrom, Visible, VisibleFrom, Stray, StrayFrom;
    assert Balanced([], own, own, []);
    var e, s := Emitted(ParagraphsFrom(n, 0, path, wanted)), StrayFrom(n, 0, inParagraph, wanted);
    assert [] + e == e && [] + s == s;
    hide Balanced;
    BalancedJoin([], own, own, [], e, GatheredFrom(n, 0, inParagraph), VisibleFrom(n, 0, inParagraph, wanted), s);
  }

  lemma NamesDiffer(n: Node, wanted: Notes)
    ensures Unwanted(n, wanted) ==> !Is(n, "p") && !Is(n, "del")
    ensures Is(n, "p") ==> !Is(n, "t") && !Is(n, "del")
  {
  }

  lemma TextOf(n: Node)
    ensures TextIds(Glyphs(n)) == (if Is(n, "t") then [n.id] else []) + TextIds(GlyphsFrom(n, 0))
  {
    var own := OwnGlyph(n);
    assert |own| == 1 ==> own[1..] == [];
    TextIdsJoin(own, GlyphsFrom(n, 0));
  }

  lemma EmittedFirst(p: Paragraph, rest: seq<Paragraph>)
    ensures Emitted([p] + rest) == TextIds(p.glyphs) + Emitted(rest)
  {
    assert ([p] + rest)[1..] == rest;
  }

  lemma {:induction false} FromConserves(n: Node, i: nat, path: string, inParagraph: bool, wanted: Notes)
    requires i <= |n.children|
    ensures Balanced(Emitted(ParagraphsFrom(n, i, path, wanted)), GatheredFrom(n, i, inParagraph),
                     VisibleFrom(n, i, inParagraph, wanted), StrayFrom(n, i, inParagraph, wanted))
    decreases n, 0, |n.children| - i
  {
    if i < |n.children| {
      var child, at := n.children[i], path + PathStep(n, i);
      WalkConserves(child, at, inParagraph, wanted);
      FromConserves(n, i + 1, path, inParagraph, wanted);
      EmittedJoin(Paragraphs(child, at, wanted), ParagraphsFrom(n, i + 1, path, wanted));
      GatheredNext(n, i, inParagraph);
      hide Paragraphs, Emitted, Gathered, GatheredFrom, Visible, Stray, PathStep, Balanced;
      BalancedJoin(Emitted(Paragraphs(child, at, wanted)), Gathered(child, inParagraph),
                   Visible(child, inParagraph, wanted), Stray(child, inParagraph, wanted),
                   Emitted(ParagraphsFrom(n, i + 1, path, wanted)), GatheredFrom(n, i + 1, inParagraph),
                   VisibleFrom(n, i + 1, inParagraph, wanted), StrayFrom(n, i + 1, inParagraph, wanted));
    }
  }

  lemma GatheredNext(n: Node, i: nat, inParagraph: bool)
    requires i < |n.children|
    ensures GatheredFrom(n, i, inParagraph)
         == Gathered(n.children[i], inParagraph) + GatheredFrom(n, i + 1, inParagraph)
  {
    var child := n.children[i];
    TextIdsJoin(if Is(child, "p") || Is(child, "del") then [] else Glyphs(child), GlyphsFrom(n, i + 1));
  }

  /** No note that is not referred to stands inside a paragraph, as in any document Word writes. */
  predicate NotesOutside(n: Node, inParagraph: bool, wanted: Notes)
    decreases n, 1
  {
    || Is(n, "del")
    || (if Unwanted(n, wanted) then !inParagraph
        else forall i | 0 <= i < |n.children| :: NotesOutside(n.children[i], inParagraph || Is(n, "p"), wanted))
  }

  lemma {:induction false} NothingStray(n: Node, inParagraph: bool, wanted: Notes)
    requires NotesOutside(n, inParagraph, wanted)
    ensures Stray(n, inParagraph, wanted) == []
    decreases n, 1
  {
    if !Is(n, "del") && !Unwanted(n, wanted) {
      NothingStrayFrom(n, 0, inParagraph || Is(n, "p"), wanted);
    }
  }

  lemma {:induction false} NothingStrayFrom(n: Node, i: nat, inParagraph: bool, wanted: Notes)
    requires i <= |n.children|
    requires forall k | 0 <= k < |n.children| :: NotesOutside(n.children[k], inParagraph, wanted)
    ensures StrayFrom(n, i, inParagraph, wanted) == []
    decreases n, 0, |n.children| - i
  {
    if i < |n.children| {
      NothingStray(n.children[i], inParagraph, wanted);
      NothingStrayFrom(n, i + 1, inParagraph, wanted);
    }
  }

  /**
   The walk emits exactly the text nodes under a paragraph, outside deletions
   and notes not referred to, if and only if no such note holds text inside a
   paragraph.
   */
  lemma WalkEmitsVisibleIff(root: Node, path: string, wanted: Notes)
    ensures multiset(Emitted(Paragraphs(root, path, wanted))) == multiset(Visible(root, false, wanted)) <==>
            Stray(root, false, wanted) == []
    ensures NotesOutside(root, false, wanted) ==> Stray(root, false, wanted) == []
  {
    WalkConserves(root, path, false, wanted);
    if NotesOutside(root, false, wanted) {
      NothingStray(root, false, wanted);
    }
    BalancedRoot(Emitted(Paragraphs(root, path, wanted)), Visible(root, false, wanted), Stray(root, false, wanted));
  }

  lemma BalancedRoot(emitted: seq<nat>, visible: seq<nat>, stray: seq<nat>)
    requires Balanced(emitted, [], visible, stray)
    ensures multiset(emitted) == multiset(visible + stray)
    ensures multiset(emitted) == multiset(visible) <==> stray == []
  {
    var none: seq<nat> := [];
    assert multiset(none) == multiset{};
    assert multiset(emitted) + multiset{} == multiset(emitted);
    assert multiset(visible) + multiset{} == multiset(visible);
    assert |multiset(visible) + multiset(stray)| == |visible| + |stray|;
    assert |multiset(visible)| == |visible|;
  }

  /** A paragraph around an unreferenced footnote: the walk passes over the note, and its text is emitted still. */
  lemma StrayNote() returns (root: Node, wanted: Notes)
    ensures Visible(root, false, wanted) == [] && Stray(root, false, wanted) == [1]
    ensures forall path :: Emitted(Paragraphs(root, path, wanted)) == [1]
  {
    var text := Node(true, "t", None, "x", 1, []);
    var note := Node(true, "footnote", Some("7"), "", 2, [text]);
    root, wanted := Node(true, "p", None, "", 3, [note]), Notes({}, {});
    assert Unwanted(note, wanted) && !Is(note, "p") && !Is(note, "del");
    assert GlyphsFrom(text, 0) == [];
    assert Glyphs(text) == [T(1, "x")];
    assert GlyphsFrom(note, 1) == [];
    assert GlyphsFrom(note, 0) == [T(1, "x")];
    assert Glyphs(note) == [T(1, "x")];
    assert GlyphsFrom(root, 1) == [];
    assert GlyphsFrom(root, 0) == [T(1, "x")];
    assert Glyphs(root) == [T(1, "x")];
    var rest: seq<Glyph> := [];
    assert [T(1, "x")][1..] == rest;
    assert TextIds([T(1, "x")]) == [1];
    assert StrayFrom(root, 1, true, wanted) == [] && Stray(note, true, wanted) == [1];
    assert VisibleFrom(root, 1, true, wanted) == [] && Visible(note, true, wanted) == [];
    forall path
      ensures Emitted(Paragraphs(root, path, wanted)) == [1]
    {
      assert Paragraphs(note, path + PathStep(root, 0), wanted) == [];
      assert ParagraphsFrom(root, 1, path, wanted) == [];
      assert Paragraphs(root, path, wanted) == [Paragraph(path, Glyphs(root))];
      assert [Paragraph(path, Glyphs(root))][1..] == [];
    }
  }

  // ----- the reference for the text itself -----

  function OwnText(n: Node): string {
    if Is(n, "t") then n.text
    else if Is(n, "tab") then "\t"
    else if Is(n, "br") || Is(n, "cr") then "\n"
    else ""
  }

  /** The texts once this one is written at the end of the open paragraph, if there is one. */
  function Write(texts: seq<string>, open: Option<nat>, text: string): (r: seq<string>)
    requires open.Some? ==> open.value < |texts|
    ensures |r| == |texts|
  {
    if open.None? then texts else texts[open.value := texts[open.value] + text]
  }

  /**
   One reading of a part from its first to its last character: a paragraph opens
   a new text, and what is read goes to the innermost paragraph around it. Inside
   a note that is not referred to (`passed`) no paragraph opens and none is read.
   */
  function Read(n: Node, wanted: Notes, open: Option<nat>, passed: bool, texts: seq<string>): (r: seq<string>)
    requires open.Some? ==> open.value < |texts|
    ensures |texts| <= |r|
    decreases n, 1
  {
    if n.wml && n.local == "del" then texts
    else if n.wml && n.local == "p" then
      if passed then texts else ReadFrom(n, 0, wanted, Some(|texts|), false, texts + [""])
    else
      var unreferenced := || (n.local == "footnote" && n.noteId !in wanted.footnotes)
                          || (n.local == "endnote" && n.noteId !in wanted.endnotes);
      ReadFrom(n, 0, wanted, open, passed || unreferenced, Write(texts, open, OwnText(n)))
  }

  function ReadFrom(n: Node, i: nat, wanted: Notes, open: Option<nat>, passed: bool, texts: seq<string>)
    : (r: seq<string>)
    requires i <= |n.children| && (open.Some? ==> open.value < |texts|)
    ensures |texts| <= |r|
    decreases n, 0, |n.children| - i
  {
    if i == |n.children| then texts
    else ReadFrom(n, i + 1, wanted, open, passed, Read(n.children[i], wanted, open, passed, texts))
  }

  /** The texts of paragraphs as the walk renders them. */
  function RenderedAll(ps: seq<Paragraph>): seq<string> {
    if |ps| == 0 then [] else [Rendered(ps[0].glyphs)] + RenderedAll(ps[1..])
  }

  /** What a paragraph above takes from a node. */
  function Taken(n: Node): seq<Glyph> {
    if Is(n, "p") || Is(n, "del") then [] else Glyphs(n)
  }

  lemma {:induction false} RenderedJoin(a: seq<Glyph>, b: seq<Glyph>)
    ensures Rendered(a + b) == Rendered(a) + Rendered(b)
  {
    if |a| == 0 {
      assert a + b == b;
    } else {
      assert (a + b)[1..] == a[1..] + b && (a + b)[0] == a[0];
      RenderedJoin(a[1..], b);
    }
  }

  lemma {:induction false} RenderedAllJoin(a: seq<Paragraph>, b: seq<Paragraph>)
    ensures RenderedAll(a + b) == RenderedAll(a) + RenderedAll(b)
  {
    if |a| == 0 {
      assert a + b == b;
    } else {
      assert (a + b)[1..] == a[1..] + b && (a + b)[0] == a[0];
      RenderedAllJoin(a[1..], b);
    }
  }

  /** A reading adds what a paragraph above takes from the node, and the paragraphs of the walk. */
  ghost predicate ReadsAs(texts: seq<string>, open: Option<nat>, passed: bool, taken: string, added: seq<string>,
                          read: seq<string>)
    requires open.Some? ==> open.value < |texts|
  {
    read == Write(texts, open, taken) + (if passed then [] else added)
  }

  lemma ReadsInTurn(texts: seq<string>, open: Option<nat>, passed: bool, a: string, added: seq<string>,
                    texts': seq<string>, b: string, added': seq<string>, texts'': seq<string>)
    requires open.Some? ==> open.value < |texts|
    requires ReadsAs(texts, open, passed, a, added, texts')
    requires ReadsAs(texts', open, passed, b, added', texts'')
    ensures ReadsAs(texts, open, passed, a + b, added + added', texts'')
  {
    var p, p' := if passed then [] else added, if passed then [] else added';
    WriteTwice(texts, open, a, p, b);
    assert Write(texts, open, a + b) + p + p' == Write(texts, open, a + b) + (p + p');
  }

  lemma WriteTwice(texts: seq<string>, open: Option<nat>, a: string, added: seq<string>, b: string)
    requires open.Some? ==> open.value < |texts|
    ensures Write(Write(texts, open, a) + added, open, b) == Write(texts, open, a + b) + added
  {
    if open.Some? {
      var k := open.value;
      assert texts[k] + a + b == texts[k] + (a + b);
      assert (Write(texts, open, a) + added)[k] == texts[k] + a;
    }
  }

  lemma WriteNothing(texts: seq<string>, open: Option<nat>)
    requires open.Some? ==> open.value < |texts|
    ensures Write(texts, open, "") == texts
  {
    if open.Some? {
      assert texts[open.value] + "" == texts[open.value];
    }
  }

  lemma WriteNew(texts: seq<string>, text: string)
    ensures Write(texts + [""], Some(|texts|), text) == texts + [text]
  {
    assert "" + text == text;
  }

  lemma {:induction false} ReadIsWalk(n: Node, path: string, wanted: Notes, open: Option<nat>, passed: bool,
                                      texts: seq<string>)
    requires open.Some? ==> open.value < |texts|
    ensures ReadsAs(texts, open, passed, Rendered(Taken(n)), RenderedAll(Paragraphs(n, path, wanted)),
                    Read(n, wanted, open, passed, texts))
    decreases n, 1
  {
    if Is(n, "del") || (Is(n, "p") && passed) {
      WriteNothing(texts, open);
      PassedOver(n, path, wanted);
    } else if Is(n, "p") {
      ReadFromIsWalk(n, 0, path, wanted, Some(|texts|), false, texts + [""]);
      hide ReadsAs, Glyphs, Paragraphs;
      ParagraphReads(n, path, wanted, open, texts, Read(n, wanted, open, passed, texts));
    } else {
      ReadFromIsWalk(n, 0, path, wanted, open, passed || Unwanted(n, wanted), Write(texts, open, OwnText(n)));
      hide ReadsAs, Glyphs, Paragraphs;
      OtherReads(n, path, wanted, open, passed, texts, Read(n, wanted, open, passed, texts));
    }
  }

  lemma PassedOver(n: Node, path: string, wanted: Notes)
    requires Is(n, "p") || Is(n, "del")
    ensures Rendered(Taken(n)) == "" && (Is(n, "del") ==> RenderedAll(Paragraphs(n, path, wanted)) == [])
  {
  }

  lemma ParagraphReads(n: Node, path: string, wanted: Notes, open: Option<nat>, texts: seq<string>, read: seq<string>)
    requires Is(n, "p") && (open.Some? ==> open.value < |texts|)
    requires ReadsAs(texts + [""], Some(|texts|), false, Rendered(GlyphsFrom(n, 0)),
                     RenderedAll(ParagraphsFrom(n, 0, path, wanted)), read)
    ensures ReadsAs(texts, open, false, Rendered(Taken(n)), RenderedAll(Paragraphs(n, path, wanted)), read)
  {
    NamesDiffer(n, wanted);
    var below := Rendered(GlyphsFrom(n, 0));
    var own := [Paragraph(path, Glyphs(n))];
    assert Glyphs(n) == GlyphsFrom(n, 0) && own[1..] == [];
    RenderedAllJoin(own, ParagraphsFrom(n, 0, path, wanted));
    hide Glyphs, GlyphsFrom, ParagraphsFrom;
    WriteNew(texts, below);
    WriteNothing(texts, open);
    hide Write, RenderedAll, Paragraphs;
    var rest := RenderedAll(ParagraphsFrom(n, 0, path, wanted));
    assert texts + [below] + rest == texts + ([below] + rest);
  }

  lemma OtherReads(n: Node, path: string, wanted: Notes, open: Option<nat>, passed: bool, texts: seq<string>,
                   read: seq<string>)
    requires !Is(n, "p") && !Is(n, "del") && (open.Some? ==> open.value < |texts|)
    requires ReadsAs(Write(texts, open, OwnText(n)), open, passed || Unwanted(n, wanted), Rendered(GlyphsFrom(n, 0)),
                     RenderedAll(ParagraphsFrom(n, 0, path, wanted)), read)
    ensures ReadsAs(texts, open, passed, Rendered(Taken(n)), RenderedAll(Paragraphs(n, path, wanted)), read)
  {
    OwnReads(n, path, wanted);
    var written, below := Write(texts, open, OwnText(n)), Rendered(GlyphsFrom(n, 0));
    var added := RenderedAll(Paragraphs(n, path, wanted));
    hide Glyphs, GlyphsFrom, Paragraphs, ParagraphsFrom, Rendered, RenderedAll, OwnText, Unwanted, Is;
    assert ReadsAs(written, open, passed, below, added, read);
    assert ReadsAs(texts, open, passed, OwnText(n), [], written);
    assert [] + added == added;
    hide Write, ReadsAs;
    ReadsInTurn(texts, open, passed, OwnText(n), [], written, below, added, read);
  }

  lemma OwnReads(n: Node, path: string, wanted: Notes)
    requires !Is(n, "p") && !Is(n, "del")
    ensures Rendered(Taken(n)) == OwnText(n) + Rendered(GlyphsFrom(n, 0))
    ensures RenderedAll(Paragraphs(n, path, wanted))
         == if Unwanted(n, wanted) then [] else RenderedAll(ParagraphsFrom(n, 0, path, wanted))
  {
    var own := OwnGlyph(n);
    assert |own| == 1 ==> own[1..] == [];
    assert Rendered(own) == OwnText(n);
    assert [] + ParagraphsFrom(n, 0, path, wanted) == ParagraphsFrom(n, 0, path, wanted);
    RenderedJoin(own, GlyphsFrom(n, 0));
  }

  lemma {:induction false} ReadFromIsWalk(n: Node, i: nat, path: string, wanted: Notes, open: Option<nat>, passed: bool,
                                          texts: seq<string>)
    requires i <= |n.children| && (open.Some? ==> open.value < |texts|)
    ensures ReadsAs(texts, open, passed, Rendered(GlyphsFrom(n, i)), RenderedAll(ParagraphsFrom(n, i, path, wanted)),
                    ReadFrom(n, i, wanted, open, passed, texts))
    decreases n, 0, |n.children| - i
  {
    if i == |n.children| {
      WriteNothing(texts, open);
    } else {
      var child, at := n.children[i], path + PathStep(n, i);
      var texts' := Read(child, wanted, open, passed, texts);
      ReadIsWalk(child, at, wanted, open, passed, texts);
      ReadFromIsWalk(n, i + 1, path, wanted, open, passed, texts');
      RenderedJoin(Taken(child), GlyphsFrom(n, i + 1));
      RenderedAllJoin(Paragraphs(child, at, wanted), ParagraphsFrom(n, i + 1, path, wanted));
      hide ReadsAs, Read, Rendered, RenderedAll, Glyphs, Paragraphs, PathStep;
      ReadsInTurn(texts, open, passed, Rendered(Taken(child)), RenderedAll(Paragraphs(child, at, wanted)),
                  texts', Rendered(GlyphsFrom(n, i + 1)), RenderedAll(ParagraphsFrom(n, i + 1, path, wanted)),
                  ReadFrom(n, i, wanted, open, passed, texts));
    }
  }

  /** The walk's paragraphs hold what one reading of the part from its first to its last character finds. */
  lemma WalkReadsPart(root: Node, path: string, wanted: Notes)
    ensures RenderedAll(Paragraphs(root, path, wanted)) == Read(root, wanted, None, false, [])
  {
    ReadIsWalk(root, path, wanted, None, false, []);
    hide RenderedAll, Paragraphs, Read;
    var added := RenderedAll(Paragraphs(root, path, wanted));
    assert [] + added == added;
  }

  // ----- exactly once -----

  /** Every text node of a part, in document order. */
  function Texts(n: Node): seq<nat>
    decreases n, 1
  {
    (if Is(n, "t") then [n.id] else []) + TextsFrom(n, 0)
  }

  function TextsFrom(n: Node, i: nat): seq<nat>
    requires i <= |n.children|
    decreases n, 0, |n.children| - i
  {
    if i == |n.children| then [] else Texts(n.children[i]) + TextsFrom(n, i + 1)
  }

  /** Together at most as often as in the part. */
  ghost predicate Among(some: seq<nat>, others: seq<nat>, all: seq<nat>) {
    multiset(some) + multiset(others) <= multiset(all)
  }

  lemma AmongJoin(a: seq<nat>, b: seq<nat>, all: seq<nat>, a': seq<nat>, b': seq<nat>, all': seq<nat>)
    requires Among(a, b, all) && Among(a', b', all')
    ensures Among(a + a', b + b', all + all')
  {
    forall x: nat
      ensures (multiset(a + a') + multiset(b + b'))[x] <= multiset(all + all')[x]
    {
      assert (multiset(a) + multiset(b))[x] <= multiset(all)[x];
      assert (multiset(a') + multiset(b'))[x] <= multiset(all')[x];
    }
  }

  lemma {:induction false} GlyphsAmong(n: Node)
    ensures Among(TextIds(Glyphs(n)), [], Texts(n))
    decreases n, 1
  {
    var own := if Is(n, "t") then [n.id] else [];
    TextOf(n);
    GlyphsFromAmong(n, 0);
    assert Among(own, [], own);
    hide Among;
    var none: seq<nat> := [];
    AmongJoin(own, none, own, TextIds(GlyphsFrom(n, 0)), none, TextsFrom(n, 0));
    assert none + none == none;
  }

  lemma {:induction false} GlyphsFromAmong(n: Node, i: nat)
    requires i <= |n.children|
    ensures Among(TextIds(GlyphsFrom(n, i)), [], TextsFrom(n, i))
    decreases n, 0, |n.children| - i
  {
    if i < |n.children| {
      var child := n.children[i];
      GlyphsAmong(child);
      GlyphsFromAmong(n, i + 1);
      GatheredNext(n, i, true);
      assert Among(Gathered(child, true), [], Texts(child));
      hide Among, Gathered, Texts, Glyphs;
      var none: seq<nat> := [];
      AmongJoin(Gathered(child, true), none, Texts(child), TextIds(GlyphsFrom(n, i + 1)), none, TextsFrom(n, i + 1));
      assert none + none == none;
    }
  }

  lemma {:induction false} VisibleAmong(n: Node, inParagraph: bool, wanted: Notes)
    ensures Among(Visible(n, inParagraph, wanted), Stray(n, inParagraph, wanted), Texts(n))
    decreases n, 1
  {
    NamesDiffer(n, wanted);
    if Is(n, "del") {
      hide Texts;
    } else if Unwanted(n, wanted) {
      GlyphsAmong(n);
      hide Texts, Glyphs, TextIds;
    } else {
      var inside := inParagraph || Is(n, "p");
      var own := if Is(n, "t") && inParagraph then [n.id] else [];
      var text := if Is(n, "t") then [n.id] else [];
      VisibleFromAmong(n, 0, inside, wanted);
      assert Among(own, [], text);
      hide Among;
      var none: seq<nat> := [];
      AmongJoin(own, none, text, VisibleFrom(n, 0, inside, wanted), StrayFrom(n, 0, inside, wanted), TextsFrom(n, 0));
      assert none + StrayFrom(n, 0, inside, wanted) == StrayFrom(n, 0, inside, wanted);
    }
  }

  lemma {:induction false} VisibleFromAmong(n: Node, i: nat, inParagraph: bool, wanted: Notes)
    requires i <= |n.children|
    ensures Among(VisibleFrom(n, i, inParagraph, wanted), StrayFrom(n, i, inParagraph, wanted), TextsFrom(n, i))
    decreases n, 0, |n.children| - i
  {
    if i < |n.children| {
      var child := n.children[i];
      VisibleAmong(child, inParagraph, wanted);
      VisibleFromAmong(n, i + 1, inParagraph, wanted);
      hide Among, Visible, Stray, Texts;
      AmongJoin(Visible(child, inParagraph, wanted), Stray(child, inParagraph, wanted), Texts(child),
                VisibleFrom(n, i + 1, inParagraph, wanted), StrayFrom(n, i + 1, inParagraph, wanted),
                TextsFrom(n, i + 1));
    }
  }

  /**
   Exactly once: when text nodes can be told apart, each visible one is emitted
   once, no other but the stray ones is emitted, and none is emitted twice.
   */
  lemma EachTextOnce(root: Node, path: string, wanted: Notes, id: nat)
    requires Distinct(Texts(root))
    ensures var visible, stray := Visible(root, false, wanted), Stray(root, false, wanted);
            multiset(Emitted(Paragraphs(root, path, wanted)))[id] == if id in visible || id in stray then 1 else 0
  {
    WalkConserves(root, path, false, wanted);
    VisibleAmong(root, false, wanted);
    hide Emitted, Paragraphs, Visible, Stray, Texts;
    BalancedRoot(Emitted(Paragraphs(root, path, wanted)), Visible(root, false, wanted), Stray(root, false, wanted));
    AmongOnce(Visible(root, false, wanted), Stray(root, false, wanted), Texts(root), id);
  }

  lemma AmongOnce(visible: seq<nat>, stray: seq<nat>, texts: seq<nat>, id: nat)
    requires Distinct(texts) && Among(visible, stray, texts)
    ensures multiset(visible + stray)[id] == if id in visible || id in stray then 1 else 0
  {
    OnceAtMost(texts, id);
    assert (multiset(visible) + multiset(stray))[id] <= multiset(texts)[id];
    assert id in visible <==> multiset(visible)[id] > 0;
    assert id in stray <==> multiset(stray)[id] > 0;
  }

  lemma {:induction false} OnceAtMost(s: seq<nat>, x: nat)
    requires Distinct(s)
    ensures multiset(s)[x] <= 1
  {
    if |s| > 0 {
      var n := |s| - 1;
      OnceAtMost(s[..n], x);
      assert s == s[..n] + [s[n]];
    }
  }

  // ----- locators -----

  /** XML names have no bracket. */
  predicate PlainNames(n: Node) {
    '[' !in n.local && forall i | 0 <= i < |n.children| :: PlainNames(n.children[i])
  }

  /** A path is the base or goes on below it. */
  predicate Below(path: string, base: string) {
    base <= path && (|path| > |base| ==> path[|base|] == '/')
  }

  /** The place of the first c. */
  function First(c: char, s: string): nat {
    if |s| == 0 || s[0] == c then 0 else 1 + First(c, s[1..])
  }

  lemma {:induction false} FirstIs(c: char, a: string, s: string)
    requires c !in a
    ensures First(c, a + [c] + s) == |a|
  {
    if |a| > 0 {
      assert (a + [c] + s)[1..] == a[1..] + [c] + s;
      FirstIs(c, a[1..], s);
    }
  }

  lemma SplitAt(c: char, a: string, s: string, b: string, t: string)
    requires a + [c] + s == b + [c] + t && c !in a && c !in b
    ensures a == b && s == t
  {
    FirstIs(c, a, s);
    FirstIs(c, b, t);
    var whole := a + [c] + s;
    assert a == whole[..|a|] && b == whole[..|b|];
    assert s == whole[|a| + 1..] && t == whole[|b| + 1..];
  }

  lemma {:induction false} LaterOccurrence(children: seq<Node>, i: nat, j: nat)
    requires i < j < |children| && children[i].local == children[j].local
    ensures Occurrences(children, i + 1, children[i].local) < Occurrences(children, j + 1, children[i].local)
  {
    OccurrencesGrow(children, i + 1, j, children[i].local);
  }

  lemma {:induction false} OccurrencesGrow(children: seq<Node>, i: nat, j: nat, local: string)
    requires i <= j <= |children|
    ensures Occurrences(children, i, local) <= Occurrences(children, j, local)
  {
    if i < j {
      OccurrencesGrow(children, i, j - 1, local);
    }
  }

  /** Nothing below one child has the path of anything below another. */
  lemma StepsDiffer(n: Node, i: nat, j: nat, base: string, p: string, q: string)
    requires PlainNames(n) && i < j < |n.children|
    requires Below(p, base + PathStep(n, i)) && Below(q, base + PathStep(n, j))
    ensures p != q
  {
    if p == q {
      var a, b := n.children[i].local, n.children[j].local;
      var x, y := Occurrences(n.children, i + 1, a), Occurrences(n.children, j + 1, b);
      var r, r' := p[|base + PathStep(n, i)|..], q[|base + PathStep(n, j)|..];
      StepText(base, a, x, r);
      StepText(base, b, y, r');
      assert p == base + PathStep(n, i) + r && q == base + PathStep(n, j) + r';
      assert PlainNames(n.children[i]) && PlainNames(n.children[j]);
      SplitAt('[', a, Digits(x) + "]" + r, b, Digits(y) + "]" + r');
      DigitsValue(x);
      DigitsValue(y);
      SplitAt(']', Digits(x), r, Digits(y), r');
      DigitsInjective(x, y);
      LaterOccurrence(n.children, i, j);
      assert false;
    }
  }

  lemma StepText(base: string, local: string, x: nat, rest: string)
    ensures var p := base + ("/" + local + "[" + Digits(x) + "]") + rest;
            p[|base| + 1..] == local + "[" + (Digits(x) + "]" + rest)
  {
  }

  ghost predicate PathsDiffer(ps: seq<Paragraph>) {
    forall i, j :: 0 <= i < j < |ps| ==> ps[i].path != ps[j].path
  }

  lemma {:induction false} LocatorsDiffer(n: Node, path: string, wanted: Notes)
    requires PlainNames(n)
    ensures PathsDiffer(Paragraphs(n, path, wanted))
    ensures forall p <- Paragraphs(n, path, wanted) :: Below(p.path, path)
    decreases n, 1
  {
    if !Unwanted(n, wanted) && !Is(n, "del") {
      LocatorsFrom(n, 0, path, wanted);
      var ps := ParagraphsFrom(n, 0, path, wanted);
      forall p | p in ps
        ensures Below(p.path, path) && p.path != path
      {
        var k :| 0 <= k < |n.children| && Below(p.path, path + PathStep(n, k));
        assert (path + PathStep(n, k))[|path|] == '/';
      }
    }
  }

  lemma {:induction false} LocatorsFrom(n: Node, i: nat, path: string, wanted: Notes)
    requires PlainNames(n) && i <= |n.children|
    ensures PathsDiffer(ParagraphsFrom(n, i, path, wanted))
    ensures forall p <- ParagraphsFrom(n, i, path, wanted) ::
              exists k :: i <= k < |n.children| && Below(p.path, path + PathStep(n, k))
    decreases n, 0, |n.children| - i
  {
    if i < |n.children| {
      var here := Paragraphs(n.children[i], path + PathStep(n, i), wanted);
      var rest := ParagraphsFrom(n, i + 1, path, wanted);
      LocatorsDiffer(n.children[i], path + PathStep(n, i), wanted);
      LocatorsFrom(n, i + 1, path, wanted);
      forall p, q | p in here && q in rest
        ensures p.path != q.path
      {
        var k :| i + 1 <= k < |n.children| && Below(q.path, path + PathStep(n, k));
        StepsDiffer(n, i, k, path, p.path, q.path);
      }
    }
  }

  /** The number in a path step counts the children up to it that have its local name. */
  lemma PathStepCounts(n: Node, i: nat)
    requires i < |n.children|
    ensures var local := n.children[i].local;
            PathStep(n, i) == "/" + local + "[" + Digits(|set j | 0 <= j <= i && n.children[j].local == local|) + "]"
  {
    OccurrencesCount(n.children, i + 1, n.children[i].local);
    assert (set j | 0 <= j <= i && n.children[j].local == n.children[i].local)
        == set j | 0 <= j < i + 1 && n.children[j].local == n.children[i].local;
  }

  lemma {:induction false} OccurrencesCount(children: seq<Node>, n: nat, local: string)
    requires n <= |children|
    ensures Occurrences(children, n, local) == |set j | 0 <= j < n && children[j].local == local|
  {
    if n > 0 {
      OccurrencesCount(children, n - 1, local);
      var before := set j | 0 <= j < n - 1 && children[j].local == local;
      var own := if children[n - 1].local == local then {n - 1} else {};
      assert (set j | 0 <= j < n && children[j].local == local) == before + own;
    }
  }

  // ----- the extraction -----

  function PieceOf(part: string, p: Paragraph): Piece {
    Piece(part, p.path, Rendered(p.glyphs))
  }

  function PiecesOf(part: string, ps: seq<Paragraph>): seq<Piece> {
    if |ps| == 0 then [] else [PieceOf(part, ps[0])] + PiecesOf(part, ps[1..])
  }

  lemma {:induction false} PiecesJoin(part: string, a: seq<Paragraph>, b: seq<Paragraph>)
    ensures PiecesOf(part, a + b) == PiecesOf(part, a) + PiecesOf(part, b)
  {
    if |a| == 0 {
      assert a + b == b;
    } else {
      assert (a + b)[1..] == a[1..] + b && (a + b)[0] == a[0];
      PiecesJoin(part, a[1..], b);
    }
  }

  /** The paths of the units of a part lead to different paragraphs of it. */
  lemma UnitLocatorsDiffer(part: string, tree: Node, path: string, wanted: Notes)
    requires PlainNames(tree)
    ensures var units := Whole(PiecesOf(part, Paragraphs(tree, path, wanted)));
            && (forall i, j :: 0 <= i < j < |units| ==> units[i].path != units[j].path)
            && (forall u <- units :: exists p <- Paragraphs(tree, path, wanted) :: p.path == u.path)
  {
    LocatorsDiffer(tree, path, wanted);
    hide Paragraphs;
    UnitPaths(part, Paragraphs(tree, path, wanted));
  }

  lemma {:induction false} UnitPaths(part: string, ps: seq<Paragraph>)
    requires PathsDiffer(ps)
    ensures var units := Whole(PiecesOf(part, ps));
            && (forall i, j :: 0 <= i < j < |units| ==> units[i].path != units[j].path)
            && (forall u <- units :: exists p <- ps :: p.path == u.path)
  {
    if |ps| > 0 {
      UnitPaths(part, ps[1..]);
      WholeJoin([PieceOf(part, ps[0])], PiecesOf(part, ps[1..]));
      WholeMore([], PieceOf(part, ps[0]));
      assert [] + [PieceOf(part, ps[0])] == [PieceOf(part, ps[0])];
      var own, rest := WholeOf(PieceOf(part, ps[0])), Whole(PiecesOf(part, ps[1..]));
      assert Whole(PiecesOf(part, ps)) == own + rest;
      forall u | u in rest
        ensures u.path != ps[0].path && exists p <- ps :: p.path == u.path
      {
        var p :| p in ps[1..] && p.path == u.path;
        assert p in ps;
      }
      assert forall u <- own :: u.path == ps[0].path && ps[0] in ps;
    }
  }

  /** How a walk ends: to its end, refused by the result, or out of time. */
  datatype End = Done | Refused | OutOfTime

  /** `seen` are the pieces added before the end, out of those due. */
  ghost predicate Walked(end: End, before: Content, after: Content, seen: seq<Piece>, due: seq<Piece>) {
    && seen <= due && (end.Done? ==> seen == due)
    && AddAll(before, seen) == (after, !end.Refused?)
  }

  lemma WalkedJoin(end: End, c: Content, c': Content, c'': Content, a: seq<Piece>, seen: seq<Piece>, b: seq<Piece>)
    requires AddAll(c, a) == (c', true) && Walked(end, c', c'', seen, b)
    ensures Walked(end, c, c'', a + seen, a + b)
  {
    AddAllSplits(c, a, seen);
  }

  /** Where the document may be `late`, the deadline can pass at any node. */
  method Walk(node: Node, location: string, part: string, wanted: Notes, result: Result, late: bool)
    returns (end: End, ghost seen: seq<Piece>)
    modifies result
    ensures end.OutOfTime? ==> late
    ensures Walked(end, old(result.View()), result.View(), seen, PiecesOf(part, Paragraphs(node, location, wanted)))
    decreases node, 1
  {
    seen := [];
    if late {
      if * {
        return OutOfTime, [];
      }
    }
    if Unwanted(node, wanted) || Is(node, "del") {
      return Done, [];
    }
    ghost var c := result.View();
    if Is(node, "p") {
      var own := PieceOf(part, Paragraph(location, Glyphs(node)));
      OwnPiece(node, location, part, wanted);
      AddAllOne(c, own);
      var ok := result.Add(own);
      seen := [own];
      if !ok {
        end := Refused;
        return;
      }
    } else {
      assert Paragraphs(node, location, wanted) == ParagraphsFrom(node, 0, location, wanted);
    }
    ghost var before, below := result.View(), [];
    end, below := WalkChildren(node, location, part, wanted, result, late);
    WalkedJoin(end, c, before, result.View(), seen, below, PiecesOf(part, ParagraphsFrom(node, 0, location, wanted)));
    seen := seen + below;
  }

  method WalkChildren(node: Node, location: string, part: string, wanted: Notes, result: Result, late: bool)
    returns (end: End, ghost seen: seq<Piece>)
    modifies result
    ensures end.OutOfTime? ==> late
    ensures Walked(end, old(result.View()), result.View(), seen,
                   PiecesOf(part, ParagraphsFrom(node, 0, location, wanted)))
    decreases node, 0
  {
    var counts: map<string, nat> := map[];
    ghost var c := result.View();
    seen := [];
    assert Counted(counts, node.children, 0);
    NothingWalked(node, location, part, wanted, c);
    hide *;
    for i := 0 to |node.children|
      invariant Counted(counts, node.children, i)
      invariant WalkedUpTo(i, node, location, part, wanted, c, result.View(), seen)
    {
      var local := node.children[i].local;
      CountedNext(counts, node.children, i);
      counts := counts[local := (if local in counts then counts[local] else 0) + 1];
      StepAs(node, i, counts[local]);
      ghost var before, below := result.View(), [];
      var step := "/" + local + "[" + Digits(counts[local]) + "]";
      end, below := Walk(node.children[i], location + step, part, wanted, result, late);
      ChildWalked(end, i, node, location, part, wanted, c, before, result.View(), seen, below);
      seen := seen + below;
      if !end.Done? {
        return;
      }
    }
    end := Done;
    AllWalked(node, location, part, wanted, c, result.View(), seen);
  }

  /** The children before the i-th were walked to their ends. */
  ghost predicate WalkedUpTo(i: nat, n: Node, path: string, part: string, wanted: Notes, c: Content, c': Content,
                             seen: seq<Piece>)
    requires i <= |n.children|
  {
    && seen + PiecesOf(part, ParagraphsFrom(n, i, path, wanted)) == PiecesOf(part, ParagraphsFrom(n, 0, path, wanted))
    && AddAll(c, seen) == (c', true)
  }

  lemma NothingWalked(n: Node, path: string, part: string, wanted: Notes, c: Content)
    ensures WalkedUpTo(0, n, path, part, wanted, c, c, [])
  {
  }

  lemma AllWalked(n: Node, path: string, part: string, wanted: Notes, c: Content, c': Content, seen: seq<Piece>)
    requires WalkedUpTo(|n.children|, n, path, part, wanted, c, c', seen)
    ensures Walked(Done, c, c', seen, PiecesOf(part, ParagraphsFrom(n, 0, path, wanted)))
  {
    assert seen + PiecesOf(part, ParagraphsFrom(n, |n.children|, path, wanted)) == seen;
  }

  lemma ChildWalked(end: End, i: nat, n: Node, path: string, part: string, wanted: Notes, c: Content, c': Content,
                    c'': Content, seen: seq<Piece>, below: seq<Piece>)
    requires i < |n.children| && WalkedUpTo(i, n, path, part, wanted, c, c', seen)
    requires Walked(end, c', c'', below, PiecesOf(part, Paragraphs(n.children[i], path + PathStep(n, i), wanted)))
    ensures end.Done? ==> WalkedUpTo(i + 1, n, path, part, wanted, c, c'', seen + below)
    ensures !end.Done? ==> Walked(end, c, c'', seen + below, PiecesOf(part, ParagraphsFrom(n, 0, path, wanted)))
  {
    var due := PiecesOf(part, Paragraphs(n.children[i], path + PathStep(n, i), wanted));
    var more := PiecesOf(part, ParagraphsFrom(n, i + 1, path, wanted));
    ChildPieces(n, i, path, part, wanted);
    WalkedJoin(end, c, c', c'', seen, below, due);
    hide PiecesOf, Paragraphs, ParagraphsFrom, PathStep, AddAll;
    assert seen + due + more == seen + (due + more);
  }

  lemma StepAs(n: Node, i: nat, number: nat)
    requires i < |n.children| && number == Occurrences(n.children, i + 1, n.children[i].local)
    ensures "/" + n.children[i].local + "[" + Digits(number) + "]" == PathStep(n, i)
  {
  }

  /** The dictionary of the walk: how many children of each name came before. */
  ghost predicate Counted(counts: map<string, nat>, children: seq<Node>, i: nat)
    requires i <= |children|
  {
    forall local: string :: Occurrences(children, i, local) == if local in counts then counts[local] else 0
  }

  lemma CountedNext(counts: map<string, nat>, children: seq<Node>, i: nat)
    requires i < |children| && Counted(counts, children, i)
    ensures var local := children[i].local;
            var counts' := counts[local := (if local in counts then counts[local] else 0) + 1];
            Counted(counts', children, i + 1) && counts'[local] == Occurrences(children, i + 1, local)
  {
  }

  lemma OwnPiece(n: Node, path: string, part: string, wanted: Notes)
    requires !Unwanted(n, wanted) && Is(n, "p")
    ensures PiecesOf(part, Paragraphs(n, path, wanted))
         == [PieceOf(part, Paragraph(path, Glyphs(n)))] + PiecesOf(part, ParagraphsFrom(n, 0, path, wanted))
  {
    NamesDiffer(n, wanted);
    var own := [Paragraph(path, Glyphs(n))];
    PiecesJoin(part, own, ParagraphsFrom(n, 0, path, wanted));
    assert own[1..] == [];
  }

  lemma ChildPieces(n: Node, i: nat, path: string, part: string, wanted: Notes)
    requires i < |n.children|
    ensures PiecesOf(part, ParagraphsFrom(n, i, path, wanted))
         == PiecesOf(part, Paragraphs(n.children[i], path + PathStep(n, i), wanted))
            + PiecesOf(part, ParagraphsFrom(n, i + 1, path, wanted))
  {
    PiecesJoin(part, Paragraphs(n.children[i], path + PathStep(n, i), wanted), ParagraphsFrom(n, i + 1, path, wanted));
  }

  // ----- all parts of a document -----

  datatype Part = Part(name: string, tree: Node)

  function RootPath(tree: Node): string {
    "/" + tree.local + "[1]"
  }

  /** Every paragraph of every part. */
  function DueOf(parts: seq<Part>, wanted: Notes): seq<Piece> {
    if |parts| == 0 then []
    else
      var last := parts[|parts| - 1];
      DueOf(parts[..|parts| - 1], wanted) + PiecesOf(last.name, Paragraphs(last.tree, RootPath(last.tree), wanted))
  }

  /** The texts that are not empty, each with the name of its part. */
  function Named(part: string, texts: seq<string>): seq<(string, string)> {
    if |texts| == 0 then []
    else (if texts[0] == "" then [] else [(part, texts[0])]) + Named(part, texts[1..])
  }

  /** What a reader of all the parts finds, paragraph by paragraph. */
  function Readings(parts: seq<Part>, wanted: Notes): seq<(string, string)> {
    if |parts| == 0 then []
    else
      var last := parts[|parts| - 1];
      Readings(parts[..|parts| - 1], wanted) + Named(last.name, Read(last.tree, wanted, None, false, []))
  }

  /** The part and the text of every unit. */
  function Told(units: seq<Unit>): (r: seq<(string, string)>)
    ensures |r| == |units|
  {
    seq(|units|, k requires 0 <= k < |units| => (units[k].part, units[k].text))
  }

  lemma ToldJoin(a: seq<Unit>, b: seq<Unit>)
    ensures Told(a + b) == Told(a) + Told(b)
  {
  }

  lemma OneTold(p: Piece)
    ensures Whole([p]) == WholeOf(p)
    ensures Told(WholeOf(p)) == if p.text == "" then [] else [(p.part, p.text)]
  {
    WholeMore([], p);
    assert [] + [p] == [p];
  }

  lemma {:induction false} NamedIsTold(part: string, ps: seq<Paragraph>)
    ensures Told(Whole(PiecesOf(part, ps))) == Named(part, RenderedAll(ps))
  {
    if |ps| > 0 {
      NamedIsTold(part, ps[1..]);
      var own, rest := PieceOf(part, ps[0]), PiecesOf(part, ps[1..]);
      assert RenderedAll(ps) == [own.text] + RenderedAll(ps[1..]);
      hide Whole, WholeOf, Told;
      WholeJoin([own], rest);
      OneTold(own);
      ToldJoin(WholeOf(own), Whole(rest));
    }
  }

  lemma PartIsRead(part: Part, wanted: Notes)
    ensures Told(Whole(PiecesOf(part.name, Paragraphs(part.tree, RootPath(part.tree), wanted))))
         == Named(part.name, Read(part.tree, wanted, None, false, []))
  {
    hide *;
    NamedIsTold(part.name, Paragraphs(part.tree, RootPath(part.tree), wanted));
    WalkReadsPart(part.tree, RootPath(part.tree), wanted);
  }

  /** The units of an unlimited extraction tell what a reader finds. */
  lemma {:induction false} WholeIsRead(parts: seq<Part>, wanted: Notes)
    ensures Told(Whole(DueOf(parts, wanted))) == Readings(parts, wanted)
  {
    if |parts| > 0 {
      var before, last := parts[..|parts| - 1], parts[|parts| - 1];
      WholeIsRead(before, wanted);
      PartIsRead(last, wanted);
      hide Whole, Told, PiecesOf, Paragraphs, Read, Named, RootPath;
      var pieces := PiecesOf(last.name, Paragraphs(last.tree, RootPath(last.tree), wanted));
      WholeJoin(DueOf(before, wanted), pieces);
      ToldJoin(Whole(DueOf(before, wanted)), Whole(pieces));
    }
  }

  /** Every node of a part. */
  function Nodes(n: Node): seq<Node>
    decreases n, 1
  {
    [n] + NodesFrom(n, 0)
  }

  function NodesFrom(n: Node, i: nat): seq<Node>
    requires i <= |n.children|
    decreases n, 0, |n.children| - i
  {
    if i == |n.children| then [] else Nodes(n.children[i]) + NodesFrom(n, i + 1)
  }

  lemma {:induction false} HasLocalIff(n: Node, names: set<string>)
    ensures HasLocal(n, names) <==> exists m <- Nodes(n) :: m.local in names
    decreases n, 1
  {
    HasLocalFromIff(n, 0, names);
    assert Nodes(n)[0] == n;
    assert forall m :: m in Nodes(n) <==> m == n || m in NodesFrom(n, 0);
  }

  lemma {:induction false} HasLocalFromIff(n: Node, i: nat, names: set<string>)
    requires i <= |n.children|
    ensures (exists k :: i <= k < |n.children| && HasLocal(n.children[k], names))
            <==> exists m <- NodesFrom(n, i) :: m.local in names
    decreases n, 0, |n.children| - i
  {
    if i < |n.children| {
      HasLocalIff(n.children[i], names);
      HasLocalFromIff(n, i + 1, names);
      hide HasLocal, Nodes;
      assert forall m :: m in NodesFrom(n, i) <==> m in Nodes(n.children[i]) || m in NodesFrom(n, i + 1);
    }
  }

  /** A part is plain exactly when none of its nodes has one of these local names. */
  lemma PlainIff(tree: Node)
    ensures Plain(tree) <==>
            forall m <- Nodes(tree) ::
              m.local !in {"ins", "del", "moveFrom", "moveTo"}
              && m.local !in {"drawing", "pict", "object", "altChunk", "oMath", "oMathPara"}
              && m.local !in {"fldSimple", "instrText"}
  {
    HasLocalIff(tree, TRACKED);
    HasLocalIff(tree, UNSUPPORTED);
    HasLocalIff(tree, FIELDS);
    hide HasLocal, Nodes;
  }

  predicate HasLocal(n: Node, names: set<string>) {
    n.local in names || exists i | 0 <= i < |n.children| :: HasLocal(n.children[i], names)
  }

  const TRACKED: set<string> := {"ins", "del", "moveFrom", "moveTo"}
  const UNSUPPORTED: set<string> := {"drawing", "pict", "object", "altChunk", "oMath", "oMathPara"}
  const FIELDS: set<string> := {"fldSimple", "instrText"}

  /** What a part may hold that its text alone does not show. */
  predicate Plain(tree: Node) {
    !HasLocal(tree, TRACKED) && !HasLocal(tree, UNSUPPORTED) && !HasLocal(tree, FIELDS)
  }

  method Inspect(tree: Node, result: Result)
    modifies result`problems
    ensures old(result.problems) <= result.problems
    ensures result.problems == [] <==> old(result.problems) == [] && Plain(tree)
  {
    if HasLocal(tree, TRACKED) {
      result.Problem(Other("DOCX_TRACKED_CHANGES"));
    }
    if HasLocal(tree, UNSUPPORTED) {
      result.Problem(Other("DOCX_UNSUPPORTED_CONTENT"));
    }
    if HasLocal(tree, FIELDS) {
      result.Problem(Other("DOCX_FIELDS_NOT_RECALCULATED"));
    }
  }

  /** The first i parts were walked to their ends. */
  ghost predicate Extracted(c: Content, parts: seq<Part>, i: nat, wanted: Notes)
    requires i <= |parts|
  {
    && Faithful(c, true, Whole(DueOf(parts[..i], wanted)))
    && (c.problems == [] <==> forall part <- parts[..i] :: Plain(part.tree))
  }

  /** Part of the document is missing, for one of two reasons, and the result says so. */
  ghost predicate Incomplete(c: Content, parts: seq<Part>, wanted: Notes, late: bool) {
    && c.problems != [] && WithinLimits(c) && KeptOf(c.units, Whole(DueOf(parts, wanted)))
    && (late || TooMuch(Whole(DueOf(parts, wanted))))
  }

  method ExtractPart(parts: seq<Part>, i: nat, wanted: Notes, result: Result, late: bool) returns (ok: bool)
    requires i < |parts| && Extracted(result.View(), parts, i, wanted)
    modifies result
    ensures if ok then Extracted(result.View(), parts, i + 1, wanted)
            else Incomplete(result.View(), parts, wanted, late)
  {
    hide Whole, DueOf, AddAll, Walked, HasLocal, Paragraphs, PiecesOf, Plain, Chars, KeptOf, TooMuch;
    var part := parts[i];
    assert parts[..i + 1] == parts[..i] + [part];
    Inspect(part.tree, result);
    ghost var before := result.View();
    var end;
    ghost var seen;
    end, seen := Walk(part.tree, RootPath(part.tree), part.name, wanted, result, late);
    PartWalked(end, parts, i, wanted, before, result.View(), seen);
    if end.OutOfTime? {
      result.Problem(Other("TIME_LIMIT"));
    }
    ok := end.Done?;
  }

  /**
   The extraction of a document. Whatever is kept is a prefix of all its
   paragraphs, within the limits. Unless it is late, it calls itself complete if
   and only if every part is plain and there is some text, but no more than fits;
   a complete result tells exactly what a reader of the parts finds.
   */
  method ExtractDocx(parts: seq<Part>, wanted: Notes, late: bool) returns (result: Result, complete: bool)
    ensures fresh(result)
    ensures WithinLimits(result.View()) && KeptOf(result.units, Whole(DueOf(parts, wanted)))
    ensures complete ==> result.units == Whole(DueOf(parts, wanted)) && Told(result.units) == Readings(parts, wanted)
    ensures complete ==> result.units != [] && forall part <- parts :: Plain(part.tree)
    ensures !late ==> (complete <==>
              && (forall part <- parts :: Plain(part.tree)) && Readings(parts, wanted) != []
              && |Readings(parts, wanted)| <= 50000 && Chars(Whole(DueOf(parts, wanted))) <= 200000)
  {
    hide Whole, DueOf, HasLocal, Plain, Chars, KeptOf, Readings, Told, Read, Extracted, Incomplete, TooMuch, Faithful;
    result := new Result();
    var ok := true;
    WholeIsRead(parts, wanted);
    NothingExtracted(parts, wanted);
    for i := 0 to |parts|
      invariant fresh(result) && ok && Extracted(result.View(), parts, i, wanted)
    {
      ok := ExtractPart(parts, i, wanted, result, late);
      if !ok {
        break;
      }
    }
    ghost var c := result.View();
    if ok {
      AllExtracted(c, parts, wanted);
    } else {
      NotAllExtracted(c, parts, wanted, late);
    }
    complete := result.Payload();
  }

  lemma NothingExtracted(parts: seq<Part>, wanted: Notes)
    ensures Extracted(Content([], [], 0), parts, 0, wanted)
  {
  }

  lemma AllExtracted(c: Content, parts: seq<Part>, wanted: Notes)
    requires Extracted(c, parts, |parts|, wanted)
    ensures var whole := Whole(DueOf(parts, wanted));
            && WithinLimits(c) && KeptOf(c.units, whole) && c.units == whole
            && (c.problems == [] <==> forall part <- parts :: Plain(part.tree))
            && |whole| <= 50000 && Chars(whole) <= 200000
  {
    assert parts[..|parts|] == parts;
    hide Whole, DueOf, Chars, KeptOf, Plain;
  }

  lemma NotAllExtracted(c: Content, parts: seq<Part>, wanted: Notes, late: bool)
    requires Incomplete(c, parts, wanted, late)
    ensures var whole := Whole(DueOf(parts, wanted));
            && WithinLimits(c) && KeptOf(c.units, whole) && c.problems != []
            && (late || |whole| > 50000 || Chars(whole) > 200000)
  {
    hide Whole, DueOf, Chars, KeptOf;
  }

  lemma PartWalked(end: End, parts: seq<Part>, i: nat, wanted: Notes, c: Content, c': Content, seen: seq<Piece>)
    requires i < |parts| && Faithful(c, true, Whole(DueOf(parts[..i], wanted)))
    requires Walked(end, c, c', seen,
                    PiecesOf(parts[i].name, Paragraphs(parts[i].tree, RootPath(parts[i].tree), wanted)))
    ensures WithinLimits(c') && KeptOf(c'.units, Whole(DueOf(parts, wanted)))
    ensures end.Done? ==> Faithful(c', true, Whole(DueOf(parts[..i + 1], wanted))) && c'.problems == c.problems
    ensures end.Refused? ==> c'.problems != [] && TooMuch(Whole(DueOf(parts, wanted)))
  {
    var done := DueOf(parts[..i], wanted);
    var due := PiecesOf(parts[i].name, Paragraphs(parts[i].tree, RootPath(parts[i].tree), wanted));
    AddAllIsFaithful(c, Whole(done), seen);
    WholeJoin(done, seen);
    DueNext(parts, i, wanted);
    DueGrows(parts, i + 1, wanted);
    hide DueOf, PiecesOf, Paragraphs, AddAll, Whole, KeptOf, Chars, TooMuch;
    KeptOfMore(c'.units, done + seen, DueOf(parts, wanted));
    TooMuchMore(done + seen, DueOf(parts, wanted));
  }

  lemma DueNext(parts: seq<Part>, i: nat, wanted: Notes)
    requires i < |parts|
    ensures DueOf(parts[..i + 1], wanted)
         == DueOf(parts[..i], wanted)
            + PiecesOf(parts[i].name, Paragraphs(parts[i].tree, RootPath(parts[i].tree), wanted))
  {
    assert parts[..i + 1][..i] == parts[..i];
    hide Paragraphs, PiecesOf;
  }

  lemma {:induction false} DueGrows(parts: seq<Part>, n: nat, wanted: Notes)
    requires n <= |parts|
    ensures DueOf(parts[..n], wanted) <= DueOf(parts, wanted)
  {
    if n == |parts| {
      assert parts[..n] == parts;
    } else {
      DueGrows(parts[..|parts| - 1], n, wanted);
      assert parts[..|parts| - 1][..n] == parts[..n];
    }
  }
}
