/** The writes of one line, as a list of events, and a model of what a
    terminal does with them: which colour each written character shows.
    `EmitFrom` is the print-out loop of src/Program.cs over the kept entries. */
module Emit {
  import opened Options
  import opened Color
  import opened Escape
  import opened Config
  import opened Matches
  import opened Overlap

  /** One console write: `ResetColors()`, `SetColor(fg, bg)`, a `Write` of
      text, or the line terminator of `WriteLine`. */
  datatype Event = Reset | SetColor(fg: Option<Rgb>, bg: Option<Rgb>) | Text(s: string) | NewLine

  /** The characters an event puts on the console, `nl` being the platform's
      line terminator. */
  function EventCode(e: Event, nl: string): string {
    match e
    case Reset => SetColorCode(None, None)
    case SetColor(f, b) => SetColorCode(f, b)
    case Text(s) => s
    case NewLine => nl
  }

  /** The whole console output of a list of events. */
  function Render(evs: seq<Event>, nl: string): string {
    if |evs| == 0 then [] else EventCode(evs[0], nl) + Render(evs[1..], nl)
  }

  lemma {:induction false} RenderAppend(a: seq<Event>, b: seq<Event>, nl: string)
    ensures Render(a + b, nl) == Render(a, nl) + Render(b, nl)
    decreases |a|
  {
    if |a| == 0 {
      assert a + b == b;
    } else {
      assert (a + b)[1..] == a[1..] + b;
      RenderAppend(a[1..], b, nl);
    }
  }

  /** `SetBackgroundColor` when the rule has a background, then
      `SetForegroundColor` when it has a foreground. */
  function ColorEvents(c: ColorPair): (r: seq<Event>)
    ensures |r| <= 2
    ensures |r| == 0 <==> c == NoColor
    ensures forall i | 0 <= i < |r| :: r[i].SetColor? && r[i].fg.None? != r[i].bg.None?
    ensures |r| == 2 ==> r[0].bg.Some? && r[1].fg.Some?
  {
    (if c.bg.Some? then [SetColor(None, c.bg)] else []) + (if c.fg.Some? then [SetColor(c.fg, None)] else [])
  }

  // ---------------------------------------------------------------------
  // The terminal: `ESC[0m` clears both channels, `ESC[38;2;..m` sets the
  // foreground only, `ESC[48;2;..m` the background only.

  function Apply(pen: ColorPair, e: Event): ColorPair {
    match e
    case Reset => NoColor
    case SetColor(f, b) =>
      if f.None? && b.None? then NoColor
      else ColorPair(if f.Some? then f else pen.fg, if b.Some? then b else pen.bg)
    case _ => pen
  }

  /** One written character and the colours it is shown in. */
  datatype Cell = Cell(ch: char, color: ColorPair)

  function Cells(s: string, pen: ColorPair): (r: seq<Cell>)
    ensures |r| == |s| && forall i | 0 <= i < |s| :: r[i] == Cell(s[i], pen)
  {
    seq(|s|, i requires 0 <= i < |s| => Cell(s[i], pen))
  }

  /** The characters the events write, with their colours. */
  function Paint(evs: seq<Event>, pen: ColorPair): seq<Cell> {
    if |evs| == 0 then []
    else (if evs[0].Text? then Cells(evs[0].s, pen) else []) + Paint(evs[1..], Apply(pen, evs[0]))
  }

  /** The terminal's colours after the events. */
  function PenAfter(evs: seq<Event>, pen: ColorPair): ColorPair {
    if |evs| == 0 then pen else PenAfter(evs[1..], Apply(pen, evs[0]))
  }

  /** The text the events write, colours ignored. */
  function Texts(evs: seq<Event>): string {
    if |evs| == 0 then [] else (if evs[0].Text? then evs[0].s else []) + Texts(evs[1..])
  }

  lemma {:induction false} TextsAppend(a: seq<Event>, b: seq<Event>)
    ensures Texts(a + b) == Texts(a) + Texts(b)
    decreases |a|
  {
    if |a| == 0 {
      assert a + b == b;
    } else {
      assert (a + b)[1..] == a[1..] + b;
      TextsAppend(a[1..], b);
    }
  }

  lemma {:induction false} PenAfterAppend(a: seq<Event>, b: seq<Event>, pen: ColorPair)
    ensures PenAfter(a + b, pen) == PenAfter(b, PenAfter(a, pen))
    decreases |a|
  {
    if |a| == 0 {
      assert a + b == b;
    } else {
      assert (a + b)[1..] == a[1..] + b;
      PenAfterAppend(a[1..], b, Apply(pen, a[0]));
    }
  }

  lemma {:induction false} PaintConcat(a: seq<Event>, b: seq<Event>, pen: ColorPair)
    ensures Paint(a + b, pen) == Paint(a, pen) + Paint(b, PenAfter(a, pen))
    decreases |a|
  {
    if |a| == 0 {
      assert a + b == b;
    } else {
      assert (a + b)[1..] == a[1..] + b;
      PaintConcat(a[1..], b, Apply(pen, a[0]));
    }
  }

  /** Writing `a` then `b` paints what `a` paints, then what `b` paints from
      the colours `a` left. */
  lemma PaintAppend(a: seq<Event>, b: seq<Event>, pen: ColorPair)
    ensures Paint(a + b, pen) == Paint(a, pen) + Paint(b, PenAfter(a, pen))
    ensures PenAfter(a + b, pen) == PenAfter(b, PenAfter(a, pen))
    ensures Texts(a + b) == Texts(a) + Texts(b)
  {
    PaintConcat(a, b, pen);
    PenAfterAppend(a, b, pen);
    TextsAppend(a, b);
  }

  /** Starting from the default colours, a rule's colour writes leave the
      terminal showing exactly the rule's colours, and write no text. */
  lemma ColorEventsPen(c: ColorPair)
    ensures PenAfter(ColorEvents(c), NoColor) == c
    ensures Paint(ColorEvents(c), NoColor) == []
    ensures Texts(ColorEvents(c)) == []
  {
    var b := if c.bg.Some? then [SetColor(None, c.bg)] else [];
    var f := if c.fg.Some? then [SetColor(c.fg, None)] else [];
    PaintAppend(b, f, NoColor);
  }

  // ---------------------------------------------------------------------
  // The print-out loop.

  /** Kept entries name a rule and lie inside the line. */
  predicate Fits(line: string, rules: seq<ColorizerItem>, kept: seq<Entry>) {
    forall i | 0 <= i < |kept| :: kept[i].origin < |rules| && End(kept[i]) <= |line|
  }

  /** The gap write: a reset, then the text between `idx` and `start`. */
  function GapEvents(line: string, idx: nat, start: nat): seq<Event>
    requires idx <= |line| && start <= |line|
  {
    if start > idx then [Reset, Text(line[idx..start])] else []
  }

  /** The token write: the entry's text, then a reset. */
  function TokenEvents(line: string, e: Entry): seq<Event>
    requires End(e) <= |line|
  {
    [Text(line[e.start..End(e)]), Reset]
  }

  /** Lines 296-325 from the loop state `idx` on: for each entry, the gap
      since `idx` after a reset, then the token in the rule's colours and a
      reset; finally the tail of the line. */
  function EmitFrom(line: string, rules: seq<ColorizerItem>, kept: seq<Entry>, idx: nat): seq<Event>
    requires idx <= |line| && Fits(line, rules, kept)
    decreases |kept|
  {
    if |kept| == 0 then (if idx < |line| then [Text(line[idx..])] else [])
    else
      var e := kept[0];
      (if e.start > idx then [Reset, Text(line[idx..e.start])] else [])
      + ColorEvents(RuleColors(rules[e.origin])) + [Text(line[e.start..End(e)]), Reset]
      + EmitFrom(line, rules, kept[1..], End(e))
  }

  /** The text of the gap write. */
  function GapText(line: string, idx: nat, start: nat): (r: string)
    requires idx <= |line| && start <= |line|
    ensures |r| == if start > idx then start - idx else 0
    ensures idx <= start ==> r == line[idx..start]
  {
    if start > idx then line[idx..start] else []
  }

  /** A gap write shows its text in the default colours, whatever the
      terminal showed before: its reset comes first. A real gap leaves the
      default colours; an empty one writes nothing and changes nothing. */
  lemma GapFacts(line: string, idx: nat, start: nat, pen: ColorPair)
    requires idx <= |line| && start <= |line|
    ensures Texts(GapEvents(line, idx, start)) == GapText(line, idx, start)
    ensures Paint(GapEvents(line, idx, start), pen) == Cells(GapText(line, idx, start), NoColor)
    ensures PenAfter(GapEvents(line, idx, start), pen) == if start > idx then NoColor else pen
  {
    if start > idx {
      var gap := line[idx..start];
      var g := GapEvents(line, idx, start);
      assert g[1..] == [Text(gap)];
      assert [Text(gap)][1..] == [];
      assert Texts([Text(gap)]) == gap + Texts([]);
      assert Paint([Text(gap)], NoColor) == Cells(gap, NoColor) + Paint([], NoColor);
      assert PenAfter([Text(gap)], NoColor) == PenAfter([], NoColor);
      assert Texts(g) == [] + Texts([Text(gap)]);
      assert Paint(g, pen) == [] + Paint([Text(gap)], NoColor);
      assert PenAfter(g, pen) == PenAfter([Text(gap)], NoColor);
    }
  }

  lemma TokenFacts(line: string, e: Entry, c: ColorPair)
    requires End(e) <= |line|
    ensures Texts(TokenEvents(line, e)) == line[e.start..End(e)]
    ensures Paint(TokenEvents(line, e), c) == Cells(line[e.start..End(e)], c)
    ensures PenAfter(TokenEvents(line, e), c) == NoColor
  {
    var tok := line[e.start..End(e)];
    var t := TokenEvents(line, e);
    assert t[1..] == [Reset];
    assert [Reset][1..] == [];
    assert Texts([Reset]) == [] + Texts([]);
    assert Paint([Reset], c) == [] + Paint([], NoColor);
    assert PenAfter([Reset], c) == PenAfter([], NoColor);
    assert Texts(t) == tok + Texts([Reset]);
    assert Paint(t, c) == Cells(tok, c) + Paint([Reset], c);
    assert PenAfter(t, c) == PenAfter([Reset], c);
  }

  /** One step of the loop, split into its four parts. */
  lemma EmitStep(line: string, rules: seq<ColorizerItem>, kept: seq<Entry>, idx: nat)
    requires idx <= |line| && Fits(line, rules, kept)
    requires |kept| > 0
    ensures Fits(line, rules, kept[1..])
    ensures var e := kept[0];
      EmitFrom(line, rules, kept, idx)
      == GapEvents(line, idx, e.start) + ColorEvents(RuleColors(rules[e.origin])) + TokenEvents(line, e)
         + EmitFrom(line, rules, kept[1..], End(e))
  {
  }

  lemma Split4(a: seq<Event>, b: seq<Event>, c: seq<Event>, d: seq<Event>, pen: ColorPair)
    ensures Texts(a + b + c + d) == Texts(a) + Texts(b) + Texts(c) + Texts(d)
    ensures var p1 := PenAfter(a, pen);
      var p2 := PenAfter(b, p1);
      var p3 := PenAfter(c, p2);
      && Paint(a + b + c + d, pen) == Paint(a, pen) + Paint(b, p1) + Paint(c, p2) + Paint(d, p3)
      && PenAfter(a + b + c + d, pen) == PenAfter(d, p3)
  {
    PaintAppend(a, b, pen);
    PaintAppend(a + b, c, pen);
    PaintAppend(a + b + c, d, pen);
  }

  /** The colours the kept entries give position `p`: those of the rule of
      the first kept entry covering it, none if no entry covers it. */
  function ColorAt(rules: seq<ColorizerItem>, kept: seq<Entry>, p: nat): ColorPair
    requires forall i | 0 <= i < |kept| :: kept[i].origin < |rules|
    decreases |kept|
  {
    if |kept| == 0 then NoColor
    else if kept[0].start <= p < End(kept[0]) then RuleColors(rules[kept[0].origin])
    else ColorAt(rules, kept[1..], p)
  }

  /** A step's colour writes add no text. */
  lemma TextsOfStep(g: seq<Event>, ce: seq<Event>, t: seq<Event>, rest: seq<Event>)
    requires Texts(ce) == []
    ensures Texts(g + ce + t + rest) == Texts(g) + Texts(t) + Texts(rest)
  {
    TextsAppend(g, ce);
    TextsAppend(g + ce, t);
    TextsAppend(g + ce + t, rest);
  }

  /** One step of the loop, as text: the gap, then the token. */
  lemma EmitTextsStep(line: string, rules: seq<ColorizerItem>, kept: seq<Entry>, idx: nat)
    requires idx <= |line| && Fits(line, rules, kept)
    requires |kept| > 0
    ensures Fits(line, rules, kept[1..])
    ensures var e := kept[0];
      Texts(EmitFrom(line, rules, kept, idx))
      == GapText(line, idx, e.start) + line[e.start..End(e)] + Texts(EmitFrom(line, rules, kept[1..], End(e)))
  {
    var e := kept[0];
    var c := RuleColors(rules[e.origin]);
    var g, ce, t := GapEvents(line, idx, e.start), ColorEvents(c), TokenEvents(line, e);
    var rest := EmitFrom(line, rules, kept[1..], End(e));
    EmitStep(line, rules, kept, idx);
    assert Texts(ce) == [] by { ColorEventsPen(c); }
    TextsOfStep(g, ce, t, rest);
    assert Texts(g) == GapText(line, idx, e.start) by { GapFacts(line, idx, e.start, NoColor); }
    assert Texts(t) == line[e.start..End(e)] by { TokenFacts(line, e, c); }
  }

  /** The text written after the last kept entry. */
  lemma TailTexts(line: string, rules: seq<ColorizerItem>, idx: nat)
    requires idx <= |line|
    ensures Texts(EmitFrom(line, rules, [], idx)) == line[idx..]
  {
    if idx < |line| {
      assert Texts([Text(line[idx..])]) == line[idx..] + Texts([]);
    }
  }

  lemma Slice3(line: string, a: nat, b: nat, c: nat)
    requires a <= b <= c <= |line|
    ensures line[a..] == line[a..b] + line[b..c] + line[c..]
  {
  }

  /** When the kept entries do not overlap and start at or after `idx`, the
      text written from `idx` on is exactly the rest of the line. */
  lemma {:induction false} EmitReconstructs(line: string, rules: seq<ColorizerItem>, kept: seq<Entry>, idx: nat)
    requires idx <= |line| && Fits(line, rules, kept)
    requires Chained(kept) && (|kept| == 0 || idx <= kept[0].start)
    ensures Texts(EmitFrom(line, rules, kept, idx)) == line[idx..]
    decreases |kept|
  {
    if |kept| == 0 {
      TailTexts(line, rules, idx);
    } else {
      var e := kept[0];
      EmitTextsStep(line, rules, kept, idx);
      assert Texts(EmitFrom(line, rules, kept[1..], End(e))) == line[End(e)..] by {
        assert Chained(kept[1..]) && (|kept[1..]| == 0 || End(e) <= kept[1..][0].start);
        EmitReconstructs(line, rules, kept[1..], End(e));
      }
      Slice3(line, idx, e.start, End(e));
    }
  }

  /** Positions before the first kept entry get no colour. */
  lemma {:induction false} ColorAtBefore(rules: seq<ColorizerItem>, kept: seq<Entry>, p: nat)
    requires forall i | 0 <= i < |kept| :: kept[i].origin < |rules|
    requires Chained(kept) && (|kept| == 0 || p < kept[0].start)
    ensures ColorAt(rules, kept, p) == NoColor
    decreases |kept|
  {
    if |kept| > 0 {
      ColorAtBefore(rules, kept[1..], p);
    }
  }

  /** The cells the loop should show from `idx` on. */
  function Expected(line: string, rules: seq<ColorizerItem>, kept: seq<Entry>, idx: nat): (r: seq<Cell>)
    requires idx <= |line| && Fits(line, rules, kept)
    ensures |r| == |line| - idx
    ensures forall j | 0 <= j < |r| :: r[j] == Cell(line[idx + j], ColorAt(rules, kept, idx + j))
  {
    seq(|line| - idx, j requires 0 <= j < |line| - idx => Cell(line[idx + j], ColorAt(rules, kept, idx + j)))
  }

  lemma ExpectedStep(line: string, rules: seq<ColorizerItem>, kept: seq<Entry>, idx: nat)
    requires idx <= |line| && Fits(line, rules, kept)
    requires Chained(kept) && |kept| > 0 && idx <= kept[0].start
    ensures Fits(line, rules, kept[1..])
    ensures var e := kept[0];
      Expected(line, rules, kept, idx)
      == Cells(line[idx..e.start], NoColor) + Cells(line[e.start..End(e)], RuleColors(rules[e.origin]))
         + Expected(line, rules, kept[1..], End(e))
  {
    var e := kept[0];
    assert Fits(line, rules, kept[1..]);
    var pg := Cells(line[idx..e.start], NoColor);
    var pt := Cells(line[e.start..End(e)], RuleColors(rules[e.origin]));
    var pr := Expected(line, rules, kept[1..], End(e));
    var x := Expected(line, rules, kept, idx);
    var y := pg + pt + pr;
    assert |x| == |y|;
    forall j | 0 <= j < |x|
      ensures x[j] == y[j]
    {
      var p := idx + j;
      if p < e.start {
        assert y[j] == pg[j];
        ColorAtBefore(rules, kept[1..], p);
      } else if p < End(e) {
        assert y[j] == pt[p - e.start];
      } else {
        assert y[j] == pr[p - End(e)];
      }
    }
  }

  /** A step painted from the default colours: the gap leaves them, the
      colour writes set `c` and paint nothing, the token ends with a reset. */
  lemma PaintOfStep(g: seq<Event>, ce: seq<Event>, t: seq<Event>, rest: seq<Event>, c: ColorPair)
    requires PenAfter(g, NoColor) == NoColor
    requires Paint(ce, NoColor) == [] && PenAfter(ce, NoColor) == c
    requires PenAfter(t, c) == NoColor
    ensures Paint(g + ce + t + rest, NoColor) == Paint(g, NoColor) + Paint(t, c) + Paint(rest, NoColor)
  {
    Split4(g, ce, t, rest, NoColor);
  }

  lemma EmitPaintStep(line: string, rules: seq<ColorizerItem>, kept: seq<Entry>, idx: nat)
    requires idx <= |line| && Fits(line, rules, kept)
    requires |kept| > 0 && idx <= kept[0].start
    ensures Fits(line, rules, kept[1..])
    ensures var e := kept[0];
      Paint(EmitFrom(line, rules, kept, idx), NoColor)
      == Cells(line[idx..e.start], NoColor) + Cells(line[e.start..End(e)], RuleColors(rules[e.origin]))
         + Paint(EmitFrom(line, rules, kept[1..], End(e)), NoColor)
  {
    var e := kept[0];
    var c := RuleColors(rules[e.origin]);
    var g, ce, t := GapEvents(line, idx, e.start), ColorEvents(c), TokenEvents(line, e);
    var rest := EmitFrom(line, rules, kept[1..], End(e));
    EmitStep(line, rules, kept, idx);
    assert Paint(g, NoColor) == Cells(line[idx..e.start], NoColor) && PenAfter(g, NoColor) == NoColor by {
      GapFacts(line, idx, e.start, NoColor);
    }
    assert Paint(ce, NoColor) == [] && PenAfter(ce, NoColor) == c by { ColorEventsPen(c); }
    assert Paint(t, c) == Cells(line[e.start..End(e)], c) && PenAfter(t, c) == NoColor by { TokenFacts(line, e, c); }
    PaintOfStep(g, ce, t, rest, c);
  }

  /** The tail after the last kept entry is written in the default colours. */
  lemma TailPaint(line: string, rules: seq<ColorizerItem>, idx: nat)
    requires idx <= |line|
    ensures Paint(EmitFrom(line, rules, [], idx), NoColor) == Expected(line, rules, [], idx)
  {
    var x := Expected(line, rules, [], idx);
    assert x == Cells(line[idx..], NoColor);
    if idx < |line| {
      assert Paint([Text(line[idx..])], NoColor) == Cells(line[idx..], NoColor) + Paint([], NoColor);
    }
  }

  /** Painted from the default colours, the writes of the loop show every
      character of the rest of the line once, in order, in the colours of
      the kept entry covering it and in the default colours in the gaps. */
  lemma {:induction false} EmitPaint(line: string, rules: seq<ColorizerItem>, kept: seq<Entry>, idx: nat)
    requires idx <= |line| && Fits(line, rules, kept)
    requires Chained(kept) && (|kept| == 0 || idx <= kept[0].start)
    ensures Paint(EmitFrom(line, rules, kept, idx), NoColor) == Expected(line, rules, kept, idx)
    decreases |kept|
  {
    if |kept| == 0 {
      TailPaint(line, rules, idx);
    } else {
      var e := kept[0];
      var c := RuleColors(rules[e.origin]);
      var gap, tok := Cells(line[idx..e.start], NoColor), Cells(line[e.start..End(e)], c);
      assert Fits(line, rules, kept[1..]);
      assert Paint(EmitFrom(line, rules, kept, idx), NoColor)
          == gap + tok + Paint(EmitFrom(line, rules, kept[1..], End(e)), NoColor) by {
        EmitPaintStep(line, rules, kept, idx);
      }
      assert Paint(EmitFrom(line, rules, kept[1..], End(e)), NoColor) == Expected(line, rules, kept[1..], End(e)) by {
        assert Chained(kept[1..]) && (|kept[1..]| == 0 || End(e) <= kept[1..][0].start);
        EmitPaint(line, rules, kept[1..], End(e));
      }
      assert Expected(line, rules, kept, idx) == gap + tok + Expected(line, rules, kept[1..], End(e)) by {
        ExpectedStep(line, rules, kept, idx);
      }
    }
  }

  /** When the first kept entry leaves a gap, the loop's writes show the
      rest of the line in the same colours whatever the terminal showed
      before: the reset in front of that gap clears the inherited colours. */
  lemma EmitPaintAnyPen(line: string, rules: seq<ColorizerItem>, kept: seq<Entry>, idx: nat, pen: ColorPair)
    requires idx <= |line| && Fits(line, rules, kept)
    requires Chained(kept) && |kept| > 0 && idx < kept[0].start
    ensures Paint(EmitFrom(line, rules, kept, idx), pen) == Expected(line, rules, kept, idx)
  {
    var e := kept[0];
    var g := GapEvents(line, idx, e.start);
    var x := ColorEvents(RuleColors(rules[e.origin])) + TokenEvents(line, e);
    assert Fits(line, rules, kept[1..]);
    var rest := EmitFrom(line, rules, kept[1..], End(e));
    assert EmitFrom(line, rules, kept, idx) == g + (x + rest) by {
      EmitStep(line, rules, kept, idx);
    }
    assert Paint(g + (x + rest), pen) == Paint(g + (x + rest), NoColor) by {
      GapFacts(line, idx, e.start, pen);
      GapFacts(line, idx, e.start, NoColor);
      PaintConcat(g, x + rest, pen);
      PaintConcat(g, x + rest, NoColor);
    }
    EmitPaint(line, rules, kept, idx);
  }

  lemma {:induction false} TailKeepsPen(line: string, idx: nat, pen: ColorPair)
    requires idx <= |line|
    ensures PenAfter(EmitFrom(line, [], [], idx), pen) == pen
  {
    if idx < |line| {
      assert PenAfter([Text(line[idx..])], pen) == PenAfter([], pen);
    }
  }

  /** Whatever the terminal showed before, once at least one entry has been
      written the loop leaves the terminal at its default colours: every
      token is followed by a reset and the tail sets no colour. */
  lemma {:induction false} EmitEndsReset(line: string, rules: seq<ColorizerItem>, kept: seq<Entry>, idx: nat, pen: ColorPair)
    requires idx <= |line| && Fits(line, rules, kept)
    requires |kept| > 0
    ensures PenAfter(EmitFrom(line, rules, kept, idx), pen) == NoColor
    decreases |kept|
  {
    var e := kept[0];
    var c := RuleColors(rules[e.origin]);
    var gap := GapEvents(line, idx, e.start);
    var rest := EmitFrom(line, rules, kept[1..], End(e));
    EmitStep(line, rules, kept, idx);
    Split4(gap, ColorEvents(c), TokenEvents(line, e), rest, pen);
    TokenFacts(line, e, PenAfter(ColorEvents(c), PenAfter(gap, pen)));
    if |kept| > 1 {
      EmitEndsReset(line, rules, kept[1..], End(e), NoColor);
    } else {
      TailKeepsPen(line, End(e), NoColor);
      assert rest == EmitFrom(line, [], [], End(e));
    }
  }
}
