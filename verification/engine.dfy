/** The per-line colouring of src/Program.cs (lines 231-335): filter each
    rule's matches, then write the line verbatim when nothing matched, in the
    colours of the first matching FullRow rule when there is one, and
    otherwise as interleaved gaps and coloured tokens. */
module Engine {
  import opened Options
  import opened Color
  import opened Escape
  import opened Config
  import opened Matches
  import opened StableSort
  import opened Overlap
  import opened Emit

  /** Some rule kept a match on this line. */
  predicate AnyMatch(rules: seq<ColorizerItem>, matches: seq<seq<RawMatch>>)
    requires |rules| == |matches|
  {
    exists k | 0 <= k < |rules| :: HasMatch(rules, matches, k)
  }

  /** A FullRow rule that kept a match. */
  predicate FullRowHit(rules: seq<ColorizerItem>, matches: seq<seq<RawMatch>>, k: nat)
    requires |rules| == |matches| && k < |rules|
  {
    rules[k].fullRow && HasMatch(rules, matches, k)
  }

  /** The `FirstOrDefault` search, from rule `k` on, for a FullRow rule with
      a kept match: the least such index, or none. */
  function FirstFullRowFrom(rules: seq<ColorizerItem>, matches: seq<seq<RawMatch>>, k: nat): (r: Option<nat>)
    requires |rules| == |matches| && k <= |rules|
    ensures r.Some? ==> k <= r.value < |rules| && FullRowHit(rules, matches, r.value)
    ensures r.Some? ==> forall j | k <= j < r.value :: !FullRowHit(rules, matches, j)
    ensures r.None? ==> forall j | k <= j < |rules| :: !FullRowHit(rules, matches, j)
    decreases |rules| - k
  {
    if k == |rules| then None
    else if FullRowHit(rules, matches, k) then Some(k)
    else FirstFullRowFrom(rules, matches, k + 1)
  }

  function FirstFullRow(rules: seq<ColorizerItem>, matches: seq<seq<RawMatch>>): Option<nat>
    requires |rules| == |matches|
  {
    FirstFullRowFrom(rules, matches, 0)
  }

  /** The sorted entries of the partial path. */
  function Sorted(rules: seq<ColorizerItem>, matches: seq<seq<RawMatch>>): seq<Entry>
    requires |rules| == |matches|
  {
    SortByStart(Collect(rules, matches))
  }

  /** The entries the as-written sweep keeps. */
  function Kept(rules: seq<ColorizerItem>, matches: seq<seq<RawMatch>>): seq<Entry>
    requires |rules| == |matches|
  {
    Survivors(Sorted(rules, matches))
  }

  /** The entries the intended sweep keeps. */
  function IntendedKept(rules: seq<ColorizerItem>, matches: seq<seq<RawMatch>>): seq<Entry>
    requires |rules| == |matches|
  {
    SweepFrom(Sorted(rules, matches), 0)
  }

  /** Every sorted entry names a rule and lies inside the line. */
  lemma SortedFits(line: string, rules: seq<ColorizerItem>, matches: seq<seq<RawMatch>>)
    requires WellFormed(line, rules, matches)
    ensures Fits(line, rules, Sorted(rules, matches))
  {
    var c := Collect(rules, matches);
    var q := Sorted(rules, matches);
    CollectWithinLine(line, rules, matches, 0);
    forall i | 0 <= i < |q|
      ensures q[i].origin < |rules| && End(q[i]) <= |line|
    {
      assert multiset(q)[q[i]] > 0;
      assert q[i] in c;
    }
  }

  lemma {:induction false} SurvivorsFromMembers(q: seq<Entry>, i: nat)
    requires i <= |q|
    ensures forall x | x in SurvivorsFrom(q, i) :: x in q
    decreases |q| - i
  {
    if i < |q| {
      SurvivorsFromMembers(q, i + 1);
    }
  }

  lemma {:induction false} SweepMembers(q: seq<Entry>, idx: nat)
    ensures forall x | x in SweepFrom(q, idx) :: x in q
    decreases |q|
  {
    if |q| > 0 {
      SweepMembers(q[1..], idx);
      SweepMembers(q[1..], End(q[0]));
    }
  }

  lemma KeptFits(line: string, rules: seq<ColorizerItem>, matches: seq<seq<RawMatch>>)
    requires WellFormed(line, rules, matches)
    ensures Fits(line, rules, Kept(rules, matches))
    ensures Fits(line, rules, IntendedKept(rules, matches))
  {
    var q := Sorted(rules, matches);
    SortedFits(line, rules, matches);
    SurvivorsFromMembers(q, 0);
    SweepMembers(q, 0);
    var k := Kept(rules, matches);
    forall i | 0 <= i < |k|
      ensures k[i].origin < |rules| && End(k[i]) <= |line|
    {
      assert k[i] in q;
    }
    var w := IntendedKept(rules, matches);
    forall i | 0 <= i < |w|
      ensures w[i].origin < |rules| && End(w[i]) <= |line|
    {
      assert w[i] in q;
    }
  }

  /** The dispatch of lines 241-335, the partial path writing `kept`. */
  function Dispatch(line: string, rules: seq<ColorizerItem>, matches: seq<seq<RawMatch>>, kept: seq<Entry>): (r: seq<Event>)
    requires |rules| == |matches| && Fits(line, rules, kept)
    ensures |r| > 0 && r[|r| - 1] == NewLine
  {
    if !AnyMatch(rules, matches) then [Reset, Text(line), NewLine]
    else match FirstFullRow(rules, matches)
      case Some(k) => ColorEvents(RuleColors(rules[k])) + [Text(line), Reset, NewLine]
      case None => EmitFrom(line, rules, kept, 0) + [NewLine]
  }

  /** The writes for one line, as the program makes them. */
  function LineEvents(line: string, rules: seq<ColorizerItem>, matches: seq<seq<RawMatch>>): (r: seq<Event>)
    requires WellFormed(line, rules, matches)
    ensures |r| > 0 && r[|r| - 1] == NewLine
  {
    KeptFits(line, rules, matches);
    Dispatch(line, rules, matches, Kept(rules, matches))
  }

  /** The writes for one line with the intended sweep. */
  function IntendedLineEvents(line: string, rules: seq<ColorizerItem>, matches: seq<seq<RawMatch>>): seq<Event>
    requires WellFormed(line, rules, matches)
  {
    KeptFits(line, rules, matches);
    Dispatch(line, rules, matches, IntendedKept(rules, matches))
  }

  /** The colours each character of the line should show: none when no rule
      matched, the first matching FullRow rule's everywhere when there is
      one, and otherwise those of the kept entry covering the character. */
  function LineCells(line: string, rules: seq<ColorizerItem>, matches: seq<seq<RawMatch>>, kept: seq<Entry>): seq<Cell>
    requires |rules| == |matches| && Fits(line, rules, kept)
  {
    if !AnyMatch(rules, matches) then Cells(line, NoColor)
    else match FirstFullRow(rules, matches)
      case Some(k) => Cells(line, RuleColors(rules[k]))
      case None => Expected(line, rules, kept, 0)
  }

  // ---------------------------------------------------------------------
  // Properties of one line.

  /** On the partial path at least one entry is written: some rule matched,
      so the collection is not empty, and the sweep keeps the first entry. */
  lemma PartialPathNonEmpty(rules: seq<ColorizerItem>, matches: seq<seq<RawMatch>>)
    requires |rules| == |matches| && AnyMatch(rules, matches)
    ensures |Sorted(rules, matches)| > 0
    ensures |Kept(rules, matches)| > 0 && |IntendedKept(rules, matches)| > 0
  {
    var c := Collect(rules, matches);
    var q := Sorted(rules, matches);
    CollectEmptyIff(rules, matches, 0);
    assert |c| > 0;
    assert |q| == |multiset(q)| == |multiset(c)| == |c|;
    FirstSurvives(q);
    var w := IntendedKept(rules, matches);
    assert w == [q[0]] + SweepFrom(q[1..], End(q[0]));
  }

  lemma DispatchParts(line: string, rules: seq<ColorizerItem>, matches: seq<seq<RawMatch>>, kept: seq<Entry>, k: nat)
    requires |rules| == |matches| && Fits(line, rules, kept)
    requires AnyMatch(rules, matches) && FirstFullRow(rules, matches) == Some(k)
    ensures k < |rules|
    ensures Dispatch(line, rules, matches, kept) == ColorEvents(RuleColors(rules[k])) + ([Text(line)] + [Reset, NewLine])
  {
  }

  lemma FullRowFacts(line: string, c: ColorPair, pen: ColorPair)
    ensures Texts(ColorEvents(c) + ([Text(line)] + [Reset, NewLine])) == line
    ensures Paint(ColorEvents(c) + ([Text(line)] + [Reset, NewLine]), NoColor) == Cells(line, c)
    ensures PenAfter(ColorEvents(c) + ([Text(line)] + [Reset, NewLine]), pen) == NoColor
  {
    var tail := [Reset, NewLine];
    ColorEventsPen(c);
    PaintAppend(ColorEvents(c), [Text(line)] + tail, NoColor);
    PaintAppend(ColorEvents(c), [Text(line)] + tail, pen);
    PaintAppend([Text(line)], tail, c);
    PaintAppend([Text(line)], tail, PenAfter(ColorEvents(c), pen));
    assert tail[1..] == [NewLine] && [NewLine][1..] == [];
    assert Paint([Text(line)], c) == Cells(line, c) + Paint([], c);
  }

  lemma NoMatchFacts(line: string, pen: ColorPair)
    ensures Texts([Reset, Text(line), NewLine]) == line
    ensures Paint([Reset, Text(line), NewLine], pen) == Cells(line, NoColor)
    ensures PenAfter([Reset, Text(line), NewLine], pen) == NoColor
  {
    var evs := [Reset, Text(line), NewLine];
    var t := [Text(line), NewLine];
    assert evs[1..] == t && t[1..] == [NewLine] && [NewLine][1..] == [];
    assert Texts([NewLine]) == [] && Paint([NewLine], NoColor) == [] && PenAfter([NewLine], NoColor) == NoColor;
    assert Texts(t) == line + Texts([NewLine]);
    assert Paint(t, NoColor) == Cells(line, NoColor) + Paint([NewLine], NoColor);
    assert PenAfter(t, NoColor) == PenAfter([NewLine], NoColor);
    assert Texts(evs) == [] + Texts(t);
    assert Paint(evs, pen) == [] + Paint(t, NoColor);
    assert PenAfter(evs, pen) == PenAfter(t, NoColor);
  }

  lemma PartialFacts(line: string, rules: seq<ColorizerItem>, kept: seq<Entry>, pen: ColorPair)
    requires Fits(line, rules, kept) && |kept| > 0
    ensures PenAfter(EmitFrom(line, rules, kept, 0) + [NewLine], pen) == NoColor
    ensures Texts(EmitFrom(line, rules, kept, 0) + [NewLine]) == Texts(EmitFrom(line, rules, kept, 0))
    ensures Paint(EmitFrom(line, rules, kept, 0) + [NewLine], NoColor) == Paint(EmitFrom(line, rules, kept, 0), NoColor)
  {
    var out := EmitFrom(line, rules, kept, 0);
    PaintAppend(out, [NewLine], pen);
    PaintAppend(out, [NewLine], NoColor);
    EmitEndsReset(line, rules, kept, 0, pen);
  }

  /** Every line leaves the terminal at its default colours, whatever the
      terminal showed before it: the no-match path starts with a reset, the
      FullRow path ends with one, and on the partial path every token is
      followed by one. */
  lemma LineEndsReset(line: string, rules: seq<ColorizerItem>, matches: seq<seq<RawMatch>>, pen: ColorPair)
    requires WellFormed(line, rules, matches)
    ensures PenAfter(LineEvents(line, rules, matches), pen) == NoColor
    ensures PenAfter(IntendedLineEvents(line, rules, matches), pen) == NoColor
  {
    KeptFits(line, rules, matches);
    if !AnyMatch(rules, matches) {
      NoMatchFacts(line, pen);
    } else if FirstFullRow(rules, matches).Some? {
      var k := FirstFullRow(rules, matches).value;
      DispatchParts(line, rules, matches, Kept(rules, matches), k);
      DispatchParts(line, rules, matches, IntendedKept(rules, matches), k);
      FullRowFacts(line, RuleColors(rules[k]), pen);
    } else {
      PartialPathNonEmpty(rules, matches);
      PartialFacts(line, rules, Kept(rules, matches), pen);
      PartialFacts(line, rules, IntendedKept(rules, matches), pen);
    }
  }

  /** The line is written once, in order, each character in the colours
      `LineCells` gives it, whenever the kept entries do not overlap. */
  lemma DispatchShows(line: string, rules: seq<ColorizerItem>, matches: seq<seq<RawMatch>>, kept: seq<Entry>)
    requires |rules| == |matches| && Fits(line, rules, kept)
    requires Chained(kept)
    ensures Texts(Dispatch(line, rules, matches, kept)) == line
    ensures Paint(Dispatch(line, rules, matches, kept), NoColor) == LineCells(line, rules, matches, kept)
  {
    if !AnyMatch(rules, matches) {
      NoMatchFacts(line, NoColor);
    } else if FirstFullRow(rules, matches).Some? {
      var k := FirstFullRow(rules, matches).value;
      DispatchParts(line, rules, matches, kept, k);
      FullRowFacts(line, RuleColors(rules[k]), NoColor);
    } else {
      var out := EmitFrom(line, rules, kept, 0);
      PaintAppend(out, [NewLine], NoColor);
      EmitReconstructs(line, rules, kept, 0);
      EmitPaint(line, rules, kept, 0);
      assert Texts([NewLine]) == [] && Paint([NewLine], PenAfter(out, NoColor)) == [];
    }
  }

  /** As written: when the kept entries happen not to overlap, the text
      written for the line is the line, and each character shows the colours
      of the kept entry covering it (or of the FullRow rule, or none). */
  lemma LineReconstructs(line: string, rules: seq<ColorizerItem>, matches: seq<seq<RawMatch>>)
    requires WellFormed(line, rules, matches)
    requires Chained(Kept(rules, matches))
    ensures Texts(LineEvents(line, rules, matches)) == line
    ensures Fits(line, rules, Kept(rules, matches))
    ensures Paint(LineEvents(line, rules, matches), NoColor) == LineCells(line, rules, matches, Kept(rules, matches))
  {
    KeptFits(line, rules, matches);
    DispatchShows(line, rules, matches, Kept(rules, matches));
  }

  /** With the intended sweep the line is always written exactly once, each
      character in the colours of the kept entry covering it. */
  lemma IntendedReconstructs(line: string, rules: seq<ColorizerItem>, matches: seq<seq<RawMatch>>)
    requires WellFormed(line, rules, matches)
    ensures Texts(IntendedLineEvents(line, rules, matches)) == line
    ensures Fits(line, rules, IntendedKept(rules, matches))
    ensures Paint(IntendedLineEvents(line, rules, matches), NoColor)
         == LineCells(line, rules, matches, IntendedKept(rules, matches))
  {
    KeptFits(line, rules, matches);
    SweepChained(Sorted(rules, matches), 0);
    DispatchShows(line, rules, matches, IntendedKept(rules, matches));
  }

  /** A line no rule matched is written after a reset, verbatim, with a newline. */
  lemma NoMatchLine(line: string, rules: seq<ColorizerItem>, matches: seq<seq<RawMatch>>)
    requires WellFormed(line, rules, matches)
    requires forall k | 0 <= k < |rules| :: |FilterMatches(rules[k], matches[k])| == 0
    ensures LineEvents(line, rules, matches) == [Reset, Text(line), NewLine]
    ensures |Collect(rules, matches)| == 0
  {
    assert !AnyMatch(rules, matches);
    CollectEmptyIff(rules, matches, 0);
  }

  /** On the console, such a line is the reset sequence, the line and the
      line terminator. */
  lemma NoMatchRendered(line: string, rules: seq<ColorizerItem>, matches: seq<seq<RawMatch>>, nl: string)
    requires WellFormed(line, rules, matches)
    requires forall k | 0 <= k < |rules| :: |FilterMatches(rules[k], matches[k])| == 0
    ensures Render(LineEvents(line, rules, matches), nl) == ResetCode + line + nl
  {
    NoMatchLine(line, rules, matches);
    RenderAppend([Reset], [Text(line), NewLine], nl);
    RenderAppend([Text(line)], [NewLine], nl);
    assert [Reset] + [Text(line), NewLine] == [Reset, Text(line), NewLine];
    assert [Text(line)] + [NewLine] == [Text(line), NewLine];
    assert Render([Reset], nl) == ResetCode + Render([], nl);
    assert Render([Text(line)], nl) == line + Render([], nl);
    assert Render([NewLine], nl) == nl + Render([], nl);
  }

  /** FullRow precedence: when FullRow rule `k` is the first FullRow rule
      with a match, the line is written whole, every colour write carries
      only rule `k`'s colours, and every character shows rule `k`'s colours;
      no earlier rule is a matching FullRow rule. */
  lemma FullRowPrecedence(line: string, rules: seq<ColorizerItem>, matches: seq<seq<RawMatch>>, k: nat)
    requires WellFormed(line, rules, matches)
    requires k < |rules| && FullRowHit(rules, matches, k)
    requires forall j | 0 <= j < k :: !FullRowHit(rules, matches, j)
    ensures var evs := LineEvents(line, rules, matches);
      && Texts(evs) == line
      && Paint(evs, NoColor) == Cells(line, RuleColors(rules[k]))
      && forall i | 0 <= i < |evs| && evs[i].SetColor? ::
           (evs[i].fg.None? || evs[i].fg == ParseColor(rules[k].foreground)) &&
           (evs[i].bg.None? || evs[i].bg == ParseColor(rules[k].background))
  {
    assert AnyMatch(rules, matches) by {
      assert HasMatch(rules, matches, k);
    }
    var f := FirstFullRow(rules, matches);
    assert f == Some(k);
    KeptFits(line, rules, matches);
    var c := RuleColors(rules[k]);
    DispatchParts(line, rules, matches, Kept(rules, matches), k);
    FullRowFacts(line, c, NoColor);
    var evs := LineEvents(line, rules, matches);
    var ce := ColorEvents(c);
    forall i | 0 <= i < |evs| && evs[i].SetColor?
      ensures (evs[i].fg.None? || evs[i].fg == c.fg) && (evs[i].bg.None? || evs[i].bg == c.bg)
    {
      assert i < |ce|;
      assert evs[i] == ce[i];
    }
  }

  /** The partial path sorts every collected entry, and only those, by start;
      equal starts keep the order of collection, which is rule order. */
  lemma PartialPathOrder(rules: seq<ColorizerItem>, matches: seq<seq<RawMatch>>)
    requires |rules| == |matches|
    ensures SortedByStart(Sorted(rules, matches))
    ensures multiset(Sorted(rules, matches)) == multiset(Collect(rules, matches))
    ensures forall k: nat :: WithStart(Sorted(rules, matches), k) == WithStart(Collect(rules, matches), k)
    ensures TiesByOrigin(Sorted(rules, matches))
  {
    forall k: nat
      ensures WithStart(Sorted(rules, matches), k) == WithStart(Collect(rules, matches), k)
    {
      SortByStartStable(Collect(rules, matches), k);
    }
    CollectOrdered(rules, matches, 0);
    SortByStartTies(Collect(rules, matches));
  }

  // ---------------------------------------------------------------------
  // The as-written sweep on a concrete line.

  /** Three plain rules on `abcdefgh`: matches `abcde`, `b` and `de`. */
  function OverlapRules(): seq<ColorizerItem> {
    [DefaultItem(), DefaultItem(), DefaultItem()]
  }

  function OverlapMatches(): seq<seq<RawMatch>> {
    [[RawMatch(0, 5, 1, 0, 0)], [RawMatch(1, 1, 1, 0, 0)], [RawMatch(3, 2, 1, 0, 0)]]
  }

  lemma OverlapFiltered(m: RawMatch)
    ensures FilterMatches(DefaultItem(), [m]) == [m]
  {
    assert [m][1..] == [];
  }

  lemma OverlapCollect()
    ensures Collect(OverlapRules(), OverlapMatches()) == [Entry(0, 5, 0), Entry(1, 1, 1), Entry(3, 2, 2)]
  {
    var rules, matches := OverlapRules(), OverlapMatches();
    OverlapFiltered(RawMatch(0, 5, 1, 0, 0));
    OverlapFiltered(RawMatch(1, 1, 1, 0, 0));
    OverlapFiltered(RawMatch(3, 2, 1, 0, 0));
    assert CollectFrom(rules, matches, 3) == [];
    assert CollectFrom(rules, matches, 2) == [Entry(3, 2, 2)];
    assert CollectFrom(rules, matches, 1) == [Entry(1, 1, 1), Entry(3, 2, 2)];
  }

  lemma OverlapSort()
    ensures SortByStart([Entry(0, 5, 0), Entry(1, 1, 1), Entry(3, 2, 2)])
         == [Entry(0, 5, 0), Entry(1, 1, 1), Entry(3, 2, 2)]
  {
    SortSortedIdentity([Entry(0, 5, 0), Entry(1, 1, 1), Entry(3, 2, 2)]);
  }

  lemma OverlapSorted()
    ensures Sorted(OverlapRules(), OverlapMatches()) == [Entry(0, 5, 0), Entry(1, 1, 1), Entry(3, 2, 2)]
  {
    OverlapCollect();
    OverlapSort();
  }

  lemma OverlapWellFormed()
    ensures WellFormed("abcdefgh", OverlapRules(), OverlapMatches())
  {
    var matches := OverlapMatches();
    forall k, m | 0 <= k < |matches| && m in matches[k]
      ensures WithinLine("abcdefgh", m)
    {
      assert k == 0 || k == 1 || k == 2;
    }
  }

  lemma OverlapEmit(line: string, rules: seq<ColorizerItem>)
    requires line == "abcdefgh" && rules == OverlapRules()
    requires Fits(line, rules, [Entry(0, 5, 0), Entry(3, 2, 2)])
    ensures Texts(EmitFrom(line, rules, [Entry(0, 5, 0), Entry(3, 2, 2)], 0) + [NewLine]) == "abcdedefgh"
  {
    var kept := [Entry(0, 5, 0), Entry(3, 2, 2)];
    var out := EmitFrom(line, rules, kept, 0);
    var rest := EmitFrom(line, rules, kept[1..], 5);
    assert Texts(out) == line[0..5] + Texts(rest) by {
      EmitTextsStep(line, rules, kept, 0);
    }
    assert Texts(rest) == line[3..5] + line[5..] by {
      assert kept[1..][1..] == [];
      EmitTextsStep(line, rules, kept[1..], 5);
      TailTexts(line, rules, 5);
    }
    assert Texts(out + [NewLine]) == Texts(out) by {
      TextsAppend(out, [NewLine]);
      assert Texts([NewLine]) == [];
    }
    assert line[0..5] + line[3..5] + line[5..] == "abcdedefgh";
  }

  lemma OverlapPartial()
    ensures AnyMatch(OverlapRules(), OverlapMatches())
    ensures FirstFullRow(OverlapRules(), OverlapMatches()) == None
  {
    var rules, matches := OverlapRules(), OverlapMatches();
    OverlapFiltered(RawMatch(0, 5, 1, 0, 0));
    assert HasMatch(rules, matches, 0);
    DefaultItemDefaults();
    assert forall j | 0 <= j < 3 :: !FullRowHit(rules, matches, j);
  }

  /** The as-written sweep keeps `de` although it overlaps `abcde`: the
      dropped `b` pulled the running index back to 2. The line is then
      written as `abcdedefgh`, not `abcdefgh`. */
  lemma OverlapBreaksReconstruction()
    ensures WellFormed("abcdefgh", OverlapRules(), OverlapMatches())
    ensures Kept(OverlapRules(), OverlapMatches()) == [Entry(0, 5, 0), Entry(3, 2, 2)]
    ensures Texts(LineEvents("abcdefgh", OverlapRules(), OverlapMatches())) == "abcdedefgh"
  {
    var line, rules, matches := "abcdefgh", OverlapRules(), OverlapMatches();
    OverlapWellFormed();
    OverlapSorted();
    OverlapSurvives();
    var kept := [Entry(0, 5, 0), Entry(3, 2, 2)];
    assert Kept(rules, matches) == kept;
    OverlapPartial();
    KeptFits(line, rules, matches);
    assert LineEvents(line, rules, matches) == EmitFrom(line, rules, kept, 0) + [NewLine];
    OverlapEmit(line, rules);
  }

  // ---------------------------------------------------------------------
  // What the per-line logic reads of a rule.

  lemma {:induction false} FilterSameBehaviour(a: ColorizerItem, b: ColorizerItem, ms: seq<RawMatch>)
    requires SameBehaviour(a, b)
    ensures FilterMatches(a, ms) == FilterMatches(b, ms)
    decreases |ms|
  {
    if |ms| > 0 {
      FilterSameBehaviour(a, b, ms[1..]);
    }
  }

  predicate AllSameBehaviour(a: seq<ColorizerItem>, b: seq<ColorizerItem>) {
    |a| == |b| && forall k | 0 <= k < |a| :: SameBehaviour(a[k], b[k])
  }

  lemma {:induction false} CollectSameBehaviour(a: seq<ColorizerItem>, b: seq<ColorizerItem>, matches: seq<seq<RawMatch>>, k: nat)
    requires AllSameBehaviour(a, b) && |a| == |matches| && k <= |a|
    ensures CollectFrom(a, matches, k) == CollectFrom(b, matches, k)
    ensures forall j | k <= j < |a| :: HasMatch(a, matches, j) == HasMatch(b, matches, j)
    decreases |a| - k
  {
    if k < |a| {
      CollectSameBehaviour(a, b, matches, k + 1);
      FilterSameBehaviour(a[k], b[k], matches[k]);
      var fa, fb := FilterMatches(a[k], matches[k]), FilterMatches(b[k], matches[k]);
      assert RuleEntries(k, a[k], matches[k]) == RuleEntries(k, b[k], matches[k]) by {
        assert forall i | 0 <= i < |fa| :: Effective(a[k], fa[i], k) == Effective(b[k], fb[i], k);
      }
    }
  }

  lemma {:induction false} EmitSameBehaviour(line: string, a: seq<ColorizerItem>, b: seq<ColorizerItem>, kept: seq<Entry>, idx: nat)
    requires AllSameBehaviour(a, b) && idx <= |line| && Fits(line, a, kept)
    ensures Fits(line, b, kept)
    ensures EmitFrom(line, a, kept, idx) == EmitFrom(line, b, kept, idx)
    decreases |kept|
  {
    if |kept| > 0 {
      EmitSameBehaviour(line, a, b, kept[1..], End(kept[0]));
      assert RuleColors(a[kept[0].origin]) == RuleColors(b[kept[0].origin]);
    }
  }

  /** The per-line logic reads only a rule's colours, GroupMatch and
      FullRow: two rule lists that differ only in `note`, `regex` or
      `ignoreCase` write the same events for the same matches. In
      particular `note` is a label only. */
  lemma NoteNeverRead(line: string, a: seq<ColorizerItem>, b: seq<ColorizerItem>, matches: seq<seq<RawMatch>>)
    requires WellFormed(line, a, matches) && AllSameBehaviour(a, b)
    ensures WellFormed(line, b, matches)
    ensures LineEvents(line, a, matches) == LineEvents(line, b, matches)
  {
    CollectSameBehaviour(a, b, matches, 0);
    assert AnyMatch(a, matches) == AnyMatch(b, matches);
    assert forall j | 0 <= j < |a| :: FullRowHit(a, matches, j) == FullRowHit(b, matches, j);
    assert FirstFullRow(a, matches) == FirstFullRow(b, matches) by {
      FirstFullRowSame(a, b, matches, 0);
    }
    assert Kept(a, matches) == Kept(b, matches);
    KeptFits(line, a, matches);
    EmitSameBehaviour(line, a, b, Kept(a, matches), 0);
    if FirstFullRow(a, matches).Some? {
      var k := FirstFullRow(a, matches).value;
      assert RuleColors(a[k]) == RuleColors(b[k]);
    }
  }

  lemma {:induction false} FirstFullRowSame(a: seq<ColorizerItem>, b: seq<ColorizerItem>, matches: seq<seq<RawMatch>>, k: nat)
    requires |a| == |b| == |matches| && k <= |a|
    requires forall j | 0 <= j < |a| :: FullRowHit(a, matches, j) == FullRowHit(b, matches, j)
    ensures FirstFullRowFrom(a, matches, k) == FirstFullRowFrom(b, matches, k)
    decreases |a| - k
  {
    if k < |a| {
      FirstFullRowSame(a, b, matches, k + 1);
    }
  }

  /** A rule built without values keeps every match, colours its whole
      match, and writes no colour around its tokens. */
  lemma DefaultItemBehaviour(m: RawMatch, k: nat)
    ensures Keep(DefaultItem(), m)
    ensures Effective(DefaultItem(), m, k) == Entry(m.index, m.length, k)
    ensures ColorEvents(RuleColors(DefaultItem())) == []
  {
    DefaultItemDefaults();
  }

  // ---------------------------------------------------------------------
  // A worked line.

  /** A GroupMatch rule `\[(\d+)\]` with a red foreground. */
  function PidRule(): ColorizerItem {
    ColorizerItem(None, "FF0000", "", "\\[(\\d+)\\]", true, false, false)
  }

  /** The rule's one match on `proc[42] started`: `[42]` at 4, group 1 `42` at 5. */
  function PidMatches(): seq<seq<RawMatch>> {
    [[RawMatch(4, 4, 2, 5, 2)]]
  }

  lemma PidPartial()
    ensures WellFormed("proc[42] started", [PidRule()], PidMatches())
    ensures AnyMatch([PidRule()], PidMatches()) && FirstFullRow([PidRule()], PidMatches()) == None
    ensures Kept([PidRule()], PidMatches()) == [Entry(5, 2, 0)]
  {
    var rules, matches := [PidRule()], PidMatches();
    var m := RawMatch(4, 4, 2, 5, 2);
    assert [m][1..] == [];
    assert FilterMatches(PidRule(), [m]) == [m];
    assert HasMatch(rules, matches, 0);
    assert CollectFrom(rules, matches, 1) == [];
    assert Collect(rules, matches) == [Entry(5, 2, 0)];
    assert [Entry(5, 2, 0)][1..] == [];
    assert InsertPoint(Entry(5, 2, 0), []) == 0;
    assert Sorted(rules, matches) == [Entry(5, 2, 0)];
  }

  /** The writes of the print-out loop for the worked line. */
  lemma PidEmit(line: string, rules: seq<ColorizerItem>)
    requires line == "proc[42] started" && rules == [PidRule()]
    requires Fits(line, rules, [Entry(5, 2, 0)])
    ensures EmitFrom(line, rules, [Entry(5, 2, 0)], 0)
         == [Reset, Text("proc["), SetColor(Some(Rgb(255, 0, 0)), None), Text("42"), Reset, Text("] started")]
  {
    var kept := [Entry(5, 2, 0)];
    var e := kept[0];
    var g, ce, t := GapEvents(line, 0, 5), ColorEvents(RuleColors(rules[0])), TokenEvents(line, e);
    var rest := EmitFrom(line, rules, kept[1..], 7);
    assert EmitFrom(line, rules, kept, 0) == g + ce + t + rest by {
      EmitStep(line, rules, kept, 0);
    }
    assert g == [Reset, Text("proc[")] by {
      assert line[0..5] == "proc[";
    }
    assert ce == [SetColor(Some(Rgb(255, 0, 0)), None)] by {
      ExampleRed();
      assert RuleColors(PidRule()) == ColorPair(Some(Rgb(255, 0, 0)), None);
    }
    assert t == [Text("42"), Reset] by {
      assert line[5..7] == "42";
    }
    assert rest == [Text("] started")] by {
      assert kept[1..] == [];
      assert line[7..] == "] started";
    }
  }

  /** The group is written red between uncoloured `proc[` and `] started`. */
  lemma PidExample()
    ensures LineEvents("proc[42] started", [PidRule()], PidMatches())
         == [Reset, Text("proc["), SetColor(Some(Rgb(255, 0, 0)), None), Text("42"), Reset, Text("] started"), NewLine]
  {
    var line, rules, matches := "proc[42] started", [PidRule()], PidMatches();
    PidPartial();
    KeptFits(line, rules, matches);
    assert LineEvents(line, rules, matches) == EmitFrom(line, rules, [Entry(5, 2, 0)], 0) + [NewLine];
    PidEmit(line, rules);
  }
}
