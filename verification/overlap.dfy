/** The overlap-removal sweep of src/Program.cs over the sorted entries.
    As written, the running index becomes the end of EVERY entry visited,
    removed or not, so an entry is kept exactly when it does not start before
    the end of its immediate predecessor in the sorted list. The sweep the
    comment "remove overlapped matches" intends advances only over kept
    entries; it is modelled beside the as-written one. */
module Overlap {
  import opened Matches

  /** Each entry ends no later than the next one starts. */
  predicate Chained(s: seq<Entry>) {
    forall i | 0 <= i && i + 1 < |s| :: End(s[i]) <= s[i + 1].start
  }

  /** The as-written test for entry `i` of the sorted list. */
  predicate Survives(q: seq<Entry>, i: nat)
    requires i < |q|
  {
    i == 0 || End(q[i - 1]) <= q[i].start
  }

  /** The surviving entries from index `i` on. */
  function SurvivorsFrom(q: seq<Entry>, i: nat): seq<Entry>
    requires i <= |q|
    decreases |q| - i
  {
    if i == |q| then [] else (if Survives(q, i) then [q[i]] else []) + SurvivorsFrom(q, i + 1)
  }

  /** The list that the sweep leaves, as written. */
  function Survivors(q: seq<Entry>): seq<Entry> {
    SurvivorsFrom(q, 0)
  }

  lemma {:induction false} AllSurviveFrom(q: seq<Entry>, i: nat)
    requires i <= |q|
    requires forall j | i <= j < |q| :: Survives(q, j)
    ensures SurvivorsFrom(q, i) == q[i..]
    decreases |q| - i
  {
    if i < |q| {
      AllSurviveFrom(q, i + 1);
      assert q[i..] == [q[i]] + q[i + 1..];
    }
  }

  /** The sweep of lines 275-292, literally: first mark, with a running
      index, every entry starting before the end of the entry visited just
      before it; then, if anything was marked, drop the marked entries. */
  method RemoveOverlaps(q: seq<Entry>) returns (kept: seq<Entry>)
    ensures kept == Survivors(q)
  {
    var idx := 0;
    var toRemove: seq<nat> := [];
    for si := 0 to |q|
      invariant idx == if si == 0 then 0 else End(q[si - 1])
      invariant forall j: nat :: j in toRemove <==> j < si && !Survives(q, j)
    {
      var s := q[si];
      if s.start < idx {
        toRemove := toRemove + [si];
      }
      idx := s.start + s.len;
    }
    if |toRemove| > 0 {
      kept := [];
      for i := 0 to |q|
        invariant kept + SurvivorsFrom(q, i) == Survivors(q)
      {
        if i !in toRemove {
          kept := kept + [q[i]];
        }
      }
    } else {
      kept := q;
      AllSurviveFrom(q, 0);
    }
  }

  /** The kept list is an order-preserving subsequence of the sorted list. */
  lemma {:induction false} SurvivorsSubseq(q: seq<Entry>, i: nat)
    requires i <= |q|
    ensures IsSubseq(SurvivorsFrom(q, i), q[i..])
    decreases |q| - i
  {
    if i < |q| {
      SurvivorsSubseq(q, i + 1);
      var rest := SurvivorsFrom(q, i + 1);
      assert q[i..][1..] == q[i + 1..];
      if Survives(q, i) {
        assert SurvivorsFrom(q, i) == [q[i]] + rest;
        assert ([q[i]] + rest)[1..] == rest;
      } else {
        assert SurvivorsFrom(q, i) == rest;
      }
    }
  }

  /** The first sorted entry is always kept. */
  lemma FirstSurvives(q: seq<Entry>)
    requires |q| > 0
    ensures |Survivors(q)| > 0 && Survivors(q)[0] == q[0]
  {
  }

  /** On a list that already has no overlaps, the sweep removes nothing. */
  lemma ChainedSurvives(q: seq<Entry>)
    requires Chained(q)
    ensures Survivors(q) == q
  {
    AllSurviveFrom(q, 0);
  }

  // ---------------------------------------------------------------------
  // The intended sweep.

  /** Drops the entries that start before `idx`, the end of the last KEPT entry. */
  function SweepFrom(q: seq<Entry>, idx: nat): seq<Entry>
    decreases |q|
  {
    if |q| == 0 then []
    else if q[0].start < idx then SweepFrom(q[1..], idx)
    else [q[0]] + SweepFrom(q[1..], End(q[0]))
  }

  /** The intended sweep leaves no overlaps, and keeps only entries at or
      after the starting index. */
  lemma {:induction false} SweepChained(q: seq<Entry>, idx: nat)
    ensures Chained(SweepFrom(q, idx))
    ensures forall i | 0 <= i < |SweepFrom(q, idx)| :: idx <= SweepFrom(q, idx)[i].start
    decreases |q|
  {
    if |q| > 0 {
      SweepChained(q[1..], idx);
      SweepChained(q[1..], End(q[0]));
    }
  }

  /** The intended sweep also keeps an order-preserving subsequence. */
  lemma {:induction false} SweepSubseq(q: seq<Entry>, idx: nat)
    ensures IsSubseq(SweepFrom(q, idx), q)
    decreases |q|
  {
    if |q| > 0 {
      SweepSubseq(q[1..], idx);
      SweepSubseq(q[1..], End(q[0]));
    }
  }

  /** On a list without overlaps both sweeps keep everything. */
  lemma {:induction false} ChainedSweep(q: seq<Entry>, idx: nat)
    requires Chained(q) && (|q| == 0 || idx <= q[0].start)
    ensures SweepFrom(q, idx) == q
    decreases |q|
  {
    if |q| > 0 {
      ChainedSweep(q[1..], End(q[0]));
      assert q == [q[0]] + q[1..];
    }
  }

  /** A dropped entry shorter than its predecessor pulls the running index
      back, so an entry overlapping the first one survives the as-written
      sweep; the intended sweep drops it. */
  lemma OverlapSurvives()
    ensures var q := [Entry(0, 5, 0), Entry(1, 1, 1), Entry(3, 2, 2)];
      && Survivors(q) == [Entry(0, 5, 0), Entry(3, 2, 2)]
      && !Chained(Survivors(q))
      && SweepFrom(q, 0) == [Entry(0, 5, 0)]
  {
    var q := [Entry(0, 5, 0), Entry(1, 1, 1), Entry(3, 2, 2)];
    assert !Survives(q, 1) && Survives(q, 2);
    assert SurvivorsFrom(q, 2) == [q[2]];
    assert SurvivorsFrom(q, 1) == [q[2]];
    var s := Survivors(q);
    assert s[0] == Entry(0, 5, 0) && s[1] == Entry(3, 2, 2);
    assert q[1..][1..] == [q[2]];
  }
}
