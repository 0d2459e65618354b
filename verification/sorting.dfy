/** The `.OrderBy(w => w.eidx)` step of src/Program.cs: a stable sort of the
    collected entries by start index. Stability is stated per key: the
    entries with any given start appear in the same order before and after. */
module StableSort {
  import opened Matches

  predicate SortedByStart(s: seq<Entry>) {
    forall i, j | 0 <= i < j < |s| :: s[i].start <= s[j].start
  }

  /** The entries of `s` whose start is `k`, in their order in `s`. */
  function WithStart(s: seq<Entry>, k: nat): seq<Entry> {
    if |s| == 0 then []
    else (if s[0].start == k then [s[0]] else []) + WithStart(s[1..], k)
  }

  /** How many leading entries of `s` start strictly before `e`. */
  function InsertPoint(e: Entry, s: seq<Entry>): (p: nat)
    ensures p <= |s|
    ensures forall i | 0 <= i < p :: s[i].start < e.start
    ensures p < |s| ==> e.start <= s[p].start
  {
    if |s| == 0 || e.start <= s[0].start then 0 else 1 + InsertPoint(e, s[1..])
  }

  /** Places `e` before the first entry that does not start before it. */
  function Insert(e: Entry, s: seq<Entry>): seq<Entry> {
    var p := InsertPoint(e, s);
    s[..p] + [e] + s[p..]
  }

  /** Where each entry of `s` lands in `Insert(e, s)`. */
  lemma InsertLayout(e: Entry, s: seq<Entry>)
    ensures var p, r := InsertPoint(e, s), Insert(e, s);
      && |r| == |s| + 1 && r[p] == e
      && (forall i | 0 <= i < p :: r[i] == s[i])
      && (forall i | p < i < |r| :: r[i] == s[i - 1])
  {
  }

  lemma InsertOrdered(e: Entry, s: seq<Entry>)
    requires SortedByStart(s)
    ensures SortedByStart(Insert(e, s))
  {
    var p := InsertPoint(e, s);
    var r := Insert(e, s);
    InsertLayout(e, s);
    forall i, j | 0 <= i < j < |r|
      ensures r[i].start <= r[j].start
    {
      if j < p {
        assert r[i] == s[i] && r[j] == s[j];
      } else if i > p {
        assert r[i] == s[i - 1] && r[j] == s[j - 1];
      } else if i == p {
        assert r[j] == s[j - 1];
      } else if j == p {
        assert r[i] == s[i];
      } else {
        assert r[i] == s[i] && r[j] == s[j - 1];
      }
    }
  }

  lemma InsertPermutes(e: Entry, s: seq<Entry>)
    ensures multiset(Insert(e, s)) == multiset(s) + multiset{e}
  {
    var p := InsertPoint(e, s);
    var a, b := s[..p], s[p..];
    assert s == a + b;
    assert multiset(a + [e] + b) == multiset(a) + multiset{e} + multiset(b);
  }

  /** Inserting into a sorted list keeps it sorted and adds exactly `e`. */
  lemma InsertSorted(e: Entry, s: seq<Entry>)
    requires SortedByStart(s)
    ensures SortedByStart(Insert(e, s))
    ensures multiset(Insert(e, s)) == multiset(s) + multiset{e}
  {
    InsertOrdered(e, s);
    InsertPermutes(e, s);
  }

  /** The stable sort by start index. */
  function SortByStart(s: seq<Entry>): (r: seq<Entry>)
    ensures SortedByStart(r)
    ensures multiset(r) == multiset(s)
  {
    if |s| == 0 then []
    else
      var t := SortByStart(s[1..]);
      InsertSorted(s[0], t);
      assert s == [s[0]] + s[1..];
      Insert(s[0], t)
  }

  lemma {:induction false} WithStartAppend(a: seq<Entry>, b: seq<Entry>, k: nat)
    ensures WithStart(a + b, k) == WithStart(a, k) + WithStart(b, k)
    decreases |a|
  {
    if |a| == 0 {
      assert a + b == b;
    } else {
      assert (a + b)[1..] == a[1..] + b;
      WithStartAppend(a[1..], b, k);
    }
  }

  lemma {:induction false} WithStartNone(s: seq<Entry>, k: nat)
    requires forall i | 0 <= i < |s| :: s[i].start != k
    ensures WithStart(s, k) == []
    decreases |s|
  {
    if |s| > 0 {
      WithStartNone(s[1..], k);
    }
  }

  lemma WithStartSingle(e: Entry, k: nat)
    ensures WithStart([e], k) == if e.start == k then [e] else []
  {
    assert [e][1..] == [];
  }

  lemma InsertWithStart(e: Entry, s: seq<Entry>, k: nat)
    ensures WithStart(Insert(e, s), k) == if e.start == k then [e] + WithStart(s, k) else WithStart(s, k)
  {
    var p := InsertPoint(e, s);
    var a, b := s[..p], s[p..];
    assert s == a + b;
    WithStartAppend(a + [e], b, k);
    WithStartAppend(a, [e], k);
    WithStartAppend(a, b, k);
    WithStartSingle(e, k);
    if e.start == k {
      assert forall i | 0 <= i < |a| :: a[i] == s[i];
      WithStartNone(a, k);
    }
  }

  /** Stability: for every start index, the entries with that start keep
      their relative order. */
  lemma {:induction false} SortByStartStable(s: seq<Entry>, k: nat)
    ensures WithStart(SortByStart(s), k) == WithStart(s, k)
    decreases |s|
  {
    if |s| > 0 {
      SortByStartStable(s[1..], k);
      InsertWithStart(s[0], SortByStart(s[1..]), k);
    }
  }

  lemma {:induction false} WithStartMember(s: seq<Entry>, k: nat)
    requires |WithStart(s, k)| > 0
    ensures WithStart(s, k)[0] in s && WithStart(s, k)[0].start == k
    decreases |s|
  {
    if s[0].start != k {
      WithStartMember(s[1..], k);
    }
  }

  lemma WithStartTail(a: seq<Entry>, b: seq<Entry>, k: nat)
    requires |a| > 0 && |b| > 0 && a[0] == b[0]
    requires WithStart(a, k) == WithStart(b, k)
    ensures WithStart(a[1..], k) == WithStart(b[1..], k)
  {
    var h := if a[0].start == k then [a[0]] else [];
    var wa, wb := WithStart(a[1..], k), WithStart(b[1..], k);
    assert WithStart(a, k) == h + wa;
    assert WithStart(b, k) == h + wb;
    assert (h + wa)[|h|..] == wa;
    assert (h + wb)[|h|..] == wb;
  }

  lemma WithStartOfHead(s: seq<Entry>)
    requires |s| > 0
    ensures WithStart(s, s[0].start) != []
  {
  }

  /** A sorted sequence is determined by its per-start subsequences: any two
      stable sorts of the same input are equal, so `SortByStart` is the
      stable sort. */
  lemma {:induction false} StableSortUnique(a: seq<Entry>, b: seq<Entry>)
    requires SortedByStart(a) && SortedByStart(b)
    requires forall k: nat :: WithStart(a, k) == WithStart(b, k)
    ensures a == b
    decreases |a| + |b|
  {
    if |a| == 0 && |b| == 0 {
    } else if |a| == 0 {
      WithStartOfHead(b);
    } else if |b| == 0 {
      WithStartOfHead(a);
    } else {
      var ka, kb := a[0].start, b[0].start;
      assert WithStart(a, ka) == [a[0]] + WithStart(a[1..], ka);
      assert WithStart(b, kb) == [b[0]] + WithStart(b[1..], kb);
      WithStartMember(b, ka);
      WithStartMember(a, kb);
      assert kb <= ka;
      assert ka <= kb;
      assert a[0] == WithStart(a, ka)[0] == WithStart(b, ka)[0] == b[0];
      forall k: nat
        ensures WithStart(a[1..], k) == WithStart(b[1..], k)
      {
        WithStartTail(a, b, k);
      }
      StableSortUnique(a[1..], b[1..]);
      assert a == [a[0]] + a[1..];
      assert b == [b[0]] + b[1..];
    }
  }

  /** Entries with equal starts are ordered by rule index. */
  predicate TiesByOrigin(s: seq<Entry>) {
    forall i, j | 0 <= i < j < |s| && s[i].start == s[j].start :: s[i].origin <= s[j].origin
  }


  lemma InsertTies(e: Entry, s: seq<Entry>)
    requires SortedByStart(s) && TiesByOrigin(s)
    requires forall i | 0 <= i < |s| :: e.origin <= s[i].origin
    ensures TiesByOrigin(Insert(e, s))
  {
    var p := InsertPoint(e, s);
    var r := Insert(e, s);
    InsertLayout(e, s);
    forall i, j | 0 <= i < j < |r| && r[i].start == r[j].start
      ensures r[i].origin <= r[j].origin
    {
      if j < p {
        assert r[i] == s[i] && r[j] == s[j];
      } else if i > p {
        assert r[i] == s[i - 1] && r[j] == s[j - 1];
      } else if i == p {
        assert r[j] == s[j - 1];
      } else if j == p {
        // r[i] starts strictly before e: excluded by the range
      } else {
        assert r[i] == s[i] && r[j] == s[j - 1];
      }
    }
  }

  lemma SortedTail(s: seq<Entry>)
    requires SortedByStart(s) && |s| > 0
    ensures SortedByStart(s[1..])
  {
    var t := s[1..];
    forall i, j | 0 <= i < j < |t|
      ensures t[i].start <= t[j].start
    {
      assert t[i] == s[i + 1] && t[j] == s[j + 1];
    }
  }

  lemma InsertFront(e: Entry, t: seq<Entry>)
    requires |t| == 0 || e.start <= t[0].start
    ensures Insert(e, t) == [e] + t
  {
    assert InsertPoint(e, t) == 0;
    assert t[..0] == [] && t[0..] == t;
  }

  /** An input already sorted by start comes out unchanged. */
  lemma {:induction false} SortSortedIdentity(s: seq<Entry>)
    requires SortedByStart(s)
    ensures SortByStart(s) == s
    decreases |s|
  {
    if |s| > 0 {
      var t := s[1..];
      SortedTail(s);
      SortSortedIdentity(t);
      InsertFront(s[0], t);
      assert s == [s[0]] + t;
    }
  }

  /** Sorting twice is sorting once. */
  lemma SortByStartIdempotent(s: seq<Entry>)
    ensures SortByStart(SortByStart(s)) == SortByStart(s)
  {
    SortSortedIdentity(SortByStart(s));
  }

  /** When the input lists rules in order, as the collection does, the
      sorted list breaks start ties by rule order. */
  lemma {:induction false} SortByStartTies(s: seq<Entry>)
    requires OriginsOrdered(s)
    ensures TiesByOrigin(SortByStart(s))
    decreases |s|
  {
    if |s| > 0 {
      SortByStartTies(s[1..]);
      var t := SortByStart(s[1..]);
      forall i | 0 <= i < |t|
        ensures s[0].origin <= t[i].origin
      {
        assert multiset(t)[t[i]] > 0;
        assert t[i] in s[1..];
      }
      InsertTies(s[0], t);
    }
  }
}
