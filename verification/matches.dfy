/** The match collector of src/Program.cs: which raw regex matches a rule
    keeps, the span each kept match colours, and the flat list of spans
    gathered rule by rule. */
module Matches {
  import opened Config

  /** One regex match as the regex engine reports it: the whole match, the
      number of groups of the pattern (group 0 included) and capture group 1
      (index 0, length 0 when that group did not take part). */
  datatype RawMatch = RawMatch(index: nat, length: nat, groupCount: nat, groupIndex: nat, groupLength: nat)

  /** What the regex engine guarantees: both spans lie inside the line. */
  predicate WithinLine(line: string, m: RawMatch) {
    m.index + m.length <= |line| && m.groupIndex + m.groupLength <= |line|
  }

  /** A raw match for every rule, every one inside the line. */
  predicate WellFormed(line: string, rules: seq<ColorizerItem>, matches: seq<seq<RawMatch>>) {
    |rules| == |matches| &&
    forall k, m | 0 <= k < |matches| && m in matches[k] :: WithinLine(line, m)
  }

  /** The `.Where` filter: with GroupMatch set, only patterns with a capture group count. */
  predicate Keep(rule: ColorizerItem, m: RawMatch) {
    !rule.groupMatch || m.groupCount > 1
  }

  /** The kept matches of one rule, in the order the regex engine found them. */
  function FilterMatches(rule: ColorizerItem, ms: seq<RawMatch>): (r: seq<RawMatch>)
    ensures |r| <= |ms|
  {
    if |ms| == 0 then []
    else
      var rest := FilterMatches(rule, ms[1..]);
      if Keep(rule, ms[0]) then [ms[0]] + rest else rest
  }

  /** A match is kept exactly when GroupMatch is off or the pattern has a
      capture group, and a kept match is kept as often as it occurs. */
  lemma {:induction false} FilterMatchesKeeps(rule: ColorizerItem, ms: seq<RawMatch>)
    ensures forall m :: multiset(FilterMatches(rule, ms))[m] == if Keep(rule, m) then multiset(ms)[m] else 0
    decreases |ms|
  {
    if |ms| > 0 {
      FilterMatchesKeeps(rule, ms[1..]);
      assert ms == [ms[0]] + ms[1..];
    }
  }

  /** `a` is `b` with some elements left out, the rest in their order. */
  predicate IsSubseq<T(==)>(a: seq<T>, b: seq<T>)
    decreases |b|
  {
    |a| == 0 || (|b| > 0 && ((a[0] == b[0] && IsSubseq(a[1..], b[1..])) || IsSubseq(a, b[1..])))
  }

  /** A subsequence holds each element at most as often as the whole. */
  lemma {:induction false} SubseqMultiset<T>(a: seq<T>, b: seq<T>)
    requires IsSubseq(a, b)
    ensures multiset(a) <= multiset(b)
    decreases |b|
  {
    if |a| > 0 {
      assert b == [b[0]] + b[1..];
      if a[0] == b[0] && IsSubseq(a[1..], b[1..]) {
        SubseqMultiset(a[1..], b[1..]);
        assert a == [a[0]] + a[1..];
      } else {
        SubseqMultiset(a, b[1..]);
      }
    }
  }

  /** The filter keeps the kept matches in the order the engine found them. */
  lemma {:induction false} FilterMatchesInOrder(rule: ColorizerItem, ms: seq<RawMatch>)
    ensures IsSubseq(FilterMatches(rule, ms), ms)
    decreases |ms|
  {
    if |ms| > 0 {
      var rest := FilterMatches(rule, ms[1..]);
      FilterMatchesInOrder(rule, ms[1..]);
      if Keep(rule, ms[0]) {
        assert FilterMatches(rule, ms)[1..] == rest;
      }
    }
  }

  /** Order and counts together fix the result: the filtered list is the
      only list in the engine's order that keeps each match as often as
      `FilterMatchesKeeps` says. */
  lemma {:induction false} FilterMatchesUnique(rule: ColorizerItem, ms: seq<RawMatch>, r: seq<RawMatch>)
    requires IsSubseq(r, ms)
    requires forall m :: multiset(r)[m] == if Keep(rule, m) then multiset(ms)[m] else 0
    ensures r == FilterMatches(rule, ms)
    decreases |ms|
  {
    if |ms| == 0 {
      assert |r| == 0;
    } else {
      var m0 := ms[0];
      assert ms == [m0] + ms[1..];
      if Keep(rule, m0) {
        assert multiset(r)[m0] > 0;
        assert r == [r[0]] + r[1..];
        if r[0] == m0 && IsSubseq(r[1..], ms[1..]) {
          forall m ensures multiset(r[1..])[m] == if Keep(rule, m) then multiset(ms[1..])[m] else 0 {
          }
          FilterMatchesUnique(rule, ms[1..], r[1..]);
        } else {
          assert IsSubseq(r, ms[1..]);
          SubseqMultiset(r, ms[1..]);
          assert false;
        }
      } else {
        if |r| > 0 {
          assert r[0] in multiset(r);
          assert r[0] != m0;
        }
        assert IsSubseq(r, ms[1..]);
        forall m ensures multiset(r)[m] == if Keep(rule, m) then multiset(ms[1..])[m] else 0 {
        }
        FilterMatchesUnique(rule, ms[1..], r);
      }
    }
  }

  /** Every kept match is one of the rule's raw matches. */
  lemma FilterMatchesSubset(rule: ColorizerItem, ms: seq<RawMatch>, m: RawMatch)
    requires m in FilterMatches(rule, ms)
    ensures m in ms && Keep(rule, m)
  {
    FilterMatchesKeeps(rule, ms);
    assert multiset(FilterMatches(rule, ms))[m] > 0;
  }

  /** One entry of the list that is sorted: the span to colour and the
      index of the rule it came from. */
  datatype Entry = Entry(start: nat, len: nat, origin: nat)

  /** The end of an entry's span (exclusive). */
  function End(e: Entry): nat {
    e.start + e.len
  }

  /** The effective span of a kept match: group 1 under GroupMatch, the whole match otherwise. */
  function Effective(rule: ColorizerItem, m: RawMatch, origin: nat): Entry {
    if rule.groupMatch then Entry(m.groupIndex, m.groupLength, origin)
    else Entry(m.index, m.length, origin)
  }

  /** The entries of rule `k`. */
  function RuleEntries(k: nat, rule: ColorizerItem, ms: seq<RawMatch>): (r: seq<Entry>) {
    var kept := FilterMatches(rule, ms);
    seq(|kept|, i requires 0 <= i < |kept| => Effective(rule, kept[i], k))
  }

  /** The entries of only the rule with index `k`. */
  function FromRule(es: seq<Entry>, k: nat): seq<Entry> {
    if |es| == 0 then []
    else (if es[0].origin == k then [es[0]] else []) + FromRule(es[1..], k)
  }

  /** Whether rule `k` kept some match on this line. */
  predicate HasMatch(rules: seq<ColorizerItem>, matches: seq<seq<RawMatch>>, k: nat)
    requires |rules| == |matches| && k < |rules|
  {
    |FilterMatches(rules[k], matches[k])| > 0
  }

  /** The `SelectMany` over the rules from index `k` on, in rule order. */
  function CollectFrom(rules: seq<ColorizerItem>, matches: seq<seq<RawMatch>>, k: nat): (r: seq<Entry>)
    requires |rules| == |matches| && k <= |rules|
    ensures forall i | 0 <= i < |r| :: k <= r[i].origin < |rules|
    decreases |rules| - k
  {
    if k == |rules| then []
    else
      var head := RuleEntries(k, rules[k], matches[k]);
      var tail := CollectFrom(rules, matches, k + 1);
      var r := head + tail;
      assert forall i | |head| <= i < |r| :: r[i] == tail[i - |head|];
      r
  }

  /** Nothing is collected exactly when no rule from `k` on kept a match. */
  lemma {:induction false} CollectEmptyIff(rules: seq<ColorizerItem>, matches: seq<seq<RawMatch>>, k: nat)
    requires |rules| == |matches| && k <= |rules|
    ensures |CollectFrom(rules, matches, k)| == 0 <==> forall j | k <= j < |rules| :: !HasMatch(rules, matches, j)
    decreases |rules| - k
  {
    if k < |rules| {
      CollectEmptyIff(rules, matches, k + 1);
      var head := RuleEntries(k, rules[k], matches[k]);
      assert HasMatch(rules, matches, k) <==> |head| > 0;
      assert (forall j | k <= j < |rules| :: !HasMatch(rules, matches, j)) <==>
        !HasMatch(rules, matches, k) && forall j | k + 1 <= j < |rules| :: !HasMatch(rules, matches, j);
    }
  }

  /** Entries listed in rule order. */
  predicate OriginsOrdered(s: seq<Entry>) {
    forall i, j | 0 <= i < j < |s| :: s[i].origin <= s[j].origin
  }

  /** The collected entries come in rule order. */
  lemma {:induction false} CollectOrdered(rules: seq<ColorizerItem>, matches: seq<seq<RawMatch>>, k: nat)
    requires |rules| == |matches| && k <= |rules|
    ensures OriginsOrdered(CollectFrom(rules, matches, k))
    decreases |rules| - k
  {
    if k < |rules| {
      CollectOrdered(rules, matches, k + 1);
      var head := RuleEntries(k, rules[k], matches[k]);
      var tail := CollectFrom(rules, matches, k + 1);
      var r := head + tail;
      assert CollectFrom(rules, matches, k) == r;
      assert forall i | 0 <= i < |head| :: head[i].origin == k;
      forall i, j | 0 <= i < j < |r|
        ensures r[i].origin <= r[j].origin
      {
        if j < |head| {
          assert r[i] == head[i] && r[j] == head[j];
          assert head[i].origin == k && head[j].origin == k;
        } else if i < |head| {
          assert r[i] == head[i] && r[j] == tail[j - |head|];
          assert head[i].origin == k && k + 1 <= tail[j - |head|].origin;
        } else {
          var i', j' := i - |head|, j - |head|;
          assert r[i] == tail[i'] && r[j] == tail[j'];
          assert 0 <= i' < j' < |tail|;
          assert tail[i'].origin <= tail[j'].origin;
        }
      }
    }
  }

  function Collect(rules: seq<ColorizerItem>, matches: seq<seq<RawMatch>>): seq<Entry>
    requires |rules| == |matches|
  {
    CollectFrom(rules, matches, 0)
  }

  lemma {:induction false} FromRuleAppend(a: seq<Entry>, b: seq<Entry>, k: nat)
    ensures FromRule(a + b, k) == FromRule(a, k) + FromRule(b, k)
    decreases |a|
  {
    if |a| == 0 {
      assert a + b == b;
    } else {
      assert (a + b)[1..] == a[1..] + b;
      FromRuleAppend(a[1..], b, k);
    }
  }

  lemma {:induction false} FromRuleAll(es: seq<Entry>, k: nat)
    requires forall i | 0 <= i < |es| :: es[i].origin == k
    ensures FromRule(es, k) == es
    decreases |es|
  {
    if |es| > 0 {
      FromRuleAll(es[1..], k);
    }
  }

  lemma {:induction false} FromRuleNone(es: seq<Entry>, k: nat)
    requires forall i | 0 <= i < |es| :: es[i].origin != k
    ensures FromRule(es, k) == []
    decreases |es|
  {
    if |es| > 0 {
      FromRuleNone(es[1..], k);
    }
  }

  /** Collection keeps rule order, and the entries of each rule are exactly
      that rule's kept matches, as effective spans, in the engine's order. */
  lemma {:induction false} CollectByRule(rules: seq<ColorizerItem>, matches: seq<seq<RawMatch>>, from: nat, k: nat)
    requires |rules| == |matches| && from <= k < |rules|
    ensures FromRule(CollectFrom(rules, matches, from), k) == RuleEntries(k, rules[k], matches[k])
    decreases k - from
  {
    var head := RuleEntries(from, rules[from], matches[from]);
    var tail := CollectFrom(rules, matches, from + 1);
    FromRuleAppend(head, tail, k);
    if from == k {
      FromRuleAll(head, k);
      FromRuleNone(tail, k);
    } else {
      FromRuleNone(head, k);
      CollectByRule(rules, matches, from + 1, k);
    }
  }

  /** Every collected entry lies inside the line. */
  lemma {:induction false} CollectWithinLine(line: string, rules: seq<ColorizerItem>, matches: seq<seq<RawMatch>>, from: nat)
    requires WellFormed(line, rules, matches) && from <= |rules|
    ensures forall i | 0 <= i < |CollectFrom(rules, matches, from)| :: End(CollectFrom(rules, matches, from)[i]) <= |line|
    decreases |rules| - from
  {
    if from < |rules| {
      CollectWithinLine(line, rules, matches, from + 1);
      var head := RuleEntries(from, rules[from], matches[from]);
      var tail := CollectFrom(rules, matches, from + 1);
      var kept := FilterMatches(rules[from], matches[from]);
      forall i | 0 <= i < |head|
        ensures End(head[i]) <= |line|
      {
        FilterMatchesSubset(rules[from], matches[from], kept[i]);
        assert WithinLine(line, kept[i]);
      }
      assert CollectFrom(rules, matches, from) == head + tail;
    }
  }
}
