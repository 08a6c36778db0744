/**
 * Red / amber / green ranking of systems on one metric (`rag_color`).
 *
 * Missing values are dropped, the rest are sorted best first (ascending for
 * the lower-is-better metrics, descending otherwise) and coloured by rank:
 * the best is green, the worst red, everything between yellow.  Python's
 * `sorted` is stable also with `reverse=True`, so tied systems keep their
 * insertion order; `Sort` below is a stable insertion sort with that
 * behaviour.
 */
module Rag {
  import opened Wrappers
  import opened Config

  /** `RAG_BETTER_IS_LOWER`. */
  const BetterIsLower: set<string> := {"cost", "land_area", "efficiency"}

  type Entry = (string, real)

  /** A Python dict: no key occurs twice. */
  predicate DistinctKeys<V>(s: seq<(string, V)>) {
    forall i, j :: 0 <= i < j < |s| ==> s[i].0 != s[j].0
  }

  function KeySet<V>(s: seq<(string, V)>): set<string> {
    set i | 0 <= i < |s| :: s[i].0
  }

  lemma KeySetCons<V>(e: (string, V), s: seq<(string, V)>)
    ensures KeySet([e] + s) == {e.0} + KeySet(s)
  {
    var c := [e] + s;
    forall k | k in KeySet(c) ensures k in {e.0} + KeySet(s) {
      var i :| 0 <= i < |c| && c[i].0 == k;
      if i > 0 {
        assert s[i - 1].0 == k;
      }
    }
    forall k | k in KeySet(s) ensures k in KeySet(c) {
      var i :| 0 <= i < |s| && s[i].0 == k;
      assert c[i + 1].0 == k;
    }
    assert c[0].0 == e.0;
  }

  lemma KeySetSnoc<V>(s: seq<(string, V)>, e: (string, V))
    ensures KeySet(s + [e]) == KeySet(s) + {e.0}
  {
    var c := s + [e];
    forall k | k in KeySet(c) ensures k in KeySet(s) + {e.0} {
      var i :| 0 <= i < |c| && c[i].0 == k;
      if i < |s| {
        assert s[i].0 == k;
      }
    }
    forall k | k in KeySet(s) ensures k in KeySet(c) {
      var i :| 0 <= i < |s| && s[i].0 == k;
      assert c[i].0 == k;
    }
    assert c[|s|].0 == e.0;
  }

  lemma DistinctCons<V>(e: (string, V), s: seq<(string, V)>)
    requires DistinctKeys(s) && e.0 !in KeySet(s)
    ensures DistinctKeys([e] + s)
  {
    var c := [e] + s;
    forall i, j | 0 <= i < j < |c| ensures c[i].0 != c[j].0 {
      if i == 0 {
        assert c[j].0 == s[j - 1].0;
      } else {
        assert c[i].0 == s[i - 1].0 && c[j].0 == s[j - 1].0;
      }
    }
  }

  /** `a` ranks strictly ahead of `b`. */
  predicate Before(lower: bool, a: Entry, b: Entry) {
    if lower then a.1 < b.1 else a.1 > b.1
  }

  /** `x` is at least as good a value as `y` for the metric's direction. */
  predicate AtLeastAsGood(lower: bool, x: real, y: real) {
    if lower then x <= y else x >= y
  }

  predicate Sorted(lower: bool, s: seq<Entry>) {
    forall i, j :: 0 <= i < j < |s| ==> !Before(lower, s[j], s[i])
  }

  /** The entries whose value is present, in insertion order. */
  function Valid(values: seq<(string, Option<real>)>): (r: seq<Entry>)
    ensures forall e :: e in r <==> (e.0, Some(e.1)) in values
  {
    if values == [] then []
    else if values[0].1.Some? then [(values[0].0, values[0].1.value)] + Valid(values[1..])
    else Valid(values[1..])
  }

  lemma {:induction false} ValidKeys(values: seq<(string, Option<real>)>)
    requires DistinctKeys(values)
    ensures DistinctKeys(Valid(values))
    ensures KeySet(Valid(values)) <= KeySet(values)
  {
    if values != [] {
      var rest := Valid(values[1..]);
      ValidKeys(values[1..]);
      KeySetCons(values[0], values[1..]);
      assert values == [values[0]] + values[1..];
      if values[0].1.Some? {
        var e := (values[0].0, values[0].1.value);
        KeySetCons(e, rest);
        forall i | 0 <= i < |values[1..]| ensures values[1..][i].0 != values[0].0 {
          assert values[1..][i] == values[i + 1];
        }
        DistinctCons(e, rest);
      }
    }
  }

  /** Inserts `x` after every entry that is at least as good, which keeps ties in arrival order. */
  function Insert(lower: bool, x: Entry, s: seq<Entry>): (r: seq<Entry>)
    ensures |r| == |s| + 1
  {
    if s == [] then [x]
    else if Before(lower, x, s[0]) then [x] + s
    else [s[0]] + Insert(lower, x, s[1..])
  }

  lemma {:induction false} InsertMultiset(lower: bool, x: Entry, s: seq<Entry>)
    ensures multiset(Insert(lower, x, s)) == multiset(s) + multiset{x}
  {
    if s == [] {
      assert Insert(lower, x, s) == [x];
    } else if Before(lower, x, s[0]) {
      assert Insert(lower, x, s) == [x] + s;
    } else {
      var t := Insert(lower, x, s[1..]);
      assert Insert(lower, x, s) == [s[0]] + t;
      InsertMultiset(lower, x, s[1..]);
      assert s == [s[0]] + s[1..];
      assert multiset(s) == multiset([s[0]]) + multiset(s[1..]);
    }
  }

  lemma {:induction false} InsertSorted(lower: bool, x: Entry, s: seq<Entry>)
    requires Sorted(lower, s)
    ensures Sorted(lower, Insert(lower, x, s))
  {
    if s != [] && !Before(lower, x, s[0]) {
      var t := Insert(lower, x, s[1..]);
      InsertSorted(lower, x, s[1..]);
      InsertMultiset(lower, x, s[1..]);
      forall j | 0 <= j < |t| ensures !Before(lower, t[j], s[0]) {
        assert t[j] in multiset(t);
        assert t[j] == x || t[j] in s[1..];
      }
    }
  }

  lemma {:induction false} InsertKeys(lower: bool, x: Entry, s: seq<Entry>)
    requires DistinctKeys(s) && x.0 !in KeySet(s)
    ensures DistinctKeys(Insert(lower, x, s))
    ensures KeySet(Insert(lower, x, s)) == KeySet(s) + {x.0}
  {
    if s == [] {
      assert KeySet([x]) == {x.0} by {
        KeySetCons(x, []);
      }
    } else if Before(lower, x, s[0]) {
      KeySetCons(x, s);
      DistinctCons(x, s);
    } else {
      var t := Insert(lower, x, s[1..]);
      assert s == [s[0]] + s[1..];
      KeySetCons(s[0], s[1..]);
      assert DistinctKeys(s[1..]);
      forall i | 0 <= i < |s[1..]| ensures s[1..][i].0 != s[0].0 {
        assert s[1..][i] == s[i + 1];
      }
      InsertKeys(lower, x, s[1..]);
      KeySetCons(s[0], t);
      DistinctCons(s[0], t);
    }
  }

  /** `sorted(valid, key=value, reverse=not lower)`. */
  function Sort(lower: bool, s: seq<Entry>): (r: seq<Entry>)
    ensures |r| == |s|
    ensures multiset(r) == multiset(s)
    ensures Sorted(lower, r)
  {
    if s == [] then []
    else
      var p := Sort(lower, s[..|s| - 1]);
      InsertMultiset(lower, s[|s| - 1], p);
      InsertSorted(lower, s[|s| - 1], p);
      assert s == s[..|s| - 1] + [s[|s| - 1]];
      Insert(lower, s[|s| - 1], p)
  }

  lemma {:induction false} SortKeys(lower: bool, s: seq<Entry>)
    requires DistinctKeys(s)
    ensures DistinctKeys(Sort(lower, s))
    ensures KeySet(Sort(lower, s)) == KeySet(s)
  {
    if s != [] {
      var p := s[..|s| - 1];
      var last := s[|s| - 1];
      SortKeys(lower, p);
      assert s == p + [last];
      KeySetSnoc(p, last);
      forall i | 0 <= i < |p| ensures p[i].0 != last.0 {
        assert p[i] == s[i];
      }
      InsertKeys(lower, last, Sort(lower, p));
    }
  }

  /** Colour of rank `i` among `n` ranked systems. */
  function ColorAt(i: nat, n: nat): string {
    if i == 0 then GreenHex else if i == n - 1 then RedHex else YellowHex
  }

  function Paint(s: seq<Entry>): (r: map<string, string>)
    requires DistinctKeys(s)
    ensures r.Keys == KeySet(s)
    ensures forall i :: 0 <= i < |s| ==> r[s[i].0] == ColorAt(i, |s|)
  {
    map i | 0 <= i < |s| :: s[i].0 := ColorAt(i, |s|)
  }

  /** The ranked entries of `rag_color`: the valid ones, best first. */
  function Ranked(values: seq<(string, Option<real>)>, metric: string): seq<Entry> {
    Sort(metric in BetterIsLower, Valid(values))
  }

  /**
   * `rag_color`: one colour per system with a value.  One system is green;
   * two are green then red; three or more are green, yellows, red.
   */
  function RagColor(values: seq<(string, Option<real>)>, metric: string): (r: map<string, string>)
    requires DistinctKeys(values)
    ensures forall i :: 0 <= i < |values| ==> (values[i].0 in r <==> values[i].1.Some?)
    ensures r.Keys <= KeySet(values)
    ensures forall k :: k in r ==> r[k] in {GreenHex, YellowHex, RedHex}
  {
    var lower := metric in BetterIsLower;
    var valid := Valid(values);
    ValidKeys(values);
    SortKeys(lower, valid);
    var s := Sort(lower, valid);
    forall i | 0 <= i < |values|
      ensures values[i].0 in KeySet(valid) <==> values[i].1.Some?
    {
      if values[i].1.Some? {
        var e := (values[i].0, values[i].1.value);
        assert e in valid;
        var j :| 0 <= j < |valid| && valid[j] == e;
        assert valid[j].0 == values[i].0;
      } else {
        forall j | 0 <= j < |valid| ensures valid[j].0 != values[i].0 {
          assert valid[j] in valid;
          var m :| 0 <= m < |values| && values[m] == (valid[j].0, Some(valid[j].1));
          assert m != i;
        }
      }
    }
    if s == [] then map[] else Paint(s)
  }

  /** The systems a colour map gives colour `hex`. */
  function ColorKeys(r: map<string, string>, hex: string): set<string> {
    set k | k in r && r[k] == hex
  }

  lemma RagIsPaintedRanking(values: seq<(string, Option<real>)>, metric: string)
    requires DistinctKeys(values)
    ensures DistinctKeys(Ranked(values, metric))
    ensures KeySet(Ranked(values, metric)) == RagColor(values, metric).Keys
    ensures forall i :: 0 <= i < |Ranked(values, metric)| ==>
      RagColor(values, metric)[Ranked(values, metric)[i].0] == ColorAt(i, |Ranked(values, metric)|)
  {
    ValidKeys(values);
    SortKeys(metric in BetterIsLower, Valid(values));
  }

  lemma PaintGreen(s: seq<Entry>)
    requires DistinctKeys(s) && |s| >= 1
    ensures ColorKeys(Paint(s), GreenHex) == {s[0].0}
  {
    var r := Paint(s);
    RagColorsDistinct();
    forall k | k in ColorKeys(r, GreenHex) ensures k == s[0].0 {
      var p :| 0 <= p < |s| && s[p].0 == k;
      assert ColorAt(p, |s|) == GreenHex;
    }
    assert s[0].0 in KeySet(s);
  }

  lemma PaintRed(s: seq<Entry>)
    requires DistinctKeys(s) && |s| >= 2
    ensures ColorKeys(Paint(s), RedHex) == {s[|s| - 1].0}
  {
    var r := Paint(s);
    RagColorsDistinct();
    forall k | k in ColorKeys(r, RedHex) ensures k == s[|s| - 1].0 {
      var p :| 0 <= p < |s| && s[p].0 == k;
      assert ColorAt(p, |s|) == RedHex;
    }
    assert s[|s| - 1].0 in KeySet(s);
  }

  /**
   * One valid system is green; with two or more exactly one system is green
   * and exactly one is red, and every system ranked between them is yellow.
   */
  lemma RagColorCounts(values: seq<(string, Option<real>)>, metric: string)
    requires DistinctKeys(values)
    ensures |Valid(values)| == 0 ==> RagColor(values, metric) == map[]
    ensures |Valid(values)| == 1 ==> ColorKeys(RagColor(values, metric), GreenHex) == RagColor(values, metric).Keys
    ensures |Valid(values)| >= 1 ==> |ColorKeys(RagColor(values, metric), GreenHex)| == 1
    ensures |Valid(values)| >= 2 ==> |ColorKeys(RagColor(values, metric), RedHex)| == 1
    ensures forall i :: 1 <= i < |Valid(values)| - 1 ==>
      RagColor(values, metric)[Ranked(values, metric)[i].0] == YellowHex
  {
    RagIsPaintedRanking(values, metric);
    RagColorIsPaint(values, metric);
    PaintCounts(Ranked(values, metric));
  }

  lemma RagColorIsPaint(values: seq<(string, Option<real>)>, metric: string)
    requires DistinctKeys(values)
    ensures DistinctKeys(Ranked(values, metric))
    ensures RagColor(values, metric) == Paint(Ranked(values, metric))
  {
    ValidKeys(values);
    SortKeys(metric in BetterIsLower, Valid(values));
  }

  /** Colour counts of a painted ranking. */
  lemma PaintCounts(s: seq<Entry>)
    requires DistinctKeys(s)
    ensures |s| == 0 ==> Paint(s) == map[]
    ensures |s| == 1 ==> ColorKeys(Paint(s), GreenHex) == Paint(s).Keys
    ensures |s| >= 1 ==> |ColorKeys(Paint(s), GreenHex)| == 1
    ensures |s| >= 2 ==> |ColorKeys(Paint(s), RedHex)| == 1
    ensures forall i :: 1 <= i < |s| - 1 ==> Paint(s)[s[i].0] == YellowHex
  {
    if |s| >= 1 {
      PaintGreen(s);
      if |s| == 1 {
        assert KeySet(s) == {s[0].0};
      }
    }
    if |s| >= 2 {
      PaintRed(s);
    }
  }

  /** Where the green system's value is in `values`, relative to every other valid value. */
  lemma RankedEntryIsValid(values: seq<(string, Option<real>)>, metric: string, i: nat, p: nat)
    requires DistinctKeys(values)
    requires i < |values| && p < |Ranked(values, metric)| && Ranked(values, metric)[p].0 == values[i].0
    ensures values[i].1 == Some(Ranked(values, metric)[p].1)
  {
    var s := Ranked(values, metric);
    assert s[p] in multiset(Valid(values));
    var m :| 0 <= m < |values| && values[m] == (s[p].0, Some(s[p].1));
  }

  lemma ValidEntryIsRanked(values: seq<(string, Option<real>)>, metric: string, j: nat) returns (q: nat)
    requires j < |values| && values[j].1.Some?
    ensures q < |Ranked(values, metric)| && Ranked(values, metric)[q] == (values[j].0, values[j].1.value)
  {
    var e := (values[j].0, values[j].1.value);
    assert e in Valid(values);
    assert e in multiset(Ranked(values, metric));
    q :| 0 <= q < |Ranked(values, metric)| && Ranked(values, metric)[q] == e;
  }

  /** The green system has the best value of all systems with a value. */
  lemma RagGreenIsBest(values: seq<(string, Option<real>)>, metric: string, i: nat, j: nat)
    requires DistinctKeys(values)
    requires i < |values| && j < |values| && values[j].1.Some?
    requires values[i].0 in RagColor(values, metric) && RagColor(values, metric)[values[i].0] == GreenHex
    ensures values[i].1.Some?
    ensures AtLeastAsGood(metric in BetterIsLower, values[i].1.value, values[j].1.value)
  {
    var p := RankOfColored(values, metric, i);
    ColorAtRank(p, |Ranked(values, metric)|);
    RankedEntryIsValid(values, metric, i, p);
    var q := ValidEntryIsRanked(values, metric, j);
    SortedEnds(metric in BetterIsLower, Ranked(values, metric), q);
  }

  /** The red system has the worst value of all systems with a value. */
  lemma RagRedIsWorst(values: seq<(string, Option<real>)>, metric: string, i: nat, j: nat)
    requires DistinctKeys(values)
    requires i < |values| && j < |values| && values[j].1.Some?
    requires values[i].0 in RagColor(values, metric) && RagColor(values, metric)[values[i].0] == RedHex
    ensures values[i].1.Some?
    ensures AtLeastAsGood(metric in BetterIsLower, values[j].1.value, values[i].1.value)
  {
    var p := RankOfColored(values, metric, i);
    ColorAtRank(p, |Ranked(values, metric)|);
    RankedEntryIsValid(values, metric, i, p);
    var q := ValidEntryIsRanked(values, metric, j);
    SortedEnds(metric in BetterIsLower, Ranked(values, metric), q);
  }

  /** A coloured system sits at some rank, and its colour is the colour of that rank. */
  lemma RankOfColored(values: seq<(string, Option<real>)>, metric: string, i: nat) returns (p: nat)
    requires DistinctKeys(values)
    requires i < |values| && values[i].0 in RagColor(values, metric)
    ensures p < |Ranked(values, metric)| && Ranked(values, metric)[p].0 == values[i].0
    ensures RagColor(values, metric)[values[i].0] == ColorAt(p, |Ranked(values, metric)|)
  {
    var s := Ranked(values, metric);
    RagIsPaintedRanking(values, metric);
    p :| 0 <= p < |s| && s[p].0 == values[i].0;
  }

  /** Green is the first rank only, red the last rank only (when there are two or more). */
  lemma ColorAtRank(i: nat, n: nat)
    requires i < n
    ensures ColorAt(i, n) == GreenHex <==> i == 0
    ensures ColorAt(i, n) == RedHex <==> i != 0 && i == n - 1
  {
    RagColorsDistinct();
  }

  /** In a sorted ranking the first entry is at least as good as any, and any at least as good as the last. */
  lemma SortedEnds(lower: bool, s: seq<Entry>, q: nat)
    requires Sorted(lower, s) && q < |s|
    ensures AtLeastAsGood(lower, s[0].1, s[q].1)
    ensures AtLeastAsGood(lower, s[q].1, s[|s| - 1].1)
  {
    if q > 0 {
      assert !Before(lower, s[q], s[0]);
    }
    if q < |s| - 1 {
      assert !Before(lower, s[|s| - 1], s[q]);
    }
  }

  /** Sorting is stable: two equal values stay in the order they were given. */
  lemma RankedTieKeepsOrder(a: string, b: string, x: real, metric: string)
    ensures Ranked([(a, Some(x)), (b, Some(x))], metric) == [(a, x), (b, x)]
  {
    RankedPair(a, b, x, x, metric);
  }


  /** Equal values keep insertion order: the system listed first takes green. */
  lemma RagTieFavoursFirst(a: string, b: string, x: real, metric: string)
    requires a != b
    ensures RagColor([(a, Some(x)), (b, Some(x))], metric).Keys == {a, b}
    ensures RagColor([(a, Some(x)), (b, Some(x))], metric)[a] == GreenHex
    ensures RagColor([(a, Some(x)), (b, Some(x))], metric)[b] == RedHex
  {
    HeadToHead(a, b, x, x, metric);
  }

  /** Ranking two present values: the second moves ahead only when strictly better. */
  lemma RankedPair(a: string, b: string, x: real, y: real, metric: string)
    ensures Ranked([(a, Some(x)), (b, Some(y))], metric) ==
            if Before(metric in BetterIsLower, (b, y), (a, x)) then [(b, y), (a, x)] else [(a, x), (b, y)]
  {
    var values := [(a, Some(x)), (b, Some(y))];
    var lower := metric in BetterIsLower;
    var tail := [(b, Some(y))];
    assert tail[1..] == [];
    assert Valid(tail) == [(b, y)];
    assert values[1..] == tail;
    assert Valid(values) == [(a, x), (b, y)];
    var s := [(a, x), (b, y)];
    assert s[..1] == [(a, x)];
    assert Sort(lower, [(a, x)]) == [(a, x)];
    assert [(a, x)][1..] == [];
    assert Sort(lower, s) == Insert(lower, (b, y), Sort(lower, [(a, x)]));
  }

  /**
   * Two systems that both have a value: the strictly better one is green and
   * the other red; on a tie the first listed keeps green.
   */
  lemma HeadToHead(a: string, b: string, x: real, y: real, metric: string)
    requires a != b
    ensures RagColor([(a, Some(x)), (b, Some(y))], metric).Keys == {a, b}
    ensures RagColor([(a, Some(x)), (b, Some(y))], metric)[a] ==
            if Before(metric in BetterIsLower, (b, y), (a, x)) then RedHex else GreenHex
    ensures RagColor([(a, Some(x)), (b, Some(y))], metric)[b] ==
            if Before(metric in BetterIsLower, (b, y), (a, x)) then GreenHex else RedHex
  {
    PairRanks(a, b, x, y, metric);
    PairColors([(a, Some(x)), (b, Some(y))], metric);
  }

  /** Who ranks first and second of two present values. */
  lemma PairRanks(a: string, b: string, x: real, y: real, metric: string)
    ensures |Ranked([(a, Some(x)), (b, Some(y))], metric)| == 2
    ensures Ranked([(a, Some(x)), (b, Some(y))], metric)[0].0 ==
            if Before(metric in BetterIsLower, (b, y), (a, x)) then b else a
    ensures Ranked([(a, Some(x)), (b, Some(y))], metric)[1].0 ==
            if Before(metric in BetterIsLower, (b, y), (a, x)) then a else b
  {
    RankedPair(a, b, x, y, metric);
  }

  /** With exactly two ranked systems, the first is green, the second red, and nothing else is coloured. */
  lemma PairColors(values: seq<(string, Option<real>)>, metric: string)
    requires DistinctKeys(values) && |Ranked(values, metric)| == 2
    ensures RagColor(values, metric).Keys == {Ranked(values, metric)[0].0, Ranked(values, metric)[1].0}
    ensures RagColor(values, metric)[Ranked(values, metric)[0].0] == GreenHex
    ensures RagColor(values, metric)[Ranked(values, metric)[1].0] == RedHex
  {
    var ranked := Ranked(values, metric);
    RagIsPaintedRanking(values, metric);
    assert ranked == [ranked[0], ranked[1]];
    KeySetPair(ranked[0], ranked[1]);
    assert ColorAt(0, 2) == GreenHex && ColorAt(1, 2) == RedHex;
  }

  lemma KeySetPair<V>(e: (string, V), f: (string, V))
    ensures KeySet([e, f]) == {e.0, f.0}
  {
    KeySetCons(f, []);
    KeySetCons(e, [f]);
    assert [e, f] == [e] + [f];
  }
}
