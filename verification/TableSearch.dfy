/**
 The tables that drive the incremental HTTP parser, and the three binary searches that read them.

 A state owns a run of condition pairs, a run of single keys followed by a run of range pairs, and a run of
 transition indices (one for each single key, one for each range and a last one for "anything else").
 `RowOf` gives that slice of the flat arrays as one value, and `Pick` is the linear reading of a row; the
 methods at the end compute the same transition with the binary searches of the generated code.
 */
module TableSearch {

  datatype Tables = Tables(
    condOffsets: seq<nat>, condLengths: seq<nat>, condKeys: seq<int>, condSpaces: seq<int>,
    keyOffsets: seq<nat>, transKeys: seq<int>, singleLengths: seq<nat>, rangeLengths: seq<nat>,
    indexOffsets: seq<nat>, indicies: seq<nat>,
    transTargs: seq<nat>, transActions: seq<nat>, actions: seq<nat>)

  datatype Edge = Edge(target: nat, actions: seq<nat>)

  datatype Row = Row(conds: seq<(int, int)>, spaces: seq<int>,
                     singles: seq<int>, ranges: seq<(int, int)>, edges: seq<Edge>)

  // ---- The linear reading of a row ----

  /** The first index from `k` on that holds `w`, or the length. */
  function KeyIndex(s: seq<int>, w: int, k: nat): (r: nat)
    requires k <= |s|
    ensures k <= r <= |s|
    decreases |s| - k
  {
    if k == |s| || s[k] == w then k else KeyIndex(s, w, k + 1)
  }

  /** The first index from `k` on whose closed interval holds `w`, or the length. */
  function PairIndex(s: seq<(int, int)>, w: int, k: nat): (r: nat)
    requires k <= |s|
    ensures k <= r <= |s|
    decreases |s| - k
  {
    if k == |s| || s[k].0 <= w <= s[k].1 then k else PairIndex(s, w, k + 1)
  }

  /** Widening of a byte under a condition: 256 up, and 256 more when the relaxed-URI flag is on. */
  function Widened(c: int, relaxed: bool): int {
    128 + (c - -128) + if relaxed then 256 else 0
  }

  function Widen(row: Row, c: int, relaxed: bool): int
    requires |row.spaces| == |row.conds|
  {
    var k := PairIndex(row.conds, c, 0);
    if k < |row.conds| && row.spaces[k] == 0 then Widened(c, relaxed) else c
  }

  ghost predicate RowShaped(row: Row) {
    && |row.spaces| == |row.conds|
    && |row.edges| == |row.singles| + |row.ranges| + 1
  }

  /** Which edge of a row a (widened) byte takes: a matching single, else a matching range, else the last. */
  function EdgeIndex(row: Row, w: int): (k: nat)
    ensures k <= |row.singles| + |row.ranges|
  {
    var k := KeyIndex(row.singles, w, 0);
    if k < |row.singles| then k else |row.singles| + PairIndex(row.ranges, w, 0)
  }

  function Pick(row: Row, w: int): Edge
    requires RowShaped(row)
  {
    row.edges[EdgeIndex(row, w)]
  }

  /** The edge taken by a byte, condition widening included. */
  function TakeByte(row: Row, c: int, relaxed: bool): Edge
    requires RowShaped(row)
  {
    Pick(row, Widen(row, c, relaxed))
  }

  // ---- Well-formed tables ----

  function Lo(keys: seq<int>, base: nat, k: nat): int
    requires base + 2 * k < |keys|
  {
    keys[base + 2 * k]
  }

  function Hi(keys: seq<int>, base: nat, k: nat): int
    requires base + 2 * k + 1 < |keys|
  {
    keys[base + 2 * k + 1]
  }

  ghost predicate SinglesSorted(keys: seq<int>, base: nat, n: nat)
    requires base + n <= |keys|
  {
    forall j, k :: base <= j < k < base + n ==> keys[j] < keys[k]
  }

  ghost predicate PairsSorted(keys: seq<int>, base: nat, n: nat)
    requires base + 2 * n <= |keys|
  {
    && (forall k :: 0 <= k < n ==> Lo(keys, base, k) <= Hi(keys, base, k))
    && (forall j, k :: 0 <= j < k < n ==> Hi(keys, base, j) < Lo(keys, base, k))
  }

  ghost predicate StateShaped(t: Tables, s: nat)
    requires s < States(t) && Aligned(t)
  {
    && t.condOffsets[s] + t.condLengths[s] <= |t.condSpaces|
    && 2 * t.condOffsets[s] + 2 * t.condLengths[s] <= |t.condKeys|
    && PairsSorted(t.condKeys, 2 * t.condOffsets[s], t.condLengths[s])
    && t.keyOffsets[s] + t.singleLengths[s] + 2 * t.rangeLengths[s] <= |t.transKeys|
    && SinglesSorted(t.transKeys, t.keyOffsets[s], t.singleLengths[s])
    && PairsSorted(t.transKeys, t.keyOffsets[s] + t.singleLengths[s], t.rangeLengths[s])
    && t.indexOffsets[s] + t.singleLengths[s] + t.rangeLengths[s] < |t.indicies|
  }

  ghost predicate TransShaped(t: Tables, i: nat)
    requires i < |t.transTargs| && Aligned(t)
  {
    && t.transTargs[i] < States(t)
    && (var a := t.transActions[i]; a == 0 || (a < |t.actions| && a + t.actions[a] < |t.actions|))
  }

  function States(t: Tables): nat {
    |t.condOffsets|
  }

  ghost predicate Aligned(t: Tables) {
    && |t.condLengths| == |t.keyOffsets| == |t.singleLengths| == States(t)
    && |t.rangeLengths| == |t.indexOffsets| == States(t)
    && |t.transTargs| == |t.transActions|
  }

  ghost predicate WellFormed(t: Tables) {
    && Aligned(t)
    && (forall s :: 0 <= s < States(t) ==> StateShaped(t, s))
    && (forall i :: 0 <= i < |t.indicies| ==> t.indicies[i] < |t.transTargs|)
    && (forall i :: 0 <= i < |t.transTargs| ==> TransShaped(t, i))
  }

  // ---- The row of a state ----

  function Pairs(keys: seq<int>, base: nat, n: nat): (r: seq<(int, int)>)
    requires base + 2 * n <= |keys|
    ensures |r| == n
    ensures forall k :: 0 <= k < n ==> r[k] == (Lo(keys, base, k), Hi(keys, base, k))
  {
    seq(n, k requires 0 <= k < n => (Lo(keys, base, k), Hi(keys, base, k)))
  }

  /** The action list of a transition: none for 0, else the counted list at that offset. */
  function ActionsOf(t: Tables, i: nat): seq<nat>
    requires WellFormed(t) && i < |t.transTargs|
  {
    assert TransShaped(t, i);
    var a := t.transActions[i];
    if a == 0 then [] else t.actions[a + 1..a + 1 + t.actions[a]]
  }

  function EdgeOf(t: Tables, i: nat): (e: Edge)
    requires WellFormed(t) && i < |t.transTargs|
    ensures e.target < States(t)
  {
    assert TransShaped(t, i);
    Edge(t.transTargs[i], ActionsOf(t, i))
  }

  function RowOf(t: Tables, s: nat): (row: Row)
    requires WellFormed(t) && s < States(t)
    ensures RowShaped(row)
    ensures forall k :: 0 <= k < |row.edges| ==> row.edges[k].target < States(t)
  {
    assert StateShaped(t, s);
    var co, cn := t.condOffsets[s], t.condLengths[s];
    var ko, sn, rn := t.keyOffsets[s], t.singleLengths[s], t.rangeLengths[s];
    var io := t.indexOffsets[s];
    var edges := seq(sn + rn + 1, k requires 0 <= k < sn + rn + 1 => EdgeOf(t, t.indicies[io + k]));
    assert forall k :: 0 <= k < |edges| ==> edges[k] == EdgeOf(t, t.indicies[io + k]);
    Row(Pairs(t.condKeys, 2 * co, cn), t.condSpaces[co..co + cn],
        t.transKeys[ko..ko + sn], Pairs(t.transKeys, ko + sn, rn), edges)
  }

  // ---- Sorted keys: at most one key or interval holds a value, and a linear scan finds it ----

  lemma {:induction false} KeyIndexIs(s: seq<int>, w: int, from: nat, k: nat)
    requires from <= k <= |s|
    requires forall j :: from <= j < k ==> s[j] != w
    requires k < |s| ==> s[k] == w
    ensures KeyIndex(s, w, from) == k
    decreases |s| - from
  {
    if from < k {
      KeyIndexIs(s, w, from + 1, k);
    }
  }

  lemma {:induction false} PairIndexIs(s: seq<(int, int)>, w: int, from: nat, k: nat)
    requires from <= k <= |s|
    requires forall j :: from <= j < k ==> !(s[j].0 <= w <= s[j].1)
    requires k < |s| ==> s[k].0 <= w <= s[k].1
    ensures PairIndex(s, w, from) == k
    decreases |s| - from
  {
    if from < k {
      PairIndexIs(s, w, from + 1, k);
    }
  }

  lemma SinglePicks(row: Row, w: int, k: nat)
    requires RowShaped(row) && k < |row.singles| && row.singles[k] == w
    requires forall i, j :: 0 <= i < j < |row.singles| ==> row.singles[i] < row.singles[j]
    ensures Pick(row, w) == row.edges[k]
  {
    KeyIndexIs(row.singles, w, 0, k);
  }

  lemma RangePicks(row: Row, w: int, k: nat)
    requires RowShaped(row) && w !in row.singles && k < |row.ranges| && row.ranges[k].0 <= w <= row.ranges[k].1
    requires forall i, j :: 0 <= i < j < |row.ranges| ==> row.ranges[i].1 < row.ranges[j].0
    ensures Pick(row, w) == row.edges[|row.singles| + k]
  {
    KeyIndexIs(row.singles, w, 0, |row.singles|);
    PairIndexIs(row.ranges, w, 0, k);
  }

  lemma DefaultPicks(row: Row, w: int)
    requires RowShaped(row) && w !in row.singles
    requires forall j :: 0 <= j < |row.ranges| ==> !(row.ranges[j].0 <= w <= row.ranges[j].1)
    ensures Pick(row, w) == row.edges[|row.singles| + |row.ranges|]
  {
    KeyIndexIs(row.singles, w, 0, |row.singles|);
    PairIndexIs(row.ranges, w, 0, |row.ranges|);
  }

  /** The keys and the intervals of a row are sorted. */
  lemma RowSorted(t: Tables, s: nat)
    requires WellFormed(t) && s < States(t)
    ensures var row := RowOf(t, s);
      && (forall i, j :: 0 <= i < j < |row.singles| ==> row.singles[i] < row.singles[j])
      && (forall i, j :: 0 <= i < j < |row.ranges| ==> row.ranges[i].1 < row.ranges[j].0)
  {
    assert StateShaped(t, s);
    hide WellFormed, EdgeOf;
    var row, keys := RowOf(t, s), t.keyOffsets[s] + t.singleLengths[s];
    forall i, j | 0 <= i < j < |row.ranges| ensures row.ranges[i].1 < row.ranges[j].0 {
      assert row.ranges[i].1 == Hi(t.transKeys, keys, i) && row.ranges[j].0 == Lo(t.transKeys, keys, j);
    }
  }

  /**
   The searches cannot be misled by order: in a well-formed table the edge a byte takes is the edge of every
   single key equal to it, else of every interval that holds it, else the default.
   */
  lemma PickIsUnique(t: Tables, s: nat, w: int, k: nat)
    requires WellFormed(t) && s < States(t)
    ensures var row := RowOf(t, s);
      && (k < |row.singles| && row.singles[k] == w ==> Pick(row, w) == row.edges[k])
      && (w !in row.singles && k < |row.ranges| && row.ranges[k].0 <= w <= row.ranges[k].1
          ==> Pick(row, w) == row.edges[|row.singles| + k])
      && (w !in row.singles && (forall j :: 0 <= j < |row.ranges| ==> !(row.ranges[j].0 <= w <= row.ranges[j].1))
          ==> Pick(row, w) == row.edges[|row.singles| + |row.ranges|])
  {
    RowSorted(t, s);
    hide WellFormed, RowOf, StateShaped, Pick;
    var row := RowOf(t, s);
    if k < |row.singles| && row.singles[k] == w {
      SinglePicks(row, w, k);
    } else if w !in row.singles {
      if k < |row.ranges| && row.ranges[k].0 <= w <= row.ranges[k].1 {
        RangePicks(row, w, k);
      } else if forall j :: 0 <= j < |row.ranges| ==> !(row.ranges[j].0 <= w <= row.ranges[j].1) {
        DefaultPicks(row, w);
      }
    }
  }

  // ---- The binary searches ----

  /** Search of the single keys; `lower` and `upper` play the two key pointers. */
  method SearchSingles(keys: seq<int>, base: nat, n: nat, w: int) returns (k: nat)
    requires base + n <= |keys|
    requires SinglesSorted(keys, base, n)
    ensures k == KeyIndex(keys[base..base + n], w, 0)
  {
    var lower, upper := base, base + n - 1;
    while true
      invariant base <= lower <= base + n && lower - 1 <= upper < base + n
      invariant forall j :: base <= j < lower ==> keys[j] < w
      invariant forall j :: upper < j < base + n ==> w < keys[j]
      decreases upper + 1 - lower
    {
      if upper < lower {
        break;
      }
      var mid := lower + (upper - lower) / 2;
      if w < keys[mid] {
        upper := mid - 1;
      } else if keys[mid] < w {
        lower := mid + 1;
      } else {
        KeyIndexIs(keys[base..base + n], w, 0, mid - base);
        return mid - base;
      }
    }
    KeyIndexIs(keys[base..base + n], w, 0, n);
    return n;
  }

  /**
   Search of interval pairs. The two pointers move by whole pairs: `mid` is rounded down to an even
   distance from `base`, so `mid` and `mid + 1` are always the two ends of one interval.
   */
  method SearchPairs(keys: seq<int>, base: nat, n: nat, w: int) returns (k: nat)
    requires base + 2 * n <= |keys|
    requires PairsSorted(keys, base, n)
    ensures k == PairIndex(Pairs(keys, base, n), w, 0)
  {
    var lower, upper := base, base + 2 * n - 2;
    ghost var lo, up := 0, n - 1;
    while true
      invariant 0 <= lo <= n && lo - 1 <= up < n
      invariant lower == base + 2 * lo && upper == base + 2 * up
      invariant forall j :: 0 <= j < lo ==> Hi(keys, base, j) < w
      invariant forall j :: up < j < n ==> w < Lo(keys, base, j)
      decreases upper + 2 - lower
    {
      if upper < lower {
        break;
      }
      var half := (upper - lower) / 2;
      var mid := lower + (half - half % 2);
      ghost var m := lo + (up - lo) / 2;
      assert mid == base + 2 * m;
      assert keys[mid] == Lo(keys, base, m) && keys[mid + 1] == Hi(keys, base, m);
      if w < keys[mid] {
        upper := mid - 2;
        up := m - 1;
      } else if keys[mid + 1] < w {
        lower := mid + 2;
        lo := m + 1;
      } else {
        assert (mid - base) / 2 == m;
        PairIndexIs(Pairs(keys, base, n), w, 0, m);
        return (mid - base) / 2;
      }
    }
    PairIndexIs(Pairs(keys, base, n), w, 0, n);
    return n;
  }

  /** What the three searches find in the flat arrays is what the row says. */
  lemma RowReads(t: Tables, s: nat, k: nat)
    requires WellFormed(t) && s < States(t)
    ensures StateShaped(t, s)
    ensures var row := RowOf(t, s);
      && row.conds == Pairs(t.condKeys, 2 * t.condOffsets[s], t.condLengths[s])
      && |row.spaces| == t.condLengths[s]
      && (k < t.condLengths[s] ==> row.spaces[k] == t.condSpaces[t.condOffsets[s] + k])
      && row.singles == t.transKeys[t.keyOffsets[s]..t.keyOffsets[s] + t.singleLengths[s]]
      && row.ranges == Pairs(t.transKeys, t.keyOffsets[s] + t.singleLengths[s], t.rangeLengths[s])
  {
    hide EdgeOf, TransShaped;
  }

  lemma EdgeReads(t: Tables, s: nat, k: nat)
    requires WellFormed(t) && s < States(t) && k < |RowOf(t, s).edges|
    ensures t.indexOffsets[s] + k < |t.indicies| && t.indicies[t.indexOffsets[s] + k] < |t.transTargs|
    ensures RowOf(t, s).edges[k] == EdgeOf(t, t.indicies[t.indexOffsets[s] + k])
  {
    assert StateShaped(t, s);
    hide EdgeOf, TransShaped, SinglesSorted, PairsSorted;
  }

  /**
   A row is what the offsets of its state cut out of the flat arrays: pairs side by side, singles before ranges, one
   transition for each of them and one more, and with each transition the action list that its offset counts out.
   */
  lemma RowIsCutOut(t: Tables, s: nat, k: nat)
    requires WellFormed(t) && s < States(t)
    ensures StateShaped(t, s)
    ensures var row := RowOf(t, s);
      var (co, ko, sn) := (t.condOffsets[s], t.keyOffsets[s], t.singleLengths[s]);
      && |row.conds| == |row.spaces| == t.condLengths[s] && |row.singles| == sn && |row.ranges| == t.rangeLengths[s]
      && |row.edges| == sn + t.rangeLengths[s] + 1
      && (k < |row.conds| ==>
            row.conds[k] == (t.condKeys[2 * co + 2 * k], t.condKeys[2 * co + 2 * k + 1])
            && row.spaces[k] == t.condSpaces[co + k])
      && (k < |row.singles| ==> row.singles[k] == t.transKeys[ko + k])
      && (k < |row.ranges| ==>
            row.ranges[k] == (t.transKeys[ko + sn + 2 * k], t.transKeys[ko + sn + 2 * k + 1]))
  {
    RowReads(t, s, k);
    hide EdgeOf, TransShaped, SinglesSorted, PairsSorted;
  }

  lemma EdgeIsCutOut(t: Tables, s: nat, k: nat)
    requires WellFormed(t) && s < States(t) && k < |RowOf(t, s).edges|
    ensures t.indexOffsets[s] + k < |t.indicies| && t.indicies[t.indexOffsets[s] + k] < |t.transTargs|
    ensures TransShaped(t, t.indicies[t.indexOffsets[s] + k])
    ensures var (e, i) := (RowOf(t, s).edges[k], t.indicies[t.indexOffsets[s] + k]);
      var at := t.transActions[i];
      && e.target == t.transTargs[i] && |e.actions| == (if at == 0 then 0 else t.actions[at])
      && forall j :: 0 <= j < |e.actions| ==> e.actions[j] == t.actions[at + 1 + j]
  {
    EdgeReads(t, s, k);
    hide RowOf, StateShaped;
  }

  /**
   A byte is widened by the first condition pair that holds it, if that has condition 0: 256 up, or 512 up when the
   flag is on. Any other byte stays what it is.
   */
  lemma WidensExactly(row: Row, c: int, relaxed: bool, k: nat)
    requires |row.spaces| == |row.conds| && k <= |row.conds|
    requires forall j :: 0 <= j < k ==> c < row.conds[j].0 || row.conds[j].1 < c
    requires k < |row.conds| ==> row.conds[k].0 <= c <= row.conds[k].1
    ensures Widen(row, c, relaxed) - c ==
            if k < |row.conds| && row.spaces[k] == 0 then (if relaxed then 512 else 256) else 0
  {
    PairIndexIs(row.conds, c, 0, k);
  }

  /**
   One lookup of the driver: widen the byte if a condition covers it, then search the single keys, then the
   ranges, then fall back to the default; the result is an index into the transition arrays.
   */
  method Lookup(t: Tables, s: nat, c: int, relaxed: bool) returns (trans: nat)
    requires WellFormed(t) && s < States(t)
    ensures trans < |t.transTargs|
    ensures EdgeOf(t, trans) == TakeByte(RowOf(t, s), c, relaxed)
  {
    ghost var row := RowOf(t, s);
    RowReads(t, s, 0);
    hide WellFormed, RowOf, EdgeOf, KeyIndex, PairIndex, SinglesSorted, PairsSorted, Pairs;
    var w := c;
    var condAt := SearchPairs(t.condKeys, 2 * t.condOffsets[s], t.condLengths[s], c);
    RowReads(t, s, condAt);
    if condAt < t.condLengths[s] {
      if t.condSpaces[t.condOffsets[s] + condAt] == 0 {
        w := 128 + (c - -128);
        if relaxed {
          w := w + 256;
        }
      }
    }
    assert w == Widen(row, c, relaxed);
    hide Widen;
    var index := t.indexOffsets[s];
    var single := SearchSingles(t.transKeys, t.keyOffsets[s], t.singleLengths[s], w);
    index := index + single;
    if single == t.singleLengths[s] {
      var range := SearchPairs(t.transKeys, t.keyOffsets[s] + t.singleLengths[s], t.rangeLengths[s], w);
      index := index + range;
    }
    assert index == t.indexOffsets[s] + EdgeIndex(row, w);
    EdgeReads(t, s, EdgeIndex(row, w));
    return t.indicies[index];
  }
}
