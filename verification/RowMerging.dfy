/**
 The merging functions of the addresses table: the full merge, the merge of a
 range and the counts. A pointer that the code shares between its map and its
 list of merged rows is an index into the list here.
 */
module RowMerging {
  import opened Wrappers
  import opened Bytes
  import opened AddressRows
  import opened Common

  /** AddrTxnViewType; any number that is none of its values is unknown. */
  datatype View =
    | ViewAll | ViewCredit | ViewDebit | ViewUnspent | MergedAll | MergedCredit | MergedDebit | ViewUnknown

  predicate IsMergedView(view: View) { view.MergedAll? || view.MergedCredit? || view.MergedDebit? }

  /** wrongDirection, for a merged view */
  predicate Wrong(view: View, funding: bool) {
    (view.MergedCredit? && !funding) || (view.MergedDebit? && funding)
  }

  function Filter(rows: seq<Row>, view: View): seq<Row> {
    if rows == [] then []
    else
      var front, r := Filter(rows[..|rows| - 1], view), rows[|rows| - 1];
      if Wrong(view, r.isFunding) then front else front + [r]
  }

  function IsCredit(r: Row): bool { r.isFunding }

  function IsDebit(r: Row): bool { !r.isFunding }

  /** The credit view keeps the credits and the debit view the debits, in order; the third keeps all. */
  lemma {:induction false} FilterIs(rows: seq<Row>)
    ensures Picks(rows, Filter(rows, MergedCredit), IsCredit)
    ensures Picks(rows, Filter(rows, MergedDebit), IsDebit)
    ensures Filter(rows, MergedAll) == rows
  {
    hide Picks;
    if rows == [] {
      PicksNone(IsCredit);
      PicksNone(IsDebit);
    } else {
      var n := |rows| - 1;
      FilterIs(rows[..n]);
      assert rows[..n] + [rows[n]] == rows;
      PicksNext(rows[..n], Filter(rows[..n], MergedCredit), IsCredit, rows[n]);
      PicksNext(rows[..n], Filter(rows[..n], MergedDebit), IsDebit, rows[n]);
    }
  }

  /** A merged view shows row i: all rows, or those of its direction. */
  ghost predicate ShownAt(rows: seq<Row>, view: View, i: int) {
    0 <= i < |rows| && (view.MergedAll? || rows[i].isFunding == view.MergedCredit?)
  }

  /** The transactions with a row that a merged view shows. */
  ghost function Shown(rows: seq<Row>, view: View): set<Hash> {
    set i | 0 <= i < |rows| && ShownAt(rows, view, i) :: rows[i].txHash
  }

  /** A merged view never shows a credit as a debit, or the reverse. */
  ghost predicate InDirection(merged: seq<Merged>, view: View) {
    && (view.MergedCredit? ==> forall k :: 0 <= k < |merged| ==> merged[k].debit == 0)
    && (view.MergedDebit? ==> forall k :: 0 <= k < |merged| ==> merged[k].credit == 0)
  }

  // ----- compact rows

  function Compact(r: AddressRow): Row {
    Row(r.address, r.time, r.txHash, r.matchingTxHash, r.vinVoutIndex, r.txType, r.validMainChain, r.isFunding, r.value)
  }

  function Compacted(rows: seq<AddressRow>): (c: seq<Row>)
    ensures |c| == |rows| && forall i :: 0 <= i < |rows| ==> c[i] == Compact(rows[i])
  {
    if rows == [] then [] else Compacted(rows[..|rows| - 1]) + [Compact(rows[|rows| - 1])]
  }

  /** UncompactRows, of one row */
  function Uncompact(r: Row): AddressRow {
    AddressRow(r.address, r.validMainChain, r.matchingTxHash, r.isFunding, r.time, r.txHash, r.vinVoutIndex, r.value,
               0, 0, r.txType, 0, 0)
  }

  function Uncompacted(rows: seq<Row>): (u: seq<AddressRow>)
    ensures |u| == |rows| && forall i :: 0 <= i < |rows| ==> u[i] == Uncompact(rows[i])
  {
    if rows == [] then [] else Uncompacted(rows[..|rows| - 1]) + [Uncompact(rows[|rows| - 1])]
  }

  /** UncompactMergedRows, of one row */
  function UncompactMerged(m: Merged): AddressRow {
    AddressRow(m.address, m.validMainChain, None, m.IsFunding(), m.time, m.txHash, 0, m.Value(), 0, m.count, m.txType,
               0, 0)
  }

  function UncompactedMerged(ms: seq<Merged>): (u: seq<AddressRow>)
    ensures |u| == |ms| && forall i :: 0 <= i < |ms| ==> u[i] == UncompactMerged(ms[i])
  {
    if ms == [] then [] else UncompactedMerged(ms[..|ms| - 1]) + [UncompactMerged(ms[|ms| - 1])]
  }

  lemma CompactedNext(rows: seq<AddressRow>, i: nat)
    requires i < |rows|
    ensures Compacted(rows[..i + 1]) == Compacted(rows[..i]) + [Compact(rows[i])]
  {
    assert rows[..i + 1][..i] == rows[..i];
  }

  /** CompactRows */
  method CompactRows(rows: seq<AddressRow>) returns (compact: seq<Row>)
    ensures compact == Compacted(rows)
  {
    compact := [];
    for i := 0 to |rows|
      invariant compact == Compacted(rows[..i])
    {
      CompactedNext(rows, i);
      compact := compact + [Compact(rows[i])];
    }
    assert rows[..|rows|] == rows;
  }

  // ----- the full merge

  /** The map from hashes to merged rows, as positions. */
  ghost predicate Indexes(index: map<Hash, nat>, hs: seq<Hash>) {
    && (forall k :: 0 <= k < |hs| ==> hs[k] in index && index[hs[k]] == k)
    && (forall h :: h in index ==> index[h] < |hs| && hs[index[h]] == h)
  }

  /** The loop body shared by the merges: row r joins or begins a merged row. */
  method MergeOne(index: map<Hash, nat>, merged: seq<Merged>, r: Row, ghost rows: seq<Row>)
    returns (index': map<Hash, nat>, merged': seq<Merged>)
    requires merged == Merge(rows) && Indexes(index, Txs(rows))
    ensures merged' == Merge(rows + [r]) && Indexes(index', Txs(rows + [r]))
  {
    hide Merge, Txs;
    if r.txHash !in index {
      TxBegins(rows, r);
      MergeNew(rows, r);
      return index[r.txHash := |merged|], merged + [Begin(r)];
    }
    var k := index[r.txHash];
    MergeOld(rows, r, k);
    return index, merged[k := Join(merged[k], r)];
  }

  /** MergeRowsCompact */
  method MergeRowsCompact(rows: seq<Row>) returns (merged: seq<Merged>)
    ensures merged == Merge(rows)
  {
    hide Merge, Indexes, Txs;
    var index: map<Hash, nat> := map[];
    merged := [];
    EmptyMerge();
    for i := 0 to |rows|
      invariant merged == Merge(rows[..i]) && Indexes(index, Txs(rows[..i]))
    {
      assert rows[..i + 1] == rows[..i] + [rows[i]];
      index, merged := MergeOne(index, merged, rows[i], rows[..i]);
    }
    assert rows[..|rows|] == rows;
  }

  lemma EmptyMerge()
    ensures Merge([]) == [] && Indexes(map[], Txs([]))
  {
  }

  /** MergeRows */
  method MergeRows(rows: seq<AddressRow>) returns (r: Result<seq<Merged>>)
    ensures r.Err? <==> exists i :: 0 <= i < |rows| && rows[i].mergedCount > 0
    ensures r.Ok? ==> r.value == Merge(Compacted(rows))
  {
    hide Merge, Indexes, Txs, Compact, Compacted;
    var index: map<Hash, nat> := map[];
    var merged: seq<Merged> := [];
    EmptyMerge();
    for i := 0 to |rows|
      invariant forall j :: 0 <= j < i ==> rows[j].mergedCount == 0
      invariant merged == Merge(Compacted(rows[..i])) && Indexes(index, Txs(Compacted(rows[..i])))
    {
      if rows[i].mergedCount != 0 {
        return Err;
      }
      CompactedNext(rows, i);
      index, merged := MergeOne(index, merged, Compact(rows[i]), Compacted(rows[..i]));
    }
    assert rows[..|rows|] == rows;
    return Ok(merged);
  }

  // ----- the counts

  ghost function TxSet(rows: seq<Row>): set<Hash> {
    set h | h in Txs(rows)
  }

  lemma {:induction false} DistinctSize(hs: seq<Hash>)
    requires forall i, j :: 0 <= i < j < |hs| ==> hs[i] != hs[j]
    ensures |set h | h in hs| == |hs|
  {
    if hs != [] {
      var n := |hs| - 1;
      DistinctSize(hs[..n]);
      assert (set h | h in hs) == (set h | h in hs[..n]) + {hs[n]};
    }
  }

  lemma {:induction false} ShownIs(rows: seq<Row>, view: View, h: Hash)
    requires IsMergedView(view)
    ensures h in Txs(Filter(rows, view)) <==> exists i :: ShownAt(rows, view, i) && rows[i].txHash == h
  {
    hide Txs, Filter;
    if rows == [] {
      CountNone(view);
    } else {
      var n := |rows| - 1;
      var front, r := rows[..n], rows[n];
      ShownIs(front, view, h);
      assert front + [r] == rows;
      FilterNext(front, r, view);
      TxsNext(Filter(front, view), r);
      assert ShownAt(rows, view, n) <==> !Wrong(view, r.isFunding);
      if i :| ShownAt(front, view, i) && front[i].txHash == h {
        assert ShownAt(rows, view, i) && rows[i].txHash == h;
      }
      if i :| ShownAt(rows, view, i) && rows[i].txHash == h {
        assert i < n ==> ShownAt(front, view, i) && front[i].txHash == h;
      }
    }
  }

  /** The filtered merge has a row for each transaction shown. */
  lemma CountsShown(rows: seq<Row>, view: View)
    requires IsMergedView(view)
    ensures |Merge(Filter(rows, view))| == |Shown(rows, view)|
  {
    hide Txs, Merge, Filter;
    var hs := Txs(Filter(rows, view));
    forall h ensures h in Shown(rows, view) <==> h in hs {
      ShownIs(rows, view, h);
    }
    assert Shown(rows, view) == set h | h in hs;
    DistinctSize(hs);
  }

  lemma CountNone(view: View)
    ensures Compacted([]) == [] && Txs(Filter([], view)) == [] && TxSet(Filter([], view)) == {}
  {
  }

  /** CountMergedRowsCompact: the number of rows of the filtered merge. */
  method CountMergedRowsCompact(rows: seq<Row>, view: View) returns (r: Result<nat>)
    ensures r.Ok? <==> view in {MergedAll, MergedCredit, MergedDebit}
    ensures r.Ok? ==> r.value == |Merge(Filter(rows, view))| == |Shown(rows, view)|
  {
    hide Merge, Filter, Txs, TxSet, Compacted, Compact, Shown;
    if IsMergedView(view) {
      CountsShown(rows, view);
    }
    if !IsMergedView(view) {
      return Err;
    }
    CountNone(view);
    var numMerged, seen := 0, {};
    for i := 0 to |rows|
      invariant numMerged == |Txs(Filter(rows[..i], view))|
      invariant seen == TxSet(Filter(rows[..i], view))
    {
      numMerged, seen := CountOne(numMerged, seen, rows[i], view, rows[..i]);
      assert rows[..i + 1] == rows[..i] + [rows[i]];
    }
    assert rows[..|rows|] == rows;
    return Ok(numMerged);
  }

  method CountOne(n: nat, seen: set<Hash>, r: Row, view: View, ghost rows: seq<Row>)
    returns (n': nat, seen': set<Hash>)
    requires n == |Txs(Filter(rows, view))| && seen == TxSet(Filter(rows, view))
    ensures n' == |Txs(Filter(rows + [r], view))| && seen' == TxSet(Filter(rows + [r], view))
  {
    assert (rows + [r])[..|rows|] == rows;
    if Wrong(view, r.isFunding) {
      return n, seen;
    }
    ghost var f := Filter(rows, view);
    assert (f + [r])[..|f|] == f;
    if r.txHash !in seen {
      return n + 1, seen + {r.txHash};
    }
    return n, seen;
  }

  /** CountMergedRows: as MergeRows, it refuses merged rows, whatever their direction. */
  method CountMergedRows(rows: seq<AddressRow>, view: View) returns (r: Result<nat>)
    ensures r.Ok? <==>
              && view in {MergedAll, MergedCredit, MergedDebit}
              && forall i :: 0 <= i < |rows| ==> rows[i].mergedCount == 0
    ensures r.Ok? ==> r.value == |Merge(Filter(Compacted(rows), view))| == |Shown(Compacted(rows), view)|
  {
    hide Merge, Filter, Txs, TxSet, Compacted, Compact, Shown;
    if IsMergedView(view) {
      CountsShown(Compacted(rows), view);
    }
    if !IsMergedView(view) {
      return Err;
    }
    CountNone(view);
    var numMerged, seen := 0, {};
    for i := 0 to |rows|
      invariant forall j :: 0 <= j < i ==> rows[j].mergedCount == 0
      invariant numMerged == |Txs(Filter(Compacted(rows[..i]), view))|
      invariant seen == TxSet(Filter(Compacted(rows[..i]), view))
    {
      if rows[i].mergedCount != 0 {
        return Err;
      }
      numMerged, seen := CountOne(numMerged, seen, Compact(rows[i]), view, Compacted(rows[..i]));
      CompactedNext(rows, i);
    }
    assert rows[..|rows|] == rows;
    return Ok(numMerged);
  }

  // ----- the merge of a range

  /** The number of rows up to the one that completes the skip of `offset` transactions. */
  function SkipTo(rows: seq<Row>, offset: nat): (p: nat)
    ensures p <= |rows|
  {
    if rows == [] then 0
    else
      var front := rows[..|rows| - 1];
      if |Txs(front)| < offset then |rows| else SkipTo(front, offset)
  }

  function Take(ms: seq<Merged>, n: nat): seq<Merged> {
    if |ms| <= n then ms else ms[..n]
  }

  /** The first n merged rows of what follows the skip. */
  function Range(rows: seq<Row>, n: nat, offset: nat): seq<Merged> {
    Take(Merge(rows[SkipTo(rows, offset)..]), n)
  }

  /** The page of the full merge. */
  function Page(rows: seq<Row>, n: nat, offset: nat): seq<Merged> {
    var ms := Merge(rows);
    if offset >= |ms| then [] else Take(ms[offset..], n)
  }

  lemma {:induction false} TxsMember(rows: seq<Row>, h: Hash)
    ensures h in Txs(rows) <==> exists k :: 0 <= k < |rows| && rows[k].txHash == h
  {
    if rows != [] {
      var front := rows[..|rows| - 1];
      TxsMember(front, h);
      assert forall k :: 0 <= k < |front| ==> front[k] == rows[k];
    }
  }

  lemma TxsNext(rows: seq<Row>, r: Row)
    ensures Txs(rows + [r]) == if r.txHash in Txs(rows) then Txs(rows) else Txs(rows) + [r.txHash]
  {
    assert (rows + [r])[..|rows|] == rows;
  }

  lemma EmptyTxs()
    ensures Txs([]) == []
  {
  }

  lemma SkipNext(rows: seq<Row>, r: Row, offset: nat)
    ensures SkipTo(rows + [r], offset) == if |Txs(rows)| < offset then |rows| + 1 else SkipTo(rows, offset)
  {
    assert (rows + [r])[..|rows|] == rows;
  }

  /** The skip completes exactly when `offset` transactions are seen. */
  lemma {:induction false} SkipCount(rows: seq<Row>, offset: nat)
    ensures var p := SkipTo(rows, offset);
            && |Txs(rows[..p])| <= offset
            && (|Txs(rows[..p])| < offset ==> p == |rows|)
  {
    hide Txs, SkipTo;
    if rows == [] {
      EmptyTxs();
    } else {
      var n := |rows| - 1;
      var front := rows[..n];
      SkipCount(front, offset);
      assert front + [rows[n]] == rows;
      TxsNext(front, rows[n]);
      SkipNext(front, rows[n], offset);
      assert front[..n] == front && rows[..n + 1] == rows;
      var p := SkipTo(front, offset);
      assert front[..p] == rows[..p];
    }
  }

  function TakeTxs(hs: seq<Hash>, n: nat): seq<Hash> {
    if |hs| <= n then hs else hs[..n]
  }

  /** The first n merged rows, with the map from hashes to them. */
  ghost predicate Window(rows: seq<Row>, n: nat, index: map<Hash, nat>, merged: seq<Merged>) {
    merged == Take(Merge(rows), n) && Indexes(index, TakeTxs(Txs(rows), n))
  }

  lemma WindowJoin(rows: seq<Row>, r: Row, n: nat, index: map<Hash, nat>, merged: seq<Merged>)
    requires Window(rows, n, index, merged) && r.txHash in index
    ensures var k := index[r.txHash];
            k < |merged| && Window(rows + [r], n, index, merged[k := Join(merged[k], r)])
  {
    hide Merge, Txs, Join;
    MergeOld(rows, r, index[r.txHash]);
  }

  lemma TakenIndexed(hs: seq<Hash>, n: nat, index: map<Hash, nat>, k: nat)
    requires Indexes(index, TakeTxs(hs, n)) && k < |hs|
    ensures k < n ==> hs[k] in index
  {
    if k < n {
      assert TakeTxs(hs, n)[k] == hs[k];
    }
  }

  lemma TakeSame(ms: seq<Merged>, more: seq<Merged>, n: nat)
    requires |ms| >= n && |more| >= n && forall i :: 0 <= i < n ==> more[i] == ms[i]
    ensures Take(more, n) == Take(ms, n)
  {
  }

  lemma TakeTxsSame(hs: seq<Hash>, more: seq<Hash>, n: nat)
    requires |hs| >= n && hs <= more
    ensures TakeTxs(more, n) == TakeTxs(hs, n)
  {
  }

  lemma WindowFull(rows: seq<Row>, r: Row, n: nat, index: map<Hash, nat>, merged: seq<Merged>)
    requires Window(rows, n, index, merged) && r.txHash !in index && |merged| == n
    ensures Window(rows + [r], n, index, merged)
  {
    hide Merge, Txs, Join, Begin, Indexes, TakeTxs;
    var hs := Txs(rows);
    TxsNext(rows, r);
    if r.txHash in hs {
      var k :| 0 <= k < |hs| && hs[k] == r.txHash;
      TakenIndexed(hs, n, index, k);
      MergeOld(rows, r, k);
    } else {
      MergeNew(rows, r);
    }
    TakeSame(Merge(rows), Merge(rows + [r]), n);
    TakeTxsSame(hs, Txs(rows + [r]), n);
  }

  lemma WindowBegin(rows: seq<Row>, r: Row, n: nat, index: map<Hash, nat>, merged: seq<Merged>)
    requires Window(rows, n, index, merged) && r.txHash !in index && |merged| != n
    ensures Window(rows + [r], n, index[r.txHash := |merged|], merged + [Begin(r)])
  {
    hide Merge, Txs, Join, Begin;
    var hs := Txs(rows);
    assert TakeTxs(hs, n) == hs;
    TxsNext(rows, r);
    MergeNew(rows, r);
  }

  /** The state of the range loop after the rows g of the right direction. */
  ghost predicate RangeSoFar(g: seq<Row>, n: nat, offset: nat, skipped: nat, seen: set<Hash>,
                             index: map<Hash, nat>, merged: seq<Merged>)
  {
    && skipped <= offset
    && (skipped < offset ==> |Txs(g)| == skipped && SkipTo(g, offset) == |g|)
    && (skipped == offset ==> |Txs(g)| >= offset)
    && (skipped < offset ==> seen == TxSet(g))
    && Window(g[SkipTo(g, offset)..], n, index, merged)
  }

  lemma RangeStart(n: nat, offset: nat)
    ensures RangeSoFar([], n, offset, 0, {}, map[], [])
  {
  }

  /** The row r is skipped. */
  lemma RangeSkip(g: seq<Row>, r: Row, n: nat, offset: nat, skipped: nat, seen: set<Hash>,
                  index: map<Hash, nat>, merged: seq<Merged>)
    requires RangeSoFar(g, n, offset, skipped, seen, index, merged) && skipped < offset
    ensures r.txHash in seen ==> RangeSoFar(g + [r], n, offset, skipped, seen, index, merged)
    ensures r.txHash !in seen ==> RangeSoFar(g + [r], n, offset, skipped + 1, seen + {r.txHash}, index, merged)
  {
    hide Txs, SkipTo, Window;
    TxsNext(g, r);
    SkipNext(g, r, offset);
    assert g[|g|..] == [] == (g + [r])[|g| + 1..];
  }

  /** The row r is past the skip: it is one more to merge. */
  lemma RangeRest(g: seq<Row>, r: Row, n: nat, offset: nat, seen: set<Hash>,
                  index: map<Hash, nat>, merged: seq<Merged>, index': map<Hash, nat>, merged': seq<Merged>)
    requires RangeSoFar(g, n, offset, offset, seen, index, merged)
    requires Window(g[SkipTo(g, offset)..] + [r], n, index', merged')
    ensures RangeSoFar(g + [r], n, offset, offset, seen, index', merged')
  {
    hide Txs, SkipTo, Window;
    TxsNext(g, r);
    SkipNext(g, r, offset);
    var p := SkipTo(g, offset);
    assert (g + [r])[p..] == g[p..] + [r];
  }

  /** The rows of the right direction among AddressRows, and whether one of them is merged. */
  predicate BadDirected(rows: seq<AddressRow>, view: View) {
    exists i :: 0 <= i < |rows| && !Wrong(view, rows[i].isFunding) && rows[i].mergedCount != 0
  }

  /** A range is refused for a row that has been merged before, if its view would show the row. */
  lemma BadDirectedIff(rows: seq<AddressRow>, view: View)
    requires view in {MergedAll, MergedCredit, MergedDebit}
    ensures BadDirected(rows, view) <==>
            exists i :: ShownAt(Compacted(rows), view, i) && rows[i].mergedCount > 0
  {
    hide Compacted;
    if i :| 0 <= i < |rows| && !Wrong(view, rows[i].isFunding) && rows[i].mergedCount != 0 {
      assert ShownAt(Compacted(rows), view, i);
    }
  }

  /** The range loop's body, for a row of the right direction; n is positive. */
  method RangeOne(r: Row, n: nat, offset: nat, skipped: nat, seen: set<Hash>, index: map<Hash, nat>,
                  merged: seq<Merged>, ghost g: seq<Row>)
    returns (skipped': nat, seen': set<Hash>, index': map<Hash, nat>, merged': seq<Merged>)
    requires n > 0 && RangeSoFar(g, n, offset, skipped, seen, index, merged)
    ensures RangeSoFar(g + [r], n, offset, skipped', seen', index', merged')
  {
    hide Txs, SkipTo, Window, RangeSoFar;
    skipped', seen', index', merged' := skipped, seen, index, merged;
    SkippingIsEmpty(g, n, offset, skipped, seen, index, merged);
    ghost var rest := g[SkipTo(g, offset)..];
    if r.txHash !in index {
      if |merged| == n {
        WindowFull(rest, r, n, index, merged);
        RangeRest(g, r, n, offset, seen, index, merged, index, merged);
        return;
      }
      if skipped < offset {
        RangeSkip(g, r, n, offset, skipped, seen, index, merged);
        if r.txHash !in seen {
          skipped', seen' := skipped + 1, seen + {r.txHash};
        }
        return;
      }
      WindowBegin(rest, r, n, index, merged);
      index', merged' := index[r.txHash := |merged|], merged + [Begin(r)];
      RangeRest(g, r, n, offset, seen, index, merged, index', merged');
      return;
    }
    var k := index[r.txHash];
    WindowJoin(rest, r, n, index, merged);
    merged' := merged[k := Join(merged[k], r)];
    RangeRest(g, r, n, offset, seen, index, merged, index, merged');
  }

  lemma SkippingIsEmpty(g: seq<Row>, n: nat, offset: nat, skipped: nat, seen: set<Hash>,
                        index: map<Hash, nat>, merged: seq<Merged>)
    requires RangeSoFar(g, n, offset, skipped, seen, index, merged)
    ensures skipped <= offset && Window(g[SkipTo(g, offset)..], n, index, merged)
    ensures skipped < offset ==> index == map[] && merged == []
  {
    hide SkipTo;
    if skipped < offset {
      assert g[|g|..] == [];
      EmptyMerge();
    }
  }

  lemma RangeIs(g: seq<Row>, n: nat, offset: nat, skipped: nat, seen: set<Hash>,
                index: map<Hash, nat>, merged: seq<Merged>)
    requires RangeSoFar(g, n, offset, skipped, seen, index, merged)
    ensures merged == Range(g, n, offset)
  {
  }

  lemma FilterNext(rows: seq<Row>, r: Row, view: View)
    ensures Filter(rows + [r], view) == if Wrong(view, r.isFunding) then Filter(rows, view) else Filter(rows, view) + [r]
  {
    assert (rows + [r])[..|rows|] == rows;
  }

  lemma FilterDirection(rows: seq<Row>, view: View)
    requires view.MergedCredit? || view.MergedDebit?
    ensures forall k :: 0 <= k < |Filter(rows, view)| ==> Filter(rows, view)[k].isFunding == view.MergedCredit?
  {
    hide Filter, Picks;
    FilterIs(rows);
    if view.MergedCredit? {
      AllPicked(rows, Filter(rows, view), IsCredit);
    } else {
      AllPicked(rows, Filter(rows, view), IsDebit);
    }
  }

  lemma RangeDirection(rows: seq<Row>, n: nat, offset: nat, view: View)
    ensures InDirection(Range(Filter(rows, view), n, offset), view)
  {
    hide Filter, SkipTo, Merge;
    if view.MergedCredit? || view.MergedDebit? {
      var f := Filter(rows, view);
      FilterDirection(rows, view);
      MergeOneWay(f[SkipTo(f, offset)..], view.MergedCredit?);
    }
  }

  /** MergeRowsCompactRange; an invalid request gives no rows. */
  method MergeRowsCompactRange(rows: seq<Row>, n: int, offset: int, view: View) returns (merged: seq<Merged>)
    ensures merged == if n <= 0 || offset < 0 || view !in {MergedAll, MergedCredit, MergedDebit} then []
                      else Range(Filter(rows, view), n, offset)
    ensures InDirection(merged, view)
  {
    hide Txs, SkipTo, RangeSoFar, Range, Filter;
    if n > 0 && offset >= 0 {
      RangeDirection(rows, n, offset, view);
    }
    if offset < 0 || n < 0 || !IsMergedView(view) {
      return [];
    }
    if n == 0 || |rows| == 0 {
      NoRange(n, offset, view);
      assert |rows| == 0 ==> rows == [];
      return [];
    }
    var skipped: nat, seen: set<Hash>, index: map<Hash, nat> := 0, {}, map[];
    merged := [];
    NoRange(n, offset, view);
    RangeStart(n, offset);
    for i := 0 to |rows|
      invariant RangeSoFar(Filter(rows[..i], view), n, offset, skipped, seen, index, merged)
    {
      assert rows[..i + 1] == rows[..i] + [rows[i]];
      FilterNext(rows[..i], rows[i], view);
      if Wrong(view, rows[i].isFunding) {
        continue;
      }
      skipped, seen, index, merged :=
        RangeOne(rows[i], n, offset, skipped, seen, index, merged, Filter(rows[..i], view));
    }
    assert rows[..|rows|] == rows;
    RangeIs(Filter(rows, view), n, offset, skipped, seen, index, merged);
  }

  lemma NoRange(n: nat, offset: nat, view: View)
    ensures Filter([], view) == [] && Range([], n, offset) == []
  {
    EmptyMerge();
  }

  /** MergeRowsRange */
  method MergeRowsRange(rows: seq<AddressRow>, n: int, offset: int, view: View) returns (r: Result<seq<Merged>>)
    ensures r.Err? <==>
              || n < 0 || offset < 0 || view !in {MergedAll, MergedCredit, MergedDebit}
              || (n > 0 && BadDirected(rows, view))
    ensures r.Ok? ==> r.value == if n == 0 then [] else Range(Filter(Compacted(rows), view), n, offset)
    ensures r.Ok? ==> InDirection(r.value, view)
  {
    hide Txs, SkipTo, RangeSoFar, Range, Filter, Compact, Compacted;
    if n > 0 && offset >= 0 {
      RangeDirection(Compacted(rows), n, offset, view);
    }
    if offset < 0 || n < 0 {
      return Err;
    }
    if !IsMergedView(view) {
      return Err;
    }
    NoRange(n, offset, view);
    NoCompact();
    if n == 0 || |rows| == 0 {
      assert |rows| == 0 ==> rows == [];
      return Ok([]);
    }
    var skipped: nat, seen: set<Hash>, index: map<Hash, nat> := 0, {}, map[];
    var merged: seq<Merged> := [];
    RangeStart(n, offset);
    for i := 0 to |rows|
      invariant forall j :: 0 <= j < i ==> Wrong(view, rows[j].isFunding) || rows[j].mergedCount == 0
      invariant RangeSoFar(Filter(Compacted(rows[..i]), view), n, offset, skipped, seen, index, merged)
    {
      CompactedNext(rows, i);
      KeepsDirection(rows[i]);
      FilterNext(Compacted(rows[..i]), Compact(rows[i]), view);
      if Wrong(view, rows[i].isFunding) {
        continue;
      }
      if rows[i].mergedCount != 0 {
        return Err;
      }
      skipped, seen, index, merged :=
        RangeOne(Compact(rows[i]), n, offset, skipped, seen, index, merged, Filter(Compacted(rows[..i]), view));
    }
    assert rows[..|rows|] == rows;
    RangeIs(Filter(Compacted(rows), view), n, offset, skipped, seen, index, merged);
    return Ok(merged);
  }

  lemma NoCompact()
    ensures Compacted([]) == []
  {
  }

  lemma KeepsDirection(r: AddressRow)
    ensures Compact(r).isFunding == r.isFunding
  {
  }

  /** A merged row that is given out: its fields are those of the transaction's first row, its value the net. */
  lemma GivenOut(rows: seq<Row>, i: int)
    requires IsFirst(rows, i)
    ensures exists k ::
              && 0 <= k < |Merge(rows)|
              && var m, u := Merge(rows)[k], UncompactedMerged(Merge(rows))[k];
              && u.txHash == rows[i].txHash && u.address == rows[i].address && u.time == rows[i].time
              && u.txType == rows[i].txType && u.validMainChain == rows[i].validMainChain
              && u.mergedCount == |Places(rows, rows[i].txHash)|
              && (u.isFunding <==> m.credit > m.debit)
              && (u.isFunding ==> u.value == m.credit - m.debit)
              && (!u.isFunding ==> u.value == m.debit - m.credit)
              && u.matchingTxHash == None
  {
    hide Merge, Places;
    MergedIs(rows, i);
    var ms := Merge(rows);
    var k :| 0 <= k < |ms| && ms[k].txHash == rows[i].txHash && ms[k].address == rows[i].address
             && ms[k].time == rows[i].time && ms[k].txType == rows[i].txType
             && ms[k].validMainChain == rows[i].validMainChain && ms[k].count == |Places(rows, rows[i].txHash)|;
    assert UncompactedMerged(ms)[k] == UncompactMerged(ms[k]);
  }
}
