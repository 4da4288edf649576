/** When merging a range gives the page of the full merge, and what merging does to the balance of a history. */
module RowRanges {
  import opened Wrappers
  import opened Bytes
  import opened AddressRows
  import opened RowMerging

  // ----- transactions of two lists

  function Without(hs: seq<Hash>, gone: seq<Hash>): seq<Hash> {
    if hs == [] then []
    else
      var front, h := Without(hs[..|hs| - 1], gone), hs[|hs| - 1];
      if h in gone then front else front + [h]
  }

  lemma {:induction false} WithoutMember(hs: seq<Hash>, gone: seq<Hash>, h: Hash)
    ensures h in Without(hs, gone) <==> h in hs && h !in gone
  {
    if hs != [] {
      WithoutMember(hs[..|hs| - 1], gone, h);
    }
  }

  lemma WithoutNext(hs: seq<Hash>, gone: seq<Hash>, h: Hash)
    ensures Without(hs + [h], gone) == if h in gone then Without(hs, gone) else Without(hs, gone) + [h]
  {
    assert (hs + [h])[..|hs|] == hs;
  }

  /** The transactions of a + b are those of a, then those of b that are not in a. */
  lemma {:induction false} TxsConcat(a: seq<Row>, b: seq<Row>)
    ensures Txs(a + b) == Txs(a) + Without(Txs(b), Txs(a))
  {
    hide Txs, Without;
    if b == [] {
      EmptyTxs();
      WithoutShorter([], Txs(a));
      assert a + b == a;
    } else {
      var n := |b| - 1;
      var front, r := b[..n], b[n];
      assert front + [r] == b && (a + front) + [r] == a + b;
      TxsConcat(a, front);
      TxsNext(front, r);
      TxsNext(a + front, r);
      WithoutMember(Txs(front), Txs(a), r.txHash);
      WithoutNext(Txs(front), Txs(a), r.txHash);
    }
  }

  lemma ConcatMember(a: seq<Row>, b: seq<Row>, h: Hash)
    ensures h in Txs(a + b) <==> h in Txs(a) || h in Txs(b)
  {
    hide Txs, Without;
    TxsConcat(a, b);
    WithoutMember(Txs(b), Txs(a), h);
  }

  lemma FirstRowNext(rows: seq<Row>, r: Row, h: Hash)
    requires h in Txs(rows + [r])
    ensures FirstRow(rows + [r], h) == if h in Txs(rows) then FirstRow(rows, h) else r
  {
    assert (rows + [r])[..|rows|] == rows;
  }

  lemma {:induction false} SumsConcat(a: seq<Row>, b: seq<Row>, h: Hash)
    ensures Credit(a + b, h) == Credit(a, h) + Credit(b, h)
    ensures Debit(a + b, h) == Debit(a, h) + Debit(b, h)
    ensures Count(a + b, h) == Count(a, h) + Count(b, h)
  {
    if b == [] {
      assert a + b == a;
    } else {
      var n := |b| - 1;
      assert (a + b)[..|a| + n] == a + b[..n] && (a + b)[|a| + n] == b[n];
      SumsConcat(a, b[..n], h);
    }
  }

  lemma {:induction false} FirstRowConcat(a: seq<Row>, b: seq<Row>, h: Hash)
    requires h !in Txs(a) && h in Txs(b)
    ensures h in Txs(a + b) && FirstRow(a + b, h) == FirstRow(b, h)
  {
    hide Txs, FirstRow;
    if b == [] {
      EmptyTxs();
    } else {
      var n := |b| - 1;
      var front, r := b[..n], b[n];
      assert front + [r] == b && (a + front) + [r] == a + b;
      ConcatMember(a, b, h);
      ConcatMember(a, front, h);
      FirstRowNext(front, r, h);
      FirstRowNext(a + front, r, h);
      if h in Txs(front) {
        FirstRowConcat(a, front, h);
      }
    }
  }

  /** A transaction that begins in b is merged from b alone. */
  lemma LaterTx(a: seq<Row>, b: seq<Row>, h: Hash)
    requires h !in Txs(a) && h in Txs(b)
    ensures h in Txs(a + b) && MergeTx(a + b, h) == MergeTx(b, h)
  {
    FirstRowConcat(a, b, h);
    SumsConcat(a, b, h);
    AbsentIsZero(a, h);
  }

  // ----- the range and the page

  /** No transaction that was skipped is begun again after the skip, among the first n begun there. */
  predicate NoStraggler(skipped: seq<Row>, rest: seq<Row>, n: nat) {
    forall k :: 0 <= k < |Txs(rest)| && k < n ==> Txs(rest)[k] !in Txs(skipped)
  }

  lemma {:induction false} WithoutKeeps(hs: seq<Hash>, gone: seq<Hash>, n: nat)
    requires n <= |hs| && forall k :: 0 <= k < n ==> hs[k] !in gone
    ensures n <= |Without(hs, gone)| && Without(hs, gone)[..n] == hs[..n]
    decreases |hs|
  {
    if hs != [] {
      var m := |hs| - 1;
      if n <= m {
        WithoutKeeps(hs[..m], gone, n);
        assert hs[..m][..n] == hs[..n];
      } else {
        WithoutKeeps(hs[..m], gone, m);
        WithoutShorter(hs[..m], gone);
        assert hs == hs[..m] + [hs[m]];
      }
    }
  }

  lemma {:induction false} WithoutShorter(hs: seq<Hash>, gone: seq<Hash>)
    ensures |Without(hs, gone)| <= |hs|
  {
    if hs != [] {
      WithoutShorter(hs[..|hs| - 1], gone);
    }
  }

  /** Without a straggler the rows of the range are those of the full merge past the skip. */
  lemma RangeMatches(a: seq<Row>, b: seq<Row>, n: nat)
    requires NoStraggler(a, b, n)
    ensures |Txs(a)| <= |Merge(a + b)| && Take(Merge(b), n) == Take(Merge(a + b)[|Txs(a)|..], n)
  {
    hide Txs, MergeTx, Merge, Without;
    TxsConcat(a, b);
    var hs, later := Txs(b), Without(Txs(b), Txs(a));
    var m := if n < |hs| then n else |hs|;
    WithoutKeeps(hs, Txs(a), m);
    WithoutShorter(hs, Txs(a));
    var tail := Merge(a + b)[|Txs(a)|..];
    forall k | 0 <= k < m ensures Merge(b)[k] == tail[k] {
      assert later[..m][k] == hs[..m][k];
      LaterTx(a, b, hs[k]);
    }
  }

  lemma Distinct(rows: seq<Row>, i: nat, j: nat)
    requires i < j < |Txs(rows)|
    ensures Txs(rows)[i] != Txs(rows)[j]
  {
  }

  lemma MergedHash(rows: seq<Row>, k: nat)
    requires k < |Txs(rows)|
    ensures Merge(rows)[k].txHash == Txs(rows)[k]
  {
  }

  /** A straggler makes the range differ from the page. */
  lemma StragglerShows(a: seq<Row>, b: seq<Row>, n: nat, k: nat)
    requires k < |Txs(b)| && k < n && Txs(b)[k] in Txs(a)
    ensures |Txs(a)| <= |Merge(a + b)| && Take(Merge(b), n) != Take(Merge(a + b)[|Txs(a)|..], n)
  {
    hide Txs, MergeTx, Merge, Without, Take;
    TxsConcat(a, b);
    var h, ha := Txs(b)[k], |Txs(a)|;
    var j :| 0 <= j < ha && Txs(a)[j] == h;
    assert Txs(a + b)[j] == h;
    var tail := Merge(a + b)[ha..];
    forall i | 0 <= i < |tail| ensures tail[i].txHash != h {
      MergedHash(a + b, ha + i);
      Distinct(a + b, j, ha + i);
    }
    MergedHash(b, k);
    TakeAt(Merge(b), n, k);
    TakeAt(tail, n, k);
  }

  lemma TakeAt(ms: seq<Merged>, n: nat, k: nat)
    ensures k < |Take(ms, n)| <==> k < |ms| && k < n
    ensures k < |Take(ms, n)| ==> Take(ms, n)[k] == ms[k]
  {
  }

  /** Merging a range gives the page of the full merge if and only if there is no straggler. */
  lemma RangeIsPageIff(rows: seq<Row>, n: nat, offset: nat)
    ensures var p := SkipTo(rows, offset);
            Range(rows, n, offset) == Page(rows, n, offset) <==> NoStraggler(rows[..p], rows[p..], n)
  {
    hide Txs, MergeTx, Merge, Without, SkipTo, Take;
    var p := SkipTo(rows, offset);
    var a, b := rows[..p], rows[p..];
    assert a + b == rows;
    SkipCount(rows, offset);
    TxsConcat(a, b);
    if |Txs(a)| < offset {
      assert b == [];
      EmptyMerge();
      EmptyTxs();
      EmptyTake(n);
      assert Without([], Txs(a)) == [] by { WithoutShorter([], Txs(a)); }
    } else {
      EmptyTake(n);
      var ms := Merge(rows);
      assert offset == |ms| ==> ms[offset..] == [];
      if NoStraggler(a, b, n) {
        RangeMatches(a, b, n);
      } else {
        var k :| 0 <= k < |Txs(b)| && k < n && Txs(b)[k] in Txs(a);
        StragglerShows(a, b, n, k);
      }
    }
  }

  lemma EmptyTake(n: nat)
    ensures Take([], n) == []
  {
  }

  /** The rows of each transaction that is skipped all come before the skip ends; always so with nothing to skip. */
  lemma RangeIsPage(rows: seq<Row>, n: nat, offset: nat)
    requires forall i, j :: 0 <= i < SkipTo(rows, offset) <= j < |rows| ==> rows[i].txHash != rows[j].txHash
    ensures Range(rows, n, offset) == Page(rows, n, offset)
  {
    hide Txs, MergeTx, Merge, Without, SkipTo;
    var p := SkipTo(rows, offset);
    var a, b := rows[..p], rows[p..];
    forall k | 0 <= k < |Txs(b)| && k < n ensures Txs(b)[k] !in Txs(a) {
      TxsMember(b, Txs(b)[k]);
      TxsMember(a, Txs(b)[k]);
    }
    RangeIsPageIff(rows, n, offset);
  }

  /** Rows of transactions a, b and a again: past the first transaction the range has two rows and the page one. */
  lemma StragglerIsSplit(a: Row, b: Row)
    requires a.txHash != b.txHash
    ensures |Range([a, b, a], 2, 1)| == 2 && |Page([a, b, a], 2, 1)| == 1
  {
    hide Merge, Txs, SkipTo;
    ThreeRows(a, b);
    assert [a, b, a][1..] == [b, a];
  }

  lemma ThreeRows(a: Row, b: Row)
    requires a.txHash != b.txHash
    ensures SkipTo([a, b, a], 1) == 1
    ensures |Merge([a, b, a])| == 2 == |Merge([b, a])|
  {
    hide Merge, Txs, SkipTo;
    TwoRows(a, b);
    TwoRows(b, a);
    SkipEmpty(1);
    assert [] + [a] == [a] && [a] + [b] == [a, b] && [a, b] + [a] == [a, b, a];
    SkipNext([], a, 1);
    SkipNext([a], b, 1);
    SkipNext([a, b], a, 1);
    TxsNext([a, b], a);
    MergeLength([a, b, a]);
    MergeLength([b, a]);
  }

  lemma TwoRows(a: Row, b: Row)
    requires a.txHash != b.txHash
    ensures Txs([]) == [] && Txs([a]) == [a.txHash] && Txs([a, b]) == [a.txHash, b.txHash]
  {
    hide Txs;
    EmptyTxs();
    assert [] + [a] == [a] && [a] + [b] == [a, b];
    TxsNext([], a);
    TxsNext([a], b);
  }

  lemma MergeLength(rows: seq<Row>)
    ensures |Merge(rows)| == |Txs(rows)|
  {
  }

  lemma SkipEmpty(offset: nat)
    ensures SkipTo([], offset) == 0
  {
  }

  lemma {:induction false} NothingSkipped(rows: seq<Row>)
    ensures SkipTo(rows, 0) == 0
  {
    if rows != [] {
      NothingSkipped(rows[..|rows| - 1]);
    }
  }

  // ----- the balance

  function Signed(r: AddressRow): int { if r.isFunding then r.value as int else -(r.value as int) }

  /** What the rows on the valid main chain leave unspent. */
  function Unspent(rows: seq<AddressRow>): int {
    if rows == [] then 0
    else
      var r := rows[|rows| - 1];
      Unspent(rows[..|rows| - 1]) + if r.validMainChain then Signed(r) else 0
  }

  /** The value, and the number, of the valid rows of one direction. */
  function Flow(rows: seq<AddressRow>, funding: bool): nat {
    if rows == [] then 0
    else
      var r := rows[|rows| - 1];
      Flow(rows[..|rows| - 1], funding) + if r.validMainChain && r.isFunding == funding then r.value else 0
  }

  function Number(rows: seq<AddressRow>, funding: bool): nat {
    if rows == [] then 0
    else
      var r := rows[|rows| - 1];
      Number(rows[..|rows| - 1], funding) + if r.validMainChain && r.isFunding == funding then 1 else 0
  }

  /** The places of the valid rows of one direction. */
  ghost function ValidPlaces(rows: seq<AddressRow>, funding: bool): set<int> {
    set i | 0 <= i < |rows| && rows[i].validMainChain && rows[i].isFunding == funding
  }

  lemma {:induction false} NumberIs(rows: seq<AddressRow>, funding: bool)
    ensures Number(rows, funding) == |ValidPlaces(rows, funding)|
  {
    hide ValidPlaces;
    if rows == [] {
      NoPlaces(funding);
    } else {
      var n := |rows| - 1;
      NumberIs(rows[..n], funding);
      PlacesNext(rows, funding);
    }
  }

  lemma NoPlaces(funding: bool)
    ensures ValidPlaces([], funding) == {}
  {
  }

  lemma PlacesNext(rows: seq<AddressRow>, funding: bool)
    requires rows != []
    ensures var n := |rows| - 1;
            |ValidPlaces(rows, funding)| == |ValidPlaces(rows[..n], funding)|
              + if rows[n].validMainChain && rows[n].isFunding == funding then 1 else 0
  {
    var n := |rows| - 1;
    var before, after := ValidPlaces(rows[..n], funding), ValidPlaces(rows, funding);
    var last := if rows[n].validMainChain && rows[n].isFunding == funding then {n} else {};
    forall i ensures i in after <==> i in before + last {
      assert 0 <= i < n ==> rows[..n][i] == rows[i];
    }
    assert after == before + last;
  }

  /** The flows of a history are those of its parts. */
  lemma {:induction false} FlowConcat(a: seq<AddressRow>, b: seq<AddressRow>, funding: bool)
    ensures Flow(a + b, funding) == Flow(a, funding) + Flow(b, funding)
  {
    if b == [] {
      assert a + b == a;
    } else {
      assert (a + b)[..|a + b| - 1] == a + b[..|b| - 1];
      FlowConcat(a, b[..|b| - 1], funding);
    }
  }

  /** A credit is received and a debit is sent, if it is valid. */
  lemma FlowOne(r: AddressRow)
    ensures Flow([], true) == 0 && Flow([], false) == 0
    ensures Flow([r], true) == if r.validMainChain && r.isFunding then r.value else 0
    ensures Flow([r], false) == if r.validMainChain && !r.isFunding then r.value else 0
  {
    assert [r][..0] == [];
  }

  /** The totals of an AddressInfo. */
  datatype Info = Info(address: string, numFunding: nat, numSpending: nat, received: int, sent: int, unspent: int)

  /** ReduceAddressHistory */
  method ReduceAddressHistory(rows: seq<AddressRow>) returns (info: Option<Info>)
    ensures info.None? <==> rows == []
    ensures info.Some? ==>
              && info.value.address == rows[0].address
              && info.value.unspent == Unspent(rows)
              && info.value.received == Flow(rows, true) && info.value.sent == Flow(rows, false)
              && info.value.numFunding == Number(rows, true) && info.value.numSpending == Number(rows, false)
              && info.value.unspent == info.value.received - info.value.sent
              && info.value.numFunding == |ValidPlaces(rows, true)|
              && info.value.numSpending == |ValidPlaces(rows, false)|
  {
    hide ValidPlaces;
    NumberIs(rows, true);
    NumberIs(rows, false);
    if |rows| == 0 {
      return None;
    }
    var received, sent, credits, debits := 0, 0, 0, 0;
    for i := 0 to |rows|
      invariant received - sent == Unspent(rows[..i])
      invariant received == Flow(rows[..i], true) && sent == Flow(rows[..i], false)
      invariant credits == Number(rows[..i], true) && debits == Number(rows[..i], false)
    {
      assert rows[..i + 1][..i] == rows[..i];
      var r := rows[i];
      if !r.validMainChain {
        continue;
      }
      if r.isFunding {
        received := received + r.value;
        credits := credits + 1;
      } else {
        sent := sent + r.value;
        debits := debits + 1;
      }
    }
    assert rows[..|rows|] == rows;
    return Some(Info(rows[0].address, credits, debits, received, sent, received - sent));
  }

  function NetOf(m: Merged): int { if m.validMainChain then m.credit - m.debit else 0 }

  /** The balance of merged rows is the sum of their nets. */
  lemma {:induction false} UnspentMerged(ms: seq<Merged>)
    ensures Unspent(UncompactedMerged(ms)) == SumOf(ms, NetOf)
  {
    if ms != [] {
      var front, m := ms[..|ms| - 1], ms[|ms| - 1];
      UnspentMerged(front);
      var u := UncompactedMerged(ms);
      assert u[..|u| - 1] == UncompactedMerged(front);
    }
  }

  /** Every row is one of a transaction of the whole. */
  ghost predicate Known(rows: seq<Row>, whole: seq<Row>) {
    forall k :: 0 <= k < |rows| ==> rows[k].txHash in Txs(whole)
  }

  ghost predicate Among(rows: seq<Row>, whole: seq<Row>) {
    forall k :: 0 <= k < |rows| ==> rows[k] in whole
  }

  /** What the rows of transactions whose first row is valid add up to. */
  ghost function ByFirst(rows: seq<Row>, whole: seq<Row>): int
    requires Known(rows, whole)
  {
    if rows == [] then 0
    else
      var r := rows[|rows| - 1];
      ByFirst(rows[..|rows| - 1], whole)
      + if FirstRow(whole, r.txHash).validMainChain then RowCredit(r) - RowDebit(r) else 0
  }

  lemma {:induction false} ByFirstSame(rows: seq<Row>, whole: seq<Row>, r: Row)
    requires Known(rows, whole)
    ensures Known(rows, whole + [r])
    ensures ByFirst(rows, whole + [r]) == ByFirst(rows, whole)
  {
    hide Txs, FirstRow;
    TxsNext(whole, r);
    if rows != [] {
      ByFirstSame(rows[..|rows| - 1], whole, r);
      FirstRowNext(whole, r, rows[|rows| - 1].txHash);
    }
  }

  lemma AllKnown(rows: seq<Row>)
    ensures Known(rows, rows)
  {
    forall k | 0 <= k < |rows| ensures rows[k].txHash in Txs(rows) {
      TxsMember(rows, rows[k].txHash);
    }
  }

  /** What a row adds to the balance by the validity of its transaction's first row. */
  ghost function Adds(rows: seq<Row>, r: Row): int
    requires r.txHash in Txs(rows)
  {
    if FirstRow(rows, r.txHash).validMainChain then RowCredit(r) - RowDebit(r) else 0
  }

  lemma ByFirstNext(rows: seq<Row>, r: Row)
    requires Known(rows, rows)
    ensures r.txHash in Txs(rows + [r]) && Known(rows + [r], rows + [r])
    ensures ByFirst(rows + [r], rows + [r]) == ByFirst(rows, rows) + Adds(rows + [r], r)
  {
    hide Txs, FirstRow, Known;
    TxsNext(rows, r);
    AllKnown(rows + [r]);
    ByFirstSame(rows, rows, r);
    assert (rows + [r])[..|rows|] == rows;
  }

  lemma MergedNetNext(rows: seq<Row>, r: Row)
    ensures r.txHash in Txs(rows + [r])
    ensures SumOf(Merge(rows + [r]), NetOf) == SumOf(Merge(rows), NetOf) + Adds(rows + [r], r)
  {
    hide Txs, Merge, MergeTx, FirstRow, Begin, Join, NetOf, SumOf;
    TxsNext(rows, r);
    FirstRowNext(rows, r, r.txHash);
    if r.txHash in Txs(rows) {
      var k :| 0 <= k < |Txs(rows)| && Txs(rows)[k] == r.txHash;
      MergeOld(rows, r, k);
      SumUpdated(Merge(rows), k, Join(Merge(rows)[k], r), NetOf);
      JoinNet(rows, k, r);
    } else {
      MergeNew(rows, r);
      SumAppended(Merge(rows), Begin(r), NetOf);
      BeginNet(r);
    }
  }

  /** The balance after merging counts each row by the validity of its transaction's first row. */
  lemma {:induction false} MergedNet(rows: seq<Row>)
    ensures Known(rows, rows)
    ensures SumOf(Merge(rows), NetOf) == ByFirst(rows, rows)
  {
    hide Txs, Merge, FirstRow, Known, Adds;
    AllKnown(rows);
    if rows == [] {
      EmptyMerge();
    } else {
      var n := |rows| - 1;
      MergedNet(rows[..n]);
      assert rows[..n] + [rows[n]] == rows;
      ByFirstNext(rows[..n], rows[n]);
      MergedNetNext(rows[..n], rows[n]);
    }
  }

  lemma JoinNet(rows: seq<Row>, k: nat, r: Row)
    requires k < |Txs(rows)|
    ensures var m := Merge(rows)[k];
            && m.validMainChain == FirstRow(rows, Txs(rows)[k]).validMainChain
            && NetOf(Join(m, r)) == NetOf(m) + if m.validMainChain then RowCredit(r) - RowDebit(r) else 0
  {
  }

  lemma BeginNet(r: Row)
    ensures NetOf(Begin(r)) == if r.validMainChain then RowCredit(r) - RowDebit(r) else 0
  {
  }

  /** The rows of one transaction agree on whether it is on the valid main chain. */
  ghost predicate ShareValidity(rows: seq<Row>) {
    forall i, j :: 0 <= i < |rows| && 0 <= j < |rows| && rows[i].txHash == rows[j].txHash ==>
      rows[i].validMainChain == rows[j].validMainChain
  }

  lemma {:induction false} FirstRowIsOne(rows: seq<Row>, h: Hash)
    requires h in Txs(rows)
    ensures exists k :: 0 <= k < |rows| && rows[k] == FirstRow(rows, h)
  {
    var n := |rows| - 1;
    var front := rows[..n];
    if h in Txs(front) {
      FirstRowIsOne(front, h);
      var k :| 0 <= k < n && front[k] == FirstRow(front, h);
      assert rows[k] == FirstRow(rows, h);
    } else {
      assert rows[n] == FirstRow(rows, h);
    }
  }

  /**
   The signed values of the rows whose validity is not that of their
   transaction's first row: counted if it is valid, missed if it is not.
   */
  ghost function Misjudged(rows: seq<Row>, whole: seq<Row>): int
    requires Known(rows, whole)
  {
    if rows == [] then 0
    else
      var r := rows[|rows| - 1];
      Misjudged(rows[..|rows| - 1], whole)
      + if FirstRow(whole, r.txHash).validMainChain == r.validMainChain then 0
        else if r.validMainChain then RowDebit(r) - RowCredit(r) else RowCredit(r) - RowDebit(r)
  }

  lemma {:induction false} ByFirstIs(rows: seq<AddressRow>, whole: seq<Row>)
    requires Among(Compacted(rows), whole)
    ensures Known(Compacted(rows), whole)
    ensures ByFirst(Compacted(rows), whole) == Unspent(rows) + Misjudged(Compacted(rows), whole)
  {
    hide Txs, FirstRow;
    AllKnown(whole);
    if rows != [] {
      var n := |rows| - 1;
      ByFirstIs(rows[..n], whole);
      assert Compacted(rows)[..n] == Compacted(rows[..n]);
    }
  }

  /** If the rows of a transaction share their validity, none is misjudged. */
  lemma {:induction false} NoneMisjudged(rows: seq<Row>, whole: seq<Row>)
    requires ShareValidity(whole) && Among(rows, whole)
    ensures Known(rows, whole)
    ensures Misjudged(rows, whole) == 0
  {
    hide Txs, FirstRow;
    AllKnown(whole);
    if rows != [] {
      var r := rows[|rows| - 1];
      NoneMisjudged(rows[..|rows| - 1], whole);
      FirstRowIsOne(whole, r.txHash);
      var k :| 0 <= k < |whole| && whole[k] == FirstRow(whole, r.txHash);
      var j :| 0 <= j < |whole| && whole[j] == r;
      assert whole[k].validMainChain == whole[j].validMainChain;
    }
  }

  /** Merging and uncompacting keeps the balance if and only if the misjudged rows cancel out. */
  lemma MergingKeepsUnspentIff(rows: seq<AddressRow>)
    ensures Known(Compacted(rows), Compacted(rows))
    ensures Unspent(UncompactedMerged(Merge(Compacted(rows)))) == Unspent(rows)
       <==> Misjudged(Compacted(rows), Compacted(rows)) == 0
  {
    hide Txs, Merge, FirstRow, Unspent, Misjudged, ByFirst, SumOf, UncompactedMerged;
    var compact := Compacted(rows);
    AllKnown(compact);
    UnspentMerged(Merge(compact));
    MergedNet(compact);
    ByFirstIs(rows, compact);
  }

  /** Merging and uncompacting keeps the balance of a history whose transactions are each valid or not. */
  lemma MergingKeepsUnspent(rows: seq<AddressRow>)
    requires ShareValidity(Compacted(rows))
    ensures Unspent(UncompactedMerged(Merge(Compacted(rows)))) == Unspent(rows)
  {
    hide Txs, Merge, FirstRow, ShareValidity, Unspent, Misjudged;
    MergingKeepsUnspentIff(rows);
    NoneMisjudged(Compacted(rows), Compacted(rows));
  }

  /** A transaction with a valid and an invalid row: the balance after merging depends on which comes first. */
  lemma MixedValidityDiffers()
    ensures var v := AddressRow("a", true, None, true, 0, 7, 0, 5, 0, 0, 0, 0, 0);
            var w := v.(validMainChain := false, value := 3);
            && Unspent([v, w]) == 5
            && Unspent(UncompactedMerged(Merge(Compacted([v, w])))) == 8
            && Unspent(UncompactedMerged(Merge(Compacted([w, v])))) == 0
  {
    hide Merge;
    var v := AddressRow("a", true, None, true, 0, 7, 0, 5, 0, 0, 0, 0, 0);
    var w := v.(validMainChain := false, value := 3);
    MergeTwo(v, w);
    MergeTwo(w, v);
    assert [v, w][..1] == [v] && [v][..0] == [];
    assert Unspent([v]) == 5;
  }

  lemma MergeTwo(a: AddressRow, b: AddressRow)
    requires a.txHash == b.txHash
    ensures Merge(Compacted([a, b])) == [Join(Begin(Compact(a)), Compact(b))]
  {
    hide Merge;
    var ca, cb := Compact(a), Compact(b);
    assert [a, b][..1] == [a];
    assert Compacted([a, b]) == [ca] + [cb];
    EmptyMerge();
    assert [] + [ca] == [ca];
    MergeNew([], ca);
    TxsNext([], ca);
    MergeOld([ca], cb, 0);
  }
}
