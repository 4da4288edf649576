/**
 Address rows and their merged form: one row for each transaction, in order of
 first appearance, with the credits and debits of all its rows.
 */
module AddressRows {
  import opened Wrappers
  import opened Bytes

  datatype AddressRow = AddressRow(
    address: string, validMainChain: bool, matchingTxHash: Option<Hash>, isFunding: bool, time: int, txHash: Hash,
    vinVoutIndex: nat, value: nat, vinVoutDbID: nat, mergedCount: nat, txType: int, atomsCredit: nat, atomsDebit: nat)

  /** AddressRowCompact */
  datatype Row = Row(
    address: string, time: int, txHash: Hash, matchingTxHash: Option<Hash>, vinVoutIndex: nat, txType: int,
    validMainChain: bool, isFunding: bool, value: nat)

  /** AddressRowMerged */
  datatype Merged = Merged(
    address: string, time: int, txHash: Hash, credit: nat, debit: nat, count: nat, txType: int, validMainChain: bool)
  {
    function IsFunding(): bool { credit > debit }

    function Value(): nat { if credit > debit then credit - debit else debit - credit }
  }

  // ----- the merge, transaction by transaction

  /** The transactions of the rows, in order of first appearance. */
  function Txs(rows: seq<Row>): (hs: seq<Hash>)
    ensures |hs| <= |rows|
    ensures forall i, j :: 0 <= i < j < |hs| ==> hs[i] != hs[j]
  {
    if rows == [] then []
    else
      var hs, h := Txs(rows[..|rows| - 1]), rows[|rows| - 1].txHash;
      if h in hs then hs else hs + [h]
  }

  function Credit(rows: seq<Row>, h: Hash): nat {
    if rows == [] then 0
    else
      var r := rows[|rows| - 1];
      Credit(rows[..|rows| - 1], h) + if r.txHash == h && r.isFunding then r.value else 0
  }

  function Debit(rows: seq<Row>, h: Hash): nat {
    if rows == [] then 0
    else
      var r := rows[|rows| - 1];
      Debit(rows[..|rows| - 1], h) + if r.txHash == h && !r.isFunding then r.value else 0
  }

  function Count(rows: seq<Row>, h: Hash): nat {
    if rows == [] then 0 else Count(rows[..|rows| - 1], h) + if rows[|rows| - 1].txHash == h then 1 else 0
  }

  function FirstRow(rows: seq<Row>, h: Hash): (r: Row)
    requires h in Txs(rows)
    ensures r.txHash == h
  {
    var front := rows[..|rows| - 1];
    if h in Txs(front) then FirstRow(front, h) else rows[|rows| - 1]
  }

  /** All the rows of one transaction as one. */
  function MergeTx(rows: seq<Row>, h: Hash): Merged
    requires h in Txs(rows)
  {
    var r := FirstRow(rows, h);
    Merged(r.address, r.time, h, Credit(rows, h), Debit(rows, h), Count(rows, h), r.txType, r.validMainChain)
  }

  function MergeEach(rows: seq<Row>, hs: seq<Hash>): (ms: seq<Merged>)
    requires forall k :: 0 <= k < |hs| ==> hs[k] in Txs(rows)
    ensures |ms| == |hs| && forall k :: 0 <= k < |hs| ==> ms[k] == MergeTx(rows, hs[k])
  {
    if hs == [] then [] else MergeEach(rows, hs[..|hs| - 1]) + [MergeTx(rows, hs[|hs| - 1])]
  }

  function Merge(rows: seq<Row>): (ms: seq<Merged>)
    ensures |ms| == |Txs(rows)| && forall k :: 0 <= k < |ms| ==> ms[k] == MergeTx(rows, Txs(rows)[k])
  {
    MergeEach(rows, Txs(rows))
  }

  // ----- one row more

  /** A merged row of one row. */
  function Begin(r: Row): Merged {
    Merged(r.address, r.time, r.txHash, if r.isFunding then r.value else 0, if r.isFunding then 0 else r.value, 1,
           r.txType, r.validMainChain)
  }

  /** A merged row with one row more. */
  function Join(m: Merged, r: Row): Merged {
    m.(count := m.count + 1,
       credit := m.credit + if r.isFunding then r.value else 0,
       debit := m.debit + if r.isFunding then 0 else r.value)
  }

  lemma {:induction false} AbsentIsZero(rows: seq<Row>, h: Hash)
    requires h !in Txs(rows)
    ensures Credit(rows, h) == 0 && Debit(rows, h) == 0 && Count(rows, h) == 0
    ensures forall k :: 0 <= k < |rows| ==> rows[k].txHash != h
  {
    if rows != [] {
      AbsentIsZero(rows[..|rows| - 1], h);
    }
  }

  lemma TxKeeps(rows: seq<Row>, r: Row, h: Hash)
    requires h in Txs(rows)
    ensures h in Txs(rows + [r])
    ensures MergeTx(rows + [r], h) == if r.txHash == h then Join(MergeTx(rows, h), r) else MergeTx(rows, h)
  {
    assert (rows + [r])[..|rows|] == rows;
  }

  lemma TxBegins(rows: seq<Row>, r: Row)
    requires r.txHash !in Txs(rows)
    ensures Txs(rows + [r]) == Txs(rows) + [r.txHash]
    ensures MergeTx(rows + [r], r.txHash) == Begin(r)
  {
    assert (rows + [r])[..|rows|] == rows;
    AbsentIsZero(rows, r.txHash);
  }

  /** A row of a new transaction begins a merged row. */
  lemma MergeNew(rows: seq<Row>, r: Row)
    requires r.txHash !in Txs(rows)
    ensures Merge(rows + [r]) == Merge(rows) + [Begin(r)]
  {
    hide Txs, MergeTx, Merge;
    TxBegins(rows, r);
    var ms := Merge(rows + [r]);
    forall k | 0 <= k < |Txs(rows)| ensures ms[k] == Merge(rows)[k] {
      TxKeeps(rows, r, Txs(rows)[k]);
    }
  }

  /** A row of a known transaction joins its merged row. */
  lemma MergeOld(rows: seq<Row>, r: Row, at: nat)
    requires at < |Txs(rows)| && Txs(rows)[at] == r.txHash
    ensures Txs(rows + [r]) == Txs(rows)
    ensures Merge(rows + [r]) == Merge(rows)[at := Join(Merge(rows)[at], r)]
  {
    hide MergeTx, Merge, Join;
    assert (rows + [r])[..|rows|] == rows;
    var ms := Merge(rows + [r]);
    forall k | 0 <= k < |Txs(rows)| ensures ms[k] == Merge(rows)[at := Join(Merge(rows)[at], r)][k] {
      TxKeeps(rows, r, Txs(rows)[k]);
    }
  }

  // ----- what a merged row is

  /** Row i is the first of its transaction. */
  ghost predicate IsFirst(rows: seq<Row>, i: int) {
    0 <= i < |rows| && forall j :: 0 <= j < i ==> rows[j].txHash != rows[i].txHash
  }

  /** The places of the rows of one transaction. */
  ghost function Places(rows: seq<Row>, h: Hash): set<int> {
    set i | 0 <= i < |rows| && rows[i].txHash == h
  }

  lemma {:induction false} CountIs(rows: seq<Row>, h: Hash)
    ensures Count(rows, h) == |Places(rows, h)|
  {
    if rows == [] {
      assert Places(rows, h) == {};
    } else {
      var n := |rows| - 1;
      CountIs(rows[..n], h);
      assert Places(rows, h) == Places(rows[..n], h) + if rows[n].txHash == h then {n} else {};
    }
  }

  lemma {:induction false} FirstIs(rows: seq<Row>, i: int)
    requires IsFirst(rows, i)
    ensures rows[i].txHash in Txs(rows) && FirstRow(rows, rows[i].txHash) == rows[i]
  {
    var n := |rows| - 1;
    if i < n {
      assert IsFirst(rows[..n], i);
      FirstIs(rows[..n], i);
    } else {
      NotBefore(rows[..n], rows[n].txHash);
    }
  }

  lemma {:induction false} NotBefore(rows: seq<Row>, h: Hash)
    requires forall k :: 0 <= k < |rows| ==> rows[k].txHash != h
    ensures h !in Txs(rows)
  {
    if rows != [] {
      NotBefore(rows[..|rows| - 1], h);
    }
  }

  /** A merged row has the address, time, type and validity of the transaction's first row, and counts all its rows. */
  lemma MergedIs(rows: seq<Row>, i: int)
    requires IsFirst(rows, i)
    ensures exists k ::
              && 0 <= k < |Merge(rows)|
              && Merge(rows)[k].txHash == rows[i].txHash
              && Merge(rows)[k].address == rows[i].address
              && Merge(rows)[k].time == rows[i].time
              && Merge(rows)[k].txType == rows[i].txType
              && Merge(rows)[k].validMainChain == rows[i].validMainChain
              && Merge(rows)[k].count == |Places(rows, rows[i].txHash)|
  {
    hide Merge, Txs, Places;
    FirstIs(rows, i);
    CountIs(rows, rows[i].txHash);
    var k :| 0 <= k < |Txs(rows)| && Txs(rows)[k] == rows[i].txHash;
    assert Merge(rows)[k].txHash == rows[i].txHash;
  }

  /** One row alone is merged into a row of its own value. */
  lemma MergeOneRow(r: Row)
    ensures Merge([r]) == [Merged(r.address, r.time, r.txHash, if r.isFunding then r.value else 0,
                                  if r.isFunding then 0 else r.value, 1, r.txType, r.validMainChain)]
  {
    hide Merge;
    MergeNew([], r);
    assert [] + [r] == [r];
    assert Merge([]) == [];
  }

  lemma {:induction false} OneWay(rows: seq<Row>, h: Hash, funding: bool)
    requires forall k :: 0 <= k < |rows| ==> rows[k].isFunding == funding
    ensures if funding then Debit(rows, h) == 0 else Credit(rows, h) == 0
  {
    if rows != [] {
      OneWay(rows[..|rows| - 1], h, funding);
    }
  }

  /** Rows of one direction are merged into rows of that direction only. */
  lemma MergeOneWay(rows: seq<Row>, funding: bool)
    requires forall k :: 0 <= k < |rows| ==> rows[k].isFunding == funding
    ensures forall k :: 0 <= k < |Merge(rows)| ==>
              if funding then Merge(rows)[k].debit == 0 else Merge(rows)[k].credit == 0
  {
    hide Merge, Txs;
    forall k | 0 <= k < |Merge(rows)|
      ensures if funding then Merge(rows)[k].debit == 0 else Merge(rows)[k].credit == 0
    {
      OneWay(rows, Txs(rows)[k], funding);
    }
  }

  // ----- money

  ghost function SumOf(ms: seq<Merged>, f: Merged -> int): int {
    if ms == [] then 0 else SumOf(ms[..|ms| - 1], f) + f(ms[|ms| - 1])
  }

  ghost function SumRows(rows: seq<Row>, f: Row -> int): int {
    if rows == [] then 0 else SumRows(rows[..|rows| - 1], f) + f(rows[|rows| - 1])
  }

  lemma {:induction false} SumUpdated(ms: seq<Merged>, k: nat, m: Merged, f: Merged -> int)
    requires k < |ms|
    ensures SumOf(ms[k := m], f) == SumOf(ms, f) - f(ms[k]) + f(m)
  {
    var n := |ms| - 1;
    if k < n {
      assert ms[k := m][..n] == ms[..n][k := m];
      SumUpdated(ms[..n], k, m, f);
    } else {
      assert ms[k := m][..n] == ms[..n];
    }
  }

  lemma SumAppended(ms: seq<Merged>, m: Merged, f: Merged -> int)
    ensures SumOf(ms + [m], f) == SumOf(ms, f) + f(m)
  {
    assert (ms + [m])[..|ms|] == ms;
  }

  /** What a row adds to a merged row of its own, and to one begun before. */
  ghost predicate Additive(f: Merged -> int, g: Row -> int) {
    (forall r :: f(Begin(r)) == g(r)) && (forall m, r :: f(Join(m, r)) == f(m) + g(r))
  }

  lemma {:induction false} MergeKeeps(rows: seq<Row>, f: Merged -> int, g: Row -> int)
    requires Additive(f, g)
    ensures SumOf(Merge(rows), f) == SumRows(rows, g)
  {
    hide MergeTx, Merge, Join, Begin;
    if rows != [] {
      var front, r := rows[..|rows| - 1], rows[|rows| - 1];
      assert front + [r] == rows;
      MergeKeeps(front, f, g);
      if r.txHash in Txs(front) {
        var k :| 0 <= k < |Txs(front)| && Txs(front)[k] == r.txHash;
        MergeOld(front, r, k);
        SumUpdated(Merge(front), k, Join(Merge(front)[k], r), f);
      } else {
        MergeNew(front, r);
        SumAppended(Merge(front), Begin(r), f);
      }
    }
  }

  function CreditOf(m: Merged): int { m.credit }

  function DebitOf(m: Merged): int { m.debit }

  function CountOf(m: Merged): int { m.count }

  function RowCredit(r: Row): int { if r.isFunding then r.value else 0 }

  function RowDebit(r: Row): int { if r.isFunding then 0 else r.value }

  function RowCount(r: Row): int { 1 }

  /** Merging keeps the sums of the credits and of the debits, and counts every row once. */
  lemma MergeConserves(rows: seq<Row>)
    ensures SumOf(Merge(rows), CreditOf) == SumRows(rows, RowCredit)
    ensures SumOf(Merge(rows), DebitOf) == SumRows(rows, RowDebit)
    ensures SumOf(Merge(rows), CountOf) == |rows|
  {
    hide Merge;
    MergeKeeps(rows, CreditOf, RowCredit);
    MergeKeeps(rows, DebitOf, RowDebit);
    MergeKeeps(rows, CountOf, RowCount);
    SumOnes(rows, RowCount);
  }

  lemma {:induction false} SumOnes(rows: seq<Row>, f: Row -> int)
    requires forall r :: f(r) == 1
    ensures SumRows(rows, f) == |rows|
  {
    if rows != [] {
      SumOnes(rows[..|rows| - 1], f);
    }
  }
}
