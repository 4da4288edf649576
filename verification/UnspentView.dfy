/** The unspent view of address rows: when the page sliced from rows and the one from compact rows agree. */
module UnspentView {
  import opened AddressRows
  import opened RowMerging
  import opened RowPages

  /** The rows that are unspent once compact. */
  function AsUnspent(r: AddressRow): bool { r.isFunding && (r.matchingTxHash.None? || r.matchingTxHash.value == 0) }

  function Credits(rows: seq<AddressRow>): seq<AddressRow> { Directed(rows, FullFunds, true) }

  function Counted(rows: seq<AddressRow>): seq<AddressRow> { Directed(rows, FullUnspent, true) }

  function Listed(rows: seq<AddressRow>): seq<AddressRow> { Directed(rows, AsUnspent, true) }

  /** A narrower choice has fewer rows, or the same. */
  lemma {:induction false} Narrower<T(!new)>(rows: seq<T>, p: T -> bool, q: T -> bool)
    requires forall r :: p(r) ==> q(r)
    ensures |Directed(rows, p, true)| <= |Directed(rows, q, true)|
    ensures |Directed(rows, p, true)| == |Directed(rows, q, true)| ==> Directed(rows, p, true) == Directed(rows, q, true)
    ensures Directed(rows, q, true) != [] && p(Directed(rows, q, true)[0]) ==>
              Directed(rows, p, true) != [] && Directed(rows, p, true)[0] == Directed(rows, q, true)[0]
  {
    if rows != [] {
      Narrower(rows[..|rows| - 1], p, q);
    }
  }

  lemma {:induction false} AllChosen<T>(rows: seq<T>, p: T -> bool)
    ensures forall i :: 0 <= i < |Directed(rows, p, true)| ==> p(Directed(rows, p, true)[i])
  {
    if rows != [] {
      AllChosen(rows[..|rows| - 1], p);
    }
  }

  lemma Choices(rows: seq<AddressRow>)
    ensures |Counted(rows)| <= |Listed(rows)| <= |Credits(rows)|
    ensures |Counted(rows)| == |Listed(rows)| ==> Counted(rows) == Listed(rows)
    ensures |Counted(rows)| == |Credits(rows)| ==> Counted(rows) == Listed(rows) == Credits(rows)
    ensures Credits(rows) != [] && FullUnspent(Credits(rows)[0]) ==>
              Counted(rows) != [] && Counted(rows)[0] == Credits(rows)[0]
  {
    hide Directed;
    Narrower(rows, FullUnspent, AsUnspent);
    Narrower(rows, AsUnspent, FullFunds);
    Narrower(rows, FullUnspent, FullFunds);
  }

  /** The compact page lists the rows that are unspent once compact. */
  lemma CompactUnspent(rows: seq<AddressRow>, n: nat, offset: nat)
    ensures CompactPage(Compacted(rows), n, offset, ViewUnspent) == AllKept(PageOf(Listed(rows), n, offset))
  {
    hide Directed, PageOf, AllKept, Uncompacted;
    assert forall r :: AsUnspent(r) == Unspent(Compact(r));
    CompactDirected(rows, AsUnspent, Unspent, true);
    PageCompacts(Listed(rows), n, offset);
  }

  ghost predicate SamePage(rows: seq<AddressRow>, n: nat, offset: nat) {
    CompactPage(Compacted(rows), n, offset, ViewUnspent) == AllKept(DirectPage(rows, n, offset, ViewUnspent))
  }

  /** Every credit is unspent, or none is, or just the first is. */
  predicate Simple(rows: seq<AddressRow>) {
    || |Counted(rows)| == |Credits(rows)|
    || (&& |Counted(rows)| == |Listed(rows)| <= 1
        && (Counted(rows) != [] ==> Credits(rows) != [] && FullUnspent(Credits(rows)[0])))
  }

  lemma SimpleSame(rows: seq<AddressRow>, n: nat, offset: nat)
    requires Simple(rows)
    ensures SamePage(rows, n, offset)
  {
    hide Directed, CompactPage, AllKept;
    Choices(rows);
    CompactUnspent(rows, n, offset);
    assert PageOf(Listed(rows), n, offset) == UnspentPage(rows, n, offset);
  }

  lemma KeptAt(a: seq<AddressRow>, b: seq<AddressRow>)
    requires AllKept(a) == AllKept(b)
    ensures |a| == |b| && forall i :: 0 <= i < |a| ==> a[i].matchingTxHash == b[i].matchingTxHash
  {
    hide AllKept;
    forall i | 0 <= i < |a| ensures a[i].matchingTxHash == b[i].matchingTxHash {
      assert AllKept(a)[i] == AllKept(b)[i];
    }
  }

  lemma SameSimple(rows: seq<AddressRow>)
    requires forall n: nat, offset: nat :: SamePage(rows, n, offset)
    ensures Simple(rows)
  {
    hide Directed, CompactPage, AllKept;
    var n := |Credits(rows)| + 1;
    Choices(rows);
    AllChosen(rows, FullUnspent);
    assert SamePage(rows, n, 0) && SamePage(rows, n, 1);
    CompactUnspent(rows, n, 0);
    CompactUnspent(rows, n, 1);
    KeptAt(PageOf(Listed(rows), n, 0), UnspentPage(rows, n, 0));
    KeptAt(PageOf(Listed(rows), n, 1), UnspentPage(rows, n, 1));
    if |Counted(rows)| == 1 {
      assert PageOf(Listed(rows), n, 0)[0] == Counted(rows)[0];
      assert UnspentPage(rows, n, 0)[0] == Credits(rows)[0];
      assert FullUnspent(Counted(rows)[0]);
      AllChosen(rows, FullFunds);
    }
  }

  /** The two pages agree for every count and offset if and only if the credits are simple. */
  lemma UnspentAgreesIff(rows: seq<AddressRow>)
    ensures (forall n: nat, offset: nat :: SamePage(rows, n, offset)) <==> Simple(rows)
  {
    hide SamePage, Simple;
    if Simple(rows) {
      forall n: nat, offset: nat ensures SamePage(rows, n, offset) {
        SimpleSame(rows, n, offset);
      }
    }
    if forall n: nat, offset: nat :: SamePage(rows, n, offset) {
      SameSimple(rows);
    }
  }

  /** A spent credit before an unspent one: the first page of one is the spent credit, and of the other the unspent. */
  lemma SpentCreditListed(spent: AddressRow, unspent: AddressRow)
    requires spent.isFunding && spent.matchingTxHash.Some? && spent.matchingTxHash.value != 0
    requires unspent.isFunding && unspent.matchingTxHash.None?
    ensures DirectPage([spent, unspent], 1, 0, ViewUnspent) == [spent]
    ensures CompactPage(Compacted([spent, unspent]), 1, 0, ViewUnspent) == AllKept([unspent])
  {
    hide Directed, CompactPage, AllKept, Compacted;
    var rows := [spent, unspent];
    DirectedTwo(spent, unspent, FullFunds);
    DirectedTwo(spent, unspent, FullUnspent);
    DirectedTwo(spent, unspent, AsUnspent);
    CompactUnspent(rows, 1, 0);
  }

  lemma DirectedTwo<T>(a: T, b: T, p: T -> bool)
    requires p(b)
    ensures Directed([a, b], p, true) == if p(a) then [a, b] else [b]
  {
    assert [a, b][..1] == [a] && [a][..0] == [];
  }
}
