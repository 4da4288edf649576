/** Pages of address rows: directly from the rows, and from their compact form. */
module RowPages {
  import opened Wrappers
  import opened Common
  import opened AddressRows
  import opened RowMerging

  /** The page of n entries after the first `offset`. */
  function PageOf<T>(s: seq<T>, n: nat, offset: nat): seq<T> {
    if offset >= |s| then [] else if offset + n <= |s| then s[offset..offset + n] else s[offset..]
  }

  /** The rows of one direction; both kinds of rows say whether they are funding. */
  function Directed<T>(rows: seq<T>, funds: T -> bool, funding: bool): (d: seq<T>)
    ensures |d| <= |rows|
  {
    if rows == [] then []
    else
      var front, r := Directed(rows[..|rows| - 1], funds, funding), rows[|rows| - 1];
      if funds(r) == funding then front + [r] else front
  }

  function Funds(r: Row): bool { r.isFunding }

  function FullFunds(r: AddressRow): bool { r.isFunding }

  lemma DirectedNext<T>(rows: seq<T>, i: nat, funds: T -> bool, funding: bool)
    requires i < |rows|
    ensures Directed(rows[..i + 1], funds, funding)
         == if funds(rows[i]) == funding then Directed(rows[..i], funds, funding) + [rows[i]]
            else Directed(rows[..i], funds, funding)
  {
    assert rows[..i + 1][..i] == rows[..i];
  }

  lemma {:induction false} DirectedGrows<T>(rows: seq<T>, i: nat, funds: T -> bool, funding: bool)
    requires i <= |rows|
    ensures Directed(rows[..i], funds, funding) <= Directed(rows, funds, funding)
    decreases |rows| - i
  {
    if i < |rows| {
      DirectedNext(rows, i, funds, funding);
      DirectedGrows(rows, i + 1, funds, funding);
    } else {
      assert rows[..i] == rows;
    }
  }

  /** Compacting and choosing rows commute. */
  lemma {:induction false} CompactDirected(rows: seq<AddressRow>, f: AddressRow -> bool, g: Row -> bool, funding: bool)
    requires forall r :: f(r) == g(Compact(r))
    ensures Compacted(Directed(rows, f, funding)) == Directed(Compacted(rows), g, funding)
  {
    if rows != [] {
      var n := |rows| - 1;
      CompactDirected(rows[..n], f, g, funding);
      assert Compacted(rows)[..n] == Compacted(rows[..n]);
    }
  }

  // ----- the loops, the same for both kinds of rows

  /** addressRows and SliceAddressRowsAll */
  method PageRows<T>(rows: seq<T>, n: nat, offset: nat) returns (out: seq<T>)
    ensures out == PageOf(rows, n, offset)
  {
    var numRows := |rows|;
    if offset >= numRows {
      return [];
    }
    var end := offset + n;
    if end > numRows {
      end := numRows;
    }
    if offset < end {
      return rows[offset..end];
    }
    return [];
  }

  /** CountCreditDebitRows and CountCreditDebitRowsCompact, for one direction */
  method CountDirected<T>(rows: seq<T>, funds: T -> bool, funding: bool) returns (count: nat)
    ensures count == |Directed(rows, funds, funding)|
  {
    count := 0;
    for i := 0 to |rows|
      invariant count == |Directed(rows[..i], funds, funding)|
    {
      DirectedNext(rows, i, funds, funding);
      if funds(rows[i]) == funding {
        count := count + 1;
      }
    }
    assert rows[..|rows|] == rows;
  }

  /** The slice that skipping and appending one row at a time has reached. */
  function Reached<T>(s: seq<T>, offset: nat): seq<T> {
    if offset >= |s| then [] else s[offset..]
  }

  lemma SmallPage<T>(s: seq<T>, n: nat, offset: nat)
    ensures |s| <= offset ==> PageOf(s, n, offset) == [] && Reached(s, offset) == []
    ensures Reached<T>([], offset) == []
  {
  }

  lemma ReachedNext<T>(s: seq<T>, x: T, offset: nat)
    ensures Reached(s + [x], offset) == if |s| < offset then [] else Reached(s, offset) + [x]
    ensures |s| < offset ==> Reached(s, offset) == []
  {
  }

  /** What is reached when the limit is met is the page. */
  lemma ReachedPage<T>(s: seq<T>, whole: seq<T>, n: nat, offset: nat)
    requires s <= whole && n > 0
    requires s == whole || |Reached(s, offset)| == n
    requires |Reached(s, offset)| <= n
    ensures Reached(s, offset) == PageOf(whole, n, offset)
  {
  }

  lemma NoneDirected<T>(rows: seq<T>, funds: T -> bool, funding: bool)
    ensures Directed(rows[..0], funds, funding) == []
  {
  }

  /** The loop that skips and then appends rows, until it has as many as its limit; a limit of 0 is never met. */
  method CollectRows<T>(rows: seq<T>, funds: T -> bool, funding: bool, limit: nat, offset: nat) returns (out: seq<T>)
    ensures limit > 0 ==> out == PageOf(Directed(rows, funds, funding), limit, offset)
    ensures limit == 0 ==> out == Reached(Directed(rows, funds, funding), offset)
  {
    hide Directed, Reached, PageOf;
    var skipped := 0;
    out := [];
    NoneDirected(rows, funds, funding);
    SmallPage<T>([], limit, offset);
    for i := 0 to |rows|
      invariant skipped == Min(|Directed(rows[..i], funds, funding)|, offset)
      invariant out == Reached(Directed(rows[..i], funds, funding), offset) && (limit > 0 ==> |out| < limit)
    {
      DirectedNext(rows, i, funds, funding);
      ReachedNext(Directed(rows[..i], funds, funding), rows[i], offset);
      if funds(rows[i]) != funding {
        continue;
      }
      if skipped < offset {
        skipped := skipped + 1;
        continue;
      }
      out := out + [rows[i]];
      if |out| == limit {
        DirectedGrows(rows, i + 1, funds, funding);
        ReachedPage(Directed(rows[..i + 1], funds, funding), Directed(rows, funds, funding), limit, offset);
        return;
      }
    }
    assert rows[..|rows|] == rows;
    if limit > 0 {
      ReachedPage(Directed(rows, funds, funding), Directed(rows, funds, funding), limit, offset);
    }
  }

  /**
   SliceAddressCreditRows, SliceAddressDebitRows, creditAddressRows,
   debitAddressRows and unspentCreditAddressRows; asked for no rows, they give all
   after the offset.
   */
  method DirectedPage<T>(rows: seq<T>, funds: T -> bool, funding: bool, n: nat, offset: nat) returns (out: seq<T>)
    ensures n > 0 ==> out == PageOf(Directed(rows, funds, funding), n, offset)
    ensures n == 0 ==> out == Reached(Directed(rows, funds, funding), offset)
  {
    hide Directed;
    if offset >= |rows| {
      return [];
    }
    var num := CountDirected(rows, funds, funding);
    var limit := if num < n then num else n;
    if offset >= num {
      return [];
    }
    out := CollectRows(rows, funds, funding, limit, offset);
  }

  function FullUnspent(r: AddressRow): bool { r.isFunding && r.matchingTxHash.None? }

  /** A compact row is unspent also if its matching hash is all zero. */
  function Unspent(r: Row): bool { r.isFunding && (r.matchingTxHash.None? || r.matchingTxHash.value == 0) }

  /**
   SliceAddressUnspentCreditRows: it counts the unspent credits, but takes its
   rows from all credits.
   */
  method SliceUnspent(rows: seq<AddressRow>, n: nat, offset: nat) returns (out: seq<AddressRow>)
    ensures n > 0 ==> out == UnspentPage(rows, n, offset)
    ensures n == 0 ==>
              out == if offset >= |Directed(rows, FullUnspent, true)| then []
                     else Reached(Directed(rows, FullFunds, true), offset)
  {
    hide Directed;
    if offset >= |rows| {
      return [];
    }
    var num := CountDirected(rows, FullUnspent, true);
    var limit := if num < n then num else n;
    if offset >= num {
      return [];
    }
    out := CollectRows(rows, FullFunds, true, limit, offset);
  }

  /** What that comes to. */
  function UnspentPage(rows: seq<AddressRow>, n: nat, offset: nat): seq<AddressRow> {
    var num := |Directed(rows, FullUnspent, true)|;
    if offset >= num then [] else PageOf(Directed(rows, FullFunds, true), Min(n, num), offset)
  }

  // ----- the views

  /** SliceAddressRows */
  method SliceAddressRows(rows: seq<AddressRow>, n: int, offset: int, view: View) returns (r: Result<seq<AddressRow>>)
    ensures r.Err? <==>
              || n < 0 || offset < 0
              || (0 < n && offset < |rows| && (view.ViewUnknown? || (IsMergedView(view) && BadDirected(rows, view))))
    ensures r.Ok? ==> r.value == DirectPage(rows, n, offset, view)
  {
    hide Range, Filter, Compacted, Directed, UncompactedMerged;
    if offset < 0 || n < 0 {
      return Err;
    }
    var numRows := |rows|;
    if n == 0 || numRows == 0 || offset >= numRows {
      NoPage(rows, n, offset, view);
      return Ok([]);
    }
    if view == ViewAll {
      var out := PageRows(rows, n, offset);
      return Ok(out);
    } else if view == ViewCredit {
      var out := DirectedPage(rows, FullFunds, true, n, offset);
      return Ok(out);
    } else if view == ViewDebit {
      var out := DirectedPage(rows, FullFunds, false, n, offset);
      return Ok(out);
    }
    if view == ViewUnspent {
      var out := SliceUnspent(rows, n, offset);
      return Ok(out);
    }
    if view == ViewUnknown {
      return Err;
    }
    var merged := MergeRowsRange(rows, n, offset, view);
    if merged.Err? {
      return Err;
    }
    return Ok(UncompactedMerged(merged.value));
  }

  /** The page of a view, taken from the rows. */
  function DirectPage(rows: seq<AddressRow>, n: nat, offset: nat, view: View): seq<AddressRow> {
    match view
    case ViewAll => PageOf(rows, n, offset)
    case ViewCredit => PageOf(Directed(rows, FullFunds, true), n, offset)
    case ViewDebit => PageOf(Directed(rows, FullFunds, false), n, offset)
    case ViewUnspent => UnspentPage(rows, n, offset)
    case ViewUnknown => []
    case _ => UncompactedMerged(Range(Filter(Compacted(rows), view), n, offset))
  }

  lemma {:induction false} FilterShorter(rows: seq<Row>, view: View)
    ensures |Filter(rows, view)| <= |rows|
  {
    if rows != [] {
      FilterShorter(rows[..|rows| - 1], view);
    }
  }

  lemma {:induction false} SkipsAll(rows: seq<Row>, offset: nat)
    requires |rows| <= offset
    ensures SkipTo(rows, offset) == |rows|
  {
  }

  lemma RangeEmpty(rows: seq<Row>, n: nat, offset: nat)
    requires n == 0 || |rows| <= offset
    ensures Range(rows, n, offset) == []
  {
    hide Txs, SkipTo;
    if |rows| <= offset {
      SkipsAll(rows, offset);
      assert rows[|rows|..] == [];
      EmptyMerge();
    }
  }

  /** Nothing asked for, or an offset past the rows: no view has a page. */
  lemma NoPage(rows: seq<AddressRow>, n: nat, offset: nat, view: View)
    requires n == 0 || |rows| <= offset
    ensures DirectPage(rows, n, offset, view) == []
  {
    hide Range, Filter;
    FilterShorter(Compacted(rows), view);
    RangeEmpty(Filter(Compacted(rows), view), n, offset);
  }

  /** What compaction keeps of a row. */
  function Kept(r: AddressRow): AddressRow {
    r.(vinVoutDbID := 0, mergedCount := 0, atomsCredit := 0, atomsDebit := 0)
  }

  function AllKept(rows: seq<AddressRow>): (k: seq<AddressRow>)
    ensures |k| == |rows| && forall i :: 0 <= i < |rows| ==> k[i] == Kept(rows[i])
  {
    if rows == [] then [] else AllKept(rows[..|rows| - 1]) + [Kept(rows[|rows| - 1])]
  }

  /** A page of compact rows, uncompacted, is the page of the rows but for the fields compaction drops. */
  lemma PageCompacts(rows: seq<AddressRow>, n: nat, offset: nat)
    ensures Uncompacted(PageOf(Compacted(rows), n, offset)) == AllKept(PageOf(rows, n, offset))
  {
    hide Compacted, Uncompacted, AllKept;
  }

  /** The page of a view, taken from compact rows and uncompacted. */
  function CompactPage(rows: seq<Row>, n: nat, offset: nat, view: View): seq<AddressRow> {
    match view
    case ViewAll => Uncompacted(PageOf(rows, n, offset))
    case ViewCredit => Uncompacted(PageOf(Directed(rows, Funds, true), n, offset))
    case ViewDebit => Uncompacted(PageOf(Directed(rows, Funds, false), n, offset))
    case ViewUnspent => Uncompacted(PageOf(Directed(rows, Unspent, true), n, offset))
    case ViewUnknown => []
    case _ => UncompactedMerged(Range(Filter(rows, view), n, offset))
  }

  lemma KeepsFunds()
    ensures forall r :: FullFunds(r) == Funds(Compact(r))
  {
  }

  /** Compact pages agree with direct ones, in every view but the unspent one, for every count and offset. */
  lemma CompactPageAgrees(rows: seq<AddressRow>, n: nat, offset: nat, view: View)
    requires view != ViewUnspent
    ensures CompactPage(Compacted(rows), n, offset, view)
         == if IsMergedView(view) then DirectPage(rows, n, offset, view) else AllKept(DirectPage(rows, n, offset, view))
  {
    hide Range, Filter, Compacted, Directed, UncompactedMerged, Uncompacted, PageOf;
    PageCompacts(rows, n, offset);
    KeepsFunds();
    CompactDirected(rows, FullFunds, Funds, true);
    CompactDirected(rows, FullFunds, Funds, false);
    PageCompacts(Directed(rows, FullFunds, true), n, offset);
    PageCompacts(Directed(rows, FullFunds, false), n, offset);
  }

  /** The first k pages, one after another. */
  function Pages<T>(s: seq<T>, n: nat, k: nat): seq<T> {
    if k == 0 then [] else Pages(s, n, k - 1) + PageOf(s, n, (k - 1) * n)
  }

  /** Consecutive pages make up the list: nothing is lost, repeated or reordered. */
  lemma {:induction false} PagesMakeUp<T>(s: seq<T>, n: nat, k: nat)
    requires n > 0
    ensures Pages(s, n, k) == if k * n <= |s| then s[..k * n] else s
  {
    if k > 0 {
      PagesMakeUp(s, n, k - 1);
      assert k * n == (k - 1) * n + n;
    }
  }

  // ----- what the views show

  /** The rows chosen are those of the direction, in order. */
  lemma {:induction false} DirectedIs<T(!new)>(rows: seq<T>, funds: T -> bool, funding: bool, p: T -> bool)
    requires forall r :: p(r) == (funds(r) == funding)
    ensures Picks(rows, Directed(rows, funds, funding), p)
  {
    hide Picks;
    if rows == [] {
      PicksNone(p);
    } else {
      var n := |rows| - 1;
      DirectedIs(rows[..n], funds, funding, p);
      PicksNext(rows[..n], Directed(rows[..n], funds, funding), p, rows[n]);
      assert rows[..n] + [rows[n]] == rows;
    }
  }

  /** The page is the entries from the offset on, as many as asked for or as there are. */
  lemma PageIs<T>(s: seq<T>, n: nat, offset: nat)
    ensures |PageOf(s, n, offset)| == if |s| <= offset then 0 else if |s| - offset <= n then |s| - offset else n
    ensures forall i :: 0 <= i < |PageOf(s, n, offset)| ==> PageOf(s, n, offset)[i] == s[offset + i]
  {
  }

  function Pays(r: AddressRow): bool { r.isFunding }

  function Takes(r: AddressRow): bool { !r.isFunding }

  function CompactPays(r: Row): bool { r.isFunding }

  function CompactTakes(r: Row): bool { !r.isFunding }

  function CompactLeft(r: Row): bool { r.isFunding && (r.matchingTxHash == None || r.matchingTxHash == Some(0)) }

  ghost predicate PageOfPicked<T(!new)>(page: seq<T>, rows: seq<T>, p: T -> bool, n: nat, offset: nat) {
    exists part: seq<T> :: Picks(rows, part, p) && page == PageOf(part, n, offset)
  }

  /** The credit view is a page of the credits, the debit view one of the debits, the whole view one of all rows. */
  lemma DirectViews(rows: seq<AddressRow>, n: nat, offset: nat)
    ensures DirectPage(rows, n, offset, ViewAll) == PageOf(rows, n, offset)
    ensures PageOfPicked(DirectPage(rows, n, offset, ViewCredit), rows, Pays, n, offset)
    ensures PageOfPicked(DirectPage(rows, n, offset, ViewDebit), rows, Takes, n, offset)
  {
    hide Picks, Directed, PageOf;
    DirectedIs(rows, FullFunds, true, Pays);
    DirectedIs(rows, FullFunds, false, Takes);
  }

  /** So are those from compact rows; the unspent view is a page of the credits not spent. */
  lemma CompactViews(rows: seq<Row>, n: nat, offset: nat)
    ensures CompactPage(rows, n, offset, ViewAll) == Uncompacted(PageOf(rows, n, offset))
    ensures exists page :: PageOfPicked(page, rows, CompactPays, n, offset)
                           && CompactPage(rows, n, offset, ViewCredit) == Uncompacted(page)
    ensures exists page :: PageOfPicked(page, rows, CompactTakes, n, offset)
                           && CompactPage(rows, n, offset, ViewDebit) == Uncompacted(page)
    ensures exists page :: PageOfPicked(page, rows, CompactLeft, n, offset)
                           && CompactPage(rows, n, offset, ViewUnspent) == Uncompacted(page)
  {
    hide Picks, Directed, PageOf, Uncompacted;
    DirectedIs(rows, Funds, true, CompactPays);
    DirectedIs(rows, Funds, false, CompactTakes);
    DirectedIs(rows, Unspent, true, CompactLeft);
    assert PageOfPicked(PageOf(Directed(rows, Funds, true), n, offset), rows, CompactPays, n, offset);
    assert PageOfPicked(PageOf(Directed(rows, Funds, false), n, offset), rows, CompactTakes, n, offset);
    assert PageOfPicked(PageOf(Directed(rows, Unspent, true), n, offset), rows, CompactLeft, n, offset);
  }

  /** Compacting a row and back keeps all of it but the database ID and what merging adds. */
  lemma CompactKeeps(r: AddressRow)
    ensures var u := Uncompact(Compact(r));
            && u.address == r.address && u.time == r.time && u.txHash == r.txHash && u.txType == r.txType
            && u.matchingTxHash == r.matchingTxHash && u.vinVoutIndex == r.vinVoutIndex
            && u.validMainChain == r.validMainChain && u.isFunding == r.isFunding && u.value == r.value
            && u.mergedCount == 0 && u == Kept(r)
  {
  }
}
