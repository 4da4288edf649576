/** The cache of address rows and balances, bounded in rows and in addresses. */
module CachedAddresses {
  import opened Common
  import opened Wrappers
  import opened Bytes
  import opened AddressRows
  import opened RowMerging
  import opened RowPages
  import opened PurgeSizes
  import opened PurgeOutcomes

  datatype BlockID = BlockID(hash: Hash, height: int)

  datatype Balance = Balance(address: string, numSpent: int, numUnspent: int, totalSpent: int, totalUnspent: int)

  datatype TxPage = Compacts(rows: seq<Row>) | Mergeds(merged: seq<Merged>)

  class AddressCacheItem {
    var balance: Option<Balance>
    var rows: Option<seq<Row>>
    var utxos: Option<seq<nat>>
    const height: int
    const hash: Hash
    /** The address it is cached for. */
    ghost const owner: string

    constructor (block: BlockID, rows: Option<seq<Row>>, balance: Option<Balance>, utxos: Option<seq<nat>>,
                 ghost owner: string)
      ensures this.rows == rows && this.balance == balance && this.utxos == utxos
      ensures hash == block.hash && height == block.height && this.owner == owner
    {
      this.rows, this.balance, this.utxos := rows, balance, utxos;
      this.hash, this.height, this.owner := block.hash, block.height, owner;
    }

    function NumRows(): nat
      reads this`rows
    {
      if rows.Some? then |rows.value| else 0
    }

    /** Transactions: a page of the rows, or a miss. */
    method Transactions(n: int, offset: int, view: View) returns (r: Result<(TxPage, Option<BlockID>)>)
      ensures r.Err? <==> n < 0 || offset < 0 || view.ViewUnknown?
      ensures r.Ok? ==> (r.value.0.Mergeds? <==> view in {MergedAll, MergedCredit, MergedDebit})
      ensures r.Ok? ==> r.value.1 == if rows.Some? then Some(BlockID(hash, height)) else None
      ensures r.Ok? ==> FullRows(r.value.0) == if rows.Some? then CompactPage(rows.value, n, offset, view) else []
    {
      hide Range, Filter, Directed, Uncompacted, UncompactedMerged;
      if offset < 0 || n < 0 {
        return Err;
      }
      if view == ViewUnknown {
        return Err;
      }
      var merged := IsMergedView(view);
      EmptyPages();
      if rows.None? {
        return Ok((if merged then Mergeds([]) else Compacts([]), None));
      }
      var blockID := Some(BlockID(hash, height));
      var numRows := |rows.value|;
      if n == 0 || numRows == 0 || offset >= numRows {
        NoCompactPage(rows.value, n, offset, view);
        return Ok((if merged then Mergeds([]) else Compacts([]), blockID));
      }
      if view == ViewAll {
        var page := PageRows(rows.value, n, offset);
        return Ok((Compacts(page), blockID));
      } else if view == ViewCredit {
        var page := DirectedPage(rows.value, Funds, true, n, offset);
        return Ok((Compacts(page), blockID));
      } else if view == ViewDebit {
        var page := DirectedPage(rows.value, Funds, false, n, offset);
        return Ok((Compacts(page), blockID));
      }
      if view == ViewUnspent {
        var page := DirectedPage(rows.value, Unspent, true, n, offset);
        return Ok((Compacts(page), blockID));
      }
      var page := MergeRowsCompactRange(rows.value, n, offset, view);
      return Ok((Mergeds(page), blockID));
    }
  }

  /** The rows of a page as AddressCache.Transactions gives them out. */
  function FullRows(p: TxPage): seq<AddressRow> {
    match p
    case Compacts(rows) => Uncompacted(rows)
    case Mergeds(merged) => UncompactedMerged(merged)
  }

  lemma EmptyPages()
    ensures Uncompacted([]) == [] && UncompactedMerged([]) == []
  {
  }

  lemma NoCompactPage(rows: seq<Row>, n: nat, offset: nat, view: View)
    requires n == 0 || |rows| <= offset
    ensures CompactPage(rows, n, offset, view) == []
  {
    hide Range, Filter;
    FilterShorter(rows, view);
    RangeEmpty(Filter(rows, view), n, offset);
  }

  // ----- the cache

  /** What was stored: rows, or a balance, for an address at a block. */
  datatype Ledger = Ledger(rows: set<(string, Hash, seq<Row>)>, balances: set<(string, Hash, Balance)>)

  function WithRows(l: Ledger, addr: string, hash: Hash, rows: seq<Row>): Ledger {
    l.(rows := l.rows + {(addr, hash, rows)})
  }

  /** A missing balance is stored as an empty one. */
  function BalanceOr(balance: Option<Balance>, addr: string): Balance {
    if balance.Some? then balance.value else Balance(addr, 0, 0, 0, 0)
  }

  function WithBalance(l: Ledger, addr: string, hash: Hash, balance: Option<Balance>): Ledger {
    l.(balances := l.balances + {(addr, hash, BalanceOr(balance, addr))})
  }

  ghost predicate Honest(x: string, i: AddressCacheItem, ledger: Ledger)
    reads i
  {
    && (i.rows.Some? ==> (x, i.hash, i.rows.value) in ledger.rows)
    && (i.balance.Some? ==> (x, i.hash, i.balance.value) in ledger.balances)
  }

  class AddressCache {
    var a: map<string, AddressCacheItem>
    const cap: int
    const capAddr: int
    const maxUTXOsPerAddr: int
    const project: string
    /** Every item made so far, the number of rows cached for each address, and what was stored. */
    ghost var items: set<AddressCacheItem>
    ghost var sizes: Sizes
    ghost var ledger: Ledger

    ghost predicate Owns()
      reads this`a, this`items, this`sizes, items
    {
      && sizes.Keys == a.Keys
      && forall x :: x in a ==> a[x] in items && a[x].owner == x && sizes[x] == a[x].NumRows()
    }

    ghost predicate AllHonest()
      reads this`a, this`items, this`ledger, items
    {
      forall x :: x in a ==> a[x] in items && Honest(x, a[x], ledger)
    }

    /** Every item holds what was stored for its address at its block; the number of addresses is in bounds. */
    ghost predicate Valid()
      reads this`a, this`items, this`sizes, this`ledger, items
    {
      Owns() && AllHonest() && |a| <= Max(0, capAddr)
    }

    constructor (cap: int, capAddr: int, maxUTXOsPerAddr: int, project: string)
      ensures Valid() && a == map[] && items == {}
      ensures this.cap == cap && this.capAddr == capAddr && this.project == project
      ensures this.maxUTXOsPerAddr == maxUTXOsPerAddr
    {
      this.cap, this.capAddr, this.maxUTXOsPerAddr, this.project := cap, capAddr, maxUTXOsPerAddr, project;
      a, items, sizes, ledger := map[], {}, map[], Ledger({}, {});
    }

    /** Removes an address. */
    method Delete(x: string)
      requires Owns() && AllHonest() && x in a
      modifies this`a, this`sizes
      ensures Owns() && AllHonest() && Left(a, old(a))
      ensures a == old(a) - {x} && sizes == old(sizes) - {x} && |a| == |old(a)| - 1
    {
      Smaller(a, x);
      a := a - {x};
      sizes := sizes - {x};
    }

    /** length, without the number of unspent outputs */
    method Length() returns (numAddrs: nat, numTxns: nat)
      requires Owns()
      ensures numAddrs == |a| == |sizes| && numTxns == Total(sizes)
    {
      hide Total;
      SameKeys();
      numAddrs, numTxns := |a|, 0;
      var todo := a.Keys;
      assert sizes - todo == map[];
      NoRows();
      while todo != {}
        invariant todo <= a.Keys && numTxns == Total(sizes - todo)
        decreases |todo|
      {
        var x :| x in todo;
        TotalPutsIn(sizes - todo, x, sizes[x]);
        assert sizes - (todo - {x}) == (sizes - todo)[x := sizes[x]];
        numTxns := numTxns + a[x].NumRows();
        todo := todo - {x};
      }
      assert sizes - todo == sizes;
    }

    lemma SameKeys()
      requires Owns()
      ensures sizes.Keys == a.Keys && |sizes| == |a|
    {
      assert |sizes.Keys| == |sizes| && |a.Keys| == |a|;
    }

    /** One turn of the first loop. */
    method DropOne(ghost before: Sizes, ghost n: nat)
      requires Owns() && AllHonest() && |a| >= capAddr >= 1 && a.Keys != {project}
      requires FirstSteps(before, sizes, project, capAddr, n)
      modifies this`a, this`sizes
      ensures Owns() && AllHonest() && Left(a, old(a)) && |a| < |old(a)|
      ensures FirstSteps(before, sizes, project, capAddr, n + 1)
    {
      hide Owns, AllHonest, Left, FirstSteps;
      SameKeys();
      OtherItem(a, project);
      var x :| x in a && x != project;
      OneMoreDrop(before, sizes, project, capAddr, x, n);
      Delete(x);
    }

    /** The first loop of purgeRowsToFit: room for one address more. */
    method PurgeAddrs()
      requires Owns() && AllHonest() && capAddr >= 1
      modifies this`a, this`sizes
      ensures Owns() && AllHonest() && Left(a, old(a))
      ensures FirstLoop(old(sizes), sizes, project, capAddr)
    {
      hide Owns, AllHonest, Left, FirstSteps;
      AllLeft(a);
      SameKeys();
      FirstStart(sizes, project, capAddr);
      ghost var n: nat := 0;
      while |a| >= capAddr
        invariant Owns() && AllHonest() && Left(a, old(a)) && sizes.Keys == a.Keys && |sizes| == |a|
        invariant FirstSteps(old(sizes), sizes, project, capAddr, n)
        decreases |a|
      {
        if a.Keys == {project} {
          break;
        }
        ghost var a1 := a;
        DropOne(old(sizes), n);
        SameKeys();
        LeftTwice(a, a1, old(a));
        n := n + 1;
      }
    }

    /** An address with rows that the second loop may remove. */
    method PickRows(ghost numRows: int) returns (x: string)
      requires Owns() && !Stuck(sizes, project, numRows, cap) && !Exits(sizes, project, numRows, cap)
      ensures x in a && CanPurge(sizes, project, x)
    {
      hide Stuck, Exits, Total;
      HasPurgeable(sizes, project, numRows, cap);
      ghost var k :| CanPurge(sizes, project, k);
      assert k in a && k != project && a[k].NumRows() > 0;
      x :| x in a && x != project && a[x].NumRows() > 0;
    }

    /** One turn of the second loop. */
    method PurgeOne(numRows: int, ghost before: Sizes, ghost n: nat) returns (cacheSize: nat)
      requires Owns() && AllHonest() && !Exits(sizes, project, numRows, cap) && !Stuck(sizes, project, numRows, cap)
      requires SecondSteps(before, sizes, project, numRows, cap, n)
      modifies this`a, this`sizes
      ensures Owns() && AllHonest() && Left(a, old(a)) && |a| < |old(a)| && cacheSize == Total(sizes)
      ensures SecondSteps(before, sizes, project, numRows, cap, n + 1) && !Stuck(sizes, project, numRows, cap)
    {
      hide Owns, AllHonest, Left, Stuck, Exits, Total, SecondSteps;
      var x := PickRows(numRows);
      PurgeTurn(before, sizes, project, numRows, cap, x, n);
      Delete(x);
      var _, size := Length();
      return size;
    }

    /** The second loop of purgeRowsToFit: room for the rows. */
    method PurgeRows(numRows: int)
      requires Owns() && AllHonest() && !Stuck(sizes, project, numRows, cap)
      modifies this`a, this`sizes
      ensures Owns() && AllHonest() && Left(a, old(a))
      ensures SecondLoop(old(sizes), sizes, project, numRows, cap)
    {
      hide Owns, AllHonest, Left, Stuck, Total, SecondSteps;
      AllLeft(a);
      SecondStart(sizes, project, numRows, cap);
      ghost var n: nat := 0;
      var addrsCached, cacheSize := Length();
      SameKeys();
      while cacheSize > 0 && cacheSize + numRows > cap
        invariant Owns() && AllHonest() && Left(a, old(a)) && cacheSize == Total(sizes) && sizes.Keys == a.Keys
        invariant !Stuck(sizes, project, numRows, cap)
        invariant SecondSteps(old(sizes), sizes, project, numRows, cap, n)
        decreases |a|
      {
        if a.Keys == {project} {
          break;
        }
        ghost var a1 := a;
        cacheSize := PurgeOne(numRows, old(sizes), n);
        SameKeys();
        LeftTwice(a, a1, old(a));
        n := n + 1;
      }
    }

    /**
     purgeRowsToFit. The program does not return from every state, so the caller
     must not be in one from which it may hang.
     */
    method PurgeRowsToFit(numRows: int) returns (haveSpace: bool)
      requires Owns() && AllHonest() && |a| <= Max(0, capAddr) && !MayHang(sizes, project, numRows, cap, capAddr)
      modifies this`a, this`sizes
      ensures Owns() && AllHonest() && Left(a, old(a))
      ensures cap < 1 || capAddr < 1 ==> !haveSpace && a == old(a) && sizes == old(sizes)
      ensures cap >= 1 && capAddr >= 1 ==>
                && Outcome(old(sizes), sizes, project, numRows, cap, capAddr)
                && haveSpace == Space(sizes, numRows, cap, capAddr)
    {
      hide Owns, AllHonest, Left, Stuck, Total, MayHang, FirstLoop, SecondLoop;
      if cap < 1 || capAddr < 1 {
        AllLeft(a);
        return false;
      }
      SameKeys();
      PurgeAddrs();
      ghost var a1, sizes1 := a, sizes;
      FirstNotStuck(old(sizes), sizes, project, numRows, cap, capAddr);
      PurgeRows(numRows);
      LeftTwice(a, a1, old(a));
      var addrsCached, cacheSize := Length();
      return cacheSize + numRows <= cap && addrsCached < capAddr;
    }

    ghost function RowsFor(addr: string): nat
      reads this`sizes
    {
      Rows(sizes, addr)
    }

    /** Storing n rows for the address may hang. */
    ghost predicate StoreMayHang(addr: string, n: nat)
      reads this`sizes
    {
      MayHang(sizes, project, Need(sizes, addr, n), cap, capAddr)
    }

    /** Puts an item in the place of any other for its address. */
    method Put(addr: string, item: AddressCacheItem)
      requires Owns() && AllHonest() && item !in items && item.owner == addr && Honest(addr, item, ledger)
      modifies this`a, this`sizes, this`items
      ensures Owns() && AllHonest()
      ensures a == old(a)[addr := item] && sizes == old(sizes)[addr := item.NumRows()] && items == old(items) + {item}
    {
      a := a[addr := item];
      sizes := sizes[addr := item.NumRows()];
      items := items + {item};
    }

    /** addCacheItem */
    method AddCacheItem(addr: string, item: AddressCacheItem) returns (success: bool)
      requires Valid() && item !in items && item.owner == addr && Honest(addr, item, ledger)
      requires !StoreMayHang(addr, item.NumRows())
      modifies this`a, this`sizes, this`items
      ensures Valid() && items == if success then old(items) + {item} else old(items)
      ensures success ==> addr in a && a[addr] == item
      ensures Stays(a, old(a), addr) && (!success ==> Left(a, old(a)))
      ensures Settles(old(sizes), sizes, addr, item.NumRows(), false, success, project, cap, capAddr)
    {
      hide Owns, AllHonest, Total, Left, Stays, MayHang, Outcome, Space;
      SameKeys();
      KnownRows();
      if cap < 1 || capAddr < 1 {
        AllLeft(a);
        SameStays(a, addr);
        return false;
      }
      var alreadyStored := if addr in a then a[addr].NumRows() else 0;
      var haveSpace := PurgeRowsToFit(item.NumRows() - alreadyStored);
      ghost var left := sizes;
      LeftStays(a, old(a), addr, item);
      if haveSpace {
        Put(addr, item);
      }
      assert Ends(left, sizes, addr, item.NumRows(), false, haveSpace, Need(old(sizes), addr, item.NumRows()), cap, capAddr);
      SettlesBounds(old(sizes), sizes, addr, item.NumRows(), false, haveSpace, project, cap, capAddr);
      SameKeys();
      return haveSpace;
    }

    lemma KnownRows()
      requires Owns()
      ensures forall x :: x in a ==> a[x].NumRows() == RowsFor(x)
    {
    }

    /** Notes what is about to be stored. */
    ghost method Note(l: Ledger)
      requires Owns() && AllHonest() && ledger.rows <= l.rows && ledger.balances <= l.balances
      modifies this`ledger
      ensures Owns() && AllHonest() && ledger == l
    {
      ledger := l;
    }

    ghost method NoteRows(addr: string, hash: Hash, rows: seq<Row>)
      requires Owns() && AllHonest()
      modifies this`ledger
      ensures Owns() && AllHonest() && ledger == WithRows(old(ledger), addr, hash, rows)
      ensures (addr, hash, rows) in ledger.rows
    {
      Note(WithRows(ledger, addr, hash, rows));
    }

    /** Sets the rows of an item that was cached for its address before any purging. */
    method PutRows(addr: string, item: AddressCacheItem, rows: seq<Row>)
      requires Owns() && AllHonest() && item in items && item.owner == addr && (addr in a ==> a[addr] == item)
      requires (addr, item.hash, rows) in ledger.rows
      modifies this`sizes, item`rows
      ensures Owns() && AllHonest() && item.rows == Some(rows)
      ensures sizes == if addr in a then old(sizes)[addr := |rows|] else old(sizes)
    {
      item.rows := Some(rows);
      if addr in a {
        sizes := sizes[addr := |rows|];
      }
    }

    /** The same-block part of setCacheItemRows; the purge may remove the item whose rows are then set. */
    method UpdateRows(addr: string, item: AddressCacheItem, rows: seq<Row>) returns (updated: bool)
      requires Valid() && addr in a && a[addr] == item && (addr, item.hash, rows) in ledger.rows
      requires !StoreMayHang(addr, |rows|)
      modifies this`a, this`sizes, item`rows
      ensures Valid() && Left(a, old(a))
      ensures addr in a ==> a[addr] == item
      ensures updated ==> item.rows == Some(rows)
      ensures Settles(old(sizes), sizes, addr, |rows|, true, updated, project, cap, capAddr)
    {
      hide Owns, AllHonest, Total, Left, MayHang, Outcome, Space;
      SameKeys();
      KnownRows();
      ItemOf(addr);
      var alreadyStored := item.NumRows();
      var haveSpace := PurgeRowsToFit(|rows| - alreadyStored);
      ghost var left := sizes;
      AtMost(a, old(a));
      SameKeys();
      if haveSpace {
        PutRows(addr, item, rows);
      }
      ghost var need := Need(old(sizes), addr, |rows|);
      assert cap >= 1 && capAddr >= 1 ==> Ends(left, sizes, addr, |rows|, true, haveSpace, need, cap, capAddr);
      SettlesBounds(old(sizes), sizes, addr, |rows|, true, haveSpace, project, cap, capAddr);
      return haveSpace;
    }

    lemma ItemOf(addr: string)
      requires Owns() && addr in a
      ensures a[addr] in items && a[addr].owner == addr
    {
    }

    lemma AllOwned()
      requires Owns()
      ensures forall x :: x in a ==> a[x] in items && a[x].owner == x
    {
    }

    /** The address is cached at this block. */
    ghost predicate Current(addr: string, hash: Hash)
      reads this`a
    {
      addr in a && a[addr].hash == hash
    }

    /** That many rows are cached for the address at this block, so a store changes nothing. */
    ghost predicate Already(addr: string, hash: Hash, n: nat)
      reads this`a, set x | x in a :: a[x]
    {
      Current(addr, hash) && a[addr].rows.Some? && |a[addr].rows.value| == n
    }

    /** setCacheItemRows, for a block and capacities that allow it */
    method SetCacheItemRows(addr: string, rows: seq<Row>, block: BlockID) returns (updated: bool)
      requires Valid() && cap >= 1 && capAddr >= 1 && (addr, block.hash, rows) in ledger.rows
      requires Already(addr, block.hash, |rows|) || !StoreMayHang(addr, |rows|)
      modifies this`a, this`sizes, this`items, items`rows
      ensures Valid() && Stays(a, old(a), addr) && fresh(items - old(items)) && old(items) <= items
      ensures old(Already(addr, block.hash, |rows|)) ==>
                updated && a == old(a) && sizes == old(sizes) && a[addr].rows.Some?
      ensures !old(Already(addr, block.hash, |rows|)) ==>
                Settles(old(sizes), sizes, addr, |rows|, old(Current(addr, block.hash)), updated, project, cap, capAddr)
      ensures updated && addr in a ==> a[addr].hash == block.hash
      ensures updated && addr in a && !old(Already(addr, block.hash, |rows|)) ==> a[addr].rows == Some(rows)
      ensures updated && !old(Current(addr, block.hash)) ==>
                addr in a && a[addr].height == block.height && a[addr].balance == None && a[addr].utxos == None
      ensures old(Current(addr, block.hash)) && addr in a ==> a[addr] == old(a[addr])
      ensures forall i :: i in old(items) && (addr in old(a) ==> i != old(a[addr])) ==> i.rows == old(i.rows)
    {
      hide Owns, AllHonest, Total, Left, Stays, MayHang, Settles;
      AllOwned();
      if addr !in a || a[addr].hash != block.hash {
        var item := new AddressCacheItem(block, Some(rows), None, None, addr);
        updated := AddCacheItem(addr, item);
        return;
      }
      var item := a[addr];
      if item.rows.Some? && |item.rows.value| == |rows| {
        SameStays(a, addr);
        return true;
      }
      updated := UpdateRows(addr, item, rows);
      AtMost(a, old(a));
      StaysOut(a, old(a), addr);
    }

    lemma StoredTruth(addr: string, rows: seq<Row>)
      requires AllHonest() && addr in a && a[addr].rows.Some? && (addr, a[addr].hash, rows) in ledger.rows
      ensures OneTruth(ledger) ==> a[addr].rows == Some(rows)
    {
      TruthIs(ledger, addr, a[addr].hash, a[addr].rows.value, rows);
    }

    /** StoreRowsCompact */
    method StoreRowsCompact(addr: string, rows: seq<Row>, block: Option<BlockID>) returns (stored: bool)
      requires Valid()
      requires block.Some? ==> Already(addr, block.value.hash, |rows|) || !StoreMayHang(addr, |rows|)
      modifies this`a, this`sizes, this`items, this`ledger, items`rows
      ensures Valid() && Stays(a, old(a), addr) && fresh(items - old(items)) && old(items) <= items
      ensures block.None? || cap < 1 || capAddr < 1 ==>
                !stored && a == old(a) && sizes == old(sizes) && ledger == old(ledger)
      ensures block.Some? && cap >= 1 && capAddr >= 1 ==>
                && ledger == WithRows(old(ledger), addr, block.value.hash, rows)
                && (old(Already(addr, block.value.hash, |rows|)) ==> stored && a == old(a) && sizes == old(sizes))
                && (!old(Already(addr, block.value.hash, |rows|)) ==>
                    Settles(old(sizes), sizes, addr, |rows|, old(Current(addr, block.value.hash)), stored,
                            project, cap, capAddr))
      ensures stored && addr in a ==>
                && a[addr].hash == block.value.hash && a[addr].rows.Some?
                && (!old(Already(addr, block.value.hash, |rows|)) || OneTruth(ledger) ==> a[addr].rows == Some(rows))
      ensures stored && !old(Current(addr, block.value.hash)) ==>
                && addr in a && a[addr].height == block.value.height
                && a[addr].balance == None && a[addr].utxos == None
      ensures block.Some? && old(Current(addr, block.value.hash)) && addr in a ==> a[addr] == old(a[addr])
      ensures forall i :: i in old(items) && (addr in old(a) ==> i != old(a[addr])) ==> i.rows == old(i.rows)
    {
      hide Owns, AllHonest, Honest, OneTruth, Stays, MayHang, Settles, WithRows;
      if block.None? || cap < 1 || capAddr < 1 {
        SameStays(a, addr);
        return false;
      }
      NoteRows(addr, block.value.hash, rows);
      stored := SetCacheItemRows(addr, rows, block.value);
      if stored && addr in a {
        StoredTruth(addr, rows);
      }
    }

    /** StoreRows */
    method StoreRows(addr: string, rows: seq<AddressRow>, block: Option<BlockID>) returns (stored: bool)
      requires Valid()
      requires block.Some? ==> Already(addr, block.value.hash, |rows|) || !StoreMayHang(addr, |rows|)
      modifies this`a, this`sizes, this`items, this`ledger, items`rows
      ensures Valid() && fresh(items - old(items))
      ensures stored ==> block.Some?
      ensures stored && addr in a && OneTruth(ledger) ==>
                a[addr].hash == block.value.hash && a[addr].rows == Some(Compacted(rows))
      ensures stored && addr !in old(a) ==> addr in a && a[addr].rows == Some(Compacted(rows)) && Total(sizes) <= cap
    {
      hide Owns, AllHonest, Total, OneTruth, Stays, Compacted, MayHang, Settles;
      if block.None? || cap < 1 || capAddr < 1 {
        return false;
      }
      SameKeys();
      var compact := CompactRows(rows);
      stored := StoreRowsCompact(addr, compact, block);
      if addr !in old(a) {
        SettlesBounds(old(sizes), sizes, addr, |rows|, false, stored, project, cap, capAddr);
      }
    }

    /** StoreBalance */
    method StoreBalance(addr: string, balance: Option<Balance>, block: Option<BlockID>) returns (stored: bool)
      requires Valid() && (block.Some? ==> Current(addr, block.value.hash) || !StoreMayHang(addr, 0))
      modifies this`a, this`sizes, this`items, this`ledger, items`balance
      ensures Valid() && Stays(a, old(a), addr) && fresh(items - old(items)) && old(items) <= items
      ensures block.None? || cap < 1 || capAddr < 1 ==>
                !stored && a == old(a) && sizes == old(sizes) && ledger == old(ledger)
      ensures block.Some? && cap >= 1 && capAddr >= 1 ==>
                && ledger == WithBalance(old(ledger), addr, block.value.hash, balance)
                && (old(Current(addr, block.value.hash)) ==> stored && a == old(a) && sizes == old(sizes))
                && (!old(Current(addr, block.value.hash)) ==>
                    Settles(old(sizes), sizes, addr, 0, false, stored, project, cap, capAddr))
      ensures stored ==>
                && addr in a && a[addr].hash == block.value.hash
                && a[addr].balance == Some(BalanceOr(balance, addr))
                && (balance.Some? ==> a[addr].balance == balance)
                && (balance.None? ==> a[addr].balance == Some(Balance(addr, 0, 0, 0, 0)))
      ensures stored && !old(Current(addr, block.value.hash)) ==>
                a[addr].rows == None && a[addr].utxos == None && a[addr].height == block.value.height
      ensures forall i :: i in old(items) && (addr in old(a) ==> i != old(a[addr])) ==> i.balance == old(i.balance)
    {
      hide Owns, AllHonest, Left, Stays, MayHang, Settles, WithBalance;
      if block.None? || cap < 1 || capAddr < 1 {
        SameStays(a, addr);
        return false;
      }
      var bal := BalanceOr(balance, addr);
      NoteBalance(addr, block.value.hash, balance);
      AllOwned();
      if addr !in a || a[addr].hash != block.value.hash {
        var item := new AddressCacheItem(block.value, None, Some(bal), None, addr);
        stored := AddCacheItem(addr, item);
        return;
      }
      PutBalance(addr, bal);
      SameStays(a, addr);
      return true;
    }

    ghost method NoteBalance(addr: string, hash: Hash, balance: Option<Balance>)
      requires Owns() && AllHonest()
      modifies this`ledger
      ensures Owns() && AllHonest() && ledger == WithBalance(old(ledger), addr, hash, balance)
      ensures (addr, hash, BalanceOr(balance, addr)) in ledger.balances
    {
      Note(WithBalance(ledger, addr, hash, balance));
    }

    /** Sets the balance of a cached item. */
    method PutBalance(addr: string, bal: Balance)
      requires Owns() && AllHonest() && addr in a && (addr, a[addr].hash, bal) in ledger.balances
      modifies items`balance
      ensures Owns() && AllHonest() && a[addr].balance == Some(bal)
      ensures forall i :: i in items && i != a[addr] ==> i.balance == old(i.balance)
    {
      a[addr].balance := Some(bal);
    }

    /** Too many unspent outputs for one address. */
    predicate TooMany(addr: string, utxos: seq<nat>) {
      |utxos| > maxUTXOsPerAddr && addr != project
    }

    /** StoreUTXOs; an item that is cached keeps its block */
    method StoreUTXOs(addr: string, utxos: seq<nat>, block: Option<BlockID>) returns (stored: bool)
      requires Valid()
      requires block.Some? ==> addr in a || TooMany(addr, utxos) || !StoreMayHang(addr, 0)
      modifies this`a, this`sizes, this`items, items`utxos
      ensures Valid() && Stays(a, old(a), addr) && fresh(items - old(items)) && old(items) <= items
      ensures block.None? || cap < 1 || capAddr < 1 || TooMany(addr, utxos) ==>
                !stored && a == old(a) && sizes == old(sizes)
      ensures block.Some? && cap >= 1 && capAddr >= 1 && !TooMany(addr, utxos) ==>
                if addr in old(a) then stored && a == old(a) && sizes == old(sizes)
                else Settles(old(sizes), sizes, addr, 0, false, stored, project, cap, capAddr)
      ensures stored ==> addr in a && a[addr].utxos == Some(utxos)
      ensures stored && addr != project ==> |utxos| <= maxUTXOsPerAddr
      ensures block.Some? && cap >= 1 && capAddr >= 1 && addr in old(a) ==>
                (stored <==> |utxos| <= maxUTXOsPerAddr || addr == project)
      ensures stored && addr !in old(a) ==>
                && a[addr].hash == block.value.hash && a[addr].height == block.value.height
                && a[addr].rows == None && a[addr].balance == None
      ensures forall i :: i in old(items) && (addr in old(a) ==> i != old(a[addr])) ==> i.utxos == old(i.utxos)
    {
      hide Owns, AllHonest, Left, Stays, MayHang, Settles;
      if block.None? || cap < 1 || capAddr < 1 || TooMany(addr, utxos) {
        SameStays(a, addr);
        return false;
      }
      AllOwned();
      if addr !in a {
        var item := new AddressCacheItem(block.value, None, None, Some(utxos), addr);
        NothingNew(item);
        stored := AddCacheItem(addr, item);
        return;
      }
      PutUTXOs(addr, utxos);
      SameStays(a, addr);
      return true;
    }

    lemma NothingNew(item: AddressCacheItem)
      requires item.rows.None? && item.balance.None?
      ensures Honest(item.owner, item, ledger)
    {
    }

    method PutUTXOs(addr: string, utxos: seq<nat>)
      requires Owns() && AllHonest() && addr in a
      modifies items`utxos
      ensures Owns() && AllHonest() && a[addr].utxos == Some(utxos)
      ensures forall i :: i in items && i != a[addr] ==> i.utxos == old(i.utxos)
    {
      a[addr].utxos := Some(utxos);
    }

    /** ClearRows */
    method ClearRows(addr: string)
      requires Valid()
      modifies this`sizes, items`rows
      ensures Valid() && Total(sizes) <= Total(old(sizes)) && PartBut(sizes, old(sizes), addr, 0)
      ensures addr in a ==> a[addr].rows == None
      ensures forall i :: i in items && (addr in a ==> i != a[addr]) ==> i.rows == old(i.rows)
    {
      hide Owns, AllHonest, Total;
      if addr in a {
        SameKeys();
        TotalPutsIn(sizes, addr, 0);
        DropRows(addr);
      }
    }

    method DropRows(addr: string)
      requires Owns() && AllHonest() && addr in a
      modifies this`sizes, items`rows
      ensures Owns() && AllHonest() && a[addr].rows == None && sizes == old(sizes)[addr := 0]
      ensures forall i :: i in items && i != a[addr] ==> i.rows == old(i.rows)
    {
      a[addr].rows := None;
      sizes := sizes[addr := 0];
    }

    /** Balance: a hit gives a balance stored for the address at the block named. */
    method GetBalance(addr: string) returns (balance: Option<Balance>, block: Option<BlockID>)
      requires Valid()
      ensures balance.Some? <==> addr in a && a[addr].balance.Some?
      ensures balance.Some? <==> block.Some?
      ensures balance.Some? ==> (addr, block.value.hash, balance.value) in ledger.balances
      ensures balance.Some? ==>
                balance == a[addr].balance && block.value.hash == a[addr].hash && block.value.height == a[addr].height
    {
      if addr !in a || a[addr].balance.None? {
        return None, None;
      }
      return a[addr].balance, Some(BlockID(a[addr].hash, a[addr].height));
    }

    /** Transactions: a hit gives the page of rows stored for the address at the block named. */
    method Transactions(addr: string, n: int, offset: int, view: View)
      returns (r: Result<(seq<AddressRow>, Option<BlockID>)>)
      requires Valid()
      ensures r.Err? <==> view.ViewUnknown? || (addr in a && (n < 0 || offset < 0))
      ensures r.Ok? ==> (r.value.1.Some? <==> addr in a && a[addr].rows.Some?)
      ensures r.Ok? && r.value.1.Some? ==>
                && r.value.1.value == BlockID(a[addr].hash, a[addr].height)
                && (addr, r.value.1.value.hash, a[addr].rows.value) in ledger.rows
                && r.value.0 == CompactPage(a[addr].rows.value, n, offset, view)
    {
      hide CompactPage, UncompactedMerged, Uncompacted;
      if view == ViewUnknown {
        return Err;
      }
      if addr !in a {
        return Ok(([], None));
      }
      var page := a[addr].Transactions(n, offset, view);
      if page.Err? {
        return Err;
      }
      return Ok((FullRows(page.value.0), page.value.1));
    }
  }

  /** What is left of the items after some addresses are removed. */
  ghost predicate Left(a: map<string, AddressCacheItem>, whole: map<string, AddressCacheItem>) {
    && a.Keys <= whole.Keys
    && |a| <= |whole|
    && forall x :: x in a ==> a[x] == whole[x]
  }

  lemma LeftTwice(a: map<string, AddressCacheItem>, b: map<string, AddressCacheItem>, c: map<string, AddressCacheItem>)
    requires Left(a, b) && Left(b, c)
    ensures Left(a, c)
  {
  }

  /** Nothing is added but for one address. */
  ghost predicate Stays(a: map<string, AddressCacheItem>, whole: map<string, AddressCacheItem>, addr: string) {
    forall x :: x in a && x != addr ==> x in whole && a[x] == whole[x]
  }

  lemma LeftStays(a: map<string, AddressCacheItem>, whole: map<string, AddressCacheItem>, addr: string, item: AddressCacheItem)
    requires Left(a, whole)
    ensures Stays(a, whole, addr) && Stays(a[addr := item], whole, addr)
  {
  }

  /** The rows of an address at a block are always the same. */
  ghost predicate OneTruth(ledger: Ledger) {
    forall x, h, r, r' :: (x, h, r) in ledger.rows && (x, h, r') in ledger.rows ==> r == r'
  }

  lemma TruthIs(ledger: Ledger, x: string, h: Hash, r: seq<Row>, r': seq<Row>)
    requires (x, h, r) in ledger.rows && (x, h, r') in ledger.rows
    ensures OneTruth(ledger) ==> r == r'
  {
  }

  lemma SameStays(a: map<string, AddressCacheItem>, addr: string)
    ensures Stays(a, a, addr)
  {
  }

  lemma StaysOut(a: map<string, AddressCacheItem>, whole: map<string, AddressCacheItem>, addr: string)
    requires Left(a, whole)
    ensures Stays(a, whole, addr)
  {
  }

  lemma AllLeft(a: map<string, AddressCacheItem>)
    ensures Left(a, a)
  {
  }

  lemma AtMost(a: map<string, AddressCacheItem>, whole: map<string, AddressCacheItem>)
    requires Left(a, whole)
    ensures |a| <= |whole| && forall x :: x in a ==> x in whole && a[x] == whole[x]
  {
  }

  lemma Smaller(a: map<string, AddressCacheItem>, x: string)
    requires x in a
    ensures |a - {x}| == |a| - 1
  {
    assert (a - {x}).Keys == a.Keys - {x};
  }

  lemma OtherItem(a: map<string, AddressCacheItem>, x: string)
    requires a != map[] && a.Keys != {x}
    ensures exists y :: y in a && y != x
  {
    var y :| y in a;
    if y == x {
      var rest := a.Keys - {x};
      assert a.Keys == rest + {x};
      assert rest != {};
      var z :| z in rest;
      assert z in a;
    }
  }

  lemma NoRows()
    ensures Total(map[]) == 0
  {
  }
}
