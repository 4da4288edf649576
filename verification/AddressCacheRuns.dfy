/** What the address cache gives back after rows are stored, and over runs of stores. */
module AddressCacheRuns {
  import opened Wrappers
  import opened AddressRows
  import opened RowMerging
  import opened RowPages
  import opened Common
  import opened PurgeSizes
  import opened PurgeOutcomes
  import opened CachedAddresses

  /**
   A hit after rows are stored gives the same page as slicing the rows
   themselves, in every view but the unspent one, but for the fields that
   compaction drops.
   */
  method StoreAndRead(c: AddressCache, addr: string, rows: seq<AddressRow>, block: BlockID, n: int, offset: int, view: View)
    returns (stored: bool, r: Result<(seq<AddressRow>, Option<BlockID>)>)
    requires c.Valid() && (c.Already(addr, block.hash, |rows|) || !c.StoreMayHang(addr, |rows|))
    modifies c, c.items
    ensures c.Valid()
    ensures stored && r.Ok? && r.value.1.Some? && (addr !in old(c.a) || OneTruth(c.ledger)) ==>
              && n >= 0 && offset >= 0
              && r.value.0 == CompactPage(Compacted(rows), n, offset, view)
              && (view != ViewUnspent ==>
                  r.value.0 == if IsMergedView(view) then DirectPage(rows, n, offset, view)
                               else AllKept(DirectPage(rows, n, offset, view)))
    ensures stored && addr !in old(c.a) && n >= 0 && offset >= 0 && !view.ViewUnknown? ==> r.Ok? && r.value.1.Some?
  {
    hide AddressCache.Owns, AddressCache.AllHonest, MayHang, Total, OneTruth, CompactPage, DirectPage, Compacted, AllKept;
    stored := c.StoreRows(addr, rows, Some(block));
    r := c.Transactions(addr, n, offset, view);
    if n >= 0 && offset >= 0 && view != ViewUnspent {
      CompactPageAgrees(rows, n, offset, view);
    }
  }

  /**
   After a balance is stored, reading it gives the balance that was given, or an
   empty one of the address if none was, with the hash of the block.
   */
  method StoreAndReadBalance(c: AddressCache, addr: string, balance: Option<Balance>, block: BlockID)
    returns (stored: bool, read: Option<Balance>, at: Option<BlockID>)
    requires c.Valid() && (c.Current(addr, block.hash) || !c.StoreMayHang(addr, 0))
    modifies c, c.items
    ensures c.Valid()
    ensures stored ==>
              && read == (if balance.Some? then balance else Some(Balance(addr, 0, 0, 0, 0)))
              && at.Some? && at.value.hash == block.hash
              && (!old(c.Current(addr, block.hash)) ==> at.value.height == block.height)
              && (old(c.Current(addr, block.hash)) ==> at.value.height == old(c.a[addr].height))
  {
    hide AddressCache.Owns, AddressCache.AllHonest, MayHang, Stays, Settles, WithBalance, BalanceOr;
    stored := c.StoreBalance(addr, balance, Some(block));
    read, at := c.GetBalance(addr);
  }

  /**
   With room for one address only, an update of its rows succeeds and evicts it:
   the balance of x is cached, its rows are stored for the same block, and x is
   gone.
   */
  method LostUpdate(cap: int, x: string, project: string, row: Row, block: BlockID)
    returns (c: AddressCache, first: bool, stored: bool)
    requires cap >= 1 && x != project
    ensures c.Valid() && first && stored && x !in c.a
  {
    hide AddressCache.Owns, AddressCache.AllHonest, MayHang, Total, OneTruth, Stays, Settles;
    c := new AddressCache(cap, 1, 0, project);
    Empty();
    c.SameKeys();
    NoHang(c.sizes, project, 0, cap, 1);
    first := c.StoreBalance(x, None, Some(block));
    SettlesFits(map[], c.sizes, x, 0, false, first, project, cap, 1);
    c.SameKeys();
    NoHang(c.sizes, project, 1, cap, 1);
    ghost var before := c.sizes;
    stored := c.StoreRowsCompact(x, [row], Some(block));
    SoleIsLost(before, c.sizes, x, stored, project, cap);
    c.SameKeys();
  }

  lemma Empty()
    ensures Total(map[]) == 0
  {
  }

  lemma NoHang(m: Sizes, project: string, numRows: int, cap: int, capAddr: int)
    requires project !in m
    ensures !MayHang(m, project, numRows, cap, capAddr)
  {
  }

  /** A sole address that is not the project's is removed by the first loop. */
  lemma SoleIsLost(m: Sizes, m': Sizes, x: string, ok: bool, project: string, cap: int)
    requires m == map[x := 0] && x != project && cap >= 1 && Settles(m, m', x, 1, true, ok, project, cap, 1)
    ensures ok && m' == map[]
  {
    hide Outcome, Total;
    var left: Sizes :| Outcome(m, left, project, Need(m, x, 1), cap, 1)
                       && Ends(left, m', x, 1, true, ok, Need(m, x, 1), cap, 1);
    OneEntry(x, 0);
    SoleOutcome(m, left, project, Need(m, x, 1), cap);
    Empty();
  }

  lemma SoleOutcome(m: Sizes, left: Sizes, project: string, numRows: int, cap: int)
    requires |m| == 1 && project !in m && Outcome(m, left, project, numRows, cap, 1)
    ensures left == map[]
  {
    hide FirstSteps, SecondSteps, Total;
    var m1: Sizes :| FirstLoop(m, m1, project, 1) && SecondLoop(m1, left, project, numRows, cap);
    var i: nat :| FirstSteps(m, m1, project, 1, i);
    var j: nat :| SecondSteps(m1, left, project, numRows, cap, j);
    FirstKeeps(m, m1, project, 1, i);
    assert |m1| == 0;
    SecondKeeps(m1, left, project, numRows, cap, j);
  }

  /**
   A store that never returns can come up: the rows of the project address fill
   the cache, a balance is cached for x, and one row is to be stored for y.
   */
  method HangReached(capAddr: int, project: string, x: string, y: string, rows: seq<Row>, block: BlockID)
    returns (c: AddressCache)
    requires capAddr >= 3 && project != x && project != y && x != y && rows != []
    ensures c.Valid() && c.capAddr == capAddr && y !in c.a && c.StoreMayHang(y, 1)
    ensures MayStick(c.sizes, project, 1, c.cap, capAddr)
  {
    hide AddressCache.Owns, AddressCache.AllHonest, MayHang, Total, OneTruth, Stays, Settles, MayStick;
    var cap := |rows|;
    c := new AddressCache(cap, capAddr, 0, project);
    Empty();
    c.SameKeys();
    NoHang(c.sizes, project, cap, cap, capAddr);
    var first := c.StoreRowsCompact(project, rows, Some(block));
    SettlesFits(map[], c.sizes, project, cap, false, first, project, cap, capAddr);
    OneEntry(project, cap);
    c.SameKeys();
    Fits(c.sizes, project, cap, capAddr);
    var second := c.StoreBalance(x, None, Some(block));
    SettlesFits(map[project := cap], c.sizes, x, 0, false, second, project, cap, capAddr);
    c.SameKeys();
    FullIsStuck(c.sizes, project, x, cap, capAddr);
  }

  lemma Fits(m: Sizes, project: string, cap: int, capAddr: int)
    requires project in m && m[project] <= cap
    ensures !MayHang(m, project, 0, cap, capAddr)
  {
  }

  lemma FullIsStuck(m: Sizes, project: string, x: string, cap: int, capAddr: int)
    requires cap >= 1 && capAddr >= 3 && project != x && m == map[project := cap, x := 0]
    ensures |m| == 2 && MayHang(m, project, 1, cap, capAddr) && MayStick(m, project, 1, cap, capAddr)
  {
    assert m.Keys == {project, x};
    assert |m| == |m.Keys| == 2;
    assert m[x] == 0 && m[project] == cap;
    MayHangIff(m, project, 1, cap, capAddr);
  }

  lemma OneEntry(k: string, n: nat)
    ensures Total(map[k := n]) == n && |map[k := n]| == 1
  {
    TotalTakesOut(map[k := n], k);
    assert map[k := n] - {k} == map[];
  }

  // ----- runs

  datatype Op =
    | PutRows(addr: string, rows: seq<Row>, block: BlockID)
    | PutBalance(addr: string, balance: Option<Balance>, block: BlockID)
    | PutUTXOs(addr: string, utxos: seq<nat>, block: BlockID)
    | ClearRows(addr: string)

  /** No store has more than `most` rows, and those of the project address at most `own`. */
  predicate Legal(op: Op, project: string, most: nat, own: nat) {
    op.PutRows? ==> |op.rows| <= most && (op.addr == project ==> |op.rows| <= own)
  }

  function NoteOp(l: Ledger, op: Op): Ledger {
    match op
    case PutRows(addr, rows, block) => WithRows(l, addr, block.hash, rows)
    case PutBalance(addr, balance, block) => WithBalance(l, addr, block.hash, balance)
    case _ => l
  }

  /** What a run of operations stores. */
  function NoteAll(l: Ledger, ops: seq<Op>): Ledger {
    if ops == [] then l else NoteOp(NoteAll(l, ops[..|ops| - 1]), ops[|ops| - 1])
  }

  ghost predicate ProjectSmall(sizes: Sizes, project: string, own: nat) {
    project in sizes ==> sizes[project] <= own
  }

  lemma SmallNotStuck(sizes: Sizes, project: string, own: nat, numRows: int, cap: int, capAddr: int)
    requires ProjectSmall(sizes, project, own) && own + numRows <= cap
    ensures !MayHang(sizes, project, numRows, cap, capAddr)
  {
  }

  lemma StaysSmall(sizes: Sizes, before: Sizes, addr: string, n: nat, project: string, own: nat)
    requires ProjectSmall(before, project, own) && PartBut(sizes, before, addr, n) && (addr == project ==> n <= own)
    ensures ProjectSmall(sizes, project, own)
  {
  }

  method Do(c: AddressCache, op: Op, ghost most: nat, ghost own: nat)
    requires c.Valid() && ProjectSmall(c.sizes, c.project, own) && own + most <= c.cap && c.capAddr >= 1
    requires Legal(op, c.project, most, own) && c.cap >= 1
    modifies c, c.items
    ensures c.Valid() && ProjectSmall(c.sizes, c.project, own) && fresh(c.items - old(c.items))
    ensures c.ledger == NoteOp(old(c.ledger), op)
  {
    hide AddressCache.Owns, AddressCache.AllHonest, MayHang, OneTruth, PartBut, Stays, ProjectSmall, Settles, WithRows,
         WithBalance;
    ghost var before := c.sizes;
    c.SameKeys();
    SmallNotStuck(c.sizes, c.project, own, Need(c.sizes, op.addr, if op.PutRows? then |op.rows| else 0), c.cap, c.capAddr);
    match op
    case PutRows(addr, rows, block) =>
      ghost var already, current := c.Already(addr, block.hash, |rows|), c.Current(addr, block.hash);
      var ok := c.StoreRowsCompact(addr, rows, Some(block));
      SettledSmall(c, before, addr, |rows|, current, ok, own, already);
    case PutBalance(addr, balance, block) =>
      ghost var current := c.Current(addr, block.hash);
      var ok := c.StoreBalance(addr, balance, Some(block));
      SettledSmall(c, before, addr, 0, false, ok, own, current);
    case PutUTXOs(addr, utxos, block) =>
      ghost var same := c.TooMany(addr, utxos) || addr in c.a;
      var ok := c.StoreUTXOs(addr, utxos, Some(block));
      SettledSmall(c, before, addr, 0, false, ok, own, same);
    case ClearRows(addr) =>
      c.ClearRows(addr);
      StaysSmall(c.sizes, before, addr, 0, c.project, own);
  }

  lemma SettledSmall(c: AddressCache, before: Sizes, addr: string, n: nat, inPlace: bool, ok: bool, own: nat, same: bool)
    requires ProjectSmall(before, c.project, own) && (addr == c.project ==> n <= own) && |before| <= Max(0, c.capAddr)
    requires if same then c.sizes == before
             else Settles(before, c.sizes, addr, n, inPlace, ok, c.project, c.cap, c.capAddr)
    ensures ProjectSmall(c.sizes, c.project, own)
  {
    hide Settles, PartBut, ProjectSmall;
    if !same {
      SettlesBounds(before, c.sizes, addr, n, inPlace, ok, c.project, c.cap, c.capAddr);
      StaysSmall(c.sizes, before, addr, n, c.project, own);
    }
  }

  /**
   Over every run of stores that leaves room beside the project address, no purge
   is stuck, the number of addresses stays in bounds, and what is cached for an
   address at a block is what the run stored for it there.
   */
  method Run(c: AddressCache, ops: seq<Op>, ghost most: nat, ghost own: nat)
    requires c.Valid() && ProjectSmall(c.sizes, c.project, own) && own + most <= c.cap && c.capAddr >= 1 && c.cap >= 1
    requires forall i :: 0 <= i < |ops| ==> Legal(ops[i], c.project, most, own)
    modifies c, c.items
    ensures c.Valid() && |c.a| <= c.capAddr
    ensures c.ledger == NoteAll(old(c.ledger), ops)
    ensures forall x :: x in c.a ==> Honest(x, c.a[x], NoteAll(old(c.ledger), ops))
  {
    hide AddressCache.Owns, ProjectSmall, Legal, NoteOp, Honest;
    for i := 0 to |ops|
      invariant c.Valid() && ProjectSmall(c.sizes, c.project, own) && fresh(c.items - old(c.items))
      invariant c.ledger == NoteAll(old(c.ledger), ops[..i])
    {
      assert ops[..i + 1][..i] == ops[..i];
      Do(c, ops[i], most, own);
    }
    assert ops[..|ops|] == ops;
  }
}
