/**
 Chain reorganisation: rewind the stake database to the common ancestor, connect
 the side chain, and compare the result with a database that only ever saw the
 new chain.
 */
module ChainMonitor {
  import opened Common
  import opened Bytes
  import opened Wrappers
  import opened PoolHistory
  import opened LiveTickets
  import opened DiffStore
  import opened TicketPool
  import opened StakeDatabase

  /** The parts of txhelpers.ReorgData that the stake database uses. */
  datatype ReorgData = ReorgData(newChain: seq<Hash>, newChainHeight: int, oldChainHeight: int)
  {
    function Ancestor(): int {
      newChainHeight - |newChain|
    }
  }

  datatype Outcome =
    | NoSideChain
    | RewindFailed
    | ConnectFailed
    | Switched(tip: int, hash: Hash)

  function Fetch(getBlock: Hash -> Block, hashes: seq<Hash>): (bs: seq<Block>)
    ensures |bs| == |hashes|
  {
    seq(|hashes|, i requires 0 <= i < |hashes| => getBlock(hashes[i]))
  }

  /** The chain that the reorganisation leads to. */
  function NewChain(chain: seq<Block>, reorg: ReorgData, getBlock: Hash -> Block): seq<Block>
    requires 0 <= reorg.Ancestor() < |chain|
  {
    chain[..reorg.Ancestor() + 1] + Fetch(getBlock, reorg.newChain)
  }

  /**
   The ancestor is not above the tip; and unless it would be below genesis, the
   new chain is a good one and the node has already made it its main chain.
   */
  ghost predicate WellFormed(node: Node, chain: seq<Block>, reorg: ReorgData, getBlock: Hash -> Block,
                             mainChain: seq<Block>)
  {
    && reorg.Ancestor() < |chain|
    && (reorg.Ancestor() >= 0 ==>
          var full := NewChain(chain, reorg, getBlock);
          GoodChain(node, full) && full <= mainChain)
  }

  /** The maturing block of the next height is found, in the cache or at the node. */
  lemma MaturingFound(node: Node, cache: BlockCache, chain: seq<Block>, mainChain: seq<Block>)
    requires CacheTracks(cache, chain, node.maturity) && chain <= mainChain && 1 <= node.maturity
    requires |chain| >= node.maturity
    ensures var h := |chain| - node.maturity;
            && (h in cache || h < |mainChain|)
            && (if h in cache then cache[h] else mainChain[h]) == chain[h]
  {
  }

  /** Each block of a good chain can be connected to the blocks below it. */
  lemma GoodNext(node: Node, full: seq<Block>, n: nat)
    requires GoodChain(node, full) && 1 <= n < |full|
    ensures GoodChain(node, full[..n] + [full[n]]) && full[..n] + [full[n]] == full[..n + 1]
    ensures full[n].height == n && node.accepts(full[..n], full[n]) && 1 <= node.maturity
  {
    assert full[..n] + [full[n]] == full[..n + 1];
    GoodPrefix(node, full, n + 1);
  }

  /**
   Which heights up to the tip are cached after rewinding to height `a` a
   database whose cache was `before`, and connecting a new chain from there.
   */
  ghost predicate CacheIs(cache: BlockCache, before: BlockCache, a: int, tip: int, maturity: nat) {
    forall h :: 0 <= h <= tip ==> (h in cache <==> h + maturity > tip && (h > a || h in before))
  }

  lemma CacheIsStart(before: BlockCache, chain: seq<Block>, a: int, maturity: nat)
    requires CacheTracks(before, chain, maturity) && 0 <= a < |chain|
    ensures CacheIs(before, before, a, a, maturity)
  {
  }

  lemma CacheIsStep(cache: BlockCache, before: BlockCache, a: int, tip: int, b: Block, maturity: nat)
    requires CacheIs(cache, before, a, tip, maturity) && b.height == tip + 1 && a <= tip && 1 <= maturity
    ensures CacheIs(Cached(cache, b, maturity), before, a, tip + 1, maturity)
  {
  }

  /** Connect the next block of a good chain that the node has as its main chain. */
  method ConnectNext(db: StakeDatabase, block: Block, ghost full: seq<Block>, mainChain: seq<Block>, stores: bool)
    returns (ok: bool)
    requires db.Tracks() && |db.chain| < |full| && db.chain == full[..|db.chain|] && block == full[|db.chain|]
    requires GoodChain(db.node, full) && full <= mainChain
    modifies db, db.poolDB
    ensures db.Tracks() && db.chain == full[..|old(db.chain)| + 1] && (ok <==> stores)
    ensures db.blockCache == Cached(old(db.blockCache), block, db.node.maturity)
  {
    hide GoodChain, LiveOf, Replay, CacheTracks, DiffsOf, Cached, Holds;
    ghost var n := |db.chain|;
    GoodHeights(db.node, db.chain, block);
    GoodNext(db.node, full, n);
    if n >= db.node.maturity {
      MaturingFound(db.node, db.blockCache, db.chain, mainChain);
    }
    ok := db.ConnectBlock(block, mainChain, stores);
  }

  /** The position of the first write that fails, or the number of writes. */
  function FirstFailure(stores: seq<bool>): (f: nat)
    ensures f <= |stores| && (f < |stores| ==> !stores[f])
    ensures forall i :: 0 <= i < f ==> stores[i]
  {
    if stores == [] || !stores[0] then 0
    else
      var rest := FirstFailure(stores[1..]);
      assert forall i :: 0 < i < 1 + rest ==> stores[i] == stores[1..][i - 1];
      1 + rest
  }

  /** The blocks connected when the block whose write fails is the last. */
  function Reached(full: seq<Block>, a: nat, stores: seq<bool>): seq<Block>
    requires |full| == a + 1 + |stores|
  {
    if FirstFailure(stores) == |stores| then full else full[..a + 2 + FirstFailure(stores)]
  }

  /** The chain after a reorganisation. */
  function ChainAfterReorg(chain: seq<Block>, reorg: ReorgData, getBlock: Hash -> Block, stores: seq<bool>): seq<Block>
    requires chain != [] && reorg.Ancestor() < |chain| && |stores| == |reorg.newChain|
  {
    if reorg.newChain == [] then chain
    else if reorg.Ancestor() < 0 then chain[..1]
    else Reached(NewChain(chain, reorg, getBlock), reorg.Ancestor(), stores)
  }

  /**
   switchToSideChain, with `getBlock` and `mainChain` the node's answers and
   `stores` telling for each block whether the pool database takes its write.
   Whatever branch was connected before, the database ends tracking the new chain,
   up to the first block whose write fails.
   */
  method SwitchToSideChain(db: StakeDatabase, reorg: Option<ReorgData>, getBlock: Hash -> Block,
                           mainChain: seq<Block>, stores: seq<bool>)
    returns (r: Outcome)
    requires db.Tracks() && (reorg.Some? ==> |stores| == |reorg.value.newChain|)
    requires reorg.Some? && reorg.value.newChain != [] ==>
               WellFormed(db.node, db.chain, reorg.value, getBlock, mainChain)
    modifies db, db.poolDB
    ensures db.Tracks()
    ensures r.NoSideChain? <==> reorg.None? || reorg.value.newChain == []
    ensures r.NoSideChain? ==> db.chain == old(db.chain)
    ensures !r.NoSideChain? && reorg.value.Ancestor() < 0 ==> r == RewindFailed && db.chain == old(db.chain)[..1]
    ensures !r.NoSideChain? && reorg.value.Ancestor() >= 0 ==>
              var full := NewChain(old(db.chain), reorg.value, getBlock);
              && db.chain == Reached(full, reorg.value.Ancestor(), stores)
              && if FirstFailure(stores) == |stores| then
                   && r == Switched(reorg.value.newChainHeight, full[|full| - 1].hash)
                   && CacheIs(db.blockCache, old(db.blockCache), reorg.value.Ancestor(), |full| - 1, db.node.maturity)
                 else
                   r == ConnectFailed
  {
    hide GoodChain, LiveOf, Replay, CacheTracks, DiffsOf, CacheIs, Cached, Holds, NewChain;
    if reorg.None? || reorg.value.newChain == [] {
      return NoSideChain;
    }
    var newChain := reorg.value.newChain;
    var commonAncestorHeight := reorg.value.newChainHeight - |newChain|;
    var mainTip := |db.chain| - 1;
    var rewound := db.DisconnectBlocks(mainTip - commonAncestorHeight);
    if !rewound {
      return RewindFailed;
    }
    assert |db.chain| - 1 == commonAncestorHeight;
    ghost var full := NewChain(old(db.chain), reorg.value, getBlock);
    StartOf(old(db.chain), reorg.value, getBlock);
    CacheIsStart(db.blockCache, old(db.chain), commonAncestorHeight, db.node.maturity);
    var connected, tipHeight, tipHash :=
      ConnectSide(db, newChain, getBlock, full, commonAncestorHeight, old(db.blockCache), mainChain, stores);
    if !connected {
      return ConnectFailed;
    }
    assert |db.chain| - 1 == tipHeight;
    return Switched(tipHeight, tipHash);
  }

  /** The connecting loop of switchToSideChain. */
  method ConnectSide(db: StakeDatabase, newChain: seq<Hash>, getBlock: Hash -> Block, ghost full: seq<Block>,
                     ghost a: int, ghost before: BlockCache, mainChain: seq<Block>, stores: seq<bool>)
    returns (ok: bool, tipHeight: int, tipHash: Hash)
    requires db.Tracks() && GoodChain(db.node, full) && full <= mainChain
    requires newChain != [] && |stores| == |newChain| && 0 <= a && |full| == a + 1 + |newChain| && db.chain == full[..a + 1]
    requires forall i :: 0 <= i < |newChain| ==> full[a + 1 + i] == getBlock(newChain[i])
    requires CacheIs(db.blockCache, before, a, a, db.node.maturity)
    modifies db, db.poolDB
    ensures db.Tracks() && (ok <==> FirstFailure(stores) == |stores|) && db.chain == Reached(full, a, stores)
    ensures ok ==>
              && tipHeight == |full| - 1 && tipHash == full[|full| - 1].hash
              && CacheIs(db.blockCache, before, a, |full| - 1, db.node.maturity)
  {
    hide GoodChain, LiveOf, Replay, CacheTracks, DiffsOf, CacheIs, Cached, Holds, FirstFailure;
    tipHeight, tipHash := 0, 0;
    var i := 0;
    while i < |newChain|
      invariant 0 <= i <= |newChain|
      invariant db.Tracks() && db.chain == full[..a + 1 + i]
      invariant CacheIs(db.blockCache, before, a, a + i, db.node.maturity)
      invariant forall j :: 0 <= j < i ==> stores[j]
      invariant i > 0 ==> tipHeight == a + i && tipHash == full[a + i].hash
    {
      var block := getBlock(newChain[i]);
      GoodNext(db.node, full, a + 1 + i);
      CacheIsStep(db.blockCache, before, a, a + i, block, db.node.maturity);
      ok := ConnectNext(db, block, full, mainChain, stores[i]);
      if !ok {
        assert FirstFailure(stores) == i;
        return;
      }
      tipHeight, tipHash := block.height, block.hash;
      i := i + 1;
    }
    assert full[..|full|] == full;
    ok := true;
  }

  lemma StartOf(chain: seq<Block>, reorg: ReorgData, getBlock: Hash -> Block)
    requires 0 <= reorg.Ancestor() < |chain|
    ensures var full := NewChain(chain, reorg, getBlock);
            var a := reorg.Ancestor();
            && |full| == a + 1 + |reorg.newChain|
            && full[..a + 1] == chain[..a + 1]
            && forall i :: 0 <= i < |reorg.newChain| ==> full[a + 1 + i] == getBlock(reorg.newChain[i])
  {
  }

  /** A database made from nothing that connects every block of `full`. */
  method ConnectOnly(node: Node, full: seq<Block>, mainChain: seq<Block>) returns (db: StakeDatabase)
    requires GoodChain(node, full) && full <= mainChain
    ensures fresh(db) && fresh(db.poolDB) && db.node == node
    ensures db.Tracks() && db.chain == full
    ensures CacheIs(db.blockCache, map[], 0, |full| - 1, node.maturity)
  {
    hide LiveOf, Replay, CacheTracks, DiffsOf, CacheIs, Cached, Holds, ValidHistory, HonestPrices;
    assert 1 <= |full|;
    GoodPrefix(node, full, 1);
    assert full[..1] == [full[0]];
    EmptyStore();
    var pool := new TicketPool([], map[]);
    db := new StakeDatabase(node, full[0], pool);
    NothingCached(node.maturity);
    while |db.chain| < |full|
      invariant fresh(db) && fresh(db.poolDB) && db.node == node
      invariant db.Tracks() && 1 <= |db.chain| <= |full| && db.chain == full[..|db.chain|]
      invariant CacheIs(db.blockCache, map[], 0, |db.chain| - 1, node.maturity)
      decreases |full| - |db.chain|
    {
      CacheIsStep(db.blockCache, map[], 0, |db.chain| - 1, full[|db.chain|], node.maturity);
      var _ := ConnectNext(db, full[|db.chain|], full, mainChain, true);
    }
    assert full[..|full|] == full;
  }

  lemma EmptyStore()
    ensures Mirrors(map[], [])
  {
  }

  lemma NothingCached(maturity: nat)
    ensures CacheIs(map[], map[], 0, 0, maturity)
  {
  }

  /**
   Reorganisation is equivalent to having connected only the new chain: the
   diffs, the live tickets and the pool value agree, whatever branch was connected
   before. The caches of recent blocks hold the same block wherever both hold one.
   They hold the same heights exactly when, before the reorganisation, every
   ancestor block still to mature on the new chain was cached.
   */
  method ReorgMatchesFresh(db: StakeDatabase, reorg: ReorgData, getBlock: Hash -> Block, mainChain: seq<Block>)
    returns (only: StakeDatabase)
    requires db.Tracks() && reorg.newChain != [] && reorg.Ancestor() >= 0
    requires WellFormed(db.node, db.chain, reorg, getBlock, mainChain)
    modifies db, db.poolDB
    ensures only.chain == db.chain == NewChain(old(db.chain), reorg, getBlock)
    ensures db.poolDB.diffs == only.poolDB.diffs
    ensures db.liveTicketCache == only.liveTicketCache && db.poolValue == only.poolValue
    ensures forall h :: 0 <= h < |db.chain| && h in db.blockCache && h in only.blockCache ==>
                          db.blockCache[h] == only.blockCache[h]
    ensures CacheIs(db.blockCache, old(db.blockCache), reorg.Ancestor(), |db.chain| - 1, db.node.maturity)
    ensures CacheIs(only.blockCache, map[], 0, |db.chain| - 1, db.node.maturity)
    ensures SameHeights(db.blockCache, only.blockCache, |db.chain| - 1)
       <==> AncestorsCached(old(db.blockCache), reorg.Ancestor(), |db.chain| - 1, db.node.maturity)
  {
    hide GoodChain, LiveOf, Replay, DiffsOf, CacheIs, Holds, NewChain;
    ghost var before, was := db.blockCache, db.chain;
    var stores := seq(|reorg.newChain|, _ => true);
    var _ := SwitchToSideChain(db, Some(reorg), getBlock, mainChain, stores);
    StartOf(was, reorg, getBlock);
    only := ConnectOnly(db.node, db.chain, mainChain);
    LiveUnique(Live(db.liveTicketCache, db.poolValue), Live(only.liveTicketCache, only.poolValue),
               Replay(db.poolDB.diffs), db.node.price);
    SameHeightsIff(db.blockCache, only.blockCache, before, was, reorg.Ancestor(), |db.chain| - 1, db.node.maturity);
  }

  ghost predicate SameHeights(c: BlockCache, d: BlockCache, tip: int) {
    forall h :: 0 <= h <= tip ==> (h in c <==> h in d)
  }

  /** Every block up to height a that has not matured at height `tip` is cached. */
  ghost predicate AncestorsCached(c: BlockCache, a: int, tip: int, maturity: nat) {
    forall h :: 1 <= h <= a && h + maturity > tip ==> h in c
  }

  lemma SameHeightsIff(c: BlockCache, d: BlockCache, before: BlockCache, was: seq<Block>, a: int, tip: int, maturity: nat)
    requires CacheTracks(before, was, maturity) && 0 <= a < |was| && a <= tip
    requires CacheIs(c, before, a, tip, maturity) && CacheIs(d, map[], 0, tip, maturity)
    ensures SameHeights(c, d, tip) <==> AncestorsCached(before, a, tip, maturity)
  {
    if SameHeights(c, d, tip) {
      forall h | 1 <= h <= a && h + maturity > tip ensures h in before {
        assert h in d;
        assert h in c;
      }
    }
    if AncestorsCached(before, a, tip, maturity) {
      forall h | 0 <= h <= tip ensures h in c <==> h in d {
        assert h in before && h < |was| ==> 1 <= h;
      }
    }
  }

  /** No ancestor still to mature at the new tip has matured at the old one. */
  predicate HeightsAllow(oldTip: int, a: int, newTip: int, maturity: nat) {
    oldTip <= newTip || Min(a, oldTip - maturity) < Max(1, newTip - maturity + 1)
  }

  /**
   For a database whose old branch was connected block by block from genesis, the
   condition is one on heights alone. It fails only when the new chain is shorter
   than the old one.
   */
  lemma AncestorsCachedIff(before: BlockCache, oldTip: int, a: int, newTip: int, maturity: nat)
    requires CacheIs(before, map[], 0, oldTip, maturity) && 0 <= a <= oldTip && a < newTip
    ensures AncestorsCached(before, a, newTip, maturity) <==> HeightsAllow(oldTip, a, newTip, maturity)
  {
    if AncestorsCached(before, a, newTip, maturity) && oldTip > newTip {
      var h := Max(1, newTip - maturity + 1);
      assert 1 <= h <= a && h + maturity > newTip ==> h in before;
    }
  }

  /**
   A database that connected an old branch from genesis and was then reorganised,
   beside one that connected the new chain only: their block caches hold the same
   heights if and only if the condition on heights holds.
   */
  method ReorgFromGenesis(node: Node, branch: seq<Block>, reorg: ReorgData, getBlock: Hash -> Block,
                          mainChain: seq<Block>)
    returns (db: StakeDatabase, only: StakeDatabase)
    requires GoodChain(node, branch) && reorg.newChain != [] && reorg.Ancestor() >= 0
    requires WellFormed(node, branch, reorg, getBlock, mainChain)
    ensures db.node == node && only.chain == db.chain == NewChain(branch, reorg, getBlock)
    ensures SameHeights(db.blockCache, only.blockCache, reorg.newChainHeight)
       <==> HeightsAllow(|branch| - 1, reorg.Ancestor(), reorg.newChainHeight, node.maturity)
    ensures forall h :: 0 <= h < |db.chain| ==> (h in only.blockCache <==> 1 <= h && h + node.maturity >= |db.chain|)
    ensures forall h :: 0 <= h < |db.chain| ==>
              (h in db.blockCache <==>
                1 <= h && h + node.maturity >= if h <= reorg.Ancestor() then Max(|branch|, |db.chain|) else |db.chain|)
  {
    hide GoodChain, LiveOf, Replay, DiffsOf, Holds, NewChain, SameHeights, AncestorsCached, CacheTracks;
    db := ConnectOnly(node, branch, branch);
    ghost var before := db.blockCache;
    StartOf(branch, reorg, getBlock);
    only := ReorgMatchesFresh(db, reorg, getBlock, mainChain);
    AncestorsCachedIff(before, |branch| - 1, reorg.Ancestor(), reorg.newChainHeight, node.maturity);
  }

  /** With tickets maturing after 2 blocks, going from height 5 to height 4 over an ancestor at 3 loses block 3. */
  method ShorterChainLosesBlock(node: Node, branch: seq<Block>, reorg: ReorgData, getBlock: Hash -> Block,
                                mainChain: seq<Block>)
    returns (db: StakeDatabase, only: StakeDatabase)
    requires GoodChain(node, branch) && node.maturity == 2 && |branch| == 6
    requires |reorg.newChain| == 1 && reorg.newChainHeight == 4
    requires WellFormed(node, branch, reorg, getBlock, mainChain)
    ensures only.chain == db.chain == NewChain(branch, reorg, getBlock)
    ensures 3 in only.blockCache && 3 !in db.blockCache
  {
    hide GoodChain, NewChain;
    StartOf(branch, reorg, getBlock);
    db, only := ReorgFromGenesis(node, branch, reorg, getBlock, mainChain);
  }

  /** What happens to the database: blocks arrive, are disconnected, or are replaced by those of a side chain. */
  datatype Event =
    | Connect(block: Block, mainChain: seq<Block>, stores: bool)
    | Disconnect
    | Reorg(data: ReorgData, getBlock: Hash -> Block, mainChain: seq<Block>, allStores: seq<bool>)

  /** The chain after one event. */
  function ChainAfterEvent(chain: seq<Block>, e: Event): (r: seq<Block>)
    requires chain != []
    requires e.Reorg? ==> e.data.Ancestor() < |chain| && |e.allStores| == |e.data.newChain|
    ensures r != []
  {
    match e
    case Connect(b, _, _) => chain + [b]
    case Disconnect => if |chain| <= 1 then chain else chain[..|chain| - 1]
    case Reorg(data, getBlock, _, stores) => ChainAfterReorg(chain, data, getBlock, stores)
  }

  /** A connected block extends the chain to a good one, which the node already has as its main chain. */
  ghost predicate Legal(node: Node, chain: seq<Block>, e: Event) {
    match e
    case Connect(b, mainChain, _) => GoodChain(node, chain + [b]) && chain + [b] <= mainChain
    case Disconnect => true
    case Reorg(data, getBlock, mainChain, stores) =>
      |stores| == |data.newChain| && WellFormed(node, chain, data, getBlock, mainChain)
  }

  ghost predicate LegalEvents(node: Node, chain: seq<Block>, events: seq<Event>)
    requires chain != []
    decreases |events|
  {
    events != [] ==>
      Legal(node, chain, events[0]) && LegalEvents(node, ChainAfterEvent(chain, events[0]), events[1..])
  }

  ghost function ChainAfter(node: Node, chain: seq<Block>, events: seq<Event>): seq<Block>
    requires chain != [] && LegalEvents(node, chain, events)
    decreases |events|
  {
    if events == [] then chain else ChainAfter(node, ChainAfterEvent(chain, events[0]), events[1..])
  }

  /** One event. */
  method Handle(db: StakeDatabase, e: Event)
    requires db.Tracks() && db.chain != [] && Legal(db.node, db.chain, e)
    modifies db, db.poolDB
    ensures db.Tracks() && db.chain == ChainAfterEvent(old(db.chain), e)
  {
    hide GoodChain, Replay, CacheTracks, DiffsOf, Holds, LiveOf, NewChain, Reached, CacheIs;
    match e {
      case Connect(b, mainChain, stores) =>
        ghost var full := db.chain + [b];
        assert full[..|db.chain|] == db.chain && full[..|full|] == full;
        var _ := ConnectNext(db, b, full, mainChain, stores);
      case Disconnect =>
        GoodHistory(db.node, db.chain);
        var _ := db.DisconnectBlock(false);
      case Reorg(data, getBlock, mainChain, stores) =>
        var _ := SwitchToSideChain(db, Some(data), getBlock, mainChain, stores);
    }
  }

  /**
   Any run of connects, disconnects and reorganisations, with writes that fail or
   not, ends in the state that the remaining chain determines: the cached tickets
   are the replay of its diffs, and the pool value is the sum of their prices.
   */
  method Follow(db: StakeDatabase, events: seq<Event>)
    requires db.Tracks() && db.chain != [] && LegalEvents(db.node, db.chain, events)
    modifies db, db.poolDB
    ensures db.Tracks() && db.chain == ChainAfter(db.node, old(db.chain), events)
    ensures db.liveTicketCache.Keys == Replay(DiffsOf(db.node, db.chain)) && db.poolValue == Sum(db.liveTicketCache)
  {
    hide GoodChain, Replay, CacheTracks, DiffsOf, Holds, Legal, ChainAfterEvent;
    var i := 0;
    while i < |events|
      invariant 0 <= i <= |events|
      invariant db.Tracks() && db.chain != [] && LegalEvents(db.node, db.chain, events[i..])
      invariant ChainAfter(db.node, db.chain, events[i..]) == ChainAfter(db.node, old(db.chain), events)
    {
      assert events[i..][0] == events[i] && events[i..][1..] == events[i + 1..];
      Handle(db, events[i]);
      i := i + 1;
    }
    GoodHistory(db.node, db.chain);
  }
}
