/**
 The stake database: connects and disconnects blocks at the tip of its chain,
 keeping a pool diff per block, the live ticket cache with its total, and a
 cache of recent blocks for the tickets that mature from them.

 The stake node of dcrd is an oracle here. What it answers is a function of the
 chain of blocks connected so far.
 */
module StakeDatabase {
  import opened Common
  import opened Bytes
  import opened Wrappers
  import opened PoolHistory
  import opened DiffCodec
  import opened DiffStore
  import opened LiveTickets
  import opened TicketPool
  import opened Widths

  datatype Ticket = Ticket(hash: Hash, value: int)

  /** A block, with the tickets bought in it. */
  datatype Block = Block(hash: Hash, height: int, tickets: seq<Ticket>)

  datatype Node = Node(
    maturity: nat,                          // TicketMaturity of the network
    winners: seq<Block> -> seq<Hash>,       // tickets called to vote on the next block
    expired: seq<Block> -> seq<Hash>,       // tickets expired by the last block
    accepts: (seq<Block>, Block) -> bool,   // whether ConnectNode takes the block
    price: Hash -> Option<int>              // GetRawTransaction, output 0
  )

  function TicketHashes(b: Block): (hs: seq<Hash>)
    ensures |hs| == |b.tickets|
  {
    seq(|b.tickets|, i requires 0 <= i < |b.tickets| => b.tickets[i].hash)
  }

  function TicketPrices(b: Block): (vs: seq<Option<int>>)
    ensures |vs| == |b.tickets|
  {
    seq(|b.tickets|, i requires 0 <= i < |b.tickets| => Some(b.tickets[i].value))
  }

  /** The block whose tickets mature at height i; the one before genesis has none. */
  function Maturing(node: Node, chain: seq<Block>, i: nat): Option<Block>
    requires i <= |chain| && 1 <= node.maturity
  {
    if i < node.maturity then None else Some(chain[i - node.maturity])
  }

  function MaturingHashes(b: Option<Block>): seq<Hash> {
    if b.None? then [] else TicketHashes(b.value)
  }

  function MaturingPrices(b: Option<Block>): (vs: seq<Option<int>>)
    ensures |vs| == |MaturingHashes(b)|
  {
    if b.None? then [] else TicketPrices(b.value)
  }

  /** The pool diff of block i of a chain. */
  function DiffAt(node: Node, chain: seq<Block>, i: nat): PoolDiff
    requires i < |chain| && 1 <= node.maturity
  {
    PoolDiff(MaturingHashes(Maturing(node, chain, i)), node.winners(chain[..i]) + node.expired(chain[..i + 1]))
  }

  /** The diffs of all the blocks above genesis. */
  function DiffsOf(node: Node, chain: seq<Block>): (ds: seq<PoolDiff>)
    requires 1 <= |chain| && 1 <= node.maturity
    ensures |ds| == |chain| - 1
  {
    seq(|chain| - 1, i requires 0 <= i < |chain| - 1 => DiffAt(node, chain, i + 1))
  }

  /** The prices in a block are the ones the node reports for its tickets. */
  ghost predicate HonestPrices(node: Node, b: Block) {
    forall i :: 0 <= i < |b.tickets| ==> node.price(b.tickets[i].hash) == Some(b.tickets[i].value)
  }

  /** A chain whose blocks sit at their heights, pass the stake node, and form a valid pool history. */
  ghost predicate GoodChain(node: Node, chain: seq<Block>) {
    && 1 <= |chain| < MAX_INT64
    && 1 <= node.maturity
    && (forall i :: 0 <= i < |chain| ==> chain[i].height == i && HonestPrices(node, chain[i]))
    && (forall i :: 1 <= i < |chain| ==> node.accepts(chain[..i], chain[i]))
    && ValidHistory(DiffsOf(node, chain))
    && (forall i :: 1 <= i < |chain| ==> Encodable(DiffAt(node, chain, i)))
  }

  lemma DiffAtPrefix(node: Node, chain: seq<Block>, n: nat, i: nat)
    requires i < n <= |chain| && 1 <= node.maturity
    ensures DiffAt(node, chain[..n], i) == DiffAt(node, chain, i)
  {
    assert chain[..n][..i] == chain[..i];
    assert chain[..n][..i + 1] == chain[..i + 1];
  }

  /** Diffs of a block do not depend on the blocks above it. */
  lemma DiffsOfPrefix(node: Node, chain: seq<Block>, n: nat)
    requires 1 <= n <= |chain| && 1 <= node.maturity
    ensures DiffsOf(node, chain[..n]) == DiffsOf(node, chain)[..n - 1]
  {
    forall i | 0 <= i < n - 1
      ensures DiffsOf(node, chain[..n])[i] == DiffsOf(node, chain)[..n - 1][i]
    {
      DiffAtPrefix(node, chain, n, i + 1);
    }
  }

  lemma GoodPrefix(node: Node, chain: seq<Block>, n: nat)
    requires GoodChain(node, chain) && 1 <= n <= |chain|
    ensures GoodChain(node, chain[..n])
  {
    hide ValidHistory, DiffAt, HonestPrices, Encodable;
    DiffsOfPrefix(node, chain, n);
    ValidPrefix(DiffsOf(node, chain), n - 1);
    forall i | 1 <= i < n
      ensures node.accepts(chain[..n][..i], chain[..n][i]) && Encodable(DiffAt(node, chain[..n], i))
    {
      assert chain[..n][..i] == chain[..i];
      DiffAtPrefix(node, chain, n, i);
    }
  }

  lemma DiffsOfExtend(node: Node, chain: seq<Block>, b: Block)
    requires 1 <= |chain| && 1 <= node.maturity
    ensures DiffsOf(node, chain + [b]) == DiffsOf(node, chain) + [DiffAt(node, chain + [b], |chain|)]
  {
    DiffsOfPrefix(node, chain + [b], |chain|);
    assert (chain + [b])[..|chain|] == chain;
  }

  type BlockCache = map<int, Block>

  /** What connecting a block does to the block cache, whether or not the block is then accepted. */
  function Cached(c: BlockCache, b: Block, maturity: nat): BlockCache {
    (if b.height >= maturity then c - {b.height - maturity} else c)[b.height := b]
  }

  /** At heights up to the tip the block cache holds blocks of the chain, and only ones yet to mature. */
  ghost predicate CacheTracks(c: BlockCache, chain: seq<Block>, maturity: nat) {
    forall h :: h in c && 0 <= h < |chain| ==> c[h] == chain[h] && 1 <= h && h + maturity >= |chain|
  }

  lemma CacheTracksConnect(c: BlockCache, chain: seq<Block>, b: Block, maturity: nat)
    requires CacheTracks(c, chain, maturity) && b.height == |chain| >= 1 && maturity >= 1
    ensures CacheTracks(Cached(c, b, maturity), chain + [b], maturity)
  {
  }

  lemma CacheTracksShorten(c: BlockCache, chain: seq<Block>, maturity: nat, n: nat)
    requires CacheTracks(c, chain, maturity) && n <= |chain|
    ensures CacheTracks(c, chain[..n], maturity)
  {
  }

  /**
   A refused block leaves the cache telling the truth if and only if its height is
   not one of the chain's, or it is the chain's own block there and yet to mature.
   */
  lemma RefusedKeepsIff(c: BlockCache, chain: seq<Block>, b: Block, maturity: nat)
    requires CacheTracks(c, chain, maturity)
    ensures CacheTracks(Cached(c, b, maturity), chain, maturity)
       <==> !(0 <= b.height < |chain|) || (1 <= b.height && b.height + maturity >= |chain| && b == chain[b.height])
  {
    var d := Cached(c, b, maturity);
    forall h | h in d && h != b.height ensures h in c && d[h] == c[h] {
    }
    assert b.height in d && d[b.height] == b;
  }

  /**
   The next block to connect takes its tickets from the right block if and only if
   the refused one is not another block of the height that matures then.
   */
  lemma RefusedMaturesIff(c: BlockCache, chain: seq<Block>, mainChain: seq<Block>, b: Block, maturity: nat)
    requires CacheTracks(c, chain, maturity) && chain <= mainChain && 1 <= maturity <= |chain|
    ensures var p, d := |chain| - maturity, Cached(c, b, maturity);
            (if p in d then d[p] else mainChain[p]) == chain[p] <==> b.height != p || b == chain[p]
  {
  }

  /** Such a block is then taken for the maturing one. */
  lemma RefusedIsTaken(c: BlockCache, chain: seq<Block>, b: Block, maturity: nat)
    requires 1 <= maturity <= |chain| && b.height == |chain| - maturity && b != chain[b.height]
    ensures var d := Cached(c, b, maturity); b.height in d && d[b.height] == b && !CacheTracks(d, chain, maturity)
  {
    assert b.height in Cached(c, b, maturity);
  }

  /** Where hashes identify blocks, "the chain's own block" is a matter of height and hash. */
  ghost predicate SameByHash(chain: seq<Block>, b: Block) {
    forall i :: 0 <= i < |chain| && chain[i].hash == b.hash ==> chain[i] == b
  }

  /** Outside the chain's heights, or the chain's own block that is yet to mature. */
  ghost predicate Harmless(chain: seq<Block>, b: Block, maturity: nat) {
    0 <= b.height < |chain| ==>
      1 <= b.height && b.height + maturity >= |chain| && b.hash == chain[b.height].hash
  }

  /** The tickets bought `maturity` blocks before the next one; there are none so early in a chain. */
  function TicketsBelow(chain: seq<Block>, maturity: nat): seq<Ticket>
    requires maturity >= 1
  {
    if |chain| < maturity then [] else chain[|chain| - maturity].tickets
  }

  /**
   What one block does to the live tickets: the tickets that mature come in, each
   with its own value, then winners and expired tickets go out, and the others stay.
   */
  ghost predicate Matured(was: Prices, now: Prices, tickets: seq<Ticket>, winners: seq<Hash>, expired: seq<Hash>) {
    && (forall h :: h in now <==>
          (h in was || exists t :: 0 <= t < |tickets| && tickets[t].hash == h) && h !in winners && h !in expired)
    && (forall t :: 0 <= t < |tickets| && tickets[t].hash in now ==> now[tickets[t].hash] == tickets[t].value)
    && (forall h :: h in now && h in was ==> now[h] == was[h])
  }

  class StakeDatabase {
    const node: Node
    const poolDB: TicketPool
    /** The connected blocks, genesis first; BestNode is the stake node at their end. */
    var chain: seq<Block>
    var blockCache: BlockCache
    var liveTicketCache: Prices
    var poolValue: int

    ghost predicate PoolTracks()
      reads this, poolDB
    {
      && poolDB.Coherent()
      && GoodChain(node, chain)
      && poolDB.diffs == DiffsOf(node, chain)
    }

    /** Every derived part of the state is the one the chain determines. */
    ghost predicate Tracks()
      reads this, poolDB
    {
      && PoolTracks()
      && LiveOf(Live(liveTicketCache, poolValue), Replay(poolDB.diffs), node.price)
      && CacheTracks(blockCache, chain, node.maturity)
    }

    /** A new database knows the genesis block only. */
    constructor (node: Node, genesis: Block, pool: TicketPool)
      requires pool.Coherent() && pool.diffs == []
      requires GoodChain(node, [genesis])
      ensures Tracks() && this.node == node && poolDB == pool && chain == [genesis] && blockCache == map[]
    {
      this.node, poolDB := node, pool;
      chain, blockCache, liveTicketCache, poolValue := [genesis], map[], map[], 0;
    }

    /** The fields of a database opened on existing data, before its repair. */
    constructor Open(node: Node, chain: seq<Block>, pool: TicketPool)
      ensures this.node == node && poolDB == pool && this.chain == chain && blockCache == map[]
      ensures liveTicketCache == map[] && poolValue == 0
    {
      this.node, poolDB := node, pool;
      this.chain, blockCache, liveTicketCache, poolValue := chain, map[], map[], 0;
    }

    /** applyDiff. Without `inVals` it asks the node for the value of each ticket. */
    method ApplyDiff(ins: seq<Hash>, outs: seq<Hash>, inVals: Option<seq<Option<int>>>)
      requires inVals.Some? ==> |inVals.value| == |ins|
      modifies this`liveTicketCache, this`poolValue
      ensures var vs := if inVals.Some? then inVals.value else Asked(ins, node.price);
              Live(liveTicketCache, poolValue)
              == DeleteAll(InsertAll(old(Live(liveTicketCache, poolValue)), ins, vs), outs)
    {
      hide InsertAll, DeleteAll;
      ghost var start := Live(liveTicketCache, poolValue);
      ghost var vs := if inVals.Some? then inVals.value else Asked(ins, node.price);
      NoneInserted(start);
      for i := 0 to |ins|
        invariant Live(liveTicketCache, poolValue) == InsertAll(start, ins[..i], vs[..i])
      {
        InsertNext(start, ins, vs, i);
        if ins[i] !in liveTicketCache {
          var val := if inVals.Some? then inVals.value[i] else node.price(ins[i]);
          if val.Some? {
            liveTicketCache := liveTicketCache[ins[i] := val.value];
            poolValue := poolValue + val.value;
          }
        }
      }
      assert ins[..|ins|] == ins && vs[..|vs|] == vs;
      ghost var grown := Live(liveTicketCache, poolValue);
      NoneInserted(grown);
      for i := 0 to |outs|
        invariant Live(liveTicketCache, poolValue) == DeleteAll(grown, outs[..i])
      {
        DeleteNext(grown, outs, i);
        if outs[i] in liveTicketCache {
          poolValue := poolValue - liveTicketCache[outs[i]];
          liveTicketCache := liveTicketCache - {outs[i]};
        }
      }
      assert outs[..|outs|] == outs;
    }

    /** The block at a height, from the cache if it is there and from the node's main chain if not. */
    function BlockAt(height: int, mainChain: seq<Block>): Block
      requires height in blockCache || 0 <= height < |mainChain|
      reads this
    {
      if height in blockCache then blockCache[height] else mainChain[height]
    }

    /** Looking for the block at a height, if it is one, finds the chain's own. */
    predicate FindsOwn(height: int, mainChain: seq<Block>)
      requires height >= 0 ==> height in blockCache || height < |mainChain|
      reads this
    {
      height >= 0 ==>
        height < |chain| && (if height in blockCache then blockCache[height] else mainChain[height]) == chain[height]
    }

    /**
     ConnectBlock, where `mainChain` is the node's main chain at the time and
     `stores` tells whether the pool database takes the write. The block cache
     changes even if the block is then refused.
     */
    method ConnectBlock(block: Block, mainChain: seq<Block>, stores: bool) returns (ok: bool)
      requires Tracks()
      requires block.height >= node.maturity ==>
                 block.height - node.maturity in blockCache || block.height - node.maturity < |mainChain|
      requires block.height >= |chain| && node.accepts(chain, block) ==>
                 && GoodChain(node, chain + [block])
                 && FindsOwn(block.height - node.maturity, mainChain)
      modifies this, poolDB
      ensures blockCache == Cached(old(blockCache), block, node.maturity)
      ensures block.height < |old(chain)| || !node.accepts(old(chain), block) ==>
                && !ok && chain == old(chain) && poolDB.diffs == old(poolDB.diffs)
                && liveTicketCache == old(liveTicketCache) && poolValue == old(poolValue)
      ensures block.height >= |old(chain)| && node.accepts(old(chain), block) ==>
                && (ok <==> stores) && chain == old(chain) + [block] && Tracks()
                && Matured(old(liveTicketCache), liveTicketCache, TicketsBelow(old(chain), node.maturity),
                           node.winners(old(chain)), node.expired(chain))
    {
      hide GoodChain, LiveOf, Replay, ValidHistory, DiffsOf, CacheTracks, Cached, Encodable, Holds, Matured, TicketsBelow;
      GoodHeights(node, chain, block);
      var height := block.height;
      var maturingTickets: seq<Hash> := [];
      var vals: Option<seq<Option<int>>> := None;
      if height - node.maturity >= 0 {
        var maturingBlock := BlockAt(height - node.maturity, mainChain);
        maturingTickets, vals := TicketHashes(maturingBlock), Some(TicketPrices(maturingBlock));
      }
      ghost var found := Maturing(node, chain, |chain|);
      RememberBlock(block);
      if height <= |chain| - 1 {
        return false;
      }
      if !node.accepts(chain, block) {
        return false;
      }
      ghost var was, before := chain, Live(liveTicketCache, poolValue);
      ok := Extend(block, maturingTickets, vals, found, stores);
      TicketsMature(node, was, block, before, Live(liveTicketCache, poolValue));
      CacheTracksConnect(old(blockCache), old(chain), block, node.maturity);
    }

    /** The part of ConnectBlock after the stake node has taken the block. */
    method Extend(block: Block, maturingTickets: seq<Hash>, vals: Option<seq<Option<int>>>,
                  ghost found: Option<Block>, stores: bool)
      returns (ok: bool)
      requires PoolTracks() && GoodChain(node, chain + [block])
      requires LiveOf(Live(liveTicketCache, poolValue), Replay(poolDB.diffs), node.price)
      requires found == Maturing(node, chain, |chain|)
      requires maturingTickets == MaturingHashes(found)
      requires vals == if found.None? then None else Some(TicketPrices(found.value))
      modifies this, poolDB
      ensures blockCache == old(blockCache)
      ensures (ok <==> stores) && chain == old(chain) + [block]
      ensures PoolTracks()
      ensures LiveOf(Live(liveTicketCache, poolValue), Replay(poolDB.diffs), node.price)
    {
      hide LiveOf, Replay, ValidHistory, DiffsOf, DiffAt, Encodable, Holds, HonestPrices, Maturing;
      var bestNodeHeight := |chain| - 1;
      ghost var was := chain;
      var winners := node.winners(chain);
      chain := chain + [block];
      var liveOut := winners + node.expired(chain);
      var diff := PoolDiff(maturingTickets, liveOut);
      NewDiffIs(node, was, block, found, diff);
      ConnectKeepsLive(node, was, block, Live(liveTicketCache, poolValue));
      DiffsOfExtend(node, was, block);
      ApplyDiff(diff.ins, diff.outs, vals);
      assert Encodable(DiffAt(node, chain, |was|));
      ok := poolDB.Append(diff, bestNodeHeight + 1, stores);
    }

    /** Forget the maturing block if it is cached, and cache the new block. */
    method RememberBlock(block: Block)
      modifies this`blockCache
      ensures blockCache == Cached(old(blockCache), block, node.maturity)
    {
      var maturingHeight := block.height - node.maturity;
      if maturingHeight >= 0 {
        if maturingHeight in blockCache {
          blockCache := blockCache - {maturingHeight};
        } else {
          assert blockCache - {maturingHeight} == blockCache;
        }
      }
      blockCache := blockCache[block.height := block];
    }

    /** The trimming loop of disconnectBlock: cut the pool back to `height`, collecting the diffs to undo. */
    method TrimTo(height: int) returns (undoDiffs: seq<PoolDiff>)
      requires poolDB.Coherent() && (ValidHistory(poolDB.diffs) || poolDB.cursor == 0) && 0 <= height
      modifies poolDB
      ensures poolDB.Coherent() && (old(ValidHistory(poolDB.diffs)) ==> ValidHistory(poolDB.diffs))
      ensures poolDB.diffDB == old(poolDB.diffDB) && poolDB.stored == old(poolDB.stored)
      ensures old(poolDB.cursor) == 0 ==> poolDB.cursor == 0
      ensures poolDB.diffs == Kept(old(poolDB.diffs), height)
      ensures undoDiffs == Reversed(Cut(old(poolDB.diffs), height))
    {
      hide Replay, ValidHistory, Holds, Reversed;
      undoDiffs := [];
      var poolDBTip := poolDB.tip;
      ghost var was := poolDB.diffs;
      NothingCut(was);
      while poolDBTip > height
        invariant poolDB.Coherent() && (old(ValidHistory(poolDB.diffs)) ==> ValidHistory(poolDB.diffs))
        invariant poolDB.diffDB == old(poolDB.diffDB) && poolDB.stored == old(poolDB.stored)
        invariant old(poolDB.cursor) == 0 ==> poolDB.cursor == 0
        invariant 0 <= poolDBTip == poolDB.tip <= |was| && (|was| > height ==> height <= poolDBTip)
        invariant |was| <= height ==> poolDBTip == |was|
        invariant poolDB.diffs == was[..poolDBTip] && undoDiffs == Reversed(was[poolDBTip..])
        decreases poolDBTip
      {
        CutOneMore(was, poolDBTip);
        var newTip, undoDiff := poolDB.Trim();
        undoDiffs := undoDiffs + [undoDiff];
        assert newTip < poolDBTip;
        poolDBTip := newTip;
      }
    }

    /** undoDiff */
    method UndoDiff(d: PoolDiff)
      modifies this`liveTicketCache, this`poolValue
      ensures Live(liveTicketCache, poolValue)
              == DeleteAll(InsertAll(old(Live(liveTicketCache, poolValue)), d.outs, Asked(d.outs, node.price)), d.ins)
    {
      ApplyDiff(d.outs, d.ins, None);
    }

    /**
     disconnectBlock. At genesis there is no previous block to return to. With
     `neglectCache` the live ticket cache is left as it was. The pool database may
     be behind the stake node or ahead of it.
     */
    method DisconnectBlock(neglectCache: bool) returns (ok: bool)
      requires GoodChain(node, chain)
      requires poolDB.Coherent() && (ValidHistory(poolDB.diffs) || poolDB.cursor == 0)
      modifies this, poolDB
      ensures GoodChain(node, chain) && poolDB.Coherent() && blockCache == old(blockCache)
      ensures old(poolDB.cursor) == 0 ==> poolDB.cursor == 0
      ensures poolDB.diffDB == old(poolDB.diffDB) && poolDB.stored == old(poolDB.stored)
      ensures poolDB.diffs == if ok then Kept(old(poolDB.diffs), |chain| - 1) else old(poolDB.diffs)
      ensures old(PoolTracks()) ==> PoolTracks()
      ensures ok <==> |old(chain)| > 1
      ensures chain == if ok then old(chain)[..|old(chain)| - 1] else old(chain)
      ensures neglectCache ==> liveTicketCache == old(liveTicketCache) && poolValue == old(poolValue)
      ensures !neglectCache && old(Tracks()) ==> Tracks()
    {
      hide GoodChain, LiveOf, Replay, ValidHistory, DiffsOf, Undone, UndoneAll, CacheTracks, Holds, Reversed, Cut;
      GoodHistory(node, chain);
      if |chain| == 1 {
        return false;
      }
      ghost var l := Live(liveTicketCache, poolValue);
      Below(node, chain);
      if CacheTracks(blockCache, chain, node.maturity) {
        CacheTracksShorten(blockCache, chain, node.maturity, |chain| - 1);
      }
      var parentBlock := chain[|chain| - 2];
      assert parentBlock.height == |chain| - 2;
      LastCut(poolDB.diffs);
      var undoDiffs := TrimTo(parentBlock.height);
      if !neglectCache {
        if LiveOf(l, Replay(DiffsOf(node, chain)), node.price) {
          DisconnectKeepsLive(node, chain, l);
        }
        UndoneOne(l, undoDiffs, node);
        UndoAll(undoDiffs);
      }
      chain := chain[..|chain| - 1];
      return true;
    }

    /** The undo loop of disconnectBlock. */
    method UndoAll(undoDiffs: seq<PoolDiff>)
      modifies this`liveTicketCache, this`poolValue
      ensures Live(liveTicketCache, poolValue) == UndoneAll(old(Live(liveTicketCache, poolValue)), undoDiffs, node)
    {
      for i := 0 to |undoDiffs|
        invariant Live(liveTicketCache, poolValue)
               == UndoneAll(old(Live(liveTicketCache, poolValue)), undoDiffs[..i], node)
      {
        assert undoDiffs[..i + 1][..i] == undoDiffs[..i];
        UndoDiff(undoDiffs[i]);
      }
      assert undoDiffs[..|undoDiffs|] == undoDiffs;
    }

    /** DisconnectBlocks; a negative count disconnects nothing. */
    method DisconnectBlocks(count: int) returns (ok: bool)
      requires Tracks()
      modifies this, poolDB
      ensures Tracks() && blockCache == old(blockCache)
      ensures ok <==> count < |old(chain)|
      ensures chain == old(chain)[..|old(chain)| - Min(Max(count, 0), |old(chain)| - 1)]
    {
      hide GoodChain, LiveOf, Replay, CacheTracks, DiffsOf, Holds;
      var i := 0;
      while i < count
        invariant 0 <= i <= Max(count, 0) && i < |old(chain)|
        invariant Tracks() && blockCache == old(blockCache) && chain == old(chain)[..|old(chain)| - i]
        decreases count - i
      {
        GoodHistory(node, chain);
        var done := DisconnectBlock(false);
        if !done {
          return false;
        }
        i := i + 1;
      }
      return true;
    }
  }

  /**
   ConnectBlock of a block that is not above the tip. It is refused, and the block
   cache still tells the truth about the chain if and only if the block is harmless.
   */
  method ConnectOld(db: StakeDatabase, block: Block, mainChain: seq<Block>, stores: bool) returns (ok: bool)
    requires db.Tracks() && block.height < |db.chain| && SameByHash(db.chain, block)
    requires block.height >= db.node.maturity ==>
               block.height - db.node.maturity in db.blockCache || block.height - db.node.maturity < |mainChain|
    modifies db, db.poolDB
    ensures !ok && db.chain == old(db.chain)
    ensures CacheTracks(db.blockCache, db.chain, db.node.maturity) <==> Harmless(db.chain, block, db.node.maturity)
  {
    hide GoodChain, LiveOf, Replay, ValidHistory, DiffsOf, CacheTracks, Cached, SameByHash, Harmless, Holds;
    RefusedByHash(db.blockCache, db.chain, block, db.node.maturity);
    ok := db.ConnectBlock(block, mainChain, stores);
  }

  lemma RefusedByHash(c: BlockCache, chain: seq<Block>, b: Block, maturity: nat)
    requires CacheTracks(c, chain, maturity)
    ensures SameByHash(chain, b) ==>
              (CacheTracks(Cached(c, b, maturity), chain, maturity) <==> Harmless(chain, b, maturity))
  {
    hide Cached, CacheTracks;
    RefusedKeepsIff(c, chain, b, maturity);
  }

  /** The diff that ConnectBlock builds is the chain's own. */
  lemma NewDiffIs(node: Node, chain: seq<Block>, block: Block, found: Option<Block>, diff: PoolDiff)
    requires 1 <= node.maturity && 1 <= |chain|
    requires found == Maturing(node, chain, |chain|)
    requires diff == PoolDiff(MaturingHashes(found), node.winners(chain) + node.expired(chain + [block]))
    ensures diff == DiffAt(node, chain + [block], |chain|)
  {
    assert (chain + [block])[..|chain|] == chain;
    assert (chain + [block])[..|chain| + 1] == chain + [block];
  }

  /**
   The diff of block i lets in the tickets bought `maturity` blocks below it, in
   order, and lets out those called to vote on it and those it lets expire.
   */
  lemma DiffIs(node: Node, chain: seq<Block>, i: nat)
    requires 1 <= node.maturity && 1 <= i < |chain|
    ensures var d := DiffsOf(node, chain)[i - 1];
            && (i < node.maturity ==> d.ins == [])
            && (i >= node.maturity ==>
                var tickets := chain[i - node.maturity].tickets;
                |d.ins| == |tickets| && forall t :: 0 <= t < |tickets| ==> d.ins[t] == tickets[t].hash)
            && d.outs == node.winners(chain[..i]) + node.expired(chain[..i + 1])
  {
  }

  /** A connected block lets the right tickets in and out. */
  lemma TicketsMature(node: Node, chain: seq<Block>, block: Block, l: Live, m: Live)
    requires GoodChain(node, chain) && GoodChain(node, chain + [block])
    requires LiveOf(l, Replay(DiffsOf(node, chain)), node.price)
    requires LiveOf(m, Replay(DiffsOf(node, chain + [block])), node.price)
    ensures Matured(l.cache, m.cache, TicketsBelow(chain, node.maturity),
                    node.winners(chain), node.expired(chain + [block]))
  {
    hide Replay, DiffsOf, ValidHistory, Encodable, HonestPrices;
    var all, n := chain + [block], |chain|;
    var d, tickets := DiffsOf(node, all)[n - 1], TicketsBelow(chain, node.maturity);
    DiffIs(node, all, n);
    DiffsOfPrefix(node, all, n);
    ReplayStep(DiffsOf(node, all), n - 1);
    assert all[..n] == chain && all[..n + 1] == all;
    assert DiffsOf(node, all)[..n] == DiffsOf(node, all);
    Entering(d.ins, tickets);
    forall t | 0 <= t < |tickets| && tickets[t].hash in m.cache
      ensures m.cache[tickets[t].hash] == tickets[t].value
    {
      TicketPriced(node, chain, n - node.maturity, t);
    }
  }

  lemma Entering(ins: seq<Hash>, tickets: seq<Ticket>)
    requires |ins| == |tickets| && forall t :: 0 <= t < |tickets| ==> ins[t] == tickets[t].hash
    ensures forall h :: h in SetOf(ins) <==> exists t :: 0 <= t < |tickets| && tickets[t].hash == h
  {
  }

  lemma TicketPriced(node: Node, chain: seq<Block>, i: nat, t: nat)
    requires GoodChain(node, chain) && i < |chain| && t < |chain[i].tickets|
    ensures node.price(chain[i].tickets[t].hash) == Some(chain[i].tickets[t].value)
  {
    assert HonestPrices(node, chain[i]);
  }

  /** Connecting a block of a good chain carries the live ticket cache along. */
  lemma ConnectKeepsLive(node: Node, chain: seq<Block>, block: Block, l: Live)
    requires GoodChain(node, chain) && GoodChain(node, chain + [block])
    requires LiveOf(l, Replay(DiffsOf(node, chain)), node.price)
    ensures var d := DiffAt(node, chain + [block], |chain|);
            var vs := MaturingPrices(Maturing(node, chain, |chain|));
            && |vs| == |d.ins|
            && LiveOf(DeleteAll(InsertAll(l, d.ins, vs), d.outs), Replay(DiffsOf(node, chain + [block])), node.price)
  {
    var all := chain + [block];
    var d := DiffAt(node, all, |chain|);
    var b := Maturing(node, chain, |chain|);
    DiffsOfExtend(node, chain, block);
    assert Maturing(node, all, |chain|) == b;
    assert TrueValues(d.ins, MaturingPrices(b), node.price) by {
      if b.Some? {
        assert HonestPrices(node, chain[|chain| - node.maturity]);
      }
    }
    ApplyLive(l, Replay(DiffsOf(node, chain)), d.ins, MaturingPrices(b), d.outs, node.price);
    var ds := DiffsOf(node, all);
    assert ds[..|ds| - 1] == DiffsOf(node, chain);
  }

  lemma GoodHistory(node: Node, chain: seq<Block>)
    requires GoodChain(node, chain)
    ensures 1 <= |chain| && 1 <= node.maturity && ValidHistory(DiffsOf(node, chain))
  {
  }

  lemma GoodHeights(node: Node, chain: seq<Block>, block: Block)
    requires GoodChain(node, chain)
    ensures 1 <= |chain| && 1 <= node.maturity
    ensures GoodChain(node, chain + [block]) ==> block.height == |chain|
  {
    if GoodChain(node, chain + [block]) {
      assert (chain + [block])[|chain|].height == |chain|;
    }
  }

  /** What holds of a good chain without its last block. */
  lemma Below(node: Node, chain: seq<Block>)
    requires GoodChain(node, chain) && |chain| > 1
    ensures var n := |chain| - 1;
            && 1 <= node.maturity
            && GoodChain(node, chain[..n])
            && chain[n - 1].height == n - 1
            && |DiffsOf(node, chain)| == n
            && ValidHistory(DiffsOf(node, chain))
            && DiffsOf(node, chain[..n]) == DiffsOf(node, chain)[..n - 1]
  {
    GoodPrefix(node, chain, |chain| - 1);
    DiffsOfPrefix(node, chain, |chain| - 1);
  }

  /** The live ticket cache after undoDiff. */
  function Undone(l: Live, d: PoolDiff, node: Node): Live {
    DeleteAll(InsertAll(l, d.outs, Asked(d.outs, node.price)), d.ins)
  }

  /** After undoing several diffs in order. */
  function UndoneAll(l: Live, ds: seq<PoolDiff>, node: Node): Live {
    if ds == [] then l else Undone(UndoneAll(l, ds[..|ds| - 1], node), ds[|ds| - 1], node)
  }

  lemma UndoneOne(l: Live, ds: seq<PoolDiff>, node: Node)
    ensures |ds| == 1 ==> UndoneAll(l, ds, node) == Undone(l, ds[0], node)
  {
    hide Undone;
  }

  /** The diffs up to a height, and those above it. */
  function Kept(ds: seq<PoolDiff>, height: nat): seq<PoolDiff> {
    if height <= |ds| then ds[..height] else ds
  }

  function Cut(ds: seq<PoolDiff>, height: nat): seq<PoolDiff> {
    if height <= |ds| then ds[height..] else []
  }

  lemma NothingCut(ds: seq<PoolDiff>)
    ensures ds[|ds|..] == [] && Reversed(ds[|ds|..]) == [] && ds[..|ds|] == ds
  {
  }

  lemma CutOneMore(ds: seq<PoolDiff>, n: nat)
    requires 0 < n <= |ds|
    ensures Reversed(ds[n - 1..]) == Reversed(ds[n..]) + [ds[n - 1]] && ds[..n][..n - 1] == ds[..n - 1]
  {
    assert ds[n - 1..][1..] == ds[n..];
  }

  lemma LastCut(ds: seq<PoolDiff>)
    ensures |ds| >= 1 ==> Reversed(Cut(ds, |ds| - 1)) == [ds[|ds| - 1]]
  {
    if |ds| >= 1 {
      CutOneMore(ds, |ds|);
      NothingCut(ds);
    }
  }

  /** The node knows the price of every ticket that the diffs let out. */
  ghost predicate AllPriced(node: Node, ds: seq<PoolDiff>) {
    forall i :: 0 <= i < |ds| ==> TrueValues(ds[i].outs, Asked(ds[i].outs, node.price), node.price)
  }

  lemma UndoneFirst(l: Live, d: PoolDiff, ds: seq<PoolDiff>, node: Node)
    ensures UndoneAll(l, ds + [d], node) == Undone(UndoneAll(l, ds, node), d, node)
  {
    assert (ds + [d])[..|ds|] == ds;
  }

  /** Undoing the diffs above a height, the last first, leaves the live tickets of that height. */
  lemma {:induction false} UndoneAllLive(node: Node, ds: seq<PoolDiff>, height: nat, l: Live)
    requires ValidHistory(ds) && AllPriced(node, ds) && height <= |ds| && LiveOf(l, Replay(ds), node.price)
    ensures LiveOf(UndoneAll(l, Reversed(Cut(ds, height)), node), Replay(ds[..height]), node.price)
    decreases |ds| - height
  {
    hide LiveOf, Replay, ValidDiff, Undone, Reversed;
    if height == |ds| {
      NothingCut(ds);
    } else {
      UndoneAllLive(node, ds, height + 1, l);
      CutOneMore(ds, height + 1);
      var undone := UndoneAll(l, Reversed(ds[height + 1..]), node);
      UndoneFirst(l, ds[height], Reversed(ds[height + 1..]), node);
      OneUndone(node, ds, height, undone);
    }
  }

  lemma OneUndone(node: Node, ds: seq<PoolDiff>, n: nat, l: Live)
    requires ValidHistory(ds) && AllPriced(node, ds) && n < |ds| && LiveOf(l, Replay(ds[..n + 1]), node.price)
    ensures LiveOf(Undone(l, ds[n], node), Replay(ds[..n]), node.price)
  {
    hide LiveOf, Replay, ValidDiff, Apply;
    ReplayStep(ds, n);
    ValidDiffSizes(Replay(ds[..n]), ds[n]);
    ApplyLive(l, Replay(ds[..n + 1]), ds[n].outs, Asked(ds[n].outs, node.price), ds[n].ins, node.price);
  }

  /** Undoing the diff of the last block leaves the live ticket cache of the chain without it. */
  lemma DisconnectKeepsLive(node: Node, chain: seq<Block>, l: Live)
    requires GoodChain(node, chain) && |chain| > 1
    requires LiveOf(l, Replay(DiffsOf(node, chain)), node.price)
    ensures var ds := DiffsOf(node, chain);
            LiveOf(Undone(l, ds[|ds| - 1], node), Replay(ds[..|ds| - 1]), node.price)
  {
    hide LiveOf, Replay, ValidDiff, DiffAt, Apply;
    var ds := DiffsOf(node, chain);
    var n := |ds| - 1;
    var before := Replay(ds[..n]);
    ReplayStep(ds, n);
    assert ds[..n + 1] == ds;
    ValidDiffSizes(before, ds[n]);
    OutsKnown(node, chain, n);
    ApplyLive(l, Replay(ds), ds[n].outs, Asked(ds[n].outs, node.price), ds[n].ins, node.price);
  }

  /** The node knows the price of every ticket in the pool of a good chain. */
  lemma {:induction false} PoolKnown(node: Node, chain: seq<Block>, n: nat)
    requires GoodChain(node, chain) && n < |chain|
    ensures forall h :: h in Replay(DiffsOf(node, chain)[..n]) ==> node.price(h).Some?
  {
    hide GoodChain, Replay, DiffsOf;
    GoodHistory(node, chain);
    if n == 0 {
      NothingReplayed(DiffsOf(node, chain));
    } else {
      PoolKnown(node, chain, n - 1);
      InsKnown(node, chain, n - 1);
      ReplayStep(DiffsOf(node, chain), n - 1);
    }
  }

  lemma NothingReplayed(ds: seq<PoolDiff>)
    ensures Replay(ds[..0]) == {}
  {
  }

  lemma InsKnown(node: Node, chain: seq<Block>, n: nat)
    requires GoodChain(node, chain) && n + 1 < |chain|
    ensures forall h :: h in DiffsOf(node, chain)[n].ins ==> node.price(h).Some?
  {
    var b := Maturing(node, chain, n + 1);
    if b.Some? {
      assert HonestPrices(node, chain[n + 1 - node.maturity]);
    }
  }

  lemma OutsKnown(node: Node, chain: seq<Block>, n: nat)
    requires GoodChain(node, chain) && n + 1 < |chain|
    ensures var outs := DiffsOf(node, chain)[n].outs; TrueValues(outs, Asked(outs, node.price), node.price)
  {
    var d := DiffsOf(node, chain)[n];
    PoolKnown(node, chain, n);
    InsKnown(node, chain, n);
    assert ValidDiff(Replay(DiffsOf(node, chain)[..n]), d);
    forall i | 0 <= i < |d.outs| ensures node.price(d.outs[i]).Some? {
      assert d.outs[i] in SetOf(d.outs);
    }
  }
}
