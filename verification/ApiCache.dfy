/**
 The cache of recent blocks: a map from hash to block data, one from main-chain
 height to hash, and the priority queue that decides what stays.
 */
module ApiCache {
  import opened Heap
  import opened Wrappers
  import opened BlockQueue

  /** What is cached for a block; the queue has a block of its own with the same tag. */
  datatype Entry = Entry(tag: Tag, summary: Option<Tag>, stakeInfo: Option<Tag>)

  type Entries = map<BlockHash, Entry>

  predicate Has(c: Entries, t: Tag) {
    t.hash in c && c[t.hash].tag == t
  }

  /** Every entry is under its own hash. */
  ghost predicate Keyed(c: Entries) {
    forall h :: h in c ==> c[h].tag.hash == h
  }

  /** The entries are exactly the blocks with these tags, each once. */
  ghost predicate Mirrors(c: Entries, tags: multiset<Tag>) {
    forall t :: tags[t] == if Has(c, t) then 1 else 0
  }

  /** Every height leads to a cached block of that height. */
  ghost predicate Leads(main: map<nat, BlockHash>, c: Entries) {
    forall n :: n in main ==> main[n] in c && c[main[n]].tag.height == n
  }

  function Without(c: Entries, removed: Option<Tag>): Entries {
    if removed.Some? then c - {removed.value.hash} else c
  }

  function WithoutHeight(main: map<nat, BlockHash>, removed: Option<Tag>): map<nat, BlockHash> {
    if removed.Some? then main - {removed.value.height} else main
  }

  /**
   The block e has come in, at its hash and its height, and the removed one, if
   any, has gone with its own; all else is as it was.
   */
  ghost predicate CameIn(c: Entries, main: map<nat, BlockHash>, c': Entries, main': map<nat, BlockHash>,
                         removed: Option<Tag>, e: Entry)
  {
    && e.tag.hash in c' && c'[e.tag.hash] == e
    && e.tag.height in main' && main'[e.tag.height] == e.tag.hash
    && (forall h :: h != e.tag.hash ==> (h in c' <==> h in c && (removed.Some? ==> h != removed.value.hash)))
    && (forall h :: h != e.tag.hash && h in c' && h in c ==> c'[h] == c[h])
    && (forall n :: n != e.tag.height ==> (n in main' <==> n in main && (removed.Some? ==> n != removed.value.height)))
    && (forall n :: n != e.tag.height && n in main' && n in main ==> main'[n] == main[n])
  }

  lemma ComesIn(c: Entries, main: map<nat, BlockHash>, removed: Option<Tag>, e: Entry)
    ensures CameIn(c, main, Without(c, removed)[e.tag.hash := e],
                   WithoutHeight(main, removed)[e.tag.height := e.tag.hash], removed, e)
  {
  }

  /** A block is added to the entries and, perhaps, one removed, as to the queue. */
  lemma EntriesFollow(c: Entries, tags: multiset<Tag>, removed: Option<Tag>, e: Entry)
    requires Keyed(c) && Mirrors(c, tags) && e.tag.hash !in c
    requires removed.Some? ==> removed.value in tags
    ensures var c' := Without(c, removed)[e.tag.hash := e];
            Keyed(c') && Mirrors(c', Changed(tags, removed, e.tag))
  {
    var c', tags' := Without(c, removed)[e.tag.hash := e], Changed(tags, removed, e.tag);
    assert removed.Some? ==> Has(c, removed.value);
    assert !Has(c, e.tag);
    forall t ensures tags'[t] == if Has(c', t) then 1 else 0 {
      assert tags[t] == if Has(c, t) then 1 else 0;
      assert tags[e.tag] == 0;
    }
  }

  lemma HeightsFollow(main: map<nat, BlockHash>, c: Entries, removed: Option<Tag>, e: Entry)
    requires Leads(main, c) && Keyed(c) && e.tag.hash !in c && (removed.Some? ==> Has(c, removed.value))
    ensures Leads(WithoutHeight(main, removed)[e.tag.height := e.tag.hash], Without(c, removed)[e.tag.hash := e])
  {
  }

  lemma {:induction false} SameSize(c: Entries, tags: multiset<Tag>)
    requires Keyed(c) && Mirrors(c, tags)
    ensures |c| == |tags|
    decreases |c|
  {
    if c == map[] {
      assert forall t :: tags[t] == 0;
      assert tags == multiset{};
    } else {
      var h :| h in c;
      var t := c[h].tag;
      assert Has(c, t);
      var c', tags' := c - {h}, tags - multiset{t};
      forall u ensures tags'[u] == if Has(c', u) then 1 else 0 {
        assert tags[u] == if Has(c, u) then 1 else 0;
      }
      SameSize(c', tags');
      assert c'.Keys == c.Keys - {h};
    }
  }

  /** Whether the queue has room for a block of this height, or a lower block to give up for it. */
  ghost predicate Takes(q: BlockPriorityQueue, height: nat)
    reads q, q.bh
  {
    0 < q.capacity && (|q.bh| < q.capacity || q.bh[0].height < height)
  }

  /** The block it would give up. */
  ghost function Evicts(q: BlockPriorityQueue): Option<Tag>
    reads q
  {
    if 0 < |q.tags| == q.capacity then Some(q.tags[0]) else None
  }

  class APICache {
    var enabled: bool
    var blockCache: Entries
    var mainchainBlocks: map<nat, BlockHash>
    const expireQueue: BlockPriorityQueue

    /** The cache holds the blocks of the queue and no other. */
    ghost predicate Valid()
      reads this, expireQueue, expireQueue.bh, expireQueue.blocks
    {
      && expireQueue.Valid()
      && Keyed(blockCache)
      && Mirrors(blockCache, multiset(expireQueue.tags))
      && Leads(mainchainBlocks, blockCache)
    }

    /** NewAPICache with SetLessFn(LessByHeight), enabled */
    constructor (capacity: nat)
      ensures Valid() && blockCache == map[] && enabled && fresh(expireQueue) && expireQueue.capacity == capacity
    {
      enabled, blockCache, mainchainBlocks := true, map[], map[];
      expireQueue := new BlockPriorityQueue(capacity);
    }

    /** The number of blocks cached stays within the capacity. */
    lemma WithinCapacity()
      requires Valid()
      ensures |blockCache| == |expireQueue.tags| <= expireQueue.capacity
    {
      hide Keyed, Mirrors, Leads, IsHeap, Within, Greatest, Offered;
      expireQueue.WithinCapacity();
      SameSize(blockCache, multiset(expireQueue.tags));
    }

    /** No height that was offered and is not kept is above a cached block. */
    lemma CachedAreGreatest(h: BlockHash, x: nat)
      requires Valid() && h in blockCache && x in expireQueue.offered - multiset(expireQueue.hs)
      ensures x <= blockCache[h].tag.height
    {
      hide Keyed, Leads, IsHeap, Within, Offered;
      var t := blockCache[h].tag;
      TagAt(t, h);
      var i :| 0 <= i < |expireQueue.tags| && expireQueue.tags[i] == t;
      expireQueue.HeightAt(i);
      assert expireQueue.hs[i] in multiset(expireQueue.hs);
    }

    lemma TagAt(t: Tag, h: BlockHash)
      requires Keyed(blockCache) && Mirrors(blockCache, multiset(expireQueue.tags))
      requires h in blockCache && blockCache[h].tag == t
      ensures t in expireQueue.tags
    {
      assert Has(blockCache, t);
      assert t in multiset(expireQueue.tags);
    }

    /** A block that is not cached is offered to the queue. */
    method StoreNew(d: BlockData, e: Entry)
      requires Valid() && TagOf(d) == Some(e.tag) && e.tag.hash !in blockCache
      requires (d.summary.Some? ==> d.summary == Some(e.tag)) && (d.stakeInfo.Some? ==> d.stakeInfo == Some(e.tag))
      requires e.tag.height <= MAX_UINT32
      modifies this, expireQueue, expireQueue.blocks
      ensures Valid() && enabled == old(enabled)
      ensures expireQueue.offered == old(expireQueue.offered) + multiset{e.tag.height}
      ensures e.tag.hash in blockCache <==> old(Takes(expireQueue, e.tag.height))
      ensures e.tag.hash !in blockCache ==> blockCache == old(blockCache) && mainchainBlocks == old(mainchainBlocks)
      ensures e.tag.hash in blockCache ==>
                var removed := old(Evicts(expireQueue));
                && blockCache == Without(old(blockCache), removed)[e.tag.hash := e]
                && mainchainBlocks == WithoutHeight(old(mainchainBlocks), removed)[e.tag.height := e.tag.hash]
                && CameIn(old(blockCache), old(mainchainBlocks), blockCache, mainchainBlocks, removed, e)
    {
      hide Keyed, Mirrors, Leads, IsHeap, Within, Greatest, Offered, BlockPriorityQueue.Indexed, Without, WithoutHeight,
           Changed, CameIn;
      ghost var was := multiset(expireQueue.tags);
      var added, removed := expireQueue.Insert(d);
      if added {
        MirrorHas(blockCache, was, removed);
        EntriesFollow(blockCache, was, removed, e);
        HeightsFollow(mainchainBlocks, blockCache, removed, e);
        ComesIn(blockCache, mainchainBlocks, removed, e);
        blockCache := Without(blockCache, removed)[e.tag.hash := e];
        mainchainBlocks := WithoutHeight(mainchainBlocks, removed)[e.tag.height := e.tag.hash];
      }
    }

    /** StoreBlockSummary */
    method StoreBlockSummary(tag: Tag)
      requires Valid() && tag.height <= MAX_UINT32
      modifies this, expireQueue, expireQueue.blocks
      ensures Valid()
      ensures !old(enabled) ==> blockCache == old(blockCache) && mainchainBlocks == old(mainchainBlocks)
      ensures old(enabled) && tag.hash in old(blockCache) ==>
                var e := old(blockCache)[tag.hash];
                && blockCache == old(blockCache)[tag.hash := if e.summary.Some? then e else e.(summary := Some(tag))]
                && mainchainBlocks == old(mainchainBlocks)
      ensures old(enabled) && tag.hash !in old(blockCache) ==>
                && (tag.hash in blockCache <==> old(Takes(expireQueue, tag.height)))
                && (tag.hash !in blockCache ==>
                    blockCache == old(blockCache) && mainchainBlocks == old(mainchainBlocks))
                && (tag.hash in blockCache ==>
                    CameIn(old(blockCache), old(mainchainBlocks), blockCache, mainchainBlocks,
                           old(Evicts(expireQueue)), Entry(tag, Some(tag), None)))
    {
      hide IsHeap, Within, Greatest, Offered, BlockPriorityQueue.Indexed, Mirrors, Leads, Keyed, Takes, Evicts,
           CameIn;
      if !enabled {
        return;
      }
      if tag.hash in blockCache {
        var e := blockCache[tag.hash];
        if e.summary.Some? {
          assert blockCache[tag.hash := e] == blockCache;
          return;
        }
        SameTag(blockCache, mainchainBlocks, multiset(expireQueue.tags), tag.hash, e.(summary := Some(tag)));
        blockCache := blockCache[tag.hash := e.(summary := Some(tag))];
        return;
      }
      StoreNew(BlockData(Some(tag), None), Entry(tag, Some(tag), None));
    }

    /** StoreStakeInfo */
    method StoreStakeInfo(tag: Tag)
      requires Valid() && tag.height <= MAX_UINT32
      modifies this, expireQueue, expireQueue.blocks
      ensures Valid()
      ensures !old(enabled) ==> blockCache == old(blockCache) && mainchainBlocks == old(mainchainBlocks)
      ensures old(enabled) && tag.hash in old(blockCache) ==>
                var e := old(blockCache)[tag.hash];
                && blockCache == old(blockCache)[tag.hash := if e.stakeInfo.Some? then e else e.(stakeInfo := Some(tag))]
                && mainchainBlocks == old(mainchainBlocks)
      ensures old(enabled) && tag.hash !in old(blockCache) ==>
                && (tag.hash in blockCache <==> old(Takes(expireQueue, tag.height)))
                && (tag.hash !in blockCache ==>
                    blockCache == old(blockCache) && mainchainBlocks == old(mainchainBlocks))
                && (tag.hash in blockCache ==>
                    CameIn(old(blockCache), old(mainchainBlocks), blockCache, mainchainBlocks,
                           old(Evicts(expireQueue)), Entry(tag, None, Some(tag))))
    {
      hide IsHeap, Within, Greatest, Offered, BlockPriorityQueue.Indexed, Mirrors, Leads, Keyed, Takes, Evicts,
           CameIn;
      if !enabled {
        return;
      }
      if tag.hash in blockCache {
        var e := blockCache[tag.hash];
        if e.stakeInfo.None? {
          SameTag(blockCache, mainchainBlocks, multiset(expireQueue.tags), tag.hash, e.(stakeInfo := Some(tag)));
          blockCache := blockCache[tag.hash := e.(stakeInfo := Some(tag))];
          return;
        }
        assert blockCache[tag.hash := e] == blockCache;
        return;
      }
      StoreNew(BlockData(None, Some(tag)), Entry(tag, None, Some(tag)));
    }

    /** GetCachedBlockByHeight: a height that is known always leads to a block of that height. */
    method GetCachedBlockByHeight(height: nat) returns (e: Option<Entry>)
      requires Valid()
      ensures e.Some? <==> height in mainchainBlocks
      ensures e.Some? ==> e.value.tag.height == height && Has(blockCache, e.value.tag)
      ensures e.Some? ==> mainchainBlocks[height] in blockCache && e.value == blockCache[mainchainBlocks[height]]
    {
      hide Mirrors, IsHeap, Within, Greatest, Offered, BlockPriorityQueue.Indexed;
      if height !in mainchainBlocks {
        return None;
      }
      var hash := mainchainBlocks[height];
      return if hash in blockCache then Some(blockCache[hash]) else None;
    }
  }

  /** Changing what is cached of a block, but not its tag, keeps everything in step. */
  lemma SameTag(c: Entries, main: map<nat, BlockHash>, tags: multiset<Tag>, h: BlockHash, e: Entry)
    requires Keyed(c) && Mirrors(c, tags) && Leads(main, c) && h in c && e.tag == c[h].tag
    ensures Keyed(c[h := e]) && Mirrors(c[h := e], tags) && Leads(main, c[h := e])
  {
    forall t ensures Has(c[h := e], t) == Has(c, t) {
    }
  }

  lemma MirrorHas(c: Entries, tags: multiset<Tag>, removed: Option<Tag>)
    requires Mirrors(c, tags) && (removed.Some? ==> removed.value in tags)
    ensures removed.Some? ==> Has(c, removed.value)
  {
  }

  /** A new block that the queue takes is found by its height, with what was stored of it. */
  method StoreAndGet(c: APICache, tag: Tag, summary: bool) returns (e: Option<Entry>)
    requires c.Valid() && tag.height <= MAX_UINT32
    modifies c, c.expireQueue, c.expireQueue.blocks
    ensures c.Valid()
    ensures old(c.enabled) && tag.hash !in old(c.blockCache) && old(Takes(c.expireQueue, tag.height)) ==>
              e == Some(if summary then Entry(tag, Some(tag), None) else Entry(tag, None, Some(tag)))
  {
    hide IsHeap, Within, Greatest, Offered, BlockPriorityQueue.Indexed, Mirrors, Leads, Keyed, Takes, Evicts;
    if summary {
      c.StoreBlockSummary(tag);
    } else {
      c.StoreStakeInfo(tag);
    }
    e := c.GetCachedBlockByHeight(tag.height);
  }
}
