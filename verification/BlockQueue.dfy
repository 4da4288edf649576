/**
 The bounded priority queue of cached blocks, ordered by height, over Go's
 container/heap. Each block records its own position in the heap.
 */
module BlockQueue {
  import opened Wrappers
  import opened Bytes
  import opened Common
  import opened Heap

  type BlockHash = Hash

  const MAX_UINT32: nat := 0xFFFF_FFFF

  /** Height and hash of a BlockDataBasic or a StakeInfoExtended. */
  datatype Tag = Tag(height: nat, hash: BlockHash)

  /** cachedBlockData; either part may be nil. */
  datatype BlockData = BlockData(summary: Option<Tag>, stakeInfo: Option<Tag>)

  /** checkBlockHeightHash: the tag of the data, or nothing if its parts disagree. */
  function CheckTag(d: BlockData): Option<Tag>
    requires d.summary.Some? || d.stakeInfo.Some?
  {
    if d.summary.None? then d.stakeInfo
    else if d.stakeInfo.Some? && d.summary != d.stakeInfo then None
    else d.summary
  }

  function TagOf(d: BlockData): Option<Tag> {
    if d.summary.None? && d.stakeInfo.None? then None else CheckTag(d)
  }

  /** The tag of block data is the one that every part it has agrees on. */
  lemma TagOfIff(d: BlockData, t: Tag)
    ensures TagOf(d) == Some(t) <==>
            && (d.summary.Some? || d.stakeInfo.Some?)
            && (d.summary.Some? ==> d.summary.value.height == t.height && d.summary.value.hash == t.hash)
            && (d.stakeInfo.Some? ==> d.stakeInfo.value.height == t.height && d.stakeInfo.value.hash == t.hash)
  {
  }

  /** The tags after one is added, and perhaps one removed. */
  function Changed(tags: multiset<Tag>, removed: Option<Tag>, added: Tag): multiset<Tag> {
    (if removed.Some? then tags - multiset{removed.value} else tags) + multiset{added}
  }

  /** lo and hi are the least and greatest of the heights; with none, they are the initial values. */
  ghost predicate Extremes(lo: int, hi: int, heights: set<nat>) {
    && (forall h :: h in heights ==> lo <= h <= hi && h <= MAX_UINT32)
    && (heights == {} ==> lo == MAX_UINT32 && hi == -1)
    && (heights != {} ==> lo >= 0 && lo in heights && hi >= 0 && hi in heights)
  }

  lemma ExtremesAdd(lo: int, hi: int, heights: set<nat>, h: nat)
    requires Extremes(lo, hi, heights) && h <= MAX_UINT32
    ensures Extremes(Min(lo, h), Max(hi, h), heights + {h})
  {
  }

  /** The queue's heights are among those taken, whose extremes are lo and hi. */
  ghost predicate Within(lo: int, hi: int, taken: set<nat>, heights: multiset<nat>) {
    Extremes(lo, hi, taken) && forall h :: h in heights ==> h in taken
  }

  lemma WithinAdd(lo: int, hi: int, taken: set<nat>, heights: multiset<nat>, gone: multiset<nat>, h: nat)
    requires Within(lo, hi, taken, heights) && h <= MAX_UINT32
    ensures Within(Min(lo, h), Max(hi, h), taken + {h}, heights - gone + multiset{h})
    ensures forall x :: x in heights - gone + multiset{h} ==> x == h || lo <= x <= hi
  {
    ExtremesAdd(lo, hi, taken, h);
  }

  lemma WithinMore(lo: int, hi: int, taken: set<nat>, heights: multiset<nat>, h: nat)
    requires Within(lo, hi, taken, heights) && h <= MAX_UINT32
    ensures Within(Min(lo, h), Max(hi, h), taken + {h}, heights + multiset{h})
  {
    WithinAdd(lo, hi, taken, heights, multiset{}, h);
    assert heights - multiset{} == heights;
  }

  ghost predicate Offered(taken: set<nat>, offered: multiset<nat>) {
    forall h :: h in taken ==> h in offered
  }

  lemma OfferMore(taken: set<nat>, offered: multiset<nat>, h: nat)
    requires Offered(taken, offered)
    ensures Offered(taken, offered + multiset{h}) && Offered(taken + {h}, offered + multiset{h})
  {
  }

  /** The greatest height ever taken is never evicted, so maxHeight is the greatest in the queue. */
  lemma MaxIsKept(lo: int, hi: int, taken: set<nat>, kept: multiset<nat>, offered: multiset<nat>, cap: nat)
    requires Within(lo, hi, taken, kept) && Greatest(offered, kept, cap) && Offered(taken, offered)
    requires kept != multiset{}
    ensures hi >= 0 && hi in kept && forall h :: h in kept ==> h <= hi
  {
    var y :| y in kept;
    assert y in taken;
    assert hi !in kept ==> hi in offered - kept;
  }

  class CachedBlock {
    var height: nat
    var hash: BlockHash
    var accesses: nat
    var heapIdx: int

    /** newCachedBlock */
    constructor (tag: Tag)
      ensures height == tag.height && hash == tag.hash && accesses == 0 && heapIdx == -1
    {
      height, hash, accesses, heapIdx := tag.height, tag.hash, 0, -1;
    }
  }

  class BlockPriorityQueue {
    var bh: seq<CachedBlock>
    const capacity: nat
    var minHeight: int
    var maxHeight: int
    /** The blocks in bh, and in order their heights and their heights with hashes. */
    ghost var blocks: set<CachedBlock>
    ghost var hs: seq<nat>
    ghost var tags: seq<Tag>
    /** Every height offered to Insert, and every height it took. */
    ghost var offered: multiset<nat>
    ghost var admitted: set<nat>

    /** Each block knows its position, so no block is in the queue twice. */
    ghost predicate Indexed()
      reads this`bh, this`blocks, this`hs, this`tags, bh, blocks
    {
      && |hs| == |bh| && |tags| == |bh|
      && (forall i :: 0 <= i < |bh| ==>
            bh[i] in blocks && bh[i].heapIdx == i && bh[i].height == hs[i] && tags[i] == Tag(bh[i].height, bh[i].hash))
      && (forall b :: b in blocks ==> 0 <= b.heapIdx < |bh| && bh[b.heapIdx] == b)
    }

    /** minHeight and maxHeight are the extremes of all heights ever taken, so they bound the queue's own. */
    ghost predicate Bounded()
      reads this`minHeight, this`maxHeight, this`admitted, this`hs
    {
      Within(minHeight, maxHeight, admitted, multiset(hs))
    }

    ghost predicate Valid()
      reads this, bh, blocks
    {
      && Indexed()
      && IsHeap(hs)
      && Bounded()
      && Greatest(offered, multiset(hs), capacity)
      && Offered(admitted, offered)
    }

    /** NewBlockPriorityQueue followed by SetLessFn(LessByHeight) */
    constructor (capacity: nat)
      ensures Valid() && bh == [] && this.capacity == capacity
      ensures offered == multiset{} && admitted == {} && blocks == {} && tags == []
    {
      this.capacity := capacity;
      bh, minHeight, maxHeight := [], MAX_UINT32, -1;
      offered, admitted, blocks, hs, tags := multiset{}, {}, {}, [], [];
    }

    /** Swap */
    method Swap(i: nat, j: nat)
      requires Indexed() && i < |bh| && j < |bh| && i != j
      modifies this`bh, this`hs, this`tags, blocks`heapIdx
      ensures Indexed()
      ensures bh == old(bh)[i := old(bh)[j]][j := old(bh)[i]]
      ensures hs == Swapped(old(hs), i, j)
      ensures multiset(hs) == old(multiset(hs)) && multiset(tags) == old(multiset(tags))
    {
      SwapKeepsAll(hs, i, j);
      SwapKeepsAll(tags, i, j);
      bh := bh[i := bh[j]][j := bh[i]];
      hs := Swapped(hs, i, j);
      tags := Swapped(tags, i, j);
      bh[i].heapIdx := i;
      bh[j].heapIdx := j;
    }

    /** container/heap up */
    method Up(j0: nat)
      requires Indexed() && j0 < |bh| && HeapButUp(hs, j0)
      modifies this`bh, this`hs, this`tags, blocks`heapIdx
      ensures Indexed() && IsHeap(hs) && |bh| == |old(bh)|
      ensures multiset(hs) == old(multiset(hs)) && multiset(tags) == old(multiset(tags))
    {
      hide HeapButUp, IsHeap;
      var j := j0;
      while true
        invariant Indexed() && 0 <= j < |bh| == |old(bh)| && HeapButUp(hs, j)
        invariant multiset(hs) == old(multiset(hs)) && multiset(tags) == old(multiset(tags))
        decreases j
      {
        var i := if j == 0 then 0 else (j - 1) / 2;
        if i == j || !(bh[j].height < bh[i].height) {
          UpDone(hs, j);
          break;
        }
        UpStep(hs, j);
        Swap(i, j);
        j := i;
      }
    }

    /** container/heap down: whether the block moved */
    method Down(top: nat) returns (moved: bool)
      requires Indexed() && top < |bh| && HeapButDown(hs, top, top)
      modifies this`bh, this`hs, this`tags, blocks`heapIdx
      ensures Indexed() && |bh| == |old(bh)|
      ensures moved ==> IsHeap(hs)
      ensures !moved ==> HeapButUp(hs, top)
      ensures multiset(hs) == old(multiset(hs)) && multiset(tags) == old(multiset(tags))
    {
      hide HeapButUp, HeapButDown, IsHeap, LeastChild, NoSmallerChild;
      var i, n := top, |bh|;
      while true
        invariant Indexed() && top <= i < |bh| == n && HeapButDown(hs, top, i)
        invariant multiset(hs) == old(multiset(hs)) && multiset(tags) == old(multiset(tags))
        decreases n - i
      {
        var j1 := 2 * i + 1;
        if j1 >= n {
          PickChild(hs, i, j1);
          break;
        }
        var j := j1;
        var j2 := j1 + 1;
        if j2 < n && bh[j2].height < bh[j1].height {
          j := j2;
        }
        PickChild(hs, i, j);
        if !(bh[j].height < bh[i].height) {
          break;
        }
        DownStep(hs, top, i, j);
        Swap(i, j);
        i := j;
      }
      DownDone(hs, top, i);
      return i > top;
    }

    /** heap.Fix */
    method Fix(i: nat)
      requires Indexed() && i < |bh| && HeapButDown(hs, i, i)
      modifies this`bh, this`hs, this`tags, blocks`heapIdx
      ensures Indexed() && IsHeap(hs) && |bh| == |old(bh)|
      ensures multiset(hs) == old(multiset(hs)) && multiset(tags) == old(multiset(tags))
    {
      hide HeapButUp, HeapButDown, IsHeap;
      var moved := Down(i);
      if !moved {
        Up(i);
      }
    }

    /** updateMinMax */
    method UpdateMinMax(h: nat)
      modifies this`minHeight, this`maxHeight
      ensures minHeight == Min(old(minHeight), h) && maxHeight == Max(old(maxHeight), h)
    {
      if h > maxHeight {
        maxHeight := h;
      }
      if h < minHeight {
        minHeight := h;
      }
    }

    /** RescanMinMax, which takes every height in but never lets the old bounds go */
    method RescanMinMax()
      modifies this`minHeight, this`maxHeight
      ensures minHeight <= old(minHeight) && old(maxHeight) <= maxHeight
      ensures forall i :: 0 <= i < |bh| ==> minHeight <= bh[i].height <= maxHeight
      ensures minHeight == old(minHeight) || exists i :: 0 <= i < |bh| && bh[i].height == minHeight
      ensures maxHeight == old(maxHeight) || exists i :: 0 <= i < |bh| && bh[i].height == maxHeight
    {
      for i := 0 to |bh|
        invariant minHeight <= old(minHeight) && old(maxHeight) <= maxHeight
        invariant forall j :: 0 <= j < i ==> minHeight <= bh[j].height <= maxHeight
        invariant minHeight == old(minHeight) || exists j :: 0 <= j < i && bh[j].height == minHeight
        invariant maxHeight == old(maxHeight) || exists j :: 0 <= j < i && bh[j].height == maxHeight
      {
        UpdateMinMax(bh[i].height);
      }
    }

    /** RescanMinMaxForUpdate, after the block of height `add` is in place */
    method RescanMinMaxForUpdate(add: nat, remove: nat)
      requires Indexed()
      requires forall h :: h in multiset(hs) ==> h == add || minHeight <= h <= maxHeight
      modifies this`minHeight, this`maxHeight
      ensures minHeight == Min(old(minHeight), add) && maxHeight == Max(old(maxHeight), add)
    {
      if (remove == minHeight && add >= remove) || (remove == maxHeight && add <= remove) {
        forall i | 0 <= i < |bh|
          ensures Min(minHeight, add) <= bh[i].height <= Max(maxHeight, add)
        {
          assert hs[i] in multiset(hs);
        }
        RescanMinMax();
      }
      UpdateMinMax(add);
    }

    /** The fields of block b take the new tag. */
    method SetTag(b: CachedBlock, tag: Tag)
      requires Indexed() && b in blocks
      modifies this`hs, this`tags, b`height, b`hash, b`accesses
      ensures Indexed()
      ensures hs == old(hs)[b.heapIdx := tag.height] && tags == old(tags)[b.heapIdx := tag]
      ensures b.height == tag.height && b.hash == tag.hash && b.accesses == 1
    {
      hs := hs[b.heapIdx := tag.height];
      tags := tags[b.heapIdx := tag];
      b.height := tag.height;
      b.hash := tag.hash;
      b.accesses := 1;
    }

    /** The part of UpdateBlock that moves the block to its place */
    method ReplaceTag(b: CachedBlock, tag: Tag)
      requires Indexed() && IsHeap(hs) && b in blocks
      modifies this`bh, this`hs, this`tags, blocks
      ensures Indexed() && IsHeap(hs) && |bh| == |old(bh)|
      ensures multiset(hs) == old(multiset(hs)) - multiset{old(b.height)} + multiset{tag.height}
      ensures multiset(tags) == Changed(old(multiset(tags)), Some(old(Tag(b.height, b.hash))), tag)
    {
      hide IsHeap, HeapButDown, Changed;
      PositionOf(b);
      SetOne(hs, b.heapIdx, tag.height);
      SetAny(tags, b.heapIdx, tag);
      SetTag(b, tag);
      Fix(b.heapIdx);
    }

    /** The part of UpdateBlock after the data has been found to agree */
    method Retag(b: CachedBlock, tag: Tag)
      requires Indexed() && IsHeap(hs) && Bounded() && b in blocks && tag.height <= MAX_UINT32
      modifies this`bh, this`hs, this`tags, this`minHeight, this`maxHeight, this`admitted, blocks
      ensures Indexed() && IsHeap(hs) && Bounded() && |bh| == |old(bh)|
      ensures multiset(hs) == old(multiset(hs)) - multiset{old(b.height)} + multiset{tag.height}
      ensures multiset(tags) == Changed(old(multiset(tags)), Some(old(Tag(b.height, b.hash))), tag)
      ensures admitted == old(admitted) + {tag.height}
    {
      hide IsHeap, Indexed, Within, Changed;
      WithinAdd(minHeight, maxHeight, admitted, multiset(hs), multiset{b.height}, tag.height);
      var heightRemoved := b.height;
      ReplaceTag(b, tag);
      RescanMinMaxForUpdate(tag.height, heightRemoved);
      admitted := admitted + {tag.height};
    }

    /** UpdateBlock, for a block in the queue; data whose parts disagree changes nothing. */
    method UpdateBlock(b: CachedBlock, d: BlockData)
      requires Indexed() && IsHeap(hs) && Bounded() && b in blocks && (d.summary.Some? || d.stakeInfo.Some?)
      requires CheckTag(d).Some? ==> CheckTag(d).value.height <= MAX_UINT32
      modifies this`bh, this`hs, this`tags, this`minHeight, this`maxHeight, this`admitted, blocks
      ensures Indexed() && IsHeap(hs) && Bounded() && |bh| == |old(bh)|
      ensures CheckTag(d).None? ==>
                && bh == old(bh) && hs == old(hs) && tags == old(tags) && admitted == old(admitted)
                && minHeight == old(minHeight) && maxHeight == old(maxHeight)
                && forall x :: x in blocks ==> unchanged(x)
      ensures CheckTag(d).Some? ==>
                var tag := CheckTag(d).value;
                && multiset(hs) == old(multiset(hs)) - multiset{old(b.height)} + multiset{tag.height}
                && multiset(tags) == Changed(old(multiset(tags)), Some(old(Tag(b.height, b.hash))), tag)
                && admitted == old(admitted) + {tag.height}
    {
      hide IsHeap, Indexed, Within, Changed, CheckTag;
      var tag := CheckTag(d);
      if tag.Some? {
        Retag(b, tag.value);
      }
    }

    lemma PositionOf(b: CachedBlock)
      requires Indexed() && b in blocks
      ensures 0 <= b.heapIdx < |bh| && bh[b.heapIdx] == b && hs[b.heapIdx] == b.height
      ensures |tags| == |bh| && tags[b.heapIdx] == Tag(b.height, b.hash)
    {
    }

    /** Push */
    method Push(tag: Tag)
      requires Indexed()
      modifies this`bh, this`hs, this`tags, this`minHeight, this`maxHeight, this`blocks
      ensures Indexed() && |bh| == |old(bh)| + 1 && fresh(blocks - old(blocks)) && old(blocks) <= blocks
      ensures hs == old(hs) + [tag.height] && tags == old(tags) + [tag] && bh[|old(bh)|].accesses == 1
      ensures minHeight == Min(old(minHeight), tag.height) && maxHeight == Max(old(maxHeight), tag.height)
    {
      var b := new CachedBlock(tag);
      b.accesses := 1;
      b.heapIdx := |bh|;
      UpdateMinMax(tag.height);
      bh := bh + [b];
      hs := hs + [tag.height];
      tags := tags + [tag];
      blocks := blocks + {b};
    }

    /** heap.Push */
    method HeapPush(tag: Tag)
      requires Indexed() && IsHeap(hs)
      modifies this`bh, this`hs, this`tags, this`minHeight, this`maxHeight, this`blocks, blocks`heapIdx
      ensures Indexed() && IsHeap(hs) && |bh| == |old(bh)| + 1
      ensures fresh(blocks - old(blocks))
      ensures multiset(hs) == old(multiset(hs)) + multiset{tag.height}
      ensures multiset(tags) == Changed(old(multiset(tags)), None, tag)
      ensures minHeight == Min(old(minHeight), tag.height) && maxHeight == Max(old(maxHeight), tag.height)
    {
      hide IsHeap, HeapButUp, Indexed, Changed;
      RootFacts();
      AppendOne(hs, tag.height);
      AppendAny(tags, tag);
      Push(tag);
      Up(|bh| - 1);
    }

    /** heap.Push followed by RescanMinMaxForAdd */
    method AddBlock(tag: Tag)
      requires Indexed() && IsHeap(hs) && Bounded() && tag.height <= MAX_UINT32
      modifies this`bh, this`hs, this`tags, this`minHeight, this`maxHeight, this`admitted, this`blocks, blocks`heapIdx
      ensures Indexed() && IsHeap(hs) && Bounded() && |bh| == |old(bh)| + 1
      ensures fresh(blocks - old(blocks))
      ensures multiset(hs) == old(multiset(hs)) + multiset{tag.height}
      ensures multiset(tags) == Changed(old(multiset(tags)), None, tag)
      ensures admitted == old(admitted) + {tag.height}
    {
      hide IsHeap, Indexed, Within, Changed;
      WithinMore(minHeight, maxHeight, admitted, multiset(hs), tag.height);
      HeapPush(tag);
      UpdateMinMax(tag.height);
      admitted := admitted + {tag.height};
    }

    lemma RootFacts()
      requires Indexed()
      ensures |hs| == |bh| && (bh != [] ==> bh[0] in blocks && bh[0].height == hs[0])
      ensures |tags| == |bh| && (bh != [] ==> tags[0] == Tag(bh[0].height, bh[0].hash))
    {
    }

    lemma HeightAt(i: nat)
      requires Indexed() && i < |tags|
      ensures |hs| == |tags| && hs[i] == tags[i].height
    {
      assert bh[i] in blocks;
    }

    /** The queue holds at most `capacity` blocks. */
    lemma WithinCapacity()
      requires Valid()
      ensures |bh| == |tags| <= capacity
    {
      RootFacts();
      KeptAtMost(offered, multiset(hs), capacity);
    }

    /** The top of a full queue gives way to a higher block. */
    method ReplaceTop(d: BlockData, tag: Tag) returns (removed: Tag)
      requires Valid() && |bh| == capacity > 0 && tag.height <= MAX_UINT32 && bh[0].height < tag.height
      requires (d.summary.Some? || d.stakeInfo.Some?) && CheckTag(d) == Some(tag)
      modifies this, blocks
      ensures Valid() && blocks == old(blocks)
      ensures offered == old(offered) + multiset{tag.height} && admitted == old(admitted) + {tag.height}
      ensures removed == old(tags[0]) && multiset(tags) == Changed(old(multiset(tags)), Some(removed), tag)
    {
      hide IsHeap, Indexed, Within, Greatest, Offered, Changed, CheckTag;
      RootFacts();
      RootBoundsAll(hs);
      OfferMore(admitted, offered, tag.height);
      var top := bh[0];
      Replace(offered, multiset(hs), capacity, top.height, tag.height);
      removed := Tag(top.height, top.hash);
      UpdateBlock(top, d);
      offered := offered + multiset{tag.height};
    }

    /** Insert into a full queue: replace the top if the new block is higher. */
    method InsertFull(d: BlockData, tag: Tag) returns (added: bool, removed: Option<Tag>)
      requires Valid() && |bh| == capacity > 0 && tag.height <= MAX_UINT32
      requires (d.summary.Some? || d.stakeInfo.Some?) && CheckTag(d) == Some(tag)
      modifies this, blocks
      ensures Valid() && blocks == old(blocks)
      ensures offered == old(offered) + multiset{tag.height}
      ensures admitted == if added then old(admitted) + {tag.height} else old(admitted)
      ensures added <==> old(bh[0].height) < tag.height
      ensures added ==> removed == Some(old(tags[0]))
      ensures added ==> multiset(tags) == Changed(old(multiset(tags)), removed, tag)
      ensures !added ==> removed == None && tags == old(tags)
    {
      hide IsHeap, Indexed, Within, Greatest, Offered, Changed;
      RootFacts();
      if bh[0].height < tag.height {
        var top := ReplaceTop(d, tag);
        return true, Some(top);
      }
      RootBoundsAll(hs);
      OfferMore(admitted, offered, tag.height);
      KeepOld(offered, multiset(hs), capacity, tag.height);
      offered := offered + multiset{tag.height};
      return false, None;
    }

    /** Insert into a queue with no room at all. */
    method Refuse(tag: Tag)
      requires Valid() && capacity == 0
      modifies this`offered
      ensures Valid() && offered == old(offered) + multiset{tag.height}
    {
      hide IsHeap, Indexed, Within, Greatest, Offered, Changed;
      NothingKept(offered, multiset(hs));
      KeepOld(offered, multiset(hs), 0, tag.height);
      OfferMore(admitted, offered, tag.height);
      offered := offered + multiset{tag.height};
    }

    /** Insert into a queue with room left. */
    method InsertRoom(tag: Tag)
      requires Valid() && |bh| < capacity && tag.height <= MAX_UINT32
      modifies this, blocks
      ensures Valid() && fresh(blocks - old(blocks))
      ensures offered == old(offered) + multiset{tag.height}
      ensures admitted == old(admitted) + {tag.height}
      ensures multiset(tags) == Changed(old(multiset(tags)), None, tag)
    {
      hide IsHeap, Indexed, Within, Greatest, Offered, Changed;
      RootFacts();
      KeepNew(offered, multiset(hs), capacity, tag.height);
      OfferMore(admitted, offered, tag.height);
      AddBlock(tag);
      offered := offered + multiset{tag.height};
    }

    /**
     Insert. Data whose parts disagree makes it dereference nil when the queue is
     full, so the caller must not pass such data then. The queue keeps the
     `capacity` greatest of the heights offered.
     */
    method Insert(d: BlockData) returns (added: bool, removed: Option<Tag>)
      requires Valid()
      requires d.summary.Some? ==> d.summary.value.height <= MAX_UINT32
      requires d.stakeInfo.Some? ==> d.stakeInfo.value.height <= MAX_UINT32
      requires d.summary.Some? && d.stakeInfo.Some? && 0 < capacity <= |bh| ==> CheckTag(d).Some?
      modifies this, blocks
      ensures Valid() && fresh(blocks - old(blocks))
      ensures offered == old(offered) + (if TagOf(d).Some? then multiset{TagOf(d).value.height} else multiset{})
      ensures added <==> TagOf(d).Some? && 0 < capacity &&
                         (|old(bh)| < capacity || old(bh[0].height) < TagOf(d).value.height)
      ensures admitted == if added then old(admitted) + {TagOf(d).value.height} else old(admitted)
      ensures !added ==> removed == None && tags == old(tags)
      ensures added ==>
                && (removed.Some? <==> |old(tags)| == capacity)
                && (removed.Some? ==> removed.value == old(tags)[0])
                && multiset(tags) == Changed(old(multiset(tags)), removed, TagOf(d).value)
    {
      hide IsHeap, Indexed, Within, Greatest, Offered, Changed;
      RootFacts();
      KeptAtMost(offered, multiset(hs), capacity);
      if d.summary.None? && d.stakeInfo.None? {
        return false, None;
      }
      var tag := CheckTag(d);
      if capacity == 0 {
        if tag.Some? {
          Refuse(tag.value);
        }
        return false, None;
      }
      if capacity <= |bh| {
        added, removed := InsertFull(d, tag.value);
        return;
      }
      if tag.None? {
        return false, None;
      }
      InsertRoom(tag.value);
      return true, None;
    }
  }

  lemma SetAny(tags: seq<Tag>, i: nat, tag: Tag)
    requires i < |tags|
    ensures multiset(tags[i := tag]) == Changed(multiset(tags), Some(tags[i]), tag)
  {
  }

  lemma AppendAny(tags: seq<Tag>, tag: Tag)
    ensures multiset(tags + [tag]) == Changed(multiset(tags), None, tag)
  {
  }

  lemma KeptAtMost(seen: multiset<nat>, kept: multiset<nat>, cap: nat)
    requires Greatest(seen, kept, cap)
    ensures |kept| <= cap
  {
  }

  lemma NothingKept(seen: multiset<nat>, kept: multiset<nat>)
    requires Greatest(seen, kept, 0)
    ensures kept == multiset{}
  {
  }

  /**
   After an eviction minHeight need not be the least height in the queue: with
   room for one block, inserting heights 1 and then 2 leaves 1 as minHeight.
   */
  method MinHeightGoesStale() returns (pq: BlockPriorityQueue)
    ensures pq.Valid() && pq.hs == [2] && pq.minHeight == 1
  {
    hide IsHeap, BlockPriorityQueue.Indexed, Within, Greatest, Offered, Changed;
    pq := new BlockPriorityQueue(1);
    var _, _ := pq.Insert(BlockData(Some(Tag(1, 7)), None));
    assert pq.offered == multiset{1};
    OnlyKept(pq.hs, multiset{1}, 1);
    pq.RootFacts();
    assert pq.admitted == {1};
    var _, _ := pq.Insert(BlockData(Some(Tag(2, 8)), None));
    assert pq.offered == multiset{1, 2} && pq.admitted == {1, 2};
    LeastTaken(pq.minHeight, pq.maxHeight, multiset(pq.hs));
    OnlyKept(pq.hs, multiset{1, 2}, 2);
  }

  /**
   Evicting from a full queue whose minHeight is its least height leaves it so
   if and only if another block has that height too.
   */
  lemma MinStaysExactIff(lo: nat, hi: int, taken: set<nat>, kept: multiset<nat>, h: nat)
    requires Within(lo, hi, taken, kept) && lo in kept && lo < h
    ensures (exists y :: y in kept - multiset{lo} + multiset{h} && y <= Min(lo, h)) <==> kept[lo] >= 2
  {
    var kept' := kept - multiset{lo} + multiset{h};
    forall y | y in kept' ensures y >= lo && (y == lo ==> kept[lo] >= 2) {
      assert y == h || y in kept;
    }
    assert kept[lo] >= 2 ==> lo in kept';
  }

  lemma LeastTaken(lo: int, hi: int, heights: multiset<nat>)
    requires Within(lo, hi, {1, 2}, heights)
    ensures lo == 1
  {
    assert 1 in {1, 2};
  }

  lemma OnlyKept(hs: seq<nat>, seen: multiset<nat>, h: nat)
    requires Greatest(seen, multiset(hs), 1)
    requires h in seen && forall x :: x in seen ==> x <= h
    ensures hs == [h]
  {
    assert |seen - multiset{h}| == |seen| - 1;
    assert Greatest(seen, multiset{h}, 1);
    GreatestUnique(seen, multiset(hs), multiset{h}, 1);
    assert |hs| == |multiset(hs)|;
    assert hs[0] in multiset(hs);
  }
}
