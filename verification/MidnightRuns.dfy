/**
 Blocks exactly at midnight. A call of Lengthen leaves them out of the first day
 it adds, so the days depend on where the calls fell.
 */
module MidnightRuns {
  import opened DayBins
  import opened Charts
  import opened ChartRuns

  /** How many days there are, and which of them were the first that a call added. */
  datatype Added = Added(k: nat, seams: set<nat>)

  ghost predicate SeamsFit(s: Added) {
    (forall j :: j in s.seams ==> j < s.k) && (s.k > 0 ==> 0 in s.seams)
  }

  /** What a call of Lengthen adds. */
  function CallNext(times: seq<nat>, s: Added): Added
    requires times != []
  {
    if s.k + 1 < Span(times) then Added(Span(times), s.seams + {s.k}) else s
  }

  /** Day j of the chain, counted from its first. */
  function BinAt(times: seq<nat>, seams: set<nat>, j: nat): Bin
    requires times != []
  {
    var d := FirstDay(times) + j;
    if j in seams then LateBin(times, d) else DayBin(times, d)
  }

  /** The first k days; those at the seams lack the blocks exactly at their beginning. */
  function Pattern(times: seq<nat>, seams: set<nat>, k: nat): (bins: seq<Bin>)
    requires times != []
    ensures |bins| == k
  {
    seq(k, j requires 0 <= j < k => BinAt(times, seams, j))
  }

  lemma NewAt(times: seq<nat>, d: nat, e: nat, j: nat)
    requires d < e && j < e - d
    ensures var bins := [LateBin(times, d)] + DaysFrom(times, d + 1, e);
            |bins| == e - d && bins[j] == if j == 0 then LateBin(times, d) else DayBin(times, d + j)
  {
    hide LateBin, DayBin;
    DaysFromLength(times, d + 1, e);
    if j > 0 {
      DaysFromAt(times, d + 1, e, j - 1);
    }
  }

  lemma StampOf(times: seq<nat>, seams: set<nat>, k: nat)
    requires times != [] && k > 0
    ensures |Column(Start, [], Pattern(times, seams, k))| == k
    ensures Column(Start, [], Pattern(times, seams, k))[k - 1] == (FirstDay(times) + k - 1) * DAY
  {
    hide Column;
    ColumnAt(Start, [], Pattern(times, seams, k), k - 1);
  }

  /** A call on the first days of a chain gives the first days again, with one more seam if it adds any. */
  lemma CallAdds(times: seq<nat>, s: Added)
    requires Rising(times) && SeamsFit(s) && s.k <= Span(times)
    ensures var bins, s' := Pattern(times, s.seams, s.k), CallNext(times, s);
            && SeamsFit(s') && s'.k <= Span(times)
            && bins + NewBins(times, Column(Start, [], bins)) == Pattern(times, s'.seams, s'.k)
  {
    hide NonDecreasing, EveryDay, NewBins, LateBin, DayBin, DaysFrom, Column, FirstDay, LastDay;
    var bins, s' := Pattern(times, s.seams, s.k), CallNext(times, s);
    var d, e := FirstDay(times) + s.k, LastDay(times);
    if s.k > 0 {
      StampOf(times, s.seams, s.k);
    }
    NewBinsRising(times, Column(Start, [], bins), s.k);
    if s.k + 1 < Span(times) {
      var all := bins + ([LateBin(times, d)] + DaysFrom(times, d + 1, e));
      DaysFromLength(times, d + 1, e);
      forall j | 0 <= j < s'.k ensures all[j] == BinAt(times, s'.seams, j) {
        if j >= s.k {
          NewAt(times, d, e, j - s.k);
        }
      }
      assert all == Pattern(times, s'.seams, s'.k);
    }
  }

  // ----- a longer chain

  lemma FirstMonotone(times: seq<nat>, x: nat, y: nat)
    requires x <= y
    ensures First(times, x) <= First(times, y)
  {
  }

  lemma LateSame(times: seq<nat>, more: seq<nat>, d: nat)
    requires times != [] && times <= more && d < LastDay(times)
    ensures LateBin(more, d) == LateBin(times, d) && LateBin(times, d).lo <= LateBin(times, d).hi < |times|
  {
    hide First;
    var last := |times| - 1;
    DayBinSame(times, more, d);
    assert times[last] >= (d + 1) * DAY >= d * DAY + 1;
    FirstSame(times, more, d * DAY + 1);
    FirstMonotone(times, d * DAY + 1, (d + 1) * DAY);
  }

  lemma BinSame(times: seq<nat>, more: seq<nat>, seams: set<nat>, j: nat)
    requires times != [] && times <= more && FirstDay(times) + j < LastDay(times)
    ensures BinAt(more, seams, j) == BinAt(times, seams, j)
    ensures BinAt(times, seams, j).lo <= BinAt(times, seams, j).hi < |times|
  {
    hide First, LateBin, LastDay;
    var d := FirstDay(times) + j;
    assert times[0] == more[0];
    DayBinSame(times, more, d);
    LateSame(times, more, d);
    FirstMonotone(times, d * DAY, (d + 1) * DAY);
  }

  lemma PatternSame(times: seq<nat>, more: seq<nat>, seams: set<nat>, k: nat)
    requires times != [] && times <= more && k <= Span(times)
    ensures Pattern(more, seams, k) == Pattern(times, seams, k) && InBounds(Pattern(times, seams, k), |times|)
  {
    hide BinAt;
    forall j | 0 <= j < k
      ensures BinAt(more, seams, j) == BinAt(times, seams, j)
      ensures BinAt(times, seams, j).lo <= BinAt(times, seams, j).hi < |times|
    {
      BinSame(times, more, seams, j);
    }
  }

  // ----- runs of calls

  /** The days are those that calls with these seams make of the blocks. */
  ghost predicate Patterned(blocks: ZoomSet, days: ZoomSet, s: Added) {
    && Even(blocks, |blocks.time|) && Rising(blocks.time)
    && SeamsFit(s) && s.k <= Span(blocks.time)
    && days == Binned(blocks, Pattern(blocks.time, s.seams, s.k))
  }

  lemma GrowthPatterned(blocks: ZoomSet, batch: ZoomSet, days: ZoomSet, s: Added)
    requires Patterned(blocks, days, s) && Even(batch, |batch.time|) && Rising(Concat(blocks, batch).time)
    ensures Patterned(Concat(blocks, batch), days, s)
  {
    hide NonDecreasing, EveryDay, Column, Pattern, SeamsFit;
    var more := Concat(blocks, batch);
    ConcatEven(blocks, batch, |blocks.time|, |batch.time|);
    SpanGrows(blocks.time, more.time);
    PatternSame(blocks.time, more.time, s.seams, s.k);
    BinnedSame(blocks, more, |blocks.time|, Pattern(blocks.time, s.seams, s.k));
  }

  lemma CallPatterned(blocks: ZoomSet, days: ZoomSet, s: Added)
    requires Patterned(blocks, days, s)
    ensures Patterned(blocks, Concat(days, Binned(blocks, NewBins(blocks.time, days.time))), CallNext(blocks.time, s))
  {
    hide Even, NonDecreasing, EveryDay, Pattern, SeamsFit, NewBins, Column;
    var bins := Pattern(blocks.time, s.seams, s.k);
    CallAdds(blocks.time, s);
    BinnedSplit(blocks, bins, NewBins(blocks.time, Column(Start, [], bins)));
  }

  lemma NothingCut(blocks: ZoomSet)
    requires Even(blocks, |blocks.time|) && blocks.time != []
    ensures Least(Lengths(blocks)) == |blocks.time| > 0 && Snip(blocks, |blocks.time|) == blocks
  {
    hide Least, AllEqual, Lengths;
    EvenIff(blocks, |blocks.time|);
  }

  datatype Batch = Batch(blocks: ZoomSet, windows: WindowSet)

  ghost predicate LegalBatch(blocks: ZoomSet, b: Batch) {
    Even(b.blocks, |b.blocks.time|) && Rising(Concat(blocks, b.blocks).time) && Least(WindowLengths(b.windows)) > 0
  }

  ghost predicate LegalBatches(blocks: ZoomSet, batches: seq<Batch>)
    decreases |batches|
  {
    batches != [] ==>
      LegalBatch(blocks, batches[0]) && LegalBatches(Concat(blocks, batches[0].blocks), batches[1..])
  }

  /** The seams of a run of calls, one for each batch. */
  ghost function AddedAfter(blocks: ZoomSet, s: Added, batches: seq<Batch>): Added
    requires LegalBatches(blocks, batches)
    decreases |batches|
  {
    if batches == [] then s
    else
      var more := Concat(blocks, batches[0].blocks);
      AddedAfter(more, CallNext(more.time, s), batches[1..])
  }

  /** A batch of blocks and a call. */
  method CallOnce(charts: ChartData, b: Batch, ghost s: Added)
    requires Patterned(charts.blocks, charts.days, s) && LegalBatch(charts.blocks, b)
    modifies charts
    ensures charts.blocks == Concat(old(charts.blocks), b.blocks)
    ensures Patterned(charts.blocks, charts.days, CallNext(charts.blocks.time, s))
  {
    hide Even, Rising, SeamsFit, Binned, NewBins, Concat, Snip, Least, SnipWindows, WindowLengths, Lengths, AllEqual,
         CallNext, Pattern, Patterned;
    PatternedParts(charts.blocks, charts.days, s);
    GrowthPatterned(charts.blocks, b.blocks, charts.days, s);
    charts.blocks := Concat(charts.blocks, b.blocks);
    charts.windows := b.windows;
    PatternedParts(charts.blocks, charts.days, s);
    NothingCut(charts.blocks);
    CallPatterned(charts.blocks, charts.days, s);
    var _ := charts.Lengthen();
  }

  lemma PatternedParts(blocks: ZoomSet, days: ZoomSet, s: Added)
    requires Patterned(blocks, days, s)
    ensures Even(blocks, |blocks.time|) && Rising(blocks.time) && blocks.time != []
  {
  }

  /** Any number of calls, however the blocks are divided among them. */
  method Calls(charts: ChartData, batches: seq<Batch>, ghost s: Added)
    requires Patterned(charts.blocks, charts.days, s) && LegalBatches(charts.blocks, batches)
    modifies charts
    ensures Patterned(charts.blocks, charts.days, AddedAfter(old(charts.blocks), s, batches))
  {
    hide Patterned, LegalBatch, CallNext, Concat;
    ghost var now := s;
    for i := 0 to |batches|
      invariant Patterned(charts.blocks, charts.days, now) && LegalBatches(charts.blocks, batches[i..])
      invariant AddedAfter(charts.blocks, now, batches[i..]) == AddedAfter(old(charts.blocks), s, batches)
    {
      assert batches[i..][0] == batches[i] && batches[i..][1..] == batches[i + 1..];
      LegalTimes(charts.blocks, batches[i]);
      ghost var before := now;
      CallOnce(charts, batches[i], before);
      now := CallNext(charts.blocks.time, before);
    }
  }

  lemma LegalTimes(blocks: ZoomSet, b: Batch)
    requires LegalBatch(blocks, b)
    ensures Concat(blocks, b.blocks).time != []
  {
  }

  // ----- against a single call

  /** A single call over the whole chain has its only seam at the first day. */
  lemma SingleIs(z: ZoomSet)
    requires Rising(z.time) && Span(z.time) >= 2
    ensures SingleCall(z) == Binned(z, Pattern(z.time, {0}, Span(z.time)))
  {
    hide NonDecreasing, EveryDay, Binned, NewBins, BinAt;
    CallAdds(z.time, Added(0, {}));
    var none := Pattern(z.time, {}, 0);
    assert none == [] && Column(Start, [], none) == [];
    assert none + NewBins(z.time, []) == NewBins(z.time, []);
    assert CallNext(z.time, Added(0, {})) == Added(Span(z.time), {0});
  }

  /** The first k days of a single call. */
  lemma SingleStart(z: ZoomSet, k: nat)
    requires Rising(z.time) && Span(z.time) >= 2 && k <= Span(z.time)
    ensures Snip(SingleCall(z), k) == Binned(z, Pattern(z.time, {0}, k))
  {
    hide NonDecreasing, EveryDay, Column, BinAt, SingleCall;
    SingleIs(z);
    var all := Pattern(z.time, {0}, Span(z.time));
    assert all == Pattern(z.time, {0}, k) + all[k..];
    BinnedSplit(z, Pattern(z.time, {0}, k), all[k..]);
    SnipConcat(Binned(z, Pattern(z.time, {0}, k)), Binned(z, all[k..]), k);
  }

  /** Some block is exactly at the beginning of day d. */
  ghost predicate BlockAtMidnight(times: seq<nat>, d: nat) {
    exists i :: 0 <= i < |times| && times[i] == d * DAY
  }

  lemma MidnightIsFirst(times: seq<nat>, d: nat)
    requires Rising(times) && d < LastDay(times)
    ensures First(times, d * DAY) < |times|
    ensures BlockAtMidnight(times, d) <==> times[First(times, d * DAY)] == d * DAY
  {
    hide First;
    var i := First(times, d * DAY);
    assert times[|times| - 1] >= d * DAY;
    if BlockAtMidnight(times, d) {
      var j :| 0 <= j < |times| && times[j] == d * DAY;
      assert i <= j;
      assert times[i] <= times[j];
    }
  }

  /** No day that a later call began with has a block exactly at its beginning. */
  ghost predicate CleanSeams(times: seq<nat>, s: Added)
    requires times != []
  {
    forall j :: j in s.seams && j > 0 ==> !BlockAtMidnight(times, FirstDay(times) + j)
  }

  /** The days are the first of a single call's, whatever the blocks hold. */
  ghost predicate AlwaysAgree(times: seq<nat>, s: Added)
    requires times != []
  {
    forall z :: Agrees(z, times, s)
  }

  ghost predicate Agrees(z: ZoomSet, times: seq<nat>, s: Added)
    requires times != []
  {
    Even(z, |times|) && z.time == times ==>
      Binned(z, Pattern(times, s.seams, s.k)) == Snip(SingleCall(z), s.k)
  }

  /**
   The days of any run of calls are the first of those of a single call, whatever
   the blocks hold, if and only if no day that a later call began with has a block
   exactly at its beginning.
   */
  lemma AgreeIff(times: seq<nat>, s: Added)
    requires Rising(times) && SeamsFit(s) && s.k <= Span(times) && Span(times) >= 2
    ensures AlwaysAgree(times, s) <==> CleanSeams(times, s)
  {
    hide NonDecreasing, EveryDay, Agrees, SeamsFit;
    if CleanSeams(times, s) {
      forall z ensures Agrees(z, times, s) {
        CleanAgrees(times, s, z);
      }
    } else {
      SeamsBelow(s);
      var j :| j in s.seams && j > 0 && BlockAtMidnight(times, FirstDay(times) + j);
      SeamShows(times, s, j);
      var z := OneAt(times, First(times, (FirstDay(times) + j) * DAY));
      assert !Agrees(z, times, s);
    }
  }

  lemma SeamsBelow(s: Added)
    requires SeamsFit(s)
    ensures forall j :: j in s.seams ==> j < s.k
  {
  }

  lemma CleanAgrees(times: seq<nat>, s: Added, z: ZoomSet)
    requires Rising(times) && SeamsFit(s) && s.k <= Span(times) && Span(times) >= 2 && CleanSeams(times, s)
    ensures Agrees(z, times, s)
  {
    hide NonDecreasing, EveryDay, Binned, SingleCall, Snip, First, BlockAtMidnight, LateBin, DayBin;
    forall j | 0 <= j < s.k ensures BinAt(times, s.seams, j) == BinAt(times, {0}, j) {
      if j > 0 && j in s.seams {
        MidnightIsFirst(times, FirstDay(times) + j);
        LateIsWhole(times, FirstDay(times) + j);
      }
    }
    assert Pattern(times, s.seams, s.k) == Pattern(times, {0}, s.k);
    if Even(z, |times|) && z.time == times {
      SingleStart(z, s.k);
    }
  }

  /** Blocks with nothing in them but one transaction in block i. */
  function OneAt(times: seq<nat>, i: nat): ZoomSet {
    Blank(times).(txCount := seq(|times|, k => if k == i then 1 else 0))
  }

  lemma {:induction false} TotalNone(s: seq<nat>)
    requires forall i :: 0 <= i < |s| ==> s[i] == 0
    ensures Total(s) == 0
  {
    if s != [] {
      TotalNone(s[..|s| - 1]);
    }
  }

  lemma OneCounted(s: seq<nat>, i: nat, lo: nat, hi: nat)
    requires i < lo && hi <= |s| && forall k :: 0 <= k < |s| ==> s[k] == if k == i then 1 else 0
    requires i < hi
    ensures RangeSum(s, lo, hi) == 0 && RangeSum(s, i, hi) == 1
  {
    hide Total;
    if lo < hi {
      TotalNone(s[lo..hi]);
    }
    TotalNone(s[i + 1..hi]);
    assert s[i..hi] == [1] + s[i + 1..hi];
    TotalSplit([1], s[i + 1..hi]);
    TotalOne(1);
  }

  /** The transaction is in its day for a single call, and in none for the call that began with the day. */
  lemma SeamShows(times: seq<nat>, s: Added, j: nat)
    requires Rising(times) && SeamsFit(s) && s.k <= Span(times) && Span(times) >= 2
    requires j in s.seams && 0 < j < s.k && BlockAtMidnight(times, FirstDay(times) + j)
    ensures !Agrees(OneAt(times, First(times, (FirstDay(times) + j) * DAY)), times, s)
  {
    hide NonDecreasing, EveryDay, First, SingleCall, Snip, RangeSum, Column, BlockAtMidnight;
    var d := FirstDay(times) + j;
    MidnightIsFirst(times, d);
    var i := First(times, d * DAY);
    var z := OneAt(times, i);
    LateSame(times, times, d);
    DayBinSame(times, times, d);
    LateIsWhole(times, d);
    FirstMonotone(times, d * DAY, d * DAY + 1);
    assert First(times, (d + 1) * DAY) != i;
    FirstMonotone(times, d * DAY, (d + 1) * DAY);
    OneCounted(z.txCount, i, LateBin(times, d).lo, DayBin(times, d).hi);
    SingleStart(z, s.k);
    ColumnAt(Sums, z.txCount, Pattern(times, s.seams, s.k), j);
    ColumnAt(Sums, z.txCount, Pattern(times, {0}, s.k), j);
    assert Binned(z, Pattern(times, s.seams, s.k)).txCount[j] != Binned(z, Pattern(times, {0}, s.k)).txCount[j];
  }

  /** Five blocks on five days, the third at midnight: calls after three of them and at the end differ from one call. */
  lemma MidnightSplits()
    ensures var times := [1, DAY + 1, 2 * DAY, 3 * DAY + 1, 4 * DAY + 1];
            var s := CallNext(times, CallNext(times[..3], Added(0, {})));
            && Rising(times) && Rising(times[..3]) && s == Added(4, {0, 2})
            && !AlwaysAgree(times, s)
  {
    hide AlwaysAgree;
    var times := [1, DAY + 1, 2 * DAY, 3 * DAY + 1, 4 * DAY + 1];
    var early := times[..3];
    assert early == [1, DAY + 1, 2 * DAY];
    var s := CallNext(times, CallNext(early, Added(0, {})));
    assert s == Added(4, {0, 2});
    assert times[2] == (FirstDay(times) + 2) * DAY;
    AgreeIff(times, s);
  }
}
