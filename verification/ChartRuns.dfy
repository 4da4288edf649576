/** Days kept a few blocks at a time against the days of the whole chain, over runs of updates and reorganisations. */
module ChartRuns {
  import opened Widths
  import opened DayBins
  import opened Charts

  // ----- any block times

  /** Equal day lengths stay equal, so Lengthen cannot report a mismatch and a reorganisation keeps them so. */
  lemma DaysStayEven(blocks: ZoomSet, days: ZoomSet, bins: seq<Bin>, k: nat)
    requires Even(days, k)
    ensures Even(Concat(days, Binned(blocks, bins)), k + |bins|)
    ensures AllEqual(Lengths(Concat(days, Binned(blocks, bins))))
    ensures Even(Snip(days, k - 2), TwoFewer(k))
  {
    hide Column, AllEqual, Least, Lengths;
    ConcatEven(days, Binned(blocks, bins), k, |bins|);
    EvenIff(Concat(days, Binned(blocks, bins)), k + |bins|);
    if k >= 2 {
      SnipPrefix(days, k, k - 2);
    }
  }

  /** The days a call adds account for every unit of a summed series over the blocks they cover. */
  lemma NewDaysConserve(times: seq<nat>, days: seq<nat>, s: seq<nat>)
    requires times != [] && |s| == |times|
    ensures var bins, from := NewBins(times, days), Offset(times, StartOf(times, days));
            && from <= LastHi(bins, from) <= |s|
            && Total(Column(Sums, s, bins)) % TWO_64 == Total(s[from..LastHi(bins, from)]) % TWO_64
  {
    hide Column, Total, NewBins;
    NewBinsContiguous(times, days);
    var bins, from := NewBins(times, days), Offset(times, StartOf(times, days));
    Conserved(s, bins, from, LastHi(bins, from));
  }

  // ----- regular block times

  function Span(times: seq<nat>): int
    requires times != []
  {
    LastDay(times) - FirstDay(times)
  }

  /** The first k days of the chain. */
  function FirstDays(blocks: ZoomSet, k: nat): ZoomSet
    requires blocks.time != []
  {
    Binned(blocks, DaysFrom(blocks.time, FirstDay(blocks.time), FirstDay(blocks.time) + k))
  }

  ghost predicate GoodBlocks(blocks: ZoomSet) {
    Even(blocks, |blocks.time|) && Regular(blocks.time)
  }

  /** The days present are the first days of the chain, all of them over. */
  ghost predicate Follows(blocks: ZoomSet, days: ZoomSet) {
    && GoodBlocks(blocks)
    && |days.time| <= Span(blocks.time)
    && days == FirstDays(blocks, |days.time|)
  }

  lemma {:induction false} DaysFromLength(times: seq<nat>, d: nat, e: nat)
    ensures |DaysFrom(times, d, e)| == if e <= d then 0 else e - d
    decreases e - d
  {
    hide DayBin;
    if d < e {
      DaysFromLength(times, d + 1, e);
    }
  }

  lemma FirstDaysLength(blocks: ZoomSet, k: nat)
    requires blocks.time != []
    ensures Even(FirstDays(blocks, k), k)
  {
    DaysFromLength(blocks.time, FirstDay(blocks.time), FirstDay(blocks.time) + k);
  }

  lemma LastStamp(blocks: ZoomSet, k: nat)
    requires blocks.time != [] && k > 0
    ensures |FirstDays(blocks, k).time| == k
    ensures FirstDays(blocks, k).time[k - 1] == (FirstDay(blocks.time) + k - 1) * DAY
  {
    hide Column;
    var d := FirstDay(blocks.time);
    FirstDaysLength(blocks, k);
    DaysFromAt(blocks.time, d, d + k, k - 1);
    ColumnAt(Start, [], DaysFrom(blocks.time, d, d + k), k - 1);
  }

  /** How many days a call leaves, from k. */
  function DaysAfter(span: int, k: nat): int { if k + 1 < span then span else k }

  /** A call of Lengthen makes the days complete, or leaves them if at most one is missing. */
  lemma LengthenFollows(blocks: ZoomSet, days: ZoomSet)
    requires Follows(blocks, days)
    ensures var days' := Concat(days, Binned(blocks, NewBins(blocks.time, days.time)));
            && |days'.time| == DaysAfter(Span(blocks.time), |days.time|)
            && Follows(blocks, days')
  {
    hide Column, Even, NonDecreasing, NoMidnight, EveryDay, NewBins, DaysFrom, Binned, Concat;
    var times, k := blocks.time, |days.time|;
    var d, e := FirstDay(times), LastDay(times);
    if k > 0 {
      LastStamp(blocks, k);
    }
    NewBinsRegular(times, days.time, k);
    if d + k + 1 < e {
      DaysFromSplit(times, d, d + k, e);
      BinnedSplit(blocks, DaysFrom(times, d, d + k), DaysFrom(times, d + k, e));
      assert d + (e - d) == e;
      FirstDaysLength(blocks, e - d);
      EvenTime(FirstDays(blocks, e - d), e - d);
    } else {
      NoBins(blocks, days);
    }
  }

  /** What a single call would make of the chain, starting from no days. */
  function SingleCall(blocks: ZoomSet): ZoomSet
    requires blocks.time != []
  {
    Binned(blocks, NewBins(blocks.time, []))
  }

  lemma SingleCallIs(blocks: ZoomSet)
    requires GoodBlocks(blocks) && Span(blocks.time) >= 0
    ensures SingleCall(blocks) == FirstDays(blocks, if Span(blocks.time) >= 2 then Span(blocks.time) else 0)
  {
    hide Column, Even, NonDecreasing, NoMidnight, EveryDay, NewBins, Binned, DaysFrom, FirstDay, LastDay;
    NewBinsRegular(blocks.time, [], 0);
    DaysFromLength(blocks.time, FirstDay(blocks.time), FirstDay(blocks.time));
    assert FirstDay(blocks.time) + Span(blocks.time) == LastDay(blocks.time);
  }

  lemma FewerDays(blocks: ZoomSet, k: nat, n: nat)
    requires blocks.time != [] && k <= n
    ensures FirstDays(blocks, k) == Snip(FirstDays(blocks, n), k)
    ensures Prefix(FirstDays(blocks, k), FirstDays(blocks, n))
  {
    hide Column;
    var d := FirstDay(blocks.time);
    DaysFromSplit(blocks.time, d, d + k, d + n);
    var rest := DaysFrom(blocks.time, d + k, d + n);
    BinnedSplit(blocks, DaysFrom(blocks.time, d, d + k), rest);
    FirstDaysLength(blocks, k);
    SnipConcat(FirstDays(blocks, k), Binned(blocks, rest), k);
  }

  /** No day is present unless two are over. */
  predicate Settled(blocks: ZoomSet, days: ZoomSet)
    requires blocks.time != []
  {
    |days.time| > 0 ==> Span(blocks.time) >= 2
  }

  /**
   After Lengthen the days are the beginning of what a single call would give,
   and lag it by at most a day.
   */
  lemma LagsByOne(blocks: ZoomSet, days: ZoomSet)
    requires Follows(blocks, days) && Settled(blocks, days)
    requires |days.time| == DaysAfter(Span(blocks.time), |days.time|)
    ensures Prefix(days, SingleCall(blocks))
    ensures |days.time| <= |SingleCall(blocks).time| <= |days.time| + 1
  {
    hide Column, Even, NonDecreasing, NoMidnight, EveryDay, NewBins, Prefix, SingleCall, FirstDays;
    SingleCallIs(blocks);
    var n := if Span(blocks.time) >= 2 then Span(blocks.time) else 0;
    FewerDays(blocks, |days.time|, n);
    FirstDaysLength(blocks, n);
    EvenTime(FirstDays(blocks, n), n);
  }

  lemma EvenTime(z: ZoomSet, n: nat)
    requires Even(z, n)
    ensures |z.time| == n
  {
  }

  // ----- longer and shorter chains

  lemma DaysInBounds(times: seq<nat>, d: nat, e: nat)
    requires times != [] && NonDecreasing(times) && e <= LastDay(times)
    ensures InBounds(DaysFrom(times, d, e), |times|)
  {
    hide DayBin, DaysFrom;
    DaysFromSame(times, times, d, e);
    forall k | 0 <= k < |DaysFrom(times, d, e)|
      ensures DaysFrom(times, d, e)[k].lo <= DaysFrom(times, d, e)[k].hi
    {
      DaysFromLength(times, d, e);
      DaysFromAt(times, d, e, k);
      DayOrdered(times, d + k);
    }
  }

  lemma DayOrdered(times: seq<nat>, d: nat)
    ensures DayBin(times, d).lo <= DayBin(times, d).hi
  {
  }

  /** The first k days of a chain do not change as it grows, once they are over. */
  lemma FirstDaysSame(blocks: ZoomSet, more: ZoomSet, k: nat)
    requires GoodBlocks(blocks) && Prefix(blocks, more) && k <= Span(blocks.time)
    ensures more.time != [] && FirstDays(more, k) == FirstDays(blocks, k)
  {
    hide Column, EveryDay, NoMidnight, DaysFrom;
    var times, d := blocks.time, FirstDay(blocks.time);
    assert times[0] == more.time[0];
    DaysFromSame(times, more.time, d, d + k);
    DaysInBounds(times, d, d + k);
    BinnedSame(blocks, more, |times|, DaysFrom(times, d, d + k));
  }

  lemma SpanGrows(times: seq<nat>, more: seq<nat>)
    requires times != [] && times <= more && NonDecreasing(more)
    ensures FirstDay(more) == FirstDay(times) && 0 <= Span(times) <= Span(more)
  {
    assert more[0] <= more[|times| - 1] <= more[|more| - 1];
    assert times[0] == more[0] && times[|times| - 1] == more[|times| - 1];
  }

  /** Days that follow a chain follow any longer one. */
  lemma GrowthFollows(blocks: ZoomSet, more: ZoomSet, days: ZoomSet)
    requires Follows(blocks, days) && Prefix(blocks, more) && GoodBlocks(more)
    ensures Follows(more, days) && Span(blocks.time) <= Span(more.time)
  {
    hide Column, EveryDay, NoMidnight, DaysFrom, Even, FirstDays;
    TimePrefix(blocks, more);
    SpanGrows(blocks.time, more.time);
    FirstDaysSame(blocks, more, |days.time|);
  }

  lemma TimePrefix(a: ZoomSet, b: ZoomSet)
    requires Prefix(a, b)
    ensures a.time <= b.time
  {
  }

  lemma RegularPrefix(times: seq<nat>, m: nat)
    requires Regular(times) && 0 < m <= |times|
    ensures Regular(times[..m])
  {
    var cut := times[..m];
    forall i | 0 < i < |cut| ensures SkipsNoDay(cut, i) {
      assert SkipsNoDay(times, i);
    }
  }

  /** How many days are left when the two last are cut. */
  function TwoFewer(k: nat): nat { if k < 2 then 0 else k - 2 }

  /**
   ReorgHandler cuts two days. They follow the shorter chain if and only if no
   more days than that are undone.
   */
  lemma ReorgFollowsIff(blocks: ZoomSet, days: ZoomSet, m: nat)
    requires Follows(blocks, days) && 0 < m <= |blocks.time|
    ensures var k := |days.time|;
            && Snip(blocks, m).time == blocks.time[..m]
            && (Follows(Snip(blocks, m), Snip(days, k - 2)) <==> TwoFewer(k) <= Span(blocks.time[..m]))
  {
    hide Column, Regular, DaysFrom, FirstDays;
    var k, cut := |days.time|, Snip(blocks, m);
    var j := TwoFewer(k);
    SnipPrefix(blocks, |blocks.time|, m);
    RegularPrefix(blocks.time, m);
    FirstDaysLength(blocks, k);
    FewerDays(blocks, j, k);
    assert Snip(days, k - 2) == Snip(days, j);
    if j <= Span(cut.time) {
      FirstDaysSame(cut, blocks, j);
    }
  }

  /** The days kept are the first days of every chain that grows from the blocks kept. */
  ghost predicate RightFor(kept: ZoomSet, blocks: ZoomSet) {
    forall more :: Prefix(blocks, more) && GoodBlocks(more) && |kept.time| <= Span(more.time) ==>
      kept == FirstDays(more, |kept.time|)
  }

  lemma LastHeightOf(blocks: ZoomSet, k: nat, i: nat)
    requires blocks.time != [] && i < k
    ensures |FirstDays(blocks, k).height| == k
    ensures FirstDays(blocks, k).height[i] == (DayBin(blocks.time, FirstDay(blocks.time) + i).hi - 1) % TWO_64
  {
    hide DayBin, Column;
    var d := FirstDay(blocks.time);
    DaysFromAt(blocks.time, d, d + k, i);
    ColumnAt(LastHeight, [], DaysFrom(blocks.time, d, d + k), i);
  }

  function Zeros(n: nat): seq<nat> { seq(n, _ => 0) }

  /** Blocks with these times, and nothing in them. */
  function Blank(times: seq<nat>): ZoomSet {
    var z := Zeros(|times|);
    ZoomSet(z, times, z, z, z, z, z, z, z, z, z)
  }

  /** A chain that grows from the first m blocks as `blocks` does, but with one more block on the day of the last. */
  lemma TwinChain(blocks: ZoomSet, m: nat) returns (more: ZoomSet)
    requires GoodBlocks(blocks) && 0 < m < |blocks.time|
    ensures GoodBlocks(more) && Prefix(Snip(blocks, m), more) && more.time == Twin(blocks.time, m)
  {
    hide Regular;
    var times := blocks.time;
    var rest := Blank([times[m - 1]] + times[m..]);
    SnipPrefix(blocks, |times|, m);
    more := Concat(Snip(blocks, m), rest);
    ConcatEven(Snip(blocks, m), rest, m, |times| - m + 1);
    assert more.time == Twin(times, m);
    TwinRegular(times, m);
  }

  /** If more days than the shorter chain has are kept, it can grow into one that they are wrong for. */
  lemma TwinDiffers(blocks: ZoomSet, m: nat, j: nat)
    requires GoodBlocks(blocks) && 0 < m <= |blocks.time| && Span(blocks.time[..m]) < j <= Span(blocks.time)
    ensures !RightFor(FirstDays(blocks, j), Snip(blocks, m))
  {
    hide GoodBlocks, FirstDays, DayBin, Prefix, Snip;
    var times, kept := blocks.time, FirstDays(blocks, j);
    GoodRegular(blocks);
    assert m < |times| by {
      assert times[..|times|] == times;
    }
    var more := TwinChain(blocks, m);
    TwinRegular(times, m);
    TwinCount(times, m);
    var i := Span(times[..m]);
    SpanGrows(times[..m], times);
    LastHeightOf(blocks, j, i);
    LastHeightOf(more, j, i);
    FirstDaysLength(blocks, j);
    EvenTime(kept, j);
    assert kept != FirstDays(more, j);
  }

  lemma GoodRegular(blocks: ZoomSet)
    requires GoodBlocks(blocks)
    ensures Regular(blocks.time) && NonDecreasing(blocks.time)
  {
  }

  /**
   Against every way the chain may grow after the reorganisation: the days kept
   are right for all of them if and only if no more than two days are undone.
   */
  lemma ReorgRightIff(blocks: ZoomSet, days: ZoomSet, m: nat)
    requires Follows(blocks, days) && 0 < m <= |blocks.time|
    ensures var k := |days.time|;
            RightFor(Snip(days, k - 2), Snip(blocks, m)) <==> TwoFewer(k) <= Span(blocks.time[..m])
  {
    hide Even, NonDecreasing, NoMidnight, EveryDay, FirstDays, Prefix, Snip;
    var k, cut := |days.time|, Snip(blocks, m);
    var j := TwoFewer(k);
    var kept := Snip(days, k - 2);
    ReorgFollowsIff(blocks, days, m);
    FewerDays(blocks, j, k);
    SameCut(days, k);
    FirstDaysLength(blocks, j);
    EvenTime(kept, j);
    if j <= Span(blocks.time[..m]) {
      forall more | Prefix(cut, more) && GoodBlocks(more) && j <= Span(more.time)
        ensures kept == FirstDays(more, j)
      {
        FirstDaysSame(cut, more, j);
      }
    } else {
      TwinDiffers(blocks, m, j);
    }
  }

  lemma SameCut(days: ZoomSet, k: nat)
    ensures Snip(days, k - 2) == Snip(days, TwoFewer(k))
  {
  }

  /** Four blocks on four days, three of them binned: cutting back to the first block leaves a day too many. */
  lemma ThreeDaysUndone()
    ensures var blocks := Blank([1, DAY + 1, 2 * DAY + 1, 3 * DAY + 1]);
            var days := FirstDays(blocks, 3);
            && Follows(blocks, days) && |days.time| == 3
            && !Follows(Snip(blocks, 1), Snip(days, 1)) && !RightFor(Snip(days, 1), Snip(blocks, 1))
  {
    hide FirstDays, Snip, RightFor;
    var blocks := Blank([1, DAY + 1, 2 * DAY + 1, 3 * DAY + 1]);
    FirstDaysLength(blocks, 3);
    EvenTime(FirstDays(blocks, 3), 3);
    assert Regular(blocks.time);
    ReorgFollowsIff(blocks, FirstDays(blocks, 3), 1);
    ReorgRightIff(blocks, FirstDays(blocks, 3), 1);
  }

  // ----- runs

  /** What the updaters and the chain monitor do to the cache. */
  datatype Event =
    | NewBlocks(batch: ZoomSet, windows: WindowSet)
    | Reorg(newChainHeight: int, newChainLen: nat)

  function BlocksAfter(blocks: ZoomSet, e: Event): ZoomSet {
    match e
    case NewBlocks(batch, _) => Concat(blocks, batch)
    case Reorg(height, len) => Snip(blocks, height - len + 1)
  }

  /** New blocks keep the times regular; a reorganisation keeps a block and undoes at most two of the k days. */
  ghost predicate Legal(blocks: ZoomSet, k: nat, e: Event) {
    match e
    case NewBlocks(batch, windows) =>
      Even(batch, |batch.time|) && Regular(Concat(blocks, batch).time) && Least(WindowLengths(windows)) > 0
    case Reorg(height, len) =>
      var m := height - len + 1;
      0 < m <= |blocks.time| && TwoFewer(k) <= Span(blocks.time[..m])
  }

  /** How many days there are after an event, from k. */
  ghost function DaysNext(blocks: ZoomSet, k: nat, e: Event): (n: nat)
    requires Legal(blocks, k, e)
  {
    match e
    case NewBlocks(batch, _) =>
      var n := DaysAfter(Span(Concat(blocks, batch).time), k);
      if n < 0 then 0 else n
    case Reorg(_, _) => TwoFewer(k)
  }

  ghost predicate LegalRun(blocks: ZoomSet, k: nat, events: seq<Event>)
    decreases |events|
  {
    events != [] ==>
      Legal(blocks, k, events[0]) &&
      LegalRun(BlocksAfter(blocks, events[0]), DaysNext(blocks, k, events[0]), events[1..])
  }

  /** One event, followed by Lengthen if blocks were added. */
  method Handle(charts: ChartData, e: Event)
    requires Follows(charts.blocks, charts.days) && Legal(charts.blocks, |charts.days.time|, e)
    modifies charts
    ensures charts.blocks == BlocksAfter(old(charts.blocks), e)
    ensures |charts.days.time| == DaysNext(old(charts.blocks), |old(charts.days.time)|, e)
    ensures Follows(charts.blocks, charts.days)
    ensures e.NewBlocks? ==> Span(charts.blocks.time) - 1 <= |charts.days.time| <= Span(charts.blocks.time)
    ensures e.NewBlocks? && Settled(old(charts.blocks), old(charts.days)) ==> Settled(charts.blocks, charts.days)
  {
    hide Column, Even, Regular, Binned, FirstDays, NewBins, Concat, Snip, Least, SnipWindows, WindowLengths, Lengths,
         AllEqual;
    match e
    case NewBlocks(batch, windows) =>
      GoodConcat(charts.blocks, batch);
      GrowthFollows(charts.blocks, Concat(charts.blocks, batch), charts.days);
      charts.blocks := Concat(charts.blocks, batch);
      charts.windows := windows;
      GoodLeast(charts.blocks);
      LengthenFollows(charts.blocks, charts.days);
      var _ := charts.Lengthen();
    case Reorg(height, len) =>
      ReorgFollows(charts.blocks, charts.days, height - len + 1);
      charts.ReorgHandler(height, len);
  }

  lemma GoodConcat(blocks: ZoomSet, batch: ZoomSet)
    requires GoodBlocks(blocks) && Even(batch, |batch.time|) && Regular(Concat(blocks, batch).time)
    ensures GoodBlocks(Concat(blocks, batch)) && Prefix(blocks, Concat(blocks, batch))
  {
    ConcatEven(blocks, batch, |blocks.time|, |batch.time|);
  }

  /** Lengthen leaves good blocks as they are. */
  lemma GoodLeast(blocks: ZoomSet)
    requires GoodBlocks(blocks)
    ensures Least(Lengths(blocks)) == |blocks.time| > 0 && Snip(blocks, |blocks.time|) == blocks
  {
    hide Least, AllEqual, Lengths, NonDecreasing, NoMidnight, EveryDay;
    EvenIff(blocks, |blocks.time|);
  }

  lemma ReorgFollows(blocks: ZoomSet, days: ZoomSet, m: nat)
    requires Follows(blocks, days) && 0 < m <= |blocks.time| && TwoFewer(|days.time|) <= Span(blocks.time[..m])
    ensures Follows(Snip(blocks, m), Snip(days, |days.time| - 2))
    ensures |Snip(days, |days.time| - 2).time| == TwoFewer(|days.time|)
  {
    hide Column, Even, NoMidnight, EveryDay, Binned, FirstDays, Snip;
    ReorgFollowsIff(blocks, days, m);
    SnipTime(days);
  }

  lemma SnipTime(days: ZoomSet)
    ensures |Snip(days, |days.time| - 2).time| == TwoFewer(|days.time|)
  {
  }

  /** Over every legal run the days stay the first days of the chain. */
  method Run(charts: ChartData, events: seq<Event>)
    requires Follows(charts.blocks, charts.days) && LegalRun(charts.blocks, |charts.days.time|, events)
    modifies charts
    ensures Follows(charts.blocks, charts.days)
    ensures events != [] && events[|events| - 1].NewBlocks? ==>
              Span(charts.blocks.time) - 1 <= |charts.days.time| <= Span(charts.blocks.time)
    ensures (forall i :: 0 <= i < |events| ==> events[i].NewBlocks?) ==>
              Settled(old(charts.blocks), old(charts.days)) ==> Settled(charts.blocks, charts.days)
  {
    hide Even, NonDecreasing, NoMidnight, EveryDay, FirstDays, Legal, BlocksAfter;
    for i := 0 to |events|
      invariant Follows(charts.blocks, charts.days) && LegalRun(charts.blocks, |charts.days.time|, events[i..])
      invariant i > 0 && events[i - 1].NewBlocks? ==>
                  Span(charts.blocks.time) - 1 <= |charts.days.time| <= Span(charts.blocks.time)
      invariant (forall j :: 0 <= j < i ==> events[j].NewBlocks?) ==>
                  Settled(old(charts.blocks), old(charts.days)) ==> Settled(charts.blocks, charts.days)
    {
      assert events[i..][0] == events[i] && events[i..][1..] == events[i + 1..];
      Handle(charts, events[i]);
    }
  }

  /**
   However blocks arrive, one call of Lengthen for each batch, the days are the
   beginning of what a single call over all the blocks gives, and lag it by at
   most one.
   */
  method AppendOnly(charts: ChartData, events: seq<Event>)
    requires Follows(charts.blocks, charts.days) && charts.days.time == [] && LegalRun(charts.blocks, 0, events)
    requires events != [] && forall i :: 0 <= i < |events| ==> events[i].NewBlocks?
    modifies charts
    ensures charts.blocks.time != [] && Prefix(charts.days, SingleCall(charts.blocks))
    ensures |charts.days.time| <= |SingleCall(charts.blocks).time| <= |charts.days.time| + 1
  {
    hide Even, NonDecreasing, NoMidnight, EveryDay, FirstDays, LegalRun, Prefix, SingleCall;
    Run(charts, events);
    LagsByOne(charts.blocks, charts.days);
  }

  /** A cache with blocks and no days follows its chain, so every run may begin there. */
  lemma StartFollows(blocks: ZoomSet)
    requires GoodBlocks(blocks)
    ensures Follows(blocks, FirstDays(blocks, 0)) && Even(FirstDays(blocks, 0), 0)
  {
    hide Column, Even, NoMidnight, EveryDay, Binned;
    FirstDaysLength(blocks, 0);
    EvenTime(FirstDays(blocks, 0), 0);
    SpanGrows(blocks.time, blocks.time);
  }
}
