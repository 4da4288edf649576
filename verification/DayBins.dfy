/**
 Day bins of the charts cache: which blocks make up each day, and when the days
 added a few at a time agree with the days of the whole chain.
 */
module DayBins {
  const DAY: nat := 86400

  /** The blocks [lo, hi) make up the day that begins at `start`. */
  datatype Bin = Bin(start: nat, lo: nat, hi: nat)

  function DayOf(t: nat): nat { t / DAY }

  /** midnight */
  function Midnight(t: nat): (mid: nat)
    ensures mid == DayOf(t) * DAY
    ensures mid <= t < mid + 24 * 60 * 60 && mid % (24 * 60 * 60) == 0
  {
    if t > 0 then t - t % DAY else 0
  }

  /** Where the scan for new days begins: the first block after `start`, or 0 if there is none. */
  function Offset(times: seq<nat>, start: nat): (i: nat)
    ensures i == 0 || i < |times|
  {
    var i := First(times, start + 1);
    if i < |times| then i else 0
  }

  /** The loop over the blocks: a bin for each block that passes the next midnight, up to one past `end`. */
  function Scan(times: seq<nat>, i: nat, from: nat, start: nat, end: nat): seq<Bin>
    requires i <= |times|
    decreases |times| - i
  {
    if i == |times| then []
    else if times[i] < start + DAY then Scan(times, i + 1, from, start, end)
    else [Bin(start, from, i)] + if times[i] > end then [] else Scan(times, i + 1, i, start + DAY, end)
  }

  lemma ScanUnfold(times: seq<nat>, i: nat, from: nat, start: nat, end: nat)
    requires i < |times|
    ensures Scan(times, i, from, start, end) ==
              if times[i] < start + DAY then Scan(times, i + 1, from, start, end)
              else [Bin(start, from, i)] + if times[i] > end then [] else Scan(times, i + 1, i, start + DAY, end)
  {
  }

  lemma ScanEnd(times: seq<nat>, from: nat, start: nat, end: nat)
    ensures Scan(times, |times|, from, start, end) == []
  {
  }

  /** The day after the last one present, or the day of the first block. */
  function StartOf(times: seq<nat>, days: seq<nat>): nat
    requires times != []
  {
    if days != [] then days[|days| - 1] + DAY else Midnight(times[0])
  }

  /** The bins a call of Lengthen adds, given the block times and the days present. */
  function NewBins(times: seq<nat>, days: seq<nat>): seq<Bin>
    requires times != []
  {
    var start, end := StartOf(times, days), Midnight(times[|times| - 1]);
    var offset := Offset(times, start);
    if end > start + DAY then Scan(times, offset, offset, start, end) else []
  }

  // ----- any block times: the bins are contiguous

  /** The bins cover [from, to) without gap or overlap, in order. */
  predicate Contiguous(bins: seq<Bin>, from: nat, to: nat) {
    if bins == [] then from == to
    else bins[0].lo == from && from <= bins[0].hi && Contiguous(bins[1..], bins[0].hi, to)
  }

  function LastHi(bins: seq<Bin>, from: nat): nat {
    if bins == [] then from else bins[|bins| - 1].hi
  }

  lemma {:induction false} ScanContiguous(times: seq<nat>, i: nat, from: nat, start: nat, end: nat)
    requires from <= i <= |times|
    ensures var bins := Scan(times, i, from, start, end);
            && Contiguous(bins, from, LastHi(bins, from))
            && (forall k :: 0 <= k < |bins| ==> bins[k].start == start + k * DAY && bins[k].lo <= bins[k].hi < |times|)
    decreases |times| - i
  {
    if i < |times| {
      if times[i] < start + DAY {
        ScanContiguous(times, i + 1, from, start, end);
      } else if times[i] <= end {
        ScanContiguous(times, i + 1, i, start + DAY, end);
        var rest := Scan(times, i + 1, i, start + DAY, end);
        var bins := Scan(times, i, from, start, end);
        assert bins == [Bin(start, from, i)] + rest && bins[1..] == rest;
      } else {
        assert Scan(times, i, from, start, end)[1..] == [];
      }
    }
  }

  /** Where the block that ends bin k is looked for. */
  function After(bins: seq<Bin>, k: nat, i: nat): nat
    requires k <= |bins|
  {
    if k == 0 then i else bins[k - 1].hi + 1
  }

  /** From block i on, block hi is the first a day or more after the start. */
  ghost predicate EndsWith(times: seq<nat>, i: nat, start: nat, hi: nat) {
    i <= hi < |times| && times[hi] >= start + DAY && forall j :: i <= j < hi ==> times[j] < start + DAY
  }

  /** No block from i on is a day or more after the start. */
  ghost predicate NoneEnds(times: seq<nat>, i: nat, start: nat) {
    forall j :: i <= j < |times| ==> times[j] < start + DAY
  }

  /** Bin k ends with the next block a day or more after its start, which is not past `end` if a bin follows. */
  ghost predicate IsBin(times: seq<nat>, i: nat, start: nat, end: nat, bins: seq<Bin>, k: nat)
    requires k < |bins|
  {
    EndsWith(times, After(bins, k, i), start + k * DAY, bins[k].hi) && (k + 1 < |bins| ==> times[bins[k].hi] <= end)
  }

  /**
   Which bins the loop finds, for any block times: each ends with the next block a
   day or more after its start, and the last one either ends with a block past
   `end` or is followed by none that would end another.
   */
  ghost predicate IsScan(times: seq<nat>, i: nat, start: nat, end: nat, bins: seq<Bin>) {
    && (forall k :: 0 <= k < |bins| ==> IsBin(times, i, start, end, bins, k))
    && ((bins != [] && bins[|bins| - 1].hi < |times| && times[bins[|bins| - 1].hi] > end)
        || NoneEnds(times, After(bins, |bins|, i), start + |bins| * DAY))
  }

  lemma {:induction false} ScanIs(times: seq<nat>, i: nat, from: nat, start: nat, end: nat)
    requires i <= |times|
    ensures IsScan(times, i, start, end, Scan(times, i, from, start, end))
    decreases |times| - i
  {
    hide Scan, IsScan;
    if i == |times| {
      ScanEnd(times, from, start, end);
      ScanNothing(times, start, end);
    } else {
      ScanUnfold(times, i, from, start, end);
      if times[i] < start + DAY {
        ScanIs(times, i + 1, from, start, end);
        ScanEarlier(times, i, start, end, Scan(times, i + 1, from, start, end));
      } else if times[i] <= end {
        ScanIs(times, i + 1, i, start + DAY, end);
        ScanFirst(times, i, from, start, end, Scan(times, i + 1, i, start + DAY, end));
      } else {
        ScanLast(times, i, from, start, end);
      }
    }
  }

  lemma ScanNothing(times: seq<nat>, start: nat, end: nat)
    ensures IsScan(times, |times|, start, end, [])
  {
  }

  lemma ScanLast(times: seq<nat>, i: nat, from: nat, start: nat, end: nat)
    requires i < |times| && times[i] >= start + DAY && times[i] > end
    ensures IsScan(times, i, start, end, [Bin(start, from, i)] + [])
  {
  }

  lemma ScanEarlier(times: seq<nat>, i: nat, start: nat, end: nat, bins: seq<Bin>)
    requires i < |times| && times[i] < start + DAY && IsScan(times, i + 1, start, end, bins)
    ensures IsScan(times, i, start, end, bins)
  {
    forall k | 0 <= k < |bins| ensures IsBin(times, i, start, end, bins, k) {
      assert IsBin(times, i + 1, start, end, bins, k);
    }
  }

  lemma ScanFirst(times: seq<nat>, i: nat, from: nat, start: nat, end: nat, rest: seq<Bin>)
    requires i < |times| && start + DAY <= times[i] <= end && IsScan(times, i + 1, start + DAY, end, rest)
    ensures IsScan(times, i, start, end, [Bin(start, from, i)] + rest)
  {
    hide NoneEnds;
    var bins := [Bin(start, from, i)] + rest;
    forall k | 0 <= k < |bins| ensures IsBin(times, i, start, end, bins, k) {
      if k > 0 {
        BinLater(times, i, from, start, end, rest, k - 1);
      }
    }
    assert After(bins, |bins|, i) == After(rest, |rest|, i + 1);
    assert start + DAY + |rest| * DAY == start + |bins| * DAY;
  }

  lemma BinLater(times: seq<nat>, i: nat, from: nat, start: nat, end: nat, rest: seq<Bin>, k: nat)
    requires k < |rest| && IsBin(times, i + 1, start + DAY, end, rest, k)
    ensures IsBin(times, i, start, end, [Bin(start, from, i)] + rest, k + 1)
  {
    hide EndsWith;
    var bins := [Bin(start, from, i)] + rest;
    assert bins[k + 1] == rest[k] && After(bins, k + 1, i) == After(rest, k, i + 1);
    assert start + DAY + k * DAY == start + (k + 1) * DAY;
  }

  /** The new bins are contiguous, within the blocks, and name consecutive days. */
  lemma NewBinsContiguous(times: seq<nat>, days: seq<nat>)
    requires times != []
    ensures var bins, start := NewBins(times, days), StartOf(times, days);
            && Contiguous(bins, Offset(times, start), LastHi(bins, Offset(times, start)))
            && forall k :: 0 <= k < |bins| ==> bins[k].start == start + k * DAY && bins[k].lo <= bins[k].hi < |times|
  {
    var start := StartOf(times, days);
    var offset := Offset(times, start);
    ScanContiguous(times, offset, offset, start, Midnight(times[|times| - 1]));
  }

  // ----- regular block times

  /** The number of blocks before the first at or after time x. */
  function First(times: seq<nat>, x: nat): (i: nat)
    ensures i <= |times|
    ensures forall j :: 0 <= j < i ==> times[j] < x
    ensures i < |times| ==> times[i] >= x
  {
    if times == [] || times[0] >= x then 0 else
      var rest := First(times[1..], x);
      assert forall j :: 1 <= j < rest + 1 ==> times[j] == times[1..][j - 1];
      rest + 1
  }

  lemma FirstIs(times: seq<nat>, x: nat, i: nat)
    requires i < |times| && times[i] >= x && forall j :: 0 <= j < i ==> times[j] < x
    ensures First(times, x) == i
  {
  }

  predicate NonDecreasing(times: seq<nat>) {
    forall i, j :: 0 <= i <= j < |times| ==> times[i] <= times[j]
  }

  predicate NoMidnight(times: seq<nat>) {
    forall i :: 0 <= i < |times| ==> times[i] % DAY != 0
  }

  predicate SkipsNoDay(times: seq<nat>, i: int) {
    0 < i < |times| ==> DayOf(times[i]) <= DayOf(times[i - 1]) + 1
  }

  /** Every day from the first block's to the last one's has a block. */
  predicate EveryDay(times: seq<nat>) {
    forall i :: 0 < i < |times| ==> SkipsNoDay(times, i)
  }

  /** Regular times, but for blocks exactly at midnight. */
  predicate Rising(times: seq<nat>) {
    times != [] && NonDecreasing(times) && EveryDay(times)
  }

  predicate Regular(times: seq<nat>) {
    Rising(times) && NoMidnight(times)
  }

  /** Day d with its blocks. */
  function DayBin(times: seq<nat>, d: nat): Bin {
    Bin(d * DAY, First(times, d * DAY), First(times, (d + 1) * DAY))
  }

  /** The days d up to e, each with its blocks. */
  function DaysFrom(times: seq<nat>, d: nat, e: nat): seq<Bin>
    decreases e - d
  {
    if e <= d then [] else [DayBin(times, d)] + DaysFrom(times, d + 1, e)
  }

  lemma {:induction false} DaysFromAt(times: seq<nat>, d: nat, e: nat, k: nat)
    requires d + k < e
    ensures |DaysFrom(times, d, e)| == e - d
    ensures DaysFrom(times, d, e)[k] == DayBin(times, d + k)
    decreases e - d
  {
    hide DayBin;
    if d + 1 < e {
      DaysFromAt(times, d + 1, e, if k == 0 then 0 else k - 1);
    }
  }

  function FirstDay(times: seq<nat>): nat
    requires times != []
  {
    DayOf(times[0])
  }

  function LastDay(times: seq<nat>): nat
    requires times != []
  {
    DayOf(times[|times| - 1])
  }

  lemma ScanStep(times: seq<nat>, i: nat, d: nat)
    requires Rising(times) && FirstDay(times) <= d && i < |times|
    requires forall j :: 0 <= j < i ==> times[j] < (d + 1) * DAY
    requires times[i] >= (d + 1) * DAY
    ensures DayOf(times[i]) == d + 1 <= LastDay(times) && First(times, (d + 1) * DAY) == i
    ensures times[i] > LastDay(times) * DAY ==> d + 1 == LastDay(times)
  {
    FirstIs(times, (d + 1) * DAY, i);
    assert i > 0;
    assert SkipsNoDay(times, i);
    assert times[i] <= times[|times| - 1];
  }

  /** No day ends among times before the next midnight. */
  lemma {:induction false} ScanNone(times: seq<nat>, i: nat, from: nat, start: nat, end: nat)
    requires i <= |times| && forall j :: i <= j < |times| ==> times[j] < start + DAY
    ensures Scan(times, i, from, start, end) == []
    decreases |times| - i
  {
    if i < |times| {
      ScanNone(times, i + 1, from, start, end);
    }
  }

  lemma LastDayOpen(times: seq<nat>, i: nat)
    requires Rising(times) && i < |times|
    ensures times[i] < LastDay(times) * DAY + DAY
  {
    assert times[i] <= times[|times| - 1];
  }

  /** From day d the loop finds exactly the days up to the last; the first of them begins where it was told. */
  lemma {:induction false} ScanRising(times: seq<nat>, i: nat, from: nat, d: nat)
    requires Rising(times) && i <= |times| && FirstDay(times) <= d < LastDay(times)
    requires forall j :: 0 <= j < i ==> times[j] < (d + 1) * DAY
    ensures Scan(times, i, from, d * DAY, LastDay(times) * DAY)
         == [DayBin(times, d).(lo := from)] + DaysFrom(times, d + 1, LastDay(times))
    decreases |times| - i
  {
    hide First, NonDecreasing, EveryDay;
    var last, end := |times| - 1, LastDay(times) * DAY;
    assert times[last] >= (d + 1) * DAY;
    if times[i] < (d + 1) * DAY {
      ScanRising(times, i + 1, from, d);
    } else {
      ScanStep(times, i, d);
      if d + 1 < LastDay(times) {
        ScanRising(times, i + 1, i, d + 1);
      } else {
        forall j | i + 1 <= j < |times| ensures times[j] < end + DAY {
          LastDayOpen(times, j);
        }
        ScanNone(times, i + 1, i, (d + 1) * DAY, end);
      }
    }
  }

  /** The scan begins with the first block of the day just when that block is not exactly at midnight. */
  lemma OffsetIsFirstIff(times: seq<nat>, start: nat)
    requires NonDecreasing(times) && times != [] && times[|times| - 1] > start
    ensures Offset(times, start) == First(times, start) <==> times[First(times, start)] != start
  {
    var last := |times| - 1;
    assert times[last] > start;
    var i := First(times, start);
    assert times[i] >= start;
    if times[i] > start {
      FirstIs(times, start + 1, i);
    } else {
      assert First(times, start + 1) != i;
    }
  }

  /** Day d without the blocks exactly at its beginning. */
  function LateBin(times: seq<nat>, d: nat): Bin {
    DayBin(times, d).(lo := First(times, d * DAY + 1))
  }

  /**
   With the first k days present, a call adds all the days that are over, or, if
   that is at most one, none. The first day it adds lacks the blocks exactly at its
   beginning.
   */
  lemma NewBinsRising(times: seq<nat>, days: seq<nat>, k: nat)
    requires Rising(times) && |days| == k <= LastDay(times) - FirstDay(times)
    requires k > 0 ==> days[k - 1] == (FirstDay(times) + k - 1) * DAY
    ensures var d := FirstDay(times) + k;
            NewBins(times, days) ==
              if d + 1 < LastDay(times) then [LateBin(times, d)] + DaysFrom(times, d + 1, LastDay(times)) else []
  {
    hide First, Scan, DaysFrom, NonDecreasing, EveryDay, StartOf, Offset, DayBin, FirstDay, LastDay, Midnight;
    var d, from := FirstDay(times) + k, First(times, (FirstDay(times) + k) * DAY + 1);
    StartIs(times, days, k);
    DaysApart(d + 1, LastDay(times));
    if d + 1 < LastDay(times) {
      OffsetIs(times, d);
      ScanRising(times, from, from, d);
    }
  }

  lemma StartIs(times: seq<nat>, days: seq<nat>, k: nat)
    requires times != [] && |days| == k && (k > 0 ==> days[k - 1] == (FirstDay(times) + k - 1) * DAY)
    ensures StartOf(times, days) == (FirstDay(times) + k) * DAY
    ensures Midnight(times[|times| - 1]) == LastDay(times) * DAY
  {
  }

  lemma DaysApart(d: nat, e: nat)
    ensures d * DAY < e * DAY <==> d < e
  {
  }

  lemma OffsetIs(times: seq<nat>, d: nat)
    requires times != [] && d < LastDay(times)
    ensures var from := First(times, d * DAY + 1);
            Offset(times, d * DAY) == from < |times| && forall j :: 0 <= j < from ==> times[j] < (d + 1) * DAY
  {
    hide First;
    assert times[|times| - 1] >= (d + 1) * DAY;
  }

  /** A day whose first block is not exactly at its beginning lacks none. */
  lemma LateIsWhole(times: seq<nat>, d: nat)
    requires Rising(times) && d < LastDay(times)
    ensures LateBin(times, d) == DayBin(times, d) <==> times[First(times, d * DAY)] != d * DAY
  {
    assert times[|times| - 1] > d * DAY;
    OffsetIsFirstIff(times, d * DAY);
  }

  /** On regular times no day lacks any. */
  lemma NewBinsRegular(times: seq<nat>, days: seq<nat>, k: nat)
    requires Regular(times) && |days| == k <= LastDay(times) - FirstDay(times)
    requires k > 0 ==> days[k - 1] == (FirstDay(times) + k - 1) * DAY
    ensures NewBins(times, days) ==
            if FirstDay(times) + k + 1 < LastDay(times) then DaysFrom(times, FirstDay(times) + k, LastDay(times)) else []
  {
    hide First, Scan, NewBins, NonDecreasing, EveryDay, LateBin, DayBin;
    var d := FirstDay(times) + k;
    NewBinsRising(times, days, k);
    if d + 1 < LastDay(times) {
      LateIsWhole(times, d);
      assert times[First(times, d * DAY)] % DAY != 0;
    }
  }

  // ----- a longer chain has the same days, and more

  lemma FirstSame(times: seq<nat>, more: seq<nat>, x: nat)
    requires times <= more && First(times, x) < |times|
    ensures First(more, x) == First(times, x)
  {
    var i := First(times, x);
    assert times[i] == more[i];
    forall j | 0 <= j < i ensures more[j] < x {
      assert times[j] == more[j];
    }
    FirstIs(more, x, i);
  }

  lemma DayBinSame(times: seq<nat>, more: seq<nat>, d: nat)
    requires times != [] && times <= more && d < LastDay(times)
    ensures DayBin(more, d) == DayBin(times, d) && DayBin(times, d).hi < |times|
  {
    var last := |times| - 1;
    assert times[last] >= (d + 1) * DAY;
    FirstSame(times, more, d * DAY);
    FirstSame(times, more, (d + 1) * DAY);
  }

  lemma {:induction false} DaysFromSame(times: seq<nat>, more: seq<nat>, d: nat, e: nat)
    requires times != [] && times <= more && e <= LastDay(times)
    ensures DaysFrom(more, d, e) == DaysFrom(times, d, e)
    ensures forall k :: 0 <= k < |DaysFrom(times, d, e)| ==> DaysFrom(times, d, e)[k].hi < |times|
    decreases e - d
  {
    hide DayBin;
    if d < e {
      DayBinSame(times, more, d);
      DaysFromSame(times, more, d + 1, e);
    }
  }

  lemma {:induction false} DaysFromSplit(times: seq<nat>, d: nat, m: nat, e: nat)
    requires d <= m <= e
    ensures DaysFrom(times, d, e) == DaysFrom(times, d, m) + DaysFrom(times, m, e)
    decreases e - d
  {
    hide DayBin;
    if d < m {
      DaysFromSplit(times, d + 1, m, e);
    }
  }

  // ----- a chain with one block more

  /** The times of a chain that has another block right after block m - 1, at the same time. */
  function Twin(times: seq<nat>, m: nat): seq<nat>
    requires 0 < m <= |times|
  {
    times[..m] + [times[m - 1]] + times[m..]
  }

  lemma TwinRegular(times: seq<nat>, m: nat)
    requires Regular(times) && 0 < m < |times|
    ensures Regular(Twin(times, m)) && times[..m] <= Twin(times, m) && |Twin(times, m)| == |times| + 1
    ensures FirstDay(Twin(times, m)) == FirstDay(times) && LastDay(Twin(times, m)) == LastDay(times)
  {
    var twin := Twin(times, m);
    forall i | 0 < i < |twin| ensures SkipsNoDay(twin, i) {
      if i != m {
        assert SkipsNoDay(times, if i < m then i else i - 1);
      }
    }
  }

  /** The day of the added block has one block more, if it is over. */
  lemma TwinCount(times: seq<nat>, m: nat)
    requires Regular(times) && 0 < m < |times| && DayOf(times[m - 1]) < LastDay(times)
    ensures var d := DayOf(times[m - 1]);
            DayBin(Twin(times, m), d).hi == DayBin(times, d).hi + 1
  {
    hide Regular;
    var x := (DayOf(times[m - 1]) + 1) * DAY;
    var i := First(times, x);
    assert times[|times| - 1] >= x > times[m - 1];
    assert m <= i < |times| by {
      assert NonDecreasing(times) by { RegularRises(times); }
    }
    var twin := Twin(times, m);
    forall j | 0 <= j < i + 1 ensures twin[j] < x {
      assert twin[j] == times[if j < m then j else j - 1];
    }
    FirstIs(twin, x, i + 1);
  }

  lemma RegularRises(times: seq<nat>)
    requires Regular(times)
    ensures NonDecreasing(times)
  {
  }
}
