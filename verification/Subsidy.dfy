/**
 The total subsidy of a network. The code sums it one reduction interval at a
 time; the subsidy is a sum over blocks, each using the split variant in force
 at its own height.
 */
module Subsidy {
  import opened Widths

  datatype Split = Original | Dcp0010 | Dcp0012

  /** The parameters and subsidy schedule of a network. */
  datatype Network = Network(
    votesPerBlock: nat, stakeValidationHeight: nat, interval: nat, blockOne: nat,
    work: (nat, Split) -> nat, vote: (nat, Split) -> nat, treasury: nat -> nat)

  /** subsidySum: what the block at height h pays under a split variant. */
  function BlockSubsidy(n: Network, h: nat, v: Split): nat {
    n.work(h, v) + n.vote(h, v) * n.votesPerBlock + n.treasury(h)
  }

  // ----- what the schedule promises

  /** The first height paying what the block at height h pays. */
  function Rung(n: Network, h: nat): nat
    requires n.interval > 0
  {
    if h < n.stakeValidationHeight then 2
    else if h < n.interval then n.stakeValidationHeight
    else h / n.interval * n.interval
  }

  ghost predicate Stepwise(n: Network)
    requires n.interval > 0
  {
    forall h: nat, v :: 2 <= h ==> BlockSubsidy(n, h, v) == BlockSubsidy(n, Rung(n, h), v)
  }

  /** The variants in the order in which they may come into force. */
  function Rank(v: Split): nat {
    match v
    case Original => 0
    case Dcp0010 => 1
    case Dcp0012 => 2
  }

  /** The block at h' under v' comes after the one at h under v: the same variant, or a later one in a later interval. */
  predicate Follows(interval: nat, h: nat, v: Split, h': nat, v': Split)
    requires interval > 0
  {
    interval <= h <= h' && (v == v' || (Rank(v) < Rank(v') && h / interval < h' / interval))
  }

  /** Once a block after the first interval pays nothing, no block that comes after it pays anything. */
  ghost predicate ZeroStaysZero(n: Network)
    requires n.interval > 0
  {
    forall h: nat, v, h': nat, v' ::
      Follows(n.interval, h, v, h', v') && BlockSubsidy(n, h, v) == 0 ==> BlockSubsidy(n, h', v') == 0
  }

  /** No block from height hi on pays anything. */
  ghost predicate Ended(n: Network, hi: nat) {
    2 <= hi && forall h: nat, v :: hi <= h ==> BlockSubsidy(n, h, v) == 0
  }

  /** The subsidy ends with an interval that starts at a height that exists. */
  ghost predicate EndsWith(n: Network, last: nat) {
    last >= 1 && (last - 1) * n.interval < MAX_INT64 && Ended(n, last * n.interval)
  }

  ghost predicate Valid(n: Network) {
    && 2 <= n.stakeValidationHeight <= n.interval <= MAX_INT64 && 2 < n.interval
    && Stepwise(n)
    && ZeroStaysZero(n)
    && exists last :: EndsWith(n, last)
  }

  // ----- sums over blocks

  /** What the blocks from lo up to hi pay, each under its own variant. */
  function Sum(n: Network, splits: nat -> Split, lo: nat, hi: nat): (s: nat)
    decreases hi - lo
  {
    if hi <= lo then 0 else Sum(n, splits, lo, hi - 1) + BlockSubsidy(n, hi - 1, splits(hi - 1))
  }

  lemma {:induction false} SumSplit(n: Network, splits: nat -> Split, lo: nat, mid: nat, hi: nat)
    requires lo <= mid <= hi
    ensures Sum(n, splits, lo, hi) == Sum(n, splits, lo, mid) + Sum(n, splits, mid, hi)
    decreases hi
  {
    hide BlockSubsidy;
    if mid < hi {
      SumSplit(n, splits, lo, mid, hi - 1);
    }
  }

  lemma {:induction false} SumSame(n: Network, a: nat -> Split, b: nat -> Split, lo: nat, hi: nat)
    requires forall h: nat :: lo <= h < hi ==> BlockSubsidy(n, h, a(h)) == BlockSubsidy(n, h, b(h))
    ensures Sum(n, a, lo, hi) == Sum(n, b, lo, hi)
    decreases hi
  {
    hide BlockSubsidy;
    if lo < hi {
      SumSame(n, a, b, lo, hi - 1);
    }
  }

  /** A sum is smaller if no block pays more and one pays less. */
  lemma {:induction false} SumLess(n: Network, a: nat -> Split, b: nat -> Split, lo: nat, hi: nat, at: nat)
    requires forall h: nat :: lo <= h < hi ==> BlockSubsidy(n, h, a(h)) <= BlockSubsidy(n, h, b(h))
    requires lo <= at < hi ==> BlockSubsidy(n, at, a(at)) < BlockSubsidy(n, at, b(at))
    ensures Sum(n, a, lo, hi) <= Sum(n, b, lo, hi)
    ensures lo <= at < hi ==> Sum(n, a, lo, hi) < Sum(n, b, lo, hi)
    decreases hi
  {
    hide BlockSubsidy;
    if lo < hi {
      SumLess(n, a, b, lo, hi - 1, at);
    }
  }

  lemma {:induction false} SumConstant(n: Network, splits: nat -> Split, lo: nat, hi: nat, pay: nat)
    requires lo <= hi
    requires forall h: nat :: lo <= h < hi ==> BlockSubsidy(n, h, splits(h)) == pay
    ensures Sum(n, splits, lo, hi) == pay * (hi - lo)
    decreases hi
  {
    hide BlockSubsidy;
    if lo < hi {
      SumConstant(n, splits, lo, hi - 1, pay);
    }
  }

  lemma {:induction false} SumPastEnd(n: Network, splits: nat -> Split, lo: nat, end: nat, hi: nat)
    requires Ended(n, end) && lo <= end <= hi
    ensures Sum(n, splits, lo, hi) == Sum(n, splits, lo, end)
    decreases hi
  {
    if end < hi {
      SumPastEnd(n, splits, lo, end, hi - 1);
    }
  }

  // ----- the variant of each block

  /** The variant in force at height h; a height of -1 means never. */
  function Active(dcp10: int, dcp12: int, h: nat): Split {
    if dcp12 != -1 && h >= dcp12 then Dcp0012
    else if dcp10 != -1 && h >= dcp10 then Dcp0010
    else Original
  }

  function ActiveSplits(dcp10: int, dcp12: int): nat -> Split {
    (h: nat) => Active(dcp10, dcp12, h)
  }

  datatype Change = Change(activation: int, before: Split, after: Split)

  /** Go's division truncates toward zero. */
  function TruncDiv(a: int, b: nat): int
    requires b > 0
  {
    if a >= 0 then a / b else -(-a / b)
  }

  /** subsidySplitChanges, keyed by interval; the second entry wins a shared key. */
  function Changes(interval: nat, dcp10: int, dcp12: int): map<int, Change>
    requires interval > 0
  {
    map[][TruncDiv(dcp10, interval) := Change(dcp10, Original, Dcp0010)]
         [TruncDiv(dcp12, interval) := Change(dcp12, Dcp0010, Dcp0012)]
  }

  function OrNever(height: int): int { if height == -1 then MAX_INT64 else height }

  /** The variant of an interval that has no change of its own. */
  function IntervalSplit(dcp10: int, dcp12: int, start: nat): Split {
    if start >= OrNever(dcp12) then Dcp0012
    else if start >= OrNever(dcp10) then Dcp0010
    else Original
  }

  /** The variant the code in effect uses for the block at height h. */
  function Coded(interval: nat, dcp10: int, dcp12: int, h: nat): Split
    requires interval > 0
  {
    var i, cs := h / interval, Changes(interval, dcp10, dcp12);
    if i == 0 then Original
    else if i in cs then (if h < cs[i].activation then cs[i].before else cs[i].after)
    else IntervalSplit(dcp10, dcp12, i * interval)
  }

  function CodedSplits(interval: nat, dcp10: int, dcp12: int): nat -> Split
    requires interval > 0
  {
    (h: nat) => Coded(interval, dcp10, dcp12, h)
  }

  // ----- the intervals

  lemma IntervalOf(interval: nat, i: nat, h: nat)
    requires interval > 0
    ensures i * interval <= h < (i + 1) * interval <==> h / interval == i
    ensures h / interval * interval <= h < (h / interval + 1) * interval
  {
    var q, r := h / interval, h % interval;
    assert h == q * interval + r;
    if i < q {
      Ordered(i + 1, q, interval);
    } else if q < i {
      Ordered(q + 1, i, interval);
    }
  }

  lemma Ordered(a: nat, b: nat, m: nat)
    requires a <= b
    ensures a * m <= b * m
  {
  }

  /** A change lies in the interval of its key. */
  lemma ChangePlace(interval: nat, dcp10: int, dcp12: int, i: nat)
    requires interval > 0 && i >= 1 && i in Changes(interval, dcp10, dcp12)
    ensures var c := Changes(interval, dcp10, dcp12)[i];
            i * interval <= c.activation < (i + 1) * interval
  {
    var c := Changes(interval, dcp10, dcp12)[i];
    assert TruncDiv(c.activation, interval) == i;
    assert c.activation >= 0;
    IntervalOf(interval, i, c.activation);
  }

  /** The first interval: blocks before and after voting begins. */
  lemma FirstInterval(n: Network, dcp10: int, dcp12: int)
    requires Valid(n)
    ensures Sum(n, CodedSplits(n.interval, dcp10, dcp12), 2, n.interval)
         == BlockSubsidy(n, 2, Original) * (n.stakeValidationHeight - 2)
            + BlockSubsidy(n, n.stakeValidationHeight, Original) * (n.interval - n.stakeValidationHeight)
  {
    hide BlockSubsidy, ZeroStaysZero, EndsWith, Sum, Changes;
    var splits, sv := CodedSplits(n.interval, dcp10, dcp12), n.stakeValidationHeight;
    SumSplit(n, splits, 2, sv, n.interval);
    forall h: nat | 2 <= h < n.interval
      ensures BlockSubsidy(n, h, splits(h)) == BlockSubsidy(n, if h < sv then 2 else sv, Original)
    {
      IntervalOf(n.interval, 0, h);
      assert BlockSubsidy(n, h, Original) == BlockSubsidy(n, Rung(n, h), Original);
    }
    SumConstant(n, splits, 2, sv, BlockSubsidy(n, 2, Original));
    SumConstant(n, splits, sv, n.interval, BlockSubsidy(n, sv, Original));
  }

  /** Every block of a later interval pays, under one variant, what the first does. */
  lemma SameInterval(n: Network, i: nat, h: nat, v: Split)
    requires Valid(n) && i >= 1 && i * n.interval <= h < (i + 1) * n.interval
    ensures BlockSubsidy(n, h, v) == BlockSubsidy(n, i * n.interval, v)
  {
    hide BlockSubsidy, ZeroStaysZero, EndsWith;
    IntervalOf(n.interval, i, h);
    Ordered(1, i, n.interval);
    assert BlockSubsidy(n, h, v) == BlockSubsidy(n, Rung(n, h), v);
  }

  /** An interval in which the split changes. */
  lemma ChangedInterval(n: Network, dcp10: int, dcp12: int, i: nat, c: Change)
    requires Valid(n) && i >= 1
    requires i in Changes(n.interval, dcp10, dcp12) && c == Changes(n.interval, dcp10, dcp12)[i]
    ensures var start := i * n.interval;
            && start <= c.activation < start + n.interval
            && Sum(n, CodedSplits(n.interval, dcp10, dcp12), start, start + n.interval)
               == BlockSubsidy(n, start, c.before) * (c.activation - start)
                  + BlockSubsidy(n, c.activation, c.after) * (n.interval - (c.activation - start))
  {
    hide BlockSubsidy, Stepwise, ZeroStaysZero, EndsWith, Sum, Changes;
    var splits, start := CodedSplits(n.interval, dcp10, dcp12), i * n.interval;
    var end := start + n.interval;
    assert (i + 1) * n.interval == end;
    ChangePlace(n.interval, dcp10, dcp12, i);
    forall h: nat | start <= h < end
      ensures BlockSubsidy(n, h, splits(h)) == BlockSubsidy(n, start, if h < c.activation then c.before else c.after)
    {
      IntervalOf(n.interval, i, h);
      SameInterval(n, i, h, splits(h));
    }
    SameInterval(n, i, c.activation, c.after);
    SumSplit(n, splits, start, c.activation, end);
    SumConstant(n, splits, start, c.activation, BlockSubsidy(n, start, c.before));
    SumConstant(n, splits, c.activation, end, BlockSubsidy(n, c.activation, c.after));
  }

  /** An interval of one variant throughout. */
  lemma PlainInterval(n: Network, dcp10: int, dcp12: int, i: nat)
    requires Valid(n) && i >= 1 && i !in Changes(n.interval, dcp10, dcp12)
    ensures var start := i * n.interval;
            Sum(n, CodedSplits(n.interval, dcp10, dcp12), start, start + n.interval)
            == BlockSubsidy(n, start, IntervalSplit(dcp10, dcp12, start)) * n.interval
  {
    hide BlockSubsidy, Stepwise, ZeroStaysZero, EndsWith, Sum, Changes;
    var splits, start := CodedSplits(n.interval, dcp10, dcp12), i * n.interval;
    var v := IntervalSplit(dcp10, dcp12, start);
    assert (i + 1) * n.interval == start + n.interval;
    forall h: nat | start <= h < start + n.interval
      ensures BlockSubsidy(n, h, splits(h)) == BlockSubsidy(n, start, v)
    {
      IntervalOf(n.interval, i, h);
      SameInterval(n, i, h, v);
    }
    SumConstant(n, splits, start, start + n.interval, BlockSubsidy(n, start, v));
  }

  // ----- the loop

  /** t is the block-one subsidy and what every later block pays, under the given variants. */
  ghost predicate IsTotal(n: Network, splits: nat -> Split, t: int) {
    forall hi: nat :: Ended(n, hi) ==> t == n.blockOne + Sum(n, splits, 2, hi)
  }

  /** Any height from which on nothing is paid gives the total. */
  lemma TotalAt(n: Network, splits: nat -> Split, end: nat)
    requires Ended(n, end)
    ensures IsTotal(n, splits, n.blockOne + Sum(n, splits, 2, end))
  {
    forall hi: nat | Ended(n, hi) ensures Sum(n, splits, 2, hi) == Sum(n, splits, 2, end) {
      if hi <= end {
        SumPastEnd(n, splits, 2, hi, end);
      } else {
        SumPastEnd(n, splits, 2, end, hi);
      }
    }
  }

  /** Interval i has no change of its own, and its first block pays nothing. */
  ghost predicate PaysNothing(n: Network, dcp10: int, dcp12: int, i: nat)
    requires n.interval > 0
  {
    && i >= 1
    && i !in Changes(n.interval, dcp10, dcp12)
    && BlockSubsidy(n, i * n.interval, IntervalSplit(dcp10, dcp12, i * n.interval)) == 0
  }

  /** The loop stops at the first interval that pays nothing. */
  ghost predicate StopsAt(n: Network, dcp10: int, dcp12: int, i: nat)
    requires n.interval > 0
  {
    PaysNothing(n, dcp10, dcp12, i) && forall j: nat :: j < i ==> !PaysNothing(n, dcp10, dcp12, j)
  }

  /** t is the block-one subsidy and what the blocks before the stop pay, each under the variant the code gives it. */
  ghost predicate IsCoded(n: Network, dcp10: int, dcp12: int, t: int)
    requires n.interval > 0
  {
    exists i: nat :: StopsAt(n, dcp10, dcp12, i) &&
      t == n.blockOne + Sum(n, CodedSplits(n.interval, dcp10, dcp12), 2, i * n.interval)
  }

  /** Where the loop has stopped at the latest. */
  ghost function Stop(n: Network, dcp10: int, dcp12: int, last: nat): (b: int)
    requires n.interval > 0
    ensures b >= 1 && b >= last
    ensures forall k :: k in Changes(n.interval, dcp10, dcp12) ==> k < b
  {
    var a, b := TruncDiv(dcp10, n.interval) + 1, TruncDiv(dcp12, n.interval) + 1;
    var m := if a < b then b else a;
    if m < last + 1 then last + 1 else m
  }

  /** UltimateSubsidy without its memo. */
  method TotalSubsidy(n: Network, dcp10: int, dcp12: int) returns (total: int)
    requires Valid(n)
    ensures IsCoded(n, dcp10, dcp12, total)
  {
    hide BlockSubsidy, Stepwise, ZeroStaysZero, Ended, Sum, Changes;
    ghost var last :| EndsWith(n, last);
    ghost var splits := CodedSplits(n.interval, dcp10, dcp12);
    var changes := Changes(n.interval, dcp10, dcp12);
    var at10, at12 := OrNever(dcp10), OrNever(dcp12);
    total := n.blockOne;
    var i := 0;
    while true
      invariant 0 <= i <= Stop(n, dcp10, dcp12, last)
      invariant total == n.blockOne + if i == 0 then 0 else Sum(n, splits, 2, i * n.interval)
      invariant forall j: nat :: j < i ==> !PaysNothing(n, dcp10, dcp12, j)
      decreases Stop(n, dcp10, dcp12, last) - i
    {
      if i == 0 {
        var nonVotingBlocks := n.stakeValidationHeight - 2;
        total := total + BlockSubsidy(n, 2, Original) * nonVotingBlocks;
        var votingBlocks := n.interval - n.stakeValidationHeight;
        total := total + BlockSubsidy(n, n.stakeValidationHeight, Original) * votingBlocks;
        FirstInterval(n, dcp10, dcp12);
        i := 1;
        continue;
      }
      var start := i * n.interval;
      NextStart(n.interval, i);
      SumSplit(n, splits, 2, start, start + n.interval);
      if i in changes {
        var c := changes[i];
        ChangedInterval(n, dcp10, dcp12, i, c);
        var before := c.activation - start;
        total := total + BlockSubsidy(n, start, c.before) * before;
        total := total + BlockSubsidy(n, c.activation, c.after) * (n.interval - before);
        i := i + 1;
        continue;
      }
      var split := Original;
      if start >= at12 {
        split := Dcp0012;
      } else if start >= at10 {
        split := Dcp0010;
      }
      var sum := BlockSubsidy(n, start, split);
      if sum == 0 {
        assert StopsAt(n, dcp10, dcp12, i);
        break;
      }
      PlainInterval(n, dcp10, dcp12, i);
      NotPastEnd(n, i, last, split);
      total := total + sum * n.interval;
      i := i + 1;
    }
  }

  /** There is exactly one place where the loop stops. */
  lemma LoopStops(n: Network, dcp10: int, dcp12: int) returns (stop: nat)
    requires Valid(n)
    ensures StopsAt(n, dcp10, dcp12, stop)
    ensures forall i: nat :: StopsAt(n, dcp10, dcp12, i) ==> i == stop
  {
    hide BlockSubsidy, Changes, IntervalSplit, Stepwise, ZeroStaysZero, Ended;
    var last: nat :| EndsWith(n, last);
    stop := 0;
    while !PaysNothing(n, dcp10, dcp12, stop)
      invariant forall j: nat :: j < stop ==> !PaysNothing(n, dcp10, dcp12, j)
      invariant stop <= Stop(n, dcp10, dcp12, last)
      decreases Stop(n, dcp10, dcp12, last) - stop
    {
      if stop >= 1 && stop !in Changes(n.interval, dcp10, dcp12) {
        NotPastEnd(n, stop, last, IntervalSplit(dcp10, dcp12, stop * n.interval));
      }
      stop := stop + 1;
    }
  }

  lemma NextStart(interval: nat, i: nat)
    requires i >= 1 && interval > 2
    ensures (i + 1) * interval == i * interval + interval && i * interval >= interval
  {
    Ordered(1, i, interval);
  }

  lemma NotPastEnd(n: Network, i: nat, last: nat, v: Split)
    requires EndsWith(n, last) && BlockSubsidy(n, i * n.interval, v) != 0
    ensures i < last
  {
    hide BlockSubsidy;
    if last <= i {
      Ordered(last, i, n.interval);
    }
  }

  // ----- when the intervals follow the blocks

  /**
   An activation is unset or after the first interval. DCP0012 finds DCP0010
   active from the start of its interval, or is itself active from there on and
   DCP0010 is not activated in a later interval.
   */
  predicate WellPlaced(interval: nat, dcp10: int, dcp12: int)
    requires interval > 0
  {
    && (dcp10 == -1 || dcp10 >= interval)
    && (dcp12 == -1 ||
        (&& dcp12 >= interval
         && var start := dcp12 / interval * interval;
            || (dcp10 != -1 && dcp10 <= start)
            || (dcp12 == start && (dcp10 == -1 || dcp10 < start + interval))))
  }

  /** Activations that are unset, or in order, in distinct intervals and after the first. */
  lemma InOrderIsWellPlaced(interval: nat, dcp10: int, dcp12: int)
    requires interval > 0
    requires dcp10 == -1 || dcp10 >= interval
    requires dcp12 != -1 ==> dcp10 != -1 && dcp12 >= 0 && dcp10 / interval < dcp12 / interval
    ensures WellPlaced(interval, dcp10, dcp12)
  {
    if dcp12 != -1 {
      IntervalOf(interval, dcp10 / interval, dcp10);
      IntervalOf(interval, dcp12 / interval, dcp12);
      Ordered(dcp10 / interval + 1, dcp12 / interval, interval);
    }
  }

  lemma KeyIff(interval: nat, a: int, i: nat)
    requires interval > 0 && i >= 1
    ensures TruncDiv(a, interval) == i <==> i * interval <= a < i * interval + interval
  {
    Ordered(0, i, interval);
    assert (i + 1) * interval == i * interval + interval;
    if a >= 0 {
      IntervalOf(interval, i, a);
    } else {
      assert TruncDiv(a, interval) <= 0;
    }
  }

  /** Coded, said with the first height of the interval instead of its number. */
  lemma CodedAt(interval: nat, dcp10: int, dcp12: int, h: nat)
    requires interval > 0
    ensures var start := h / interval * interval;
            && start <= h < start + interval
            && (start == 0 || interval <= start)
            && Coded(interval, dcp10, dcp12, h) ==
               if start == 0 then Original
               else if start <= dcp12 < start + interval then (if h < dcp12 then Dcp0010 else Dcp0012)
               else if start <= dcp10 < start + interval then (if h < dcp10 then Original else Dcp0010)
               else IntervalSplit(dcp10, dcp12, start)
  {
    hide TruncDiv;
    var i := h / interval;
    IntervalOf(interval, i, h);
    if i >= 1 {
      Ordered(1, i, interval);
      KeyIff(interval, dcp10, i);
      KeyIff(interval, dcp12, i);
    }
  }

  lemma StartBounds(interval: nat, h: nat)
    requires interval > 0
    ensures h / interval * interval <= h < h / interval * interval + interval
  {
    assert h == h / interval * interval + h % interval;
  }

  /** The first heights of two intervals are the same or an interval apart. */
  lemma StartsApart(interval: nat, i: nat, j: nat)
    ensures i * interval == j * interval || i * interval + interval <= j * interval
            || j * interval + interval <= i * interval
  {
    if i < j {
      Ordered(i + 1, j, interval);
    } else if j < i {
      Ordered(j + 1, i, interval);
    }
  }

  lemma PlacedMatches(interval: nat, dcp10: int, dcp12: int, h: nat)
    requires interval > 0 && WellPlaced(interval, dcp10, dcp12)
    requires h / interval * interval < MAX_INT64
    ensures Coded(interval, dcp10, dcp12, h) == Active(dcp10, dcp12, h)
  {
    hide Coded;
    CodedAt(interval, dcp10, dcp12, h);
    if dcp12 != -1 {
      StartsApart(interval, h / interval, dcp12 / interval);
      IntervalOf(interval, dcp12 / interval, dcp12);
    }
  }

  /** From the stop on, no block pays anything under its active variant. */
  lemma NothingAfterStop(n: Network, dcp10: int, dcp12: int, i: nat, last: nat, h: nat)
    requires Valid(n) && EndsWith(n, last) && WellPlaced(n.interval, dcp10, dcp12)
    requires PaysNothing(n, dcp10, dcp12, i) && i * n.interval <= h
    ensures BlockSubsidy(n, h, Active(dcp10, dcp12, h)) == 0
  {
    hide BlockSubsidy, Stepwise, Coded, Active, WellPlaced, Changes;
    NextStart(n.interval, i);
    if last <= i {
      Ordered(last, i, n.interval);
    } else {
      var start: nat := i * n.interval;
      Ordered(i, last - 1, n.interval);
      IntervalOf(n.interval, i, start);
      IntervalOf(n.interval, i, h);
      DivMonotone(n.interval, start, h);
      PlacedMatches(n.interval, dcp10, dcp12, start);
      CodedPlain(n.interval, dcp10, dcp12, i, start);
      ActiveMovesOn(dcp10, dcp12, start, h);
      if h / n.interval == i {
        PlacedMatches(n.interval, dcp10, dcp12, h);
        CodedPlain(n.interval, dcp10, dcp12, i, h);
      }
      assert Follows(n.interval, start, Active(dcp10, dcp12, start), h, Active(dcp10, dcp12, h));
    }
  }

  lemma CodedPlain(interval: nat, dcp10: int, dcp12: int, i: nat, h: nat)
    requires interval > 0 && i >= 1 && h / interval == i && i !in Changes(interval, dcp10, dcp12)
    ensures Coded(interval, dcp10, dcp12, h) == IntervalSplit(dcp10, dcp12, i * interval)
  {
    hide Changes, IntervalSplit;
  }

  lemma ActiveMovesOn(dcp10: int, dcp12: int, h: nat, h': nat)
    requires h <= h'
    ensures Rank(Active(dcp10, dcp12, h)) <= Rank(Active(dcp10, dcp12, h'))
    ensures Active(dcp10, dcp12, h) == Active(dcp10, dcp12, h')
       || Rank(Active(dcp10, dcp12, h)) < Rank(Active(dcp10, dcp12, h'))
  {
  }

  /** Before the stop, every block pays the same under the variant the code gives it as under its active one. */
  lemma SameBeforeStop(n: Network, dcp10: int, dcp12: int, last: nat, h: nat)
    requires Valid(n) && EndsWith(n, last) && WellPlaced(n.interval, dcp10, dcp12)
    ensures BlockSubsidy(n, h, Coded(n.interval, dcp10, dcp12, h)) == BlockSubsidy(n, h, Active(dcp10, dcp12, h))
  {
    hide BlockSubsidy, Stepwise, ZeroStaysZero, Coded, Active, WellPlaced;
    if h < last * n.interval {
      BeforeEnd(n.interval, last, h);
      PlacedMatches(n.interval, dcp10, dcp12, h);
    }
  }

  /** With well placed activations the total is the sum over the blocks, each under its active variant. */
  lemma WellPlacedTotal(n: Network, dcp10: int, dcp12: int, t: int)
    requires Valid(n) && WellPlaced(n.interval, dcp10, dcp12) && IsCoded(n, dcp10, dcp12, t)
    ensures IsTotal(n, ActiveSplits(dcp10, dcp12), t)
  {
    hide BlockSubsidy, Stepwise, ZeroStaysZero, Sum, Coded, Active, WellPlaced, Ended, PaysNothing;
    var last: nat :| EndsWith(n, last);
    var coded, active := CodedSplits(n.interval, dcp10, dcp12), ActiveSplits(dcp10, dcp12);
    var i: nat :| StopsAt(n, dcp10, dcp12, i) && t == n.blockOne + Sum(n, coded, 2, i * n.interval);
    StopIsLate(n, dcp10, dcp12, i);
    var stop: nat := i * n.interval;
    forall h: nat | 2 <= h < stop ensures BlockSubsidy(n, h, coded(h)) == BlockSubsidy(n, h, active(h)) {
      SameBeforeStop(n, dcp10, dcp12, last, h);
    }
    SumSame(n, coded, active, 2, stop);
    var end: nat := last * n.interval;
    TotalAt(n, active, end);
    AtLeastTwo(n, end);
    if end <= stop {
      SumPastEnd(n, active, 2, end, stop);
    } else {
      forall h: nat | stop <= h < end ensures BlockSubsidy(n, h, active(h)) == 0 {
        NothingAfterStop(n, dcp10, dcp12, i, last, h);
      }
      SumSplit(n, active, 2, stop, end);
      SumConstant(n, active, stop, end, 0);
    }
  }

  lemma StopIsLate(n: Network, dcp10: int, dcp12: int, i: nat)
    requires n.interval > 2 && StopsAt(n, dcp10, dcp12, i)
    ensures i >= 1 && i * n.interval >= n.interval && PaysNothing(n, dcp10, dcp12, i)
  {
    NextStart(n.interval, i);
  }

  lemma AtLeastTwo(n: Network, hi: nat)
    requires Ended(n, hi)
    ensures hi >= 2
  {
  }

  lemma BeforeEnd(interval: nat, last: nat, h: nat)
    requires interval > 0 && last >= 1 && h < last * interval
    ensures h / interval * interval <= (last - 1) * interval
  {
    IntervalOf(interval, h / interval, h);
    if last <= h / interval {
      Ordered(last, h / interval, interval);
    }
    Ordered(h / interval, last - 1, interval);
  }

  ghost predicate TotalsAgree(n: Network, dcp10: int, dcp12: int)
    requires n.interval > 0
  {
    forall t :: IsCoded(n, dcp10, dcp12, t) ==> IsTotal(n, ActiveSplits(dcp10, dcp12), t)
  }

  /** A schedule that pays one a block up to interval i, and twice that there under one variant. */
  ghost function Peak(interval: nat, i: nat, dear: Split): Network
    requires interval > 0
  {
    Network(5, 2, interval, 0,
            (h: nat, v: Split) => if h / interval < i then 1 else if h / interval > i then 0 else if v == dear then 2 else 1,
            (h: nat, v: Split) => 0, (h: nat) => 0)
  }

  lemma PeakPays(interval: nat, i: nat, dear: Split, h: nat, v: Split)
    requires interval > 0
    ensures BlockSubsidy(Peak(interval, i, dear), h, v)
         == if h / interval < i then 1 else if h / interval > i then 0 else if v == dear then 2 else 1
  {
  }

  lemma DivMonotone(interval: nat, h: nat, h': nat)
    requires interval > 0 && h <= h'
    ensures h / interval <= h' / interval
  {
    IntervalOf(interval, 0, h);
    IntervalOf(interval, 0, h');
    if h' / interval < h / interval {
      Ordered(h' / interval + 1, h / interval, interval);
    }
  }

  lemma RungKeeps(n: Network, h: nat)
    requires 2 <= n.stakeValidationHeight <= n.interval && 2 < n.interval && 2 <= h
    ensures Rung(n, h) / n.interval == h / n.interval
    ensures Rung(n, h) < n.stakeValidationHeight <==> h < n.stakeValidationHeight
  {
    IntervalOf(n.interval, 0, h);
    if h >= n.interval {
      var q := h / n.interval;
      Ordered(1, q, n.interval);
      var start: nat := q * n.interval;
      assert (q + 1) * n.interval == start + n.interval;
      IntervalOf(n.interval, q, start);
    } else {
      IntervalOf(n.interval, 0, Rung(n, h));
    }
  }

  lemma PeakValid(interval: nat, i: nat, dear: Split)
    requires 2 < interval <= MAX_INT64 && i * interval < MAX_INT64
    ensures Valid(Peak(interval, i, dear)) && Ended(Peak(interval, i, dear), (i + 1) * interval)
  {
    hide BlockSubsidy;
    var n := Peak(interval, i, dear);
    forall h: nat, v | 2 <= h ensures BlockSubsidy(n, h, v) == BlockSubsidy(n, Rung(n, h), v) {
      PeakPays(interval, i, dear, h, v);
      PeakPays(interval, i, dear, Rung(n, h), v);
      RungKeeps(n, h);
    }
    forall h: nat, v, h': nat, v' | Follows(interval, h, v, h', v') && BlockSubsidy(n, h, v) == 0
      ensures BlockSubsidy(n, h', v') == 0
    {
      PeakPays(interval, i, dear, h, v);
      PeakPays(interval, i, dear, h', v');
      DivMonotone(interval, h, h');
    }
    var end := (i + 1) * interval;
    Ordered(1, i + 1, interval);
    forall h: nat, v | end <= h ensures BlockSubsidy(n, h, v) == 0 {
      PeakPays(interval, i, dear, h, v);
      IntervalOf(interval, i + 1, end);
      IntervalOf(interval, i + 2, end);
      DivMonotone(interval, end, h);
    }
    assert EndsWith(n, i + 1);
  }

  /** Two choices of variants whose totals differ: only b uses the dear variant in interval i. */
  lemma PeakDiffers(interval: nat, i: nat, dear: Split, a: nat -> Split, b: nat -> Split, at: nat)
    requires 2 < interval <= MAX_INT64 && i * interval < MAX_INT64
    requires 2 <= at && at / interval == i && b(at) == dear
    requires forall h: nat :: 2 <= h && h / interval == i ==> a(h) != dear
    ensures var n := Peak(interval, i, dear); Sum(n, a, 2, (i + 1) * interval) < Sum(n, b, 2, (i + 1) * interval)
  {
    hide BlockSubsidy, Sum;
    var n, end := Peak(interval, i, dear), (i + 1) * interval;
    IntervalOf(interval, i, at);
    forall h: nat | 2 <= h < end
      ensures BlockSubsidy(n, h, a(h)) <= BlockSubsidy(n, h, b(h))
    {
      PeakPays(interval, i, dear, h, a(h));
      PeakPays(interval, i, dear, h, b(h));
    }
    PeakPays(interval, i, dear, at, a(at));
    PeakPays(interval, i, dear, at, b(at));
    SumLess(n, a, b, 2, end, at);
  }

  /** The loop stops on a peak, and not before it is over. */
  lemma PeakStops(interval: nat, dcp10: int, dcp12: int, i: nat, dear: Split) returns (stop: nat)
    requires 2 < interval <= MAX_INT64 && i * interval < MAX_INT64
    ensures StopsAt(Peak(interval, i, dear), dcp10, dcp12, stop) && stop > i
  {
    hide BlockSubsidy, Changes, IntervalSplit, Valid;
    PeakValid(interval, i, dear);
    stop := LoopStops(Peak(interval, i, dear), dcp10, dcp12);
    PeakPaysAt(interval, i, dear, stop, IntervalSplit(dcp10, dcp12, stop * interval));
  }

  lemma PeakPaysAt(interval: nat, i: nat, dear: Split, j: nat, v: Split)
    requires interval > 0
    ensures BlockSubsidy(Peak(interval, i, dear), j * interval, v) == 0 <==> j > i
  {
    hide BlockSubsidy;
    IntervalOf(interval, j, j * interval);
    Ordered(j, j + 1, interval);
    PeakPays(interval, i, dear, j * interval, v);
  }

  lemma PeakDisagrees(interval: nat, dcp10: int, dcp12: int, i: nat, dear: Split)
    requires 2 < interval <= MAX_INT64 && i * interval < MAX_INT64
    requires var n, end := Peak(interval, i, dear), (i + 1) * interval;
             Sum(n, CodedSplits(interval, dcp10, dcp12), 2, end) != Sum(n, ActiveSplits(dcp10, dcp12), 2, end)
    ensures Valid(Peak(interval, i, dear)) && !TotalsAgree(Peak(interval, i, dear), dcp10, dcp12)
  {
    hide BlockSubsidy, Sum, Stepwise, ZeroStaysZero, StopsAt, EndsWith;
    PeakValid(interval, i, dear);
    var n, end := Peak(interval, i, dear), (i + 1) * interval;
    var stop := PeakStops(interval, dcp10, dcp12, i, dear);
    Ordered(i + 1, stop, interval);
    Ordered(1, i + 1, interval);
    var coded := CodedSplits(interval, dcp10, dcp12);
    SumPastEnd(n, coded, 2, end, stop * interval);
    assert IsCoded(n, dcp10, dcp12, n.blockOne + Sum(n, coded, 2, stop * interval));
  }

  /** An activation in the first interval: the code pays all of that interval as before it. */
  lemma EarlyFails(interval: nat, dcp10: int, dcp12: int)
    requires 2 < interval <= MAX_INT64
    requires (dcp10 != -1 && dcp10 < interval) || (dcp12 != -1 && dcp12 < interval)
    ensures Valid(Peak(interval, 0, Original)) && !TotalsAgree(Peak(interval, 0, Original), dcp10, dcp12)
  {
    hide Sum, BlockSubsidy, Valid, TotalsAgree;
    var coded, active := CodedSplits(interval, dcp10, dcp12), ActiveSplits(dcp10, dcp12);
    var n := Peak(interval, 0, Original);
    IntervalOf(interval, 0, interval - 1);
    forall h: nat | 2 <= h < interval ensures BlockSubsidy(n, h, active(h)) <= BlockSubsidy(n, h, coded(h)) {
      IntervalOf(interval, 0, h);
      PeakPays(interval, 0, Original, h, active(h));
      PeakPays(interval, 0, Original, h, coded(h));
    }
    PeakPays(interval, 0, Original, interval - 1, active(interval - 1));
    PeakPays(interval, 0, Original, interval - 1, coded(interval - 1));
    SumLess(n, active, coded, 2, interval, interval - 1);
    PeakDisagrees(interval, dcp10, dcp12, 0, Original);
  }

  /** DCP0012 inside an interval that DCP0010 does not start: the code pays its first blocks as if it did. */
  lemma UnpreparedFails(interval: nat, dcp10: int, dcp12: int)
    requires 2 < interval <= MAX_INT64 && interval <= dcp12 < MAX_INT64
    requires var start := dcp12 / interval * interval; start < dcp12 && (dcp10 == -1 || start < dcp10)
    ensures var n := Peak(interval, dcp12 / interval, Original); Valid(n) && !TotalsAgree(n, dcp10, dcp12)
  {
    hide Sum, BlockSubsidy, Valid, TotalsAgree, Coded;
    var i := dcp12 / interval;
    var start := i * interval;
    IntervalOf(interval, i, dcp12);
    IntervalOf(interval, i, start);
    Ordered(i, i + 1, interval);
    CodedAt(interval, dcp10, dcp12, dcp12);
    forall h: nat | 2 <= h && h / interval == i ensures Coded(interval, dcp10, dcp12, h) != Original {
      CodedAt(interval, dcp10, dcp12, h);
    }
    PeakDiffers(interval, i, Original, CodedSplits(interval, dcp10, dcp12), ActiveSplits(dcp10, dcp12), start);
    PeakDisagrees(interval, dcp10, dcp12, i, Original);
  }

  /** DCP0010 in an interval after DCP0012: the code pays that interval by the earlier variants. */
  lemma ReversedFails(interval: nat, dcp10: int, dcp12: int)
    requires 2 < interval <= MAX_INT64 && interval <= dcp12 && interval <= dcp10 < MAX_INT64
    requires dcp12 / interval * interval + interval <= dcp10
    ensures var n := Peak(interval, dcp10 / interval, Dcp0012); Valid(n) && !TotalsAgree(n, dcp10, dcp12)
  {
    hide Sum, BlockSubsidy, Valid, TotalsAgree, Coded;
    var i := dcp10 / interval;
    SecondIsPast(interval, dcp10, dcp12);
    forall h: nat | 2 <= h && h / interval == i ensures Coded(interval, dcp10, dcp12, h) != Dcp0012 {
      ReversedCoded(interval, dcp10, dcp12, h);
    }
    PeakDiffers(interval, i, Dcp0012, CodedSplits(interval, dcp10, dcp12), ActiveSplits(dcp10, dcp12), dcp10);
    PeakDisagrees(interval, dcp10, dcp12, i, Dcp0012);
  }

  lemma SecondIsPast(interval: nat, dcp10: nat, dcp12: nat)
    requires interval > 0 && dcp12 / interval * interval + interval <= dcp10
    ensures dcp12 < dcp10 / interval * interval <= dcp10 < dcp10 / interval * interval + interval
  {
    StartBounds(interval, dcp10);
    StartBounds(interval, dcp12);
    StartsApart(interval, dcp10 / interval, dcp12 / interval);
  }

  lemma ReversedCoded(interval: nat, dcp10: nat, dcp12: nat, h: nat)
    requires interval > 0 && interval <= dcp10 && h / interval == dcp10 / interval
    requires dcp12 < dcp10 / interval * interval <= dcp10 < dcp10 / interval * interval + interval
    ensures Coded(interval, dcp10, dcp12, h) != Dcp0012
  {
    hide Coded;
    CodedAt(interval, dcp10, dcp12, h);
  }

  ghost predicate RightForEvery(interval: nat, dcp10: int, dcp12: int)
    requires interval > 0
  {
    forall n :: Valid(n) && n.interval == interval ==> TotalsAgree(n, dcp10, dcp12)
  }

  /**
   Summing by intervals gives the sum over blocks, on every schedule, if and only
   if the activations are well placed.
   */
  lemma RightIffWellPlaced(interval: nat, dcp10: int, dcp12: int)
    requires 2 < interval <= MAX_INT64 && dcp10 < MAX_INT64 && dcp12 < MAX_INT64
    ensures RightForEvery(interval, dcp10, dcp12) <==> WellPlaced(interval, dcp10, dcp12)
  {
    hide Sum, BlockSubsidy, Valid, IsTotal, IsCoded, Coded, Active, Peak;
    if WellPlaced(interval, dcp10, dcp12) {
      forall n, t | Valid(n) && n.interval == interval && IsCoded(n, dcp10, dcp12, t)
        ensures IsTotal(n, ActiveSplits(dcp10, dcp12), t)
      {
        WellPlacedTotal(n, dcp10, dcp12, t);
      }
    } else {
      var n := Misplaced(interval, dcp10, dcp12);
    }
  }

  lemma Misplaced(interval: nat, dcp10: int, dcp12: int) returns (n: Network)
    requires 2 < interval <= MAX_INT64 && dcp10 < MAX_INT64 && dcp12 < MAX_INT64
    requires !WellPlaced(interval, dcp10, dcp12)
    ensures Valid(n) && n.interval == interval && !TotalsAgree(n, dcp10, dcp12)
  {
    hide Valid, TotalsAgree;
    if (dcp10 != -1 && dcp10 < interval) || (dcp12 != -1 && dcp12 < interval) {
      EarlyFails(interval, dcp10, dcp12);
      n := Peak(interval, 0, Original);
    } else {
      var start := dcp12 / interval * interval;
      IntervalOf(interval, dcp12 / interval, dcp12);
      if start < dcp12 {
        UnpreparedFails(interval, dcp10, dcp12);
        n := Peak(interval, dcp12 / interval, Original);
      } else {
        ReversedFails(interval, dcp10, dcp12);
        n := Peak(interval, dcp10 / interval, Dcp0012);
      }
    }
  }

  // ----- the memo

  datatype NetHeight = NetHeight(net: nat, dcp10: int, dcp12: int)

  class SubsidySums {
    var m: map<NetHeight, int>
    /** The parameters of each network, by its number. */
    const networks: map<nat, Network>

    /** Every total remembered is the one the loop would compute. */
    ghost predicate Remembers()
      reads this
    {
      forall k :: k in m ==>
        && k.net in networks && networks[k.net].interval > 0
        && IsCoded(networks[k.net], k.dcp10, k.dcp12, m[k])
    }

    constructor (networks: map<nat, Network>)
      ensures Remembers() && this.networks == networks && m == map[]
    {
      this.networks := networks;
      m := map[];
    }

    /** UltimateSubsidy */
    method UltimateSubsidy(net: nat, dcp10: int, dcp12: int) returns (total: int)
      requires Remembers() && net in networks && Valid(networks[net])
      modifies this
      ensures Remembers()
      ensures m == old(m)[NetHeight(net, dcp10, dcp12) := total]
      ensures NetHeight(net, dcp10, dcp12) in old(m) ==> m == old(m)
      ensures IsCoded(networks[net], dcp10, dcp12, total)
      ensures WellPlaced(networks[net].interval, dcp10, dcp12) ==>
                IsTotal(networks[net], ActiveSplits(dcp10, dcp12), total)
    {
      hide IsTotal, IsCoded, Stepwise, ZeroStaysZero, EndsWith, WellPlaced;
      var key, n := NetHeight(net, dcp10, dcp12), networks[net];
      if key in m {
        total := m[key];
      } else {
        total := TotalSubsidy(n, dcp10, dcp12);
        m := m[key := total];
      }
      if WellPlaced(n.interval, dcp10, dcp12) {
        WellPlacedTotal(n, dcp10, dcp12, total);
      }
    }
  }
}
