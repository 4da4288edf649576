/**
 The charts cache: block and day series kept in step by Lengthen, and cut back
 by ReorgHandler.
 */
module Charts {
  import opened Widths
  import opened DayBins

  // ----- series

  function Total(s: seq<nat>): nat {
    if s == [] then 0 else Total(s[..|s| - 1]) + s[|s| - 1]
  }

  lemma {:induction false} TotalSplit(a: seq<nat>, b: seq<nat>)
    ensures Total(a + b) == Total(a) + Total(b)
  {
    if b == [] {
      assert a + b == a;
    } else {
      assert (a + b)[..|a + b| - 1] == a + b[..|b| - 1];
      TotalSplit(a, b[..|b| - 1]);
    }
  }

  /** With TotalSplit this says what the total is: that of one value is the value, and of none 0. */
  lemma TotalOne(x: nat)
    ensures Total([]) == 0 && Total([x]) == x
  {
    assert [x][..0] == [];
  }

  /** Sum over [s, e), in 64 bits. */
  function RangeSum(data: seq<nat>, s: nat, e: nat): nat {
    if e <= s || |data| < e then 0 else Total(data[s..e]) % TWO_64
  }

  function RangeAvg(data: seq<nat>, s: nat, e: nat): nat {
    if e <= s then 0 else RangeSum(data, s, e) / (e - s)
  }

  /** `sum` is the 64-bit sum of the blocks [s, e), and 0 for no blocks. */
  ghost predicate IsSum(sum: nat, data: seq<nat>, s: nat, e: nat)
    requires e <= s || e <= |data|
  {
    if e <= s then sum == 0 else sum == Total(data[s..e]) % TWO_64
  }

  /** `avg` is the greatest number that, taken once for each block, does not exceed their 64-bit sum. */
  ghost predicate IsAvg(avg: nat, data: seq<nat>, s: nat, e: nat)
    requires e <= s || e <= |data|
  {
    if e <= s then avg == 0
    else avg * (e - s) <= Total(data[s..e]) % TWO_64 < (avg + 1) * (e - s)
  }

  lemma SumIs(data: seq<nat>, s: nat, e: nat)
    requires e <= s || e <= |data|
    ensures IsSum(RangeSum(data, s, e), data, s, e)
  {
  }

  lemma AvgIs(data: seq<nat>, s: nat, e: nat)
    requires e <= s || e <= |data|
    ensures IsAvg(RangeAvg(data, s, e), data, s, e)
  {
    if s < e {
      Quotient(Total(data[s..e]) % TWO_64, e - s);
    }
  }

  lemma Quotient(x: nat, n: nat)
    requires n > 0
    ensures x / n * n <= x < (x / n + 1) * n
  {
  }

  /** Blocks that all have one value average to it, unless their sum wraps. */
  lemma ConstantAvg(data: seq<nat>, s: nat, e: nat, v: nat)
    requires s < e <= |data| && (forall i :: s <= i < e ==> data[i] == v) && v * (e - s) < TWO_64
    ensures RangeAvg(data, s, e) == v
  {
    hide Total;
    ConstantTotal(data[s..e], v);
    WholeQuotient(v, e - s);
  }

  lemma WholeQuotient(v: nat, n: nat)
    requires n > 0
    ensures v * n / n == v
  {
    var q := v * n / n;
    Quotient(v * n, n);
    if q < v {
      Scaled(q + 1, v, n);
    }
  }

  lemma Scaled(a: nat, b: nat, n: nat)
    requires a <= b
    ensures a * n <= b * n
  {
  }

  lemma {:induction false} ConstantTotal(s: seq<nat>, v: nat)
    requires forall i :: 0 <= i < |s| ==> s[i] == v
    ensures Total(s) == v * |s|
  {
    if s != [] {
      ConstantTotal(s[..|s| - 1], v);
    }
  }

  lemma AddWraps(a: nat, b: nat)
    ensures (a % TWO_64 + b) % TWO_64 == (a + b) % TWO_64
  {
  }

  /** ChartUints.Sum */
  method Sum(data: seq<nat>, s: nat, e: nat) returns (sum: nat)
    requires e <= s || e <= |data|
    ensures sum == RangeSum(data, s, e) && IsSum(sum, data, s, e)
  {
    if e <= s {
      return 0;
    }
    sum := 0;
    for i := s to e
      invariant sum == Total(data[s..i]) % TWO_64
    {
      assert data[s..i + 1][..i - s] == data[s..i];
      AddWraps(Total(data[s..i]), data[i]);
      sum := (sum + data[i]) % TWO_64;
    }
  }

  /** ChartUints.Avg */
  method Avg(data: seq<nat>, s: nat, e: nat) returns (avg: nat)
    requires e <= s || e <= |data|
    ensures avg == RangeAvg(data, s, e) && IsAvg(avg, data, s, e)
  {
    hide IsAvg, Total;
    AvgIs(data, s, e);
    if e <= s {
      return 0;
    }
    var sum := Sum(data, s, e);
    return sum / (e - s);
  }

  function SnipSeq<T>(s: seq<T>, max: nat): seq<T> {
    if |s| < max then s else s[..max]
  }

  // ----- the values of a day

  /** How a day's value is made from its blocks. */
  datatype Kind = Start | LastHeight | Average | Sums | NextWork

  function Cell(kind: Kind, s: seq<nat>, b: Bin): nat {
    match kind
    case Start => b.start
    case LastHeight => (b.hi - 1) % TWO_64
    case Average => RangeAvg(s, b.lo, b.hi)
    case Sums => RangeSum(s, b.lo, b.hi)
    case NextWork => if b.hi < |s| then s[b.hi] else 0
  }

  function Column(kind: Kind, s: seq<nat>, bins: seq<Bin>): (c: seq<nat>)
    ensures |c| == |bins|
  {
    if bins == [] then [] else Column(kind, s, bins[..|bins| - 1]) + [Cell(kind, s, bins[|bins| - 1])]
  }

  lemma {:induction false} ColumnAt(kind: Kind, s: seq<nat>, bins: seq<Bin>, k: nat)
    requires k < |bins|
    ensures Column(kind, s, bins)[k] == Cell(kind, s, bins[k])
  {
    hide Cell;
    if k < |bins| - 1 {
      ColumnAt(kind, s, bins[..|bins| - 1], k);
    }
  }

  lemma {:induction false} ColumnSplit(kind: Kind, s: seq<nat>, a: seq<Bin>, b: seq<Bin>)
    ensures Column(kind, s, a + b) == Column(kind, s, a) + Column(kind, s, b)
  {
    hide Cell;
    if b == [] {
      assert a + b == a;
    } else {
      assert (a + b)[..|a + b| - 1] == a + b[..|b| - 1];
      ColumnSplit(kind, s, a, b[..|b| - 1]);
    }
  }

  ghost predicate InBounds(bins: seq<Bin>, n: nat) {
    forall k :: 0 <= k < |bins| ==> bins[k].lo <= bins[k].hi < n
  }

  lemma CellSame(kind: Kind, s: seq<nat>, more: seq<nat>, b: Bin)
    requires s <= more && b.lo <= b.hi < |s|
    ensures Cell(kind, more, b) == Cell(kind, s, b)
  {
    assert more[b.lo..b.hi] == s[b.lo..b.hi];
    assert more[b.hi] == s[b.hi];
  }

  lemma {:induction false} ColumnSame(kind: Kind, s: seq<nat>, more: seq<nat>, bins: seq<Bin>)
    requires s <= more && InBounds(bins, |s|)
    ensures Column(kind, more, bins) == Column(kind, s, bins)
  {
    hide Cell;
    if bins != [] {
      var b := bins[|bins| - 1];
      CellSame(kind, s, more, b);
      ColumnSame(kind, s, more, bins[..|bins| - 1]);
    }
  }

  lemma FirstDaySum(s: seq<nat>, b: Bin, rest: seq<Bin>)
    ensures Total(Column(Sums, s, [b] + rest)) == RangeSum(s, b.lo, b.hi) + Total(Column(Sums, s, rest))
  {
    ColumnSplit(Sums, s, [b], rest);
    assert Column(Sums, s, [b]) == [RangeSum(s, b.lo, b.hi)];
    TotalSplit([RangeSum(s, b.lo, b.hi)], Column(Sums, s, rest));
    assert Total([RangeSum(s, b.lo, b.hi)]) == RangeSum(s, b.lo, b.hi);
  }

  lemma WrapSame(a: nat, b: nat, c: nat, d: nat)
    requires a % TWO_64 == c % TWO_64 && b % TWO_64 == d % TWO_64
    ensures (a + b) % TWO_64 == (c + d) % TWO_64
  {
    WrapSum(a, b);
    WrapSum(c, d);
  }

  lemma WrapSum(a: nat, b: nat)
    ensures (a + b) % TWO_64 == (a % TWO_64 + b % TWO_64) % TWO_64
  {
    var whole, rest := a / TWO_64 + b / TWO_64, a % TWO_64 + b % TWO_64;
    assert a + b == TWO_64 * whole + rest;
  }

  /** The day sums add up, in 64 bits, to the sum of the blocks covered. */
  lemma {:induction false} Conserved(s: seq<nat>, bins: seq<Bin>, from: nat, to: nat)
    requires Contiguous(bins, from, to) && to <= |s| && InBounds(bins, |s|)
    ensures from <= to && Total(Column(Sums, s, bins)) % TWO_64 == Total(s[from..to]) % TWO_64
    decreases |bins|
  {
    hide Column, Total;
    if bins != [] {
      var b, rest := bins[0], bins[1..];
      Conserved(s, rest, b.hi, to);
      assert bins == [b] + rest;
      FirstDaySum(s, b, rest);
      DaySum(s, b);
      assert s[from..to] == s[from..b.hi] + s[b.hi..to];
      TotalSplit(s[from..b.hi], s[b.hi..to]);
      WrapSame(RangeSum(s, b.lo, b.hi), Total(Column(Sums, s, rest)), Total(s[b.lo..b.hi]), Total(s[b.hi..to]));
    } else {
      NoDays(s, from);
    }
  }

  lemma DaySum(s: seq<nat>, b: Bin)
    requires b.lo <= b.hi <= |s|
    ensures RangeSum(s, b.lo, b.hi) % TWO_64 == Total(s[b.lo..b.hi]) % TWO_64
  {
  }

  lemma NoDays(s: seq<nat>, from: nat)
    requires from <= |s|
    ensures Total(Column(Sums, s, [])) == 0 == Total(s[from..from])
  {
  }

  // ----- sets of series

  datatype ZoomSet = ZoomSet(
    height: seq<nat>, time: seq<nat>, poolSize: seq<nat>, poolValue: seq<nat>, blockSize: seq<nat>, txCount: seq<nat>,
    newAtoms: seq<nat>, chainwork: seq<nat>, fees: seq<nat>, totalMixed: seq<nat>, anonymitySet: seq<nat>)

  datatype WindowSet = WindowSet(
    time: seq<nat>, powDiff: seq<real>, ticketPrice: seq<nat>, stakeCount: seq<nat>, missedVotes: seq<nat>)

  function Lengths(z: ZoomSet): seq<nat> {
    [|z.height|, |z.time|, |z.poolSize|, |z.poolValue|, |z.blockSize|, |z.txCount|, |z.newAtoms|, |z.chainwork|,
     |z.fees|, |z.totalMixed|, |z.anonymitySet|]
  }

  function WindowLengths(w: WindowSet): seq<nat> {
    [|w.time|, |w.powDiff|, |w.ticketPrice|, |w.stakeCount|, |w.missedVotes|]
  }

  ghost predicate Even(z: ZoomSet, n: nat) {
    && |z.height| == n && |z.time| == n && |z.poolSize| == n && |z.poolValue| == n && |z.blockSize| == n
    && |z.txCount| == n && |z.newAtoms| == n && |z.chainwork| == n && |z.fees| == n && |z.totalMixed| == n
    && |z.anonymitySet| == n
  }

  /** zoomSet.Snip */
  function Snip(z: ZoomSet, length: int): (r: ZoomSet)
    ensures 0 <= length && Even(z, length) ==> r == z
  {
    var n := if length < 0 then 0 else length;
    ZoomSet(SnipSeq(z.height, n), SnipSeq(z.time, n), SnipSeq(z.poolSize, n), SnipSeq(z.poolValue, n),
            SnipSeq(z.blockSize, n), SnipSeq(z.txCount, n), SnipSeq(z.newAtoms, n), SnipSeq(z.chainwork, n),
            SnipSeq(z.fees, n), SnipSeq(z.totalMixed, n), SnipSeq(z.anonymitySet, n))
  }

  /** windowSet.Snip */
  function SnipWindows(w: WindowSet, length: int): WindowSet {
    var n := if length < 0 then 0 else length;
    WindowSet(SnipSeq(w.time, n), SnipSeq(w.powDiff, n), SnipSeq(w.ticketPrice, n), SnipSeq(w.stakeCount, n),
              SnipSeq(w.missedVotes, n))
  }

  function Concat(a: ZoomSet, b: ZoomSet): ZoomSet {
    ZoomSet(a.height + b.height, a.time + b.time, a.poolSize + b.poolSize, a.poolValue + b.poolValue,
            a.blockSize + b.blockSize, a.txCount + b.txCount, a.newAtoms + b.newAtoms, a.chainwork + b.chainwork,
            a.fees + b.fees, a.totalMixed + b.totalMixed, a.anonymitySet + b.anonymitySet)
  }

  /** a is the beginning of b, series by series. */
  ghost predicate Prefix(a: ZoomSet, b: ZoomSet) {
    && a.height <= b.height && a.time <= b.time && a.poolSize <= b.poolSize && a.poolValue <= b.poolValue
    && a.blockSize <= b.blockSize && a.txCount <= b.txCount && a.newAtoms <= b.newAtoms && a.chainwork <= b.chainwork
    && a.fees <= b.fees && a.totalMixed <= b.totalMixed && a.anonymitySet <= b.anonymitySet
  }

  /** The days made from the blocks of the given bins. */
  function Binned(z: ZoomSet, bins: seq<Bin>): ZoomSet {
    ZoomSet(Column(LastHeight, [], bins), Column(Start, [], bins),
            Column(Average, z.poolSize, bins), Column(Average, z.poolValue, bins),
            Column(Sums, z.blockSize, bins), Column(Sums, z.txCount, bins), Column(Sums, z.newAtoms, bins),
            Column(NextWork, z.chainwork, bins), Column(Sums, z.fees, bins), Column(Sums, z.totalMixed, bins),
            Column(Average, z.anonymitySet, bins))
  }

  ghost predicate Fits(z: ZoomSet, b: Bin) {
    Even(z, |z.time|) && b.lo <= b.hi < |z.time|
  }

  /** `after` has, at the k-th place past `before`, the value v. */
  ghost predicate Appended(after: seq<nat>, before: seq<nat>, k: nat, v: nat) {
    |after| > |before| + k && after[|before| + k] == v
  }

  ghost predicate AppendedSum(after: seq<nat>, before: seq<nat>, k: nat, data: seq<nat>, b: Bin)
    requires b.lo <= b.hi < |data|
  {
    |after| > |before| + k && IsSum(after[|before| + k], data, b.lo, b.hi)
  }

  ghost predicate AppendedAvg(after: seq<nat>, before: seq<nat>, k: nat, data: seq<nat>, b: Bin)
    requires b.lo <= b.hi < |data|
  {
    |after| > |before| + k && IsAvg(after[|before| + k], data, b.lo, b.hi)
  }

  /**
   The k-th day added is that of the bin: its start, the height of its last block,
   sums or averages over its blocks, and the work at the first block after it.
   */
  ghost predicate IsDay(after: ZoomSet, before: ZoomSet, k: nat, blocks: ZoomSet, b: Bin)
    requires Fits(blocks, b)
  {
    && Appended(after.time, before.time, k, b.start)
    && Appended(after.height, before.height, k, if b.hi == 0 then TWO_64 - 1 else (b.hi - 1) % TWO_64)
    && AppendedAvg(after.poolSize, before.poolSize, k, blocks.poolSize, b)
    && AppendedAvg(after.poolValue, before.poolValue, k, blocks.poolValue, b)
    && AppendedSum(after.blockSize, before.blockSize, k, blocks.blockSize, b)
    && AppendedSum(after.txCount, before.txCount, k, blocks.txCount, b)
    && AppendedSum(after.newAtoms, before.newAtoms, k, blocks.newAtoms, b)
    && Appended(after.chainwork, before.chainwork, k, blocks.chainwork[b.hi])
    && AppendedSum(after.fees, before.fees, k, blocks.fees, b)
    && AppendedSum(after.totalMixed, before.totalMixed, k, blocks.totalMixed, b)
    && AppendedAvg(after.anonymitySet, before.anonymitySet, k, blocks.anonymitySet, b)
  }

  /** The days added are those of the bins. */
  ghost predicate AreDays(after: ZoomSet, before: ZoomSet, blocks: ZoomSet, bins: seq<Bin>) {
    forall k :: 0 <= k < |bins| ==> Fits(blocks, bins[k]) && IsDay(after, before, k, blocks, bins[k])
  }

  lemma AllDays(before: ZoomSet, blocks: ZoomSet)
    requires Even(blocks, |blocks.time|) && blocks.time != []
    ensures var bins := NewBins(blocks.time, before.time);
            AreDays(Concat(before, Binned(blocks, bins)), before, blocks, bins)
  {
    hide Even, NewBins, IsDay, Concat, Binned;
    var bins := NewBins(blocks.time, before.time);
    NewBinsContiguous(blocks.time, before.time);
    forall k | 0 <= k < |bins|
      ensures Fits(blocks, bins[k]) && IsDay(Concat(before, Binned(blocks, bins)), before, k, blocks, bins[k])
    {
      BinnedDays(before, blocks, bins, k);
    }
  }

  lemma CellAppended(kind: Kind, s: seq<nat>, before: seq<nat>, bins: seq<Bin>, k: nat)
    requires k < |bins|
    ensures Appended(before + Column(kind, s, bins), before, k, Cell(kind, s, bins[k]))
    ensures kind == Average && bins[k].lo <= bins[k].hi < |s| ==>
              AppendedAvg(before + Column(kind, s, bins), before, k, s, bins[k])
    ensures kind == Sums && bins[k].lo <= bins[k].hi < |s| ==>
              AppendedSum(before + Column(kind, s, bins), before, k, s, bins[k])
  {
    hide Column, IsAvg, IsSum, RangeAvg, RangeSum;
    ColumnAt(kind, s, bins, k);
    var b := bins[k];
    if b.lo <= b.hi < |s| {
      AvgIs(s, b.lo, b.hi);
      SumIs(s, b.lo, b.hi);
    }
  }

  /** Appending the days of some bins appends the day of each. */
  lemma BinnedDays(before: ZoomSet, blocks: ZoomSet, bins: seq<Bin>, k: nat)
    requires k < |bins| && Fits(blocks, bins[k])
    ensures IsDay(Concat(before, Binned(blocks, bins)), before, k, blocks, bins[k])
  {
    hide Column, AppendedAvg, AppendedSum, RangeAvg, RangeSum;
    CellAppended(Start, [], before.time, bins, k);
    CellAppended(LastHeight, [], before.height, bins, k);
    CellAppended(Average, blocks.poolSize, before.poolSize, bins, k);
    CellAppended(Average, blocks.poolValue, before.poolValue, bins, k);
    CellAppended(Sums, blocks.blockSize, before.blockSize, bins, k);
    CellAppended(Sums, blocks.txCount, before.txCount, bins, k);
    CellAppended(Sums, blocks.newAtoms, before.newAtoms, bins, k);
    CellAppended(NextWork, blocks.chainwork, before.chainwork, bins, k);
    CellAppended(Sums, blocks.fees, before.fees, bins, k);
    CellAppended(Sums, blocks.totalMixed, before.totalMixed, bins, k);
    CellAppended(Average, blocks.anonymitySet, before.anonymitySet, bins, k);
  }

  lemma ConcatEven(a: ZoomSet, b: ZoomSet, n: nat, m: nat)
    requires Even(a, n) && Even(b, m)
    ensures Even(Concat(a, b), n + m) && Prefix(a, Concat(a, b))
  {
  }

  lemma BinnedSplit(z: ZoomSet, a: seq<Bin>, b: seq<Bin>)
    ensures Binned(z, a + b) == Concat(Binned(z, a), Binned(z, b))
  {
    hide Column;
    ColumnSplit(LastHeight, [], a, b);
    ColumnSplit(Start, [], a, b);
    ColumnSplit(Average, z.poolSize, a, b);
    ColumnSplit(Average, z.poolValue, a, b);
    ColumnSplit(Sums, z.blockSize, a, b);
    ColumnSplit(Sums, z.txCount, a, b);
    ColumnSplit(Sums, z.newAtoms, a, b);
    ColumnSplit(NextWork, z.chainwork, a, b);
    ColumnSplit(Sums, z.fees, a, b);
    ColumnSplit(Sums, z.totalMixed, a, b);
    ColumnSplit(Average, z.anonymitySet, a, b);
  }

  lemma BinnedSame(z: ZoomSet, more: ZoomSet, n: nat, bins: seq<Bin>)
    requires Even(z, n) && Prefix(z, more) && InBounds(bins, n)
    ensures Binned(more, bins) == Binned(z, bins)
  {
    hide Column, InBounds;
    ColumnSame(Average, z.poolSize, more.poolSize, bins);
    ColumnSame(Average, z.poolValue, more.poolValue, bins);
    ColumnSame(Sums, z.blockSize, more.blockSize, bins);
    ColumnSame(Sums, z.txCount, more.txCount, bins);
    ColumnSame(Sums, z.newAtoms, more.newAtoms, bins);
    ColumnSame(NextWork, z.chainwork, more.chainwork, bins);
    ColumnSame(Sums, z.fees, more.fees, bins);
    ColumnSame(Sums, z.totalMixed, more.totalMixed, bins);
    ColumnSame(Average, z.anonymitySet, more.anonymitySet, bins);
  }

  lemma SnipConcat(a: ZoomSet, b: ZoomSet, n: nat)
    requires Even(a, n)
    ensures Snip(Concat(a, b), n) == a
  {
  }

  /** No series is longer than n. */
  ghost predicate NoLonger(z: ZoomSet, n: nat) {
    && |z.height| <= n && |z.time| <= n && |z.poolSize| <= n && |z.poolValue| <= n && |z.blockSize| <= n
    && |z.txCount| <= n && |z.newAtoms| <= n && |z.chainwork| <= n && |z.fees| <= n && |z.totalMixed| <= n
    && |z.anonymitySet| <= n
  }

  /** Snip gives the longest beginning whose series have at most the length, whatever their lengths were. */
  lemma SnipIsLongest(z: ZoomSet, p: ZoomSet, length: int)
    ensures Prefix(p, Snip(z, length)) <==> Prefix(p, z) && NoLonger(p, if length < 0 then 0 else length)
  {
    hide SnipSeq;
    var n := if length < 0 then 0 else length;
    SnipOne(z.height, p.height, n);
    SnipOne(z.time, p.time, n);
    SnipOne(z.poolSize, p.poolSize, n);
    SnipOne(z.poolValue, p.poolValue, n);
    SnipOne(z.blockSize, p.blockSize, n);
    SnipOne(z.txCount, p.txCount, n);
    SnipOne(z.newAtoms, p.newAtoms, n);
    SnipOne(z.chainwork, p.chainwork, n);
    SnipOne(z.fees, p.fees, n);
    SnipOne(z.totalMixed, p.totalMixed, n);
    SnipOne(z.anonymitySet, p.anonymitySet, n);
  }

  lemma SnipOne<T>(s: seq<T>, p: seq<T>, n: nat)
    ensures p <= SnipSeq(s, n) <==> p <= s && |p| <= n
  {
  }

  ghost predicate WindowsPrefix(a: WindowSet, b: WindowSet) {
    && a.time <= b.time && a.powDiff <= b.powDiff && a.ticketPrice <= b.ticketPrice && a.stakeCount <= b.stakeCount
    && a.missedVotes <= b.missedVotes
  }

  ghost predicate WindowsNoLonger(w: WindowSet, n: nat) {
    && |w.time| <= n && |w.powDiff| <= n && |w.ticketPrice| <= n && |w.stakeCount| <= n && |w.missedVotes| <= n
  }

  /** The same of the windows. */
  lemma SnipWindowsIsLongest(w: WindowSet, p: WindowSet, length: int)
    ensures WindowsPrefix(p, SnipWindows(w, length))
       <==> WindowsPrefix(p, w) && WindowsNoLonger(p, if length < 0 then 0 else length)
  {
    hide SnipSeq;
    var n := if length < 0 then 0 else length;
    SnipOne(w.time, p.time, n);
    SnipOne(w.powDiff, p.powDiff, n);
    SnipOne(w.ticketPrice, p.ticketPrice, n);
    SnipOne(w.stakeCount, p.stakeCount, n);
    SnipOne(w.missedVotes, p.missedVotes, n);
  }

  lemma SnipPrefix(z: ZoomSet, n: nat, m: nat)
    requires Even(z, n) && m <= n
    ensures Even(Snip(z, m), m) && Prefix(Snip(z, m), z)
  {
  }

  // ----- lengths

  function Least(lens: seq<nat>): (n: nat)
    requires lens != []
    ensures n in lens && forall l :: l in lens ==> n <= l
  {
    if |lens| == 1 then lens[0] else
      var rest := Least(lens[..|lens| - 1]);
      assert forall l :: l in lens ==> l in lens[..|lens| - 1] || l == lens[|lens| - 1];
      if lens[|lens| - 1] < rest then lens[|lens| - 1] else rest
  }

  predicate AllEqual(lens: seq<nat>) {
    forall i :: 0 <= i < |lens| ==> lens[i] == lens[0]
  }

  /** ValidateLengths: the least length, and whether they differ. */
  method ValidateLengths(lens: seq<nat>) returns (n: nat, mismatch: bool)
    ensures n == if lens == [] then 0 else Least(lens)
    ensures mismatch <==> !AllEqual(lens)
  {
    if |lens| == 0 {
      return 0, false;
    }
    var firstLen := lens[0];
    var shortest, longest := firstLen, firstLen;
    for i := 1 to |lens|
      invariant shortest == Least(lens[..i]) && shortest <= firstLen <= longest
      invariant shortest == longest <==> forall k :: 0 <= k < i ==> lens[k] == firstLen
    {
      assert lens[..i + 1][..i] == lens[..i];
      var dLen := lens[i];
      if dLen != firstLen {
        if dLen < shortest {
          shortest := dLen;
        } else if dLen > longest {
          longest := dLen;
        }
      }
    }
    assert lens[..|lens|] == lens;
    if shortest != longest {
      return shortest, true;
    }
    return firstLen, false;
  }

  lemma EvenIff(z: ZoomSet, n: nat)
    ensures Even(z, n) <==> AllEqual(Lengths(z)) && Least(Lengths(z)) == n
  {
    var ls := Lengths(z);
    assert ls[0] == |z.height| && ls[1] == |z.time| && ls[2] == |z.poolSize| && ls[3] == |z.poolValue|;
    assert ls[4] == |z.blockSize| && ls[5] == |z.txCount| && ls[6] == |z.newAtoms| && ls[7] == |z.chainwork|;
    assert ls[8] == |z.fees| && ls[9] == |z.totalMixed| && ls[10] == |z.anonymitySet|;
  }

  lemma SnipLevels(z: ZoomSet)
    ensures Even(Snip(z, Least(Lengths(z))), Least(Lengths(z)))
  {
    hide Least;
    var ls := Lengths(z);
    forall k | 0 <= k < |ls| ensures Least(ls) <= ls[k] {
      assert ls[k] in ls;
    }
    assert ls[0] == |z.height| && ls[1] == |z.time| && ls[2] == |z.poolSize| && ls[3] == |z.poolValue|;
    assert ls[4] == |z.blockSize| && ls[5] == |z.txCount| && ls[6] == |z.newAtoms| && ls[7] == |z.chainwork|;
    assert ls[8] == |z.fees| && ls[9] == |z.totalMixed| && ls[10] == |z.anonymitySet|;
  }

  // ----- the loops of Lengthen

  /** The index that begins new data. */
  method FindOffset(times: seq<nat>, start: nat) returns (offset: nat)
    ensures offset == Offset(times, start)
  {
    offset := 0;
    for i := 0 to |times|
      invariant offset == 0 && forall j :: 0 <= j < i ==> times[j] <= start
    {
      if times[i] > start {
        FirstIs(times, start + 1, i);
        offset := i;
        return;
      }
    }
  }

  /** The intervals of the new days. */
  method FindBins(times: seq<nat>, offset: nat, first: nat, end: nat) returns (bins: seq<Bin>)
    requires offset <= |times|
    ensures bins == Scan(times, offset, offset, first, end)
  {
    hide Scan;
    bins := [];
    var start: nat, next: nat, startIdx: nat := first, first + DAY, 0;
    for i := 0 to |times| - offset
      invariant next == start + DAY
      invariant bins + Scan(times, offset + i, startIdx + offset, start, end) == Scan(times, offset, offset, first, end)
    {
      var t := times[offset + i];
      ScanUnfold(times, offset + i, startIdx + offset, start, end);
      if t >= next {
        BinsMore(bins, Bin(start, startIdx + offset, i + offset), Scan(times, offset + i + 1, i + offset, next, end));
        bins := bins + [Bin(start, startIdx + offset, i + offset)];
        if t > end {
          return;
        }
        start := next;
        next := next + DAY;
        startIdx := i;
      }
    }
    ScanEnd(times, startIdx + offset, start, end);
  }

  lemma BinsMore(bins: seq<Bin>, b: Bin, rest: seq<Bin>)
    ensures bins + ([b] + rest) == bins + [b] + rest && bins + [b] == bins + ([b] + [])
  {
  }

  // ----- the cache

  datatype Outcome = Done | NoWindows | DayMismatch

  class ChartData {
    var blocks: ZoomSet
    var windows: WindowSet
    var days: ZoomSet
    var blocksID: nat
    var windowsID: nat
    var daysID: nat

    /** Appends to every day series but Time the values of the new days. */
    method AddDays(bins: seq<Bin>)
      requires Even(blocks, |blocks.time|) && InBounds(bins, |blocks.time|)
      modifies this`days
      ensures days == Concat(old(days), Binned(blocks, bins).(time := []))
    {
      hide Even, InBounds, Column, Cell, RangeSum, RangeAvg;
      for j := 0 to |bins|
        invariant days == Concat(old(days), Binned(blocks, bins[..j]).(time := []))
      {
        var b := bins[j];
        BinFits(blocks, bins, j);
        AddDay(b);
        assert bins[..j + 1] == bins[..j] + [b];
        BinnedSplit(blocks, bins[..j], [b]);
        ConcatMore(old(days), Binned(blocks, bins[..j]).(time := []), Binned(blocks, [b]).(time := []));
      }
      assert bins[..|bins|] == bins;
    }

    /** One day of AddDays */
    method AddDay(b: Bin)
      requires Fits(blocks, b)
      modifies this`days
      ensures days == Concat(old(days), Binned(blocks, [b]).(time := []))
    {
      hide RangeSum, RangeAvg, IsSum, IsAvg;
      var poolSize := Avg(blocks.poolSize, b.lo, b.hi);
      var poolValue := Avg(blocks.poolValue, b.lo, b.hi);
      var blockSize := Sum(blocks.blockSize, b.lo, b.hi);
      var txCount := Sum(blocks.txCount, b.lo, b.hi);
      var newAtoms := Sum(blocks.newAtoms, b.lo, b.hi);
      var chainwork := blocks.chainwork[b.hi];
      var fees := Sum(blocks.fees, b.lo, b.hi);
      var totalMixed := Sum(blocks.totalMixed, b.lo, b.hi);
      var anonymitySet := Avg(blocks.anonymitySet, b.lo, b.hi);
      days := Concat(days, ZoomSet([(b.hi - 1) % TWO_64], [], [poolSize], [poolValue], [blockSize], [txCount],
                                   [newAtoms], [chainwork], [fees], [totalMixed], [anonymitySet]));
    }

    /** The part of Lengthen after the lengths are validated */
    method BinDays() returns (added: nat)
      requires Even(blocks, |blocks.time|) && blocks.time != []
      modifies this`days
      ensures added == |NewBins(blocks.time, old(days).time)|
      ensures days == Concat(old(days), Binned(blocks, NewBins(blocks.time, old(days).time)))
    {
      hide Column, Even, Scan, Offset;
      var times := blocks.time;
      var end := Midnight(times[|times| - 1]);
      var start := 0;
      if |days.time| > 0 {
        start := days.time[|days.time| - 1] + DAY;
      } else {
        start := Midnight(times[0]);
      }
      var offset := FindOffset(times, start);
      var bins := [];
      if end > start + DAY {
        bins := FindBins(times, offset, start, end);
        NewBinsContiguous(times, days.time);
        AddDays(bins);
        var starts := Starts(bins);
        days := days.(time := days.time + starts);
      } else {
        NoBins(blocks, days);
      }
      added := |bins|;
    }

    /** Lengthen */
    method Lengthen() returns (r: Outcome)
      modifies this
      ensures blocks == Snip(old(blocks), Least(Lengths(old(blocks))))
      ensures var n, w := Least(Lengths(old(blocks))), Least(WindowLengths(old(windows)));
              && (n == 0 ==> r == Done && unchanged(`windows, `days, `blocksID, `windowsID, `daysID))
              && (n > 0 ==> windows == SnipWindows(old(windows), w))
              && (n > 0 && w == 0 ==> r == NoWindows && unchanged(`days, `blocksID, `windowsID, `daysID))
              && (n > 0 && w > 0 ==>
                  && blocks.time != [] && windows.time != []
                  && days == Concat(old(days), Binned(blocks, NewBins(blocks.time, old(days).time)))
                  && AreDays(days, old(days), blocks, NewBins(blocks.time, old(days).time))
                  && r == (if AllEqual(Lengths(days)) then Done else DayMismatch)
                  && (r == Done ==>
                      && daysID == old(daysID) + (if NewBins(blocks.time, old(days).time) == [] then 0 else 1)
                      && blocksID == blocks.time[|blocks.time| - 1]
                      && windowsID == windows.time[|windows.time| - 1]))
    {
      hide Even, Least, AllEqual, NewBins, Binned, Snip, SnipWindows, Lengths, WindowLengths, Concat, AreDays;
      var shortest, mismatch := ValidateLengths(Lengths(blocks));
      LevelBlocks(blocks, mismatch);
      if mismatch {
        blocks := Snip(blocks, shortest);
      }
      if shortest == 0 {
        return Done;
      }
      var w, wMismatch := ValidateLengths(WindowLengths(windows));
      LevelWindows(windows, wMismatch);
      if wMismatch {
        windows := SnipWindows(windows, w);
      }
      if w == 0 {
        return NoWindows;
      }
      AllDays(days, blocks);
      var added := BinDays();
      var _, dMismatch := ValidateLengths(Lengths(days));
      if dMismatch {
        return DayMismatch;
      }
      if added > 0 {
        daysID := daysID + 1;
      }
      blocksID := blocks.time[|blocks.time| - 1];
      windowsID := windows.time[|windows.time| - 1];
      return Done;
    }

    /** ReorgHandler */
    method ReorgHandler(newChainHeight: int, newChainLen: nat)
      modifies this`blocks, this`days, this`windows
      ensures blocks == Snip(old(blocks), newChainHeight - newChainLen + 1)
      ensures days == Snip(old(days), |old(days).time| - 2)
      ensures windows == SnipWindows(old(windows), |old(windows).time| - 1)
    {
      var ancestor := newChainHeight - newChainLen;
      blocks := Snip(blocks, ancestor + 1);
      days := Snip(days, |days.time| - 2);
      windows := SnipWindows(windows, |windows.time| - 1);
    }
  }

  lemma BinFits(z: ZoomSet, bins: seq<Bin>, k: nat)
    requires Even(z, |z.time|) && InBounds(bins, |z.time|) && k < |bins|
    ensures Fits(z, bins[k])
  {
  }

  lemma ConcatMore(a: ZoomSet, b: ZoomSet, c: ZoomSet)
    ensures Concat(Concat(a, b), c) == Concat(a, Concat(b, c))
  {
  }

  lemma NoBins(z: ZoomSet, days: ZoomSet)
    ensures Concat(days, Binned(z, [])) == days
  {
  }

  /** The stamps appended to the Time series. */
  method Starts(bins: seq<Bin>) returns (starts: seq<nat>)
    ensures starts == Column(Start, [], bins)
  {
    starts := [];
    for i := 0 to |bins|
      invariant starts == Column(Start, [], bins[..i])
    {
      assert bins[..i + 1][..i] == bins[..i];
      starts := starts + [bins[i].start];
    }
    assert bins[..|bins|] == bins;
  }

  lemma LevelBlocks(z: ZoomSet, mismatch: bool)
    requires mismatch <==> !AllEqual(Lengths(z))
    ensures var n := Least(Lengths(z));
            && Even(Snip(z, n), n)
            && |Snip(z, n).time| == n
            && (!mismatch ==> Snip(z, n) == z)
  {
    hide Least, AllEqual;
    SnipLevels(z);
    EvenIff(z, Least(Lengths(z)));
  }

  lemma LevelWindows(w: WindowSet, mismatch: bool)
    requires mismatch <==> !AllEqual(WindowLengths(w))
    ensures var n := Least(WindowLengths(w));
            && |SnipWindows(w, n).time| == n
            && (!mismatch ==> SnipWindows(w, n) == w)
  {
    hide Least;
    var ls := WindowLengths(w);
    forall k | 0 <= k < |ls| ensures Least(ls) <= ls[k] {
      assert ls[k] in ls;
    }
    assert ls[0] == |w.time| && ls[1] == |w.powDiff| && ls[2] == |w.ticketPrice|;
    assert ls[3] == |w.stakeCount| && ls[4] == |w.missedVotes|;
  }
}
