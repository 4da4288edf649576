/**
 Which runs of the ticket pool leave a database that loads. A write that fails
 leaves its height to a later one, and a write above it leaves a gap.
 */
module StoreRuns {
  import opened Common
  import opened PoolHistory
  import opened DiffCodec
  import opened DiffStore
  import opened TicketPool
  import opened PoolRuns

  /** The heights on disk after one operation, and after a run. */
  function HeightsNext(v: View, heights: set<nat>, op: Op): set<nat> {
    if Writes(v, op).Some? then heights + {Writes(v, op).value} else heights
  }

  function Heights(v: View, heights: set<nat>, ops: seq<Op>): set<nat>
    decreases |ops|
  {
    if ops == [] then heights else Heights(Next(v, ops[0]), HeightsNext(v, heights, ops[0]), ops[1..])
  }

  function DiskNext(v: View, disk: Disk, op: Op): Disk {
    if Writes(v, op).Some? then disk[op.height as nat := op.diff] else disk
  }

  function DiskAfter(v: View, disk: Disk, ops: seq<Op>): Disk
    decreases |ops|
  {
    if ops == [] then disk else DiskAfter(Next(v, ops[0]), DiskNext(v, disk, ops[0]), ops[1..])
  }

  lemma {:induction false} HeightsAre(v: View, disk: Disk, ops: seq<Op>)
    ensures DiskAfter(v, disk, ops).Keys == Heights(v, disk.Keys, ops)
    decreases |ops|
  {
    hide Next;
    if ops != [] {
      HeightsAre(Next(v, ops[0]), DiskNext(v, disk, ops[0]), ops[1..]);
      assert DiskNext(v, disk, ops[0]).Keys == HeightsNext(v, disk.Keys, ops[0]);
    }
  }

  lemma {:induction false} RunRecords(v: View, db: Database, disk: Disk, ops: seq<Op>)
    requires LegalRun(v, ops) && Records(db, disk)
    ensures Records(DatabaseAfter(v, db, ops), DiskAfter(v, disk, ops))
    decreases |ops|
  {
    hide Records, Next, StoreDiff, Encodable;
    if ops != [] {
      var op := ops[0];
      if Writes(v, op).Some? {
        StoreRecords(db, disk, op.height, op.diff);
      }
      RunRecords(Next(v, op), DatabaseNext(v, db, op), DiskNext(v, disk, op), ops[1..]);
    }
  }

  /**
   After any legal run the database loads if and only if no height on it, from
   before or from a write that succeeded, is without the one below.
   */
  lemma RunLoadsIff(v: View, db: Database, disk: Disk, ops: seq<Op>)
    requires LegalRun(v, ops) && Records(db, disk)
    ensures Loads(DatabaseAfter(v, db, ops)) <==> NoGap(Heights(v, disk.Keys, ops))
  {
    hide Records, Loads, NoGap, LegalRun;
    RunRecords(v, db, disk, ops);
    LoadsIff(DatabaseAfter(v, db, ops), DiskAfter(v, disk, ops));
    HeightsAre(v, disk, ops);
  }

  // ----- a crash at any point

  /** Every write is at most one above the highest before it; n is the highest at the start. */
  predicate Steady(v: View, n: nat, ops: seq<Op>)
    decreases |ops|
  {
    ops != [] ==>
      var w := Writes(v, ops[0]);
      && (w.Some? ==> w.value <= n + 1)
      && Steady(Next(v, ops[0]), if w.Some? then Max(n, w.value) else n, ops[1..])
  }

  /** However much of the run is done, the heights have no gap. */
  ghost predicate NeverGap(v: View, heights: set<nat>, ops: seq<Op>) {
    forall k :: 0 <= k <= |ops| ==> NoGap(Heights(v, heights, ops[..k]))
  }

  lemma NeverGapNext(v: View, heights: set<nat>, ops: seq<Op>)
    requires ops != []
    ensures NeverGap(v, heights, ops) <==>
            NoGap(heights) && NeverGap(Next(v, ops[0]), HeightsNext(v, heights, ops[0]), ops[1..])
  {
    hide Next, HeightsNext, NoGap;
    var w, hs, rest := Next(v, ops[0]), HeightsNext(v, heights, ops[0]), ops[1..];
    assert Heights(v, heights, ops[..0]) == heights;
    forall k | 0 <= k <= |rest| ensures Heights(w, hs, rest[..k]) == Heights(v, heights, ops[..k + 1]) {
      assert ops[..k + 1][0] == ops[0] && ops[..k + 1][1..] == rest[..k];
    }
    if NeverGap(v, heights, ops) {
      forall k | 0 <= k <= |rest| ensures NoGap(Heights(w, hs, rest[..k])) {
        assert NoGap(Heights(v, heights, ops[..k + 1]));
      }
      assert NoGap(Heights(v, heights, ops[..0]));
    }
    if NoGap(heights) && NeverGap(w, hs, rest) {
      forall k | 0 <= k <= |ops| ensures NoGap(Heights(v, heights, ops[..k])) {
        if k > 0 {
          assert NoGap(Heights(w, hs, rest[..k - 1]));
        }
      }
    }
  }

  /** One more height leaves the heights without a gap just when it is at most one above the highest. */
  lemma OneMoreHeight(heights: set<nat>, n: nat, h: nat)
    requires Upto(heights, n) && h >= 1
    ensures NoGap(heights)
    ensures NoGap(heights + {h}) <==> h <= n + 1
    ensures h <= n + 1 ==> Upto(heights + {h}, Max(n, h))
  {
    if NoGap(heights + {h}) && h > 1 {
      assert h - 1 in heights + {h};
    }
  }

  lemma {:induction false} NeverGapIff(v: View, heights: set<nat>, n: nat, ops: seq<Op>)
    requires Upto(heights, n)
    ensures NeverGap(v, heights, ops) <==> Steady(v, n, ops)
    decreases |ops|
  {
    hide Next, Upto, NoGap, NeverGap;
    OneMoreHeight(heights, n, 1);
    if ops == [] {
      NeverGapEmpty(v, heights);
    } else {
      NeverGapNext(v, heights, ops);
      var w := Writes(v, ops[0]);
      if w.None? {
        NeverGapIff(Next(v, ops[0]), heights, n, ops[1..]);
      } else {
        OneMoreHeight(heights, n, w.value);
        if w.value <= n + 1 {
          NeverGapIff(Next(v, ops[0]), heights + {w.value}, Max(n, w.value), ops[1..]);
        } else {
          NeverGapStart(Next(v, ops[0]), heights + {w.value}, ops[1..]);
        }
      }
    }
  }

  lemma NeverGapEmpty(v: View, heights: set<nat>)
    ensures NeverGap(v, heights, []) <==> NoGap(heights)
  {
    hide NoGap;
    var none: seq<Op> := [];
    assert none[..0] == none;
    assert NeverGap(v, heights, none) ==> NoGap(Heights(v, heights, none[..0]));
  }

  lemma NeverGapStart(v: View, heights: set<nat>, ops: seq<Op>)
    ensures NeverGap(v, heights, ops) ==> NoGap(heights)
  {
    hide NoGap;
    assert ops[..0] == [];
    assert NeverGap(v, heights, ops) ==> NoGap(Heights(v, heights, ops[..0]));
  }

  lemma {:induction false} LegalPrefix(v: View, ops: seq<Op>, k: nat)
    requires LegalRun(v, ops) && k <= |ops|
    ensures LegalRun(v, ops[..k])
    decreases |ops|
  {
    hide Legal, Next;
    if k > 0 {
      LegalPrefix(Next(v, ops[0]), ops[1..], k - 1);
      assert ops[..k][1..] == ops[1..][..k - 1];
    }
  }

  /** However much of the run is done, the database loads. */
  ghost predicate AlwaysLoads(v: View, db: Database, ops: seq<Op>) {
    forall k :: 0 <= k <= |ops| ==> LegalRun(v, ops[..k]) && Loads(DatabaseAfter(v, db, ops[..k]))
  }

  /**
   On a database without gaps, a legal run may be cut short anywhere and the
   database still loads if and only if every write that succeeds is at most one
   above the highest before it.
   */
  lemma AlwaysLoadsIff(v: View, db: Database, disk: Disk, n: nat, ops: seq<Op>)
    requires LegalRun(v, ops) && Records(db, disk) && Upto(disk.Keys, n)
    ensures AlwaysLoads(v, db, ops) <==> Steady(v, n, ops)
  {
    hide LegalRun, Records, Upto, Loads, NoGap, Heights;
    NeverGapIff(v, disk.Keys, n, ops);
    forall k | 0 <= k <= |ops|
      ensures LegalRun(v, ops[..k])
      ensures Loads(DatabaseAfter(v, db, ops[..k])) <==> NoGap(Heights(v, disk.Keys, ops[..k]))
    {
      LegalPrefix(v, ops, k);
      RunLoadsIff(v, db, disk, ops[..k]);
    }
  }

  // ----- runs that leave a gap, and fill it

  /** From an empty store: the write of height 1 fails, that of height 2 succeeds, and the store does not load. */
  method GapLeft(d1: PoolDiff, d2: PoolDiff) returns (tp: TicketPool)
    requires Encodable(d1) && Encodable(d2)
    ensures fresh(tp) && tp.Coherent() && tp.cursor == 0 && tp.diffs == [d1, d2]
    ensures Records(tp.diffDB, map[2 := d2]) && !Loads(tp.diffDB)
  {
    hide Encodable, Records, Mirrors, StoreDiff, Loads, Replay;
    NothingStored();
    tp := new TicketPool([], map[]);
    var first := tp.Append(d1, 1, false);
    var second := tp.Append(d2, 2, true);
    StoreRecords(map[], map[], 2, d2);
    LoadsIff(tp.diffDB, map[2 := d2]);
    GapBelow(2, d2);
  }

  lemma NothingStored()
    ensures Mirrors(map[], []) && Records(map[], map[])
  {
  }

  lemma GapBelow(h: nat, d: PoolDiff)
    requires h > 1
    ensures !NoGap(map[h := d].Keys)
  {
    assert h in map[h := d].Keys && h - 1 !in map[h := d].Keys;
  }

  /** Trimming both diffs and writing height 1 again fills the gap: the store loads, with the old diff above. */
  method GapFilled(d1: PoolDiff, d2: PoolDiff) returns (tp: TicketPool)
    requires Encodable(d1) && Encodable(d2)
    ensures tp.Coherent() && tp.diffs == [d1] && Mirrors(tp.diffDB, [d1, d2])
  {
    hide Encodable, Records, Mirrors, StoreDiff, Loads, Replay, ValidHistory;
    tp := GapLeft(d1, d2);
    var _, _ := tp.Trim();
    var _, _ := tp.Trim();
    StoreRecords(tp.diffDB, map[2 := d2], 1, d1);
    var again := tp.Append(d1, 1, true);
    MirrorsIffLists(tp.diffDB, map[2 := d2, 1 := d1], [d1, d2]);
  }
}
