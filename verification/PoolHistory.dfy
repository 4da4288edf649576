/**
 The meaning of a ticket pool history: a sequence of diffs, each saying which
 tickets enter and leave the live pool at one block, replayed from the empty
 pool at genesis.
 */
module PoolHistory {
  import opened Bytes

  datatype PoolDiff = PoolDiff(ins: seq<Hash>, outs: seq<Hash>)

  function SetOf(s: seq<Hash>): set<Hash> {
    set h | h in s
  }

  ghost predicate NoDup(s: seq<Hash>) {
    forall i, j :: 0 <= i < j < |s| ==> s[i] != s[j]
  }

  /** Insert every ticket of `ins`, then delete every ticket of `outs`. */
  function Apply(pool: set<Hash>, ins: seq<Hash>, outs: seq<Hash>): set<Hash> {
    pool + SetOf(ins) - SetOf(outs)
  }

  /** The diff fits the pool: it adds new tickets only and removes present ones only. */
  ghost predicate ValidDiff(pool: set<Hash>, d: PoolDiff) {
    && NoDup(d.ins)
    && NoDup(d.outs)
    && SetOf(d.ins) !! pool
    && SetOf(d.outs) <= pool + SetOf(d.ins)
  }

  /** The live pool after all of `diffs`, starting from the empty pool. */
  function Replay(diffs: seq<PoolDiff>): set<Hash> {
    if diffs == [] then {}
    else
      var d := diffs[|diffs| - 1];
      Apply(Replay(diffs[..|diffs| - 1]), d.ins, d.outs)
  }

  /** Every diff fits the pool left by the diffs before it. */
  ghost predicate ValidHistory(diffs: seq<PoolDiff>) {
    forall i :: 0 <= i < |diffs| ==> ValidDiff(Replay(diffs[..i]), diffs[i])
  }

  lemma ReplayStep(diffs: seq<PoolDiff>, i: nat)
    requires i < |diffs|
    ensures Replay(diffs[..i + 1]) == Apply(Replay(diffs[..i]), diffs[i].ins, diffs[i].outs)
  {
    assert diffs[..i + 1][..i] == diffs[..i];
  }

  lemma ValidPrefix(diffs: seq<PoolDiff>, n: nat)
    requires ValidHistory(diffs) && n <= |diffs|
    ensures ValidHistory(diffs[..n])
  {
    forall i | 0 <= i < n
      ensures ValidDiff(Replay(diffs[..n][..i]), diffs[..n][i])
    {
      assert diffs[..n][..i] == diffs[..i];
    }
  }

  lemma ValidAppend(diffs: seq<PoolDiff>, d: PoolDiff)
    ensures ValidHistory(diffs + [d]) <==> ValidHistory(diffs) && ValidDiff(Replay(diffs), d)
  {
    var all := diffs + [d];
    assert all[..|diffs|] == diffs;
    forall i | 0 <= i < |diffs|
      ensures ValidDiff(Replay(all[..i]), all[i]) <==> ValidDiff(Replay(diffs[..i]), diffs[i])
    {
      assert all[..i] == diffs[..i];
    }
    if ValidHistory(all) {
      assert ValidDiff(Replay(all[..|diffs|]), all[|diffs|]);
    }
  }

  /** A duplicate-free list has as many elements as its set. */
  lemma {:induction false} NoDupSize(s: seq<Hash>)
    requires NoDup(s)
    ensures |SetOf(s)| == |s|
  {
    if s != [] {
      var n := |s| - 1;
      NoDupSize(s[..n]);
      assert SetOf(s) == SetOf(s[..n]) + {s[n]};
    }
  }

  /**
   How many entries of a list have no effect, because they repeat an earlier
   entry or lie outside `room`.
   */
  function Wasted(s: seq<Hash>, room: set<Hash>): int {
    |s| - |SetOf(s) * room|
  }

  /**
   The size test of advance compares the pool's size with the size the diff's
   lengths predict. It passes exactly when the diff wastes as many insertions as
   deletions, so for a diff that wastes none, and also for some that do.
   */
  lemma SizeCheckPassesIff(pool: set<Hash>, d: PoolDiff)
    ensures |Apply(pool, d.ins, d.outs)| == |pool| + |d.ins| - |d.outs|
       <==> |d.ins| - |SetOf(d.ins) - pool| == Wasted(d.outs, pool + SetOf(d.ins))
  {
    var grown := pool + SetOf(d.ins);
    assert grown == pool + (SetOf(d.ins) - pool);
    assert Apply(pool, d.ins, d.outs) == grown - (SetOf(d.outs) * grown);
    assert |grown - (SetOf(d.outs) * grown)| == |grown| - |SetOf(d.outs) * grown|;
  }

  /** A valid diff changes the pool's size by exactly the difference of its lengths, both ways. */
  lemma ValidDiffSizes(pool: set<Hash>, d: PoolDiff)
    requires ValidDiff(pool, d)
    ensures |Apply(pool, d.ins, d.outs)| == |pool| + |d.ins| - |d.outs|
    ensures Apply(Apply(pool, d.ins, d.outs), d.outs, d.ins) == pool
  {
    NoDupSize(d.ins);
    NoDupSize(d.outs);
    var grown := pool + SetOf(d.ins);
    assert SetOf(d.ins) - pool == SetOf(d.ins);
    assert SetOf(d.outs) * grown == SetOf(d.outs);
    SizeCheckPassesIff(pool, d);
    UndoRestoresIff(pool, d);
  }

  /**
   Applying a diff backwards (outs in, ins out) restores the pool exactly when
   the diff inserted nothing already there and deleted nothing that was absent.
   Repeated entries do no harm here.
   */
  lemma UndoRestoresIff(pool: set<Hash>, d: PoolDiff)
    ensures Apply(Apply(pool, d.ins, d.outs), d.outs, d.ins) == pool
       <==> SetOf(d.ins) !! pool && SetOf(d.outs) <= pool + SetOf(d.ins)
  {
    var back := Apply(Apply(pool, d.ins, d.outs), d.outs, d.ins);
    assert back == pool + SetOf(d.outs) - SetOf(d.ins);
    if back == pool {
      forall h | h in SetOf(d.outs)
        ensures h in pool + SetOf(d.ins)
      {
        if h !in SetOf(d.ins) {
          assert h in back;
        }
      }
      assert forall h :: h in SetOf(d.ins) ==> h !in back;
    }
  }

  /** A ticket inserted twice is lost by the undo, and one deleted while absent appears by it. */
  lemma InvalidNotRestored(pool: set<Hash>, h: Hash)
    ensures h in pool ==> Apply(Apply(pool, [h], []), [], [h]) == pool - {h} != pool
    ensures h !in pool ==> Apply(Apply(pool, [], [h]), [h], []) == pool + {h} != pool
  {
    assert SetOf([h]) == {h} && SetOf([]) == {};
    assert h in pool ==> h !in pool - {h};
    assert h in pool + {h};
  }
}
