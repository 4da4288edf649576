/**
 The ticket pool: an in-memory list of diffs, a cursor that moves over it in both
 directions, the pool of live tickets at the cursor, and the on-disk copy of the
 diffs. Each exported operation runs under the pool's mutex, so it is one step.
 */
module TicketPool {
  import opened Common
  import opened Bytes
  import opened PoolHistory
  import opened DiffCodec
  import opened DiffStore
  import opened Wrappers
  import opened Widths

  class TicketPool {
    var cursor: int
    var tip: int
    var diffs: seq<PoolDiff>
    var pool: set<Hash>
    var diffDB: Database
    /** The diffs that the database holds: those in memory and any left behind by Trim. */
    ghost var stored: seq<PoolDiff>

    /** No index into the diffs is ever out of range. */
    predicate Shape()
      reads this
    {
      0 <= cursor <= tip == |diffs|
    }

    /** The pool is the replay of the diffs below the cursor. */
    predicate Coherent()
      reads this
    {
      Shape() && pool == Replay(diffs[..cursor])
    }

    /** The database holds the diffs in memory, and possibly more after them. */
    ghost predicate Persisted()
      reads this
    {
      Holds(diffDB, stored, diffs)
    }

    /** NewTicketPool, given the diffs it loaded */
    constructor (loaded: seq<PoolDiff>, db: Database)
      requires Mirrors(db, loaded)
      ensures Coherent() && Persisted()
      ensures diffs == loaded && cursor == 0 && diffDB == db && stored == loaded
    {
      cursor, tip, diffs, pool := 0, |loaded|, loaded, {};
      diffDB, stored := db, loaded;
    }

    function MaxCursor(): int
      reads this
    {
      if tip == 0 then 0 else tip - 1
    }

    /** applyDiff */
    method ApplyDiff(ins: seq<Hash>, outs: seq<Hash>)
      modifies this`pool
      ensures pool == Apply(old(pool), ins, outs)
    {
      for i := 0 to |ins|
        invariant pool == old(pool) + SetOf(ins[..i])
      {
        assert ins[..i + 1] == ins[..i] + [ins[i]];
        pool := pool + {ins[i]};
      }
      assert ins[..|ins|] == ins;
      ghost var grown := pool;
      for i := 0 to |outs|
        invariant pool == grown - SetOf(outs[..i])
      {
        assert outs[..i + 1] == outs[..i] + [outs[i]];
        pool := pool - {outs[i]};
      }
      assert outs[..|outs|] == outs;
    }

    /**
     advance. With no diffs at all the guard lets it through to an index out of
     range, so its callers must not call it then.
     */
    method Advance() returns (ok: bool)
      requires Shape() && 0 < tip
      modifies this`cursor, this`pool
      ensures Shape()
      ensures old(cursor) == tip ==> !ok && cursor == old(cursor) && pool == old(pool)
      ensures old(cursor) < tip ==>
                var d := diffs[old(cursor)];
                && cursor == old(cursor) + 1
                && pool == Apply(old(pool), d.ins, d.outs)
                && (ok <==> |pool| == |old(pool)| + |d.ins| - |d.outs|)
    {
      if cursor > MaxCursor() {
        return false;
      }
      var diffToNext := diffs[cursor];
      var expectedFinalSize := |pool| + |diffToNext.ins| - |diffToNext.outs|;
      ApplyDiff(diffToNext.ins, diffToNext.outs);
      cursor := cursor + 1;
      return |pool| == expectedFinalSize;
    }

    /** retreat */
    method Retreat() returns (ok: bool)
      requires Shape()
      modifies this`cursor, this`pool
      ensures Shape()
      ensures old(cursor) == 0 ==> !ok && cursor == 0 && pool == old(pool)
      ensures old(cursor) > 0 ==>
                var d := diffs[old(cursor) - 1];
                && cursor == old(cursor) - 1
                && pool == Apply(old(pool), d.outs, d.ins)
                && (ok <==> |pool| == |old(pool)| - |d.ins| + |d.outs|)
    {
      if cursor == 0 {
        return false;
      }
      var diffFromPrev := diffs[cursor - 1];
      var expectedFinalSize := |pool| - |diffFromPrev.ins| + |diffFromPrev.outs|;
      ApplyDiff(diffFromPrev.outs, diffFromPrev.ins);
      cursor := cursor - 1;
      return |pool| == expectedFinalSize;
    }

    /** On a valid history a step keeps the pool coherent and its size test passes. */
    twostate lemma StepsKeepCoherence()
      requires old(Coherent()) && Shape() && diffs == old(diffs)
      requires ValidHistory(diffs)
      ensures old(cursor) < tip && cursor == old(cursor) + 1
              && pool == Apply(old(pool), diffs[old(cursor)].ins, diffs[old(cursor)].outs) ==>
                && Coherent()
                && |pool| == |old(pool)| + |diffs[old(cursor)].ins| - |diffs[old(cursor)].outs|
      ensures old(cursor) > 0 && cursor == old(cursor) - 1
              && pool == Apply(old(pool), diffs[cursor].outs, diffs[cursor].ins) ==>
                && Coherent()
                && |pool| == |old(pool)| - |diffs[cursor].ins| + |diffs[cursor].outs|
    {
      hide Apply, ValidDiff, Replay;
      var c := old(cursor);
      if c < tip {
        ReplayStep(diffs, c);
        ValidDiffSizes(Replay(diffs[..c]), diffs[c]);
      }
      if c > 0 {
        ReplayStep(diffs, c - 1);
        ValidDiffSizes(Replay(diffs[..c - 1]), diffs[c - 1]);
      }
    }

    /** advanceTo */
    method AdvanceTo(height: int) returns (ok: bool)
      requires Shape()
      modifies this`cursor, this`pool
      ensures Shape()
      ensures height > tip ==> !ok && cursor == old(cursor) && pool == old(pool)
      ensures old(Coherent()) && ValidHistory(diffs) && height <= tip ==>
                ok && Coherent() && cursor == Max(old(cursor), height)
    {
      hide Replay, ValidHistory;
      if height > tip {
        return false;
      }
      while height > cursor
        invariant Shape()
        invariant old(Coherent()) && ValidHistory(diffs) ==> Coherent()
        invariant old(cursor) <= cursor <= Max(old(cursor), height)
        decreases height - cursor
      {
        label before:
        var stepped := Advance();
        if old(Coherent()) && ValidHistory(diffs) {
          StepsKeepCoherence@before();
        }
        if !stepped {
          return false;
        }
      }
      return true;
    }

    /** retreatTo */
    method RetreatTo(height: int) returns (ok: bool)
      requires Shape()
      modifies this`cursor, this`pool
      ensures Shape() && cursor <= old(cursor)
      ensures height < 0 || height > tip ==> !ok && cursor == old(cursor) && pool == old(pool)
      ensures old(Coherent()) && ValidHistory(diffs) && 0 <= height <= tip ==>
                ok && Coherent() && cursor == Min(old(cursor), height)
    {
      hide Replay, ValidHistory;
      if height < 0 || height > tip {
        return false;
      }
      while cursor > height
        invariant Shape()
        invariant old(Coherent()) && ValidHistory(diffs) ==> Coherent()
        invariant Min(old(cursor), height) <= cursor <= old(cursor)
        decreases cursor
      {
        label before:
        var stepped := Retreat();
        if old(Coherent()) && ValidHistory(diffs) {
          StepsKeepCoherence@before();
        }
        if !stepped {
          return false;
        }
      }
      return true;
    }

    /**
     Trim. The cursor is pulled back before the last diff goes, and one further
     than it has to be: to the index of the new last diff, not to the new tip.
     */
    method Trim() returns (newTip: int, undo: PoolDiff)
      requires Coherent() && (ValidHistory(diffs) || cursor == 0)
      modifies this`cursor, this`tip, this`diffs, this`pool
      ensures Coherent() && (old(ValidHistory(diffs)) ==> ValidHistory(diffs))
      ensures newTip == tip == Max(old(tip) - 1, 0)
      ensures diffs == old(diffs)[..tip]
      ensures undo == if old(tip) == 0 then PoolDiff([], []) else old(diffs)[tip]
      ensures cursor == Min(old(cursor), Max(old(tip) - 2, 0))
      ensures old(Persisted()) ==> Persisted()
    {
      hide Replay, ValidHistory, Holds;
      if tip == 0 || |diffs| == 0 {
        return tip, PoolDiff([], []);
      }
      if Persisted() {
        HoldsPrefix(diffDB, stored, diffs, tip - 1);
      }
      newTip := tip - 1;
      var newMaxCursor := if newTip == 0 then 0 else newTip - 1;
      if cursor > newMaxCursor {
        var _ := RetreatTo(newMaxCursor);
      }
      undo := diffs[newTip];
      DropLast(newTip);
    }

    /** The last two statements of trim: shorten the diffs the cursor has left. */
    method DropLast(newTip: int)
      requires Coherent() && cursor <= newTip == tip - 1
      modifies this`tip, this`diffs
      ensures Coherent() && (old(ValidHistory(diffs)) ==> ValidHistory(diffs))
      ensures tip == newTip && diffs == old(diffs)[..newTip]
    {
      hide Replay, ValidHistory;
      if ValidHistory(diffs) {
        ValidPrefix(diffs, newTip);
      }
      assert diffs[..newTip][..cursor] == diffs[..cursor];
      tip := newTip;
      diffs := diffs[..|diffs| - 1];
    }

    /** append: grow the diffs in memory. */
    method Grow(diff: PoolDiff)
      requires Coherent()
      modifies this`tip, this`diffs
      ensures Coherent() && tip == old(tip) + 1 && diffs == old(diffs) + [diff]
      ensures ValidHistory(diffs) <==> old(ValidHistory(diffs)) && ValidDiff(Replay(old(diffs)), diff)
    {
      ValidAppend(diffs, diff);
      assert (diffs + [diff])[..cursor] == diffs[..cursor];
      tip := tip + 1;
      diffs := diffs + [diff];
    }

    /** storeDiff; `stores` says whether the database accepts the write. */
    method StoreLast(diff: PoolDiff, height: int, stores: bool) returns (ok: bool)
      requires 1 <= height == |diffs| < TWO_63 && diff == diffs[height - 1] && Encodable(diff)
      modifies this`diffDB, this`stored
      ensures ok == stores
      ensures !ok ==> diffDB == old(diffDB) && stored == old(stored)
      ensures ok ==> diffDB == StoreDiff(old(diffDB), diff, height)
      ensures ok && old(Holds(diffDB, stored, diffs[..height - 1])) ==>
                Persisted() && stored == Overwrite(old(stored), height - 1, diff)
    {
      hide Mirrors, Encodable, StoreDiff, Overwrite;
      if !stores {
        return false;
      }
      if Holds(diffDB, stored, diffs[..height - 1]) {
        StoreMirrors(diffDB, stored, height - 1, diff);
        stored := Overwrite(stored, height - 1, diff);
        assert diffs == diffs[..height - 1] + [diff];
      }
      diffDB := StoreDiff(diffDB, diff, height);
      return true;
    }

    /** Append. The diff is in memory even when storing it fails. */
    method Append(diff: PoolDiff, height: int, stores: bool) returns (ok: bool)
      requires Coherent() && tip < MAX_INT64 && Encodable(diff)
      modifies this`tip, this`diffs, this`diffDB, this`stored
      ensures Coherent()
      ensures ok <==> height == old(tip) + 1 && stores
      ensures diffs == old(diffs) + (if height == old(tip) + 1 then [diff] else [])
      ensures old(ValidHistory(diffs)) && ValidDiff(Replay(old(diffs)), diff) ==> ValidHistory(diffs)
      ensures height != old(tip) + 1 || !stores ==> diffDB == old(diffDB) && stored == old(stored)
      ensures (ok || height != old(tip) + 1) && old(Persisted()) ==> Persisted()
      ensures ok && old(Persisted()) ==> stored == Overwrite(old(stored), old(tip), diff)
      ensures ok ==> diffDB == StoreDiff(old(diffDB), diff, height)
    {
      hide Replay, ValidHistory, ValidDiff, Mirrors, Overwrite;
      if height != tip + 1 {
        return false;
      }
      ghost var was := diffs;
      Grow(diff);
      assert diffs[..height - 1] == was;
      ok := StoreLast(diff, height, stores);
    }

    /** AppendAndAdvancePool: like Append, and then a single advance. */
    method AppendAndAdvancePool(diff: PoolDiff, height: int, stores: bool) returns (ok: bool)
      requires Coherent() && ValidHistory(diffs) && tip < MAX_INT64 && Encodable(diff)
      requires ValidDiff(Replay(diffs), diff)
      modifies this`cursor, this`tip, this`diffs, this`pool, this`diffDB, this`stored
      ensures Coherent() && ValidHistory(diffs)
      ensures ok <==> height == old(tip) + 1 && stores
      ensures diffs == old(diffs) + (if height == old(tip) + 1 then [diff] else [])
      ensures cursor == old(cursor) + (if ok then 1 else 0)
      ensures diffDB == if ok then StoreDiff(old(diffDB), diff, height) else old(diffDB)
      ensures (ok || height != old(tip) + 1) && old(Persisted()) ==> Persisted()
    {
      hide Replay, ValidHistory, Holds;
      ok := Append(diff, height, stores);
      if !ok {
        return false;
      }
      label appended:
      ok := Advance();
      StepsKeepCoherence@appended();
    }

    /**
     Pool: the live tickets at `height`, wherever the cursor stands. A negative
     height drives the cursor to genesis before failing.
     */
    method Pool(height: int) returns (r: Result<set<Hash>>)
      requires Shape()
      modifies this`cursor, this`pool
      ensures Shape()
      ensures old(Coherent()) && ValidHistory(diffs) ==>
                && Coherent()
                && (r.Ok? <==> 0 <= height <= tip)
                && (r.Ok? ==> r.value == Replay(diffs[..height]))
                && cursor == if height > tip then old(cursor) else Max(height, 0)
    {
      hide Replay, ValidHistory;
      if height > tip {
        return Err;
      }
      ghost var good := Coherent() && ValidHistory(diffs);
      while height > cursor
        invariant Shape() && (good ==> Coherent())
        decreases height - cursor
      {
        label before:
        var stepped := Advance();
        if good {
          StepsKeepCoherence@before();
        }
        if !stepped {
          return Err;
        }
      }
      while cursor > height
        invariant Shape() && (good ==> Coherent())
        invariant height <= cursor
        decreases cursor
      {
        label before:
        var stepped := Retreat();
        if good && old@before(cursor) > 0 {
          StepsKeepCoherence@before();
        }
        if !stepped {
          return Err;
        }
      }
      return Ok(pool);
    }

    /** AdvanceToTip */
    method AdvanceToTip() returns (at: int, ok: bool)
      requires Shape()
      modifies this`cursor, this`pool
      ensures Shape() && at == cursor
      ensures old(Coherent()) && ValidHistory(diffs) ==> Coherent() && ok && cursor == tip && pool == Replay(diffs)
    {
      hide Replay, ValidHistory;
      ok := AdvanceTo(tip);
      assert diffs[..tip] == diffs;
      at := cursor;
    }
  }
}
