/**
 Whole runs of the ticket pool: any sequence of its exported operations, and
 reopening the pool from its database afterwards.
 */
module PoolRuns {
  import opened Common
  import opened Bytes
  import opened PoolHistory
  import opened DiffCodec
  import opened DiffStore
  import opened Wrappers
  import opened TicketPool
  import opened Widths

  datatype Op =
    | Append(diff: PoolDiff, height: int, stores: bool)
    | AppendAndAdvance(diff: PoolDiff, height: int, stores: bool)
    | Trim
    | Pool(at: int)
    | AdvanceToTip

  /** What determines a pool's behaviour: the history and where the cursor stands in it. */
  datatype View = View(diffs: seq<PoolDiff>, cursor: int)

  ghost predicate ValidView(v: View) {
    ValidHistory(v.diffs) && 0 <= v.cursor <= |v.diffs|
  }

  function Next(v: View, op: Op): View {
    var tip := |v.diffs|;
    match op
    case Append(d, h, _) => v.(diffs := if h == tip + 1 then v.diffs + [d] else v.diffs)
    case AppendAndAdvance(d, h, stores) =>
      if h != tip + 1 then v else View(v.diffs + [d], if stores then v.cursor + 1 else v.cursor)
    case Trim => View(v.diffs[..Max(tip - 1, 0)], Min(v.cursor, Max(tip - 2, 0)))
    case Pool(h) => v.(cursor := if h > tip then v.cursor else Max(h, 0))
    case AdvanceToTip => v.(cursor := tip)
  }

  /** An appended diff must fit the pool at the tip, and be small enough for Go to hold. */
  ghost predicate Legal(v: View, op: Op) {
    op.Append? || op.AppendAndAdvance? ==>
      |v.diffs| < MAX_INT64 && Encodable(op.diff) && ValidDiff(Replay(v.diffs), op.diff)
  }

  function After(v: View, ops: seq<Op>): View
    decreases |ops|
  {
    if ops == [] then v else After(Next(v, ops[0]), ops[1..])
  }

  ghost predicate LegalRun(v: View, ops: seq<Op>)
    decreases |ops|
  {
    ops == [] || (Legal(v, ops[0]) && LegalRun(Next(v, ops[0]), ops[1..]))
  }

  lemma NextKeepsValid(v: View, op: Op)
    requires ValidView(v) && Legal(v, op)
    ensures ValidView(Next(v, op))
  {
    match op
    case Append(d, _, _) => ValidAppend(v.diffs, d);
    case AppendAndAdvance(d, _, _) => ValidAppend(v.diffs, d);
    case Trim => ValidPrefix(v.diffs, Max(|v.diffs| - 1, 0));
    case Pool(_) =>
    case AdvanceToTip =>
  }

  /** Every state of a legal run has a valid history and a cursor within it. */
  lemma {:induction false} RunKeepsValid(v: View, ops: seq<Op>)
    requires ValidView(v) && LegalRun(v, ops)
    ensures ValidView(After(v, ops))
    decreases |ops|
  {
    if ops != [] {
      NextKeepsValid(v, ops[0]);
      RunKeepsValid(Next(v, ops[0]), ops[1..]);
    }
  }

  /** Appending a diff and trimming it again gives the history back and never raises the cursor. */
  lemma TrimUndoesAppend(v: View, d: PoolDiff, stores: bool)
    requires ValidView(v)
    ensures var w := Next(Next(v, Append(d, |v.diffs| + 1, stores)), Trim);
            w.diffs == v.diffs && w.cursor == Min(v.cursor, Max(|v.diffs| - 1, 0))
  {
  }

  /** A write, if the operation makes one, succeeds. */
  predicate Stored(op: Op) {
    op.Append? || op.AppendAndAdvance? ==> op.stores
  }

  ghost predicate AllStored(ops: seq<Op>) {
    forall i :: 0 <= i < |ops| ==> Stored(ops[i])
  }

  /** The height that an operation writes to the database, if it does. */
  function Writes(v: View, op: Op): Option<nat> {
    if (op.Append? || op.AppendAndAdvance?) && op.height == |v.diffs| + 1 && op.stores then Some(op.height) else None
  }

  /** The database after an operation, and after a run. */
  function DatabaseNext(v: View, db: Database, op: Op): Database
    requires Writes(v, op).Some? ==> Encodable(op.diff) && |v.diffs| < MAX_INT64
  {
    if Writes(v, op).Some? then StoreDiff(db, op.diff, op.height) else db
  }

  ghost function DatabaseAfter(v: View, db: Database, ops: seq<Op>): Database
    requires LegalRun(v, ops)
    decreases |ops|
  {
    if ops == [] then db else DatabaseAfter(Next(v, ops[0]), DatabaseNext(v, db, ops[0]), ops[1..])
  }

  function ViewOf(tp: TicketPool): View
    reads tp
  {
    View(tp.diffs, tp.cursor)
  }

  /** One operation on the pool itself. */
  method Perform(tp: TicketPool, op: Op) returns (answer: Option<set<Hash>>)
    requires tp.Coherent() && ValidHistory(tp.diffs) && Legal(ViewOf(tp), op)
    modifies tp
    ensures tp.Coherent() && ValidHistory(tp.diffs)
    ensures ViewOf(tp) == Next(old(ViewOf(tp)), op)
    ensures op.Pool? && 0 <= op.at <= tp.tip ==> answer == Some(Replay(tp.diffs[..op.at]))
    ensures old(tp.Persisted()) && Stored(op) ==> tp.Persisted()
    ensures tp.diffDB == DatabaseNext(old(ViewOf(tp)), old(tp.diffDB), op)
  {
    hide Replay, ValidHistory, ValidDiff, Holds, StoreDiff;
    answer := None;
    match op
    case Append(d, h, stores) =>
      var _ := tp.Append(d, h, stores);
    case AppendAndAdvance(d, h, stores) =>
      var _ := tp.AppendAndAdvancePool(d, h, stores);
    case Trim =>
      var _, _ := tp.Trim();
    case Pool(h) =>
      var r := tp.Pool(h);
      answer := if r.Ok? then Some(r.value) else None;
    case AdvanceToTip =>
      var _, _ := tp.AdvanceToTip();
  }

  /**
   Any run of operations. The pool ends coherent, so whatever path the cursor
   took, Pool(h) answers with the replay of the first h diffs; and if every write
   succeeded, the database still holds the diffs in memory.
   */
  method Run(tp: TicketPool, ops: seq<Op>)
    requires tp.Coherent() && ValidHistory(tp.diffs) && LegalRun(ViewOf(tp), ops)
    modifies tp
    ensures tp.Coherent() && ValidHistory(tp.diffs)
    ensures ViewOf(tp) == After(old(ViewOf(tp)), ops)
    ensures old(tp.Persisted()) && AllStored(ops) ==> tp.Persisted()
    ensures tp.diffDB == DatabaseAfter(old(ViewOf(tp)), old(tp.diffDB), ops)
  {
    hide Replay, ValidHistory, Holds, DatabaseNext, Legal, Next;
    var i := 0;
    while i < |ops|
      invariant 0 <= i <= |ops|
      invariant tp.Coherent() && ValidHistory(tp.diffs) && LegalRun(ViewOf(tp), ops[i..])
      invariant After(ViewOf(tp), ops[i..]) == After(old(ViewOf(tp)), ops)
      invariant old(tp.Persisted()) && AllStored(ops) ==> tp.Persisted()
      invariant DatabaseAfter(ViewOf(tp), tp.diffDB, ops[i..]) == DatabaseAfter(old(ViewOf(tp)), old(tp.diffDB), ops)
    {
      assert ops[i..][1..] == ops[i + 1..];
      var _ := Perform(tp, ops[i]);
      i := i + 1;
    }
  }

  /**
   Opening the pool again from its database. The gap panic is reached unless the
   database mirrors a history; the new pool then has that history. It extends the
   one that was in memory if the pool was persisted.
   */
  method Reopen(tp: TicketPool, keys: seq<seq<byte>>) returns (again: Option<TicketPool>)
    requires WellKeyed(tp.diffDB) && IteratesAll(tp.diffDB, keys)
    ensures again.Some? <==> Loads(tp.diffDB)
    ensures again.Some? ==>
              && fresh(again.value) && again.value.Coherent() && again.value.Persisted()
              && again.value.cursor == 0 && again.value.diffDB == tp.diffDB
    ensures forall ds :: Mirrors(tp.diffDB, ds) ==> again.Some? && again.value.diffs == ds
    ensures tp.Persisted() ==> again.Some? && tp.diffs <= again.value.diffs
  {
    hide Mirrors, IteratesAll, WellKeyed, Replay;
    var r := LoadAllPoolDiffs(tp.diffDB, keys);
    if !r.Loaded? {
      return None;
    }
    forall ds | Mirrors(tp.diffDB, ds) ensures r.value == ds {
      SameMirror(tp.diffDB, r.value, ds);
    }
    var pool := new TicketPool(r.value, tp.diffDB);
    return Some(pool);
  }

  /**
   Trim leaves the record of the diff on disk. If the next diff of that height is
   not stored, opening the pool again brings the old one back.
   */
  method StaleDiffReturns(old1: PoolDiff, new1: PoolDiff) returns (tp: TicketPool)
    requires Encodable(old1) && Encodable(new1) && ValidDiff({}, old1)
    ensures tp.Coherent() && tp.diffs == [new1]
    ensures Mirrors(tp.diffDB, [old1]) && tp.stored == [old1]
  {
    hide Mirrors, Encodable, ValidDiff, ValidHistory;
    EmptyMirrors();
    tp := new TicketPool([], map[]);
    var stored := tp.Append(old1, 1, true);
    ValidAppend([], old1);
    assert [] + [old1] == [old1];
    assert ValidHistory([old1]);
    var _, _ := tp.Trim();
    var again := tp.Append(new1, 1, false);
  }

  lemma EmptyMirrors()
    ensures Mirrors(map[], []) && ValidHistory([])
  {
  }
}
