/**
 Opening a stake database on existing data. A crash can leave the stake node and
 the ticket pool at different heights; opening cuts the higher of them, advances
 the pool, and prices the live tickets again.
 */
module StakeRecovery {
  import opened Common
  import opened Bytes
  import opened PoolHistory
  import opened DiffStore
  import opened LiveTickets
  import opened TicketPool
  import opened StakeDatabase
  import opened PoolRuns
  import opened Wrappers

  /** The height of the lower of a chain and a pool history. */
  function Lower(chain: seq<Block>, ds: seq<PoolDiff>): (m: nat)
    requires chain != []
    ensures m < |chain| && m <= |ds|
  {
    Min(|chain| - 1, |ds|)
  }

  /** Up to the lower height, the pool history is that of the chain. */
  ghost predicate Agree(node: Node, chain: seq<Block>, ds: seq<PoolDiff>)
    requires chain != [] && 1 <= node.maturity
  {
    ds[..Lower(chain, ds)] == DiffsOf(node, chain)[..Lower(chain, ds)]
  }

  /** The two loops that bring a stake database and its pool to one height. */
  method Level(db: StakeDatabase)
    requires GoodChain(db.node, db.chain) && db.poolDB.Coherent() && db.poolDB.cursor == 0
    modifies db, db.poolDB
    ensures GoodChain(db.node, db.chain) && db.poolDB.Coherent() && db.poolDB.cursor == 0
    ensures db.blockCache == old(db.blockCache)
    ensures var m := Lower(old(db.chain), old(db.poolDB.diffs));
            db.chain == old(db.chain)[..m + 1] && db.poolDB.diffs == old(db.poolDB.diffs)[..m]
  {
    hide GoodChain, Replay, ValidHistory, DiffsOf, CacheTracks, LiveOf, Holds;
    GoodHistory(db.node, db.chain);
    ghost var chain, ds := db.chain, db.poolDB.diffs;
    assert chain[..|chain|] == chain;
    while |db.chain| - 1 > db.poolDB.tip
      invariant GoodChain(db.node, db.chain) && db.poolDB.Coherent() && db.poolDB.cursor == 0
      invariant db.blockCache == old(db.blockCache) && db.poolDB.diffs == ds
      invariant Lower(chain, ds) + 1 <= |db.chain| <= |chain| && db.chain == chain[..|db.chain|]
      decreases |db.chain|
    {
      GoodHistory(db.node, db.chain);
      var _ := db.DisconnectBlock(true);
    }
    assert ds[..|ds|] == ds;
    while db.poolDB.tip > |db.chain| - 1
      invariant db.poolDB.Coherent() && db.poolDB.cursor == 0
      invariant Lower(chain, ds) <= db.poolDB.tip <= |ds| && db.poolDB.diffs == ds[..db.poolDB.tip]
      modifies db.poolDB
      decreases db.poolDB.tip
    {
      var _, _ := db.poolDB.Trim();
    }
  }

  /** The tickets, priced by the node from nothing. */
  function Repriced(node: Node, live: seq<Hash>): Live {
    InsertAll(Live(map[], 0), live, Asked(live, node.price))
  }

  /** PopulateLiveTicketCache; a ticket that the node does not know is an error, and is left out. */
  method PopulateLiveTicketCache(db: StakeDatabase, live: seq<Hash>) returns (ok: bool)
    requires NoDup(live)
    modifies db`liveTicketCache, db`poolValue
    ensures ok <==> forall i :: 0 <= i < |live| ==> db.node.price(live[i]).Some?
    ensures Live(db.liveTicketCache, db.poolValue) == Repriced(db.node, live)
    ensures ok ==> LiveOf(Live(db.liveTicketCache, db.poolValue), SetOf(live), db.node.price)
  {
    hide LiveOf, InsertAll;
    ghost var vs := Asked(live, db.node.price);
    ghost var empty := Live(map[], 0);
    ok := true;
    db.poolValue, db.liveTicketCache := 0, map[];
    NoneInserted(empty);
    for i := 0 to |live|
      invariant ok <==> forall j :: 0 <= j < i ==> db.node.price(live[j]).Some?
      invariant Live(db.liveTicketCache, db.poolValue) == InsertAll(empty, live[..i], vs[..i])
      invariant db.liveTicketCache.Keys <= SetOf(live[..i])
    {
      InsertOne(empty, live, vs, i);
      var value := db.node.price(live[i]);
      if value.None? {
        ok := false;
      } else {
        db.poolValue := db.poolValue + value.value;
        db.liveTicketCache := db.liveTicketCache[live[i] := value.value];
      }
    }
    assert live[..|live|] == live && vs[..|live|] == vs;
    if ok {
      RepricedLive(db.node, live);
    }
  }

  lemma InsertOne(l: Live, hs: seq<Hash>, vs: seq<Option<int>>, i: nat)
    requires |hs| == |vs| && i < |hs| && NoDup(hs)
    ensures InsertAll(l, hs[..i + 1], vs[..i + 1]) == Insert(InsertAll(l, hs[..i], vs[..i]), hs[i], vs[i])
    ensures SetOf(hs[..i + 1]) == SetOf(hs[..i]) + {hs[i]} && hs[i] !in SetOf(hs[..i])
  {
    InsertNext(l, hs, vs, i);
  }

  lemma RepricedLive(node: Node, live: seq<Hash>)
    requires forall i :: 0 <= i < |live| ==> node.price(live[i]).Some?
    ensures LiveOf(Repriced(node, live), SetOf(live), node.price)
  {
    var empty, vs := Live(map[], 0), Asked(live, node.price);
    ApplyLive(empty, {}, live, vs, [], node.price);
    assert DeleteAll(InsertAll(empty, live, vs), []) == InsertAll(empty, live, vs);
    assert Apply({}, live, []) == SetOf(live);
  }

  /** What the stake node lists as live after a chain: each ticket of its pool once. */
  ghost predicate ListsLive(live: seq<Hash>, node: Node, chain: seq<Block>, m: nat)
    requires m < |chain| && 1 <= node.maturity
  {
    NoDup(live) && SetOf(live) == Replay(DiffsOf(node, chain)[..m])
  }

  /**
   NewStakeDatabase, on a stake node at the end of `chain`, a pool just loaded and
   the tickets the node lists once both are level. The database tracks the chain
   up to the lower height if and only if the two agreed up to it. That it then
   succeeds and tracks is what there is to prove; where they differ, the pool kept
   is not that of the chain.
   */
  method NewStakeDatabase(node: Node, chain: seq<Block>, pool: TicketPool, live: seq<Hash>)
    returns (db: StakeDatabase, ok: bool)
    requires GoodChain(node, chain) && pool.Coherent() && pool.cursor == 0
    requires ListsLive(live, node, chain, Lower(chain, pool.diffs))
    modifies pool
    ensures fresh(db) && db.node == node && db.poolDB == pool && db.blockCache == map[]
    ensures var m := Lower(chain, old(pool.diffs));
            db.chain == chain[..m + 1] && pool.diffs == old(pool.diffs)[..m]
    ensures old(Agree(node, chain, pool.diffs)) ==> ok && pool.cursor == |pool.diffs|
    ensures ok ==> (db.Tracks() <==> old(Agree(node, chain, pool.diffs)))
  {
    hide GoodChain, Replay, ValidHistory, DiffsOf, CacheTracks, LiveOf, Holds, SetOf, NoDup, Repriced;
    db := new StakeDatabase.Open(node, chain, pool);
    ghost var ds, m := pool.diffs, Lower(chain, pool.diffs);
    Level(db);
    LeveledHistory(node, chain, ds, live);
    var at: int;
    at, ok := pool.AdvanceToTip();
    if !ok {
      return;
    }
    ok := PopulateLiveTicketCache(db, live);
    NothingTracked(db.chain, node.maturity);
  }

  lemma NothingTracked(chain: seq<Block>, maturity: nat)
    ensures CacheTracks(map[], chain, maturity)
  {
  }

  /** Cut to the lower height, histories that agree are the valid one of the chain kept, all of whose tickets have prices. */
  lemma LeveledHistory(node: Node, chain: seq<Block>, ds: seq<PoolDiff>, live: seq<Hash>)
    requires GoodChain(node, chain) && ListsLive(live, node, chain, Lower(chain, ds))
    ensures var m := Lower(chain, ds);
            && DiffsOf(node, chain[..m + 1]) == DiffsOf(node, chain)[..m]
            && (Agree(node, chain, ds) <==> ds[..m] == DiffsOf(node, chain[..m + 1]))
            && (Agree(node, chain, ds) ==> ValidHistory(ds[..m]))
    ensures forall i :: 0 <= i < |live| ==> node.price(live[i]).Some?
  {
    hide Replay, ValidHistory, DiffAt, HonestPrices;
    var m := Lower(chain, ds);
    DiffsOfPrefix(node, chain, m + 1);
    ValidPrefix(DiffsOf(node, chain), m);
    PoolKnown(node, chain, m);
    forall i | 0 <= i < |live| ensures node.price(live[i]).Some? {
      assert live[i] in SetOf(live);
    }
  }

  /**
   Closing a database and opening it again. It opens if and only if the disk loads,
   as some history `ds`. The new database then tracks its chain if and only if `ds`
   agreed with the chain up to the lower height, where again the if half is what
   there is to prove. If the pool was persisted, the chain, the diffs, the live
   tickets and the pool value are what they were.
   */
  method Restart(db: StakeDatabase, keys: seq<seq<byte>>, live: seq<Hash>)
    returns (again: Option<StakeDatabase>, ok: bool)
    requires db.Tracks() && WellKeyed(db.poolDB.diffDB) && IteratesAll(db.poolDB.diffDB, keys)
    requires forall ds :: Mirrors(db.poolDB.diffDB, ds) ==> ListsLive(live, db.node, db.chain, Lower(db.chain, ds))
    ensures again.Some? <==> Loads(db.poolDB.diffDB)
    ensures again.Some? ==> fresh(again.value)
    ensures forall ds :: Mirrors(db.poolDB.diffDB, ds) ==>
              && again.Some? && again.value.chain == db.chain[..Lower(db.chain, ds) + 1]
              && (Agree(db.node, db.chain, ds) ==> ok)
              && (ok ==> (again.value.Tracks() <==> Agree(db.node, db.chain, ds)))
    ensures db.poolDB.Persisted() ==>
              && again.Some? && ok && again.value.chain == db.chain && again.value.poolDB.diffs == db.poolDB.diffs
              && again.value.liveTicketCache == db.liveTicketCache && again.value.poolValue == db.poolValue
  {
    hide GoodChain, Replay, ValidHistory, DiffsOf, CacheTracks, LiveOf, Mirrors, IteratesAll, ListsLive, Agree,
         WellKeyed;
    var pool := Reopen(db.poolDB, keys);
    if pool.None? {
      return None, false;
    }
    ghost var ds := pool.value.diffs;
    var newDB, done := NewStakeDatabase(db.node, db.chain, pool.value, live);
    again, ok := Some(newDB), done;
    if db.poolDB.Persisted() {
      PersistedAgrees(db.node, db.chain, ds);
      LiveUnique(Live(db.liveTicketCache, db.poolValue), Live(newDB.liveTicketCache, newDB.poolValue),
                 Replay(db.poolDB.diffs), db.node.price);
    }
  }

  lemma PersistedAgrees(node: Node, chain: seq<Block>, stored: seq<PoolDiff>)
    requires GoodChain(node, chain) && DiffsOf(node, chain) <= stored
    ensures Agree(node, chain, stored) && Lower(chain, stored) == |chain| - 1 && chain[..|chain|] == chain
    ensures stored[..|chain| - 1] == DiffsOf(node, chain)
  {
  }
}
