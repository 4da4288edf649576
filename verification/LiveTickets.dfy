/**
 The value-carrying copy of the live ticket pool kept by the stake database: a
 map from ticket to price, and the running total of the prices.
 */
module LiveTickets {
  import opened Common
  import opened Bytes
  import opened PoolHistory
  import opened Wrappers

  type Prices = map<Hash, int>

  datatype Live = Live(cache: Prices, total: int)

  /** One turn of the insertion loop; no value means that the node did not know the ticket. */
  function Insert(l: Live, h: Hash, v: Option<int>): Live {
    if h in l.cache || v.None? then l else Live(l.cache[h := v.value], l.total + v.value)
  }

  /** One turn of the deletion loop. */
  function Delete(l: Live, h: Hash): Live {
    if h !in l.cache then l else Live(l.cache - {h}, l.total - l.cache[h])
  }

  function InsertAll(l: Live, hs: seq<Hash>, vs: seq<Option<int>>): Live
    requires |hs| == |vs|
  {
    if hs == [] then l
    else
      var n := |hs| - 1;
      Insert(InsertAll(l, hs[..n], vs[..n]), hs[n], vs[n])
  }

  function DeleteAll(l: Live, hs: seq<Hash>): Live {
    if hs == [] then l
    else
      var n := |hs| - 1;
      Delete(DeleteAll(l, hs[..n]), hs[n])
  }

  lemma NoneInserted(l: Live)
    ensures InsertAll(l, [], []) == l && DeleteAll(l, []) == l
  {
  }

  lemma InsertNext(l: Live, hs: seq<Hash>, vs: seq<Option<int>>, i: nat)
    requires |hs| == |vs| && i < |hs|
    ensures InsertAll(l, hs[..i + 1], vs[..i + 1]) == Insert(InsertAll(l, hs[..i], vs[..i]), hs[i], vs[i])
  {
    assert hs[..i + 1][..i] == hs[..i] && vs[..i + 1][..i] == vs[..i];
  }

  lemma DeleteNext(l: Live, hs: seq<Hash>, i: nat)
    requires i < |hs|
    ensures DeleteAll(l, hs[..i + 1]) == Delete(DeleteAll(l, hs[..i]), hs[i])
  {
    assert hs[..i + 1][..i] == hs[..i];
  }

  ghost predicate Balanced(l: Live) {
    l.total == Sum(l.cache)
  }

  lemma InsertBalanced(l: Live, h: Hash, v: Option<int>)
    requires Balanced(l)
    ensures Balanced(Insert(l, h, v))
  {
    if h !in l.cache && v.Some? {
      SumPutsIn(l.cache, h, v.value);
    }
  }

  lemma DeleteBalanced(l: Live, h: Hash)
    requires Balanced(l)
    ensures Balanced(Delete(l, h))
  {
    if h in l.cache {
      SumTakesOut(l.cache, h);
    }
  }

  /** The total is the sum of the cached prices after any diff, well-formed or not. */
  lemma {:induction false} ApplyBalanced(l: Live, hs: seq<Hash>, vs: seq<Option<int>>, outs: seq<Hash>)
    requires Balanced(l) && |hs| == |vs|
    ensures Balanced(DeleteAll(InsertAll(l, hs, vs), outs))
    decreases |hs| + |outs|
  {
    if outs != [] {
      var n := |outs| - 1;
      ApplyBalanced(l, hs, vs, outs[..n]);
      DeleteBalanced(DeleteAll(InsertAll(l, hs, vs), outs[..n]), outs[n]);
    } else if hs != [] {
      var n := |hs| - 1;
      ApplyBalanced(l, hs[..n], vs[..n], []);
      InsertBalanced(InsertAll(l, hs[..n], vs[..n]), hs[n], vs[n]);
    }
  }

  /**
   A diff as applyDiff takes it: forwards with the values of its tickets, or
   backwards with its lists exchanged and the values that the node reports.
   */
  datatype Change = Change(ins: seq<Hash>, vs: seq<Option<int>>, outs: seq<Hash>)

  ghost predicate Paired(changes: seq<Change>) {
    forall i :: 0 <= i < |changes| ==> |changes[i].ins| == |changes[i].vs|
  }

  function AfterAll(l: Live, changes: seq<Change>): Live
    requires Paired(changes)
  {
    if changes == [] then l
    else
      var n := |changes| - 1;
      DeleteAll(InsertAll(AfterAll(l, changes[..n]), changes[n].ins, changes[n].vs), changes[n].outs)
  }

  /** So the total is the sum over every run of applied and undone diffs, whatever they hold and whatever the node says. */
  lemma {:induction false} RunBalanced(l: Live, changes: seq<Change>)
    requires Balanced(l) && Paired(changes)
    ensures Balanced(AfterAll(l, changes))
  {
    if changes != [] {
      var n := |changes| - 1;
      RunBalanced(l, changes[..n]);
      ApplyBalanced(AfterAll(l, changes[..n]), changes[n].ins, changes[n].vs, changes[n].outs);
    }
  }

  /** The first value given for a ticket among those that are known. */
  ghost predicate FirstValue(hs: seq<Hash>, vs: seq<Option<int>>, h: Hash, v: int)
    requires |hs| == |vs|
  {
    exists i :: 0 <= i < |hs| && hs[i] == h && vs[i] == Some(v) && forall j :: 0 <= j < i && hs[j] == h ==> vs[j] == None
  }

  ghost predicate Valued(hs: seq<Hash>, vs: seq<Option<int>>, h: Hash)
    requires |hs| == |vs|
  {
    exists i :: 0 <= i < |hs| && hs[i] == h && vs[i].Some?
  }

  /** Of the tickets to insert, those of known value come in, at the first; tickets already cached keep theirs. */
  lemma {:induction false} InsertAllIs(l: Live, hs: seq<Hash>, vs: seq<Option<int>>, h: Hash)
    requires |hs| == |vs|
    ensures var m := InsertAll(l, hs, vs);
            && (h in m.cache <==> h in l.cache || Valued(hs, vs, h))
            && (h in l.cache ==> m.cache[h] == l.cache[h])
            && (h !in l.cache && h in m.cache ==> FirstValue(hs, vs, h, m.cache[h]))
  {
    hide FirstValue, Valued;
    if hs == [] {
      NoneValued(h);
    } else {
      var n := |hs| - 1;
      InsertAllIs(l, hs[..n], vs[..n], h);
      ValuedNext(hs, vs, h);
      var m := InsertAll(l, hs[..n], vs[..n]);
      if h in m.cache && !(h in l.cache) {
        FirstStays(hs, vs, h, m.cache[h]);
      }
    }
  }

  lemma NoneValued(h: Hash)
    ensures !Valued([], [], h)
  {
  }

  lemma ValuedNext(hs: seq<Hash>, vs: seq<Option<int>>, h: Hash)
    requires |hs| == |vs| > 0
    ensures var n := |hs| - 1;
            && (Valued(hs, vs, h) <==> Valued(hs[..n], vs[..n], h) || (hs[n] == h && vs[n].Some?))
            && (!Valued(hs[..n], vs[..n], h) && hs[n] == h && vs[n].Some? ==> FirstValue(hs, vs, h, vs[n].value))
  {
    var n := |hs| - 1;
    var gs, us := hs[..n], vs[..n];
    if i :| 0 <= i < n && gs[i] == h && us[i].Some? {
      assert hs[i] == h && vs[i].Some?;
    }
    forall j | 0 <= j < n && hs[j] == h && vs[j].Some? ensures Valued(gs, us, h) {
      assert gs[j] == h && us[j].Some?;
    }
  }

  lemma FirstStays(hs: seq<Hash>, vs: seq<Option<int>>, h: Hash, v: int)
    requires |hs| == |vs| > 0 && FirstValue(hs[..|hs| - 1], vs[..|hs| - 1], h, v)
    ensures FirstValue(hs, vs, h, v)
  {
    var n := |hs| - 1;
    var gs, us := hs[..n], vs[..n];
    var i :| 0 <= i < n && gs[i] == h && us[i] == Some(v) && forall j :: 0 <= j < i && gs[j] == h ==> us[j] == None;
    assert hs[i] == h && vs[i] == Some(v);
    forall j | 0 <= j < i && hs[j] == h ensures vs[j] == None {
      assert gs[j] == h;
    }
  }

  /** Exactly the tickets to delete go out; the others keep their value. */
  lemma {:induction false} DeleteAllIs(l: Live, hs: seq<Hash>, h: Hash)
    ensures var m := DeleteAll(l, hs);
            (h in m.cache <==> h in l.cache && h !in hs) && (h in m.cache ==> m.cache[h] == l.cache[h])
  {
    if hs != [] {
      DeleteAllIs(l, hs[..|hs| - 1], h);
    }
  }

  /** Every cached price is the one the node reports. */
  ghost predicate Priced(cache: Prices, rpc: Hash -> Option<int>) {
    forall h :: h in cache ==> rpc(h) == Some(cache[h])
  }

  /** The values handed to the insertion loop are the ones the node reports. */
  ghost predicate TrueValues(hs: seq<Hash>, vs: seq<Option<int>>, rpc: Hash -> Option<int>) {
    |hs| == |vs| && forall i :: 0 <= i < |hs| ==> vs[i].Some? && vs[i] == rpc(hs[i])
  }

  lemma {:induction false} InsertAllPriced(l: Live, hs: seq<Hash>, vs: seq<Option<int>>, rpc: Hash -> Option<int>)
    requires Priced(l.cache, rpc) && TrueValues(hs, vs, rpc)
    ensures var m := InsertAll(l, hs, vs);
            Priced(m.cache, rpc) && m.cache.Keys == l.cache.Keys + SetOf(hs)
  {
    if hs != [] {
      var n := |hs| - 1;
      InsertAllPriced(l, hs[..n], vs[..n], rpc);
      assert SetOf(hs) == SetOf(hs[..n]) + {hs[n]};
    }
  }

  lemma {:induction false} DeleteAllPriced(l: Live, hs: seq<Hash>, rpc: Hash -> Option<int>)
    requires Priced(l.cache, rpc)
    ensures var m := DeleteAll(l, hs);
            Priced(m.cache, rpc) && m.cache.Keys == l.cache.Keys - SetOf(hs)
  {
    if hs != [] {
      var n := |hs| - 1;
      DeleteAllPriced(l, hs[..n], rpc);
      assert SetOf(hs) == SetOf(hs[..n]) + {hs[n]};
    }
  }

  /** `l` is the live ticket cache of the pool `pool`. */
  ghost predicate LiveOf(l: Live, pool: set<Hash>, rpc: Hash -> Option<int>) {
    l.cache.Keys == pool && Priced(l.cache, rpc) && Balanced(l)
  }

  /** A pool has one live ticket cache and one total. */
  lemma LiveUnique(l: Live, m: Live, pool: set<Hash>, rpc: Hash -> Option<int>)
    requires LiveOf(l, pool, rpc) && LiveOf(m, pool, rpc)
    ensures l == m
  {
    forall h | h in l.cache ensures h in m.cache && l.cache[h] == m.cache[h] {
      assert h in pool && h in m.cache.Keys;
    }
    forall h | h in m.cache ensures h in l.cache {
      assert h in pool && h in l.cache.Keys;
    }
    assert l.cache == m.cache;
  }

  /** Applying a diff to the cache follows applying it to the pool. */
  lemma ApplyLive(l: Live, pool: set<Hash>, ins: seq<Hash>, vs: seq<Option<int>>, outs: seq<Hash>,
                  rpc: Hash -> Option<int>)
    requires LiveOf(l, pool, rpc) && TrueValues(ins, vs, rpc)
    ensures LiveOf(DeleteAll(InsertAll(l, ins, vs), outs), Apply(pool, ins, outs), rpc)
  {
    InsertAllPriced(l, ins, vs, rpc);
    DeleteAllPriced(InsertAll(l, ins, vs), outs, rpc);
    ApplyBalanced(l, ins, vs, outs);
  }

  /** What the node reports for each ticket, as undoDiff asks for it. */
  function Asked(hs: seq<Hash>, rpc: Hash -> Option<int>): seq<Option<int>> {
    seq(|hs|, i requires 0 <= i < |hs| => rpc(hs[i]))
  }

  /**
   Undoing a valid diff after applying it restores the cache and the total
   exactly, although the prices of returning tickets come from the node.
   */
  lemma UndoRestoresLive(l: Live, pool: set<Hash>, d: PoolDiff, vs: seq<Option<int>>, rpc: Hash -> Option<int>)
    requires LiveOf(l, pool, rpc) && ValidDiff(pool, d) && TrueValues(d.ins, vs, rpc)
    ensures var applied := DeleteAll(InsertAll(l, d.ins, vs), d.outs);
            DeleteAll(InsertAll(applied, d.outs, Asked(d.outs, rpc)), d.ins) == l
  {
    var applied := DeleteAll(InsertAll(l, d.ins, vs), d.outs);
    InsertAllPriced(l, d.ins, vs, rpc);
    KnownOuts(InsertAll(l, d.ins, vs).cache, d.outs, rpc);
    ApplyLive(l, pool, d.ins, vs, d.outs, rpc);
    ApplyLive(applied, Apply(pool, d.ins, d.outs), d.outs, Asked(d.outs, rpc), d.ins, rpc);
    ValidDiffSizes(pool, d);
    LiveUnique(DeleteAll(InsertAll(applied, d.outs, Asked(d.outs, rpc)), d.ins), l, pool, rpc);
  }

  /** The node knows every ticket that was ever cached. */
  lemma KnownOuts(cache: Prices, outs: seq<Hash>, rpc: Hash -> Option<int>)
    requires Priced(cache, rpc) && SetOf(outs) <= cache.Keys
    ensures TrueValues(outs, Asked(outs, rpc), rpc)
  {
    forall i | 0 <= i < |outs| ensures rpc(outs[i]).Some? {
      assert outs[i] in SetOf(outs);
    }
  }
}
