/**
 The row-purging loop of the address cache, on the numbers of rows cached for
 each address: which states it leaves, and from which it never returns.
 */
module PurgeSizes {
  import opened Common

  type Sizes = map<string, nat>

  ghost function Total(m: Sizes): nat {
    NotNegative(m);
    Sum(m)
  }

  lemma {:induction false} NotNegative(m: Sizes)
    ensures Sum(m) >= 0
    decreases |m|
  {
    if m != map[] {
      var k :| k in m;
      SumTakesOut(m, k);
      NotNegative(m - {k});
    }
  }

  lemma TotalTakesOut(m: Sizes, k: string)
    requires k in m
    ensures Total(m) == m[k] + Total(m - {k})
  {
    SumTakesOut(m, k);
  }

  lemma TotalPutsIn(m: Sizes, k: string, v: nat)
    ensures Total(m[k := v]) == Total(m - {k}) + v
    ensures Total(m[k := v]) == Total(m) + v - if k in m then m[k] else 0
  {
    SumPutsIn(m, k, v);
  }

  lemma {:induction false} SomeRows(m: Sizes)
    ensures Total(m) > 0 <==> exists k :: k in m && m[k] > 0
    decreases |m|
  {
    if m != map[] {
      var j :| j in m && Total(m) == m[j] + Total(m - {j});
      SomeRows(m - {j});
      if Total(m - {j}) > 0 {
        var k :| k in m - {j} && (m - {j})[k] > 0;
        assert m[k] > 0;
      }
      if k :| k in m && m[k] > 0 && k != j {
        assert (m - {j})[k] > 0;
      }
    }
  }

  /** m is what is left of whole after some addresses are removed. */
  predicate Part(m: Sizes, whole: Sizes) {
    forall k :: k in m ==> k in whole && m[k] == whole[k]
  }

  // ----- the loop

  /** The loop ends here: nothing is cached, the new rows fit, or only the project address is left. */
  ghost predicate Exits(m: Sizes, project: string, numRows: int, cap: int) {
    Total(m) == 0 || Total(m) + numRows <= cap || m.Keys == {project}
  }

  predicate CanPurge(m: Sizes, project: string, k: string) {
    k in m && k != project && m[k] > 0
  }

  /** One turn of the loop: an address with rows is removed, or, with none to remove, nothing is. */
  ghost predicate Turn(m: Sizes, m': Sizes, project: string) {
    || (exists k :: CanPurge(m, project, k) && m' == m - {k})
    || ((forall k :: !CanPurge(m, project, k)) && m' == m)
  }

  /** The loop can take n turns from m. */
  ghost predicate Runs(m: Sizes, project: string, numRows: int, cap: int, n: nat) {
    n == 0 || (!Exits(m, project, numRows, cap) &&
               exists m' :: Turn(m, m', project) && Runs(m', project, numRows, cap, n - 1))
  }

  /** The project address alone is too large, and an address without rows is cached beside it. */
  predicate Stuck(m: Sizes, project: string, numRows: int, cap: int) {
    project in m && m[project] > 0 && m[project] + numRows > cap && exists k :: k in m && k != project && m[k] == 0
  }

  /** A loop that is not stuck and does not exit has an address to remove. */
  lemma HasPurgeable(m: Sizes, project: string, numRows: int, cap: int)
    requires !Stuck(m, project, numRows, cap) && !Exits(m, project, numRows, cap)
    ensures exists k :: CanPurge(m, project, k)
  {
    SomeRows(m);
    var j :| j in m && m[j] > 0;
    if j != project {
      assert CanPurge(m, project, j);
    } else {
      var rest := m - {project};
      if Total(rest) == 0 {
        NothingElse(m, project, numRows, cap);
      }
      SomeRows(rest);
      var k :| k in rest && rest[k] > 0;
      assert CanPurge(m, project, k);
    }
  }

  lemma NothingElse(m: Sizes, project: string, numRows: int, cap: int)
    requires project in m && m[project] > 0 && Total(m - {project}) == 0
    requires Total(m) + numRows > cap && m.Keys != {project}
    ensures Stuck(m, project, numRows, cap)
  {
    TotalTakesOut(m, project);
    SomeRows(m - {project});
    OtherKey(m, project);
    var k :| k in m && k != project;
    assert (m - {project})[k] == 0;
  }

  lemma OtherKey(m: Sizes, project: string)
    requires project in m && m.Keys != {project}
    ensures exists k :: k in m && k != project
  {
    var rest := m.Keys - {project};
    assert m.Keys == rest + {project};
    assert rest != {};
    var k :| k in rest;
    assert k in m;
  }

  lemma NotStuckAfter(m: Sizes, m': Sizes, project: string, numRows: int, cap: int)
    requires Part(m', m) && !Stuck(m, project, numRows, cap)
    ensures !Stuck(m', project, numRows, cap)
  {
  }

  lemma StuckDoesNotExit(m: Sizes, project: string, numRows: int, cap: int)
    requires Stuck(m, project, numRows, cap)
    ensures !Exits(m, project, numRows, cap)
  {
    TotalTakesOut(m, project);
  }

  lemma {:induction false} StuckRuns(m: Sizes, project: string, numRows: int, cap: int, n: nat)
    requires Stuck(m, project, numRows, cap)
    ensures Runs(m, project, numRows, cap, n)
    decreases n
  {
    if n > 0 {
      StuckDoesNotExit(m, project, numRows, cap);
      var m' := m;
      if k :| CanPurge(m, project, k) {
        m' := m - {k};
        var z :| z in m && z != project && m[z] == 0;
        assert z in m' && m'[z] == 0;
      }
      assert Turn(m, m', project);
      StuckRuns(m', project, numRows, cap, n - 1);
    }
  }

  lemma {:induction false} RunsAreShort(m: Sizes, project: string, numRows: int, cap: int, n: nat)
    requires !Stuck(m, project, numRows, cap) && Runs(m, project, numRows, cap, n)
    ensures n <= |m|
    decreases n
  {
    if n > 0 {
      HasPurgeable(m, project, numRows, cap);
      var m' :| Turn(m, m', project) && Runs(m', project, numRows, cap, n - 1);
      var k :| CanPurge(m, project, k) && m' == m - {k};
      NotStuckAfter(m, m', project, numRows, cap);
      RunsAreShort(m', project, numRows, cap, n - 1);
      assert m'.Keys == m.Keys - {k};
    }
  }

  /** The loop never ends if and only if it is stuck to begin with. */
  lemma NeverEndsIff(m: Sizes, project: string, numRows: int, cap: int)
    ensures (forall n: nat :: Runs(m, project, numRows, cap, n)) <==> Stuck(m, project, numRows, cap)
  {
    hide Stuck, Runs;
    if Stuck(m, project, numRows, cap) {
      forall n: nat ensures Runs(m, project, numRows, cap, n) {
        StuckRuns(m, project, numRows, cap, n);
      }
    } else {
      if Runs(m, project, numRows, cap, |m| + 1) {
        RunsAreShort(m, project, numRows, cap, |m| + 1);
      }
      assert !Runs(m, project, numRows, cap, |m| + 1);
    }
  }

  /** The loop ends if the project address is not cached, or its rows and the new ones fit. */
  lemma ProjectFits(m: Sizes, project: string, numRows: int, cap: int)
    requires project !in m || m[project] + numRows <= cap
    ensures !Stuck(m, project, numRows, cap)
  {
  }
}
