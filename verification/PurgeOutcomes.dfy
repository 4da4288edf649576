/**
 What the purge of the address cache may leave, on the numbers of rows cached for
 each address. Both loops take addresses in any order, so it is a relation.
 */
module PurgeOutcomes {
  import opened Common
  import opened PurgeSizes

  function Rows(m: Sizes, addr: string): nat {
    if addr in m then m[addr] else 0
  }

  // ----- the two loops, turn by turn

  /** The first loop ends here: one address more fits, or only the project address is left. */
  predicate FirstDone(m: Sizes, project: string, capAddr: int) {
    |m| < capAddr || m.Keys == {project}
  }

  predicate CanDrop(m: Sizes, project: string, k: string) {
    k in m && k != project
  }

  ghost predicate FirstTurn(m: Sizes, m': Sizes, project: string) {
    exists k :: CanDrop(m, project, k) && m' == m - {k}
  }

  /** n turns of the first loop may lead from m to m'. */
  ghost predicate FirstSteps(m: Sizes, m': Sizes, project: string, capAddr: int, n: nat)
    decreases n
  {
    if n == 0 then m' == m
    else exists p: Sizes ::
      FirstSteps(m, p, project, capAddr, n - 1) && !FirstDone(p, project, capAddr) && FirstTurn(p, m', project)
  }

  ghost predicate FirstLoop(m: Sizes, m': Sizes, project: string, capAddr: int) {
    FirstDone(m', project, capAddr) && exists n: nat :: FirstSteps(m, m', project, capAddr, n)
  }

  /** n turns of the second loop may lead from m to m'. */
  ghost predicate SecondSteps(m: Sizes, m': Sizes, project: string, numRows: int, cap: int, n: nat)
    decreases n
  {
    if n == 0 then m' == m
    else exists p: Sizes ::
      SecondSteps(m, p, project, numRows, cap, n - 1) && !Exits(p, project, numRows, cap) && Turn(p, m', project)
  }

  ghost predicate SecondLoop(m: Sizes, m': Sizes, project: string, numRows: int, cap: int) {
    Exits(m', project, numRows, cap) && exists n: nat :: SecondSteps(m, m', project, numRows, cap, n)
  }

  /** The purge may end with m'. */
  ghost predicate Outcome(m: Sizes, m': Sizes, project: string, numRows: int, cap: int, capAddr: int) {
    exists m1: Sizes :: FirstLoop(m, m1, project, capAddr) && SecondLoop(m1, m', project, numRows, cap)
  }

  /** purgeRowsToFit reports space. */
  ghost predicate Space(m: Sizes, numRows: int, cap: int, capAddr: int) {
    Total(m) + numRows <= cap && |m| < capAddr
  }

  // ----- what every outcome keeps

  lemma Dropped(m: Sizes, k: string)
    requires k in m
    ensures |m - {k}| == |m| - 1 && Part(m - {k}, m)
  {
    assert (m - {k}).Keys == m.Keys - {k};
  }

  lemma PartDropped(m: Sizes, whole: Sizes, k: string)
    requires Part(m, whole) && k in m
    ensures Part(m - {k}, whole)
  {
  }

  /** The last turn of the first loop. */
  lemma LastDrop(m: Sizes, m': Sizes, project: string, capAddr: int, n: nat) returns (p: Sizes, k: string)
    requires n > 0 && FirstSteps(m, m', project, capAddr, n)
    ensures FirstSteps(m, p, project, capAddr, n - 1) && !FirstDone(p, project, capAddr)
    ensures CanDrop(p, project, k) && m' == p - {k}
  {
    p :| FirstSteps(m, p, project, capAddr, n - 1) && !FirstDone(p, project, capAddr) && FirstTurn(p, m', project);
    k :| CanDrop(p, project, k) && m' == p - {k};
  }

  /** The last turn of the second loop. */
  lemma LastTurn(m: Sizes, m': Sizes, project: string, numRows: int, cap: int, n: nat) returns (p: Sizes)
    requires n > 0 && SecondSteps(m, m', project, numRows, cap, n)
    ensures SecondSteps(m, p, project, numRows, cap, n - 1) && !Exits(p, project, numRows, cap) && Turn(p, m', project)
  {
    p :| SecondSteps(m, p, project, numRows, cap, n - 1) && !Exits(p, project, numRows, cap) && Turn(p, m', project);
  }

  lemma {:induction false} FirstKeeps(m: Sizes, m': Sizes, project: string, capAddr: int, n: nat)
    requires FirstSteps(m, m', project, capAddr, n)
    ensures Part(m', m) && |m'| == |m| - n && (project in m ==> project in m')
    ensures n > 0 ==> |m| >= capAddr
    decreases n
  {
    hide FirstSteps, Part;
    if n == 0 {
      NoSteps(m, m', project, capAddr);
      WholePart(m);
    } else {
      var p, k := LastDrop(m, m', project, capAddr, n);
      FirstKeeps(m, p, project, capAddr, n - 1);
      Dropped(p, k);
      PartDropped(p, m, k);
    }
  }

  lemma WholePart(m: Sizes)
    ensures Part(m, m)
  {
  }

  ghost predicate KeepsEmpty(m: Sizes, m': Sizes) {
    forall k :: k in m && m[k] == 0 ==> k in m'
  }

  /** The second loop keeps the project address and every address without rows. */
  lemma {:induction false} SecondKeeps(m: Sizes, m': Sizes, project: string, numRows: int, cap: int, n: nat)
    requires SecondSteps(m, m', project, numRows, cap, n)
    ensures Part(m', m) && |m'| <= |m| && (project in m ==> project in m') && KeepsEmpty(m, m')
    ensures m' != m ==> !Exits(m, project, numRows, cap)
    decreases n
  {
    hide SecondSteps, Part, KeepsEmpty, Exits;
    if n == 0 {
      NoTurns(m, m', project, numRows, cap);
      WholePart(m);
    } else {
      var p := LastTurn(m, m', project, numRows, cap, n);
      SecondKeeps(m, p, project, numRows, cap, n - 1);
      TurnKeeps(m, p, m', project);
    }
  }

  lemma TurnKeeps(m: Sizes, p: Sizes, m': Sizes, project: string)
    requires Part(p, m) && KeepsEmpty(m, p) && Turn(p, m', project)
    ensures Part(m', m) && KeepsEmpty(m, m') && |m'| <= |p| && (project in p ==> project in m')
  {
    if k :| CanPurge(p, project, k) && m' == p - {k} {
      Dropped(p, k);
    }
  }

  lemma NoTurns(m: Sizes, m': Sizes, project: string, numRows: int, cap: int)
    requires SecondSteps(m, m', project, numRows, cap, 0)
    ensures m' == m && KeepsEmpty(m, m')
  {
  }

  lemma OutcomeKeeps(m: Sizes, m': Sizes, project: string, numRows: int, cap: int, capAddr: int)
    requires Outcome(m, m', project, numRows, cap, capAddr)
    ensures Part(m', m) && |m'| <= |m| && (project in m ==> project in m')
    ensures |m| < capAddr ==> KeepsEmpty(m, m')
    ensures |m| < capAddr && Total(m) + numRows <= cap ==> m' == m
  {
    hide FirstSteps, SecondSteps, Total;
    var m1: Sizes :| FirstLoop(m, m1, project, capAddr) && SecondLoop(m1, m', project, numRows, cap);
    var i: nat :| FirstSteps(m, m1, project, capAddr, i);
    var j: nat :| SecondSteps(m1, m', project, numRows, cap, j);
    FirstKeeps(m, m1, project, capAddr, i);
    SecondKeeps(m1, m', project, numRows, cap, j);
    if i == 0 {
      NoSteps(m, m1, project, capAddr);
    }
  }

  lemma NoSteps(m: Sizes, m': Sizes, project: string, capAddr: int)
    requires FirstSteps(m, m', project, capAddr, 0)
    ensures m' == m
  {
  }

  // ----- outcomes that can happen

  lemma OneDrop(m: Sizes, project: string, capAddr: int, k: string)
    requires !FirstDone(m, project, capAddr) && CanDrop(m, project, k)
    ensures FirstSteps(m, m - {k}, project, capAddr, 1)
  {
    FirstStart(m, project, capAddr);
    OneMoreDrop(m, m, project, capAddr, k, 0);
  }

  lemma {:induction false} Joined(m: Sizes, p: Sizes, m': Sizes, project: string, numRows: int, cap: int, i: nat, j: nat)
    requires SecondSteps(m, p, project, numRows, cap, i) && SecondSteps(p, m', project, numRows, cap, j)
    ensures SecondSteps(m, m', project, numRows, cap, i + j)
    decreases j
  {
    hide SecondSteps, Exits, Turn;
    if j > 0 {
      var q := LastTurn(p, m', project, numRows, cap, j);
      Joined(m, p, q, project, numRows, cap, i, j - 1);
      OneTurn(m, q, m', project, numRows, cap, i + j - 1);
    } else {
      NoTurns(p, m', project, numRows, cap);
    }
  }

  lemma OneTurn(m: Sizes, p: Sizes, m': Sizes, project: string, numRows: int, cap: int, n: nat)
    requires SecondSteps(m, p, project, numRows, cap, n) && !Exits(p, project, numRows, cap) && Turn(p, m', project)
    ensures SecondSteps(m, m', project, numRows, cap, n + 1)
  {
  }

  /** A turn of the second loop, which cannot make it stuck. */
  lemma PurgeTurn(m: Sizes, p: Sizes, project: string, numRows: int, cap: int, k: string, n: nat)
    requires SecondSteps(m, p, project, numRows, cap, n) && !Exits(p, project, numRows, cap) && CanPurge(p, project, k)
    requires !Stuck(p, project, numRows, cap)
    ensures SecondSteps(m, p - {k}, project, numRows, cap, n + 1) && !Stuck(p - {k}, project, numRows, cap)
  {
    hide SecondSteps, Exits;
    assert Turn(p, p - {k}, project);
    OneTurn(m, p, p - {k}, project, numRows, cap, n);
    Dropped(p, k);
    NotStuckAfter(p, p - {k}, project, numRows, cap);
  }

  lemma OneMoreDrop(m: Sizes, p: Sizes, project: string, capAddr: int, k: string, n: nat)
    requires FirstSteps(m, p, project, capAddr, n) && !FirstDone(p, project, capAddr) && CanDrop(p, project, k)
    ensures FirstSteps(m, p - {k}, project, capAddr, n + 1)
  {
    assert FirstTurn(p, p - {k}, project);
  }

  lemma OnePurge(m: Sizes, project: string, numRows: int, cap: int, k: string)
    requires !Exits(m, project, numRows, cap) && CanPurge(m, project, k)
    ensures SecondSteps(m, m - {k}, project, numRows, cap, 1)
  {
    SecondStart(m, project, numRows, cap);
    assert Turn(m, m - {k}, project);
  }

  /** If the rows fit beside those of the project address, the second loop can end with space for them. */
  lemma {:induction false} SecondEnds(m: Sizes, project: string, numRows: int, cap: int) returns (m': Sizes)
    requires Rows(m, project) + numRows <= cap
    ensures SecondLoop(m, m', project, numRows, cap) && Total(m') + numRows <= cap
    ensures Part(m', m) && |m'| <= |m|
    decreases |m|
  {
    hide SecondSteps, Total;
    if Exits(m, project, numRows, cap) {
      m' := m;
      ExitFits(m, project, numRows, cap);
      SecondStart(m, project, numRows, cap);
    } else {
      ProjectFits(m, project, numRows, cap);
      HasPurgeable(m, project, numRows, cap);
      var k :| CanPurge(m, project, k);
      Dropped(m, k);
      m' := SecondEnds(m - {k}, project, numRows, cap);
      OnePurge(m, project, numRows, cap, k);
      var j: nat :| SecondSteps(m - {k}, m', project, numRows, cap, j);
      Joined(m, m - {k}, m', project, numRows, cap, 1, j);
    }
  }

  lemma SecondStart(m: Sizes, project: string, numRows: int, cap: int)
    ensures SecondSteps(m, m, project, numRows, cap, 0)
  {
  }

  lemma ExitFits(m: Sizes, project: string, numRows: int, cap: int)
    requires Exits(m, project, numRows, cap) && Rows(m, project) + numRows <= cap
    ensures Total(m) + numRows <= cap
  {
    if m.Keys == {project} {
      TotalTakesOut(m, project);
      assert m - {project} == map[];
    }
  }

  /** No outcome of the second loop has space if the rows do not fit beside those of the project address. */
  lemma NoSpace(m: Sizes, project: string, numRows: int, cap: int)
    requires Total(m) + numRows <= cap
    ensures Rows(m, project) + numRows <= cap
  {
    if project in m {
      TotalTakesOut(m, project);
    }
  }

  // ----- when the purge may hang

  /** Some outcome of the first loop makes the second one stuck. */
  ghost predicate MayStick(m: Sizes, project: string, numRows: int, cap: int, capAddr: int) {
    exists m1: Sizes :: FirstLoop(m, m1, project, capAddr) && Stuck(m1, project, numRows, cap)
  }

  /** The purge may not return. */
  predicate MayHang(m: Sizes, project: string, numRows: int, cap: int, capAddr: int) {
    cap >= 1 && capAddr >= 1 && Stuck(m, project, numRows, cap) && (|m| < capAddr || capAddr >= 3)
  }

  /** In a cache within its bounds, the purge may get stuck if and only if this can be seen before the call. */
  lemma MayHangIff(m: Sizes, project: string, numRows: int, cap: int, capAddr: int)
    requires |m| <= capAddr && capAddr >= 1 && cap >= 1
    ensures MayStick(m, project, numRows, cap, capAddr) <==> MayHang(m, project, numRows, cap, capAddr)
  {
    hide FirstSteps;
    if m1: Sizes :| FirstLoop(m, m1, project, capAddr) && Stuck(m1, project, numRows, cap) {
      FirstNotStuck(m, m1, project, numRows, cap, capAddr);
    }
    if MayHang(m, project, numRows, cap, capAddr) {
      if |m| < capAddr {
        FirstStart(m, project, capAddr);
        assert FirstLoop(m, m, project, capAddr);
      } else {
        var z :| z in m && z != project && m[z] == 0;
        ThirdKey(m, project, z);
        var k :| k in m && k != project && k != z;
        Dropped(m, k);
        OneDrop(m, project, capAddr, k);
        assert FirstLoop(m, m - {k}, project, capAddr);
        assert z in m - {k};
      }
    }
  }

  lemma FirstStart(m: Sizes, project: string, capAddr: int)
    ensures FirstSteps(m, m, project, capAddr, 0)
  {
  }

  lemma ThirdKey(m: Sizes, x: string, y: string)
    requires x in m && y in m && |m| >= 3
    ensures exists k :: k in m && k != x && k != y
  {
    var rest := m.Keys - {x, y};
    assert m.Keys == rest + {x, y};
    assert |{x, y}| <= 2 < |m.Keys|;
    assert rest != {};
    var k :| k in rest;
    assert k in m;
  }

  /** If it may not hang, it does not get stuck. */
  lemma FirstNotStuck(m: Sizes, m1: Sizes, project: string, numRows: int, cap: int, capAddr: int)
    requires |m| <= capAddr && capAddr >= 1 && cap >= 1 && FirstLoop(m, m1, project, capAddr)
    ensures Stuck(m1, project, numRows, cap) ==> MayHang(m, project, numRows, cap, capAddr)
  {
    hide FirstSteps;
    var n: nat :| FirstSteps(m, m1, project, capAddr, n);
    FirstKeeps(m, m1, project, capAddr, n);
    if Stuck(m1, project, numRows, cap) {
      var z :| z in m1 && z != project && m1[z] == 0;
      TwoKeys(m1, project, z);
    }
  }

  lemma TwoKeys(m: Sizes, x: string, y: string)
    requires x in m && y in m && x != y
    ensures |m| >= 2
  {
    assert {x, y} <= m.Keys;
    SubsetSize({x, y}, m.Keys);
    assert |{x, y}| == 2;
  }

  lemma {:induction false} SubsetSize(a: set<string>, b: set<string>)
    requires a <= b
    ensures |a| <= |b|
  {
    assert |b - a| == |b| - |a * b|;
    assert a * b == a;
  }

  // ----- storing rows

  /** How a store ends, given what the purge left: set in place, the rows of an item removed are lost. */
  ghost predicate Ends(left: Sizes, m': Sizes, addr: string, n: nat, inPlace: bool, ok: bool,
                       numRows: int, cap: int, capAddr: int)
  {
    && ok == Space(left, numRows, cap, capAddr)
    && m' == if ok && (addr in left || !inPlace) then left[addr := n] else left
  }

  /** How many rows more the cache must hold. */
  function Need(m: Sizes, addr: string, n: nat): int { n - Rows(m, addr) }

  /** Storing n rows for an address, as a new item or in place, may make m' of m and report ok. */
  ghost predicate Settles(m: Sizes, m': Sizes, addr: string, n: nat, inPlace: bool, ok: bool,
                          project: string, cap: int, capAddr: int)
  {
    if cap < 1 || capAddr < 1 then !ok && m' == m
    else exists left: Sizes ::
      Outcome(m, left, project, Need(m, addr, n), cap, capAddr) &&
      Ends(left, m', addr, n, inPlace, ok, Need(m, addr, n), cap, capAddr)
  }

  /** What is left, but for one address, which may have n rows. */
  ghost predicate PartBut(m: Sizes, whole: Sizes, addr: string, n: nat) {
    forall x :: x in m ==> (x in whole && m[x] == whole[x]) || (x == addr && m[x] == n)
  }

  /** Removing addresses removes rows. */
  lemma {:induction false} PartTotal(m: Sizes, whole: Sizes)
    requires Part(m, whole)
    ensures Total(m) <= Total(whole)
    decreases |whole|
  {
    hide Total;
    if whole == map[] {
      assert m == map[];
    } else {
      var k :| k in whole;
      TotalTakesOut(whole, k);
      PartTotal(m - {k}, whole - {k});
      if k in m {
        TotalTakesOut(m, k);
      } else {
        assert m - {k} == m;
      }
    }
  }

  lemma PutSize(m: Sizes, addr: string, n: nat)
    ensures |m[addr := n]| == if addr in m then |m| else |m| + 1
  {
    assert m[addr := n].Keys == m.Keys + {addr};
  }

  /** However it ends: addresses stay in bounds, and rows within the capacity and those replaced. */
  lemma SettlesBounds(m: Sizes, m': Sizes, addr: string, n: nat, inPlace: bool, ok: bool,
                      project: string, cap: int, capAddr: int)
    requires Settles(m, m', addr, n, inPlace, ok, project, cap, capAddr) && |m| <= Max(0, capAddr)
    ensures |m'| <= Max(0, capAddr) && PartBut(m', m, addr, n)
    ensures Total(m') <= if ok then cap + Rows(m, addr) else Total(m)
    ensures ok && !inPlace ==> addr in m' && m'[addr] == n
    ensures ok && inPlace ==> |m'| < capAddr
    ensures !ok ==> Part(m', m)
  {
    hide Outcome, Total, FirstLoop, SecondLoop;
    if cap >= 1 && capAddr >= 1 {
      var left: Sizes :| Outcome(m, left, project, Need(m, addr, n), cap, capAddr)
                         && Ends(left, m', addr, n, inPlace, ok, Need(m, addr, n), cap, capAddr);
      OutcomeKeeps(m, left, project, Need(m, addr, n), cap, capAddr);
      PartTotal(left, m);
      PutSize(left, addr, n);
      TotalPutsIn(left, addr, n);
    }
  }

  /** With room for the rows and for an address, nothing is removed. */
  lemma SettlesFits(m: Sizes, m': Sizes, addr: string, n: nat, inPlace: bool, ok: bool,
                    project: string, cap: int, capAddr: int)
    requires Settles(m, m', addr, n, inPlace, ok, project, cap, capAddr) && (inPlace ==> addr in m)
    requires cap >= 1 && |m| < capAddr && Total(m) + Need(m, addr, n) <= cap
    ensures ok && m' == m[addr := n]
  {
    hide Outcome, Total, FirstLoop, SecondLoop;
    var left: Sizes :| Outcome(m, left, project, Need(m, addr, n), cap, capAddr)
                       && Ends(left, m', addr, n, inPlace, ok, Need(m, addr, n), cap, capAddr);
    OutcomeKeeps(m, left, project, Need(m, addr, n), cap, capAddr);
  }

  // ----- when an update in place is kept

  ghost predicate CanSucceed(m: Sizes, addr: string, n: nat, project: string, cap: int, capAddr: int) {
    exists m': Sizes :: Settles(m, m', addr, n, true, true, project, cap, capAddr)
  }

  /** Every update that reports success leaves the address cached. */
  ghost predicate AlwaysKept(m: Sizes, addr: string, n: nat, project: string, cap: int, capAddr: int) {
    forall m': Sizes :: Settles(m, m', addr, n, true, true, project, cap, capAddr) ==> addr in m'
  }

  lemma SpaceNeeds(m: Sizes, left: Sizes, project: string, numRows: int, cap: int, capAddr: int)
    requires Outcome(m, left, project, numRows, cap, capAddr) && Space(left, numRows, cap, capAddr)
    ensures Rows(m, project) + numRows <= cap
    ensures m.Keys == {project} ==> capAddr >= 2
  {
    hide Outcome, Total;
    OutcomeKeeps(m, left, project, numRows, cap, capAddr);
    NoSpace(left, project, numRows, cap);
    if m.Keys == {project} {
      assert project in left;
    }
  }

  /** The second loop, from a state that the first can leave, may end with space. */
  lemma SpaceFrom(m: Sizes, m1: Sizes, project: string, numRows: int, cap: int, capAddr: int) returns (left: Sizes)
    requires FirstLoop(m, m1, project, capAddr) && |m1| < capAddr && Rows(m1, project) + numRows <= cap
    ensures Outcome(m, left, project, numRows, cap, capAddr) && Space(left, numRows, cap, capAddr) && Part(left, m1)
  {
    hide FirstLoop, SecondLoop, Total;
    left := SecondEnds(m1, project, numRows, cap);
  }

  lemma FirstNothing(m: Sizes, project: string, capAddr: int)
    requires |m| < capAddr
    ensures FirstLoop(m, m, project, capAddr)
  {
    FirstStart(m, project, capAddr);
  }

  lemma FirstOne(m: Sizes, project: string, capAddr: int, k: string)
    requires |m| == capAddr && CanDrop(m, project, k)
    ensures FirstLoop(m, m - {k}, project, capAddr) && |m - {k}| < capAddr
  {
    hide FirstSteps;
    Dropped(m, k);
    OneDrop(m, project, capAddr, k);
  }

  /** An update can succeed if and only if its rows fit beside those of the project address, and an address does. */
  lemma SucceedsIff(m: Sizes, addr: string, n: nat, project: string, cap: int, capAddr: int)
    requires addr in m && |m| <= capAddr && cap >= 1
    ensures CanSucceed(m, addr, n, project, cap, capAddr)
       <==> Rows(m, project) + n - m[addr] <= cap && (m.Keys == {project} ==> capAddr >= 2)
  {
    hide FirstLoop, SecondLoop, Outcome, Total;
    var numRows := Need(m, addr, n);
    if m': Sizes :| Settles(m, m', addr, n, true, true, project, cap, capAddr) {
      var left: Sizes :| Outcome(m, left, project, numRows, cap, capAddr)
                         && Ends(left, m', addr, n, true, true, numRows, cap, capAddr);
      SpaceNeeds(m, left, project, numRows, cap, capAddr);
    }
    if Rows(m, project) + numRows <= cap && (m.Keys == {project} ==> capAddr >= 2) {
      var left := SomeSpace(m, project, numRows, cap, capAddr);
      var m' := if addr in left then left[addr := n] else left;
      assert Ends(left, m', addr, n, true, true, numRows, cap, capAddr);
      assert Settles(m, m', addr, n, true, true, project, cap, capAddr);
    }
  }

  lemma SomeSpace(m: Sizes, project: string, numRows: int, cap: int, capAddr: int) returns (left: Sizes)
    requires m != map[] && |m| <= capAddr && Rows(m, project) + numRows <= cap
    requires m.Keys == {project} ==> capAddr >= 2
    ensures Outcome(m, left, project, numRows, cap, capAddr) && Space(left, numRows, cap, capAddr)
  {
    hide FirstLoop, Outcome, Total;
    if |m| < capAddr {
      FirstNothing(m, project, capAddr);
      left := SpaceFrom(m, m, project, numRows, cap, capAddr);
    } else {
      assert m.Keys == {project} ==> |m| == |m.Keys| == 1;
      SomeOther(m, project);
      var k :| CanDrop(m, project, k);
      FirstOne(m, project, capAddr, k);
      left := SpaceFrom(m, m - {k}, project, numRows, cap, capAddr);
    }
  }

  lemma SomeOther(m: Sizes, project: string)
    requires m != map[] && m.Keys != {project}
    ensures exists k :: CanDrop(m, project, k)
  {
    var k :| k in m;
    if k != project {
      assert CanDrop(m, project, k);
    } else {
      OtherKey(m, project);
      var j :| j in m && j != project;
      assert CanDrop(m, project, j);
    }
  }

  /** An outcome with space in which the address updated has been removed. */
  lemma LosesIt(m: Sizes, addr: string, project: string, numRows: int, cap: int, capAddr: int) returns (left: Sizes)
    requires addr in m && addr != project && |m| <= capAddr && Rows(m, project) + numRows <= cap
    requires |m| == capAddr || (m[addr] > 0 && Total(m) + numRows > cap)
    ensures Outcome(m, left, project, numRows, cap, capAddr) && Space(left, numRows, cap, capAddr) && addr !in left
  {
    hide FirstLoop, SecondLoop, SecondSteps, Total;
    if |m| == capAddr {
      FirstOne(m, project, capAddr, addr);
      left := SpaceFrom(m, m - {addr}, project, numRows, cap, capAddr);
    } else {
      FirstNothing(m, project, capAddr);
      TotalTakesOut(m, addr);
      assert addr in m.Keys;
      OnePurge(m, project, numRows, cap, addr);
      Dropped(m, addr);
      left := SecondEnds(m - {addr}, project, numRows, cap);
      Continues(m, m - {addr}, left, project, numRows, cap);
    }
  }

  lemma Continues(m: Sizes, p: Sizes, m': Sizes, project: string, numRows: int, cap: int)
    requires SecondSteps(m, p, project, numRows, cap, 1) && SecondLoop(p, m', project, numRows, cap)
    ensures SecondLoop(m, m', project, numRows, cap)
  {
    hide SecondSteps, Exits;
    var j: nat :| SecondSteps(p, m', project, numRows, cap, j);
    Joined(m, p, m', project, numRows, cap, 1, j);
  }

  /**
   An update in place that can succeed leaves the address cached, whatever the
   order in which addresses are taken, if and only if it is the project address,
   or there is room for an address more and, unless no rows are cached for the
   address yet, for the rows too.
   */
  lemma UpdateKeptIff(m: Sizes, addr: string, n: nat, project: string, cap: int, capAddr: int)
    requires addr in m && |m| <= capAddr && cap >= 1 && CanSucceed(m, addr, n, project, cap, capAddr)
    ensures AlwaysKept(m, addr, n, project, cap, capAddr)
       <==> addr == project || (|m| < capAddr && (m[addr] == 0 || Total(m) + n - m[addr] <= cap))
  {
    hide FirstLoop, SecondLoop, Outcome, Total, Space;
    var numRows := Need(m, addr, n);
    SucceedsIff(m, addr, n, project, cap, capAddr);
    if addr == project || (|m| < capAddr && (m[addr] == 0 || Total(m) + numRows <= cap)) {
      forall m': Sizes | Settles(m, m', addr, n, true, true, project, cap, capAddr) ensures addr in m' {
        var left: Sizes :| Outcome(m, left, project, numRows, cap, capAddr)
                           && Ends(left, m', addr, n, true, true, numRows, cap, capAddr);
        OutcomeKeeps(m, left, project, numRows, cap, capAddr);
      }
    } else {
      var left := LosesIt(m, addr, project, numRows, cap, capAddr);
      assert Ends(left, left, addr, n, true, true, numRows, cap, capAddr);
      assert Settles(m, left, addr, n, true, true, project, cap, capAddr);
    }
  }
}
