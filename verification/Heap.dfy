/**
 Binary heaps of block heights as plain sequences: what sifting up and sifting
 down do to them one swap at a time, and what it means to hold the greatest of
 the heights seen.
 */
module Heap {
  import opened Common

  /** (k-1)/2, the parent of a position other than the root */
  function Parent(k: nat): nat
    requires 1 <= k
  {
    (k - 1) / 2
  }

  ghost predicate Ordered(hs: seq<nat>, k: nat)
    requires 1 <= k < |hs|
  {
    hs[Parent(k)] <= hs[k]
  }

  ghost predicate IsHeap(hs: seq<nat>) {
    forall k :: 1 <= k < |hs| ==> Ordered(hs, k)
  }

  /** The children of position i are not below i's own parent. */
  ghost predicate Grand(hs: seq<nat>, i: nat)
    requires i < |hs|
  {
    i >= 1 ==> forall k :: 1 <= k < |hs| && Parent(k) == i ==> hs[Parent(i)] <= hs[k]
  }

  /** A heap except that position j may be too small. */
  ghost predicate HeapButUp(hs: seq<nat>, j: nat)
    requires j < |hs|
  {
    && (forall k :: 1 <= k < |hs| && k != j ==> Ordered(hs, k))
    && Grand(hs, j)
  }

  /** A heap except around position i, reached by sifting down from `top`. */
  ghost predicate HeapButDown(hs: seq<nat>, top: nat, i: nat)
    requires top <= i < |hs|
  {
    && (forall k :: 1 <= k < |hs| && k != top && Parent(k) != i ==> Ordered(hs, k))
    && Grand(hs, i)
    && (top < i && 1 <= top ==> Ordered(hs, top))
  }

  function Swapped<T>(hs: seq<T>, i: nat, j: nat): (r: seq<T>)
    requires i < |hs| && j < |hs|
    ensures |r| == |hs|
  {
    hs[i := hs[j]][j := hs[i]]
  }

  lemma SwapKeepsAll<T>(hs: seq<T>, i: nat, j: nat)
    requires i < |hs| && j < |hs|
    ensures multiset(Swapped(hs, i, j)) == multiset(hs)
  {
  }

  lemma UpStep(hs: seq<nat>, j: nat)
    requires 1 <= j < |hs| && HeapButUp(hs, j) && hs[j] < hs[Parent(j)]
    ensures HeapButUp(Swapped(hs, Parent(j), j), Parent(j))
  {
    var p := Parent(j);
    var hs' := Swapped(hs, p, j);
    forall k | 1 <= k < |hs'| && k != p ensures Ordered(hs', k) {
      assert k != j ==> Ordered(hs, k);
    }
    if p >= 1 {
      assert Ordered(hs, p);
      forall k | 1 <= k < |hs'| && Parent(k) == p ensures hs'[Parent(p)] <= hs'[k] {
        assert k != j ==> Ordered(hs, k);
      }
    }
  }

  lemma UpDone(hs: seq<nat>, j: nat)
    requires j < |hs| && HeapButUp(hs, j) && (j == 0 || hs[Parent(j)] <= hs[j])
    ensures IsHeap(hs)
  {
  }

  /** j is the child of i with the least height. */
  ghost predicate LeastChild(hs: seq<nat>, i: nat, j: nat) {
    i < j < |hs| && Parent(j) == i && forall k :: 1 <= k < |hs| && Parent(k) == i ==> hs[j] <= hs[k]
  }

  ghost predicate NoSmallerChild(hs: seq<nat>, i: nat) {
    i < |hs| && forall k :: 1 <= k < |hs| && Parent(k) == i ==> hs[i] <= hs[k]
  }

  /** How down picks the child to compare with. */
  lemma PickChild(hs: seq<nat>, i: nat, j: nat)
    requires i < |hs|
    requires 2 * i + 1 < |hs| ==>
               j == if 2 * i + 2 < |hs| && hs[2 * i + 2] < hs[2 * i + 1] then 2 * i + 2 else 2 * i + 1
    ensures if 2 * i + 1 >= |hs| then NoSmallerChild(hs, i)
            else LeastChild(hs, i, j) && (hs[i] <= hs[j] ==> NoSmallerChild(hs, i))
  {
    assert forall k :: 1 <= k < |hs| && Parent(k) == i ==> k == 2 * i + 1 || k == 2 * i + 2;
  }

  /** Swap position i with its smaller child j. */
  lemma DownStep(hs: seq<nat>, top: nat, i: nat, j: nat)
    requires top <= i < |hs| && LeastChild(hs, i, j) && HeapButDown(hs, top, i) && hs[j] < hs[i]
    ensures HeapButDown(Swapped(hs, i, j), top, j)
  {
    var hs' := Swapped(hs, i, j);
    forall k | 1 <= k < |hs'| && k != top && Parent(k) != j ensures Ordered(hs', k) {
      assert Parent(k) != i ==> Ordered(hs, k);
    }
    forall k | 1 <= k < |hs'| && Parent(k) == j ensures hs'[Parent(j)] <= hs'[k] {
      assert Ordered(hs, k);
    }
  }

  lemma DownDone(hs: seq<nat>, top: nat, i: nat)
    requires top <= i < |hs| && HeapButDown(hs, top, i) && NoSmallerChild(hs, i)
    ensures top < i ==> IsHeap(hs)
    ensures top == i ==> HeapButUp(hs, i)
  {
    forall k | 1 <= k < |hs| && k != top ensures Ordered(hs, k) {
    }
  }

  /** Setting one position of a heap leaves it a heap except around that position. */
  lemma SetOne(hs: seq<nat>, i: nat, x: nat)
    requires IsHeap(hs) && i < |hs|
    ensures HeapButDown(hs[i := x], i, i)
    ensures multiset(hs[i := x]) == multiset(hs) - multiset{hs[i]} + multiset{x}
  {
    var hs' := hs[i := x];
    forall k | 1 <= k < |hs'| && k != i && Parent(k) != i ensures Ordered(hs', k) {
      assert Ordered(hs, k);
    }
    if i >= 1 {
      assert Ordered(hs, i);
      forall k | 1 <= k < |hs'| && Parent(k) == i ensures hs'[Parent(i)] <= hs'[k] {
        assert Ordered(hs, k);
      }
    }
  }

  /** Appending at the end leaves a heap except that the last position may be too small. */
  lemma AppendOne(hs: seq<nat>, x: nat)
    requires IsHeap(hs)
    ensures HeapButUp(hs + [x], |hs|)
    ensures multiset(hs + [x]) == multiset(hs) + multiset{x}
  {
    var hs' := hs + [x];
    forall k | 1 <= k < |hs'| && k != |hs| ensures Ordered(hs', k) {
      assert Ordered(hs, k);
    }
  }

  lemma RootBoundsAll(hs: seq<nat>)
    requires IsHeap(hs) && hs != []
    ensures hs[0] in multiset(hs) && forall y :: y in multiset(hs) ==> hs[0] <= y
  {
    forall y | y in multiset(hs) ensures hs[0] <= y {
      assert y in hs;
      var k :| 0 <= k < |hs| && hs[k] == y;
      RootIsLeast(hs, k);
    }
  }

  /** The root of a heap is its least height. */
  lemma {:induction false} RootIsLeast(hs: seq<nat>, k: nat)
    requires IsHeap(hs) && k < |hs|
    ensures hs[0] <= hs[k]
    decreases k
  {
    if k >= 1 {
      RootIsLeast(hs, Parent(k));
      assert Ordered(hs, k);
    }
  }

  // ----- keeping the greatest

  /** `kept` is the `cap` greatest members of `seen`, or all of them if there are fewer. */
  ghost predicate Greatest(seen: multiset<nat>, kept: multiset<nat>, cap: nat) {
    && kept <= seen
    && |kept| == Min(cap, |seen|)
    && forall x, y :: x in seen - kept && y in kept ==> x <= y
  }

  /** Being the greatest determines the members, with their multiplicities. */
  lemma GreatestUnique(seen: multiset<nat>, a: multiset<nat>, b: multiset<nat>, cap: nat)
    requires Greatest(seen, a, cap) && Greatest(seen, b, cap)
    ensures a == b
  {
    if v :| a[v] > b[v] {
      NoMoreElsewhere(a, b);
      var w :| b[w] > a[w];
      LeftOutIsLess(seen, a, b, cap, v, w);
      LeftOutIsLess(seen, b, a, cap, w, v);
    } else {
      assert a <= b;
      assert |b - a| == |b| - |a|;
    }
  }

  /** A member that b has too few of is no greater than any member of b. */
  lemma LeftOutIsLess(seen: multiset<nat>, a: multiset<nat>, b: multiset<nat>, cap: nat, v: nat, w: nat)
    requires a <= seen && Greatest(seen, b, cap) && a[v] > b[v] && w in b
    ensures v <= w
  {
    assert v in seen - b;
  }

  lemma NoMoreElsewhere(a: multiset<nat>, b: multiset<nat>)
    requires |a| == |b| && exists v :: a[v] > b[v]
    ensures exists w :: b[w] > a[w]
  {
    if forall w :: b[w] <= a[w] {
      assert b <= a;
      assert |a - b| == |a| - |b|;
    }
  }

  lemma KeepNew(seen: multiset<nat>, kept: multiset<nat>, cap: nat, x: nat)
    requires Greatest(seen, kept, cap) && |kept| < cap
    ensures Greatest(seen + multiset{x}, kept + multiset{x}, cap)
  {
    assert |seen - kept| == |seen| - |kept|;
    assert seen == kept + (seen - kept);
  }

  lemma KeepOld(seen: multiset<nat>, kept: multiset<nat>, cap: nat, x: nat)
    requires Greatest(seen, kept, cap) && |kept| == cap
    requires forall y :: y in kept ==> x <= y
    ensures Greatest(seen + multiset{x}, kept, cap)
  {
    assert seen + multiset{x} - kept == (seen - kept) + multiset{x};
  }

  lemma Replace(seen: multiset<nat>, kept: multiset<nat>, cap: nat, least: nat, x: nat)
    requires Greatest(seen, kept, cap) && |kept| == cap
    requires least in kept && least < x && forall y :: y in kept ==> least <= y
    ensures Greatest(seen + multiset{x}, kept - multiset{least} + multiset{x}, cap)
  {
    var kept' := kept - multiset{least} + multiset{x};
    assert seen + multiset{x} - kept' == (seen - kept) + multiset{least};
    forall a, b | a in seen + multiset{x} - kept' && b in kept' ensures a <= b {
      assert a == least || a in seen - kept;
      assert b == x || b in kept;
    }
  }
}
