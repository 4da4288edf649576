/** Small functions shared by the models. */
module Common {

  function Min(a: int, b: int): int { if a < b then a else b }

  function Max(a: int, b: int): int { if a < b then b else a }

  function Reversed<T>(s: seq<T>): (r: seq<T>)
    ensures |r| == |s|
  {
    seq(|s|, i requires 0 <= i < |s| => s[|s| - 1 - i])
  }

  // ----- sums over maps

  ghost function Sum<K(!new)>(m: map<K, int>): int {
    if m == map[] then 0
    else
      var k :| k in m;
      m[k] + Sum(m - {k})
  }

  /** The sum does not depend on the order in which entries are taken. */
  lemma {:induction false} SumTakesOut<K(!new)>(m: map<K, int>, k: K)
    requires k in m
    ensures Sum(m) == m[k] + Sum(m - {k})
    decreases |m|
  {
    var j :| j in m && Sum(m) == m[j] + Sum(m - {j});
    if j != k {
      SumTakesOut(m - {j}, k);
      SumTakesOut(m - {k}, j);
      assert m - {j} - {k} == m - {k} - {j};
    }
  }

  lemma SumPutsIn<K(!new)>(m: map<K, int>, k: K, v: int)
    ensures Sum(m[k := v]) == Sum(m - {k}) + v
    ensures Sum(m[k := v]) == Sum(m) + v - if k in m then m[k] else 0
  {
    SumTakesOut(m[k := v], k);
    assert m[k := v] - {k} == m - {k};
    if k in m {
      SumTakesOut(m, k);
    } else {
      assert m - {k} == m;
    }
  }

  // ----- parts of a list

  /** `at` lists, in order, the places of the whole that hold an element to pick; the part is what they hold. */
  ghost predicate PicksAt<T(!new)>(whole: seq<T>, part: seq<T>, at: seq<int>, p: T -> bool) {
    && |at| == |part|
    && (forall k :: 0 <= k < |at| ==> 0 <= at[k] < |whole| && part[k] == whole[at[k]])
    && (forall j, k :: 0 <= j < k < |at| ==> at[j] < at[k])
    && (forall i :: 0 <= i < |whole| ==> (i in at <==> p(whole[i])))
  }

  /** The part is the elements to pick, in their order. */
  ghost predicate Picks<T(!new)>(whole: seq<T>, part: seq<T>, p: T -> bool) {
    exists at: seq<int> :: PicksAt(whole, part, at, p)
  }

  lemma PicksNone<T(!new)>(p: T -> bool)
    ensures Picks([], [], p)
  {
    assert PicksAt([], [], [], p);
  }

  lemma PicksSkip<T(!new)>(whole: seq<T>, part: seq<T>, at: seq<int>, p: T -> bool, x: T)
    requires PicksAt(whole, part, at, p) && !p(x)
    ensures PicksAt(whole + [x], part, at, p)
  {
    forall i | 0 <= i < |whole + [x]| ensures i in at <==> p((whole + [x])[i]) {
      if i == |whole| {
        assert i !in at;
      }
    }
  }

  lemma PicksMore<T(!new)>(whole: seq<T>, part: seq<T>, at: seq<int>, p: T -> bool, x: T)
    requires PicksAt(whole, part, at, p) && p(x)
    ensures PicksAt(whole + [x], part + [x], at + [|whole|], p)
  {
    var more := at + [|whole|];
    forall i | 0 <= i < |whole + [x]| ensures i in more <==> p((whole + [x])[i]) {
      assert i in more <==> i in at || i == |whole|;
    }
  }

  lemma PicksNext<T(!new)>(whole: seq<T>, part: seq<T>, p: T -> bool, x: T)
    requires Picks(whole, part, p)
    ensures Picks(whole + [x], if p(x) then part + [x] else part, p)
  {
    hide PicksAt;
    var at: seq<int> :| PicksAt(whole, part, at, p);
    if p(x) {
      PicksMore(whole, part, at, p, x);
    } else {
      PicksSkip(whole, part, at, p, x);
    }
  }

  /** Everything picked is to be picked. */
  lemma AllPicked<T(!new)>(whole: seq<T>, part: seq<T>, p: T -> bool)
    requires Picks(whole, part, p)
    ensures forall k :: 0 <= k < |part| ==> p(part[k])
  {
    var at: seq<int> :| PicksAt(whole, part, at, p);
    forall k | 0 <= k < |part| ensures p(part[k]) {
      assert at[k] in at;
    }
  }
}
