/**
 Finding where two chains fork, by walking back from their tips through the
 blocks a node knows, and listing the blocks of a side chain.
 */
module ChainAncestor {
  import opened Bytes
  import opened Common
  import opened Wrappers

  const ZERO_HASH: Hash := 0
  const MAX_ANCESTOR_CHAIN_LENGTH: nat := 8192

  /** A block header; confirmations is -1 for a block that is not on the main chain. */
  datatype Header = Header(prev: Hash, height: nat, confirmations: int)

  /** The blocks that the node can be asked for. */
  type Blocks = map<Hash, Header>

  /** A parent is known unless it is the zero hash, and is one lower. */
  ghost predicate Tree(blocks: Blocks) {
    && ZERO_HASH !in blocks
    && forall h :: h in blocks && blocks[h].prev != ZERO_HASH ==>
         blocks[h].prev in blocks && blocks[blocks[h].prev].height + 1 == blocks[h].height
  }

  /** The block n steps back from h. */
  function Up(blocks: Blocks, h: Hash, n: nat): Option<Hash>
    decreases n
  {
    if n == 0 then Some(h)
    else if h !in blocks then None
    else Up(blocks, blocks[h].prev, n - 1)
  }

  lemma {:induction false} UpSum(blocks: Blocks, h: Hash, m: nat, n: nat)
    requires Up(blocks, h, m).Some?
    ensures Up(blocks, h, m + n) == Up(blocks, Up(blocks, h, m).value, n)
    decreases m
  {
    if m > 0 {
      UpSum(blocks, blocks[h].prev, m - 1, n);
    }
  }

  /** Anything short of an existing ancestor exists too, and is a known block. */
  lemma {:induction false} UpKnown(blocks: Blocks, h: Hash, m: nat, n: nat)
    requires m < n && Up(blocks, h, n).Some?
    ensures Up(blocks, h, m).Some? && Up(blocks, h, m).value in blocks
    decreases m
  {
    if m > 0 {
      UpKnown(blocks, blocks[h].prev, m - 1, n - 1);
    }
  }

  lemma {:induction false} UpHeight(blocks: Blocks, h: Hash, n: nat)
    requires Tree(blocks) && h in blocks && Up(blocks, h, n).Some? && Up(blocks, h, n).value in blocks
    ensures blocks[h].height == blocks[Up(blocks, h, n).value].height + n
    decreases n
  {
    if n > 0 && blocks[h].prev != ZERO_HASH {
      UpHeight(blocks, blocks[h].prev, n - 1);
    }
  }

  /**
   `chain` lists the blocks from the child of `base` up to `tip`; an empty
   chain means that nothing has been walked yet.
   */
  ghost predicate Linked(blocks: Blocks, base: Hash, chain: seq<Hash>, tip: Hash) {
    if chain == [] then base == tip
    else
      && chain[|chain| - 1] == tip
      && (forall i :: 0 <= i < |chain| ==> chain[i] in blocks && blocks[chain[i]].prev == Below(base, chain, i))
  }

  function Below(base: Hash, chain: seq<Hash>, i: nat): Hash
    requires i < |chain|
  {
    if i == 0 then base else chain[i - 1]
  }

  lemma LinkedPush(blocks: Blocks, base: Hash, chain: seq<Hash>, tip: Hash)
    requires Linked(blocks, base, chain, tip) && base in blocks
    ensures Linked(blocks, blocks[base].prev, [base] + chain, tip)
  {
    var longer := [base] + chain;
    forall i | 0 <= i < |longer|
      ensures longer[i] in blocks && blocks[longer[i]].prev == Below(blocks[base].prev, longer, i)
    {
      if i > 0 {
        assert longer[i] == chain[i - 1];
      }
    }
  }

  /** A linked chain is the walk back from its tip. */
  lemma {:induction false} LinkedUp(blocks: Blocks, base: Hash, chain: seq<Hash>, tip: Hash, n: nat)
    requires Linked(blocks, base, chain, tip) && n <= |chain|
    ensures Up(blocks, tip, n) == Some(if n == |chain| then base else chain[|chain| - 1 - n])
    decreases n
  {
    if n > 0 {
      LinkedUp(blocks, base, chain, tip, n - 1);
      UpSum(blocks, tip, n - 1, 1);
      var last := chain[|chain| - n];
      assert last in blocks && Up(blocks, last, 1) == Some(blocks[last].prev);
    }
  }

  lemma ParentBelow(blocks: Blocks, base: Hash, chain: seq<Hash>, tip: Hash, i: nat)
    requires Tree(blocks) && Linked(blocks, base, chain, tip) && 0 < i < |chain|
    ensures chain[i - 1] in blocks && chain[i] in blocks
    ensures blocks[chain[i]].height == blocks[chain[i - 1]].height + 1
  {
    assert blocks[chain[i]].prev == chain[i - 1];
    assert chain[i - 1] in blocks;
  }

  /** Heights rise by one along a linked chain. */
  lemma {:induction false} LinkedHeights(blocks: Blocks, base: Hash, chain: seq<Hash>, tip: Hash, i: nat)
    requires Tree(blocks) && Linked(blocks, base, chain, tip) && i < |chain|
    ensures blocks[chain[i]].height == blocks[chain[0]].height + i
    decreases i
  {
    hide Tree, Linked;
    if i > 0 {
      LinkedHeights(blocks, base, chain, tip, i - 1);
      ParentBelow(blocks, base, chain, tip, i);
    }
  }

  /** i steps back from a and j steps back from b lie on one block, strictly below both. */
  ghost predicate Meet(blocks: Blocks, a: Hash, i: nat, b: Hash, j: nat) {
    && 1 <= i && 1 <= j
    && Up(blocks, a, i).Some?
    && Up(blocks, a, i) == Up(blocks, b, j)
    && Up(blocks, a, i).value != ZERO_HASH
  }

  /** The walked chains have the same blocks nowhere, unless at the first level both reached. */
  ghost predicate Apart(chainA: seq<Hash>, chainB: seq<Hash>) {
    forall k :: 0 <= k && k + 1 < |chainA| && k + 1 < |chainB| ==> chainA[k] != chainB[k]
  }

  /** A meeting block is known, and its depth below each tip is the difference of heights. */
  lemma MeetHeight(blocks: Blocks, a: Hash, i: nat, b: Hash, j: nat)
    requires Tree(blocks) && Meet(blocks, a, i, b, j)
    ensures a in blocks && b in blocks
    ensures blocks[a].height as int - i == blocks[b].height as int - j
  {
    var c := Up(blocks, a, i).value;
    UpKnown(blocks, a, 0, i);
    UpKnown(blocks, b, 0, j);
    UpKnown(blocks, a, i - 1, i);
    UpSum(blocks, a, i - 1, 1);
    assert c in blocks;
    UpHeight(blocks, a, i);
    UpHeight(blocks, b, j);
  }

  /** Two linked chains over one base that stay apart meet no higher than the base. */
  lemma MeetBelow(blocks: Blocks, base: Hash, chainA: seq<Hash>, a: Hash, chainB: seq<Hash>, b: Hash, i: nat, j: nat)
    requires Tree(blocks) && chainA != [] && chainB != [] && base != ZERO_HASH
    requires Linked(blocks, base, chainA, a) && Linked(blocks, base, chainB, b)
    requires Apart(chainA, chainB) && Meet(blocks, a, i, b, j)
    ensures i >= |chainA| && j >= |chainB|
  {
    hide Tree, Linked;
    LinkedUp(blocks, base, chainA, a, |chainA|);
    LinkedUp(blocks, base, chainB, b, |chainB|);
    assert Meet(blocks, a, |chainA|, b, |chainB|);
    MeetHeight(blocks, a, |chainA|, b, |chainB|);
    MeetHeight(blocks, a, i, b, j);
    assert i - |chainA| == j - |chainB|;
    if i < |chainA| {
      LinkedUp(blocks, base, chainA, a, i);
      LinkedUp(blocks, base, chainB, b, j);
    }
  }

  /** Blocks that the two chains share are at one height, so in one position. */
  lemma SharedPosition(blocks: Blocks, base: Hash, chainA: seq<Hash>, a: Hash, chainB: seq<Hash>, b: Hash, k: nat, l: nat)
    requires Tree(blocks) && base != ZERO_HASH
    requires Linked(blocks, base, chainA, a) && Linked(blocks, base, chainB, b)
    requires k < |chainA| && l < |chainB| && chainA[k] == chainB[l]
    ensures k == l
  {
    LinkedHeights(blocks, base, chainA, a, k);
    LinkedHeights(blocks, base, chainB, b, l);
    assert blocks[chainA[0]].prev == base && blocks[chainB[0]].prev == base;
  }

  datatype Ancestry =
    | Found(ancestor: Hash, chainA: seq<Hash>, chainB: seq<Hash>)
    | AtGenesis(chainA: seq<Hash>, chainB: seq<Hash>)
    | TooLong
    | NoBlock

  /** What the loop of CommonAncestor has walked. */
  ghost predicate Walked(blocks: Blocks, a: Hash, b: Hash, hashA: Hash, chainA: seq<Hash>,
                         hashB: Hash, chainB: seq<Hash>, length: nat)
  {
    && Linked(blocks, hashA, chainA, a)
    && Linked(blocks, hashB, chainB, b)
    && length == Max(|chainA|, |chainB|)
    && (chainA != [] && chainB != [] ==>
          && hashA != hashB
          && blocks[chainA[0]].height == blocks[chainB[0]].height
          && forall k :: 0 <= k < |chainA| && k < |chainB| ==> chainA[k] != chainB[k])
    && (chainA != [] && chainB == [] ==> b in blocks && blocks[chainA[0]].height > blocks[b].height)
    && (chainB != [] && chainA == [] ==> a in blocks && blocks[chainB[0]].height > blocks[a].height)
  }

  /** Every meeting of the tips lies beyond what has been walked. */
  ghost predicate MeetAhead(blocks: Blocks, a: Hash, b: Hash, m: nat, n: nat) {
    forall i: nat, j: nat :: Meet(blocks, a, i, b, j) ==> m < i && n < j
  }

  /** Stepping back from the higher block alone passes no meeting. */
  lemma StepHigher(blocks: Blocks, a: Hash, b: Hash, hashA: Hash, chainA: seq<Hash>, hashB: Hash, chainB: seq<Hash>)
    requires Tree(blocks) && Linked(blocks, hashA, chainA, a) && Linked(blocks, hashB, chainB, b)
    requires hashA in blocks && hashB in blocks
    requires MeetAhead(blocks, a, b, |chainA|, |chainB|)
    ensures blocks[hashA].height > blocks[hashB].height ==> MeetAhead(blocks, a, b, |chainA| + 1, |chainB|)
    ensures blocks[hashA].height < blocks[hashB].height ==> MeetAhead(blocks, a, b, |chainA|, |chainB| + 1)
  {
    hide Tree, Linked, Meet;
    forall i: nat, j: nat | Meet(blocks, a, i, b, j)
      ensures blocks[hashA].height as int - (i - |chainA|) == blocks[hashB].height as int - (j - |chainB|)
    {
      RemainingHeight(blocks, a, hashA, chainA, b, hashB, chainB, i, j);
    }
  }

  /** How far the meeting still is, measured from the blocks reached. */
  lemma RemainingHeight(blocks: Blocks, a: Hash, hashA: Hash, chainA: seq<Hash>, b: Hash, hashB: Hash, chainB: seq<Hash>,
                        i: nat, j: nat)
    requires Tree(blocks) && Linked(blocks, hashA, chainA, a) && Linked(blocks, hashB, chainB, b)
    requires hashA in blocks && hashB in blocks
    requires Meet(blocks, a, i, b, j)
    ensures blocks[hashA].height as int - (i - |chainA|) == blocks[hashB].height as int - (j - |chainB|)
  {
    hide Tree, Linked, Meet;
    MeetHeight(blocks, a, i, b, j);
    LinkedUp(blocks, hashA, chainA, a, |chainA|);
    LinkedUp(blocks, hashB, chainB, b, |chainB|);
    UpHeight(blocks, a, |chainA|);
    UpHeight(blocks, b, |chainB|);
  }

  lemma NotZero(blocks: Blocks, h: Hash)
    requires Tree(blocks) && h in blocks
    ensures h != ZERO_HASH
  {
  }

  /** Stepping back from both blocks of one height either meets or passes no meeting. */
  lemma StepBoth(blocks: Blocks, a: Hash, b: Hash, hashA: Hash, chainA: seq<Hash>, hashB: Hash, chainB: seq<Hash>)
    requires Tree(blocks) && Linked(blocks, hashA, chainA, a) && Linked(blocks, hashB, chainB, b)
    requires hashA in blocks && hashB in blocks && blocks[hashA].height == blocks[hashB].height
    requires MeetAhead(blocks, a, b, |chainA|, |chainB|)
    ensures blocks[hashA].prev == blocks[hashB].prev || blocks[hashA].prev == ZERO_HASH ||
            MeetAhead(blocks, a, b, |chainA| + 1, |chainB| + 1)
    ensures blocks[hashA].prev == ZERO_HASH ==> forall i: nat, j: nat :: !Meet(blocks, a, i, b, j)
  {
    hide Tree, Linked;
    forall i: nat, j: nat | Meet(blocks, a, i, b, j)
      ensures blocks[hashA].prev != ZERO_HASH
      ensures blocks[hashA].prev == blocks[hashB].prev || (|chainA| + 1 < i && |chainB| + 1 < j)
    {
      RemainingHeight(blocks, a, hashA, chainA, b, hashB, chainB, i, j);
      LinkedUp(blocks, hashA, chainA, a, |chainA|);
      LinkedUp(blocks, hashB, chainB, b, |chainB|);
      UpSum(blocks, a, |chainA|, i - |chainA|);
      UpSum(blocks, b, |chainB|, j - |chainB|);
      if i > |chainA| + 1 {
        UpKnown(blocks, hashA, 1, i - |chainA|);
        NotZero(blocks, blocks[hashA].prev);
      }
    }
  }

  /** If a block on the way is not known, the tips do not meet. */
  lemma MissingBlock(blocks: Blocks, a: Hash, b: Hash, hashA: Hash, chainA: seq<Hash>, hashB: Hash, chainB: seq<Hash>)
    requires Linked(blocks, hashA, chainA, a) && Linked(blocks, hashB, chainB, b)
    requires hashA !in blocks || hashB !in blocks
    requires MeetAhead(blocks, a, b, |chainA|, |chainB|)
    ensures forall i: nat, j: nat :: !Meet(blocks, a, i, b, j)
  {
    hide Linked;
    LinkedUp(blocks, hashA, chainA, a, |chainA|);
    LinkedUp(blocks, hashB, chainB, b, |chainB|);
    forall i: nat, j: nat ensures !Meet(blocks, a, i, b, j) {
      if Meet(blocks, a, i, b, j) {
        UpKnown(blocks, a, |chainA|, i);
        UpKnown(blocks, b, |chainB|, j);
      }
    }
  }

  lemma WalkedSymmetric(blocks: Blocks, a: Hash, b: Hash, hashA: Hash, chainA: seq<Hash>,
                        hashB: Hash, chainB: seq<Hash>, length: nat)
    requires Walked(blocks, a, b, hashA, chainA, hashB, chainB, length)
    ensures Walked(blocks, b, a, hashB, chainB, hashA, chainA, length)
  {
    hide Linked;
  }

  lemma WalkHigher(blocks: Blocks, a: Hash, b: Hash, hashA: Hash, chainA: seq<Hash>,
                   hashB: Hash, chainB: seq<Hash>, length: nat)
    requires Tree(blocks) && Walked(blocks, a, b, hashA, chainA, hashB, chainB, length)
    requires hashA in blocks && hashB in blocks && blocks[hashA].height > blocks[hashB].height
    ensures Walked(blocks, a, b, blocks[hashA].prev, [hashA] + chainA, hashB, chainB, length + 1)
  {
    LinkedPush(blocks, hashA, chainA, a);
  }

  lemma WalkBoth(blocks: Blocks, a: Hash, b: Hash, hashA: Hash, chainA: seq<Hash>,
                 hashB: Hash, chainB: seq<Hash>, length: nat)
    requires Walked(blocks, a, b, hashA, chainA, hashB, chainB, length)
    requires hashA in blocks && hashB in blocks && blocks[hashA].height == blocks[hashB].height
    requires blocks[hashA].prev != blocks[hashB].prev
    ensures Walked(blocks, a, b, blocks[hashA].prev, [hashA] + chainA, blocks[hashB].prev, [hashB] + chainB, length + 1)
  {
    LinkedPush(blocks, hashA, chainA, a);
    LinkedPush(blocks, hashB, chainB, b);
  }

  /** `base` is the highest common block below both tips, reached by the two chains. */
  ghost predicate Best(blocks: Blocks, a: Hash, b: Hash, base: Hash, chainA: seq<Hash>, chainB: seq<Hash>) {
    && chainA != [] && chainB != []
    && Linked(blocks, base, chainA, a)
    && Linked(blocks, base, chainB, b)
    && Meet(blocks, a, |chainA|, b, |chainB|)
    && (forall i: nat, j: nat :: Meet(blocks, a, i, b, j) ==> i >= |chainA| && j >= |chainB|)
    && (forall h :: h in chainA && h in chainB ==> h == chainA[0] == chainB[0] && (h == a || h == b))
  }

  lemma WalkMeets(blocks: Blocks, a: Hash, b: Hash, hashA: Hash, chainA: seq<Hash>,
                  hashB: Hash, chainB: seq<Hash>, length: nat)
    requires Tree(blocks) && Walked(blocks, a, b, hashA, chainA, hashB, chainB, length)
    requires hashA in blocks && hashB in blocks
    requires blocks[hashA].prev == blocks[hashB].prev != ZERO_HASH
    ensures Best(blocks, a, b, blocks[hashA].prev, [hashA] + chainA, [hashB] + chainB)
  {
    hide Tree, Linked, Best;
    var base, cA, cB := blocks[hashA].prev, [hashA] + chainA, [hashB] + chainB;
    LinkedPush(blocks, hashA, chainA, a);
    LinkedPush(blocks, hashB, chainB, b);
    assert Apart(cA, cB);
    ApartIsBest(blocks, base, cA, a, cB, b);
  }

  lemma ApartIsBest(blocks: Blocks, base: Hash, chainA: seq<Hash>, a: Hash, chainB: seq<Hash>, b: Hash)
    requires Tree(blocks) && chainA != [] && chainB != [] && base != ZERO_HASH
    requires Linked(blocks, base, chainA, a) && Linked(blocks, base, chainB, b)
    requires Apart(chainA, chainB)
    ensures Best(blocks, a, b, base, chainA, chainB)
  {
    hide Tree, Linked;
    LinkedUp(blocks, base, chainA, a, |chainA|);
    LinkedUp(blocks, base, chainB, b, |chainB|);
    forall i: nat, j: nat | Meet(blocks, a, i, b, j) ensures i >= |chainA| && j >= |chainB| {
      MeetBelow(blocks, base, chainA, a, chainB, b, i, j);
    }
    forall h | h in chainA && h in chainB ensures h == chainA[0] == chainB[0] && (h == a || h == b) {
      var k :| 0 <= k < |chainA| && chainA[k] == h;
      var l :| 0 <= l < |chainB| && chainB[l] == h;
      SharedPosition(blocks, base, chainA, a, chainB, b, k, l);
      SharedIsTip(blocks, base, chainA, a, chainB, b, k);
    }
  }

  lemma SharedIsTip(blocks: Blocks, base: Hash, chainA: seq<Hash>, a: Hash, chainB: seq<Hash>, b: Hash, k: nat)
    requires Linked(blocks, base, chainA, a) && Linked(blocks, base, chainB, b)
    requires Apart(chainA, chainB)
    requires k < |chainA| && k < |chainB| && chainA[k] == chainB[k]
    ensures k == 0 && (chainA[0] == a || chainA[0] == b)
  {
    assert Below(base, chainA, k) == Below(base, chainB, k);
  }

  /**
   CommonAncestor. It succeeds exactly when the tips have a common block strictly
   below both within the length limit. Then the result is the highest such block,
   and the chains are the walks from its children to the tips; they share no block,
   except a tip that lies on the other chain.
   */
  method CommonAncestor(blocks: Blocks, a: Hash, b: Hash) returns (r: Ancestry)
    requires Tree(blocks)
    ensures r.Found? <==> exists i: nat, j: nat :: Meet(blocks, a, i, b, j) && Max(i, j) <= MAX_ANCESTOR_CHAIN_LENGTH
    ensures r.Found? ==> Best(blocks, a, b, r.ancestor, r.chainA, r.chainB)
    ensures r.AtGenesis? ==> forall i: nat, j: nat :: !Meet(blocks, a, i, b, j)
  {
    hide Tree, Linked, Best, Meet;
    WalkStart(blocks, a, b);
    var length := 0;
    var hashA, hashB := a, b;
    var chainA: seq<Hash>, chainB: seq<Hash> := [], [];
    while true
      invariant Walked(blocks, a, b, hashA, chainA, hashB, chainB, length)
      invariant length <= MAX_ANCESTOR_CHAIN_LENGTH
      invariant MeetAhead(blocks, a, b, |chainA|, |chainB|)
      decreases MAX_ANCESTOR_CHAIN_LENGTH - length
    {
      if length >= MAX_ANCESTOR_CHAIN_LENGTH {
        return TooLong;
      }
      if hashA !in blocks || hashB !in blocks {
        MissingBlock(blocks, a, b, hashA, chainA, hashB, chainB);
        return NoBlock;
      }
      var heightA, heightB := blocks[hashA].height, blocks[hashB].height;
      if heightA > heightB {
        StepHigher(blocks, a, b, hashA, chainA, hashB, chainB);
        WalkHigher(blocks, a, b, hashA, chainA, hashB, chainB, length);
        chainA := [hashA] + chainA;
        length := length + 1;
        hashA := blocks[hashA].prev;
        continue;
      }
      if heightB > heightA {
        StepHigher(blocks, a, b, hashA, chainA, hashB, chainB);
        WalkedSymmetric(blocks, a, b, hashA, chainA, hashB, chainB, length);
        WalkHigher(blocks, b, a, hashB, chainB, hashA, chainA, length);
        chainB := [hashB] + chainB;
        length := length + 1;
        hashB := blocks[hashB].prev;
        WalkedSymmetric(blocks, b, a, hashB, chainB, hashA, chainA, length);
        continue;
      }
      StepBoth(blocks, a, b, hashA, chainA, hashB, chainB);
      if blocks[hashA].prev == ZERO_HASH {
        return AtGenesis([hashA] + chainA, [hashB] + chainB);
      }
      if blocks[hashA].prev == blocks[hashB].prev {
        WalkMeets(blocks, a, b, hashA, chainA, hashB, chainB, length);
      } else {
        WalkBoth(blocks, a, b, hashA, chainA, hashB, chainB, length);
      }
      chainA := [hashA] + chainA;
      chainB := [hashB] + chainB;
      length := length + 1;
      hashA := blocks[hashA].prev;
      hashB := blocks[hashB].prev;
      if hashA == hashB {
        break;
      }
    }
    BestMeets(blocks, a, b, hashA, chainA, chainB);
    return Found(hashA, chainA, chainB);
  }

  lemma WalkStart(blocks: Blocks, a: Hash, b: Hash)
    ensures Walked(blocks, a, b, a, [], b, [], 0) && MeetAhead(blocks, a, b, 0, 0)
  {
  }

  lemma BestMeets(blocks: Blocks, a: Hash, b: Hash, base: Hash, chainA: seq<Hash>, chainB: seq<Hash>)
    requires Best(blocks, a, b, base, chainA, chainB)
    ensures Meet(blocks, a, |chainA|, b, |chainB|)
  {
  }

  /** reverseStringSlice: swap in place from both ends towards the middle. */
  method ReverseSlice(s: array<Hash>)
    modifies s
    ensures s[..] == Reversed(old(s[..]))
  {
    var n := s.Length;
    var i := 0;
    while i <= n / 2 - 1
      invariant 0 <= i <= n / 2
      invariant forall k :: 0 <= k < i ==> s[k] == old(s[n - 1 - k]) && s[n - 1 - k] == old(s[k])
      invariant forall k :: i <= k < n - i ==> s[k] == old(s[k])
    {
      var j := n - 1 - i;
      s[i], s[j] := s[j], s[i];
      i := i + 1;
    }
  }

  predicate OnSideChain(blocks: Blocks, h: Hash) {
    h in blocks && blocks[h].confirmations == -1
  }

  predicate OnMainChain(blocks: Blocks, h: Hash) {
    h in blocks && blocks[h].confirmations != -1
  }

  /** The tip's side chain is n blocks long and then reaches the main chain. */
  ghost predicate ForksAt(blocks: Blocks, tip: Hash, n: nat) {
    && 1 <= n
    && (forall k: nat :: k < n ==> Up(blocks, tip, k).Some? && OnSideChain(blocks, Up(blocks, tip, k).value))
    && Up(blocks, tip, n).Some?
    && OnMainChain(blocks, Up(blocks, tip, n).value)
  }

  /** A walk of side chain blocks down to `base`. */
  ghost predicate SideWalk(blocks: Blocks, base: Hash, chain: seq<Hash>, tip: Hash) {
    Linked(blocks, base, chain, tip) && forall i :: 0 <= i < |chain| ==> OnSideChain(blocks, chain[i])
  }

  /** A walk that stops at a block off the side chain decides whether the tip forks, and where. */
  lemma SideWalkEnds(blocks: Blocks, base: Hash, chain: seq<Hash>, tip: Hash)
    requires SideWalk(blocks, base, chain, tip) && !OnSideChain(blocks, base)
    ensures forall n: nat :: ForksAt(blocks, tip, n) <==> n == |chain| && n >= 1 && OnMainChain(blocks, base)
  {
    forall k: nat | k <= |chain|
      ensures Up(blocks, tip, k) == Some(if k == |chain| then base else chain[|chain| - 1 - k])
    {
      LinkedUp(blocks, base, chain, tip, k);
    }
    forall n: nat ensures ForksAt(blocks, tip, n) <==> n == |chain| && n >= 1 && OnMainChain(blocks, base) {
      if n == |chain| && n >= 1 && OnMainChain(blocks, base) {
        forall k: nat | k < n ensures Up(blocks, tip, k).Some? && OnSideChain(blocks, Up(blocks, tip, k).value) {
          assert Up(blocks, tip, k) == Some(chain[|chain| - 1 - k]);
        }
      }
      if n < |chain| {
        assert OnSideChain(blocks, chain[|chain| - 1 - n]);
      } else if n > |chain| {
        assert Up(blocks, tip, |chain|) == Some(base);
      }
    }
  }

  lemma SideWalkPush(blocks: Blocks, base: Hash, chain: seq<Hash>, tip: Hash)
    requires SideWalk(blocks, base, chain, tip) && OnSideChain(blocks, base)
    ensures SideWalk(blocks, blocks[base].prev, [base] + chain, tip)
    ensures Reversed([base] + chain) == Reversed(chain) + [base]
  {
    LinkedPush(blocks, base, chain, tip);
  }

  function Depth(blocks: Blocks, h: Hash): nat {
    if h in blocks then blocks[h].height + 1 else 0
  }

  /**
   SideChainFull. It succeeds exactly when the tip is on a side chain that forks
   from a known main chain block, and returns the side chain, lowest block first.
   */
  method SideChainFull(blocks: Blocks, tip: Hash) returns (r: Result<seq<Hash>>)
    requires Tree(blocks)
    ensures r.Ok? <==> exists n: nat :: ForksAt(blocks, tip, n)
    ensures r.Ok? ==>
              && ForksAt(blocks, tip, |r.value|)
              && SideWalk(blocks, Up(blocks, tip, |r.value|).value, r.value, tip)
  {
    hide Linked, ForksAt, SideWalk;
    var sideChain: seq<Hash> := [];
    ghost var chain: seq<Hash> := [];
    var hash := tip;
    SideWalkStart(blocks, tip);
    while true
      invariant SideWalk(blocks, hash, chain, tip) && sideChain == Reversed(chain)
      decreases Depth(blocks, hash)
    {
      if hash !in blocks {
        SideWalkEnds(blocks, hash, chain, tip);
        return Err;
      }
      if blocks[hash].confirmations != -1 {
        SideWalkEnds(blocks, hash, chain, tip);
        if hash == tip {
          SideWalkTip(blocks, hash, chain, tip);
          return Err;
        }
        SideWalkTip(blocks, hash, chain, tip);
        break;
      }
      SideWalkPush(blocks, hash, chain, tip);
      sideChain := sideChain + [hash];
      chain := [hash] + chain;
      hash := blocks[hash].prev;
    }
    var s := new Hash[|sideChain|](i requires 0 <= i < |sideChain| => sideChain[i]);
    assert s[..] == sideChain;
    ReverseSlice(s);
    assert s[..] == chain;
    assert ForksAt(blocks, tip, |chain|);
    return Ok(s[..]);
  }

  lemma SideWalkStart(blocks: Blocks, tip: Hash)
    ensures SideWalk(blocks, tip, [], tip)
  {
  }

  /** The walk has left the tip exactly when it has recorded a block. */
  lemma SideWalkTip(blocks: Blocks, base: Hash, chain: seq<Hash>, tip: Hash)
    requires SideWalk(blocks, base, chain, tip) && OnMainChain(blocks, base)
    ensures base == tip <==> chain == []
    ensures Up(blocks, tip, |chain|) == Some(base)
  {
    LinkedUp(blocks, base, chain, tip, |chain|);
    if chain != [] {
      assert OnSideChain(blocks, chain[|chain| - 1]);
    }
  }
}
