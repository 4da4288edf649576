/**
 What each note does to the order book, in terms of the book's own maps: which
 orders are booked, which levels change, and when a note is accepted.
 */
module DexNotes {
  import opened DexBook
  import opened Widths
  import opened Wrappers

  /** The next number of a 64-bit counter. */
  predicate Follows(last: nat, n: nat) {
    n == if last == TWO_64 - 1 then 0 else last + 1
  }

  /** A rate as a signed 64-bit number. */
  function Signed(rate: nat): int {
    if rate < TWO_63 then rate else rate - TWO_64
  }

  /** The volume at one key, no level meaning none. */
  function VolumeAt(m: Levels, key: int): int {
    if key in m then m[key].volume else 0
  }

  /** What is left of a volume; less than an atom is nothing. */
  function Rest(volume: int): int { if volume < 1 then 0 else volume }

  /** One level has changed by an amount, and may be gone; the others are as they were. */
  ghost predicate LevelGrew(m: Levels, m': Levels, rate: nat, quantity: int) {
    && (forall k :: k != Signed(rate) ==> (k in m' <==> k in m) && (k in m ==> m'[k] == m[k]))
    && VolumeAt(m', Signed(rate)) == VolumeAt(m, Signed(rate)) + quantity
  }

  ghost predicate LevelShrank(m: Levels, m': Levels, rate: nat, quantity: int) {
    && (forall k :: k != Signed(rate) ==> (k in m' <==> k in m) && (k in m ==> m'[k] == m[k]))
    && VolumeAt(m', Signed(rate)) == Rest(VolumeAt(m, Signed(rate)) - quantity)
    && (Signed(rate) in m' ==> m'[Signed(rate)].volume >= 1)
  }

  /** Buy orders are in the bids, the others in the asks. */
  ghost predicate Grew(r: Replica, s: Replica, o: Order) {
    if o.side == Buy then s.asks == r.asks && LevelGrew(r.buys, s.buys, o.rate, o.quantity)
    else s.buys == r.buys && LevelGrew(r.asks, s.asks, o.rate, o.quantity)
  }

  ghost predicate Shrank(r: Replica, s: Replica, o: Order, quantity: int) {
    if o.side == Buy then s.asks == r.asks && LevelShrank(r.buys, s.buys, o.rate, quantity)
    else s.buys == r.buys && LevelShrank(r.asks, s.asks, o.rate, quantity)
  }

  ghost predicate SameBooks(r: Replica, s: Replica) {
    s.buys == r.buys && s.asks == r.asks && s.ords == r.ords
  }

  /** All orders but the one under an ID are as they were. */
  ghost predicate OthersStay(r: Replica, s: Replica, id: OrderId) {
    forall x :: x != id ==> (x in s.ords <==> x in r.ords) && (x in r.ords ==> s.ords[x] == r.ords[x])
  }

  /** Order i is listed under the ID, and none up to it is missing. */
  ghost predicate ListedAt(orders: seq<Option<Listed>>, i: int, id: OrderId) {
    0 <= i < |orders| && (forall j :: 0 <= j <= i ==> orders[j].Some?) && orders[i].value.id == id
  }

  ghost predicate IsListed(orders: seq<Option<Listed>>, id: OrderId) {
    exists i :: ListedAt(orders, i, id)
  }

  /** Order i is the last listed under its ID. */
  ghost predicate LastListed(orders: seq<Option<Listed>>, i: int) {
    && 0 <= i < |orders| && orders[i].Some? && ListedAt(orders, i, orders[i].value.id)
    && forall j :: i < j ==> !ListedAt(orders, j, orders[i].value.id)
  }

  /** The orders booked are those listed up to the first missing one; of several under one ID, the last. */
  ghost predicate BooksListed(ords: Booked, orders: seq<Option<Listed>>) {
    && (forall id :: id in ords <==> IsListed(orders, id))
    && (forall i :: LastListed(orders, i) ==>
          orders[i].value.id in ords && ords[orders[i].value.id] == orders[i].value.order)
  }

  ghost predicate SomeMissing(orders: seq<Option<Listed>>) {
    exists i :: 0 <= i < |orders| && orders[i].None?
  }

  /** Only the numbers change. */
  ghost predicate OnlyCounts(r: Replica, s: Replica, seqNo: nat, failures: nat) {
    SameBooks(r, s) && s.seqNo == seqNo && s.failures == failures
  }

  /** What the note makes of the book. */
  ghost predicate Does(r: Replica, note: Note, s: Replica) {
    match note
    case Snapshot(n, orders) =>
      s.seqNo == n && s.failures == r.failures + (if SomeMissing(orders) then 1 else 0) && BooksListed(s.ords, orders)
    case Book(n, id, o) =>
      if !Follows(r.seqNo, n) then OnlyCounts(r, s, r.seqNo, r.failures + 1)
      else
        && s.seqNo == n && s.failures == r.failures
        && id in s.ords && s.ords[id] == o && OthersStay(r, s, id) && Grew(r, s, o)
    case Unbook(n, id) =>
      if !Follows(r.seqNo, n) then OnlyCounts(r, s, r.seqNo, r.failures + 1)
      else if id == "" || id !in r.ords then OnlyCounts(r, s, n, r.failures + 1)
      else
        && s.seqNo == n && s.failures == r.failures
        && id !in s.ords && OthersStay(r, s, id) && Shrank(r, s, r.ords[id], r.ords[id].quantity)
    case Update(n, id, remaining) =>
      if !Follows(r.seqNo, n) then OnlyCounts(r, s, r.seqNo, r.failures + 1)
      else if id == "" || id !in r.ords then OnlyCounts(r, s, n, r.failures + 1)
      else
        var o := r.ords[id];
        && s.seqNo == n && s.failures == r.failures
        && id in s.ords && s.ords[id] == Order(o.side, o.rate, remaining) && OthersStay(r, s, id)
        && (remaining <= o.quantity < TWO_64 ==> Shrank(r, s, o, o.quantity - remaining))
        && (o.quantity < remaining < TWO_64 ==> Shrank(r, s, o, TWO_64 - (remaining - o.quantity)))
    case Epoch(n) =>
      if !Follows(r.seqNo, n) then OnlyCounts(r, s, r.seqNo, r.failures + 1)
      else OnlyCounts(r, s, n, r.failures)
    case Suspend(n, persist) =>
      if persist then s == r
      else
        && s.ords == map[] && s.buys == map[] && s.asks == map[]
        && s.seqNo == (if Follows(r.seqNo, n) then n else r.seqNo)
        && s.failures == r.failures + (if Follows(r.seqNo, n) then 0 else 1)
  }

  /** A note is in sequence if and only if its number is the next of the 64-bit counter. */
  lemma InSequenceIff(r: Replica, n: nat)
    requires r.seqNo < TWO_64
    ensures InSequence(r, n) <==> Follows(r.seqNo, n)
  {
  }

  // ----- snapshots

  lemma {:induction false} LoadKeepsOld(r: Replica, orders: seq<Option<Listed>>, id: OrderId)
    ensures id in r.ords ==> id in Load(r, orders).ords
    ensures !IsListed(orders, id) ==>
              && (id in Load(r, orders).ords <==> id in r.ords)
              && (id in r.ords ==> Load(r, orders).ords[id] == r.ords[id])
    decreases |orders|
  {
    if orders != [] && orders[0].Some? {
      var first := orders[0].value;
      LoadKeepsOld(BookOrder(r, first.id, first.order), orders[1..], id);
      assert ListedAt(orders, 0, first.id);
      ListedLater(orders, id);
    }
  }

  /** What is listed in the rest is listed, one place later. */
  lemma ListedLater(orders: seq<Option<Listed>>, id: OrderId)
    requires orders != [] && orders[0].Some?
    ensures forall i :: ListedAt(orders[1..], i, id) ==> ListedAt(orders, i + 1, id)
    ensures forall i :: i > 0 && ListedAt(orders, i, id) ==> ListedAt(orders[1..], i - 1, id)
    ensures IsListed(orders[1..], id) ==> IsListed(orders, id)
  {
    var rest := orders[1..];
    forall i | ListedAt(rest, i, id) ensures ListedAt(orders, i + 1, id) {
      forall j | 0 <= j <= i + 1 ensures orders[j].Some? {
        assert j > 0 ==> orders[j] == rest[j - 1];
      }
    }
    forall i | i > 0 && ListedAt(orders, i, id) ensures ListedAt(rest, i - 1, id) {
      assert forall j :: 0 <= j <= i - 1 ==> rest[j] == orders[j + 1];
    }
    if i :| ListedAt(rest, i, id) {
      assert ListedAt(orders, i + 1, id);
    }
  }

  lemma {:induction false} LoadBooks(r: Replica, orders: seq<Option<Listed>>, i: int)
    requires LastListed(orders, i)
    ensures var s := Load(r, orders);
            orders[i].value.id in s.ords && s.ords[orders[i].value.id] == orders[i].value.order
    decreases |orders|
  {
    var first, id := orders[0].value, orders[i].value.id;
    var next := BookOrder(r, first.id, first.order);
    ListedLater(orders, id);
    if i == 0 {
      assert !IsListed(orders[1..], id);
      LoadKeepsOld(next, orders[1..], id);
    } else {
      assert LastListed(orders[1..], i - 1);
      LoadBooks(next, orders[1..], i - 1);
    }
  }

  lemma {:induction false} LoadListed(r: Replica, orders: seq<Option<Listed>>, i: int, id: OrderId)
    requires ListedAt(orders, i, id)
    ensures id in Load(r, orders).ords
    decreases |orders|
  {
    var first := orders[0].value;
    var next := BookOrder(r, first.id, first.order);
    if i == 0 {
      LoadKeepsOld(next, orders[1..], id);
    } else {
      ListedLater(orders, id);
      LoadListed(next, orders[1..], i - 1, id);
    }
  }

  lemma {:induction false} LoadCounts(r: Replica, orders: seq<Option<Listed>>)
    ensures Load(r, orders).seqNo == r.seqNo
    ensures Load(r, orders).failures == r.failures + if SomeMissing(orders) then 1 else 0
    decreases |orders|
  {
    if orders != [] {
      var rest := orders[1..];
      if orders[0].Some? {
        LoadCounts(BookOrder(r, orders[0].value.id, orders[0].value.order), rest);
        if SomeMissing(orders) {
          var i :| 0 <= i < |orders| && orders[i].None?;
          assert rest[i - 1].None?;
        }
      } else {
        assert SomeMissing(orders);
      }
    }
  }

  /** A snapshot books exactly the orders it lists. */
  lemma SnapshotBooks(r: Replica, n: nat, orders: seq<Option<Listed>>)
    ensures Does(r, Snapshot(n, orders), Step(r, Snapshot(n, orders)))
  {
    hide Load, ListedAt, LastListed;
    var empty := Clear(r).(seqNo := n);
    LoadCounts(empty, orders);
    var ords := Load(empty, orders).ords;
    forall id ensures id in ords <==> IsListed(orders, id) {
      LoadKeepsOld(empty, orders, id);
      if i :| ListedAt(orders, i, id) {
        LoadListed(empty, orders, i, id);
      }
    }
    forall i | LastListed(orders, i)
      ensures 0 <= i < |orders| && orders[i].Some?
      ensures orders[i].value.id in ords && ords[orders[i].value.id] == orders[i].value.order
    {
      IsThere(orders, i);
      LoadBooks(empty, orders, i);
    }
  }

  lemma IsThere(orders: seq<Option<Listed>>, i: int)
    requires LastListed(orders, i)
    ensures 0 <= i < |orders| && orders[i].Some?
  {
  }

  // ----- every note

  lemma AddGrows(m: Levels, rate: nat, quantity: int)
    ensures LevelGrew(m, Add(m, rate, quantity), rate, quantity)
  {
  }

  lemma SubtractShrinks(m: Levels, rate: nat, quantity: int)
    ensures LevelShrank(m, Subtract(m, rate, quantity), rate, quantity)
  {
  }

  lemma BookDoes(r: Replica, n: nat, id: OrderId, o: Order)
    requires r.seqNo < TWO_64
    ensures Does(r, Book(n, id, o), Step(r, Book(n, id, o)))
  {
    hide Add, LevelGrew, InSequence, Follows;
    InSequenceIff(r, n);
    AddGrows(r.buys, o.rate, o.quantity);
    AddGrows(r.asks, o.rate, o.quantity);
  }

  lemma UnbookDoes(r: Replica, n: nat, id: OrderId)
    requires r.seqNo < TWO_64
    ensures Does(r, Unbook(n, id), Step(r, Unbook(n, id)))
  {
    hide Subtract, LevelShrank, InSequence, Follows;
    InSequenceIff(r, n);
    if id in r.ords {
      SubtractShrinks(r.buys, r.ords[id].rate, r.ords[id].quantity);
      SubtractShrinks(r.asks, r.ords[id].rate, r.ords[id].quantity);
    }
  }

  lemma UpdateDoes(r: Replica, n: nat, id: OrderId, remaining: nat)
    requires r.seqNo < TWO_64
    ensures Does(r, Update(n, id, remaining), Step(r, Update(n, id, remaining)))
  {
    hide Subtract, LevelShrank, InSequence, Follows;
    InSequenceIff(r, n);
    if id in r.ords && r.ords[id].quantity < TWO_64 && remaining < TWO_64 {
      var o := r.ords[id];
      WrapDifference(o.quantity, remaining);
      var diff := (o.quantity - remaining) % TWO_64;
      SubtractShrinks(r.buys, o.rate, diff);
      SubtractShrinks(r.asks, o.rate, diff);
    }
  }

  /** Every note does that, from an honest server or not. */
  lemma StepDoes(r: Replica, note: Note)
    requires r.seqNo < TWO_64
    ensures Does(r, note, Step(r, note))
  {
    hide Does, Step;
    match note
    case Snapshot(n, orders) => SnapshotBooks(r, n, orders);
    case Book(n, id, o) => BookDoes(r, n, id, o);
    case Unbook(n, id) => UnbookDoes(r, n, id);
    case Update(n, id, remaining) => UpdateDoes(r, n, id, remaining);
    case Epoch(_) => CountDoes(r, note);
    case Suspend(_, _) => CountDoes(r, note);
  }

  lemma CountDoes(r: Replica, note: Note)
    requires r.seqNo < TWO_64 && (note.Epoch? || note.Suspend?)
    ensures Does(r, note, Step(r, note))
  {
    InSequenceIff(r, note.seqNo);
  }

  // ----- runs

  ghost predicate AllFit(notes: seq<Note>) {
    forall i :: 0 <= i < |notes| ==> notes[i].seqNo < TWO_64
  }

  lemma StepFits(r: Replica, note: Note)
    requires r.seqNo < TWO_64 && note.seqNo < TWO_64
    ensures Step(r, note).seqNo < TWO_64
  {
    hide Step;
    StepDoes(r, note);
  }

  /** The note says nothing of the order under an ID. */
  predicate Leaves(note: Note, id: OrderId) {
    match note
    case Snapshot(_, _) => false
    case Book(_, x, _) => x != id
    case Unbook(_, x) => x != id
    case Update(_, x, _) => x != id
    case Epoch(_) => true
    case Suspend(_, persist) => persist
  }

  /** What is booked under an ID. */
  function Under(r: Replica, id: OrderId): Option<Order> {
    if id in r.ords then Some(r.ords[id]) else None
  }

  lemma LeftAlone(r: Replica, note: Note, id: OrderId)
    requires r.seqNo < TWO_64 && Leaves(note, id)
    ensures Under(Step(r, note), id) == Under(r, id)
  {
    hide Step;
    StepDoes(r, note);
  }

  /** Over a run of notes that say nothing of it, an order stays as it is booked, or unbooked. */
  lemma {:induction false} LeftAloneOver(r: Replica, notes: seq<Note>, id: OrderId)
    requires r.seqNo < TWO_64 && AllFit(notes) && forall i :: 0 <= i < |notes| ==> Leaves(notes[i], id)
    ensures Under(After(r, notes), id) == Under(r, id)
    decreases |notes|
  {
    hide Step, Leaves;
    if notes != [] {
      StepFits(r, notes[0]);
      LeftAlone(r, notes[0], id);
      LeftAloneOver(Step(r, notes[0]), notes[1..], id);
    }
  }

  /** What an accepted note leaves booked under the ID it names. */
  function Says(was: Option<Order>, note: Note): Option<Order>
    requires note.Book? || note.Unbook? || note.Update?
  {
    match note
    case Book(_, _, o) => Some(o)
    case Unbook(_, id) => if id == "" then was else None
    case Update(_, id, remaining) =>
      if id == "" || was.None? then was else Some(Order(was.value.side, was.value.rate, remaining))
  }

  /**
   The last note in sequence that names an ID has the last word on it: after any
   further notes that do not, what is booked under the ID is what that note said.
   */
  lemma LastWord(r: Replica, note: Note, notes: seq<Note>)
    requires r.seqNo < TWO_64 && Follows(r.seqNo, note.seqNo) && note.seqNo < TWO_64
    requires note.Book? || note.Unbook? || note.Update?
    requires AllFit(notes) && forall i :: 0 <= i < |notes| ==> Leaves(notes[i], note.id)
    ensures Under(After(r, [note] + notes), note.id) == Says(Under(r, note.id), note)
  {
    hide Step;
    StepDoes(r, note);
    StepFits(r, note);
    var all := [note] + notes;
    assert all[0] == note && all[1..] == notes;
    LeftAloneOver(Step(r, note), notes, note.id);
  }

  /** The states of a run, each made of the one before as its note has it. */
  ghost predicate Trace(states: seq<Replica>, notes: seq<Note>) {
    |states| == |notes| + 1 && forall i :: 0 <= i < |notes| ==> Does(states[i], notes[i], states[i + 1])
  }

  /** The same orders and counters. */
  ghost predicate Alike(r: Replica, s: Replica) {
    r.ords == s.ords && r.seqNo == s.seqNo && r.failures == s.failures
  }

  /** What a note does determines the orders and the counters. */
  lemma DoesOnce(r: Replica, q: Replica, note: Note, s: Replica, t: Replica)
    requires Alike(r, q) && Does(r, note, s) && Does(q, note, t)
    ensures Alike(s, t)
  {
    hide Grew, Shrank, BooksListed, Follows, SomeMissing;
    match note
    case Snapshot(_, orders) => SameListed(s.ords, t.ords, orders);
    case Book(_, _, _) =>
    case Unbook(_, _) =>
    case Update(_, _, _) =>
    case Epoch(_) =>
    case Suspend(_, _) =>
  }

  /** Whatever follows the notes so ends with the orders that the replica has. */
  lemma {:induction false} TraceEnds(r: Replica, states: seq<Replica>, notes: seq<Note>)
    requires Trace(states, notes) && Alike(r, states[0]) && r.seqNo < TWO_64 && AllFit(notes)
    ensures Alike(After(r, notes), states[|notes|])
    decreases |notes|
  {
    hide Step, Does, Alike;
    if notes != [] {
      StepDoes(r, notes[0]);
      StepFits(r, notes[0]);
      assert Does(states[0], notes[0], states[0 + 1]);
      DoesOnce(r, states[0], notes[0], Step(r, notes[0]), states[1]);
      var rest := notes[1..];
      forall i | 0 <= i < |rest| ensures Does(states[1..][i], rest[i], states[1..][i + 1]) {
        assert Does(states[i + 1], notes[i + 1], states[(i + 1) + 1]);
      }
      TraceEnds(Step(r, notes[0]), states[1..], rest);
    }
  }

  lemma SameListed(ords: Booked, other: Booked, orders: seq<Option<Listed>>)
    requires BooksListed(ords, orders) && BooksListed(other, orders)
    ensures ords == other
  {
    hide ListedAt;
    forall id | id in ords ensures id in other && ords[id] == other[id] {
      var i := LastOf(orders, id);
      assert LastListed(orders, i);
    }
    assert forall id :: id in other ==> id in ords;
  }

  lemma {:induction false} LastOf(orders: seq<Option<Listed>>, id: OrderId) returns (i: int)
    requires IsListed(orders, id)
    ensures ListedAt(orders, i, id) && LastListed(orders, i)
  {
    i :| ListedAt(orders, i, id);
    while !LastListed(orders, i)
      invariant ListedAt(orders, i, id)
      decreases |orders| - i
    {
      var j :| i < j && ListedAt(orders, j, id);
      i := j;
    }
  }

  /** The messages of a connection, one after the other. */
  method ProcessAll(dex: DecredDEX, notes: seq<Note>) returns (ghost states: seq<Replica>)
    requires dex.seqNo < TWO_64 && AllFit(notes)
    modifies dex
    ensures dex.View() == After(old(dex.View()), notes)
    ensures Trace(states, notes) && states[0] == old(dex.View()) && states[|notes|] == dex.View()
    ensures old(Accurate(dex.View())) && HonestRun(old(dex.View()), notes) ==> Accurate(dex.View())
  {
    hide Step, Does, Accurate, HonestRun;
    states := [dex.View()];
    for n := 0 to |notes|
      invariant |states| == n + 1 && states[0] == old(dex.View()) && states[n] == dex.View() && dex.seqNo < TWO_64
      invariant forall i :: 0 <= i < n ==> Does(states[i], notes[i], states[i + 1])
      invariant After(dex.View(), notes[n..]) == After(old(dex.View()), notes)
    {
      assert notes[n..][0] == notes[n] && notes[n..][1..] == notes[n + 1..];
      StepDoes(dex.View(), notes[n]);
      StepFits(dex.View(), notes[n]);
      dex.Process(notes[n]);
      states := states + [dex.View()];
    }
    if Accurate(old(dex.View())) && HonestRun(old(dex.View()), notes) {
      RunKeeps(old(dex.View()), notes);
    }
  }
}
