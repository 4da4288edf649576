/**
 The replica of a DEX order book kept from a snapshot and a numbered stream of
 notes. Volumes are whole atoms here, so the test against 1e-8 coins asks whether
 less than one atom is left.
 */
module DexBook {
  import opened Common
  import opened Wrappers
  import opened Widths

  type OrderId = string

  datatype Side = Buy | Sell

  /** A booked order; Quantity is what remains of it. */
  datatype Order = Order(side: Side, rate: nat, quantity: nat)

  predicate InRange(o: Order) {
    o.rate < TWO_64 && o.quantity < TWO_64
  }

  /** int64(ord.Rate) */
  function RateKey(rate: nat): int {
    if rate < TWO_63 then rate else rate - TWO_64
  }

  /** One price level. */
  datatype Bucket = Bucket(rate: nat, volume: int)

  type Levels = map<int, Bucket>

  type Booked = map<OrderId, Order>

  datatype Replica = Replica(buys: Levels, asks: Levels, ords: Booked, seqNo: nat, failures: nat)

  function Volume(m: Levels, key: int): int {
    if key in m then m[key].volume else 0
  }

  function Level(m: Levels, rate: nat): Bucket {
    if RateKey(rate) in m then m[RateKey(rate)] else Bucket(rate, 0)
  }

  /** Add a quantity to the level of a rate, making the level if need be. */
  function Add(m: Levels, rate: nat, quantity: int): Levels {
    var b := Level(m, rate);
    m[RateKey(rate) := b.(volume := b.volume + quantity)]
  }

  /** Subtract a quantity from the level of a rate, and drop the level if less than an atom is left. */
  function Subtract(m: Levels, rate: nat, quantity: int): Levels {
    var b := Level(m, rate);
    if b.volume - quantity < 1 then m - {RateKey(rate)}
    else m[RateKey(rate) := b.(volume := b.volume - quantity)]
  }

  function SideOf(r: Replica, side: Side): Levels {
    if side.Buy? then r.buys else r.asks
  }

  function WithSide(r: Replica, side: Side, m: Levels): Replica {
    if side.Buy? then r.(buys := m) else r.(asks := m)
  }

  // ----- what the levels should say

  function Share(o: Order, side: Side, key: int): nat {
    if o.side == side && RateKey(o.rate) == key then o.quantity else 0
  }

  /** The remaining quantity of all the booked orders on one side at one rate. */
  ghost function Total(ords: Booked, side: Side, key: int): nat {
    if ords == map[] then 0
    else
      var id :| id in ords;
      Share(ords[id], side, key) + Total(ords - {id}, side, key)
  }

  lemma {:induction false} TotalTakesOut(ords: Booked, id: OrderId, side: Side, key: int)
    requires id in ords
    ensures Total(ords, side, key) == Share(ords[id], side, key) + Total(ords - {id}, side, key)
    decreases |ords|
  {
    var j :| j in ords && Total(ords, side, key) == Share(ords[j], side, key) + Total(ords - {j}, side, key);
    if j != id {
      TotalTakesOut(ords - {j}, id, side, key);
      TotalTakesOut(ords - {id}, j, side, key);
      assert ords - {j} - {id} == ords - {id} - {j};
    }
  }

  /** What one entry was worth before and is worth after being set. */
  lemma TotalSets(ords: Booked, id: OrderId, o: Order, side: Side, key: int)
    ensures Total(ords[id := o], side, key)
            == Total(ords, side, key) - (if id in ords then Share(ords[id], side, key) else 0) + Share(o, side, key)
  {
    var set1 := ords[id := o];
    TotalTakesOut(set1, id, side, key);
    assert set1 - {id} == ords - {id};
    if id in ords {
      TotalTakesOut(ords, id, side, key);
    } else {
      assert ords - {id} == ords;
    }
  }

  /** The volume at one rate of one side is the total of the orders booked there. */
  ghost predicate Right(r: Replica, side: Side, key: int) {
    Volume(SideOf(r, side), key) == Total(r.ords, side, key)
  }

  /** Each level sits at the key of its rate. */
  ghost predicate Keyed(m: Levels) {
    forall key :: key in m ==> m[key].rate < TWO_64 && RateKey(m[key].rate) == key
  }

  /** Every level's volume is the total of the orders booked there; an absent level means zero. */
  ghost predicate Accurate(r: Replica) {
    && (forall side: Side, key: int :: Right(r, side, key))
    && Keyed(r.buys) && Keyed(r.asks)
    && (forall id :: id in r.ords ==> InRange(r.ords[id]))
  }

  /** bookOrder */
  function BookOrder(r: Replica, id: OrderId, o: Order): Replica {
    WithSide(r, o.side, Add(SideOf(r, o.side), o.rate, o.quantity)).(ords := r.ords[id := o])
  }

  /** unbookOrder */
  function UnbookOrder(r: Replica, id: OrderId): Replica {
    if id == "" || id !in r.ords then r.(failures := r.failures + 1)
    else
      var o := r.ords[id];
      WithSide(r, o.side, Subtract(SideOf(r, o.side), o.rate, o.quantity)).(ords := r.ords - {id})
  }

  /** updateRemaining; the difference is taken in uint64 arithmetic. */
  function UpdateRemaining(r: Replica, id: OrderId, remaining: nat): Replica {
    if id == "" || id !in r.ords then r.(failures := r.failures + 1)
    else
      var o := r.ords[id];
      var diff := (o.quantity - remaining) % TWO_64;
      WithSide(r, o.side, Subtract(SideOf(r, o.side), o.rate, diff)).(ords := r.ords[id := o.(quantity := remaining)])
  }

  lemma ChangesKeepKeys(m: Levels, rate: nat, quantity: int)
    requires Keyed(m) && rate < TWO_64
    ensures Keyed(Add(m, rate, quantity)) && Keyed(Subtract(m, rate, quantity))
  {
  }

  lemma AddVolume(m: Levels, rate: nat, quantity: int, key: int)
    ensures Volume(Add(m, rate, quantity), key) == Volume(m, key) + (if key == RateKey(rate) then quantity else 0)
  {
  }

  lemma SubtractVolume(m: Levels, rate: nat, quantity: int, key: int)
    ensures var left := Volume(m, RateKey(rate)) - quantity;
            Volume(Subtract(m, rate, quantity), key)
            == if key != RateKey(rate) then Volume(m, key) else if left < 1 then 0 else left
  {
  }

  /** Booking keeps the volumes accurate exactly when the ID is new, or its old order had nothing left. */
  lemma BookKeepsIff(r: Replica, id: OrderId, o: Order)
    requires Accurate(r) && InRange(o)
    ensures Accurate(BookOrder(r, id, o)) <==> id !in r.ords || r.ords[id].quantity == 0
  {
    hide Total, Add, Volume, Keyed;
    var r' := BookOrder(r, id, o);
    ChangesKeepKeys(SideOf(r, o.side), o.rate, o.quantity);
    forall side: Side, key: int
      ensures Right(r', side, key) <==> id !in r.ords || Share(r.ords[id], side, key) == 0
    {
      assert Right(r, side, key);
      TotalSets(r.ords, id, o, side, key);
      AddVolume(SideOf(r, o.side), o.rate, o.quantity, key);
    }
    if id in r.ords && r.ords[id].quantity != 0 {
      var was := r.ords[id];
      assert !Right(r', was.side, RateKey(was.rate));
    }
  }

  /** Unbooking always keeps the volumes accurate, also for an order already reduced to zero. */
  lemma UnbookKeeps(r: Replica, id: OrderId)
    requires Accurate(r)
    ensures Accurate(UnbookOrder(r, id))
  {
    hide Total, Subtract, Volume, Keyed;
    var r' := UnbookOrder(r, id);
    if id != "" && id in r.ords {
      var o := r.ords[id];
      ChangesKeepKeys(SideOf(r, o.side), o.rate, o.quantity);
      forall side: Side, key: int
        ensures Right(r', side, key)
      {
        assert Right(r, side, key);
        TotalTakesOut(r.ords, id, side, key);
        SubtractVolume(SideOf(r, o.side), o.rate, o.quantity, key);
      }
    } else {
      assert forall side: Side, key: int :: Right(r, side, key) ==> Right(r', side, key);
    }
  }

  /** Updating a booked order keeps the volumes accurate exactly when its remaining quantity does not grow. */
  lemma UpdateKeepsIff(r: Replica, id: OrderId, remaining: nat)
    requires Accurate(r) && remaining < TWO_64 && id != "" && id in r.ords
    ensures Accurate(UpdateRemaining(r, id, remaining)) <==> remaining <= r.ords[id].quantity
  {
    hide Total, Subtract, Volume, Keyed, RateKey;
    var o := r.ords[id];
    var r' := UpdateRemaining(r, id, remaining);
    var home := RateKey(o.rate);
    var diff := (o.quantity - remaining) % TWO_64;
    WrapDifference(o.quantity, remaining);
    ChangesKeepKeys(SideOf(r, o.side), o.rate, diff);
    forall side: Side, key: int
      ensures Right(r', side, key) <==> remaining <= o.quantity || side != o.side || key != home
    {
      assert Right(r, side, key);
      TotalSets(r.ords, id, o.(quantity := remaining), side, key);
      TotalTakesOut(r.ords, id, side, key);
      SubtractVolume(SideOf(r, o.side), o.rate, diff, key);
    }
    if remaining > o.quantity {
      assert !Right(r', o.side, home);
    }
  }

  lemma WrapDifference(a: nat, b: nat)
    requires a < TWO_64 && b < TWO_64
    ensures (a - b) % TWO_64 == if b <= a then a - b else a - b + TWO_64
  {
  }

  /** An ID booked twice, or an update that adds a single atom, makes the volumes of any book wrong. */
  lemma DishonestFails(r: Replica, id: OrderId, o: Order)
    requires Accurate(r) && id != "" && id !in r.ords && InRange(o) && 0 < o.quantity && o.quantity + 1 < TWO_64
    ensures var once := BookOrder(r, id, o);
            Accurate(once) && !Accurate(BookOrder(once, id, o)) && !Accurate(UpdateRemaining(once, id, o.quantity + 1))
  {
    hide Accurate;
    BookKeepsIff(r, id, o);
    BookKeepsIff(BookOrder(r, id, o), id, o);
    UpdateKeepsIff(BookOrder(r, id, o), id, o.quantity + 1);
  }

  // ----- the stream of notes

  datatype Listed = Listed(id: OrderId, order: Order)

  /** The messages that change the book: the subscription's answer, and the notes. */
  datatype Note =
    | Snapshot(seqNo: nat, orders: seq<Option<Listed>>)
    | Book(seqNo: nat, id: OrderId, order: Order)
    | Unbook(seqNo: nat, id: OrderId)
    | Update(seqNo: nat, id: OrderId, remaining: nat)
    | Epoch(seqNo: nat)
    | Suspend(seqNo: nat, persist: bool)

  predicate InSequence(r: Replica, seqNo: nat) {
    seqNo == (r.seqNo + 1) % TWO_64
  }

  /** checkSeq */
  function CheckSeq(r: Replica, seqNo: nat): Replica {
    if InSequence(r, seqNo) then r.(seqNo := seqNo) else r.(failures := r.failures + 1)
  }

  /** clearOrderBook */
  function Clear(r: Replica): Replica {
    r.(buys := map[], asks := map[], ords := map[])
  }

  /** The loop of setOrderBook, which stops at a nil order. */
  function Load(r: Replica, orders: seq<Option<Listed>>): Replica
    decreases |orders|
  {
    if orders == [] then r
    else if orders[0].None? then r.(failures := r.failures + 1)
    else Load(BookOrder(r, orders[0].value.id, orders[0].value.order), orders[1..])
  }

  function Step(r: Replica, note: Note): Replica {
    match note
    case Snapshot(n, orders) => Load(Clear(r).(seqNo := n), orders)
    case Book(n, id, o) =>
      if InSequence(r, n) then BookOrder(CheckSeq(r, n), id, o) else CheckSeq(r, n)
    case Unbook(n, id) =>
      if InSequence(r, n) then UnbookOrder(CheckSeq(r, n), id) else CheckSeq(r, n)
    case Update(n, id, remaining) =>
      if InSequence(r, n) then UpdateRemaining(CheckSeq(r, n), id, remaining) else CheckSeq(r, n)
    case Epoch(n) => CheckSeq(r, n)
    case Suspend(n, persist) => if persist then r else Clear(CheckSeq(r, n))
  }

  /** A booked ID is new, or what was booked under it has nothing left. */
  predicate Bookable(r: Replica, id: OrderId, o: Order) {
    InRange(o) && (id !in r.ords || r.ords[id].quantity == 0)
  }

  predicate AllBookable(r: Replica, orders: seq<Option<Listed>>)
    decreases |orders|
  {
    orders == [] || orders[0].None? ||
    (Bookable(r, orders[0].value.id, orders[0].value.order) &&
     AllBookable(BookOrder(r, orders[0].value.id, orders[0].value.order), orders[1..]))
  }

  /** What the server owes: unused IDs, and remaining quantities that never grow. */
  predicate Honest(r: Replica, note: Note) {
    match note
    case Snapshot(n, orders) => AllBookable(Clear(r).(seqNo := n), orders)
    case Book(n, id, o) => InSequence(r, n) ==> Bookable(r, id, o)
    case Unbook(_, _) => true
    case Update(n, id, remaining) =>
      InSequence(r, n) && id != "" && id in r.ords ==> remaining <= r.ords[id].quantity
    case Epoch(_) => true
    case Suspend(_, _) => true
  }

  function After(r: Replica, notes: seq<Note>): Replica
    decreases |notes|
  {
    if notes == [] then r else After(Step(r, notes[0]), notes[1..])
  }

  predicate HonestRun(r: Replica, notes: seq<Note>)
    decreases |notes|
  {
    notes == [] || (Honest(r, notes[0]) && HonestRun(Step(r, notes[0]), notes[1..]))
  }

  /** Accuracy is about the levels and the orders only. */
  lemma SameBook(r: Replica, s: Replica)
    requires r.buys == s.buys && r.asks == s.asks && r.ords == s.ords
    ensures Accurate(r) <==> Accurate(s)
  {
    hide Total, Volume, Keyed;
    assert forall side: Side, key: int :: Right(r, side, key) <==> Right(s, side, key);
    if Accurate(s) {
      forall side: Side, key: int ensures Right(r, side, key) {
        assert Right(s, side, key);
      }
    }
    if Accurate(r) {
      forall side: Side, key: int ensures Right(s, side, key) {
        assert Right(r, side, key);
      }
    }
  }

  lemma ClearAccurate(r: Replica)
    ensures Accurate(Clear(r))
  {
  }

  lemma {:induction false} LoadKeeps(r: Replica, orders: seq<Option<Listed>>)
    requires Accurate(r) && AllBookable(r, orders)
    ensures Accurate(Load(r, orders))
    decreases |orders|
  {
    hide Accurate;
    if orders != [] {
      if orders[0].None? {
        SameBook(r, Load(r, orders));
      } else {
        BookKeepsIff(r, orders[0].value.id, orders[0].value.order);
        LoadKeeps(BookOrder(r, orders[0].value.id, orders[0].value.order), orders[1..]);
      }
    }
  }

  lemma StepKeeps(r: Replica, note: Note)
    requires Accurate(r) && Honest(r, note)
    ensures Accurate(Step(r, note))
  {
    hide Accurate, UnbookOrder, UpdateRemaining, BookOrder;
    var c := CheckSeq(r, note.seqNo);
    SameBook(r, c);
    match note
    case Snapshot(n, orders) =>
      ClearAccurate(r.(seqNo := n));
      LoadKeeps(Clear(r).(seqNo := n), orders);
    case Book(n, id, o) =>
      if InSequence(r, n) {
        BookKeepsIff(c, id, o);
      }
    case Unbook(n, id) =>
      if InSequence(r, n) {
        UnbookKeeps(c, id);
      }
    case Update(n, id, remaining) =>
      if InSequence(r, n) {
        UpdateKeeps(c, id, remaining);
      }
    case Epoch(_) =>
    case Suspend(_, persist) =>
      ClearAccurate(c);
  }

  lemma UpdateKeeps(r: Replica, id: OrderId, remaining: nat)
    requires Accurate(r) && (id != "" && id in r.ords ==> remaining <= r.ords[id].quantity)
    ensures Accurate(UpdateRemaining(r, id, remaining))
  {
    if id != "" && id in r.ords {
      assert InRange(r.ords[id]);
      UpdateKeepsIff(r, id, remaining);
    } else {
      SameBook(r, UpdateRemaining(r, id, remaining));
    }
  }

  /**
   After any run of notes from an honest server, in sequence or not, each side's
   volume at each rate is the remaining quantity of the orders booked there.
   */
  lemma {:induction false} RunKeeps(r: Replica, notes: seq<Note>)
    requires Accurate(r) && HonestRun(r, notes)
    ensures Accurate(After(r, notes))
    decreases |notes|
  {
    hide Accurate, Step, Honest;
    if notes != [] {
      StepKeeps(r, notes[0]);
      RunKeeps(Step(r, notes[0]), notes[1..]);
    }
  }

  /** Whatever the replica held before, an honest snapshot makes it accurate. */
  lemma SnapshotAccurate(r: Replica, n: nat, orders: seq<Option<Listed>>, notes: seq<Note>)
    requires HonestRun(r, [Snapshot(n, orders)] + notes)
    ensures Accurate(After(r, [Snapshot(n, orders)] + notes))
  {
    hide Accurate;
    var all := [Snapshot(n, orders)] + notes;
    assert all[1..] == notes;
    ClearAccurate(r.(seqNo := n));
    LoadKeeps(Clear(r).(seqNo := n), orders);
    RunKeeps(Step(r, all[0]), notes);
  }

  // ----- the depth snapshot

  datatype DepthPoint = DepthPoint(price: nat, quantity: int)

  ghost predicate Ascending(keys: seq<int>) {
    forall i, j :: 0 <= i < j < |keys| ==> keys[i] < keys[j]
  }

  /** sort.Slice on the distinct keys of a map: there is only one ascending order. */
  method SortKeys(keys: set<int>) returns (sorted: seq<int>)
    ensures Ascending(sorted)
    ensures forall k :: k in sorted <==> k in keys
  {
    sorted := [];
    var left := keys;
    while left != {}
      invariant left <= keys
      invariant Ascending(sorted)
      invariant forall k :: k in sorted <==> k in keys - left
      invariant forall i, k :: 0 <= i < |sorted| && k in left ==> sorted[i] < k
      decreases left
    {
      ghost var _ := LeastExists(left);
      var least :| least in left && forall k :: k in left ==> least <= k;
      sorted := sorted + [least];
      left := left - {least};
    }
  }

  lemma EmptyIff(s: set<int>)
    ensures s == {} <==> forall k :: k !in s
  {
    if forall k :: k !in s {
      assert s == {};
    }
  }

  lemma {:induction false} LeastExists(s: set<int>) returns (least: int)
    requires s != {}
    ensures least in s && forall k :: k in s ==> least <= k
    decreases |s|
  {
    EmptyIff(s);
    least :| least in s;
    if s != {least} {
      assert s - {least} != {};
      var other := LeastExists(s - {least});
      assert forall k :: k in s ==> k == least || k in s - {least};
      least := if other < least then other else least;
    }
  }

  /** `points` lists the levels of m once each, in ascending order of key. */
  ghost predicate Lists(points: seq<DepthPoint>, m: Levels) {
    && (forall i :: 0 <= i < |points| ==>
          var k := RateKey(points[i].price); k in m && m[k] == Bucket(points[i].price, points[i].quantity))
    && (forall i, j :: 0 <= i < j < |points| ==> RateKey(points[i].price) < RateKey(points[j].price))
    && (forall k :: k in m ==> exists i :: 0 <= i < |points| && points[i] == DepthPoint(m[k].rate, m[k].volume))
  }

  method ListLevels(m: Levels) returns (points: seq<DepthPoint>)
    requires Keyed(m)
    ensures Lists(points, m)
  {
    var keys := SortKeys(m.Keys);
    points := [];
    for n := 0 to |keys|
      invariant |points| == n
      invariant forall i :: 0 <= i < n ==> keys[i] in m && points[i] == DepthPoint(m[keys[i]].rate, m[keys[i]].volume)
    {
      assert keys[n] in keys;
      var pt := m[keys[n]];
      points := points + [DepthPoint(pt.rate, pt.volume)];
    }
    forall k | k in m ensures exists i :: 0 <= i < |points| && points[i] == DepthPoint(m[k].rate, m[k].volume) {
      assert k in keys;
      var i :| 0 <= i < |keys| && keys[i] == k;
      assert points[i] == DepthPoint(m[k].rate, m[k].volume);
    }
  }

  /**
   The levels are ordered by the signed key. The prices themselves ascend exactly
   when the rates are all below 2^63 or all at least that.
   */
  lemma PricesAscendIff(rates: seq<nat>)
    requires forall i :: 0 <= i < |rates| ==> rates[i] < TWO_64
    requires forall i, j :: 0 <= i < j < |rates| ==> RateKey(rates[i]) < RateKey(rates[j])
    ensures (forall i, j :: 0 <= i < j < |rates| ==> rates[i] < rates[j])
       <==> (forall i, j :: 0 <= i < |rates| && 0 <= j < |rates| ==> (rates[i] < TWO_63 <==> rates[j] < TWO_63))
  {
    if i, j :| 0 <= i < |rates| && 0 <= j < |rates| && rates[i] >= TWO_63 && rates[j] < TWO_63 {
      assert RateKey(rates[i]) < RateKey(rates[j]);
      assert i < j && rates[i] >= rates[j];
    }
  }

  /** The order book fields of DecredDEX. Every method runs with orderMtx locked. */
  class DecredDEX {
    var buys: Levels
    var asks: Levels
    var ords: Booked
    var seqNo: nat
    var failures: nat

    function View(): Replica
      reads this
    {
      Replica(buys, asks, ords, seqNo, failures)
    }

    method CheckSeqNo(n: nat) returns (ok: bool)
      modifies this`seqNo, this`failures
      ensures View() == CheckSeq(old(View()), n) && ok == InSequence(old(View()), n)
    {
      if n != (seqNo + 1) % TWO_64 {
        failures := failures + 1;
        return false;
      }
      seqNo := n;
      return true;
    }

    /** Add to a level of one side, as bookOrder and addToSide do, and record the order. */
    method AddOrder(id: OrderId, o: Order)
      modifies this`buys, this`asks, this`ords
      ensures View() == BookOrder(old(View()), id, o)
    {
      var key := RateKey(o.rate);
      if o.side.Buy? {
        var bucket := if key in buys then buys[key] else Bucket(o.rate, 0);
        buys := buys[key := bucket.(volume := bucket.volume + o.quantity)];
      } else {
        var bucket := if key in asks then asks[key] else Bucket(o.rate, 0);
        asks := asks[key := bucket.(volume := bucket.volume + o.quantity)];
      }
      ords := ords[id := o];
    }

    /** Take a quantity out of the level of a rate, deleting the level when nothing is left. */
    method TakeFrom(side: Side, rate: nat, quantity: int)
      modifies this`buys, this`asks
      ensures View() == WithSide(old(View()), side, Subtract(SideOf(old(View()), side), rate, quantity))
    {
      var key := RateKey(rate);
      var levels := if side.Buy? then buys else asks;
      var bucket := if key in levels then levels[key] else Bucket(rate, 0);
      bucket := bucket.(volume := bucket.volume - quantity);
      levels := levels[key := bucket];
      if bucket.volume < 1 {
        assert levels - {key} == (if side.Buy? then buys else asks) - {key};
        levels := levels - {key};
      }
      if side.Buy? {
        buys := levels;
      } else {
        asks := levels;
      }
    }

    method Unbook(id: OrderId)
      modifies this
      ensures View() == UnbookOrder(old(View()), id)
    {
      if |id| == 0 || id !in ords {
        failures := failures + 1;
        return;
      }
      var o := ords[id];
      ords := ords - {id};
      TakeFrom(o.side, o.rate, o.quantity);
    }

    method Update(id: OrderId, remaining: nat)
      modifies this
      ensures View() == UpdateRemaining(old(View()), id, remaining)
    {
      if |id| == 0 || id !in ords {
        failures := failures + 1;
        return;
      }
      var o := ords[id];
      var diff := (o.quantity - remaining) % TWO_64;
      ords := ords[id := o.(quantity := remaining)];
      TakeFrom(o.side, o.rate, diff);
    }

    method SetOrderBook(n: nat, orders: seq<Option<Listed>>)
      modifies this
      ensures View() == Load(Clear(old(View())).(seqNo := n), orders)
    {
      buys, asks, ords := map[], map[], map[];
      seqNo := n;
      var i := 0;
      while i < |orders|
        invariant 0 <= i <= |orders|
        invariant Load(View(), orders[i..]) == Load(Clear(old(View())).(seqNo := n), orders)
      {
        assert orders[i..][0] == orders[i] && orders[i..][1..] == orders[i + 1..];
        if orders[i].None? {
          failures := failures + 1;
          return;
        }
        AddOrder(orders[i].value.id, orders[i].value.order);
        i := i + 1;
      }
    }

    /** The part of processWsMessage, and of the subscription's answer, that touches the book. */
    method Process(note: Note)
      modifies this
      ensures View() == Step(old(View()), note)
    {
      match note
      case Snapshot(n, orders) =>
        SetOrderBook(n, orders);
      case Book(n, id, o) =>
        var ok := CheckSeqNo(n);
        if ok {
          AddOrder(id, o);
        }
      case Unbook(n, id) =>
        var ok := CheckSeqNo(n);
        if ok {
          Unbook(id);
        }
      case Update(n, id, remaining) =>
        var ok := CheckSeqNo(n);
        if ok {
          Update(id, remaining);
        }
      case Epoch(n) =>
        var _ := CheckSeqNo(n);
      case Suspend(n, persist) =>
        if !persist {
          var _ := CheckSeqNo(n);
          buys, asks, ords := map[], map[], map[];
        }
    }

    /**
     wsDepthSnapshot: each level once, asks by ascending and bids by descending
     rate, and on an accurate book with the quantity of the orders booked there.
     */
    method DepthSnapshot() returns (askPoints: seq<DepthPoint>, bidPoints: seq<DepthPoint>)
      requires Accurate(View())
      ensures Shows(askPoints, View(), Sell) && Shows(Reversed(bidPoints), View(), Buy)
    {
      hide Total, Lists, Volume;
      askPoints := ListLevels(asks);
      var ascending := ListLevels(buys);
      bidPoints := Reversed(ascending);
      assert Reversed(bidPoints) == ascending;
      ListsShow(View(), Sell, askPoints);
      ListsShow(View(), Buy, ascending);
    }
  }

  /** `points` lists one side's rates once each in ascending order, with the quantity booked at each. */
  ghost predicate Shows(points: seq<DepthPoint>, r: Replica, side: Side) {
    && Lists(points, SideOf(r, side))
    && forall i :: 0 <= i < |points| ==> points[i].quantity == Total(r.ords, side, RateKey(points[i].price))
  }

  lemma ListsShow(r: Replica, side: Side, points: seq<DepthPoint>)
    requires Accurate(r) && Lists(points, SideOf(r, side))
    ensures Shows(points, r, side)
  {
    hide Total;
    forall i | 0 <= i < |points|
      ensures points[i].quantity == Total(r.ords, side, RateKey(points[i].price))
    {
      assert Right(r, side, RateKey(points[i].price));
    }
  }
}
