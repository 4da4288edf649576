/**
 The on-disk diff history: a key-value store from big-endian heights to encoded
 diffs, read back in key order when the ticket pool is opened.
 */
module DiffStore {
  import opened Widths
  import opened Bytes
  import opened PoolHistory
  import opened DiffCodec

  /** A database entry; META_VERSION marks the entry holding the schema version. */
  datatype Record = Record(meta: nat, value: seq<byte>)

  type Database = map<seq<byte>, Record>

  const META_VERSION: nat := 1

  ghost predicate AllEncodable(ds: seq<PoolDiff>) {
    |ds| < TWO_63 && forall i :: 0 <= i < |ds| ==> Encodable(ds[i])
  }

  /** `db` holds a diff record for height h. */
  predicate HoldsAt(db: Database, h: nat, d: PoolDiff)
    requires h < TWO_64 && Encodable(d)
  {
    var k := Uint64Bytes(h);
    k in db && db[k].meta != META_VERSION && db[k].value == Encode(d)
  }

  /** The key is that of one of the heights 1..n. */
  ghost predicate IsHeightKey(k: seq<byte>, n: nat)
    requires n < TWO_63
  {
    exists h: nat :: 1 <= h <= n && k == Uint64Bytes(h)
  }

  /** The diff records of `db` are those of `ds` at the heights 1, 2, ... and no others. */
  ghost predicate Mirrors(db: Database, ds: seq<PoolDiff>) {
    && AllEncodable(ds)
    && (forall i :: 0 <= i < |ds| ==> HoldsAt(db, i + 1, ds[i]))
    && (forall k :: k in db && db[k].meta != META_VERSION ==> IsHeightKey(k, |ds|))
  }

  /** `db` mirrors `stored`, which starts with `ds`. */
  ghost predicate Holds(db: Database, stored: seq<PoolDiff>, ds: seq<PoolDiff>) {
    Mirrors(db, stored) && ds <= stored
  }

  lemma HoldsPrefix(db: Database, stored: seq<PoolDiff>, ds: seq<PoolDiff>, n: nat)
    requires Holds(db, stored, ds) && n <= |ds|
    ensures Holds(db, stored, ds[..n])
  {
    hide Mirrors;
  }

  /** The diffs on disk after writing `d` at height tip+1 over the stored diffs `ds`. */
  function Overwrite(ds: seq<PoolDiff>, tip: nat, d: PoolDiff): (r: seq<PoolDiff>)
    requires tip <= |ds|
    ensures ds[..tip] + [d] <= r
    ensures |ds| <= |r|
  {
    if tip < |ds| then ds[tip := d] else ds + [d]
  }

  /** storeDiff */
  function StoreDiff(db: Database, d: PoolDiff, height: nat): Database
    requires Encodable(d) && height < TWO_64
  {
    db[Uint64Bytes(height) := Record(0, Encode(d))]
  }

  /** The record is under the eight bytes that spell the height, and no other record changes. */
  lemma StoreIs(db: Database, d: PoolDiff, height: nat) returns (k: seq<byte>)
    requires Encodable(d) && height < TWO_64
    ensures |k| == 8 && Uint64Value(k) == height
    ensures k in StoreDiff(db, d, height) && StoreDiff(db, d, height)[k].value == Encode(d)
    ensures StoreDiff(db, d, height)[k].meta != META_VERSION
    ensures forall x :: x != k ==>
              && (x in StoreDiff(db, d, height) <==> x in db)
              && (x in db ==> StoreDiff(db, d, height)[x] == db[x])
  {
    hide Uint64Bytes, Uint64Value, Encode;
    k := Uint64Bytes(height);
    Uint64RoundTrip(height);
  }

  /** Writing at the height after the tip extends or overwrites the mirrored history there. */
  lemma StoreMirrors(db: Database, ds: seq<PoolDiff>, tip: nat, d: PoolDiff)
    requires Mirrors(db, ds) && tip <= |ds| && tip + 1 < TWO_63 && Encodable(d)
    ensures Mirrors(StoreDiff(db, d, tip + 1), Overwrite(ds, tip, d))
  {
    hide Uint64Bytes, Encode;
    var db' := StoreDiff(db, d, tip + 1);
    var ds' := Overwrite(ds, tip, d);
    forall i | 0 <= i < |ds'|
      ensures HoldsAt(db', i + 1, ds'[i])
    {
      HeightKeyOrder(i + 1, tip + 1);
      assert i != tip ==> HoldsAt(db, i + 1, ds[i]);
    }
    forall k | k in db' && db'[k].meta != META_VERSION
      ensures IsHeightKey(k, |ds'|)
    {
      if k != Uint64Bytes(tip + 1) {
        assert IsHeightKey(k, |ds|);
      }
    }
  }

  datatype Loading<T> = Loaded(value: T) | LoadFailed | LoadPanic

  /** The keys in the order in which the database iterator yields them. */
  ghost predicate IteratesAll(db: Database, keys: seq<seq<byte>>) {
    && |keys| < TWO_63
    && (forall k :: k in db <==> k in keys)
    && (forall i, j :: 0 <= i < j < |keys| ==> LexLess(keys[i], keys[j]))
  }

  lemma KeyKnown(db: Database, keys: seq<seq<byte>>, i: nat)
    requires IteratesAll(db, keys) && i < |keys|
    ensures keys[i] in db
  {
    assert keys[i] in keys;
  }

  /** Every diff record has an 8-byte key and a value that fits in memory. */
  ghost predicate WellKeyed(db: Database) {
    forall k :: k in db && db[k].meta != META_VERSION ==> |k| == 8 && |db[k].value| < TWO_63
  }

  /** The key of height n+1 is the key of no height up to n. */
  lemma KeyIsNew(n: nat)
    requires n + 1 < TWO_63
    ensures !IsHeightKey(Uint64Bytes(n + 1), n)
  {
    hide Uint64Bytes, Encode;
    forall h: nat | 1 <= h <= n ensures Uint64Bytes(n + 1) != Uint64Bytes(h) {
      HeightKeyOrder(h, n + 1);
    }
  }

  /** In a sorted list the smaller key comes first. */
  lemma KeyBefore(keys: seq<seq<byte>>, j: nat, i: nat)
    requires forall a, b :: 0 <= a < b < |keys| ==> LexLess(keys[a], keys[b])
    requires i < |keys| && j < |keys| && LexLess(keys[j], keys[i])
    ensures j < i
  {
    LexIrreflexive(keys[i]);
    if i < j {
      LexTransitive(keys[i], keys[j], keys[i]);
    }
  }

  /** The iterator has passed the key. */
  ghost predicate Passed(keys: seq<seq<byte>>, i: nat, k: seq<byte>)
    requires i <= |keys|
  {
    exists m :: 0 <= m < i && keys[m] == k
  }

  /** Every diff record passed so far is that of one of the heights 1..n. */
  ghost predicate OnlyHeights(db: Database, keys: seq<seq<byte>>, i: nat, n: nat)
    requires i <= |keys| && n < TWO_63
  {
    forall m :: 0 <= m < i && keys[m] in db && db[keys[m]].meta != META_VERSION ==> IsHeightKey(keys[m], n)
  }

  /** Height h has been passed and holds `d`. */
  ghost predicate ReadAt(db: Database, keys: seq<seq<byte>>, i: nat, h: nat, d: PoolDiff)
    requires i <= |keys| && h < TWO_64 && Encodable(d)
  {
    HoldsAt(db, h, d) && Passed(keys, i, Uint64Bytes(h))
  }

  /** The heights 1..n have been passed and hold `ds`. */
  ghost predicate HeightsRead(db: Database, keys: seq<seq<byte>>, i: nat, ds: seq<PoolDiff>)
    requires i <= |keys| && AllEncodable(ds)
  {
    forall j :: 0 <= j < |ds| ==> ReadAt(db, keys, i, j + 1, ds[j])
  }

  /** What has been read of the store when the iterator stands at keys[i]. */
  ghost predicate ReadSoFar(db: Database, keys: seq<seq<byte>>, i: nat, ds: seq<PoolDiff>) {
    && |ds| <= i <= |keys| < TWO_63
    && AllEncodable(ds)
    && HeightsRead(db, keys, i, ds)
    && OnlyHeights(db, keys, i, |ds|)
  }

  lemma ReadNone(db: Database, keys: seq<seq<byte>>)
    requires IteratesAll(db, keys)
    ensures ReadSoFar(db, keys, 0, [])
  {
  }

  lemma PassedLater(keys: seq<seq<byte>>, i: nat, k: seq<byte>)
    requires i < |keys| && Passed(keys, i, k)
    ensures Passed(keys, i + 1, k)
  {
    var m :| 0 <= m < i && keys[m] == k;
    assert 0 <= m < i + 1 && keys[m] == k;
  }

  lemma ReadAtLater(db: Database, keys: seq<seq<byte>>, i: nat, h: nat, d: PoolDiff)
    requires i < |keys| && h < TWO_64 && Encodable(d) && ReadAt(db, keys, i, h, d)
    ensures ReadAt(db, keys, i + 1, h, d)
  {
    hide Uint64Bytes, HoldsAt, Encodable;
    PassedLater(keys, i, Uint64Bytes(h));
  }

  lemma HeightsReadLater(db: Database, keys: seq<seq<byte>>, i: nat, ds: seq<PoolDiff>)
    requires i < |keys| && AllEncodable(ds) && HeightsRead(db, keys, i, ds)
    ensures HeightsRead(db, keys, i + 1, ds)
  {
    hide Encodable, ReadAt;
    forall j | 0 <= j < |ds| ensures ReadAt(db, keys, i + 1, j + 1, ds[j]) {
      ReadAtLater(db, keys, i, j + 1, ds[j]);
    }
  }

  lemma ReadSkip(db: Database, keys: seq<seq<byte>>, i: nat, ds: seq<PoolDiff>)
    requires ReadSoFar(db, keys, i, ds)
    requires i < |keys| && keys[i] in db && db[keys[i]].meta == META_VERSION
    ensures ReadSoFar(db, keys, i + 1, ds)
  {
    hide Uint64Bytes, HoldsAt, Encodable, HeightsRead, IsHeightKey;
    HeightsReadLater(db, keys, i, ds);
  }

  lemma HeightsReadNext(db: Database, keys: seq<seq<byte>>, i: nat, ds: seq<PoolDiff>, d: PoolDiff)
    requires i <= |keys| && AllEncodable(ds) && AllEncodable(ds + [d]) && Encodable(d)
    requires HeightsRead(db, keys, i, ds) && ReadAt(db, keys, i, |ds| + 1, d)
    ensures HeightsRead(db, keys, i, ds + [d])
  {
    hide Encodable, ReadAt;
    var es := ds + [d];
    forall j | 0 <= j < |es| ensures ReadAt(db, keys, i, j + 1, es[j]) {
      if j < |ds| {
        assert es[j] == ds[j];
      }
    }
  }

  lemma HeightKeyLater(k: seq<byte>, n: nat)
    requires n + 1 < TWO_63 && (IsHeightKey(k, n) || k == Uint64Bytes(n + 1))
    ensures IsHeightKey(k, n + 1)
  {
    hide Uint64Bytes;
  }

  lemma ReadNext(db: Database, keys: seq<seq<byte>>, i: nat, ds: seq<PoolDiff>, d: PoolDiff)
    requires ReadSoFar(db, keys, i, ds) && Encodable(d)
    requires i < |keys| && keys[i] == Uint64Bytes(|ds| + 1) && HoldsAt(db, |ds| + 1, d)
    ensures ReadSoFar(db, keys, i + 1, ds + [d])
  {
    hide Uint64Bytes, HoldsAt, Encodable, Passed, HeightsRead, IsHeightKey;
    HeightsReadLater(db, keys, i, ds);
    PassedHere(keys, i);
    HeightsReadNext(db, keys, i + 1, ds, d);
    forall m | 0 <= m < i + 1 && keys[m] in db && db[keys[m]].meta != META_VERSION
      ensures IsHeightKey(keys[m], |ds| + 1)
    {
      HeightKeyLater(keys[m], |ds|);
    }
  }

  lemma PassedHere(keys: seq<seq<byte>>, i: nat)
    requires i < |keys|
    ensures Passed(keys, i + 1, keys[i])
  {
  }

  lemma ReadAll(db: Database, keys: seq<seq<byte>>, ds: seq<PoolDiff>)
    requires IteratesAll(db, keys) && ReadSoFar(db, keys, |keys|, ds)
    ensures Mirrors(db, ds)
  {
    hide Uint64Bytes, HoldsAt, Encodable, Passed, IsHeightKey;
  }

  /** The record of a smaller height is read earlier. */
  lemma LowerHeightRead(db: Database, keys: seq<seq<byte>>, i: nat, g: nat, h: nat, ds: seq<PoolDiff>)
    requires IteratesAll(db, keys) && ReadSoFar(db, keys, i, ds) && i < |keys|
    requires g < h < TWO_63 && keys[i] == Uint64Bytes(h)
    requires Uint64Bytes(g) in db && db[Uint64Bytes(g)].meta != META_VERSION
    ensures IsHeightKey(Uint64Bytes(g), |ds|)
  {
    hide Uint64Bytes, Encode;
    HeightKeyOrder(g, h);
    var j :| 0 <= j < |keys| && keys[j] == Uint64Bytes(g);
    KeyBefore(keys, j, i);
  }

  /** In a mirrored store the record read after heights 1..n is the record of height n+1. */
  lemma NextHeight(db: Database, keys: seq<seq<byte>>, i: nat, ds: seq<PoolDiff>, whole: seq<PoolDiff>)
    requires IteratesAll(db, keys) && Mirrors(db, whole)
    requires ReadSoFar(db, keys, i, ds)
    requires i < |keys| && db[keys[i]].meta != META_VERSION
    ensures |ds| < |whole| && keys[i] == Uint64Bytes(|ds| + 1)
  {
    hide Uint64Bytes, Encode;
    var n := |ds|;
    assert IsHeightKey(keys[i], |whole|);
    var h: nat :| 1 <= h <= |whole| && keys[i] == Uint64Bytes(h);
    assert n < h by {
      if h <= n {
        assert ReadAt(db, keys, i, (h - 1) + 1, ds[h - 1]);
        var j :| 0 <= j < i && keys[j] == keys[i];
        assert LexLess(keys[j], keys[i]);
        LexIrreflexive(keys[i]);
      }
    }
    if n + 1 < h {
      KeyIsNew(n);
      assert HoldsAt(db, n + 1, whole[n]);
      LowerHeightRead(db, keys, i, n + 1, h, ds);
    }
  }

  /** The records of a mirrored store have the shape that the loader expects. */
  lemma MirrorsWellKeyed(db: Database, ds: seq<PoolDiff>)
    requires Mirrors(db, ds)
    ensures WellKeyed(db)
  {
    hide Uint64Bytes, Encode;
    forall k | k in db && db[k].meta != META_VERSION ensures |k| == 8 && |db[k].value| < TWO_63 {
      var h: nat :| 1 <= h <= |ds| && k == Uint64Bytes(h);
      assert HoldsAt(db, (h - 1) + 1, ds[h - 1]);
    }
  }

  /** A store mirrors at most one history. */
  lemma SameMirror(db: Database, ds: seq<PoolDiff>, es: seq<PoolDiff>)
    requires Mirrors(db, ds) && Mirrors(db, es)
    ensures ds == es
  {
    hide Uint64Bytes, Encode;
    SameMirrorLength(db, ds, es);
    SameMirrorLength(db, es, ds);
    forall i | 0 <= i < |ds| ensures ds[i] == es[i] {
      assert HoldsAt(db, i + 1, ds[i]) && HoldsAt(db, i + 1, es[i]);
      DecodeEncode(ds[i]);
      DecodeEncode(es[i]);
    }
  }

  lemma SameMirrorLength(db: Database, ds: seq<PoolDiff>, es: seq<PoolDiff>)
    requires Mirrors(db, ds) && Mirrors(db, es)
    ensures |ds| <= |es|
  {
    hide Uint64Bytes, Encode;
    if |es| < |ds| {
      assert HoldsAt(db, |es| + 1, ds[|es|]);
      KeyIsNew(|es|);
    }
  }

  /** In a mirrored store the next record has the next height and decodes to its diff. */
  lemma NextRecord(db: Database, keys: seq<seq<byte>>, i: nat, ds: seq<PoolDiff>, whole: seq<PoolDiff>)
    requires IteratesAll(db, keys) && WellKeyed(db) && Mirrors(db, whole)
    requires ReadSoFar(db, keys, i, ds)
    requires i < |keys| && db[keys[i]].meta != META_VERSION
    ensures Uint64Value(keys[i]) == |ds| + 1 && Decode(db[keys[i]].value).Some?
  {
    hide Uint64Bytes, Uint64Value, Encode, Decode;
    NextHeight(db, keys, i, ds, whole);
    assert HoldsAt(db, |ds| + 1, whole[|ds|]);
    DecodeEncode(whole[|ds|]);
    Uint64RoundTrip(|ds| + 1);
  }

  /**
   One turn of the loading loop on a diff record: decode it, then panic if its
   height does not follow the last one. Neither failure happens when the store
   mirrors a history.
   */
  method LoadRecord(db: Database, keys: seq<seq<byte>>, i: nat, ds: seq<PoolDiff>) returns (r: Loading<PoolDiff>)
    requires IteratesAll(db, keys) && WellKeyed(db)
    requires ReadSoFar(db, keys, i, ds)
    requires i < |keys| && db[keys[i]].meta != META_VERSION
    ensures r.Loaded? ==> ReadSoFar(db, keys, i + 1, ds + [r.value])
    ensures (exists whole :: Mirrors(db, whole)) ==> r.Loaded?
  {
    hide Uint64Bytes, Uint64Value, Encode, Decode, Mirrors;
    var height := Uint64Value(keys[i]);
    if whole :| Mirrors(db, whole) {
      NextRecord(db, keys, i, ds, whole);
    }
    var decoded := DecodeDiff(db[keys[i]].value);
    if decoded.Err? {
      return LoadFailed;
    }
    if |ds| + 1 != height {
      return LoadPanic;
    }
    EncodeDecode(db[keys[i]].value);
    ReadNext(db, keys, i, ds, decoded.value);
    return Loaded(decoded.value);
  }

  /**
   loadAllPoolDiffsV1. It loads `ds` exactly when the store mirrors `ds`: the
   gap panic and every decoding error mean that the store mirrors no history.
   */
  method LoadAllPoolDiffs(db: Database, keys: seq<seq<byte>>) returns (r: Loading<seq<PoolDiff>>)
    requires IteratesAll(db, keys) && WellKeyed(db)
    ensures r.Loaded? <==> exists ds :: Mirrors(db, ds)
    ensures r.Loaded? ==> Mirrors(db, r.value)
  {
    hide Mirrors, ReadSoFar, IteratesAll, WellKeyed;
    ReadNone(db, keys);
    var poolDiffs: seq<PoolDiff> := [];
    var i := 0;
    while i < |keys|
      invariant 0 <= i <= |keys| && ReadSoFar(db, keys, i, poolDiffs)
    {
      KeyKnown(db, keys, i);
      if db[keys[i]].meta == META_VERSION {
        ReadSkip(db, keys, i, poolDiffs);
      } else {
        var next := LoadRecord(db, keys, i, poolDiffs);
        match next {
          case Loaded(d) => poolDiffs := poolDiffs + [d];
          case LoadFailed => return LoadFailed;
          case LoadPanic => return LoadPanic;
        }
      }
      i := i + 1;
    }
    ReadAll(db, keys, poolDiffs);
    return Loaded(poolDiffs);
  }

  // ----- stores with gaps

  /** What is written at each height, whether or not the heights follow one another. */
  type Disk = map<nat, PoolDiff>

  ghost predicate IsKeyOf(k: seq<byte>, disk: Disk) {
    exists h: nat :: h in disk && h < TWO_63 && k == Uint64Bytes(h)
  }

  /** `disk` has diff h, which fits a record, and `db` holds that record. */
  ghost predicate RecordAt(db: Database, disk: Disk, h: nat)
    requires h in disk
  {
    1 <= h < TWO_63 && Encodable(disk[h]) && HoldsAt(db, h, disk[h])
  }

  /** The diff records of `db` are those of `disk` and no others. */
  ghost predicate Records(db: Database, disk: Disk) {
    && (forall h :: h in disk ==> RecordAt(db, disk, h))
    && (forall k :: k in db && db[k].meta != META_VERSION ==> IsKeyOf(k, disk))
  }

  lemma StoreRecords(db: Database, disk: Disk, h: nat, d: PoolDiff)
    requires Records(db, disk) && 1 <= h < TWO_63 && Encodable(d)
    ensures Records(StoreDiff(db, d, h), disk[h := d])
  {
    hide Uint64Bytes, Encode, Encodable;
    var db', disk' := StoreDiff(db, d, h), disk[h := d];
    forall g | g in disk' ensures RecordAt(db', disk', g) {
      if g != h {
        assert RecordAt(db, disk, g);
        HeightKeyOrder(g, h);
      }
    }
    forall k | k in db' && db'[k].meta != META_VERSION ensures IsKeyOf(k, disk') {
      if k != Uint64Bytes(h) {
        assert IsKeyOf(k, disk);
        var g: nat :| g in disk && g < TWO_63 && k == Uint64Bytes(g);
        assert g in disk';
      }
    }
  }

  lemma RecordsWellKeyed(db: Database, disk: Disk)
    requires Records(db, disk)
    ensures WellKeyed(db)
  {
    hide Uint64Bytes, Encode;
    forall k | k in db && db[k].meta != META_VERSION ensures |k| == 8 && |db[k].value| < TWO_63 {
      var h: nat :| h in disk && h < TWO_63 && k == Uint64Bytes(h);
      assert RecordAt(db, disk, h);
    }
  }

  /** `disk` holds `ds` at the heights 1, 2, ... and nothing else. */
  ghost predicate Lists(disk: Disk, ds: seq<PoolDiff>) {
    && |ds| < TWO_63
    && (forall h: nat :: h in disk <==> 1 <= h <= |ds|)
    && (forall h: nat :: h in disk ==> disk[h] == ds[h - 1])
  }

  /** A store mirrors a history if and only if its records list it. */
  lemma MirrorsIffLists(db: Database, disk: Disk, ds: seq<PoolDiff>)
    requires Records(db, disk)
    ensures Mirrors(db, ds) <==> Lists(disk, ds)
  {
    hide Mirrors, Lists, Records;
    if Mirrors(db, ds) {
      MirrorsLists(db, disk, ds);
    }
    if Lists(disk, ds) {
      ListsMirrors(db, disk, ds);
    }
  }

  lemma MirrorsLists(db: Database, disk: Disk, ds: seq<PoolDiff>)
    requires Records(db, disk) && Mirrors(db, ds)
    ensures Lists(disk, ds)
  {
    hide Uint64Bytes, Encode, Decode, Encodable;
    forall h: nat | h in disk ensures 1 <= h <= |ds| && disk[h] == ds[h - 1] {
      assert RecordAt(db, disk, h);
      assert IsHeightKey(Uint64Bytes(h), |ds|);
      var g: nat :| 1 <= g <= |ds| && Uint64Bytes(h) == Uint64Bytes(g);
      HeightKeyOrder(g, h);
      assert HoldsAt(db, (g - 1) + 1, ds[g - 1]);
      DecodeEncode(disk[h]);
      DecodeEncode(ds[g - 1]);
    }
    forall h: nat | 1 <= h <= |ds| ensures h in disk {
      assert HoldsAt(db, (h - 1) + 1, ds[h - 1]);
      assert IsKeyOf(Uint64Bytes(h), disk);
      var g: nat :| g in disk && g < TWO_63 && Uint64Bytes(h) == Uint64Bytes(g);
      HeightKeyOrder(g, h);
    }
  }

  lemma ListsMirrors(db: Database, disk: Disk, ds: seq<PoolDiff>)
    requires Records(db, disk) && Lists(disk, ds)
    ensures Mirrors(db, ds)
  {
    hide Uint64Bytes, Encode, Encodable;
    forall i | 0 <= i < |ds| ensures Encodable(ds[i]) && HoldsAt(db, i + 1, ds[i]) {
      assert i + 1 in disk;
      assert RecordAt(db, disk, i + 1);
    }
    forall k | k in db && db[k].meta != META_VERSION ensures IsHeightKey(k, |ds|) {
      assert IsKeyOf(k, disk);
    }
  }

  /** Below every height but the first there is another. */
  predicate NoGap(heights: set<nat>) {
    forall h :: h in heights && h > 1 ==> h - 1 in heights
  }

  /** The heights are those from 1 to n. */
  ghost predicate Upto(heights: set<nat>, n: nat) {
    forall h: nat :: h in heights <==> 1 <= h <= n
  }

  /** Positive heights without a gap are those up to the highest. */
  lemma {:induction false} NoGapUpto(heights: set<nat>) returns (n: nat)
    requires NoGap(heights) && 0 !in heights
    ensures Upto(heights, n)
  {
    if heights == {} {
      n := 0;
    } else {
      n := Highest(heights);
      var h := n;
      while h > 1
        invariant 1 <= h <= n && forall g: nat :: h <= g <= n ==> g in heights
      {
        assert h in heights;
        h := h - 1;
      }
    }
  }

  lemma {:induction false} Highest(heights: set<nat>) returns (n: nat)
    requires heights != {}
    ensures n in heights && forall h :: h in heights ==> h <= n
  {
    n :| n in heights;
    var rest := heights - {n};
    assert forall h :: h in heights ==> h == n || h in rest;
    if rest != {} {
      var m := Highest(rest);
      n := if m > n then m else n;
    }
  }

  /** Loading succeeds. */
  ghost predicate Loads(db: Database) {
    exists ds :: Mirrors(db, ds)
  }

  /** A store loads if and only if the heights of its records have no gap. */
  lemma LoadsIff(db: Database, disk: Disk)
    requires Records(db, disk)
    ensures Loads(db) <==> NoGap(disk.Keys)
  {
    hide Mirrors, RecordAt;
    if ds :| Mirrors(db, ds) {
      MirrorsIffLists(db, disk, ds);
      forall h | h in disk.Keys && h > 1 ensures h - 1 in disk.Keys {
        assert h in disk && h - 1 in disk;
      }
    }
    if NoGap(disk.Keys) {
      Positive(db, disk);
      var n := NoGapUpto(disk.Keys);
      UptoLists(db, disk, n);
    }
  }

  lemma Positive(db: Database, disk: Disk)
    requires Records(db, disk)
    ensures 0 !in disk.Keys
  {
  }

  lemma UptoLists(db: Database, disk: Disk, n: nat)
    requires Records(db, disk) && Upto(disk.Keys, n)
    ensures Loads(db)
  {
    hide Mirrors, Encodable, HoldsAt;
    assert n < TWO_63 by {
      if n > 0 {
        assert n in disk.Keys;
        assert RecordAt(db, disk, n);
      }
    }
    var ds := seq(n, i requires 0 <= i < n => assert i + 1 in disk.Keys; disk[i + 1]);
    forall h: nat ensures h in disk <==> 1 <= h <= n {
      assert h in disk.Keys <==> 1 <= h <= n;
    }
    assert Lists(disk, ds);
    MirrorsIffLists(db, disk, ds);
  }
}
