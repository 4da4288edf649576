/**
 Bytes, 32-byte hashes, and the fixed-width big-endian integers that the ticket
 pool store uses both as record lengths and as database keys.
 */
module Bytes {
  import opened Widths

  newtype byte = x: int | 0 <= x < 256

  /** chainhash.HashSize */
  const HASH_SIZE: nat := 32

  /** chainhash.Hash, a [32]byte, as the number its bytes spell; see HashBytes. */
  newtype Hash = x: int | 0 <= x < TWO_256

  const TWO_256: int := TWO_64 * TWO_64 * TWO_64 * TWO_64

  function Pow256(n: nat): (p: nat)
    ensures p > 0
  {
    if n == 0 then 1 else 256 * Pow256(n - 1)
  }

  /** The number spelled by `s`, most significant byte first. */
  function ValueOf(s: seq<byte>): (v: nat)
    ensures v < Pow256(|s|)
  {
    if s == [] then 0
    else
      DigitBound(s[0] as nat, ValueOf(s[1..]), Pow256(|s| - 1));
      s[0] as nat * Pow256(|s| - 1) + ValueOf(s[1..])
  }

  lemma DigitBound(d: nat, rest: nat, p: nat)
    requires d < 256 && rest < p
    ensures 0 <= d * p + rest < 256 * p
  {
    assert d * p <= 255 * p;
  }

  /** The `n`-byte big-endian form of `v`; ValueOf undoes it. */
  function BigEndian(v: nat, n: nat): (s: seq<byte>)
    requires v < Pow256(n)
    ensures |s| == n
    ensures ValueOf(s) == v
    decreases n
  {
    if n == 0 then []
    else
      var p := Pow256(n - 1);
      LeadingDigit(v, p);
      [(v / p) as byte] + BigEndian(v % p, n - 1)
  }

  lemma LeadingDigit(v: nat, p: nat)
    requires 0 < p && v < 256 * p
    ensures 0 <= v / p < 256
    ensures v == (v / p) * p + v % p
  {
    var q := v / p;
    assert q >= 256 ==> q * p >= 256 * p;
  }

  /** Splitting off the leading digit is unambiguous. */
  lemma DigitUnique(d: nat, rest: nat, d': nat, rest': nat, p: nat)
    requires rest < p && rest' < p
    requires d * p + rest == d' * p + rest'
    ensures d == d' && rest == rest'
  {
    assert d < d' ==> (d + 1) * p <= d' * p;
    assert d' < d ==> (d' + 1) * p <= d * p;
  }

  /** Equal-width byte strings with the same value are the same string. */
  lemma {:induction false} ValueInjective(a: seq<byte>, b: seq<byte>)
    requires |a| == |b| && ValueOf(a) == ValueOf(b)
    ensures a == b
  {
    if a != [] {
      DigitUnique(a[0] as nat, ValueOf(a[1..]), b[0] as nat, ValueOf(b[1..]), Pow256(|a| - 1));
      ValueInjective(a[1..], b[1..]);
      assert a == [a[0]] + a[1..] && b == [b[0]] + b[1..];
    }
  }

  /** bytes.Compare(a, b) < 0, the order in which the database iterates its keys */
  predicate LexLess(a: seq<byte>, b: seq<byte>) {
    if b == [] then false
    else if a == [] then true
    else a[0] < b[0] || (a[0] == b[0] && LexLess(a[1..], b[1..]))
  }

  /** On strings of one width, the key order is the numeric order. */
  lemma {:induction false} LexIsNumeric(a: seq<byte>, b: seq<byte>)
    requires |a| == |b|
    ensures LexLess(a, b) <==> ValueOf(a) < ValueOf(b)
  {
    if a != [] {
      var p := Pow256(|a| - 1);
      LexIsNumeric(a[1..], b[1..]);
      if a[0] < b[0] {
        DigitOrder(a[0] as nat, ValueOf(a[1..]), b[0] as nat, p);
      } else if b[0] < a[0] {
        DigitOrder(b[0] as nat, ValueOf(b[1..]), a[0] as nat, p);
      }
    }
  }

  lemma DigitOrder(d: nat, rest: nat, d': nat, p: nat)
    requires d < d' && rest < p
    ensures d * p + rest < d' * p
  {
    assert (d + 1) * p <= d' * p;
  }

  lemma Pow256Of8()
    ensures Pow256(8) == TWO_64
  {
    assert Pow256(4) == 0x1_0000_0000;
    assert Pow256(6) == 0x1_0000_0000_0000;
  }

  lemma {:induction false} Pow256Sum(m: nat, n: nat)
    ensures Pow256(m + n) == Pow256(m) * Pow256(n)
  {
    if m > 0 {
      Pow256Sum(m - 1, n);
    }
  }

  lemma Pow256Of32()
    ensures Pow256(32) == TWO_256
  {
    Pow256Of8();
    Pow256Sum(8, 8);
    Pow256Sum(16, 16);
  }

  /** Every number below 256^n has exactly one n-byte form. */
  lemma FixedWidth(v: nat, n: nat)
    requires v < Pow256(n)
    ensures exists s: seq<byte> :: |s| == n && ValueOf(s) == v
    ensures forall a: seq<byte>, b: seq<byte> ::
              |a| == n && |b| == n && ValueOf(a) == ValueOf(b) ==> a == b
  {
    var s := BigEndian(v, n);
    assert |s| == n && ValueOf(s) == v;
    forall a: seq<byte>, b: seq<byte> | |a| == n && |b| == n && ValueOf(a) == ValueOf(b)
      ensures a == b
    {
      ValueInjective(a, b);
    }
  }

  /** uint64Bytes */
  function Uint64Bytes(v: nat): (s: seq<byte>)
    requires v < TWO_64
    ensures |s| == 8
  {
    Pow256Of8();
    FixedWidth(v, 8);
    var s: seq<byte> :| |s| == 8 && ValueOf(s) == v;
    s
  }

  /** binary.BigEndian.Uint64 */
  function Uint64Value(s: seq<byte>): (v: nat)
    requires |s| == 8
    ensures v < TWO_64 && Uint64Bytes(v) == s
  {
    Pow256Of8();
    FixedWidth(ValueOf(s), 8);
    ValueOf(s)
  }

  lemma Uint64RoundTrip(v: nat)
    requires v < TWO_64
    ensures Uint64Value(Uint64Bytes(v)) == v
  {
  }

  /** The 32 bytes of a hash. */
  function HashBytes(h: Hash): (s: seq<byte>)
    ensures |s| == HASH_SIZE
  {
    Pow256Of32();
    FixedWidth(h as nat, HASH_SIZE);
    var s: seq<byte> :| |s| == HASH_SIZE && ValueOf(s) == h as nat;
    s
  }

  function HashOf(s: seq<byte>): (h: Hash)
    requires |s| == HASH_SIZE
    ensures HashBytes(h) == s
  {
    Pow256Of32();
    FixedWidth(ValueOf(s), HASH_SIZE);
    ValueOf(s) as Hash
  }

  lemma HashRoundTrip(h: Hash)
    ensures HashOf(HashBytes(h)) == h
  {
  }

  /** Height keys are distinct for distinct heights and are iterated in height order. */
  lemma HeightKeyOrder(g: nat, h: nat)
    requires g < TWO_64 && h < TWO_64
    ensures Uint64Bytes(g) == Uint64Bytes(h) <==> g == h
    ensures LexLess(Uint64Bytes(g), Uint64Bytes(h)) <==> g < h
  {
    LexIsNumeric(Uint64Bytes(g), Uint64Bytes(h));
  }

  /** LexLess is a strict total order. */
  lemma {:induction false} LexTransitive(a: seq<byte>, b: seq<byte>, c: seq<byte>)
    requires LexLess(a, b) && LexLess(b, c)
    ensures LexLess(a, c)
  {
    if a != [] && a[0] == b[0] && b[0] == c[0] {
      LexTransitive(a[1..], b[1..], c[1..]);
    }
  }

  lemma {:induction false} LexIrreflexive(a: seq<byte>)
    ensures !LexLess(a, a)
  {
    if a != [] {
      LexIrreflexive(a[1..]);
    }
  }
}
