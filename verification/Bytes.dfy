/** Byte strings: the lexicographic order of `bytes.Compare` and fixed-width big-endian integers. */
module Bytes {

  type Byte = b: int | 0 <= b < 256
  type Key = seq<Byte>

  const TWO_TO_64: int := 0x1_0000_0000_0000_0000
  type U64 = n: int | 0 <= n < 0x1_0000_0000_0000_0000

  /** `bytes.Compare(a, b) < 0`. */
  predicate Less(a: Key, b: Key) {
    if |b| == 0 then false
    else if |a| == 0 then true
    else a[0] < b[0] || (a[0] == b[0] && Less(a[1..], b[1..]))
  }

  /** `bytes.Compare(a, b) <= 0`. */
  predicate AtMost(a: Key, b: Key) {
    !Less(b, a)
  }

  lemma {:induction false} LessIrreflexive(a: Key)
    ensures !Less(a, a)
  {
    if a == [] {
    } else {
      LessIrreflexive(a[1..]);
    }
  }

  lemma {:induction false} LessTransitive(a: Key, b: Key, c: Key)
    requires Less(a, b) && Less(b, c)
    ensures Less(a, c)
  {
    if a != [] && a[0] == b[0] == c[0] {
      LessTransitive(a[1..], b[1..], c[1..]);
    }
  }

  lemma {:induction false} LessTotal(a: Key, b: Key)
    ensures Less(a, b) || a == b || Less(b, a)
  {
    if a != [] && b != [] && a[0] == b[0] {
      LessTotal(a[1..], b[1..]);
      if a[1..] == b[1..] {
        assert a == [a[0]] + a[1..] && b == [b[0]] + b[1..];
      }
    }
  }

  /** The strict order is asymmetric, total and transitive, in quantified form for proofs about sorted collections. */
  lemma LessIsTotalOrder()
    ensures forall a: Key :: !Less(a, a)
    ensures forall a: Key, b: Key :: Less(a, b) ==> !Less(b, a)
    ensures forall a: Key, b: Key {:trigger Less(a, b), Less(b, a)} :: Less(a, b) || a == b || Less(b, a)
    ensures forall a: Key, b: Key, c: Key {:trigger Less(a, b), Less(b, c)} :: Less(a, b) && Less(b, c) ==> Less(a, c)
    ensures forall a: Key, b: Key, c: Key {:trigger Less(b, a), Less(b, c)} :: !Less(b, a) && Less(b, c) ==> Less(a, c)
    ensures forall a: Key, b: Key, c: Key {:trigger Less(a, b), Less(c, b)} :: Less(a, b) && !Less(c, b) ==> Less(a, c)
  {
    forall a: Key ensures !Less(a, a) { LessIrreflexive(a); }
    forall a: Key, b: Key, c: Key | Less(a, b) && Less(b, c) ensures Less(a, c) { LessTransitive(a, b, c); }
    forall a: Key, b: Key ensures Less(a, b) || a == b || Less(b, a) { LessTotal(a, b); }
    forall a: Key, b: Key, c: Key | !Less(b, a) && Less(b, c) ensures Less(a, c) { LessTotal(a, b); }
    forall a: Key, b: Key, c: Key | Less(a, b) && !Less(c, b) ensures Less(a, c) { LessTotal(b, c); }
  }

  /** A shared prefix does not change the comparison. */
  lemma {:induction false} LessUnderPrefix(p: Key, a: Key, b: Key)
    ensures Less(p + a, p + b) == Less(a, b)
  {
    if p == [] {
      assert p + a == a && p + b == b;
    } else {
      assert (p + a)[1..] == p[1..] + a && (p + b)[1..] == p[1..] + b;
      LessUnderPrefix(p[1..], a, b);
    }
  }

  /** 256 to the power `w`: the number of values `w` bytes can hold. */
  function Pow256(w: nat): (p: nat)
    ensures p > 0
  {
    if w == 0 then 1 else 256 * Pow256(w - 1)
  }

  lemma EightBytesHoldU64()
    ensures Pow256(8) == TWO_TO_64
  {
    assert Pow256(2) == 0x1_0000;
    assert Pow256(4) == 0x1_0000_0000;
    assert Pow256(6) == 0x1_0000_0000_0000;
  }

  lemma FourBytesHoldU32()
    ensures Pow256(4) == 0x1_0000_0000
  {
    assert Pow256(2) == 0x1_0000;
  }

  /** The low `w` bytes of `n`, most significant first. */
  function BigEndian(n: nat, w: nat): (s: Key)
    ensures |s| == w
  {
    if w == 0 then [] else BigEndian(n / 256, w - 1) + [n % 256]
  }

  function FromBigEndian(s: Key): nat {
    if s == [] then 0 else 256 * FromBigEndian(s[..|s| - 1]) + s[|s| - 1]
  }

  lemma {:induction false} BigEndianRoundTrip(n: nat, w: nat)
    requires n < Pow256(w)
    ensures FromBigEndian(BigEndian(n, w)) == n
  {
    if w == 0 {
    } else {
      BigEndianRoundTrip(n / 256, w - 1);
      assert BigEndian(n, w)[..w - 1] == BigEndian(n / 256, w - 1);
    }
  }

  /** Smaller numbers encode to smaller strings, whatever follows the encodings. */
  lemma {:induction false} BigEndianOrder(n: nat, m: nat, w: nat, x: Key, y: Key)
    requires n < m < Pow256(w)
    ensures Less(BigEndian(n, w) + x, BigEndian(m, w) + y)
  {
    var hi, hi' := BigEndian(n / 256, w - 1), BigEndian(m / 256, w - 1);
    assert BigEndian(n, w) + x == hi + ([n % 256] + x);
    assert BigEndian(m, w) + y == hi' + ([m % 256] + y);
    if n / 256 < m / 256 {
      BigEndianOrder(n / 256, m / 256, w - 1, [n % 256] + x, [m % 256] + y);
    } else {
      LessUnderPrefix(hi, [n % 256] + x, [m % 256] + y);
    }
  }

  /** A string comes before its extensions. */
  lemma {:induction false} LessThanExtension(a: Key, b: Key)
    ensures Less(a, a + b) <==> b != []
  {
    if a == [] {
      assert a + b == b;
    } else {
      assert (a + b)[1..] == a[1..] + b;
      LessThanExtension(a[1..], b);
    }
  }
}
