/** Byte strings: the `Vec<u8>` and `&[u8]` of the engine, ordered as Rust orders slices,
    and the fixed-width little-endian integers of the `bytes` crate. */
module Bytes {

  type Byte = b: int | 0 <= b < 0x100
  type U16 = n: int | 0 <= n < 0x1_0000
  type U32 = n: int | 0 <= n < 0x1_0000_0000
  type U64 = n: int | 0 <= n < 0x1_0000_0000_0000_0000

  type ByteString = seq<Byte>

  // ---------- the order on keys ----------

  /** Strict lexicographic order; a proper prefix comes first. */
  predicate Less(a: ByteString, b: ByteString) {
    b != [] && (a == [] || a[0] < b[0] || (a[0] == b[0] && Less(a[1..], b[1..])))
  }

  predicate AtMost(a: ByteString, b: ByteString) {
    a == b || Less(a, b)
  }

  /** The first difference is at `n`: there `a` ends, or has the smaller byte. */
  ghost predicate LessAt(a: ByteString, b: ByteString, n: nat) {
    n <= |a| && n < |b| && a[..n] == b[..n] && (n == |a| || a[n] < b[n])
  }

  /** The order is decided by the first byte in which the strings differ. */
  lemma {:induction false} LessIff(a: ByteString, b: ByteString)
    ensures Less(a, b) <==> exists n: nat :: LessAt(a, b, n)
  {
    LessAtLater(a, b);
    assert LessAt(a, b, 0) <==> b != [] && (a == [] || a[0] < b[0]);
    if a != [] && b != [] && a[0] == b[0] {
      LessIff(a[1..], b[1..]);
      if n: nat :| LessAt(a[1..], b[1..], n) {
        assert LessAt(a, b, n + 1);
      }
    }
  }

  /** A difference after the first byte is one of the rests. */
  lemma LessAtLater(a: ByteString, b: ByteString)
    ensures forall n: nat :: n > 0 ==>
              (LessAt(a, b, n) <==> a != [] && b != [] && a[0] == b[0] && LessAt(a[1..], b[1..], n - 1))
  {
    forall n: nat | n > 0
      ensures LessAt(a, b, n) <==> a != [] && b != [] && a[0] == b[0] && LessAt(a[1..], b[1..], n - 1)
    {
      if 0 < n <= |a| && n < |b| {
        assert a[..n] == [a[0]] + a[1..][..n - 1] && b[..n] == [b[0]] + b[1..][..n - 1];
      }
    }
  }

  lemma {:induction false} LessIrreflexive(a: ByteString)
    ensures !Less(a, a)
  {
    if a != [] {
      LessIrreflexive(a[1..]);
    }
  }

  lemma {:induction false} LessTransitive(a: ByteString, b: ByteString, c: ByteString)
    requires Less(a, b) && Less(b, c)
    ensures Less(a, c)
  {
    if a != [] && a[0] == b[0] && b[0] == c[0] {
      LessTransitive(a[1..], b[1..], c[1..]);
    }
  }

  /** Exactly one of `a < b`, `a == b` and `b < a` holds. */
  lemma {:induction false} LessTrichotomy(a: ByteString, b: ByteString)
    ensures Less(a, b) || a == b || Less(b, a)
    ensures !(Less(a, b) && Less(b, a))
    ensures a == b ==> !Less(a, b)
  {
    LessIrreflexive(a);
    if a != [] && b != [] && a[0] == b[0] {
      LessTrichotomy(a[1..], b[1..]);
      assert a == [a[0]] + a[1..] && b == [b[0]] + b[1..];
    }
  }

  lemma LessAtMostTransitive(a: ByteString, b: ByteString, c: ByteString)
    requires (Less(a, b) && AtMost(b, c)) || (AtMost(a, b) && Less(b, c))
    ensures Less(a, c)
  {
    if a != b && b != c {
      LessTransitive(a, b, c);
    }
  }

  // ---------- little-endian integers ----------

  function Pow256(width: nat): (p: nat)
    ensures p >= 1
  {
    if width == 0 then 1 else 256 * Pow256(width - 1)
  }

  lemma Pow256Values()
    ensures Pow256(1) == 0x100 && Pow256(2) == 0x1_0000 && Pow256(4) == 0x1_0000_0000
    ensures Pow256(8) == 0x1_0000_0000_0000_0000
  {
    assert Pow256(3) == 0x100_0000;
    assert Pow256(6) == 0x1_0000_0000_0000 by {
      assert Pow256(5) == 0x100_0000_0000;
    }
  }

  /** The low `width` bytes of `n`, least significant first: what `put_uN_le(n as uN)` appends. */
  function LittleEndian(n: nat, width: nat): (bs: ByteString)
    ensures |bs| == width
  {
    if width == 0 then [] else [n % 256] + LittleEndian(n / 256, width - 1)
  }

  /** What `get_uN_le` reads from N / 8 bytes. */
  function LittleEndianValue(bs: ByteString): (n: nat)
    ensures n < Pow256(|bs|)
  {
    if bs == [] then 0
    else
      var high := LittleEndianValue(bs[1..]);
      assert 256 * high + 256 <= 256 * Pow256(|bs| - 1);
      bs[0] + 256 * high
  }

  /** Reading back what was written gives the number modulo the width: the cast to `uN` truncates. */
  lemma {:induction false} LittleEndianTruncates(n: nat, width: nat)
    ensures LittleEndianValue(LittleEndian(n, width)) == n % Pow256(width)
  {
    if width == 0 {
    } else {
      var p := Pow256(width - 1);
      LittleEndianTruncates(n / 256, width - 1);
      assert LittleEndian(n, width)[1..] == LittleEndian(n / 256, width - 1);
      ModSplit(n, p);
    }
  }

  lemma ModSplit(n: nat, p: nat)
    requires p >= 1
    ensures n % (256 * p) == n % 256 + 256 * ((n / 256) % p)
  {
    var m := n / 256;
    var q := m / p;
    var r := n % 256 + 256 * (m % p);
    assert m == p * q + m % p;
    assert n == 256 * m + n % 256;
    assert n == (256 * p) * q + r by {
      assert 256 * (p * q) == (256 * p) * q;
    }
    assert m % p <= p - 1;
    assert 0 <= r < 256 * p;
    DivModUnique(n, 256 * p, q, r);
  }

  lemma DivModUnique(n: int, d: int, q: int, r: int)
    requires d > 0 && 0 <= r < d && n == d * q + r
    ensures n / d == q && n % d == r
  {
    var t := q - n / d;
    assert d * q == d * (n / d) + d * t;
    assert d * t == n % d - r;
    MulOutside(d, t);
  }

  lemma MulOutside(d: int, t: int)
    requires d >= 0
    ensures t >= 1 ==> d * t >= d
    ensures t <= -1 ==> d * t <= -d
  {
    if t >= 1 {
      assert d * t == d + d * (t - 1);
    } else if t <= -1 {
      assert d * t == -d + d * (t + 1);
    }
  }

  /** Byte `i` is digit `i` of the number in base 256. */
  lemma {:induction false} LittleEndianDigits(n: nat, width: nat, i: nat)
    requires i < width
    ensures LittleEndian(n, width)[i] == (n / Pow256(i)) % 256
  {
    if i > 0 {
      LittleEndianDigits(n / 256, width - 1, i - 1);
      DivTwice(n, 256, Pow256(i - 1));
    }
  }

  lemma DivTwice(n: nat, a: nat, p: nat)
    requires a >= 1 && p >= 1
    ensures a * p >= 1 && n / a / p == n / (a * p)
  {
    var m := n / a;
    ScaledRemainder(a, p, m / p, m % p, n % a);
    DivModUnique(n, a * p, m / p, a * (m % p) + n % a);
  }

  lemma ScaledRemainder(a: nat, p: nat, q: nat, r: nat, low: nat)
    requires r < p && low < a
    ensures a * (p * q + r) + low == (a * p) * q + (a * r + low)
    ensures 0 <= a * r + low < a * p
  {
    assert a * p == a * r + a * (p - r);
    MulOutside(a, p - r);
  }

  /** Reducing a summand first does not change a sum modulo `w`. */
  lemma AddMod(a: nat, b: nat, w: nat)
    requires w >= 1
    ensures (a + b % w) % w == (a + b) % w
  {
    var r := a + b % w;
    assert b == w * (b / w) + b % w && r == w * (r / w) + r % w;
    assert w * (b / w + r / w) == w * (b / w) + w * (r / w);
    DivModUnique(a + b, w, b / w + r / w, r % w);
  }

  /** Writing a number that was read gives the bytes read. */
  lemma {:induction false} LittleEndianUnique(bs: ByteString)
    ensures LittleEndian(LittleEndianValue(bs), |bs|) == bs
  {
    if bs != [] {
      var high := LittleEndianValue(bs[1..]);
      LittleEndianUnique(bs[1..]);
      DivModUnique(LittleEndianValue(bs), 256, high, bs[0]);
      assert bs == [bs[0]] + bs[1..];
    }
  }

  /** A number that fits survives the round trip. */
  lemma LittleEndianRoundTrip(n: nat, width: nat)
    requires n < Pow256(width)
    ensures LittleEndianValue(LittleEndian(n, width)) == n
  {
    LittleEndianTruncates(n, width);
    DivModUnique(n, Pow256(width), 0, n);
  }

  lemma U16RoundTrip(n: U16)
    ensures LittleEndianValue(LittleEndian(n, 2)) == n
  {
    Pow256Values();
    LittleEndianRoundTrip(n, 2);
  }

  lemma U32RoundTrip(n: U32)
    ensures LittleEndianValue(LittleEndian(n, 4)) == n
  {
    Pow256Values();
    LittleEndianRoundTrip(n, 4);
  }

  lemma U64RoundTrip(n: U64)
    ensures LittleEndianValue(LittleEndian(n, 8)) == n
  {
    Pow256Values();
    LittleEndianRoundTrip(n, 8);
  }

  /** `get_u16_le`, `get_u32_le` and `get_u64_le` on the front of `data`. */
  function GetU16(data: ByteString): (n: U16)
    requires |data| >= 2
  {
    Pow256Values();
    LittleEndianValue(data[..2])
  }

  function GetU32(data: ByteString): (n: U32)
    requires |data| >= 4
  {
    Pow256Values();
    LittleEndianValue(data[..4])
  }

  function GetU64(data: ByteString): (n: U64)
    requires |data| >= 8
  {
    Pow256Values();
    LittleEndianValue(data[..8])
  }

  // ---------- cutting a string built from parts ----------

  lemma TakeDrop<T>(a: seq<T>, b: seq<T>)
    ensures (a + b)[..|a|] == a && (a + b)[|a|..] == b
  {}

  lemma Regroup<T>(a: seq<T>, b: seq<T>, c: seq<T>)
    ensures a + (b + c) == (a + b) + c
  {}

  lemma TakeWithin<T>(a: seq<T>, b: seq<T>, k: nat)
    requires k <= |b|
    ensures (a + b)[..|a| + k] == a + b[..k]
  {}

  lemma CutTwice<T>(s: seq<T>, from: nat, upTo: nat)
    requires from <= upTo <= |s|
    ensures s[..from] + s[from..upTo] == s[..upTo]
    ensures s[from..upTo] + s[upTo..] == s[from..]
    ensures s[..from] + (s[from..upTo] + s[upTo..]) == s
  {}

  function Zeros(n: nat): (z: ByteString)
    ensures |z| == n
  {
    seq(n, i => 0)
  }
}
