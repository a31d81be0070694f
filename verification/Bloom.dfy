/** The Bloom filter of an SSTable (src/sstable/bloom.rs). The keyed hash is a parameter. */
module Blooms {
  import opened Bytes
  import opened Results
  import opened Varints

  /** The 64-bit hash of a key under a seed. */
  type HashFn = (ByteString, nat) -> U64

  // ---------- bits of a byte ----------

  /** `n & (1 << bit) != 0`, read off by halving. */
  predicate BitOf(n: nat, bit: nat) {
    if bit == 0 then n % 2 == 1 else BitOf(n / 2, bit - 1)
  }

  /** `n | (1 << bit)` */
  function WithBit(n: nat, bit: nat): nat {
    if bit == 0 then n / 2 * 2 + 1 else 2 * WithBit(n / 2, bit - 1) + n % 2
  }

  lemma {:induction false} BitOfIff(n: nat, bit: nat)
    ensures BitOf(n, bit) <==> (n / Pow2(bit)) % 2 == 1
  {
    if bit != 0 {
      BitOfIff(n / 2, bit - 1);
      DivTwice(n, 2, Pow2(bit - 1));
    }
  }

  lemma {:induction false} WithBitCorrect(n: nat, bit: nat, other: nat)
    ensures BitOf(WithBit(n, bit), other) <==> bit == other || BitOf(n, other)
  {
    if bit != 0 && other != 0 {
      WithBitCorrect(n / 2, bit - 1, other - 1);
    }
  }

  lemma {:induction false} WithBitFits(n: nat, bit: nat, width: nat)
    requires bit < width && n < Pow2(width)
    ensures WithBit(n, bit) < Pow2(width)
  {
    Halves(n, width);
    hide Pow2;
    if bit != 0 {
      WithBitFits(n / 2, bit - 1, width - 1);
    }
  }

  lemma Halves(n: nat, width: nat)
    requires width > 0 && n < Pow2(width)
    ensures Pow2(width) == 2 * Pow2(width - 1)
    ensures n / 2 < Pow2(width - 1)
    ensures n / 2 * 2 + 1 < Pow2(width)
    ensures n % 2 <= 1
  {
    var p := Pow2(width - 1);
    assert Pow2(width) == 2 * p;
    hide Pow2;
  }

  function ByteWithBit(b: Byte, bit: nat): Byte
    requires bit < 8
  {
    assert Pow2(8) == 0x100 by {
      assert Pow2(4) == 0x10;
    }
    WithBitFits(b, bit, 8);
    WithBit(b, bit)
  }

  // ---------- bit arrays ----------

  function BytesFor(numBits: nat): nat {
    (numBits + 7) / 8
  }

  predicate GetBit(bits: ByteString, pos: nat) {
    pos / 8 < |bits| && BitOf(bits[pos / 8], pos % 8)
  }

  function SetBit(bits: ByteString, pos: nat): (r: ByteString)
    ensures |r| == |bits|
  {
    if pos / 8 < |bits| then bits[pos / 8 := ByteWithBit(bits[pos / 8], pos % 8)] else bits
  }

  /** Setting a bit sets that bit, inside the array, and no other. */
  lemma GetAfterSet(bits: ByteString, pos: nat, q: nat)
    ensures GetBit(SetBit(bits, pos), q) <==> GetBit(bits, q) || (q == pos && pos / 8 < |bits|)
  {
    if pos / 8 < |bits| && q / 8 == pos / 8 {
      WithBitCorrect(bits[pos / 8], pos % 8, q % 8);
      assert q == pos <==> q % 8 == pos % 8;
    }
  }

  function SetAll(bits: ByteString, positions: seq<nat>): (r: ByteString)
    ensures |r| == |bits|
  {
    if positions == [] then bits
    else SetBit(SetAll(bits, positions[..|positions| - 1]), positions[|positions| - 1])
  }

  lemma {:induction false} GetAfterSetAll(bits: ByteString, positions: seq<nat>, q: nat)
    ensures GetBit(SetAll(bits, positions), q) <==> GetBit(bits, q) || (q in positions && q / 8 < |bits|)
  {
    if positions != [] {
      var n := |positions| - 1;
      GetAfterSetAll(bits, positions[..n], q);
      GetAfterSet(SetAll(bits, positions[..n]), positions[n], q);
      assert positions == positions[..n] + [positions[n]];
    }
  }

  // ---------- the filter ----------

  datatype Filter = Filter(bits: ByteString, numBits: nat, numHashes: U32) {
    /** The array has a byte for every bit, and the sizes fit their stored width. */
    predicate WellFormed() {
      1 <= numBits < 0x1_0000_0000 && |bits| == BytesFor(numBits)
    }
  }

  /** Double hashing in 64-bit wrapping arithmetic. */
  function Position(hash: HashFn, key: ByteString, i: nat, numBits: nat): (pos: nat)
    requires numBits > 0
    ensures pos < numBits
  {
    ((hash(key, 0) + (i * hash(key, 1)) % WORD) % WORD) % numBits
  }

  function Positions(hash: HashFn, key: ByteString, count: nat, numBits: nat): (ps: seq<nat>)
    requires numBits > 0
    ensures |ps| == count && forall p :: p in ps ==> p < numBits
  {
    seq(count, (i: nat) => Position(hash, key, i, numBits))
  }

  /** Position `i` is the first hash plus `i` times the second, in a 64-bit word, modulo the bits. */
  lemma PositionsExactly(hash: HashFn, key: ByteString, count: nat, numBits: nat, i: nat)
    requires numBits > 0 && i < count
    ensures Positions(hash, key, count, numBits)[i] ==
            ((hash(key, 0) + i * hash(key, 1)) % 0x1_0000_0000_0000_0000) % numBits
  {
    AddMod(hash(key, 0), i * hash(key, 1), WORD);
  }

  method HashKey(hash: HashFn, key: ByteString, count: nat, numBits: nat) returns (hashes: seq<nat>)
    requires numBits > 0
    ensures hashes == Positions(hash, key, count, numBits)
  {
    hashes := [];
    var h1, h2 := hash(key, 0), hash(key, 1);
    for i := 0 to count
      invariant hashes == Positions(hash, key, i, numBits)
    {
      var h := (h1 + (i * h2) % WORD) % WORD;
      hashes := hashes + [h % numBits];
    }
  }

  predicate Contains(hash: HashFn, f: Filter, key: ByteString)
    requires f.numBits > 0
  {
    forall p :: p in Positions(hash, key, f.numHashes, f.numBits) ==> GetBit(f.bits, p)
  }

  function AddKey(hash: HashFn, f: Filter, key: ByteString): Filter
    requires f.numBits > 0
  {
    f.(bits := SetAll(f.bits, Positions(hash, key, f.numHashes, f.numBits)))
  }

  function EmptyFilter(numBits: nat, numHashes: U32): Filter {
    Filter(Zeros(BytesFor(numBits)), numBits, numHashes)
  }

  function AddKeys(hash: HashFn, f: Filter, keys: seq<ByteString>): (r: Filter)
    requires f.numBits > 0
    ensures r.numBits == f.numBits && r.numHashes == f.numHashes && |r.bits| == |f.bits|
  {
    if keys == [] then f else AddKey(hash, AddKeys(hash, f, keys[..|keys| - 1]), keys[|keys| - 1])
  }

  /** A bit is set exactly when some added key hashes to it: positions always fall inside the
      array, and bits are never cleared. */
  lemma {:induction false} BitsAreKeyPositions(
    hash: HashFn, numBits: nat, numHashes: U32, keys: seq<ByteString>, q: nat)
    requires q < numBits
    ensures GetBit(AddKeys(hash, EmptyFilter(numBits, numHashes), keys).bits, q)
            <==> exists i :: 0 <= i < |keys| && q in Positions(hash, keys[i], numHashes, numBits)
  {
    hide Positions, Position;
    var empty := EmptyFilter(numBits, numHashes);
    if keys == [] {
      NoBits(q % 8);
      assert empty.bits[q / 8] == 0;
    } else {
      var n := |keys| - 1;
      var before := AddKeys(hash, empty, keys[..n]);
      BitsAreKeyPositions(hash, numBits, numHashes, keys[..n], q);
      GetAfterSetAll(before.bits, Positions(hash, keys[n], numHashes, numBits), q);
      assert forall i :: 0 <= i < n ==> keys[..n][i] == keys[i];
    }
  }

  lemma {:induction false} NoBits(bit: nat)
    ensures !BitOf(0, bit)
  {
    if bit != 0 {
      NoBits(bit - 1);
    }
  }

  /** A key is reported present exactly when every one of its positions belongs to an added key. */
  lemma ContainsExactly(hash: HashFn, numBits: nat, numHashes: U32, keys: seq<ByteString>, key: ByteString)
    requires numBits > 0
    ensures Contains(hash, AddKeys(hash, EmptyFilter(numBits, numHashes), keys), key)
            <==> forall p :: p in Positions(hash, key, numHashes, numBits) ==>
                   exists i :: 0 <= i < |keys| && p in Positions(hash, keys[i], numHashes, numBits)
  {
    forall p | p in Positions(hash, key, numHashes, numBits)
      ensures GetBit(AddKeys(hash, EmptyFilter(numBits, numHashes), keys).bits, p)
              <==> exists i :: 0 <= i < |keys| && p in Positions(hash, keys[i], numHashes, numBits)
    {
      BitsAreKeyPositions(hash, numBits, numHashes, keys, p);
    }
  }

  /** No false negatives. */
  lemma NeverLosesAKey(hash: HashFn, numBits: nat, numHashes: U32, keys: seq<ByteString>, i: nat)
    requires numBits > 0 && i < |keys|
    ensures Contains(hash, AddKeys(hash, EmptyFilter(numBits, numHashes), keys), keys[i])
  {
    ContainsExactly(hash, numBits, numHashes, keys, keys[i]);
  }

  // ---------- stored form ----------

  function EncodeFilter(f: Filter): ByteString {
    LittleEndian(f.numBits, 4) + LittleEndian(f.numHashes, 4) + f.bits
  }

  function DecodeFilter(data: ByteString): Result<Filter> {
    if data == [] then Ok(Filter([0xFF], 8, 1))
    else if |data| < 8 then Err(InvalidFormat)
    else
      var numBits := GetU32(data);
      var bits := data[8..];
      if |bits| != BytesFor(numBits) then Err(InvalidFormat)
      else Ok(Filter(bits, numBits, GetU32(data[4..])))
  }

  /** Where the parts of a stored filter are: the bit count, the hash count, and bit `q` of the filter in
      byte `8 + q / 8`. */
  lemma FilterLayout(f: Filter, q: nat)
    requires f.WellFormed() && q < f.numBits
    ensures var data := EncodeFilter(f);
            && |data| == 8 + (f.numBits + 7) / 8
            && LittleEndianValue(data[..4]) == f.numBits && LittleEndianValue(data[4..8]) == f.numHashes
            && (GetBit(f.bits, q) <==> (data[8 + q / 8] / Pow2(q % 8)) % 2 == 1)
  {
    hide LittleEndian, LittleEndianValue, BitOf;
    var data := EncodeFilter(f);
    U32RoundTrip(f.numBits);
    U32RoundTrip(f.numHashes);
    assert data[..4] == LittleEndian(f.numBits, 4) && data[4..8] == LittleEndian(f.numHashes, 4);
    assert data[8 + q / 8] == f.bits[q / 8];
    BitOfIff(f.bits[q / 8], q % 8);
  }

  lemma FilterRoundTrip(f: Filter)
    requires f.WellFormed()
    ensures DecodeFilter(EncodeFilter(f)) == Ok(f)
  {
    hide LittleEndian;
    StoredFilterReads(f);
  }

  lemma StoredFilterReads(f: Filter)
    requires f.numBits < 0x1_0000_0000 && |f.bits| == BytesFor(f.numBits)
    ensures DecodeFilter(EncodeFilter(f)) == Ok(f)
  {
    hide LittleEndian, LittleEndianValue;
    var data := EncodeFilter(f);
    U32RoundTrip(f.numBits);
    U32RoundTrip(f.numHashes);
    assert data[..4] == LittleEndian(f.numBits, 4);
    assert data[4..][..4] == LittleEndian(f.numHashes, 4);
    assert data[8..] == f.bits;
  }

  /** Any other bytes than a stored filter of that size, and the empty string, are rejected. */
  lemma FilterDecodesIff(data: ByteString, f: Filter)
    requires data != []
    ensures DecodeFilter(data) == Ok(f) <==>
            data == EncodeFilter(f) && f.numBits < 0x1_0000_0000 && |f.bits| == (f.numBits + 7) / 8
    ensures DecodeFilter(data).Err? ==> DecodeFilter(data).error == InvalidFormat
  {
    hide LittleEndian, LittleEndianValue;
    if DecodeFilter(data) == Ok(f) {
      LittleEndianUnique(data[..4]);
      LittleEndianUnique(data[4..][..4]);
      assert data == data[..4] + data[4..][..4] + data[8..];
    }
    if data == EncodeFilter(f) && f.numBits < 0x1_0000_0000 && |f.bits| == (f.numBits + 7) / 8 {
      StoredFilterReads(f);
    }
  }

  lemma {:induction false} AllOnes(width: nat, bit: nat)
    requires bit < width
    ensures BitOf(Pow2(width) - 1, bit)
  {
    var half := Pow2(width - 1);
    assert Pow2(width) == 2 * half;
    hide Pow2;
    assert (2 * half - 1) / 2 == half - 1 && (2 * half - 1) % 2 == 1;
    if bit != 0 {
      AllOnes(width - 1, bit - 1);
    }
  }

  /** An empty stored filter admits every key. */
  lemma EmptyStoredFilterAdmitsAll(hash: HashFn, key: ByteString)
    ensures Contains(hash, DecodeFilter([]).value, key)
  {
    var f := DecodeFilter([]).value;
    forall p: nat | p < 8 ensures BitOf(0xFF, p) {
      assert Pow2(8) == 0x100 by {
        assert Pow2(4) == 0x10;
      }
      AllOnes(8, p);
    }
  }

  /** Builds a filter in place. */
  class BloomFilterBuilder {
    const hash: HashFn
    const bits: array<Byte>
    const numBits: nat
    const numHashes: U32

    function State(): Filter
      reads bits
    {
      Filter(bits[..], numBits, numHashes)
    }

    constructor (hash: HashFn, numBits: nat, numHashes: U32)
      ensures this.hash == hash && this.numBits == numBits && this.numHashes == numHashes
      ensures fresh(bits) && State() == EmptyFilter(numBits, numHashes)
    {
      this.hash, this.numBits, this.numHashes := hash, numBits, numHashes;
      bits := new Byte[BytesFor(numBits)](i => 0);
    }

    method SetBitAt(pos: nat)
      modifies bits
      ensures bits[..] == SetBit(old(bits[..]), pos)
    {
      var byteIdx, bitIdx := pos / 8, pos % 8;
      if byteIdx < bits.Length {
        bits[byteIdx] := ByteWithBit(bits[byteIdx], bitIdx);
      }
    }

    method Add(key: ByteString)
      requires numBits > 0
      modifies bits
      ensures State() == AddKey(hash, old(State()), key)
    {
      var hashes := HashKey(hash, key, numHashes, numBits);
      for i := 0 to |hashes|
        invariant bits[..] == SetAll(old(bits[..]), hashes[..i])
      {
        assert hashes[..i + 1][..i] == hashes[..i];
        SetBitAt(hashes[i]);
      }
      assert hashes[..|hashes|] == hashes;
    }

    function Finish(): ByteString
      reads bits
    {
      EncodeFilter(State())
    }
  }
}
