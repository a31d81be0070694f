/** Variable-length integers of a block (src/sstable/block.rs, src/sstable/reader.rs): unsigned
    LEB128, section 7.6 of DWARF version 4, limited to 64 bits. */
module Varints {
  import opened Bytes
  import opened Results

  function Pow2(n: nat): (p: nat)
    ensures p >= 1
  {
    if n == 0 then 1 else 2 * Pow2(n - 1)
  }

  const WORD: nat := 0x1_0000_0000_0000_0000

  lemma Pow2Add7(n: nat)
    ensures Pow2(n + 7) == 128 * Pow2(n)
  {
    assert Pow2(n + 2) == 4 * Pow2(n);
    assert Pow2(n + 4) == 4 * Pow2(n + 2);
    assert Pow2(n + 6) == 4 * Pow2(n + 4);
  }

  lemma {:induction false} Pow2Mono(a: nat, b: nat)
    requires a <= b
    ensures Pow2(a) <= Pow2(b)
  {
    if a < b {
      Pow2Mono(a, b - 1);
    }
  }

  lemma Pow2Values()
    ensures Pow2(56) == 0x100_0000_0000_0000 && Pow2(63) == 0x8000_0000_0000_0000 && Pow2(64) == WORD
  {
    Pow2Add7(0);
    Pow2Add7(7);
    Pow2Add7(14);
    Pow2Add7(21);
    Pow2Add7(28);
    Pow2Add7(35);
    Pow2Add7(42);
    Pow2Add7(49);
    Pow2Add7(56);
  }

  // ---------- encoding ----------

  function VarintBytes(value: nat): (bytes: ByteString)
    ensures |bytes| >= 1
  {
    if value < 0x80 then [value] else [value % 0x80 + 0x80] + VarintBytes(value / 0x80)
  }

  function Pow128(n: nat): (p: nat)
    ensures p >= 1
  {
    if n == 0 then 1 else 128 * Pow128(n - 1)
  }

  /** Byte `i` holds digit `i` in base 128, with the high bit on all bytes but the last, and there are as
      many bytes as digits. */
  lemma {:induction false} VarintDigits(value: nat, i: nat)
    requires i < |VarintBytes(value)|
    ensures var n := |VarintBytes(value)|;
            && VarintBytes(value)[i] == (value / Pow128(i)) % 128 + (if i + 1 < n then 128 else 0)
            && value < Pow128(n) && (n > 1 ==> value >= Pow128(n - 1))
    decreases value
  {
    if value >= 0x80 {
      var high := value / 0x80;
      VarintDigits(high, if i > 0 then i - 1 else 0);
      if i > 0 {
        DivTwice(value, 128, Pow128(i - 1));
      }
    }
  }

  lemma VarintLength(n: nat)
    requires n < 0x20_0000
    ensures 1 <= |VarintBytes(n)| <= 3 && (n < 0x80 ==> |VarintBytes(n)| == 1)
  {
    if n >= 0x80 {
      assert VarintBytes(n) == [n % 0x80 + 0x80] + VarintBytes(n / 0x80);
      if n >= 0x4000 {
        var m := n / 0x80;
        assert VarintBytes(m) == [m % 0x80 + 0x80] + VarintBytes(m / 0x80);
      }
    }
  }

  /** Appends the seven-bit groups, lowest first, all but the last with the high bit set. */
  method EncodeVarint(buf: ByteString, value: U64) returns (out: ByteString)
    ensures out == buf + VarintBytes(value)
  {
    out := buf;
    var left: nat := value;
    while left >= 0x80
      invariant out + VarintBytes(left) == buf + VarintBytes(value)
    {
      Regroup(out, [left % 0x80 + 0x80], VarintBytes(left / 0x80));
      out := out + [left % 0x80 + 0x80];
      left := left / 0x80;
    }
    out := out + [left];
  }

  // ---------- decoding ----------

  /** Seven bits moved to position `shift` of a 64-bit word; bits past the top are lost. */
  function ShiftedGroup(byte: Byte, shift: nat): nat {
    ((byte % 0x80) * Pow2(shift)) % WORD
  }

  /** `acc` holds the bits below `shift`, so the bitwise or with the shifted group is their sum. */
  function DecodeFrom(buf: ByteString, acc: nat, shift: nat): (r: Result<(nat, ByteString)>)
    ensures r.Ok? ==> |r.value.1| < |buf|
    decreases |buf|
  {
    if buf == [] then Err(CorruptedData)
    else
      var result := acc + ShiftedGroup(buf[0], shift);
      if buf[0] < 0x80 then Ok((result, buf[1..]))
      else if shift + 7 >= 64 then Err(CorruptedData)
      else DecodeFrom(buf[1..], result, shift + 7)
  }

  function Decode(buf: ByteString): (r: Result<(nat, ByteString)>)
    ensures r.Ok? ==> |r.value.1| < |buf|
  {
    DecodeFrom(buf, 0, 0)
  }

  method DecodeVarint(buf: ByteString) returns (r: Result<(nat, ByteString)>)
    ensures r == Decode(buf)
  {
    var cursor := buf;
    var result: nat, shift: nat := 0, 0;
    while true
      invariant DecodeFrom(cursor, result, shift) == Decode(buf)
      decreases |cursor|
    {
      if cursor == [] {
        return Err(CorruptedData);
      }
      var byte := cursor[0];
      cursor := cursor[1..];
      result := result + ShiftedGroup(byte, shift);
      if byte < 0x80 {
        break;
      }
      shift := shift + 7;
      if shift >= 64 {
        return Err(CorruptedData);
      }
    }
    return Ok((result, cursor));
  }

  /** The number that groups of seven bits make up, lowest first. */
  function GroupsValue(groups: ByteString): nat {
    if groups == [] then 0 else groups[0] % 128 + 128 * GroupsValue(groups[1..])
  }

  /** A string decodes if and only if one of its first ten bytes ends a varint. */
  lemma {:induction false} DecodesIff(buf: ByteString, acc: nat, shift: nat)
    requires shift < 64
    ensures DecodeFrom(buf, acc, shift).Ok? <==> exists i :: 0 <= i < |buf| && shift + 7 * i < 64 && buf[i] < 128
    decreases |buf|
  {
    if buf != [] && buf[0] >= 128 && shift + 7 < 64 {
      var rest := buf[1..];
      DecodesIff(rest, acc + ShiftedGroup(buf[0], shift), shift + 7);
      assert forall i :: 0 <= i < |rest| ==> rest[i] == buf[i + 1];
      if i :| 0 <= i < |buf| && shift + 7 * i < 64 && buf[i] < 128 {
        assert rest[i - 1] == buf[i];
      }
    }
  }

  /** Any groups that end in the last byte and fit the word decode to their number, padded or not. */
  lemma {:induction false} DecodesToGroups(groups: ByteString, acc: nat, shift: nat, rest: ByteString)
    requires groups != [] && groups[|groups| - 1] < 128
    requires forall i :: 0 <= i < |groups| - 1 ==> groups[i] >= 128
    requires shift + 7 * (|groups| - 1) < 64 && GroupsValue(groups) * Pow2(shift) < WORD
    ensures DecodeFrom(groups + rest, acc, shift) == Ok((acc + GroupsValue(groups) * Pow2(shift), rest))
    decreases groups
  {
    hide Pow2, ShiftedGroup;
    var p, low, others := Pow2(shift), groups[0] % 128, groups[1..];
    SplitProduct(low, GroupsValue(others), p);
    GroupValue(groups[0], shift);
    assert (groups + rest)[1..] == others + rest;
    if others != [] {
      Pow2Add7(shift);
      DecodesToGroups(others, acc + low * p, shift + 7, rest);
    }
  }

  /** A varint that ends too early or runs too long is corrupted data. */
  lemma {:induction false} VarintErrors(buf: ByteString, acc: nat, shift: nat)
    ensures DecodeFrom(buf, acc, shift).Err? ==> DecodeFrom(buf, acc, shift).error == CorruptedData
    decreases |buf|
  {
    if buf != [] {
      VarintErrors(buf[1..], acc + ShiftedGroup(buf[0], shift), shift + 7);
    }
  }

  // ---------- round trip ----------

  lemma {:induction false} DecodeFromEncoded(value: nat, acc: nat, shift: nat, rest: ByteString)
    requires shift < 64 && value * Pow2(shift) < WORD
    ensures DecodeFrom(VarintBytes(value) + rest, acc, shift) == Ok((acc + value * Pow2(shift), rest))
    decreases value
  {
    hide Pow2, ShiftedGroup;
    var p := Pow2(shift);
    if value < 0x80 {
      GroupValue(value, shift);
      assert ([value] + rest)[1..] == rest;
    } else {
      var low, high := value % 0x80, value / 0x80;
      SplitProduct(low, high, p);
      Pow2Add7(shift);
      RoomForGroup(value, shift);
      GroupValue(low + 0x80, shift);
      DecodeFromEncoded(high, acc + low * p, shift + 7, rest);
      FirstGroup(value, rest);
    }
  }

  /** The first byte carries the lowest seven bits, and the rest encodes the others. */
  lemma FirstGroup(value: nat, rest: ByteString)
    requires value >= 0x80
    ensures var bytes := VarintBytes(value) + rest;
            bytes[0] == value % 0x80 + 0x80 && bytes[1..] == VarintBytes(value / 0x80) + rest
  {
    VarintUnfold(value);
    hide VarintBytes;
    FrontOf(value % 0x80 + 0x80, VarintBytes(value / 0x80), rest);
  }

  lemma VarintUnfold(value: nat)
    requires value >= 0x80
    ensures VarintBytes(value) == [value % 0x80 + 0x80] + VarintBytes(value / 0x80)
  {}

  lemma FrontOf(b: Byte, tail: ByteString, rest: ByteString)
    ensures ([b] + tail + rest)[0] == b && ([b] + tail + rest)[1..] == tail + rest
  {}

  lemma SplitProduct(low: nat, high: nat, p: nat)
    ensures (low + 0x80 * high) * p == low * p + high * (0x80 * p)
    ensures high * (0x80 * p) >= 0 && low * p >= 0
  {}

  /** A value of at least two groups that fits at a position leaves room for the next position. */
  lemma RoomForGroup(value: nat, shift: nat)
    requires shift < 64 && 0x80 <= value && value * Pow2(shift) < WORD
    ensures shift + 7 < 64
  {
    MulMono(0x80, value, Pow2(shift));
    if shift >= 57 {
      Pow2Mono(57, shift);
      HighShift();
    }
  }

  lemma HighShift()
    ensures 0x80 * Pow2(57) == WORD
  {
    Pow2Values();
    Pow2Add7(57);
  }

  lemma GroupValue(byte: Byte, shift: nat)
    requires (byte % 0x80) * Pow2(shift) < WORD
    ensures ShiftedGroup(byte, shift) == (byte % 0x80) * Pow2(shift)
  {
    hide Pow2;
    SmallMod((byte % 0x80) * Pow2(shift));
  }

  lemma SmallMod(x: nat)
    requires x < WORD
    ensures x % WORD == x
  {}

  lemma MulMono(a: nat, b: nat, p: nat)
    requires a <= b
    ensures a * p <= b * p
  {
    assert b * p == a * p + (b - a) * p;
  }

  /** Decoding inverts encoding on every 64-bit value, whatever follows. */
  lemma VarintRoundTrip(value: U64, rest: ByteString)
    ensures Decode(VarintBytes(value) + rest) == Ok((value, rest))
  {
    DecodeFromEncoded(value, 0, 0, rest);
  }

  /** On any bytes, a decoded value fits in 64 bits, so the or above never carries. */
  lemma {:induction false} DecodeFits(buf: ByteString, acc: nat, shift: nat)
    requires shift < 64 && shift % 7 == 0 && acc < Pow2(shift)
    requires DecodeFrom(buf, acc, shift).Ok?
    ensures DecodeFrom(buf, acc, shift).value.0 < WORD
    decreases |buf|
  {
    var bits := buf[0] % 0x80;
    Pow2Values();
    if shift == 63 {
      GroupAtTop(bits);
    } else {
      GroupBelowTop(bits, shift);
      GroupValue(buf[0], shift);
      if buf[0] >= 0x80 {
        DecodeFits(buf[1..], acc + bits * Pow2(shift), shift + 7);
      }
    }
  }

  lemma GroupBelowTop(bits: nat, shift: nat)
    requires bits < 0x80 && shift <= 56
    ensures bits * Pow2(shift) + Pow2(shift) <= Pow2(shift + 7) <= Pow2(63)
  {
    Pow2Mono(shift + 7, 63);
    Pow2Add7(shift);
    Pow2Values();
    hide Pow2;
    var p := Pow2(shift);
    MulMono(bits + 1, 0x80, p);
    assert (bits + 1) * p == bits * p + p;
  }

  lemma GroupAtTop(bits: nat)
    requires bits < 0x80
    ensures (bits * Pow2(63)) % WORD <= Pow2(63)
  {
    Pow2Values();
    assert bits * Pow2(63) == (bits / 2) * WORD + (bits % 2) * Pow2(63);
    DivModUnique(bits * Pow2(63), WORD, bits / 2, (bits % 2) * Pow2(63));
  }
}
