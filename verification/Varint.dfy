/** Base-128 varints of 32-bit values. */
module Varint {
  import opened Arithmetic

  // "Base 128 Varints" of the Protocol Buffers Encoding specification. Masks and shifts are written as remainders and
  // quotients by 128.

  type Byte = b: int | 0 <= b < 256

  const UINT32_LIMIT := 0x1_0000_0000

  type U32 = v: int | 0 <= v < 0x1_0000_0000

  predicate More(b: Byte) { b >= 128 }

  /** What the bytes stand for: their low seven bits are digits, the least significant one first. */
  function DigitSum(bytes: seq<Byte>): nat {
    if bytes == [] then 0 else bytes[0] % 128 + 128 * DigitSum(bytes[1..])
  }

  /** How many leading bytes announce another one. */
  function Continued(bytes: seq<Byte>): (c: nat)
    ensures c <= |bytes|
  {
    if bytes == [] || !More(bytes[0]) then 0 else 1 + Continued(bytes[1..])
  }

  /** The bytes are one varint: all but the last announce another one. */
  predicate IsVarint(bytes: seq<Byte>) { bytes != [] && Continued(bytes) == |bytes| - 1 }

  datatype Decoded = Value(value: U32, rest: seq<Byte>) | EndOfFile | TooLarge

  /** What decoding must report: a varint of at most five bytes whose digit sum fits 32 bits. */
  function Decode(bytes: seq<Byte>): (d: Decoded)
    ensures d.Value? ==> |d.rest| < |bytes|
  {
    var c := Continued(bytes);
    if c <= 4 && c == |bytes| then EndOfFile
    else if c > 4 || DigitSum(bytes[..c + 1]) >= UINT32_LIMIT then TooLarge
    else Value(DigitSum(bytes[..c + 1]), bytes[c + 1..])
  }

  function Encode(value: nat): seq<Byte> {
    if value < 128 then [value] else [128 + value % 128] + Encode(value / 128)
  }

  // ----- properties -----

  lemma {:induction false} EncodeIsVarint(value: nat)
    ensures IsVarint(Encode(value)) && DigitSum(Encode(value)) == value
  {
    if value >= 128 {
      EncodeIsVarint(value / 128);
      assert Encode(value)[1..] == Encode(value / 128);
    } else {
      assert [value][1..] == [];
    }
  }

  /** Values below the `n`-th power of 128 take at most `n` bytes. */
  lemma {:induction false} EncodeLength(value: nat, n: nat)
    requires n >= 1 && value < Power128(n)
    ensures |Encode(value)| <= n
  {
    if value >= 128 {
      assert n > 1;
      EncodeLength(value / 128, n - 1);
    }
  }

  function Power128(n: nat): nat { if n == 0 then 1 else 128 * Power128(n - 1) }

  lemma {:induction false} Regroup(a: nat, b: nat, q: nat, r: nat, s: nat)
    ensures a * (b * q + r) + s == (a * b) * q + (a * r + s)
  {
    assert a * (b * q) == (a * b) * q;
    assert a * (b * q + r) == a * (b * q) + a * r;
  }

  lemma {:induction false} SmallRest(a: nat, b: nat, r: nat, s: nat)
    requires r < b && s < a
    ensures a * r + s < a * b
  {
    TimesMonotone(a, r + 1, b);
    assert a * (r + 1) == a * r + a;
  }

  lemma {:induction false} QuotientOfQuotient(v: nat, a: nat, b: nat)
    requires a > 0 && b > 0
    ensures a * b > 0 && v / a / b == v / (a * b)
  {
    var p, s := v / a, v % a;
    var q, r := p / b, p % b;
    assert v == a * p + s;
    assert p == b * q + r;
    Regroup(a, b, q, r, s);
    SmallRest(a, b, r, s);
    QuotientIs(v, a * b, q, a * r + s);
  }

  lemma {:induction false} QuotientIs(v: nat, d: nat, q: nat, r: nat)
    requires d > 0 && v == d * q + r && r < d
    ensures v / d == q
  {
    var p := v / d;
    if p < q { TimesMonotone(d, p + 1, q); }
    if p > q { TimesMonotone(d, q + 1, p); }
  }

  /** Byte `i` holds digit `i` of the value to base 128, and its high bit says that it is not the last. */
  lemma {:induction false} EncodedByte(value: nat, i: nat)
    requires i < |Encode(value)|
    ensures Power128(i) > 0
    ensures Encode(value)[i] == value / Power128(i) % 128 + if i < |Encode(value)| - 1 then 128 else 0
  {
    if i > 0 {
      EncodedByte(value / 128, i - 1);
      QuotientOfQuotient(value, 128, Power128(i - 1));
    }
  }

  /** Every 32-bit value takes at most five bytes. */
  lemma {:induction false} AtMostFiveBytes(value: U32)
    ensures |Encode(value)| <= 5
  {
    assert Power128(5) == 128 * (128 * (128 * (128 * (128 * Power128(0)))));
    EncodeLength(value, 5);
  }

  /** No varint for the same value is shorter. */
  lemma {:induction false} EncodeIsShortest(bytes: seq<Byte>)
    requires IsVarint(bytes)
    ensures |Encode(DigitSum(bytes))| <= |bytes|
  {
    var v := DigitSum(bytes);
    if More(bytes[0]) {
      EncodeIsShortest(bytes[1..]);
      if v >= 128 { assert v / 128 == DigitSum(bytes[1..]); }
    } else {
      assert bytes[1..] == [];
    }
  }

  lemma {:induction false} ContinuedConcat(a: seq<Byte>, b: seq<Byte>)
    requires Continued(a) < |a|
    ensures Continued(a + b) == Continued(a)
  {
    if More(a[0]) {
      assert (a + b)[1..] == a[1..] + b;
      ContinuedConcat(a[1..], b);
    }
  }

  /** Decoding an encoded value gives the value back and leaves what follows it. */
  lemma {:induction false} RoundTrip(value: U32, rest: seq<Byte>)
    ensures Decode(Encode(value) + rest) == Value(value, rest)
  {
    var bytes := Encode(value);
    EncodeIsVarint(value);
    AtMostFiveBytes(value);
    ContinuedConcat(bytes, rest);
    assert (bytes + rest)[..|bytes|] == bytes && (bytes + rest)[|bytes|..] == rest;
  }

  /** Bytes after a decoded value, or after a malformed one, make no difference. */
  lemma {:induction false} DecodeConcat(a: seq<Byte>, b: seq<Byte>)
    ensures Decode(a).Value? ==> Decode(a + b) == Value(Decode(a).value, Decode(a).rest + b)
    ensures Decode(a).TooLarge? ==> Decode(a + b).TooLarge?
  {
    var c := Continued(a);
    if c < |a| {
      ContinuedConcat(a, b);
      assert (a + b)[..c + 1] == a[..c + 1] && (a + b)[c + 1..] == a[c + 1..] + b;
    } else {
      ContinuedAtLeast(a, b);
    }
  }

  lemma {:induction false} ContinuedAtLeast(a: seq<Byte>, b: seq<Byte>)
    requires Continued(a) == |a|
    ensures Continued(a + b) == |a| + Continued(b)
  {
    if a == [] {
      assert a + b == b;
    } else {
      assert (a + b)[1..] == a[1..] + b;
      ContinuedAtLeast(a[1..], b);
    }
  }

  // ----- the loops -----

  method EncodeTo(writer: seq<Byte>, value: U32) returns (writer': seq<Byte>)
    ensures writer' == writer + Encode(value)
  {
    var left: nat := value / 128;
    var bits: Byte := value % 128;
    writer' := writer;
    while left > 0
      invariant 0 <= bits < 128
      invariant writer' + Encode(bits + 128 * left) == writer + Encode(value)
      decreases left
    {
      assert Encode(bits + 128 * left) == [128 + bits] + Encode(left);
      writer' := writer' + [128 + bits];
      bits := left % 128;
      left := left / 128;
    }
    writer' := writer' + [bits];
  }

  /** The weight of digit `k`. */
  function Weight(k: nat): nat
    requires k <= 5
  {
    match k
    case 0 => 1
    case 1 => 0x80
    case 2 => 0x4000
    case 3 => 0x20_0000
    case 4 => 0x1000_0000
    case _ => 0x8_0000_0000
  }

  lemma {:induction false} NextDigit(bytes: seq<Byte>, k: nat)
    requires k < |bytes| && k <= Continued(bytes)
    ensures More(bytes[k]) <==> k < Continued(bytes)
  {
    if k > 0 { NextDigit(bytes[1..], k - 1); }
  }

  lemma {:induction false} DigitSumSnoc(bytes: seq<Byte>, b: Byte)
    requires |bytes| <= 4
    ensures DigitSum(bytes + [b]) == DigitSum(bytes) + Weight(|bytes|) * (b % 128)
  {
    if bytes == [] {
      assert [] + [b] == [b] && [b][1..] == [];
    } else {
      assert (bytes + [b])[1..] == bytes[1..] + [b];
      DigitSumSnoc(bytes[1..], b);
    }
  }

  lemma {:induction false} DigitSumBound(bytes: seq<Byte>)
    requires |bytes| <= 5
    ensures DigitSum(bytes) < Weight(|bytes|)
  {
    if bytes != [] { DigitSumBound(bytes[1..]); }
  }

  method DecodeFrom(reader: seq<Byte>) returns (decoded: Decoded)
    ensures decoded == Decode(reader)
  {
    var result, shift, k := 0, 0, 0;
    assert reader[..0] == [];
    while true
      invariant k <= 4 && shift == 7 * k && k <= |reader| && k <= Continued(reader)
      invariant result == DigitSum(reader[..k])
      decreases 5 - k
    {
      if k == |reader| { return EndOfFile; }
      var byte := reader[k];
      NextDigit(reader, k);
      assert reader[..k + 1] == reader[..k] + [byte];
      DigitSumSnoc(reader[..k], byte);
      DigitSumBound(reader[..k]);
      if shift >= 28 && byte % 128 / 16 != 0 { return TooLarge; }
      result := result + Weight(k) * (byte % 128);
      if !More(byte) { return Value(result, reader[k + 1..]); }
      shift := shift + 7;
      k := k + 1;
      if shift >= 32 { return TooLarge; }
    }
  }
}
