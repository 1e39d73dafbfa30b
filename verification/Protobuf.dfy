/** Variable-length integers and zigzag numbers, as in protobuf messages. */
module Protobuf {
  import opened Common
  import opened BitArithmetic

  const U64 := 0x1_0000_0000_0000_0000
  const MAX_VARINT_SIZE := 10

  type u64 = n: nat | n < U64
  type i64 = n: int | -0x8000_0000_0000_0000 <= n < 0x8000_0000_0000_0000

  // ----------------------------------------------------------------------- zigzag

  /** A shift to the left by one, with all bits flipped for a negative number. */
  function ToZigZag(value: i64): u64 {
    var shifted := (2 * (if value < 0 then value + U64 else value)) % U64;
    if value < 0 then U64 - 1 - shifted else shifted
  }

  function FromZigZag(value: u64): i64 {
    if value % 2 == 1 then -(value / 2) - 1 else value / 2
  }

  /** The two conversions are inverse to each other on all 64-bit numbers. */
  lemma ZigZagInverse(signed: i64, unsigned: u64)
    ensures FromZigZag(ToZigZag(signed)) == signed
    ensures ToZigZag(FromZigZag(unsigned)) == unsigned
  {
    ZigZagMeaning(signed);
    ZigZagMeaning(FromZigZag(unsigned));
  }

  /** Numbers of small magnitude become small. */
  lemma ZigZagMeaning(value: i64)
    ensures ToZigZag(value) == if value < 0 then -2 * value - 1 else 2 * value
  {
    if value < 0 {
      var twice := 2 * (value + U64);
      assert twice == U64 + (2 * value + U64);
    }
  }

  // ---------------------------------------------------------------------- varints

  /** Seven bits a byte, the lowest first; the top bit says that more follow. */
  function Varint(value: nat): (r: seq<byte>)
    ensures |r| >= 1
  {
    if value < 128 then [value] else [value % 128 + 128] + Varint(value / 128)
  }

  method VarintSize(value: u64) returns (size: nat)
    ensures size == |Varint(value)|
  {
    var left: nat := value;
    size := 1;
    while left > 127
      invariant |Varint(value)| == size - 1 + |Varint(left)|
      decreases left
    {
      size := size + 1;
      left := left / 128;
    }
  }

  /** Writes the bytes of a number at a place in the buffer; the caller makes sure there is room. */
  method EncodeVarint(value: u64, buffer: array<byte>, at: nat) returns (size: nat)
    requires at + |Varint(value)| <= buffer.Length
    modifies buffer
    ensures size == |Varint(value)|
    ensures buffer[..at + size] == old(buffer[..at]) + Varint(value)
    ensures forall k :: at + size <= k < buffer.Length ==> buffer[k] == old(buffer[k])
  {
    hide Varint;
    ghost var start := buffer[..at];
    var left: nat := value;
    size := 0;
    var more := true;
    while more
      invariant more ==>
                  && |Varint(value)| == size + |Varint(left)|
                  && start + Varint(value) == buffer[..at + size] + Varint(left)
      invariant !more ==> size == |Varint(value)| && start + Varint(value) == buffer[..at + size]
      invariant forall k :: at + size <= k < buffer.Length ==> buffer[k] == old(buffer[k])
      decreases more, left
    {
      ghost var before := buffer[..at + size];
      VarintStep(left);
      buffer[at + size] := left % 128;
      left := left / 128;
      if left != 0 {
        buffer[at + size] := buffer[at + size] + 128;
      }
      size := size + 1;
      more := left != 0;
      assert buffer[..at + size] == before + [buffer[at + size - 1]];
    }
  }

  lemma {:induction false} VarintStep(value: nat)
    ensures var rest := value / 128;
            Varint(value) == if rest == 0 then [value % 128] else [value % 128 + 128] + Varint(rest)
  {
  }

  /** Where a varint at the start of a byte string ends, if it does within ten bytes. */
  function VarintEnd(s: seq<byte>, n: nat): Option<nat>
    decreases 10 - n
  {
    if n >= MAX_VARINT_SIZE || n >= |s| then None
    else if s[n] < 128 then Some(n + 1)
    else VarintEnd(s, n + 1)
  }

  /** The number in the first `n` bytes, as far as 64 bits hold it. */
  function VarintValue(s: seq<byte>, n: nat): u64
    requires n <= |s|
  {
    if n == 0 then 0 else (VarintValue(s, n - 1) + (s[n - 1] % 128) * Pow2(7 * (n - 1))) % U64
  }

  datatype Read = Read(value: u64, size: nat)

  function ReadVarint(s: seq<byte>): Option<Read> {
    match VarintEnd(s, 0)
    case None => None
    case Some(n) =>
      VarintEndInside(s, 0);
      Some(Read(VarintValue(s, n), n))
  }

  lemma {:induction false} VarintEndInside(s: seq<byte>, n: nat)
    ensures VarintEnd(s, n).Some? ==> n < VarintEnd(s, n).value <= |s|
    decreases 10 - n
  {
    if n < MAX_VARINT_SIZE && n < |s| && s[n] >= 128 {
      VarintEndInside(s, n + 1);
    }
  }

  /** Reads a number; a size of zero means that it does not end. */
  method DecodeVarint(s: seq<byte>) returns (value: u64, size: nat)
    ensures ReadVarint(s) == if size == 0 then None else Some(Read(value, size))
    ensures size <= |s|
  {
    hide Pow2;
    value, size := 0, 0;
    var x: nat := 0x80;
    while size < Min(MAX_VARINT_SIZE, |s|) && x >= 128
      invariant 0 <= size <= Min(MAX_VARINT_SIZE, |s|)
      invariant value == VarintValue(s, size)
      invariant x < 256 && (size > 0 ==> x == s[size - 1])
      invariant size == 0 ==> x >= 128
      invariant VarintEnd(s, 0) == if x >= 128 then VarintEnd(s, size) else Some(size)
    {
      x := s[size];
      var shifted := ((x % 128) * Pow2(7 * size)) % U64;
      DropOverflow(value, (x % 128) * Pow2(7 * size));
      value := (value + shifted) % U64;
      size := size + 1;
    }
    if x >= 128 {
      size := 0;
    }
  }

  lemma DropOverflow(a: nat, b: nat)
    ensures (a + b % U64) % U64 == (a + b) % U64
  {
    assert a + b == (b / U64) * U64 + (a + b % U64);
  }

  // ---------------------------------------------------------------------- reading

  lemma {:induction false} EndIff(s: seq<byte>, n: nat)
    ensures VarintEnd(s, n).None? <==> forall i :: n <= i < |s| && i < MAX_VARINT_SIZE ==> s[i] >= 128
    ensures VarintEnd(s, n).Some? ==>
              var end := VarintEnd(s, n).value;
              && n < end <= |s| && end <= MAX_VARINT_SIZE && s[end - 1] < 128
              && forall i :: n <= i < end - 1 ==> s[i] >= 128
    decreases 10 - n
  {
    if n < MAX_VARINT_SIZE && n < |s| && s[n] >= 128 {
      EndIff(s, n + 1);
    }
  }

  /** The number that seven bits of each byte make, the lowest first. */
  function Digits(s: seq<byte>): nat {
    if s == [] then 0 else s[0] % 128 + 128 * Digits(s[1..])
  }

  lemma {:induction false} DigitsSnoc(s: seq<byte>, b: byte)
    ensures Digits(s + [b]) == Digits(s) + (b % 128) * Pow2(7 * |s|)
  {
    if s == [] {
      assert [b][1..] == [] && [] + [b] == [b];
      assert Pow2(0) == 1;
    } else {
      DigitsSnoc(s[1..], b);
      assert (s + [b])[1..] == s[1..] + [b];
      assert Pow2(7) == 128;
      Pow2Add(7, 7 * (|s| - 1));
      hide Pow2, Digits;
      var d, p: nat := b % 128, Pow2(7 * (|s| - 1));
      assert 128 * (d * p) == d * (128 * p);
    }
  }

  lemma {:induction false} ValueIsDigits(s: seq<byte>, n: nat)
    requires n <= |s|
    ensures VarintValue(s, n) == Digits(s[..n]) % U64
  {
    if n > 0 {
      hide Pow2;
      ValueIsDigits(s, n - 1);
      DigitsSnoc(s[..n - 1], s[n - 1]);
      assert s[..n] == s[..n - 1] + [s[n - 1]];
      AddWrapped(Digits(s[..n - 1]), (s[n - 1] % 128) * Pow2(7 * (n - 1)));
    }
  }

  lemma AddWrapped(a: nat, b: nat)
    ensures (a % U64 + b) % U64 == (a + b) % U64
  {
    assert a + b == (a / U64) * U64 + (a % U64 + b);
  }

  /** A number is read if and only if one of the first ten bytes ends it; it is then what the bytes up
      to the first such one say, kept to 64 bits. Longer forms of a number than it needs are taken. */
  lemma {:induction false} ReadIff(s: seq<byte>)
    ensures ReadVarint(s).Some? <==> exists i :: 0 <= i < |s| && i < 10 && s[i] < 128
    ensures ReadVarint(s).Some? ==>
              var read := ReadVarint(s).value;
              && 0 < read.size <= |s| && s[read.size - 1] < 128
              && (forall i :: 0 <= i < read.size - 1 ==> s[i] >= 128)
              && read.value == Digits(s[..read.size]) % U64
  {
    EndIff(s, 0);
    if VarintEnd(s, 0).Some? {
      ValueIsDigits(s, VarintEnd(s, 0).value);
    }
    hide VarintValue;
  }

  // ------------------------------------------------------------------- round trip

  lemma {:induction false} VarintFits(value: nat, n: nat)
    requires value < Pow2(7 * n) && n >= 1
    ensures |Varint(value)| <= n
  {
    if value >= 128 {
      assert n > 1 by {
        assert Pow2(7) == 128;
      }
      Pow2Add(7 * (n - 1), 7);
      assert Pow2(7) == 128;
      VarintFits(value / 128, n - 1);
    }
  }

  lemma {:induction false} VarintEndOf(value: nat, before: seq<byte>, tail: seq<byte>)
    requires forall i :: 0 <= i < |before| ==> before[i] >= 128
    requires |before| + |Varint(value)| <= MAX_VARINT_SIZE
    ensures VarintEnd(before + Varint(value) + tail, |before|) == Some(|before| + |Varint(value)|)
    decreases value
  {
    var s := before + Varint(value) + tail;
    var n := |before|;
    assert s[n] == Varint(value)[0];
    if value >= 128 {
      var first: seq<byte> := [value % 128 + 128];
      VarintEndOf(value / 128, before + first, tail);
      assert s == (before + first) + Varint(value / 128) + tail;
    }
  }

  /** The first `n` bytes hold the number's lowest 7 times `n` bits. */
  lemma {:induction false} VarintLowBits(value: u64, s: seq<byte>, n: nat)
    requires n <= |s| && forall i :: 0 <= i < n ==> s[i] % 128 == (value / Pow2(7 * i)) % 128
    ensures VarintValue(s, n) == value % Pow2(7 * n)
  {
    hide Pow2;
    if n == 0 {
      FieldEmpty([], 0);
    } else {
      VarintLowBits(value, s, n - 1);
      var d, digit: nat := Pow2(7 * (n - 1)), s[n - 1] % 128;
      VarintNext(s, n - 1);
      hide VarintValue;
      assert digit == (value / d) % 128;
      SevenMore(value, 7 * (n - 1));
      assert 7 * (n - 1) + 7 == 7 * n;
      SmallRemainder(value % Pow2(7 * n), U64);
    }
  }

  lemma VarintNext(s: seq<byte>, n: nat)
    requires n < |s|
    ensures VarintValue(s, n + 1) == (VarintValue(s, n) + (s[n] % 128) * Pow2(7 * n)) % U64
  {
  }

  lemma SevenMore(value: u64, k: nat)
    ensures value % Pow2(k) + ((value / Pow2(k)) % 128) * Pow2(k) == value % Pow2(k + 7)
    ensures value % Pow2(k + 7) < U64
  {
    assert Pow2(7) == 128;
    hide Pow2;
    MiddleBits(value, k, 7);
    LowBits(value, k, 7);
    var low := value % Pow2(k + 7);
    assert low == (low / Pow2(k)) * Pow2(k) + low % Pow2(k);
    ModBound(value, Pow2(k + 7));
  }

  lemma ModBound(value: nat, d: nat)
    requires d > 0
    ensures value % d <= value
  {
    if value >= d {
      assert value % d < d;
    }
  }

  lemma {:induction false} VarintDigits(value: nat, i: nat)
    requires i < |Varint(value)|
    ensures Varint(value)[i] % 128 == (value / Pow2(7 * i)) % 128
    ensures value < Pow2(7 * |Varint(value)|)
    decreases value
  {
    assert Pow2(7) == 128;
    if value < 128 {
      assert Pow2(0) == 1;
    } else {
      var rest := Varint(value / 128);
      VarintDigits(value / 128, if i == 0 then 0 else i - 1);
      hide Pow2;
      Pow2Add(7, 7 * |rest|);
      assert value < 128 * Pow2(7 * |rest|);
      if i == 0 {
        FirstDigit(value);
      } else {
        assert Varint(value)[i] == rest[i - 1];
        Pow2Add(7, 7 * (i - 1));
        DivDiv(value, 128, Pow2(7 * (i - 1)));
      }
    }
  }

  lemma FirstDigit(value: nat)
    ensures Pow2(7 * 0) == 1 && value / Pow2(7 * 0) == value
  {
    assert Pow2(0) == 1;
  }

  lemma Distribute(a: nat, b: nat, d: nat, e: nat)
    ensures (a * e + b) * d == a * (d * e) + b * d
  {
  }

  lemma DivDiv(x: nat, d: nat, e: nat)
    requires d > 0 && e > 0
    ensures d * e > 0 && (x / d) / e == x / (d * e)
  {
    MulGrows(e, d);
    var q, r := x / d, x % d;
    var a, b := q / e, q % e;
    QuotientParts(x, d);
    QuotientParts(q, e);
    Distribute(a, b, d, e);
    InnerBound(b, r, d, e);
    DivModParts(a, b * d + r, d * e);
  }

  /** A number written as a varint reads back as itself, whatever follows it. */
  lemma {:induction false} VarintRoundTrip(value: u64, tail: seq<byte>)
    ensures |Varint(value)| <= MAX_VARINT_SIZE
    ensures ReadVarint(Varint(value) + tail) == Some(Read(value, |Varint(value)|))
  {
    U64Fits();
    hide Pow2, Varint, VarintEnd, VarintValue;
    VarintFits(value, 10);
    VarintEndOf(value, [], tail);
    assert [] + Varint(value) + tail == Varint(value) + tail;
    VarintValueOf(value, tail);
  }

  lemma {:induction false} VarintValueOf(value: u64, tail: seq<byte>)
    ensures VarintValue(Varint(value) + tail, |Varint(value)|) == value
  {
    hide Pow2, Varint, VarintValue;
    var s, n := Varint(value) + tail, |Varint(value)|;
    forall i | 0 <= i < n ensures s[i] % 128 == (value / Pow2(7 * i)) % 128 {
      VarintDigits(value, i);
    }
    VarintDigits(value, 0);
    VarintLowBits(value, s, n);
    SmallRemainder(value, Pow2(7 * n));
  }

  lemma SmallRemainder(value: nat, d: nat)
    requires value < d
    ensures value % d == value
  {
    DivModParts(0, value, d);
  }

  lemma U64Fits()
    ensures U64 <= Pow2(7 * 10)
  {
    Pow2Constants();
    Pow2Add(32, 32);
    Pow2Add(64, 6);
  }
}
