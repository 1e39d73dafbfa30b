/** Bits as numbers: powers of two and the fields of a bit sequence, most significant bit first. */
module BitArithmetic {
  import opened Common

  type bit = b: nat | b < 2

  function Pow2(n: nat): (r: nat)
    ensures r >= 1
  {
    if n == 0 then 1 else 2 * Pow2(n - 1)
  }

  lemma {:induction false} Pow2Add(a: nat, b: nat)
    ensures Pow2(a + b) == Pow2(a) * Pow2(b)
  {
    if a > 0 {
      Pow2Add(a - 1, b);
      assert Pow2(a + b) == 2 * (Pow2(a - 1) * Pow2(b)) == (2 * Pow2(a - 1)) * Pow2(b);
    }
  }

  lemma Pow2Constants()
    ensures Pow2(8) == 256 && Pow2(16) == 0x1_0000 && Pow2(24) == 0x100_0000 && Pow2(32) == 0x1_0000_0000
  {
    assert Pow2(4) == 16 && Pow2(8) == 256;
    Pow2Add(8, 8);
    Pow2Add(16, 8);
    Pow2Add(16, 16);
  }

  /** Quotient and remainder of a number given in parts. */
  lemma DivModParts(high: nat, low: nat, d: nat)
    requires low < d
    ensures (high * d + low) / d == high && (high * d + low) % d == low
  {
    var x := high * d + low;
    var q, r := x / d, x % d;
    var up, down := q - high, high - q;
    assert x == q * d + r && 0 <= r < d;
    assert up * d == q * d - high * d == low - r;
    assert down * d == high * d - q * d == r - low;
    if up >= 1 {
      MulGrows(up, d);
    }
    if down >= 1 {
      MulGrows(down, d);
    }
  }

  lemma MulGrows(k: nat, d: nat)
    requires k >= 1
    ensures k * d >= d
  {
  }

  /** The number formed by `n` bits from position `p` on; past the end the bits are zero. */
  function Field(bits: seq<bit>, p: nat, n: nat): nat {
    if n == 0 then 0
    else Field(bits, p, n - 1) * 2 + (if p + n - 1 < |bits| then bits[p + n - 1] else 0)
  }

  lemma {:induction false} FieldBound(bits: seq<bit>, p: nat, n: nat)
    ensures Field(bits, p, n) < Pow2(n)
  {
    if n > 0 {
      FieldBound(bits, p, n - 1);
    }
  }

  lemma {:induction false} OneBit(bits: seq<bit>, p: nat)
    ensures Field(bits, p, 1) == if p < |bits| then bits[p] else 0
  {
    assert Field(bits, p, 0) == 0;
  }

  lemma {:induction false} FieldEmpty(bits: seq<bit>, p: nat)
    ensures Field(bits, p, 0) == 0 && Pow2(0) == 1
  {
  }

  lemma FieldNext(bits: seq<bit>, p: nat, n: nat)
    ensures Field(bits, p, n + 1) == Field(bits, p, n) * 2 + (if p + n < |bits| then bits[p + n] else 0)
    ensures Pow2(n + 1) == 2 * Pow2(n)
  {
  }

  lemma Doubled(high: nat, d: nat, low: nat)
    ensures (high * d + low) * 2 == high * (2 * d) + low * 2
  {
  }

  /** A field is the two parts it is cut into. */
  lemma {:induction false} FieldSplit(bits: seq<bit>, p: nat, a: nat, b: nat)
    ensures Field(bits, p, a + b) == Field(bits, p, a) * Pow2(b) + Field(bits, p + a, b)
  {
    hide Field, Pow2;
    FieldEmpty(bits, p + a);
    if b > 0 {
      FieldSplit(bits, p, a, b - 1);
      FieldNext(bits, p, a + b - 1);
      FieldNext(bits, p + a, b - 1);
      Doubled(Field(bits, p, a), Pow2(b - 1), Field(bits, p + a, b - 1));
    }
  }

  /** Cutting a field with a division and a remainder. */
  lemma FieldCut(bits: seq<bit>, p: nat, a: nat, b: nat)
    ensures Field(bits, p, a + b) / Pow2(b) == Field(bits, p, a)
    ensures Field(bits, p, a + b) % Pow2(b) == Field(bits, p + a, b)
  {
    hide Field, Pow2;
    FieldSplit(bits, p, a, b);
    FieldBound(bits, p + a, b);
    DivModParts(Field(bits, p, a), Field(bits, p + a, b), Pow2(b));
  }

  /** A field in the middle of a number. */
  lemma MiddleBits(x: nat, k: nat, n: nat)
    ensures (x / Pow2(k)) % Pow2(n) == (x % Pow2(k + n)) / Pow2(k)
  {
    hide Pow2;
    var q, low := x / Pow2(k), x % Pow2(k);
    var high, mid := q / Pow2(n), q % Pow2(n);
    Pow2Add(k, n);
    assert x == q * Pow2(k) + low && q == high * Pow2(n) + mid;
    assert (high * Pow2(n) + mid) * Pow2(k) == high * (Pow2(k) * Pow2(n)) + mid * Pow2(k);
    InnerBound(mid, low, Pow2(k), Pow2(n));
    assert x == high * Pow2(k + n) + (mid * Pow2(k) + low);
    DivModParts(high, mid * Pow2(k) + low, Pow2(k + n));
    DivModParts(mid, low, Pow2(k));
  }

  lemma LowBits(x: nat, k: nat, n: nat)
    ensures (x % Pow2(k + n)) % Pow2(k) == x % Pow2(k)
  {
    Pow2Add(k, n);
    ModMod(x, Pow2(k), Pow2(n));
  }

  lemma ModMod(x: nat, d: nat, e: nat)
    requires d > 0 && e > 0
    ensures d * e > 0 && (x % (d * e)) % d == x % d
  {
    MulGrows(e, d);
    var q, r := x / (d * e), x % (d * e);
    assert x == q * (d * e) + r;
    assert q * (d * e) == (q * e) * d;
    RemainderShift(q * e, r, d);
  }

  lemma RemainderShift(m: nat, r: nat, d: nat)
    requires d > 0
    ensures (m * d + r) % d == r % d
  {
    var a, b := r / d, r % d;
    assert m * d + a * d == (m + a) * d;
    DivModParts(m + a, b, d);
  }

  lemma InnerBound(mid: nat, low: nat, a: nat, b: nat)
    requires low < a && mid < b
    ensures mid * a + low < a * b
  {
    assert mid * a + low < mid * a + a == (mid + 1) * a;
    MulMono(mid + 1, b, a);
  }

  lemma MulMono(x: nat, y: nat, a: nat)
    requires x <= y
    ensures x * a <= y * a == a * y
  {
    assert (y - x) * a >= 0;
  }

  /** Fields only depend on the bits they cover. */
  lemma {:induction false} FieldPrefix(bits: seq<bit>, more: seq<bit>, p: nat, n: nat)
    requires p + n <= |bits|
    ensures Field(bits + more, p, n) == Field(bits, p, n)
  {
    if n > 0 {
      FieldPrefix(bits, more, p, n - 1);
    }
  }

  lemma {:induction false} FieldPadding(bits: seq<bit>, zeros: seq<bit>, p: nat, n: nat)
    requires forall i :: 0 <= i < |zeros| ==> zeros[i] == 0
    ensures Field(bits + zeros, p, n) == Field(bits, p, n)
  {
    if n > 0 {
      FieldPadding(bits, zeros, p, n - 1);
    }
  }

  lemma {:induction false} FieldShift(a: seq<bit>, b: seq<bit>, p: nat, n: nat)
    ensures Field(a + b, |a| + p, n) == Field(b, p, n)
  {
    if n > 0 {
      FieldShift(a, b, p, n - 1);
      var i := p + n - 1;
      if i < |b| {
        assert (a + b)[|a| + i] == b[i];
      }
    }
  }

  /** The lowest `width` bits of a value. */
  function BitsOf(value: nat, width: nat): (r: seq<bit>)
    ensures |r| == width
  {
    if width == 0 then [] else BitsOf(value / 2, width - 1) + [value % 2]
  }

  lemma {:induction false} FieldOfBits(value: nat, width: nat)
    ensures Field(BitsOf(value, width), 0, width) == value % Pow2(width)
  {
    if width > 0 {
      FieldOfBits(value / 2, width - 1);
      FieldPrefix(BitsOf(value / 2, width - 1), [value % 2], 0, width - 1);
      DropLow(value, width - 1);
    }
  }

  lemma DropLow(value: nat, n: nat)
    ensures ((value / 2) % Pow2(n)) * 2 + value % 2 == value % Pow2(n + 1)
  {
    assert Pow2(n + 1) == 2 * Pow2(n);
    hide Pow2;
    DropLowBy(value, Pow2(n));
  }

  lemma DropLowBy(value: nat, d: nat)
    requires d > 0
    ensures ((value / 2) % d) * 2 + value % 2 == value % (2 * d)
  {
    var half := value / 2;
    var high, mid := half / d, half % d;
    QuotientParts(half, d);
    Doubled(high, d, mid);
    DivModParts(high, mid * 2 + value % 2, 2 * d);
  }

  lemma QuotientParts(x: nat, d: nat)
    requires d > 0
    ensures x == (x / d) * d + x % d && x % d < d
  {
  }

  /** Appending a value makes it the field at the end. */
  lemma {:induction false} FieldAppended(bits: seq<bit>, value: nat, width: nat)
    ensures Field(bits + BitsOf(value, width), |bits|, width) == value % Pow2(width)
  {
    hide Pow2, Field, BitsOf;
    FieldShift(bits, BitsOf(value, width), 0, width);
    FieldOfBits(value, width);
  }

  /** The bits of a byte string. */
  function Stream(bytes: seq<byte>): (r: seq<bit>)
    ensures |r| == 8 * |bytes|
  {
    if bytes == [] then [] else Stream(bytes[..|bytes| - 1]) + BitsOf(bytes[|bytes| - 1], 8)
  }

  /** The bytes of a byte string are the fields of its bits, and zero past the end. */
  lemma {:induction false} StreamByte(bytes: seq<byte>, i: nat)
    ensures Field(Stream(bytes), 8 * i, 8) == if i < |bytes| then bytes[i] else 0
  {
    hide Field, BitsOf, Pow2;
    if i >= |bytes| {
      ZeroField(Stream(bytes), 8 * i, 8);
    } else {
      var front, last := bytes[..|bytes| - 1], bytes[|bytes| - 1];
      if i == |bytes| - 1 {
        FieldAppended(Stream(front), last, 8);
        Pow2Constants();
      } else {
        StreamByte(front, i);
        FieldPrefix(Stream(front), BitsOf(last, 8), 8 * i, 8);
      }
    }
  }

  lemma {:induction false} ZeroField(bits: seq<bit>, p: nat, n: nat)
    requires p >= |bits|
    ensures Field(bits, p, n) == 0
  {
    if n > 0 {
      ZeroField(bits, p, n - 1);
    }
  }
}
