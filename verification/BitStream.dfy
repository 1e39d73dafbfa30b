/** The bit streams: a reader and a writer that keep up to one 32-bit word in a cache, against a
    plain sequence of bits. Shifts and masks are written as divisions, products and remainders by
    powers of two; an `or` joins parts that have no bit in common. */
module BitStream {
  import opened Common
  import opened BitArithmetic

  const WORD_BITS := 32
  const WORD_BYTES := 4

  /** A word shifted up, with the guard for shifts by a whole word. */
  function ShiftUp(value: nat, n: nat): u32 {
    if n == WORD_BITS then 0 else (value * Pow2(n)) % U32
  }

  class BitInputStream {
    const bytes: seq<byte>
    var bytePosition: nat
    var cache: u32
    var bitsCached: nat

    ghost predicate Valid()
      reads this
    {
      && bitsCached <= WORD_BITS && bitsCached <= 8 * bytePosition
      && cache % Pow2(bitsCached) == Field(Stream(bytes), 8 * bytePosition - bitsCached, bitsCached)
    }

    function GetPosition(): nat
      requires bitsCached <= 8 * bytePosition
      reads this
    {
      8 * bytePosition - bitsCached
    }

    constructor (data: seq<byte>)
      ensures Valid() && bytes == data && GetPosition() == 0
    {
      bytes := data;
      bytePosition, cache, bitsCached := 0, 0, 0;
    }

    /** The next word of the buffer, zeros past its end. */
    method ReadCache() returns (result: u32, end: nat)
      ensures result == Field(Stream(bytes), 8 * bytePosition, WORD_BITS)
      ensures end == bytePosition + WORD_BYTES
    {
      hide Field, Stream;
      end := bytePosition;
      var acc: nat, i := 0, 0;
      FieldEmpty(Stream(bytes), 8 * bytePosition);
      while i < WORD_BYTES
        invariant 0 <= i <= WORD_BYTES && end == bytePosition + i
        invariant acc == Field(Stream(bytes), 8 * bytePosition, 8 * i)
      {
        var value: nat := if end < |bytes| then bytes[end] else 0;
        StreamByte(bytes, end);
        AppendByte(Stream(bytes), 8 * bytePosition, i);
        end := end + 1;
        acc := (acc * 256) % U32 + value;
        i := i + 1;
      }
      FieldBound(Stream(bytes), 8 * bytePosition, WORD_BITS);
      Pow2Constants();
      result := acc;
    }

    /** Reads bits, from the cache if it has enough of them, and otherwise from the cache and the
        next word. */
    method Read(count: nat) returns (result: nat)
      requires Valid() && count <= WORD_BITS
      modifies this
      ensures Valid() && GetPosition() == old(GetPosition()) + count
      ensures result == Field(Stream(bytes), old(GetPosition()), count)
    {
      hide Field, Stream, Pow2;
      ghost var stream, p := Stream(bytes), GetPosition();
      if bitsCached >= count {
        FromCache(stream, cache, p, bitsCached, count);
        bitsCached := bitsCached - count;
        result := (cache / Pow2(bitsCached)) % Pow2(count);
      } else {
        var word, end := ReadCache();
        var high, missing := cache % Pow2(bitsCached), count - bitsCached;
        AcrossWords(stream, p, bitsCached, missing);
        Joined(high, bitsCached, missing);
        bytePosition := end;
        bitsCached := WORD_BITS - missing;
        result := word / Pow2(bitsCached) + ShiftUp(high, missing);
        cache := word;
      }
    }

    /** The same bits without moving. */
    method Peek(count: nat) returns (result: nat)
      requires Valid() && count <= WORD_BITS
      ensures result == Field(Stream(bytes), GetPosition(), count)
    {
      hide Field, Stream, Pow2;
      ghost var stream, p := Stream(bytes), GetPosition();
      if bitsCached >= count {
        FromCache(stream, cache, p, bitsCached, count);
        result := (cache / Pow2(bitsCached - count)) % Pow2(count);
      } else {
        var word, end := ReadCache();
        var high, missing := cache % Pow2(bitsCached), count - bitsCached;
        AcrossWords(stream, p, bitsCached, missing);
        Joined(high, bitsCached, missing);
        result := word / Pow2(WORD_BITS - missing) + ShiftUp(high, missing);
      }
    }

    /** Moves to the next byte boundary, if not at one. */
    method ByteAlign()
      requires Valid()
      modifies this
      ensures Valid() && GetPosition() % 8 == 0
      ensures old(GetPosition()) <= GetPosition() < old(GetPosition()) + 8
    {
      hide Field, Stream, Pow2;
      var flush := bitsCached % 8;
      if flush > 0 {
        var dropped := Read(flush);
      }
    }
  }

  lemma {:induction false} AppendByte(bits: seq<bit>, p: nat, i: nat)
    requires i < WORD_BYTES
    ensures var acc := Field(bits, p, 8 * i);
            Field(bits, p, 8 * (i + 1)) == (acc * 256) % U32 + Field(bits, p + 8 * i, 8)
  {
    hide Field, Pow2;
    FieldSplit(bits, p, 8 * i, 8);
    FieldBound(bits, p, 8 * i);
    Pow2Constants();
    Pow2Mono(8 * i, 24);
  }

  lemma {:induction false} Pow2Mono(a: nat, b: nat)
    requires a <= b
    ensures Pow2(a) <= Pow2(b)
  {
    if a < b {
      Pow2Mono(a, b - 1);
    }
  }

  /** Bits taken from the top of the cached ones. */
  lemma FromCache(stream: seq<bit>, cache: nat, p: nat, cached: nat, count: nat)
    requires count <= cached && cache % Pow2(cached) == Field(stream, p, cached)
    ensures (cache / Pow2(cached - count)) % Pow2(count) == Field(stream, p, count)
    ensures cache % Pow2(cached - count) == Field(stream, p + count, cached - count)
  {
    hide Field, Pow2;
    MiddleBits(cache, cached - count, count);
    FieldCut(stream, p, count, cached - count);
    LowBits(cache, cached - count, count);
  }

  /** Bits taken from the cache and the word that follows it. */
  lemma AcrossWords(stream: seq<bit>, p: nat, cached: nat, missing: nat)
    requires missing <= WORD_BITS
    ensures var word := Field(stream, p + cached, WORD_BITS);
            && Field(stream, p, cached + missing)
                == Field(stream, p, cached) * Pow2(missing) + word / Pow2(WORD_BITS - missing)
            && word / Pow2(WORD_BITS - missing) < Pow2(missing)
            && word % Pow2(WORD_BITS - missing) == Field(stream, p + cached + missing, WORD_BITS - missing)
  {
    hide Field, Pow2;
    FieldSplit(stream, p, cached, missing);
    FieldCut(stream, p + cached, missing, WORD_BITS - missing);
    FieldBound(stream, p + cached, missing);
  }

  /** Shifting the cached bits up loses nothing when all fits into a word. */
  lemma {:induction false} Joined(high: nat, cached: nat, missing: nat)
    requires high < Pow2(cached) && cached + missing <= WORD_BITS
    ensures ShiftUp(high, missing) == high * Pow2(missing)
    ensures high * Pow2(missing) + Pow2(missing) <= U32
  {
    hide Pow2, ShiftUp;
    ShiftFits(high, cached, missing);
    if missing == WORD_BITS {
      ShiftAll(high, cached);
    } else {
      ShiftSome(high, missing);
    }
  }

  lemma {:induction false} ShiftAll(high: nat, cached: nat)
    requires cached == 0 && high < Pow2(cached)
    ensures ShiftUp(high, WORD_BITS) == high * Pow2(WORD_BITS)
  {
    assert high == 0;
    hide Pow2;
  }

  lemma {:induction false} ShiftSome(high: nat, n: nat)
    requires n < WORD_BITS && high * Pow2(n) < U32
    ensures ShiftUp(high, n) == high * Pow2(n)
  {
    hide Pow2;
  }

  lemma {:induction false} ShiftFits(high: nat, cached: nat, missing: nat)
    requires high < Pow2(cached) && cached + missing <= WORD_BITS
    ensures high * Pow2(missing) + Pow2(missing) <= U32
  {
    hide Pow2;
    Pow2Add(cached, missing);
    Pow2Mono(cached + missing, WORD_BITS);
    Pow2Constants();
    MulMono(high + 1, Pow2(cached), Pow2(missing));
    assert (high + 1) * Pow2(missing) == high * Pow2(missing) + Pow2(missing);
  }

  class BitOutputStream {
    const bytes: array<byte>
    var bytePosition: nat
    var cache: u32
    var bitsCached: nat
    /** Everything written so far. */
    ghost var bits: seq<bit>

    ghost predicate Valid()
      reads this, bytes
    {
      && bitsCached <= WORD_BITS && |bits| == GetPosition()
      && cache == Field(bits, 8 * bytePosition, bitsCached)
      && StoredUpTo(bytes[..], bits, bytePosition)
    }

    function GetPosition(): nat
      reads this
    {
      8 * bytePosition + bitsCached
    }

    constructor (buffer: array<byte>)
      ensures Valid() && bytes == buffer && bits == []
    {
      bytes := buffer;
      bytePosition, cache, bitsCached, bits := 0, 0, 0, [];
    }

    /** Appends the lowest `count` bits of the value; bytes that do not fit are dropped, and no byte
        past the position is touched. */
    method Write(value: u32, count: nat)
      requires Valid() && count <= WORD_BITS
      modifies this, bytes
      ensures Valid() && bits == old(bits) + BitsOf(value, count)
      ensures bytePosition == old(bytePosition) + if old(bitsCached) + count <= WORD_BITS then 0 else WORD_BYTES
      ensures forall k :: bytePosition <= k < bytes.Length ==> bytes[k] == old(bytes[k])
    {
      hide Field, Stream, Pow2, BitsOf, StoredUpTo, ShiftUp;
      ghost var before := bits;
      var masked := value % Pow2(count);
      bits := bits + BitsOf(value, count);
      StoredAfter(bytes[..], before, BitsOf(value, count), bytePosition);
      FieldAppended(before, value, count);
      FieldBound(before, 8 * bytePosition, bitsCached);
      if bitsCached + count <= WORD_BITS {
        AppendToCache(before, value, count, bytePosition, bitsCached);
        cache := ShiftUp(cache, count) + masked;
        bitsCached := bitsCached + count;
      } else {
        var partial := WORD_BITS - bitsCached;
        var rest := count - partial;
        FillWord(before, value, count, bytePosition, bitsCached);
        var word := if partial > 0 then ShiftUp(cache, partial) + masked / Pow2(rest) else cache;
        WriteWord(word);
        cache := masked % Pow2(rest);
        bitsCached := rest;
      }
    }

    /** The loop at the end of `Write`: one full word goes to the buffer. */
    method WriteWord(word: nat)
      requires |bits| >= 8 * (bytePosition + WORD_BYTES) && word == Field(bits, 8 * bytePosition, WORD_BITS)
      requires StoredUpTo(bytes[..], bits, bytePosition)
      modifies this`bytePosition, bytes
      ensures bytePosition == old(bytePosition) + WORD_BYTES
      ensures StoredUpTo(bytes[..], bits, bytePosition)
      ensures forall k :: bytePosition <= k < bytes.Length ==> bytes[k] == old(bytes[k])
    {
      hide Field, Pow2;
      var i := 0;
      while i < WORD_BYTES
        invariant 0 <= i <= WORD_BYTES && bytePosition == old(bytePosition) + i
        invariant StoredUpTo(bytes[..], bits, bytePosition)
        invariant forall k :: bytePosition <= k < bytes.Length ==> bytes[k] == old(bytes[k])
      {
        WordByte(bits, old(bytePosition), i);
        if bytePosition < bytes.Length {
          bytes[bytePosition] := (word / Pow2(8 * (WORD_BYTES - i - 1))) % 256;
        }
        bytePosition := bytePosition + 1;
        i := i + 1;
      }
    }

    /** Pads with zeros until the cached bits reach the buffer. The position afterwards counts one
        byte for the cached ones, however many they were. */
    method Flush()
      requires Valid()
      modifies this, bytes
      ensures Stored(bytes[..], old(bits))
      ensures bitsCached == 0
      ensures bytePosition == if old(bitsCached) == 0 then old(bytePosition)
                              else Min(bytes.Length, old(bytePosition) + 1)
    {
      hide Field, Stream, Pow2, BitsOf, StoredUpTo;
      ghost var before := bits;
      if bitsCached > 0 {
        var position := bytePosition;
        var padding := 1 + WORD_BITS - bitsCached;
        Write(0, padding);
        PaddedStored(bytes[..], before, padding, bytePosition);
        bytePosition := Min(bytes.Length, position + (bitsCached + 7) / 8);
        bitsCached := 0;
      } else {
        AllStored(bytes[..], bits, bytePosition);
      }
    }
  }

  /** The first `n` bytes, as far as there are that many, are the first bits. */
  ghost predicate StoredUpTo(bytes: seq<byte>, bits: seq<bit>, n: nat) {
    forall k :: 0 <= k < n && k < |bytes| ==> bytes[k] == Field(bits, 8 * k, 8)
  }

  /** All of the bits are in the buffer, as far as it reaches, padded with zeros to whole bytes. */
  ghost predicate Stored(bytes: seq<byte>, bits: seq<bit>) {
    forall k :: 0 <= k < |bytes| && 8 * k < |bits| ==> bytes[k] == Field(bits, 8 * k, 8)
  }

  lemma StoredAfter(bytes: seq<byte>, bits: seq<bit>, more: seq<bit>, n: nat)
    requires StoredUpTo(bytes, bits, n) && 8 * n <= |bits|
    ensures StoredUpTo(bytes, bits + more, n)
  {
    hide Field;
    forall k | 0 <= k < n && k < |bytes| ensures bytes[k] == Field(bits + more, 8 * k, 8) {
      FieldPrefix(bits, more, 8 * k, 8);
    }
  }

  lemma AllStored(bytes: seq<byte>, bits: seq<bit>, n: nat)
    requires StoredUpTo(bytes, bits, n) && |bits| <= 8 * n
    ensures Stored(bytes, bits)
  {
  }

  lemma {:induction false} PaddedStored(bytes: seq<byte>, bits: seq<bit>, padding: nat, n: nat)
    requires StoredUpTo(bytes, bits + BitsOf(0, padding), n) && |bits| <= 8 * n
    ensures Stored(bytes, bits)
  {
    hide Field;
    ZeroBits(padding);
    forall k | 0 <= k < |bytes| && 8 * k < |bits| ensures bytes[k] == Field(bits, 8 * k, 8) {
      FieldPadding(bits, BitsOf(0, padding), 8 * k, 8);
    }
  }

  lemma {:induction false} ZeroBits(n: nat)
    ensures forall i :: 0 <= i < n ==> BitsOf(0, n)[i] == 0
  {
    if n > 0 {
      ZeroBits(n - 1);
    }
  }

  lemma AppendToCache(bits: seq<bit>, value: nat, count: nat, n: nat, cached: nat)
    requires |bits| == 8 * n + cached && cached + count <= WORD_BITS
    ensures var cache := Field(bits, 8 * n, cached);
            && ShiftUp(cache, count) + value % Pow2(count) == Field(bits + BitsOf(value, count), 8 * n, cached + count)
            && ShiftUp(cache, count) + value % Pow2(count) < U32
  {
    hide Field, Pow2, BitsOf, ShiftUp;
    FieldBound(bits, 8 * n, cached);
    FieldAppended(bits, value, count);
    FieldSplit(bits + BitsOf(value, count), 8 * n, cached, count);
    FieldPrefix(bits, BitsOf(value, count), 8 * n, cached);
    Joined(Field(bits, 8 * n, cached), cached, count);
  }

  lemma FillWord(bits: seq<bit>, value: nat, count: nat, n: nat, cached: nat)
    requires |bits| == 8 * n + cached && cached <= WORD_BITS && count <= WORD_BITS < cached + count
    ensures var cache, masked := Field(bits, 8 * n, cached), value % Pow2(count);
            var partial := WORD_BITS - cached;
            var rest := count - partial;
            var all := bits + BitsOf(value, count);
            && (if partial > 0 then ShiftUp(cache, partial) + masked / Pow2(rest) else cache)
                == Field(all, 8 * n, WORD_BITS)
            && masked % Pow2(rest) == Field(all, 8 * (n + WORD_BYTES), rest)
            && masked % Pow2(rest) < U32
  {
    hide Field, Pow2, BitsOf, ShiftUp;
    var partial := WORD_BITS - cached;
    var rest := count - partial;
    var all := bits + BitsOf(value, count);
    FieldAppended(bits, value, count);
    FieldCut(all, |bits|, partial, rest);
    FieldPrefix(bits, BitsOf(value, count), 8 * n, cached);
    FieldSplit(all, 8 * n, cached, partial);
    FieldBound(bits, 8 * n, cached);
    Joined(Field(bits, 8 * n, cached), cached, partial);
    FieldEmpty(all, |bits|);
    Pow2Constants();
    Pow2Mono(rest, WORD_BITS);
  }

  lemma WordByte(bits: seq<bit>, n: nat, i: nat)
    requires i < WORD_BYTES
    ensures (Field(bits, 8 * n, WORD_BITS) / Pow2(8 * (WORD_BYTES - i - 1))) % 256 == Field(bits, 8 * (n + i), 8)
  {
    hide Field, Pow2;
    FieldCut(bits, 8 * n, 8 * (i + 1), 8 * (WORD_BYTES - i - 1));
    FieldCut(bits, 8 * n, 8 * i, 8);
    Pow2Constants();
  }

  datatype Item = Item(value: u32, width: nat)

  ghost predicate Widths(items: seq<Item>) {
    forall i :: 0 <= i < |items| ==> items[i].width <= WORD_BITS
  }

  /** The bits of a sequence of writes. */
  function Written(items: seq<Item>): seq<bit> {
    if items == [] then []
    else var last := items[|items| - 1]; Written(items[..|items| - 1]) + BitsOf(last.value, last.width)
  }

  /** A field of the bits that were stored is the same field of the buffer's bits. */
  lemma {:induction false} StoredFields(bytes: seq<byte>, bits: seq<bit>, p: nat, n: nat)
    requires Stored(bytes, bits) && p + n <= |bits| <= 8 * |bytes|
    ensures Field(Stream(bytes), p, n) == Field(bits, p, n)
  {
    hide Stream;
    if n > 0 {
      StoredFields(bytes, bits, p, n - 1);
      StoredBit(bytes, bits, p + n - 1);
      OneBit(bits, p + n - 1);
      OneBit(Stream(bytes), p + n - 1);
    }
  }

  lemma {:induction false} StoredBit(bytes: seq<byte>, bits: seq<bit>, p: nat)
    requires Stored(bytes, bits) && p < |bits| <= 8 * |bytes|
    ensures Field(Stream(bytes), p, 1) == Field(bits, p, 1)
  {
    hide Stream, Field, Pow2;
    var k, j := p / 8, p % 8;
    StreamByte(bytes, k);
    assert Field(Stream(bytes), 8 * k, 8) == Field(bits, 8 * k, 8);
    forall b: seq<bit> ensures Field(b, p, 1) == (Field(b, 8 * k, 8) / Pow2(7 - j)) % Pow2(1) {
      FieldCut(b, 8 * k, j + 1, 7 - j);
      FieldCut(b, 8 * k, j, 1);
    }
  }

  /** The write with index `i` starts where the earlier ones end and reads back as its masked
      value, whatever is written after it. */
  lemma {:induction false} WrittenField(items: seq<Item>, i: nat)
    requires i < |items|
    ensures var p := |Written(items[..i])|;
            && p + items[i].width <= |Written(items)|
            && |Written(items[..i + 1])| == p + items[i].width
            && Field(Written(items), p, items[i].width) == items[i].value % Pow2(items[i].width)
  {
    hide Field, BitsOf, Pow2;
    var front, last := items[..|items| - 1], items[|items| - 1];
    assert items[..i + 1][..i] == items[..i];
    if i == |items| - 1 {
      assert items[..i + 1] == items;
      FieldAppended(Written(front), last.value, last.width);
    } else {
      WrittenField(front, i);
      assert front[..i] == items[..i] && front[..i + 1] == items[..i + 1];
      FieldPrefix(Written(front), BitsOf(last.value, last.width), |Written(items[..i])|, items[i].width);
    }
  }

  /** Writing, flushing and reading the same widths back gives every value, cut to its width. */
  method WriteFlushRead(items: seq<Item>, buffer: array<byte>) returns (values: seq<nat>)
    requires Widths(items) && |Written(items)| <= 8 * buffer.Length
    modifies buffer
    ensures |values| == |items|
    ensures forall i :: 0 <= i < |items| ==> values[i] == items[i].value % Pow2(items[i].width)
  {
    hide Field, BitsOf, Pow2, Stream, Stored, StoredUpTo, Written;
    var output := new BitOutputStream(buffer);
    NothingWritten();
    for i := 0 to |items|
      invariant output.Valid() && output.bytes == buffer && fresh(output)
      invariant output.bits == Written(items[..i])
    {
      WrittenNext(items, i);
      output.Write(items[i].value, items[i].width);
    }
    assert items[..|items|] == items;
    output.Flush();
    var input := new BitInputStream(buffer[..]);
    values := [];
    for i := 0 to |items|
      invariant input.Valid() && input.bytes == buffer[..] && fresh(input) && Stored(buffer[..], Written(items))
      invariant |values| == i && input.GetPosition() == |Written(items[..i])|
      invariant forall k :: 0 <= k < i ==> values[k] == items[k].value % Pow2(items[k].width)
    {
      WrittenField(items, i);
      StoredFields(buffer[..], Written(items), input.GetPosition(), items[i].width);
      var value := input.Read(items[i].width);
      values := values + [value];
    }
  }

  lemma NothingWritten()
    ensures Written([]) == []
  {
  }

  lemma WrittenNext(items: seq<Item>, i: nat)
    requires i < |items|
    ensures Written(items[..i + 1]) == Written(items[..i]) + BitsOf(items[i].value, items[i].width)
  {
    assert items[..i + 1][..i] == items[..i];
  }
}
