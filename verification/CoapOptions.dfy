/** The option area of a CoAP message (section 3.1 of RFC 7252): its encoding, the
    validating reader, and what the two have to do with each other. */
module CoapOptions {
  import opened Common


  const PAYLOAD_MARKER := 0xFF
  const MAX_EXTENDED := 269 + 0xFFFF

  datatype Value =
    | Empty
    | Uint(uint: u32)
    | Text(chars: seq<byte>)
    | Opaque(bytes: seq<byte>)

  datatype CoapOption = CoapOption(number: u32, value: Value)

  // ----------------------------------------------------------------- writing

  predicate Encodable(n: nat) {
    n <= MAX_EXTENDED
  }

  function Nibble(n: nat): (r: nat)
    requires Encodable(n)
    ensures r < 15
  {
    if n < 13 then n else if n < 269 then 13 else 14
  }

  function Extension(n: nat): seq<byte>
    requires Encodable(n)
  {
    if n < 13 then [] else if n < 269 then [n - 13] else [(n - 269) / 256, (n - 269) % 256]
  }

  /** Number of bytes used for an integer value; 0xFF, 0xFFFF and 0xFFFFFF get one more
      than they need. */
  function UintLength(n: u32): (r: nat)
    ensures r <= 4
  {
    if n == 0 then 0 else if n < 0xFF then 1 else if n < 0xFFFF then 2 else if n < 0xFFFFFF then 3 else 4
  }

  function BigEndian(n: nat, length: nat): (r: seq<byte>)
    ensures |r| == length
  {
    if length == 0 then [] else BigEndian(n / 256, length - 1) + [n % 256]
  }

  function ValueBytes(value: Value): seq<byte> {
    match value
    case Empty => []
    case Uint(n) => BigEndian(n, UintLength(n))
    case Text(chars) => chars
    case Opaque(bytes) => bytes
  }

  function EncodeOption(delta: nat, value: seq<byte>): (r: seq<byte>)
    requires Encodable(delta) && Encodable(|value|)
    ensures |r| == 1 + |Extension(delta)| + |Extension(|value|)| + |value|
  {
    [Nibble(delta) * 16 + Nibble(|value|)] + Extension(delta) + Extension(|value|) + value
  }

  predicate Sorted(options: seq<CoapOption>) {
    forall i, j :: 0 <= i < j < |options| ==> options[i].number <= options[j].number
  }

  /** Whether the first of a list of options can be written after an option with number `current`. */
  predicate CanWrite(options: seq<CoapOption>, current: nat) {
    && options != []
    && current <= options[0].number
    && Encodable(options[0].number - current)
    && Encodable(|ValueBytes(options[0].value)|)
  }

  /** The options that do get written: all up to the first that cannot be encoded. */
  function Writable(options: seq<CoapOption>, current: nat): seq<CoapOption> {
    if !CanWrite(options, current) then []
    else [options[0]] + Writable(options[1..], options[0].number)
  }

  function EncodeOptions(options: seq<CoapOption>, current: nat): seq<byte> {
    if !CanWrite(options, current) then []
    else
      EncodeOption(options[0].number - current, ValueBytes(options[0].value))
      + EncodeOptions(options[1..], options[0].number)
  }

  // ----------------------------------------------------------------- reading

  /** An option as it stands in the datagram: the distance from the previous number, the
      value, and how many bytes it takes. */
  datatype RawOption = RawOption(delta: nat, value: seq<byte>, size: nat)

  function ExtensionSize(nibble: nat): nat {
    if nibble == 13 then 1 else if nibble == 14 then 2 else 0
  }

  function Extended(nibble: nat, ext: seq<byte>): nat
    requires |ext| >= ExtensionSize(nibble)
  {
    if nibble == 13 then 13 + ext[0]
    else if nibble == 14 then 269 + (ext[0] * 256 + ext[1])
    else nibble
  }

  /** The validator's view of the option at the start of `s`. */
  function ReadOption(s: seq<byte>): (r: Option<RawOption>)
    requires |s| > 0
    ensures r.Some? ==> 0 < r.value.size <= |s| && |r.value.value| <= r.value.size
  {
    var deltaNibble, lengthNibble := s[0] / 16, s[0] % 16;
    if deltaNibble == 15 || lengthNibble == 15 then None
    else
      var lengthAt := 1 + ExtensionSize(deltaNibble);
      var valueAt := lengthAt + ExtensionSize(lengthNibble);
      if |s| < lengthAt || |s| < valueAt then None
      else
        var length := Extended(lengthNibble, s[lengthAt..]);
        if |s| < valueAt + length then None
        else Some(RawOption(Extended(deltaNibble, s[1..]), s[valueAt..valueAt + length], valueAt + length))
  }

  predicate AtEnd(s: seq<byte>) {
    s == [] || s[0] == PAYLOAD_MARKER
  }

  /** The validator's pass over the options: the options it finds, in order. */
  function ReadOptions(s: seq<byte>): Option<seq<RawOption>> {
    if AtEnd(s) then Some([])
    else match ReadOption(s)
      case None => None
      case Some(o) =>
        match ReadOptions(s[o.size..])
        case None => None
        case Some(rest) => Some([o] + rest)
  }

  function TotalSize(options: seq<RawOption>): nat {
    if options == [] then 0 else options[0].size + TotalSize(options[1..])
  }

  lemma {:induction false} ReadOptionsInside(s: seq<byte>)
    ensures ReadOptions(s).Some? ==>
              TotalSize(ReadOptions(s).value) <= |s| && AtEnd(s[TotalSize(ReadOptions(s).value)..])
    decreases |s|
  {
    if !AtEnd(s) && ReadOption(s).Some? {
      var o := ReadOption(s).value;
      ReadOptionsInside(s[o.size..]);
      if ReadOptions(s[o.size..]).Some? {
        var rest := ReadOptions(s[o.size..]).value;
        assert ([o] + rest)[1..] == rest;
        assert s[o.size..][TotalSize(rest)..] == s[o.size + TotalSize(rest)..];
      }
    }
  }

  // -------------------------------------------------------------- round trip

  lemma ExtensionRoundTrip(n: nat, rest: seq<byte>)
    requires Encodable(n)
    ensures ExtensionSize(Nibble(n)) == |Extension(n)|
    ensures Extended(Nibble(n), Extension(n) + rest) == n
  {
    if n >= 269 {
      assert (Extension(n) + rest)[0] == (n - 269) / 256;
      assert (Extension(n) + rest)[1] == (n - 269) % 256;
    }
  }

  /** Reading back one option that was written, whatever follows it. */
  lemma ReadEncoded(delta: nat, value: seq<byte>, rest: seq<byte>)
    requires Encodable(delta) && Encodable(|value|)
    ensures var s := EncodeOption(delta, value) + rest;
            && !AtEnd(s)
            && ReadOption(s) == Some(RawOption(delta, value, |EncodeOption(delta, value)|))
            && s[|EncodeOption(delta, value)|..] == rest
  {
    hide Extended, ExtensionSize, Extension;
    var s := EncodeOption(delta, value) + rest;
    var dn, ln := Nibble(delta), Nibble(|value|);
    assert s[0] == dn * 16 + ln;
    assert s[0] / 16 == dn && s[0] % 16 == ln;
    var lengthAt := 1 + |Extension(delta)|;
    var valueAt := lengthAt + |Extension(|value|)|;
    ExtensionRoundTrip(delta, Extension(|value|) + value + rest);
    assert s[1..] == Extension(delta) + (Extension(|value|) + value + rest);
    ExtensionRoundTrip(|value|, value + rest);
    assert s[lengthAt..] == Extension(|value|) + (value + rest);
    assert s[valueAt..valueAt + |value|] == value;
  }

  // ---------------------------------------------------------- interpretation

  datatype Kind = EmptyKind | UintKind | TextKind | OpaqueKind

  /** The type the iterator gives to an option number. */
  function KindOf(number: nat): Kind {
    if number == 5 then EmptyKind
    else if number in {7, 12, 14, 17, 23, 27, 28, 60, 2048} then UintKind
    else if number in {3, 8, 11, 15, 20, 35, 39} then TextKind
    else OpaqueKind
  }

  function UintOf(bytes: seq<byte>): u32 {
    if bytes == [] then 0
    else (UintOf(bytes[..|bytes| - 1]) * 256 + bytes[|bytes| - 1]) % U32
  }

  function Interpret(number: nat, bytes: seq<byte>): Value {
    match KindOf(number)
    case EmptyKind => Empty
    case UintKind => Uint(UintOf(bytes))
    case TextKind => Text(bytes)
    case OpaqueKind => Opaque(bytes)
  }

  /** The value has the type of its option number. */
  predicate WellTyped(o: CoapOption) {
    match KindOf(o.number)
    case EmptyKind => o.value.Empty?
    case UintKind => o.value.Uint?
    case TextKind => o.value.Text?
    case OpaqueKind => o.value.Opaque?
  }

  function Pow256(length: nat): nat {
    if length == 0 then 1 else 256 * Pow256(length - 1)
  }

  lemma {:induction false} BigEndianRoundTrip(n: nat, length: nat)
    requires length <= 4 && n < Pow256(length)
    ensures n < U32 && UintOf(BigEndian(n, length)) == n
  {
    Pow256Bound(length);
    if length > 0 {
      hide Pow256;
      BigEndianRoundTrip(n / 256, length - 1);
      var s := BigEndian(n, length);
      assert s[..|s| - 1] == BigEndian(n / 256, length - 1);
    }
  }

  lemma Pow256Bound(length: nat)
    requires length <= 4
    ensures Pow256(length) <= U32 && (length > 0 ==> Pow256(length) == 256 * Pow256(length - 1))
  {
    assert Pow256(4) == U32 && Pow256(3) == 0x100_0000 && Pow256(2) == 0x1_0000 && Pow256(1) == 256 && Pow256(0) == 1;
  }

  /** An integer survives although some values are written with a byte too many. */
  lemma UintRoundTrip(n: u32)
    ensures UintOf(ValueBytes(Uint(n))) == n
  {
    assert Pow256(4) == U32 && Pow256(3) == 0x100_0000 && Pow256(2) == 0x1_0000 && Pow256(1) == 256 && Pow256(0) == 1;
    BigEndianRoundTrip(n, UintLength(n));
  }

  lemma ValueRoundTrip(o: CoapOption)
    requires WellTyped(o)
    ensures Interpret(o.number, ValueBytes(o.value)) == o.value
  {
    if o.value.Uint? {
      UintRoundTrip(o.value.uint);
    }
  }

  /** The options a datagram stands for, the first number counted from `current`. */
  function Decode(raw: seq<RawOption>, current: u32): seq<CoapOption> {
    if raw == [] then []
    else
      var number := (current + raw[0].delta) % U32;
      [CoapOption(number, Interpret(number, raw[0].value))] + Decode(raw[1..], number)
  }

  ghost predicate AllWellTyped(options: seq<CoapOption>) {
    forall i :: 0 <= i < |options| ==> WellTyped(options[i])
  }

  /** Writing one option and reading the whole area again, given how the rest reads. */
  lemma {:induction false} ReadFirst(delta: nat, value: seq<byte>, rest: seq<byte>)
    requires Encodable(delta) && Encodable(|value|) && ReadOptions(rest).Some?
    ensures ReadOptions(EncodeOption(delta, value) + rest)
         == Some([RawOption(delta, value, |EncodeOption(delta, value)|)] + ReadOptions(rest).value)
  {
    hide EncodeOption, ReadOption;
    ReadEncoded(delta, value, rest);
  }

  lemma {:induction false} DecodeFirst(o: CoapOption, current: u32, size: nat, found: seq<RawOption>)
    requires WellTyped(o) && current <= o.number
    ensures var raw := RawOption(o.number - current, ValueBytes(o.value), size);
            && Decode([raw] + found, current) == [o] + Decode(found, o.number)
            && TotalSize([raw] + found) == size + TotalSize(found)
  {
    var raw := RawOption(o.number - current, ValueBytes(o.value), size);
    assert ([raw] + found)[1..] == found;
    ValueRoundTrip(o);
  }

  lemma {:induction false} NothingToRead(tail: seq<byte>, current: u32)
    requires AtEnd(tail)
    ensures ReadOptions(tail) == Some([]) && Decode([], current) == [] && TotalSize([]) == 0
  {
  }

  /** The validator accepts any written option area followed by its end, and what it finds
      there stands for exactly the options that were written. */
  lemma {:induction false} OptionsRoundTrip(options: seq<CoapOption>, current: u32, tail: seq<byte>)
    requires AtEnd(tail) && AllWellTyped(options)
    ensures var s := EncodeOptions(options, current) + tail;
            && ReadOptions(s).Some?
            && Decode(ReadOptions(s).value, current) == Writable(options, current)
            && TotalSize(ReadOptions(s).value) == |EncodeOptions(options, current)|
    decreases |options|
  {
    hide ReadOptions, EncodeOption, Decode, TotalSize, WellTyped, AtEnd, ValueBytes;
    if !CanWrite(options, current) {
      assert EncodeOptions(options, current) + tail == tail;
      NothingToRead(tail, current);
    } else {
      var o := options[0];
      var delta, value := o.number - current, ValueBytes(o.value);
      var others := EncodeOptions(options[1..], o.number);
      OptionsRoundTrip(options[1..], o.number, tail);
      ReadFirst(delta, value, others + tail);
      Regroup(EncodeOption(delta, value), others, tail);
      DecodeFirst(o, current, |EncodeOption(delta, value)|, ReadOptions(others + tail).value);
    }
  }

  /** The distance of option `i` from the one before it can be encoded, and its length. */
  predicate FitsAt(options: seq<CoapOption>, current: nat, i: nat)
    requires i < |options|
  {
    var before := if i == 0 then current else options[i - 1].number;
    && before <= options[i].number && Encodable(options[i].number - before)
    && Encodable(|ValueBytes(options[i].value)|)
  }

  ghost predicate AllFit(options: seq<CoapOption>, current: nat) {
    forall i :: 0 <= i < |options| ==> FitsAt(options, current, i)
  }

  lemma FitsNext(options: seq<CoapOption>, current: nat)
    requires options != []
    ensures AllFit(options, current) <==> CanWrite(options, current) && AllFit(options[1..], options[0].number)
  {
    hide ValueBytes, Encodable;
    var rest, number := options[1..], options[0].number;
    assert CanWrite(options, current) <==> FitsAt(options, current, 0);
    if AllFit(options, current) {
      forall i | 0 <= i < |rest| ensures FitsAt(rest, number, i) {
        assert FitsAt(options, current, i + 1);
      }
    } else if CanWrite(options, current) && AllFit(rest, number) {
      forall i | 0 <= i < |options| ensures FitsAt(options, current, i) {
        if i > 0 {
          assert FitsAt(rest, number, i - 1);
        }
      }
    }
  }

  /** What is written is a prefix, and all of it exactly when every distance and length can be encoded. */
  lemma {:induction false} AllWritable(options: seq<CoapOption>, current: nat)
    ensures Writable(options, current) <= options
    ensures Writable(options, current) == options <==> AllFit(options, current)
    decreases |options|
  {
    hide Encodable, ValueBytes, FitsAt;
    if options != [] {
      FitsNext(options, current);
      AllWritable(options[1..], options[0].number);
      assert options == [options[0]] + options[1..];
    }
  }

  /** Numbers that can be encoded themselves are no trouble in any order. */
  lemma SmallNumbersFit(options: seq<CoapOption>)
    requires Sorted(options)
    requires forall i :: 0 <= i < |options| ==>
               Encodable(options[i].number) && Encodable(|ValueBytes(options[i].value)|)
    ensures AllFit(options, 0)
  {
  }
}
