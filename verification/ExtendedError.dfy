/** The extended error of CoAP responses, a protobuf message with an optional namespace, a code and
    an optional text, against a plain list of fields. */
module ExtendedError {
  import opened Common
  import opened Protobuf

  type i32 = n: int | -0x8000_0000 <= n < 0x8000_0000

  datatype ExtendedError = ExtendedError(nameSpace: Option<seq<byte>>, code: i32, message: Option<seq<byte>>)

  const NOTHING := ExtendedError(None, 0, None)

  datatype Error = InvalidFormat | InvalidSyntax

  const NAMESPACE_FIELD := 1
  const CODE_FIELD := 2
  const MESSAGE_FIELD := 3

  const VARINT := 0
  const BITS_64 := 1
  const LENGTH_DELIMITED := 2
  const BITS_32 := 5

  // ----------------------------------------------------------------------- fields

  datatype Content = Number(value: u64) | Text(bytes: seq<byte>) | Fixed64(bytes: seq<byte>) | Fixed32(bytes: seq<byte>)

  datatype Field = Field(number: nat, content: Content)

  function WireType(content: Content): nat {
    match content
    case Number(_) => VARINT
    case Fixed64(_) => BITS_64
    case Text(_) => LENGTH_DELIMITED
    case Fixed32(_) => BITS_32
  }

  function WireContent(content: Content): seq<byte> {
    match content
    case Number(value) => Varint(value)
    case Text(bytes) => Varint(|bytes|) + bytes
    case Fixed64(bytes) => bytes
    case Fixed32(bytes) => bytes
  }

  function Wire(field: Field): seq<byte>
    requires field.number < 32
  {
    [field.number * 8 + WireType(field.content)] + WireContent(field.content)
  }

  /** A field as the schema wants it, or one the schema does not know. */
  predicate Acceptable(field: Field) {
    && field.number < 32
    && (field.number == NAMESPACE_FIELD || field.number == MESSAGE_FIELD ==> field.content.Text?)
    && (field.number == CODE_FIELD ==> field.content.Number?)
    && (field.content.Text? ==> |field.content.bytes| + MAX_VARINT_SIZE < U64)
    && (field.content.Fixed64? ==> |field.content.bytes| == 8)
    && (field.content.Fixed32? ==> |field.content.bytes| == 4)
  }

  function ToI32(value: int): i32 {
    (value + 0x8000_0000) % 0x1_0000_0000 - 0x8000_0000
  }

  /** What a field says; fields with other numbers say nothing. */
  function Apply(e: ExtendedError, field: Field): ExtendedError {
    match field.content
    case Text(bytes) =>
      if field.number == NAMESPACE_FIELD then e.(nameSpace := Some(bytes))
      else if field.number == MESSAGE_FIELD then e.(message := Some(bytes))
      else e
    case Number(value) => if field.number == CODE_FIELD then e.(code := ToI32(FromZigZag(value))) else e
    case _ => e
  }

  function ApplyAll(e: ExtendedError, fields: seq<Field>): ExtendedError
    decreases |fields|
  {
    if fields == [] then e else ApplyAll(Apply(e, fields[0]), fields[1..])
  }

  ghost predicate AllAcceptable(fields: seq<Field>) {
    forall i :: 0 <= i < |fields| ==> Acceptable(fields[i])
  }

  function WireAll(fields: seq<Field>): seq<byte>
    requires AllAcceptable(fields)
  {
    if fields == [] then [] else Wire(fields[0]) + WireAll(fields[1..])
  }

  // --------------------------------------------------------------------- encoding

  function TextField(number: nat, text: Option<seq<byte>>): seq<Field> {
    match text
    case None => []
    case Some(bytes) => [Field(number, Text(bytes))]
  }

  function FieldsOf(e: ExtendedError): seq<Field> {
    TextField(NAMESPACE_FIELD, e.nameSpace) + [Field(CODE_FIELD, Number(ToZigZag(e.code)))]
        + TextField(MESSAGE_FIELD, e.message)
  }

  predicate Short(text: Option<seq<byte>>) {
    text.Some? ==> |text.value| + MAX_VARINT_SIZE < U64
  }

  predicate Encodable(e: ExtendedError) {
    Short(e.nameSpace) && Short(e.message)
  }

  /** The bytes of one optional text. */
  function TextBytes(number: nat, text: Option<seq<byte>>): seq<byte>
    requires number < 32
  {
    if text == None then [] else [number * 8 + LENGTH_DELIMITED] + Varint(|text.value|) + text.value
  }

  function Encoded(e: ExtendedError): seq<byte> {
    TextBytes(NAMESPACE_FIELD, e.nameSpace) + [CODE_FIELD * 8 + VARINT] + Varint(ToZigZag(e.code))
        + TextBytes(MESSAGE_FIELD, e.message)
  }

  /** The bytes written are those of the list of fields. */
  lemma EncodedFields(e: ExtendedError)
    requires Encodable(e)
    ensures AllAcceptable(FieldsOf(e)) && Encoded(e) == WireAll(FieldsOf(e))
  {
    hide Varint;
    var code := Field(CODE_FIELD, Number(ToZigZag(e.code)));
    var fields := FieldsOf(e);
    var last := TextField(MESSAGE_FIELD, e.message);
    assert WireAll(last) == TextBytes(MESSAGE_FIELD, e.message) by {
      if e.message.Some? { OneField(last[0]); }
    }
    FirstField(code, last);
    if e.nameSpace.Some? {
      var first := Field(NAMESPACE_FIELD, Text(e.nameSpace.value));
      assert fields == [first] + ([code] + last);
      FirstField(first, [code] + last);
    } else {
      assert fields == [code] + last;
    }
  }

  lemma OneField(field: Field)
    requires Acceptable(field)
    ensures WireAll([field]) == Wire(field)
  {
    assert [field][1..] == [];
  }

  lemma {:induction false} FirstField(field: Field, rest: seq<Field>)
    requires Acceptable(field) && AllAcceptable(rest)
    ensures AllAcceptable([field] + rest) && WireAll([field] + rest) == Wire(field) + WireAll(rest)
  {
    assert ([field] + rest)[1..] == rest;
  }

  method GetEncodedSize(e: ExtendedError) returns (size: nat)
    requires Encodable(e)
    ensures size == |Encoded(e)|
  {
    hide Varint;
    var codeSize := VarintSize(ToZigZag(e.code));
    size := 1 + codeSize;
    if e.nameSpace.Some? {
      var n := VarintSize(|e.nameSpace.value|);
      size := size + 1 + n + |e.nameSpace.value|;
    }
    if e.message.Some? {
      var n := VarintSize(|e.message.value|);
      size := size + 1 + n + |e.message.value|;
    }
  }

  method PutKey(key: byte, buffer: array<byte>, at: nat)
    requires at < buffer.Length
    modifies buffer
    ensures buffer[..at + 1] == old(buffer[..at]) + [key]
    ensures forall k :: at + 1 <= k < buffer.Length ==> buffer[k] == old(buffer[k])
  {
    buffer[at] := key;
  }

  method PutText(number: nat, text: Option<seq<byte>>, buffer: array<byte>, at: nat) returns (end: nat)
    requires number < 32 && Short(text) && at + |TextBytes(number, text)| <= buffer.Length
    modifies buffer
    ensures end == at + |TextBytes(number, text)|
    ensures buffer[..end] == old(buffer[..at]) + TextBytes(number, text)
    ensures forall k :: end <= k < buffer.Length ==> buffer[k] == old(buffer[k])
  {
    hide Varint, TextBytes;
    TextBytesIs(number, text);
    end := at;
    if text.Some? {
      ghost var start, key: byte, length := buffer[..at], number * 8 + LENGTH_DELIMITED, Varint(|text.value|);
      PutKey(number * 8 + LENGTH_DELIMITED, buffer, end);
      end := end + 1;
      RegroupFour(start, [key], length, text.value);
      var n := EncodeVarint(|text.value|, buffer, end);
      end := end + n;
      Copy(text.value, buffer, end);
      end := end + |text.value|;
    }
  }

  lemma TextBytesIs(number: nat, text: Option<seq<byte>>)
    requires number < 32
    ensures text == None ==> TextBytes(number, text) == []
    ensures text.Some? ==>
              TextBytes(number, text) == [number * 8 + LENGTH_DELIMITED] + Varint(|text.value|) + text.value
  {
  }

  lemma RegroupFour(a: seq<byte>, b: seq<byte>, c: seq<byte>, d: seq<byte>)
    ensures a + b + c + d == a + (b + c + d)
  {
  }

  method Copy(bytes: seq<byte>, buffer: array<byte>, at: nat)
    requires at + |bytes| <= buffer.Length
    modifies buffer
    ensures buffer[..at + |bytes|] == old(buffer[..at]) + bytes
    ensures forall k :: at + |bytes| <= k < buffer.Length ==> buffer[k] == old(buffer[k])
  {
    forall i | 0 <= i < |bytes| {
      buffer[at + i] := bytes[i];
    }
  }

  /** Fills exactly as many bytes as `GetEncodedSize` says. */
  method Encode(e: ExtendedError, buffer: array<byte>)
    requires Encodable(e) && |Encoded(e)| <= buffer.Length
    modifies buffer
    ensures buffer[..|Encoded(e)|] == Encoded(e)
    ensures forall k :: |Encoded(e)| <= k < buffer.Length ==> buffer[k] == old(buffer[k])
  {
    hide Varint, TextBytes;
    var at := PutText(NAMESPACE_FIELD, e.nameSpace, buffer, 0);
    PutKey(CODE_FIELD * 8 + VARINT, buffer, at);
    at := at + 1;
    var n := EncodeVarint(ToZigZag(e.code), buffer, at);
    at := at + n;
    at := PutText(MESSAGE_FIELD, e.message, buffer, at);
  }

  // --------------------------------------------------------------------- decoding

  datatype Decoded = Decoded(error: Option<Error>, result: ExtendedError)

  /** How many bytes after its key an unknown field takes; the sum wraps at 64 bits. */
  function SkipSize(wireType: nat, s: seq<byte>): Option<nat> {
    if wireType == VARINT then
      match ReadVarint(s)
      case None => None
      case Some(read) => Some(read.size)
    else if wireType == LENGTH_DELIMITED then
      match ReadVarint(s)
      case None => None
      case Some(read) => Some((read.size + read.value) % U64)
    else if wireType == BITS_32 then Some(4)
    else if wireType == BITS_64 then Some(8)
    else None
  }

  datatype Parsed = Failed(error: Error) | Parsed(field: Field, size: nat)

  /** The field at the start of a message of at least two bytes. */
  function ParseField(s: seq<byte>): Parsed
    requires |s| >= 2
  {
    var number, wireType, rest := s[0] / 8, s[0] % 8, s[1..];
    if number == NAMESPACE_FIELD || number == MESSAGE_FIELD then
      if wireType != LENGTH_DELIMITED then Failed(InvalidSyntax)
      else
        match ReadVarint(rest)
        case None => Failed(InvalidFormat)
        case Some(read) =>
          if |rest| < read.size + read.value then Failed(InvalidFormat)
          else Parsed(Field(number, Text(rest[read.size..read.size + read.value])), 1 + read.size + read.value)
    else if number == CODE_FIELD then
      if wireType != VARINT then Failed(InvalidSyntax)
      else
        match ReadVarint(rest)
        case None => Failed(InvalidFormat)
        case Some(read) => Parsed(Field(number, Number(read.value)), 1 + read.size)
    else
      match SkipSize(wireType, rest)
      case None => Failed(InvalidFormat)
      case Some(n) => if n > |rest| then Failed(InvalidFormat) else Parsed(Field(number, Fixed32([])), 1 + n)
  }

  lemma ParsedInside(s: seq<byte>)
    requires |s| >= 2
    ensures ParseField(s).Parsed? ==> 1 <= ParseField(s).size <= |s|
  {
    VarintEndInside(s[1..], 0);
  }

  function DecodeFrom(s: seq<byte>, e: ExtendedError): Decoded
    decreases |s|
  {
    if |s| < 2 then Decoded(if s == [] then None else Some(InvalidFormat), e)
    else
      match ParseField(s)
      case Failed(error) => Decoded(Some(error), e)
      case Parsed(field, size) =>
        ParsedInside(s);
        DecodeFrom(s[size..], Apply(e, field))
  }

  /** Reads a message field by field, each one updating the result. */
  method Decode(payload: seq<byte>) returns (r: Decoded)
    ensures r == DecodeFrom(payload, NOTHING)
  {
    hide ParseField, Apply;
    var e, at := NOTHING, 0;
    assert payload[0..] == payload;
    while |payload| - at >= 2
      invariant 0 <= at <= |payload|
      invariant DecodeFrom(payload, NOTHING) == DecodeFrom(payload[at..], e)
    {
      ghost var s := payload[at..];
      ParsedInside(s);
      var error, next, size := DecodeField(payload[at..], e);
      if error.Some? {
        return Decoded(error, e);
      }
      assert s[size..] == payload[at + size..];
      e, at := next, at + size;
    }
    if at != |payload| {
      return Decoded(Some(InvalidFormat), e);
    }
    return Decoded(None, e);
  }

  /** One round of the loop: the key, then what it announces. */
  method DecodeField(s: seq<byte>, e: ExtendedError) returns (error: Option<Error>, next: ExtendedError, size: nat)
    requires |s| >= 2
    ensures match ParseField(s)
            case Failed(why) => error == Some(why)
            case Parsed(field, n) => error == None && next == Apply(e, field) && size == n
  {
    hide ReadVarint, FromZigZag, ToI32;
    var number, wireType, rest := s[0] / 8, s[0] % 8, s[1..];
    error, next, size := None, e, 0;
    if number == NAMESPACE_FIELD || number == MESSAGE_FIELD {
      if wireType != LENGTH_DELIMITED {
        return Some(InvalidSyntax), e, 0;
      }
      var length, consumed := DecodeVarint(rest);
      if consumed == 0 || |rest| - consumed < length {
        return Some(InvalidFormat), e, 0;
      }
      var text := rest[consumed..consumed + length];
      if number == NAMESPACE_FIELD {
        next := e.(nameSpace := Some(text));
      } else {
        next := e.(message := Some(text));
      }
      size := 1 + consumed + length;
    } else if number == CODE_FIELD {
      if wireType != VARINT {
        return Some(InvalidSyntax), e, 0;
      }
      var zigzag, consumed := DecodeVarint(rest);
      if consumed == 0 {
        return Some(InvalidFormat), e, 0;
      }
      next := e.(code := ToI32(FromZigZag(zigzag)));
      size := 1 + consumed;
    } else {
      var skip := SkipField(wireType, rest);
      if skip == None || skip.value > |rest| {
        return Some(InvalidFormat), e, 0;
      }
      size := 1 + skip.value;
    }
  }

  method SkipField(wireType: nat, s: seq<byte>) returns (size: Option<nat>)
    ensures size == SkipSize(wireType, s)
  {
    hide ReadVarint;
    if wireType == VARINT {
      var _, n := DecodeVarint(s);
      return if n == 0 then None else Some(n);
    } else if wireType == LENGTH_DELIMITED {
      var length, n := DecodeVarint(s);
      return if n == 0 then None else Some((n + length) % U64);
    } else if wireType == BITS_32 {
      return Some(4);
    } else if wireType == BITS_64 {
      return Some(8);
    }
    return None;
  }

  // ------------------------------------------------------------------- round trip

  /** A field is read back in front of anything. */
  lemma FieldRoundTrip(field: Field, tail: seq<byte>, e: ExtendedError)
    requires Acceptable(field)
    ensures |Wire(field)| >= 2
    ensures var parsed := ParseField(Wire(field) + tail);
            parsed.Parsed? && parsed.size == |Wire(field)| && Apply(e, parsed.field) == Apply(e, field)
  {
    hide Varint, ReadVarint, ToI32, FromZigZag;
    var s := Wire(field) + tail;
    var content := field.content;
    assert s[1..] == WireContent(content) + tail;
    match content {
      case Number(value) =>
        VarintRoundTrip(value, tail);
      case Text(bytes) =>
        VarintRoundTrip(|bytes|, bytes + tail);
        assert WireContent(content) + tail == Varint(|bytes|) + (bytes + tail);
        var n := |Varint(|bytes|)|;
        assert (Varint(|bytes|) + (bytes + tail))[n..n + |bytes|] == bytes;
      case Fixed64(_) =>
      case Fixed32(_) =>
    }
  }

  /** A message made of any list of fields, in any order, repeated or unknown, decodes to what the
      fields say one after the other. */
  lemma {:induction false} FieldsRoundTrip(fields: seq<Field>, e: ExtendedError)
    requires AllAcceptable(fields)
    ensures DecodeFrom(WireAll(fields), e) == Decoded(None, ApplyAll(e, fields))
  {
    hide ParseField, WireContent, Apply;
    if fields != [] {
      var rest := WireAll(fields[1..]);
      FieldRoundTrip(fields[0], rest, e);
      FieldsRoundTrip(fields[1..], Apply(e, fields[0]));
      assert (Wire(fields[0]) + rest)[|Wire(fields[0])|..] == rest;
    }
  }

  /** What makes a field bad: a wire type other than the schema's has its own error; otherwise the
      number, the length or the content does not end within the message, or the wire type of an unknown
      field is none that can be skipped. */
  lemma BadFieldIff(s: seq<byte>)
    requires |s| >= 2
    ensures var number, wireType := s[0] / 8, s[0] % 8;
            var parsed, read := ParseField(s), ReadVarint(s[1..]);
            var isText := number == NAMESPACE_FIELD || number == MESSAGE_FIELD;
            && (parsed == Failed(InvalidSyntax) <==>
                  (isText && wireType != LENGTH_DELIMITED) || (number == CODE_FIELD && wireType != VARINT))
            && (isText && wireType == LENGTH_DELIMITED ==>
                  (parsed.Parsed? <==> read.Some? && 1 + read.value.size + read.value.value <= |s|))
            && (number == CODE_FIELD && wireType == VARINT ==> (parsed.Parsed? <==> read.Some?))
            && (!isText && number != CODE_FIELD ==>
                  && (wireType == BITS_32 ==> (parsed.Parsed? <==> |s| >= 5))
                  && (wireType == BITS_64 ==> (parsed.Parsed? <==> |s| >= 9))
                  && (wireType == VARINT ==> (parsed.Parsed? <==> read.Some?))
                  && (wireType == LENGTH_DELIMITED ==>
                        (parsed.Parsed? <==> read.Some? && 1 + (read.value.size + read.value.value) % U64 <= |s|))
                  && (wireType == 3 || wireType == 4 || wireType > 5 ==> parsed.Failed?))
  {
    VarintEndInside(s[1..], 0);
  }

  /** Decoding stops at the first bad field, or at a byte too few for one, with its error and with what
      the fields before it said. */
  lemma {:induction false} StopsAtBad(fields: seq<Field>, bad: seq<byte>, e: ExtendedError)
    requires AllAcceptable(fields) && bad != [] && (|bad| >= 2 ==> ParseField(bad).Failed?)
    ensures var error := if |bad| == 1 then InvalidFormat else ParseField(bad).error;
            DecodeFrom(WireAll(fields) + bad, e) == Decoded(Some(error), ApplyAll(e, fields))
    decreases |fields|
  {
    hide ParseField, WireContent, Apply;
    if fields == [] {
      assert [] + bad == bad;
    } else {
      var rest := WireAll(fields[1..]);
      FieldRoundTrip(fields[0], rest + bad, e);
      StopsAtBad(fields[1..], bad, Apply(e, fields[0]));
      Regroup(Wire(fields[0]), rest, bad);
      assert (Wire(fields[0]) + (rest + bad))[|Wire(fields[0])|..] == rest + bad;
    }
  }

  /** A code is kept to 32 bits. */
  lemma CodeWraps(value: int)
    ensures (ToI32(value) - value) % 0x1_0000_0000 == 0
  {
  }

  lemma CodeRoundTrip(code: i32)
    ensures ToI32(FromZigZag(ToZigZag(code))) == code
  {
    hide FromZigZag, ToZigZag;
    ZigZagInverse(code, 0);
  }

  lemma FieldsSayAll(e: ExtendedError)
    ensures ApplyAll(NOTHING, FieldsOf(e)) == e
  {
    hide FromZigZag, ToZigZag, ToI32;
    CodeRoundTrip(e.code);
    var code := Field(CODE_FIELD, Number(ToZigZag(e.code)));
    var first, last := TextField(NAMESPACE_FIELD, e.nameSpace), TextField(MESSAGE_FIELD, e.message);
    var named := NOTHING.(nameSpace := e.nameSpace);
    if e.nameSpace.Some? {
      assert FieldsOf(e)[1..] == [code] + last;
    } else {
      assert FieldsOf(e) == [code] + last;
    }
    assert ApplyAll(NOTHING, FieldsOf(e)) == ApplyAll(named, [code] + last);
    assert ([code] + last)[1..] == last;
    assert ApplyAll(named, [code] + last) == ApplyAll(named.(code := e.code), last);
    if e.message.Some? {
      assert last[1..] == [];
    }
  }

  /** Decoding an encoded error gives back the same error. */
  lemma RoundTrip(e: ExtendedError)
    requires Encodable(e)
    ensures DecodeFrom(Encoded(e), NOTHING) == Decoded(None, e)
  {
    hide DecodeFrom, Encoded, WireAll, FieldsOf, ApplyAll, AllAcceptable;
    EncodedFields(e);
    FieldsRoundTrip(FieldsOf(e), NOTHING);
    FieldsSayAll(e);
  }
}
