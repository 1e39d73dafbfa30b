/** CoAP messages (section 3 of RFC 7252): the validating parser, the printer, and the
    round trip between them. */
module CoapMessage {
  import opened Common
  import opened CoapOptions

  const MIN_SIZE := 4
  const MAX_TOKEN_LENGTH := 8

  datatype Error = InvalidFormat | UnsupportedVersion | InvalidParameters

  /** The encoded message with the bounds of its payload. */
  datatype Message = Message(data: seq<byte>, payloadOffset: nat, payloadSize: nat)

  // ------------------------------------------------------------------ parsing

  function TokenLength(data: seq<byte>): nat
    requires |data| >= MIN_SIZE
  {
    data[0] % 16
  }

  /** The options and everything after them. */
  function AfterToken(data: seq<byte>): seq<byte>
    requires |data| >= MIN_SIZE && MIN_SIZE + TokenLength(data) <= |data|
  {
    data[MIN_SIZE + TokenLength(data)..]
  }

  /** What the datagram is, judged as a whole. */
  function Parse(data: seq<byte>): Result<Message, Error> {
    if |data| < MIN_SIZE then Err(InvalidFormat)
    else if data[0] / 64 != 1 then Err(UnsupportedVersion)
    else if TokenLength(data) > MAX_TOKEN_LENGTH || |data| < MIN_SIZE + TokenLength(data) then Err(InvalidFormat)
    else
      var area := AfterToken(data);
      match ReadOptions(area)
      case None => Err(InvalidFormat)
      case Some(options) =>
        var left := |area| - TotalSize(options);
        if left == 1 then Err(InvalidFormat)
        else if left > 1 then Ok(Message(data, |data| - left + 1, left - 1))
        else Ok(Message(data, |data|, 0))
  }

  /** The parser's single pass: it checks every option against what is left and keeps nothing
      but its position. */
  method CreateFromDatagram(data: seq<byte>) returns (r: Result<Message, Error>)
    ensures r == Parse(data)
  {
    hide ReadOption, ReadOptions, TotalSize;
    if |data| < MIN_SIZE {
      return Err(InvalidFormat);
    }
    if data[0] / 64 != 1 {
      return Err(UnsupportedVersion);
    }
    var tokenLength := data[0] % 16;
    if tokenLength > MAX_TOKEN_LENGTH || |data| < MIN_SIZE + tokenLength {
      return Err(InvalidFormat);
    }
    ghost var area := AfterToken(data);
    var pos := MIN_SIZE + tokenLength;
    while pos < |data| && data[pos] != PAYLOAD_MARKER
      invariant MIN_SIZE + tokenLength <= pos <= |data|
      invariant ReadOptions(area).Some? <==> ReadOptions(data[pos..]).Some?
      invariant ReadOptions(area).Some? ==>
                  TotalSize(ReadOptions(area).value)
                    == pos - (MIN_SIZE + tokenLength) + TotalSize(ReadOptions(data[pos..]).value)
    {
      ghost var start := pos;
      var ok;
      ok, pos := SkipOption(data, pos);
      if !ok {
        BadOption(data[start..]);
        return Err(InvalidFormat);
      }
      StepOver(data, start);
    }
    EndOfOptions(data[pos..]);
    var left := |data| - pos;
    if left > 0 {
      if left == 1 {
        return Err(InvalidFormat);
      }
      return Ok(Message(data, |data| - (left - 1), left - 1));
    }
    return Ok(Message(data, |data|, 0));
  }

  lemma {:induction false} BadOption(s: seq<byte>)
    requires !AtEnd(s) && ReadOption(s) == None
    ensures ReadOptions(s) == None
  {
  }

  lemma {:induction false} EndOfOptions(s: seq<byte>)
    requires AtEnd(s)
    ensures ReadOptions(s) == Some([]) && TotalSize([]) == 0
  {
  }

  /** One turn of the parser's loop, without looking at the value. */
  method SkipOption(data: seq<byte>, start: nat) returns (ok: bool, pos: nat)
    requires start < |data|
    ensures ok <==> ReadOption(data[start..]).Some?
    ensures ok ==> pos == start + ReadOption(data[start..]).value.size
  {
    ghost var s := data[start..];
    pos := start;
    var delta: nat, length: nat := data[pos] / 16, data[pos] % 16;
    if delta == 15 || length == 15 {
      return false, pos;
    }
    pos := pos + 1;
    if delta == 13 {
      if |data| - pos < 1 { return false, pos; }
      pos := pos + 1;
    } else if delta == 14 {
      if |data| - pos < 2 { return false, pos; }
      pos := pos + 2;
    }
    ghost var lengthAt := pos - start;
    assert lengthAt == 1 + ExtensionSize(delta);
    assert s[lengthAt..] == data[pos..];
    if length == 13 {
      if |data| - pos < 1 { return false, pos; }
      length := 13 + (data[pos] as nat);
      pos := pos + 1;
    } else if length == 14 {
      if |data| - pos < 2 { return false, pos; }
      length := 269 + ((data[pos] as nat) * 256 + data[pos + 1]);
      pos := pos + 2;
    }
    if |data| - pos < length { return false, pos; }
    pos := pos + length;
    ok := true;
  }

  lemma StepOver(data: seq<byte>, start: nat)
    requires start < |data| && data[start] != PAYLOAD_MARKER && ReadOption(data[start..]).Some?
    ensures var o := ReadOption(data[start..]).value;
            && (ReadOptions(data[start..]).Some? <==> ReadOptions(data[start + o.size..]).Some?)
            && (ReadOptions(data[start..]).Some? ==>
                  TotalSize(ReadOptions(data[start..]).value)
                    == o.size + TotalSize(ReadOptions(data[start + o.size..]).value))
  {
    hide ReadOption;
    var o := ReadOption(data[start..]).value;
    assert data[start..][o.size..] == data[start + o.size..];
    if ReadOptions(data[start + o.size..]).Some? {
      var rest := ReadOptions(data[start + o.size..]).value;
      assert ([o] + rest)[1..] == rest;
    }
  }

  // ----------------------------------------------------------------- accessors

  function GetType(m: Message): nat
    requires |m.data| >= MIN_SIZE
  {
    (m.data[0] / 16) % 4
  }

  function GetCode(m: Message): byte
    requires |m.data| >= MIN_SIZE
  {
    m.data[1]
  }

  function GetMessageId(m: Message): nat
    requires |m.data| >= MIN_SIZE
  {
    (m.data[2] as nat) * 256 + m.data[3]
  }

  function GetToken(m: Message): seq<byte>
    requires |m.data| >= MIN_SIZE && MIN_SIZE + TokenLength(m.data) <= |m.data|
  {
    m.data[MIN_SIZE..MIN_SIZE + Min(MAX_TOKEN_LENGTH, TokenLength(m.data))]
  }

  function GetPayload(m: Message): seq<byte>
    requires m.payloadOffset + m.payloadSize <= |m.data|
  {
    m.data[m.payloadOffset..m.payloadOffset + m.payloadSize]
  }

  // -------------------------------------------------------------------- sorting

  /** The position at which `o` is linked into a sorted list: after all numbers not above its own. */
  function InsertAt(sorted: seq<CoapOption>, o: CoapOption): (r: nat)
    ensures r <= |sorted|
  {
    if sorted == [] || sorted[0].number > o.number then 0 else 1 + InsertAt(sorted[1..], o)
  }

  function Insert(sorted: seq<CoapOption>, o: CoapOption): seq<CoapOption> {
    sorted[..InsertAt(sorted, o)] + [o] + sorted[InsertAt(sorted, o)..]
  }

  function Sort(options: seq<CoapOption>): seq<CoapOption> {
    if options == [] then [] else Insert(Sort(options[..|options| - 1]), options[|options| - 1])
  }

  /** The options with one number, in their order in the list. */
  function WithNumber(options: seq<CoapOption>, number: nat): seq<CoapOption> {
    if options == [] then []
    else (if options[0].number == number then [options[0]] else []) + WithNumber(options[1..], number)
  }

  lemma {:induction false} WithNumberConcat(a: seq<CoapOption>, b: seq<CoapOption>, number: nat)
    ensures WithNumber(a + b, number) == WithNumber(a, number) + WithNumber(b, number)
  {
    if a == [] {
      assert a + b == b;
    } else {
      WithNumberConcat(a[1..], b, number);
      assert (a + b)[1..] == a[1..] + b;
      var first := if a[0].number == number then [a[0]] else [];
      Regroup(first, WithNumber(a[1..], number), WithNumber(b, number));
    }
  }

  lemma {:induction false} InsertAtSplits(sorted: seq<CoapOption>, o: CoapOption)
    requires Sorted(sorted)
    ensures var at := InsertAt(sorted, o);
            && (forall i :: 0 <= i < at ==> sorted[i].number <= o.number)
            && (forall i :: at <= i < |sorted| ==> sorted[i].number > o.number)
  {
    if sorted != [] && sorted[0].number <= o.number {
      InsertAtSplits(sorted[1..], o);
      var at := InsertAt(sorted[1..], o);
      forall i | 0 <= i < at + 1 ensures sorted[i].number <= o.number {
        if i > 0 { assert sorted[i] == sorted[1..][i - 1]; }
      }
      forall i | at + 1 <= i < |sorted| ensures sorted[i].number > o.number {
        assert sorted[i] == sorted[1..][i - 1];
      }
    }
  }

  lemma {:induction false} NoneWithNumber(options: seq<CoapOption>, number: nat)
    requires forall i :: 0 <= i < |options| ==> options[i].number != number
    ensures WithNumber(options, number) == []
  {
    if options != [] {
      NoneWithNumber(options[1..], number);
    }
  }

  lemma {:induction false} InsertSorted(sorted: seq<CoapOption>, o: CoapOption)
    requires Sorted(sorted)
    ensures Sorted(Insert(sorted, o))
  {
    InsertAtSplits(sorted, o);
    hide InsertAt;
  }

  lemma {:induction false} StableParts(low: seq<CoapOption>, o: CoapOption, high: seq<CoapOption>, number: nat)
    requires forall i :: 0 <= i < |high| ==> high[i].number > o.number
    ensures WithNumber(low + ([o] + high), number) == WithNumber(low + high, number) + WithNumber([o], number)
  {
    OtherNumber(o, number);
    if o.number == number {
      NoneWithNumber(high, number);
    }
    hide WithNumber;
    WithNumberConcat(low, [o] + high, number);
    WithNumberConcat([o], high, number);
    WithNumberConcat(low, high, number);
    SwapEmpty(WithNumber(low, number), WithNumber([o], number), WithNumber(high, number));
  }

  lemma {:induction false} InsertStable(sorted: seq<CoapOption>, o: CoapOption, number: nat)
    requires Sorted(sorted)
    ensures WithNumber(Insert(sorted, o), number) == WithNumber(sorted, number) + WithNumber([o], number)
  {
    hide InsertAt, Sorted, WithNumber;
    InsertAtSplits(sorted, o);
    var at := InsertAt(sorted, o);
    StableParts(sorted[..at], o, sorted[at..], number);
    assert sorted[..at] + sorted[at..] == sorted;
    assert Insert(sorted, o) == sorted[..at] + ([o] + sorted[at..]);
  }

  lemma {:induction false} OtherNumber(o: CoapOption, number: nat)
    ensures o.number != number ==> WithNumber([o], number) == []
  {
    assert [o][1..] == [];
  }

  lemma SwapEmpty<T>(a: seq<T>, b: seq<T>, c: seq<T>)
    requires b == [] || c == []
    ensures a + (b + c) == (a + c) + b
  {
  }

  /** The options end up in order of their numbers, those with equal numbers in the order in
      which they were given. This determines the result. */
  lemma {:induction false} SortIsStable(options: seq<CoapOption>, number: nat)
    ensures Sorted(Sort(options)) && WithNumber(Sort(options), number) == WithNumber(options, number)
  {
    if options != [] {
      var front, last := options[..|options| - 1], options[|options| - 1];
      SortIsStable(front, number);
      InsertSorted(Sort(front), last);
      InsertStable(Sort(front), last, number);
      WithNumberConcat(front, [last], number);
      assert options == front + [last];
    }
  }

  lemma {:induction false} InsertSameOptions(sorted: seq<CoapOption>, o: CoapOption)
    ensures multiset(Insert(sorted, o)) == multiset(sorted) + multiset{o}
  {
    hide InsertAt;
    var at := InsertAt(sorted, o);
    assert sorted == sorted[..at] + sorted[at..];
  }

  lemma {:induction false} SortSameOptions(options: seq<CoapOption>)
    ensures multiset(Sort(options)) == multiset(options)
  {
    hide Insert;
    if options != [] {
      var front, last := options[..|options| - 1], options[|options| - 1];
      SortSameOptions(front);
      InsertSameOptions(Sort(front), last);
      assert options == front + [last];
    }
  }

  /** Linking the options one by one into a sorted list. */
  method LinkSorted(options: seq<CoapOption>) returns (sorted: seq<CoapOption>)
    ensures sorted == Sort(options)
  {
    sorted := [];
    for i := 0 to |options|
      invariant sorted == Sort(options[..i])
    {
      var o := options[i];
      var cursor := 0;
      while cursor < |sorted| && sorted[cursor].number <= o.number
        invariant 0 <= cursor <= |sorted|
        invariant InsertAt(sorted, o) == cursor + InsertAt(sorted[cursor..], o)
      {
        assert sorted[cursor..][1..] == sorted[cursor + 1..];
        cursor := cursor + 1;
      }
      assert options[..i + 1][..i] == options[..i];
      sorted := sorted[..cursor] + [o] + sorted[cursor..];
    }
    assert options[..|options|] == options;
  }

  // ------------------------------------------------------------------- printing

  function Header(code: byte, kind: nat, id: nat, tokenLength: nat): (r: seq<byte>)
    requires kind < 4 && id < 0x1_0000 && tokenLength <= MAX_TOKEN_LENGTH
    ensures |r| == MIN_SIZE
  {
    [64 + kind * 16 + tokenLength, code, id / 256, id % 256]
  }

  function Tail(payload: seq<byte>): (r: seq<byte>)
    ensures AtEnd(r)
    ensures |r| == if payload == [] then 0 else 1 + |payload|
  {
    if payload == [] then [] else [PAYLOAD_MARKER] + payload
  }

  /** The encoded message. */
  function Print(code: byte, kind: nat, options: seq<CoapOption>, id: nat, token: seq<byte>,
                 payload: seq<byte>): seq<byte>
    requires kind < 4 && id < 0x1_0000 && |token| <= MAX_TOKEN_LENGTH
  {
    Header(code, kind, id, |token|) + token + EncodeOptions(Sort(options), 0) + Tail(payload)
  }

  /** Space the options need. */
  method ComputeOptionsSize(options: seq<CoapOption>) returns (size: nat)
    requires Sorted(options)
    ensures size == |EncodeOptions(options, 0)|
  {
    size := 0;
    var current: nat, i := 0, 0;
    while i < |options|
      invariant 0 <= i <= |options|
      invariant current <= if i < |options| then options[i].number else U32
      invariant size + |EncodeOptions(options[i..], current)| == |EncodeOptions(options, 0)|
    {
      var o := options[i];
      assert options[i..][0] == o && options[i..][1..] == options[i + 1..];
      var delta, length := o.number - current, |ValueBytes(o.value)|;
      if !Encodable(delta) || !Encodable(length) {
        return;
      }
      size := size + (1 + |Extension(delta)| + |Extension(length)| + length);
      current := o.number;
      i := i + 1;
    }
  }

  /** Two writes next to each other are one. */
  lemma PatchTwice(buffer: seq<byte>, at: nat, a: seq<byte>, b: seq<byte>)
    requires at + |a| + |b| <= |buffer|
    ensures Overwrite(Overwrite(buffer, at, a), at + |a|, b) == Overwrite(buffer, at, a + b)
  {
  }

  /** Copies `bytes` into the buffer. */
  method Put(buffer: array<byte>, at: nat, bytes: seq<byte>)
    requires at + |bytes| <= buffer.Length
    modifies buffer
    ensures buffer[..] == Overwrite(old(buffer[..]), at, bytes)
  {
    forall i | 0 <= i < |bytes| {
      buffer[at + i] := bytes[i];
    }
  }

  /** One option: header, extensions, value. */
  method WriteOption(buffer: array<byte>, at: nat, delta: nat, value: seq<byte>) returns (end: nat)
    requires Encodable(delta) && Encodable(|value|)
    requires at + |EncodeOption(delta, value)| <= buffer.Length
    modifies buffer
    ensures end == at + |EncodeOption(delta, value)|
    ensures buffer[..] == Overwrite(old(buffer[..]), at, EncodeOption(delta, value))
  {
    hide Overwrite;
    ghost var before := buffer[..];
    var header := [Nibble(delta) * 16 + Nibble(|value|)];
    var ext, lengthExt := Extension(delta), Extension(|value|);
    hide Extension, Nibble;
    Put(buffer, at, header);
    end := at + 1;
    Put(buffer, end, ext);
    PatchTwice(before, at, header, ext);
    end := end + |ext|;
    Put(buffer, end, lengthExt);
    PatchTwice(before, at, header + ext, lengthExt);
    end := end + |lengthExt|;
    Put(buffer, end, value);
    PatchTwice(before, at, header + ext + lengthExt, value);
    end := end + |value|;
  }

  /** Writes the options without checking bounds: the space computed before is exactly enough. */
  method SerializeOptions(options: seq<CoapOption>, buffer: array<byte>, offset: nat)
    requires Sorted(options)
    requires offset + |EncodeOptions(options, 0)| <= buffer.Length
    modifies buffer
    ensures buffer[..] == Overwrite(old(buffer[..]), offset, EncodeOptions(options, 0))
  {
    hide Overwrite, EncodeOption, EncodeOptions, ValueBytes;
    var current: nat, i, pos := 0, 0, offset;
    ghost var before, done: seq<byte> := buffer[..], [];
    ghost var whole := EncodeOptions(options, 0);
    EmptyPatch(before, offset);
    assert options[0..] == options && [] + whole == whole;
    while i < |options|
      invariant 0 <= i <= |options|
      invariant current <= if i < |options| then options[i].number else U32
      invariant pos == offset + |done|
      invariant whole == done + EncodeOptions(options[i..], current)
      invariant buffer[..] == Overwrite(before, offset, done)
    {
      var o := options[i];
      var delta, value := o.number - current, ValueBytes(o.value);
      EncodeStep(options, i, current);
      if !Encodable(delta) || !Encodable(|value|) {
        break;
      }
      ghost var piece, rest := EncodeOption(delta, value), EncodeOptions(options[i + 1..], o.number);
      Regroup(done, piece, rest);
      pos := WriteOption(buffer, pos, delta, value);
      PatchTwice(before, offset, done, piece);
      done := done + piece;
      current := o.number;
      i := i + 1;
    }
    if i == |options| {
      assert options[i..] == [];
      NothingToEncode(current);
    }
    assert done + [] == done;
  }

  lemma {:induction false} NothingToEncode(current: nat)
    ensures EncodeOptions([], current) == []
  {
  }

  lemma EmptyPatch(buffer: seq<byte>, at: nat)
    requires at <= |buffer|
    ensures Overwrite(buffer, at, []) == buffer
  {
  }

  lemma {:induction false} EncodeStep(options: seq<CoapOption>, i: nat, current: nat)
    requires i < |options| && current <= options[i].number
    ensures var delta, value := options[i].number - current, ValueBytes(options[i].value);
            EncodeOptions(options[i..], current) ==
              if Encodable(delta) && Encodable(|value|) then
                EncodeOption(delta, value) + EncodeOptions(options[i + 1..], options[i].number)
              else []
  {
    assert options[i..][0] == options[i] && options[i..][1..] == options[i + 1..];
  }

  /** Builds the message in a buffer of exactly the size it needs. A payload that is not given
      yet is filled with zeros. */
  method Create(code: byte, kind: nat, options: seq<CoapOption>, id: nat, token: seq<byte>,
                payload: Option<seq<byte>>, payloadSize: nat)
    returns (r: Result<Message, Error>)
    requires kind < 4 && id < 0x1_0000
    requires payload.Some? ==> |payload.value| == payloadSize
    ensures r == if |token| > MAX_TOKEN_LENGTH then Err(InvalidParameters)
                 else
                   var body := if payload.Some? then payload.value else seq(payloadSize, _ => 0);
                   var data := Print(code, kind, options, id, token, body);
                   Ok(Message(data, |data| - payloadSize, payloadSize))
  {
    if |token| > MAX_TOKEN_LENGTH {
      return Err(InvalidParameters);
    }
    hide Overwrite, Header, Tail, EncodeOptions, Sort;
    var sorted := LinkSorted(options);
    SortIsStable(options, 0);
    var optionsSize := ComputeOptionsSize(sorted);
    var body := if payload.Some? then payload.value else seq(payloadSize, _ => 0);
    var size := MIN_SIZE + |token| + optionsSize + (if payloadSize > 0 then 1 + payloadSize else 0);
    var buffer := new byte[size](_ => 0);
    Fill(buffer, Header(code, kind, id, |token|), token, sorted, Tail(body), optionsSize);
    r := Ok(Message(buffer[..], size - payloadSize, payloadSize));
  }

  /** Writes the four parts of a message one after the other. */
  method Fill(buffer: array<byte>, header: seq<byte>, token: seq<byte>, sorted: seq<CoapOption>, tail: seq<byte>,
              optionsSize: nat)
    requires Sorted(sorted) && optionsSize == |EncodeOptions(sorted, 0)| && |header| == MIN_SIZE
    requires buffer.Length == |header| + |token| + optionsSize + |tail|
    modifies buffer
    ensures buffer[..] == header + token + EncodeOptions(sorted, 0) + tail
  {
    hide Overwrite, EncodeOptions;
    ghost var before := buffer[..];
    ghost var encoded := EncodeOptions(sorted, 0);
    Put(buffer, 0, header);
    Put(buffer, MIN_SIZE, token);
    PatchTwice(before, 0, header, token);
    SerializeOptions(sorted, buffer, MIN_SIZE + |token|);
    PatchTwice(before, 0, header + token, encoded);
    Put(buffer, MIN_SIZE + |token| + optionsSize, tail);
    PatchTwice(before, 0, header + token + encoded, tail);
    WholePatch(before, header + token + encoded + tail);
  }

  lemma WholePatch(buffer: seq<byte>, bytes: seq<byte>)
    requires |bytes| == |buffer|
    ensures Overwrite(buffer, 0, bytes) == bytes
  {
  }

  // ---------------------------------------------------------------- round trip

  /** A message whose parts are where the format puts them. */
  ghost predicate LaidOut(data: seq<byte>, header: seq<byte>, token: seq<byte>, encoded: seq<byte>,
                          payload: seq<byte>) {
    && |header| == MIN_SIZE
    && |data| == MIN_SIZE + |token| + |encoded| + |Tail(payload)|
    && data[..MIN_SIZE] == header
    && data[MIN_SIZE..MIN_SIZE + |token|] == token
    && data[MIN_SIZE + |token|..] == encoded + Tail(payload)
    && data[|data| - |payload|..] == payload
  }

  lemma {:induction false} ParseLaidOut(data: seq<byte>, code: byte, kind: nat, id: nat, token: seq<byte>,
                                        encoded: seq<byte>, payload: seq<byte>)
    requires kind < 4 && id < 0x1_0000 && |token| <= MAX_TOKEN_LENGTH
    requires LaidOut(data, Header(code, kind, id, |token|), token, encoded, payload)
    requires ReadOptions(encoded + Tail(payload)).Some?
    requires TotalSize(ReadOptions(encoded + Tail(payload)).value) == |encoded|
    ensures Parse(data) == Ok(Message(data, |data| - |payload|, |payload|))
  {
    hide ReadOptions, TotalSize, Header, Tail;
    HeaderFields(code, kind, id, |token|);
    assert data[0] == data[..MIN_SIZE][0] == Header(code, kind, id, |token|)[0];
    assert AfterToken(data) == encoded + Tail(payload);
  }

  lemma FieldsLaidOut(data: seq<byte>, code: byte, kind: nat, id: nat, token: seq<byte>, encoded: seq<byte>,
                      payload: seq<byte>)
    requires kind < 4 && id < 0x1_0000 && |token| <= MAX_TOKEN_LENGTH
    requires LaidOut(data, Header(code, kind, id, |token|), token, encoded, payload)
    ensures TokenLength(data) == |token| && AfterToken(data) == encoded + Tail(payload)
    ensures var m := Message(data, |data| - |payload|, |payload|);
            && GetType(m) == kind && GetCode(m) == code && GetMessageId(m) == id
            && GetToken(m) == token && GetPayload(m) == payload
  {
    HeaderFields(code, kind, id, |token|);
    hide Header, Tail;
    var h := Header(code, kind, id, |token|);
    assert data[0] == h[0] && data[1] == h[1] && data[2] == h[2] && data[3] == h[3];
  }

  /** Parsing a printed message gives back the very message, with its type, code, number, token
      and payload. */
  lemma PrintParse(code: byte, kind: nat, options: seq<CoapOption>, id: nat, token: seq<byte>, payload: seq<byte>)
    requires kind < 4 && id < 0x1_0000 && |token| <= MAX_TOKEN_LENGTH
    requires AllWellTyped(options)
    ensures var data := Print(code, kind, options, id, token, payload);
            var m := Message(data, |data| - |payload|, |payload|);
            && Parse(data) == Ok(m)
            && GetType(m) == kind && GetCode(m) == code && GetMessageId(m) == id
            && TokenLength(data) == |token| && GetToken(m) == token && GetPayload(m) == payload
  {
    hide ReadOptions, EncodeOptions, Decode, TotalSize, Sort, Writable, Header, Tail, Parse, LaidOut, AtEnd;
    hide AllWellTyped;
    hide TokenLength, AfterToken, GetType, GetCode, GetMessageId, GetToken, GetPayload;
    var encoded := EncodeOptions(Sort(options), 0);
    var data := Print(code, kind, options, id, token, payload);
    SortKeepsTypes(options);
    OptionsRoundTrip(Sort(options), 0, Tail(payload));
    Layout(Header(code, kind, id, |token|), token, encoded, payload);
    ParseLaidOut(data, code, kind, id, token, encoded, payload);
    FieldsLaidOut(data, code, kind, id, token, encoded, payload);
  }

  /** The option area of a printed message stands for the sorted options, all up to the first that
      could not be encoded. */
  lemma {:induction false} PrintDecode(code: byte, kind: nat, options: seq<CoapOption>, id: nat, token: seq<byte>,
                                       payload: seq<byte>)
    requires kind < 4 && id < 0x1_0000 && |token| <= MAX_TOKEN_LENGTH
    requires AllWellTyped(options)
    ensures var data := Print(code, kind, options, id, token, payload);
            && |data| >= MIN_SIZE && MIN_SIZE + TokenLength(data) <= |data|
            && ReadOptions(AfterToken(data)).Some?
            && Decode(ReadOptions(AfterToken(data)).value, 0) == Writable(Sort(options), 0)
  {
    var encoded := EncodeOptions(Sort(options), 0);
    var data := Print(code, kind, options, id, token, payload);
    SortKeepsTypes(options);
    OptionsRoundTrip(Sort(options), 0, Tail(payload));
    Layout(Header(code, kind, id, |token|), token, encoded, payload);
    hide ReadOptions, EncodeOptions, Decode, TotalSize, Sort, Writable, Header, Tail, LaidOut;
    hide GetType, GetCode, GetMessageId, GetToken, GetPayload;
    FieldsLaidOut(data, code, kind, id, token, encoded, payload);
  }

  lemma HeaderFields(code: byte, kind: nat, id: nat, tokenLength: nat)
    requires kind < 4 && id < 0x1_0000 && tokenLength <= MAX_TOKEN_LENGTH
    ensures var h := Header(code, kind, id, tokenLength);
            && h[0] / 64 == 1 && (h[0] / 16) % 4 == kind && h[0] % 16 == tokenLength
            && h[1] == code && (h[2] as nat) * 256 + h[3] == id
  {
  }

  /** Where the parts of a message are found in it. */
  lemma Layout(header: seq<byte>, token: seq<byte>, encoded: seq<byte>, payload: seq<byte>)
    requires |header| == MIN_SIZE
    ensures LaidOut(header + token + encoded + Tail(payload), header, token, encoded, payload)
  {
  }

  lemma {:induction false} SortKeepsTypes(options: seq<CoapOption>)
    requires AllWellTyped(options)
    ensures AllWellTyped(Sort(options))
  {
    SortSameOptions(options);
    hide Sort, WellTyped;
    forall i | 0 <= i < |Sort(options)| ensures WellTyped(Sort(options)[i]) {
      assert Sort(options)[i] in multiset(Sort(options));
      assert Sort(options)[i] in options;
    }
  }
}
