/** The format of a CoAP message as a grammar, and that the parser accepts exactly what it allows. */
module CoapGrammar {
  import opened Common
  import opened CoapOptions
  import opened CoapMessage

  // ------------------------------------------------------------------- options

  ghost predicate AllEncodable(raw: seq<RawOption>) {
    forall i :: 0 <= i < |raw| ==> Encodable(raw[i].delta) && Encodable(|raw[i].value|)
  }

  /** An option area: one encoded option after the other. */
  function Area(raw: seq<RawOption>): seq<byte> {
    if raw == [] then []
    else if !Encodable(raw[0].delta) || !Encodable(|raw[0].value|) then []
    else EncodeOption(raw[0].delta, raw[0].value) + Area(raw[1..])
  }

  /** A number has one form only. */
  lemma ExtendedForm(nibble: nat, ext: seq<byte>)
    requires nibble < 15 && |ext| >= ExtensionSize(nibble)
    ensures var n := Extended(nibble, ext);
            Encodable(n) && Nibble(n) == nibble && Extension(n) == ext[..ExtensionSize(nibble)]
  {
    var n := Extended(nibble, ext);
    if nibble == 14 {
      assert (n - 269) / 256 == ext[0] && (n - 269) % 256 == ext[1];
    }
  }

  /** What the validator reads as an option is the encoding of what it reads. */
  lemma ReadIsEncoded(s: seq<byte>)
    requires |s| > 0 && ReadOption(s).Some?
    ensures var o := ReadOption(s).value;
            && Encodable(o.delta) && Encodable(|o.value|)
            && s[..o.size] == EncodeOption(o.delta, o.value)
  {
    hide Extended, Extension, Nibble;
    var o := ReadOption(s).value;
    var dn, ln := s[0] / 16, s[0] % 16;
    var lengthAt := 1 + ExtensionSize(dn);
    var valueAt := lengthAt + ExtensionSize(ln);
    ExtendedForm(dn, s[1..]);
    ExtendedForm(ln, s[lengthAt..]);
    assert s[1..][..ExtensionSize(dn)] == s[1..lengthAt];
    assert s[lengthAt..][..ExtensionSize(ln)] == s[lengthAt..valueAt];
    assert s[..o.size] == [s[0]] + s[1..lengthAt] + s[lengthAt..valueAt] + s[valueAt..o.size];
  }

  lemma {:induction false} ReadIsArea(s: seq<byte>)
    requires ReadOptions(s).Some?
    ensures var raw := ReadOptions(s).value;
            && AllEncodable(raw) && TotalSize(raw) <= |s| && s[..TotalSize(raw)] == Area(raw)
            && AtEnd(s[TotalSize(raw)..])
    decreases |s|
  {
    hide ReadOption, EncodeOption, Encodable, ReadOptions, TotalSize, Area, AllEncodable;
    ReadOptionsInside(s);
    FirstRead(s);
    if !AtEnd(s) {
      var o := ReadOption(s).value;
      var rest := ReadOptions(s[o.size..]).value;
      ReadIsArea(s[o.size..]);
      ReadIsEncoded(s);
      FirstInArea(o, rest);
      PrefixSplits(s, o.size, TotalSize(rest));
    } else {
      NoArea();
    }
  }

  /** The first option the validator finds, and the rest. */
  lemma {:induction false} FirstRead(s: seq<byte>)
    requires ReadOptions(s).Some?
    ensures AtEnd(s) ==> ReadOptions(s).value == []
    ensures !AtEnd(s) ==>
              && ReadOption(s).Some? && ReadOptions(s[ReadOption(s).value.size..]).Some?
              && ReadOptions(s).value == [ReadOption(s).value] + ReadOptions(s[ReadOption(s).value.size..]).value
  {
    hide ReadOption;
  }

  lemma {:induction false} FirstInArea(o: RawOption, rest: seq<RawOption>)
    requires Encodable(o.delta) && Encodable(|o.value|) && AllEncodable(rest)
    ensures AllEncodable([o] + rest) && TotalSize([o] + rest) == o.size + TotalSize(rest)
    ensures Area([o] + rest) == EncodeOption(o.delta, o.value) + Area(rest)
  {
    hide Encodable, EncodeOption;
    assert ([o] + rest)[1..] == rest;
  }

  lemma NoArea()
    ensures AllEncodable([]) && TotalSize([]) == 0 && Area([]) == []
  {
  }

  lemma PrefixSplits(s: seq<byte>, a: nat, b: nat)
    requires a + b <= |s|
    ensures s[..a + b] == s[..a] + s[a..][..b]
  {
  }

  lemma {:induction false} AreaIsRead(raw: seq<RawOption>, tail: seq<byte>)
    requires AllEncodable(raw) && AtEnd(tail)
    ensures ReadOptions(Area(raw) + tail).Some?
    ensures TotalSize(ReadOptions(Area(raw) + tail).value) == |Area(raw)|
    decreases |raw|
  {
    hide ReadOption, EncodeOption, Encodable;
    if raw == [] {
      assert [] + tail == tail;
    } else {
      var rest := Area(raw[1..]);
      AreaIsRead(raw[1..], tail);
      var first := EncodeOption(raw[0].delta, raw[0].value);
      ReadFirst(raw[0].delta, raw[0].value, rest + tail);
      Regroup(first, rest, tail);
      var found := ReadOptions(rest + tail).value;
      assert ([RawOption(raw[0].delta, raw[0].value, |first|)] + found)[1..] == found;
    }
  }

  // ------------------------------------------------------------------ messages

  /** The parts of a message. */
  datatype Parts = Parts(code: byte, kind: nat, id: nat, token: seq<byte>, raw: seq<RawOption>, payload: seq<byte>)

  ghost predicate PartsOk(p: Parts) {
    p.kind < 4 && p.id < 0x1_0000 && |p.token| <= MAX_TOKEN_LENGTH && AllEncodable(p.raw)
  }

  function Datagram(p: Parts): seq<byte>
    requires p.kind < 4 && p.id < 0x1_0000 && |p.token| <= MAX_TOKEN_LENGTH
  {
    Header(p.code, p.kind, p.id, |p.token|) + p.token + Area(p.raw) + Tail(p.payload)
  }

  ghost predicate IsDatagram(data: seq<byte>, p: Parts) {
    PartsOk(p) && data == Datagram(p)
  }

  lemma {:induction false} FormedIsParsed(p: Parts)
    requires PartsOk(p)
    ensures var data := Datagram(p);
            Parse(data) == Ok(Message(data, |data| - |p.payload|, |p.payload|))
  {
    hide ReadOptions, TotalSize, Area, Header, Tail, AllEncodable, LaidOut, Parse, AtEnd;
    AreaIsRead(p.raw, Tail(p.payload));
    Layout(Header(p.code, p.kind, p.id, |p.token|), p.token, Area(p.raw), p.payload);
    ParseLaidOut(Datagram(p), p.code, p.kind, p.id, p.token, Area(p.raw), p.payload);
  }

  /** The header of a message is determined by the fields read from it. */
  lemma HeaderForm(data: seq<byte>)
    requires |data| >= MIN_SIZE && data[0] / 64 == 1 && TokenLength(data) <= MAX_TOKEN_LENGTH
    ensures var m := Message(data, 0, 0);
            && GetType(m) < 4 && GetMessageId(m) < 0x1_0000
            && data[..MIN_SIZE] == Header(GetCode(m), GetType(m), GetMessageId(m), TokenLength(data))
  {
    var m := Message(data, 0, 0);
    assert data[0] == 64 + GetType(m) * 16 + TokenLength(data);
    assert GetMessageId(m) / 256 == data[2] && GetMessageId(m) % 256 == data[3];
  }

  /** What an accepted message has passed. */
  lemma {:induction false} Passed(data: seq<byte>)
    requires Parse(data).Ok?
    ensures |data| >= MIN_SIZE && data[0] / 64 == 1
    ensures TokenLength(data) <= MAX_TOKEN_LENGTH && MIN_SIZE + TokenLength(data) <= |data|
    ensures var area := AfterToken(data);
            ReadOptions(area).Some? &&
            var left := |area| - TotalSize(ReadOptions(area).value);
            left != 1 && Parse(data).value == Message(data, |data| - PayloadIn(left), PayloadIn(left))
  {
    hide ReadOptions, TotalSize;
  }

  /** How much of what follows the options is payload. */
  function PayloadIn(left: int): nat {
    if left > 1 then left - 1 else 0
  }

  lemma TailForm(tail: seq<byte>)
    requires AtEnd(tail) && |tail| != 1
    ensures tail == Tail(tail[|tail| - PayloadIn(|tail|)..])
  {
  }

  lemma Assembled(data: seq<byte>, n: nat, area: seq<byte>, tail: seq<byte>)
    requires MIN_SIZE + n <= |data| && data[MIN_SIZE + n..] == area + tail
    ensures data == data[..MIN_SIZE] + data[MIN_SIZE..MIN_SIZE + n] + area + tail
  {
  }

  lemma {:induction false} ParsedIsFormed(data: seq<byte>) returns (p: Parts)
    requires Parse(data).Ok?
    ensures IsDatagram(data, p) && Parse(data) == Ok(Message(data, |data| - |p.payload|, |p.payload|))
  {
    hide Parse, ReadOptions, TotalSize, Area, Header, Tail, AllEncodable, AtEnd, TokenLength;
    Passed(data);
    HeaderForm(data);
    var m, n, area := Message(data, 0, 0), TokenLength(data), AfterToken(data);
    var raw := ReadOptions(area).value;
    ReadIsArea(area);
    var tail := area[TotalSize(raw)..];
    TailForm(tail);
    var token, payload := data[MIN_SIZE..MIN_SIZE + n], tail[|tail| - PayloadIn(|tail|)..];
    p := Parts(GetCode(m), GetType(m), GetMessageId(m), token, raw, payload);
    assert area == area[..TotalSize(raw)] + tail;
    Assembled(data, n, Area(raw), tail);
  }

  /** The parser accepts a datagram if and only if it has the form of a message: version 1, a token of
      at most 8 bytes, options in their only encoding, and a payload that is not empty behind its
      marker. It finds the payload where the form has it. A version other than 1 has its own error. */
  lemma {:induction false} AcceptedIff(data: seq<byte>)
    ensures Parse(data).Ok? <==> exists p :: IsDatagram(data, p)
    ensures forall p :: IsDatagram(data, p) ==> Parse(data) == Ok(Message(data, |data| - |p.payload|, |p.payload|))
    ensures Parse(data) == Err(UnsupportedVersion) <==> |data| >= MIN_SIZE && data[0] / 64 != 1
  {
    forall p | IsDatagram(data, p) ensures Parse(data) == Ok(Message(data, |data| - |p.payload|, |p.payload|)) {
      FormedIsParsed(p);
    }
    if Parse(data).Ok? {
      var p := ParsedIsFormed(data);
    }
  }

  // ------------------------------------------------------------- option values

  /** The types of the options of section 5.10 of RFC 7252, section 2.1 of RFC 7959 and of this stack;
      all others are opaque. */
  lemma TypesByNumber(number: nat)
    ensures KindOf(number) == EmptyKind <==> number == 5  // If-None-Match
    ensures KindOf(number) == TextKind <==>
              || number == 3 || number == 8 || number == 11  // Uri-Host, Location-Path, Uri-Path
              || number == 15 || number == 20                // Uri-Query, Location-Query
              || number == 35 || number == 39                // Proxy-Uri, Proxy-Scheme
    ensures KindOf(number) == UintKind <==>
              || number == 7 || number == 12 || number == 14  // Uri-Port, Content-Format, Max-Age
              || number == 17 || number == 60                 // Accept, Size1
              || number == 23 || number == 27 || number == 28 // Block2, Block1, Size2
              || number == 2048                               // start offset
    ensures number == 1 || number == 4 ==> KindOf(number) == OpaqueKind  // If-Match, ETag
  {
  }

  /** An integer takes the fewest bytes that can hold it, but one more if all their bits are set, and
      none if it is 0. */
  lemma {:induction false} LengthOfUint(n: u32, k: nat)
    requires k <= 3
    ensures UintLength(n) == 0 <==> n == 0
    ensures n > 0 && k > 0 ==> (UintLength(n) <= k <==> n < Pow256(k) - 1)
    ensures UintLength(n) <= 4
  {
    assert Pow256(1) == 256;
    assert Pow256(2) == 0x1_0000;
    assert Pow256(3) == 0x100_0000;
  }
}
