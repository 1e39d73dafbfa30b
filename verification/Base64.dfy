/** Base64 (sections 4 and 5 of RFC 4648) against its definition on bits: a text is the bits of
    the data in groups of six, filled up with zero bits and padded to whole blocks of four. */
module Base64 {
  import opened Common
  import opened BitArithmetic

  datatype Error = InvalidParameters | InvalidFormat | NotEnoughSpace

  const MAX_ENCODE_INPUT_SIZE := 3 * (0xFFFF_FFFF_FFFF_FFFF / 4)

  type sextet = v: nat | v < 64

  // ---------------------------------------------------------------- the alphabets

  /** The standard alphabet. */
  function Char(v: sextet): char {
    if v < 26 then ('A' as int + v) as char
    else if v < 52 then ('a' as int + (v - 26)) as char
    else if v < 62 then ('0' as int + (v - 52)) as char
    else if v == 62 then '+' else '/'
  }

  /** The replacements for texts in URLs. */
  function UrlSafe(c: char): char {
    if c == '+' then '-' else if c == '/' then '_' else c
  }

  function CharIn(v: sextet, urlSafe: bool): char {
    if urlSafe then UrlSafe(Char(v)) else Char(v)
  }

  /** The table of the decoder, which serves both alphabets; -1 for what is in neither. */
  function ValueOf(c: char): (r: int)
    ensures -1 <= r < 64
  {
    if 'A' <= c <= 'Z' then c as int - 'A' as int
    else if 'a' <= c <= 'z' then c as int - 'a' as int + 26
    else if '0' <= c <= '9' then c as int - '0' as int + 52
    else if c == '+' || c == '-' then 62
    else if c == '/' || c == '_' then 63
    else -1
  }

  predicate Allowed(c: char, urlSafe: bool) {
    (if urlSafe then c != '+' && c != '/' else c != '-' && c != '_') && ValueOf(c) >= 0
  }

  lemma CharRoundTrip(v: sextet, urlSafe: bool)
    ensures Allowed(CharIn(v, urlSafe), urlSafe) && ValueOf(CharIn(v, urlSafe)) == v
  {
  }

  const UPPER := "ABCDEFGHIJKLMNOPQRSTUVWXYZ"
  const LOWER := "abcdefghijklmnopqrstuvwxyz"
  const DIGITS := "0123456789"

  /** The characters are those of tables 1 and 2 of RFC 4648. */
  lemma Alphabets(v: nat, urlSafe: bool)
    ensures v < 26 ==> CharIn(v, urlSafe) == UPPER[v] && CharIn(26 + v, urlSafe) == LOWER[v]
    ensures v < 10 ==> CharIn(52 + v, urlSafe) == DIGITS[v]
    ensures CharIn(62, urlSafe) == (if urlSafe then '-' else '+')
    ensures CharIn(63, urlSafe) == (if urlSafe then '_' else '/')
  {
    if v < 26 {
      Letters(v);
    }
  }

  lemma Letters(v: nat)
    requires v < 26
    ensures UPPER[v] == ('A' as int + v) as char && LOWER[v] == ('a' as int + v) as char
  {
    assert v == 0 || v == 1 || v == 2 || v == 3 || v == 4 || v == 5 || v == 6 || v == 7 || v == 8 ||
           v == 9 || v == 10 || v == 11 || v == 12 || v == 13 || v == 14 || v == 15 || v == 16 || v == 17 ||
           v == 18 || v == 19 || v == 20 || v == 21 || v == 22 || v == 23 || v == 24 || v == 25;
  }

  /** A character is allowed if and only if it is in the alphabet. */
  lemma AllowedIff(c: char, urlSafe: bool)
    ensures Allowed(c, urlSafe) <==> exists v: sextet :: c == CharIn(v, urlSafe)
  {
    if Allowed(c, urlSafe) {
      var v: sextet := ValueOf(c);
      assert c == CharIn(v, urlSafe);
    }
    if v: sextet :| c == CharIn(v, urlSafe) {
      CharRoundTrip(v, urlSafe);
    }
  }

  // ------------------------------------------------------------------- definition

  function TextLength(n: nat): nat {
    (8 * n + 5) / 6
  }

  function Sextet(bytes: seq<byte>, k: nat): sextet {
    FieldBound(Stream(bytes), 6 * k, 6);
    assert Pow2(6) == 64;
    Field(Stream(bytes), 6 * k, 6)
  }

  /** The character with a given place in the text of some data. */
  function CharAt(bytes: seq<byte>, urlSafe: bool, k: nat): char {
    if k < TextLength(|bytes|) then CharIn(Sextet(bytes, k), urlSafe) else '='
  }

  function BlockCount(n: nat): nat {
    (n + 2) / 3
  }

  function EncodedText(bytes: seq<byte>, urlSafe: bool): (r: string)
    ensures |r| == 4 * BlockCount(|bytes|)
    ensures forall k :: 0 <= k < |r| ==> r[k] == CharAt(bytes, urlSafe, k)
  {
    seq(4 * BlockCount(|bytes|), k requires 0 <= k => CharAt(bytes, urlSafe, k))
  }

  function IsBreak(c: char): bool {
    c == '\r' || c == '\n'
  }

  /** The text without line breaks. */
  function Significant(text: string): string {
    if text == [] then []
    else Significant(text[..|text| - 1]) + (if IsBreak(text[|text| - 1]) then [] else [text[|text| - 1]])
  }

  /** How many characters come before the padding. */
  function BodyLength(s: string): (r: nat)
    ensures r <= |s| && (forall i :: 0 <= i < r ==> s[i] != '=') && (r < |s| ==> s[r] == '=')
  {
    if s == [] || s[0] == '=' then 0 else 1 + BodyLength(s[1..])
  }

  lemma {:induction false} BodyLengthIs(s: string, n: nat)
    requires n <= |s| && (forall i :: 0 <= i < n ==> s[i] != '=') && (n < |s| ==> s[n] == '=')
    ensures BodyLength(s) == n
  {
    if n > 0 {
      BodyLengthIs(s[1..], n - 1);
    }
  }

  predicate Acceptable(s: string, urlSafe: bool) {
    var n := BodyLength(s);
    && |s| - n <= 2 && n % 4 != 1
    && (forall i :: n <= i < |s| ==> s[i] == '=')
    && (forall i :: 0 <= i < n ==> Allowed(s[i], urlSafe))
  }

  /** How much padding a text ends with, up to two. */
  function Padding(s: string): nat {
    if s == [] || s[|s| - 1] != '=' then 0 else if |s| == 1 || s[|s| - 2] != '=' then 1 else 2
  }

  /** A text is accepted if and only if it has no foreign characters, padding only at its end and only
      two of it, and no single character left over. It need not be padded. */
  lemma AcceptableIff(s: string, urlSafe: bool)
    ensures Acceptable(s, urlSafe) <==>
            && (forall i :: 0 <= i < |s| && s[i] != '=' ==> Allowed(s[i], urlSafe))
            && (forall i :: 0 < i < |s| && s[i - 1] == '=' ==> s[i] == '=')
            && (|s| >= 3 ==> s[|s| - 3] != '=')
            && (|s| - Padding(s)) % 4 != 1
  {
    hide Allowed;
    var n := BodyLength(s);
    if forall i :: 0 < i < |s| && s[i - 1] == '=' ==> s[i] == '=' {
      PaddingRuns(s, n);
    }
  }

  lemma {:induction false} PaddingRuns(s: string, n: nat)
    requires n <= |s| && (n < |s| ==> s[n] == '=')
    requires forall i :: 0 < i < |s| && s[i - 1] == '=' ==> s[i] == '='
    ensures forall i :: n <= i < |s| ==> s[i] == '='
    decreases |s| - n
  {
    if n < |s| {
      if n + 1 < |s| {
        assert s[n + 1 - 1] == '=';
      }
      PaddingRuns(s, n + 1);
    }
  }

  /** The bits of the characters of a text. */
  function TextBits(s: string): (r: seq<bit>)
    ensures |r| == 6 * |s|
  {
    if s == [] then []
    else
      var last := ValueOf(s[|s| - 1]);
      TextBits(s[..|s| - 1]) + BitsOf(if last >= 0 then last else 0, 6)
  }

  function DecodedSize(n: nat): nat {
    (6 * n) / 8
  }

  function ByteAt(bits: seq<bit>, k: nat): byte {
    FieldBound(bits, 8 * k, 8);
    Pow2Constants();
    Field(bits, 8 * k, 8)
  }

  function DecodedBytes(body: string): (r: seq<byte>)
    ensures |r| == DecodedSize(|body|)
    ensures forall k :: 0 <= k < |r| ==> r[k] == ByteAt(TextBits(body), k)
  {
    seq(DecodedSize(|body|), k requires 0 <= k => ByteAt(TextBits(body), k))
  }

  /** What a text decodes to, if anything. */
  function Decoded(text: string, urlSafe: bool): Option<seq<byte>> {
    var s := Significant(text);
    if Acceptable(s, urlSafe) then Some(DecodedBytes(s[..BodyLength(s)])) else None
  }

  // ------------------------------------------------------------------- round trip

  /** Bit sequences that agree in all groups of six agree in all fields. */
  lemma {:induction false} SameSextets(a: seq<bit>, b: seq<bit>, p: nat, n: nat)
    requires forall k: nat :: Field(a, 6 * k, 6) == Field(b, 6 * k, 6)
    ensures Field(a, p, n) == Field(b, p, n)
  {
    if n > 0 {
      SameSextets(a, b, p, n - 1);
      SameBit(a, b, p + n - 1);
    }
  }

  lemma {:induction false} SameBit(a: seq<bit>, b: seq<bit>, p: nat)
    requires Field(a, 6 * (p / 6), 6) == Field(b, 6 * (p / 6), 6)
    ensures (if p < |a| then a[p] else 0) == (if p < |b| then b[p] else 0)
  {
    BitOfSextet(a, p);
    BitOfSextet(b, p);
  }

  lemma {:induction false} BitOfSextet(a: seq<bit>, p: nat)
    ensures (if p < |a| then a[p] else 0) == (Field(a, 6 * (p / 6), 6) / Pow2(5 - p % 6)) % Pow2(1)
  {
    OneBit(a, p);
    hide Field, Pow2;
    FieldCut(a, 6 * (p / 6), p % 6 + 1, 5 - p % 6);
    FieldCut(a, 6 * (p / 6), p % 6, 1);
  }

  /** The characters of a text are the groups of its bits. */
  lemma {:induction false} TextSextet(s: string, k: nat)
    requires forall i :: 0 <= i < |s| ==> ValueOf(s[i]) >= 0
    ensures Field(TextBits(s), 6 * k, 6) == if k < |s| then ValueOf(s[k]) else 0
  {
    hide Field, BitsOf;
    if k >= |s| {
      ZeroField(TextBits(s), 6 * k, 6);
    } else {
      var front, last := s[..|s| - 1], s[|s| - 1];
      if k == |s| - 1 {
        FieldAppended(TextBits(front), ValueOf(last), 6);
        assert Pow2(6) == 64;
      } else {
        TextSextet(front, k);
        FieldPrefix(TextBits(front), BitsOf(ValueOf(last), 6), 6 * k, 6);
      }
    }
  }

  /** The body of an encoded text has the bits of the data, filled up with zeros. */
  lemma {:induction false} EncodedBits(bytes: seq<byte>, urlSafe: bool, k: nat)
    ensures TextLength(|bytes|) <= 4 * BlockCount(|bytes|)
    ensures Field(TextBits(EncodedText(bytes, urlSafe)[..TextLength(|bytes|)]), 6 * k, 6)
            == Field(Stream(bytes), 6 * k, 6)
  {
    hide Field, TextBits, Stream;
    var n := TextLength(|bytes|);
    var body := EncodedText(bytes, urlSafe)[..n];
    forall i | 0 <= i < n ensures ValueOf(body[i]) == Sextet(bytes, i) {
      CharRoundTrip(Sextet(bytes, i), urlSafe);
    }
    TextSextet(body, k);
    if k >= n {
      ZeroField(Stream(bytes), 6 * k, 6);
    }
  }

  lemma EncodedShape(bytes: seq<byte>, urlSafe: bool)
    ensures var s := EncodedText(bytes, urlSafe);
            BodyLength(s) == TextLength(|bytes|) && Acceptable(s, urlSafe)
  {
    hide BodyLength, Sextet;
    var s, n := EncodedText(bytes, urlSafe), TextLength(|bytes|);
    forall i | 0 <= i < n ensures Allowed(s[i], urlSafe) && s[i] != '=' {
      CharRoundTrip(Sextet(bytes, i), urlSafe);
    }
    BodyLengthIs(s, n);
  }

  /** Decoding undoes encoding in both alphabets, wherever line breaks have been put in. */
  lemma {:induction false} RoundTrip(bytes: seq<byte>, text: string, urlSafe: bool)
    requires Significant(text) == EncodedText(bytes, urlSafe)
    ensures Decoded(text, urlSafe) == Some(bytes)
  {
    hide Field, Stream, TextBits, BodyLength, Acceptable, Significant;
    EncodedShape(bytes, urlSafe);
    var n := TextLength(|bytes|);
    var body := EncodedText(bytes, urlSafe)[..n];
    forall k: nat ensures Field(TextBits(body), 6 * k, 6) == Field(Stream(bytes), 6 * k, 6) {
      EncodedBits(bytes, urlSafe, k);
    }
    assert DecodedSize(n) == |bytes|;
    forall k | 0 <= k < |bytes| ensures DecodedBytes(body)[k] == bytes[k] {
      SameSextets(TextBits(body), Stream(bytes), 8 * k, 8);
      StreamByte(bytes, k);
    }
    assert DecodedBytes(body) == bytes;
  }

  /** An encoded text has no line breaks of its own. */
  lemma {:induction false} NoBreaks(s: string)
    requires forall i :: 0 <= i < |s| ==> !IsBreak(s[i])
    ensures Significant(s) == s
  {
    if s != [] {
      NoBreaks(s[..|s| - 1]);
    }
  }

  lemma PlainRoundTrip(bytes: seq<byte>, urlSafe: bool)
    ensures Decoded(EncodedText(bytes, urlSafe), urlSafe) == Some(bytes)
  {
    hide Field, Stream, Sextet;
    NoBreaks(EncodedText(bytes, urlSafe));
    RoundTrip(bytes, EncodedText(bytes, urlSafe), urlSafe);
  }

  // --------------------------------------------------------------------- encoding

  /** The four groups of six bits of three bytes; a byte past the end counts as zero. */
  lemma {:induction false} BlockSextets(bytes: seq<byte>, i: nat)
    requires i % 3 == 0
    ensures var stream, k := Stream(bytes), 4 * (i / 3);
            var a, b, c := ByteOrZero(bytes, i), ByteOrZero(bytes, i + 1), ByteOrZero(bytes, i + 2);
            && Field(stream, 6 * k, 6) == a / 4
            && Field(stream, 6 * (k + 1), 6) == (a % 4) * 16 + b / 16
            && Field(stream, 6 * (k + 2), 6) == (b % 16) * 4 + c / 64
            && Field(stream, 6 * (k + 3), 6) == c % 64
  {
    SmallPowers();
    hide Field, Stream, Pow2;
    var stream, p := Stream(bytes), 8 * i;
    assert 6 * (4 * (i / 3)) == p;
    StreamByte(bytes, i);
    StreamByte(bytes, i + 1);
    StreamByte(bytes, i + 2);
    FieldCut(stream, p, 6, 2);
    FieldCut(stream, p + 8, 4, 4);
    FieldCut(stream, p + 16, 2, 6);
    FieldSplit(stream, p + 6, 2, 4);
    FieldSplit(stream, p + 12, 4, 2);
  }

  lemma SmallPowers()
    ensures Pow2(2) == 4 && Pow2(4) == 16 && Pow2(6) == 64
  {
  }

  function ByteOrZero(bytes: seq<byte>, i: nat): byte {
    if i < |bytes| then bytes[i] else 0
  }

  /** The first `k` characters of the text are in the buffer. */
  ghost predicate Filled(output: seq<char>, bytes: seq<byte>, urlSafe: bool, k: nat) {
    k <= |output| && forall j :: 0 <= j < k ==> output[j] == CharAt(bytes, urlSafe, j)
  }

  /** Writes the text of the data, or says how much room it needs. */
  method Encode(input: seq<byte>, output: array<char>, urlSafe: bool) returns (error: Option<Error>, size: nat)
    modifies output
    ensures error == (if |input| > MAX_ENCODE_INPUT_SIZE then Some(InvalidParameters)
                      else if output.Length / 4 < BlockCount(|input|) then Some(NotEnoughSpace)
                      else None)
    ensures error != Some(InvalidParameters) ==> size == |EncodedText(input, urlSafe)|
    ensures error == None ==> size <= output.Length && output[..size] == EncodedText(input, urlSafe)
    ensures forall j :: (if error == None then size else 0) <= j < output.Length ==> output[j] == old(output[j])
  {
    hide Field, Stream, Sextet;
    size := output.Length;
    if |input| > MAX_ENCODE_INPUT_SIZE {
      return Some(InvalidParameters), size;
    }
    var blocksNeeded := (|input| + 2) / 3;
    if size / 4 < blocksNeeded {
      return Some(NotEnoughSpace), 4 * blocksNeeded;
    }
    size := 4 * blocksNeeded;
    EncodeStandard(input, output);
    if urlSafe {
      var i := 0;
      while i < size
        invariant 0 <= i <= size
        invariant Filled(output[..], input, true, i)
        invariant forall j :: i <= j < size ==> output[j] == CharAt(input, false, j)
        invariant forall j :: size <= j < output.Length ==> output[j] == old(output[j])
      {
        if output[i] == '+' {
          output[i] := '-';
        } else if output[i] == '/' {
          output[i] := '_';
        }
        i := i + 1;
      }
    }
    error := None;
  }

  /** The characters of one block. */
  lemma BlockChars(bytes: seq<byte>, i: nat)
    requires i % 3 == 0 && i < |bytes|
    ensures var k := 4 * (i / 3);
            var a, b, c := ByteOrZero(bytes, i), ByteOrZero(bytes, i + 1), ByteOrZero(bytes, i + 2);
            && CharAt(bytes, false, k) == Char(a / 4)
            && CharAt(bytes, false, k + 1) == Char((a % 4) * 16 + b / 16)
            && CharAt(bytes, false, k + 2) == (if i + 1 < |bytes| then Char((b % 16) * 4 + c / 64) else '=')
            && CharAt(bytes, false, k + 3) == (if i + 2 < |bytes| then Char(c % 64) else '=')
  {
    hide Field, Stream, Char;
    BlockSextets(bytes, i);
  }

  lemma FilledMore(output: seq<char>, bytes: seq<byte>, k: nat)
    requires k + 4 <= |output| && Filled(output, bytes, false, k)
    requires forall j :: k <= j < k + 4 ==> output[j] == CharAt(bytes, false, j)
    ensures Filled(output, bytes, false, k + 4)
  {
  }

  /** The main loop and the tail, in the standard alphabet. */
  method EncodeStandard(input: seq<byte>, output: array<char>)
    requires 4 * BlockCount(|input|) <= output.Length
    modifies output
    ensures Filled(output[..], input, false, 4 * BlockCount(|input|))
    ensures forall j :: 4 * BlockCount(|input|) <= j < output.Length ==> output[j] == old(output[j])
  {
    hide CharAt, Char;
    var i, at := 0, 0;
    while |input| - i >= 3
      invariant 0 <= i <= |input| && i % 3 == 0 && at == 4 * (i / 3)
      invariant Filled(output[..], input, false, at)
      invariant forall j :: at <= j < output.Length ==> output[j] == old(output[j])
    {
      BlockChars(input, i);
      output[at] := Char(input[i] / 4);
      output[at + 1] := Char((input[i] % 4) * 16 + input[i + 1] / 16);
      output[at + 2] := Char((input[i + 1] % 16) * 4 + input[i + 2] / 64);
      output[at + 3] := Char(input[i + 2] % 64);
      FilledMore(output[..], input, at);
      i, at := i + 3, at + 4;
    }
    EncodeTail(input, output, i, at);
  }

  /** The one or two bytes that may be left. */
  method EncodeTail(input: seq<byte>, output: array<char>, i: nat, at: nat)
    requires i <= |input| < i + 3 && i % 3 == 0 && at == 4 * (i / 3) && 4 * BlockCount(|input|) <= output.Length
    requires Filled(output[..], input, false, at)
    modifies output
    ensures Filled(output[..], input, false, 4 * BlockCount(|input|))
    ensures forall j :: 4 * BlockCount(|input|) <= j < output.Length ==> output[j] == old(output[j])
  {
    hide CharAt, Char;
    if |input| - i == 2 {
      BlockChars(input, i);
      output[at] := Char(input[i] / 4);
      output[at + 1] := Char((input[i] % 4) * 16 + input[i + 1] / 16);
      output[at + 2] := Char((input[i + 1] % 16) * 4);
      output[at + 3] := '=';
      FilledMore(output[..], input, at);
    } else if |input| - i == 1 {
      BlockChars(input, i);
      output[at] := Char(input[i] / 4);
      output[at + 1] := Char((input[i] % 4) * 16);
      output[at + 2] := '=';
      output[at + 3] := '=';
      FilledMore(output[..], input, at);
    }
  }

  // --------------------------------------------------------------------- decoding

  lemma SignificantNext(text: string, i: nat)
    requires i < |text|
    ensures Significant(text[..i + 1]) == Significant(text[..i]) + (if IsBreak(text[i]) then [] else [text[i]])
  {
    assert text[..i + 1][..i] == text[..i];
  }

  lemma {:induction false} SignificantPrefix(text: string, i: nat)
    requires i <= |text|
    ensures Significant(text[..i]) <= Significant(text)
  {
    if i < |text| {
      SignificantPrefix(text[..|text| - 1], i);
      assert text[..|text| - 1][..i] == text[..i];
    } else {
      assert text[..i] == text;
    }
  }

  /** Body characters followed by padding. */
  ghost predicate Scanned(s: string, urlSafe: bool, body: nat, padding: nat) {
    && |s| == body + padding && padding <= 2
    && (forall i :: 0 <= i < body ==> Allowed(s[i], urlSafe))
    && (forall i :: body <= i < |s| ==> s[i] == '=')
  }

  lemma {:induction false} ScannedIs(s: string, urlSafe: bool, body: nat, padding: nat)
    requires Scanned(s, urlSafe, body, padding)
    ensures BodyLength(s) == body && (Acceptable(s, urlSafe) <==> body % 4 != 1)
  {
    hide BodyLength;
    BodyLengthIs(s, body);
  }

  /** A character after which no text is acceptable any more. */
  lemma ScanFails(s: string, urlSafe: bool, body: nat, padding: nat, c: char, all: string)
    requires Scanned(s, urlSafe, body, padding) && s + [c] <= all
    requires if c == '=' then padding == 2 else padding > 0 || !Allowed(c, urlSafe)
    ensures !Acceptable(all, urlSafe)
  {
    hide BodyLength;
    var r := BodyLength(all);
    assert all[|s|] == c;
    assert forall i :: 0 <= i < |s| ==> all[i] == s[i];
    if padding > 0 {
      BodyLengthIs(all, body);
    } else {
      assert r < |all| ==> all[r] == '=';
      assert r > |s|;
    }
  }

  /** The first pass: counts the characters of the body, unless the text is malformed. */
  method Scan(text: string, urlSafe: bool) returns (count: Option<nat>)
    ensures var s := Significant(text);
            count == if Acceptable(s, urlSafe) then Some(BodyLength(s)) else None
  {
    hide Significant, Acceptable, BodyLength, Allowed;
    var padding, charCount := 0, 0;
    NothingSignificant();
    for i := 0 to |text|
      invariant Scanned(Significant(text[..i]), urlSafe, charCount, padding)
    {
      var c := text[i];
      SignificantNext(text, i);
      SignificantPrefix(text, i + 1);
      if IsBreak(c) {
        continue;
      }
      if c == '=' {
        if padding + 1 > 2 {
          ScanFails(Significant(text[..i]), urlSafe, charCount, padding, c, Significant(text));
          return None;
        }
        padding := padding + 1;
        continue;
      } else if padding > 0 || !Allowed(c, urlSafe) {
        ScanFails(Significant(text[..i]), urlSafe, charCount, padding, c, Significant(text));
        return None;
      }
      charCount := charCount + 1;
    }
    assert text[..|text|] == text;
    ScannedIs(Significant(text), urlSafe, charCount, padding);
    if charCount % 4 == 1 {
      return None;
    }
    return Some(charCount);
  }

  lemma NothingSignificant()
    ensures Significant([]) == []
  {
  }

  /** Six more bits in the accumulator, which keeps the last 32. */
  lemma {:induction false} Accumulate(bits: seq<bit>, n: nat)
    ensures Field(bits, 6 * n, 6) < 64
    ensures ((Field(bits, 0, 6 * n) % U32) * 64) % U32 + Field(bits, 6 * n, 6) == Field(bits, 0, 6 * (n + 1)) % U32
  {
    SmallPowers();
    hide Field, Pow2;
    FieldSplit(bits, 0, 6 * n, 6);
    FieldBound(bits, 6 * n, 6);
    ShiftSix(Field(bits, 0, 6 * n), Field(bits, 6 * n, 6));
  }

  lemma ShiftSix(x: nat, v: nat)
    requires v < 64
    ensures ((x % U32) * 64) % U32 + v == (x * 64 + v) % U32
  {
    KeepLow(x);
    KeepLow(x % U32);
    SplitWord(x, v);
  }

  lemma KeepLow(x: nat)
    ensures (x * 64) % U32 == (x % 0x400_0000) * 64 && (x % U32) % 0x400_0000 == x % 0x400_0000
  {
    DivModParts(x / 0x400_0000, (x % 0x400_0000) * 64, U32);
    ModMod(x, 0x400_0000, 64);
  }

  lemma SplitWord(x: nat, v: nat)
    requires v < 64
    ensures (x * 64 + v) % U32 == (x % 0x400_0000) * 64 + v
  {
    DivModParts(x / 0x400_0000, (x % 0x400_0000) * 64 + v, U32);
  }

  /** A byte of the accumulator is a byte of the bits read so far. */
  lemma {:induction false} AccumulatorByte(bits: seq<bit>, n: nat, shift: nat)
    requires shift <= 24 && shift + 8 <= n
    ensures ((Field(bits, 0, n) % U32) / Pow2(shift)) % 256 == Field(bits, n - shift - 8, 8)
  {
    Pow2Constants();
    hide Field, Pow2;
    var x := Field(bits, 0, n);
    MiddleBits(x % U32, shift, 8);
    MiddleBits(x, shift, 8);
    LowBits(x, shift + 8, 24 - shift);
    FieldCut(bits, 0, n - shift, shift);
    FieldCut(bits, 0, n - shift - 8, 8);
  }

  /** The first `n` bytes that the bits make up are in the buffer. */
  ghost predicate Unpacked(output: seq<byte>, bits: seq<bit>, n: nat) {
    n <= |output| && forall k :: 0 <= k < n ==> output[k] == Field(bits, 8 * k, 8)
  }

  lemma {:induction false} PlaceOf(text: string, i: nat, n: nat, s: string, urlSafe: bool)
    requires i < |text| && s == Significant(text) && Acceptable(s, urlSafe)
    requires n <= BodyLength(s) && Significant(text[..i]) == s[..n] && !IsBreak(text[i])
    ensures n < |s| && s[n] == text[i] && Significant(text[..i + 1]) == s[..n + 1]
    ensures text[i] == '=' <==> n == BodyLength(s)
  {
    hide Significant, BodyLength;
    SignificantNext(text, i);
    SignificantPrefix(text, i + 1);
    assert (s[..n] + [text[i]])[n] == text[i];
  }

  /** Reads a text, or says how much room its data needs. */
  method Decode(text: string, output: array<byte>, urlSafe: bool) returns (error: Option<Error>, size: nat)
    modifies output
    ensures match Decoded(text, urlSafe)
            case None => error == Some(InvalidFormat) && size == 0
            case Some(data) =>
              && size == |data|
              && error == (if output.Length < size then Some(NotEnoughSpace) else None)
              && (error == None ==> output[..size] == data)
    ensures forall k :: (if error == None then size else 0) <= k < output.Length ==> output[k] == old(output[k])
  {
    hide Significant, Acceptable, BodyLength, TextBits, Field;
    var count := Scan(text, urlSafe);
    if count == None {
      return Some(InvalidFormat), 0;
    }
    var charCount := count.value;
    size := 3 * (charCount / 4);
    if charCount % 4 != 0 {
      size := size + charCount % 4 - 1;
    }
    AcceptableLength(Significant(text), urlSafe);
    if output.Length < size {
      return Some(NotEnoughSpace), size;
    }
    if size == 0 {
      return None, size;
    }
    DecodeBody(text, output, urlSafe);
    error := None;
  }

  lemma {:induction false} AcceptableLength(s: string, urlSafe: bool)
    requires Acceptable(s, urlSafe)
    ensures BodyLength(s) % 4 != 1
  {
  }

  /** The second pass: takes six bits from each character and puts out three bytes for every four. */
  method DecodeBody(text: string, output: array<byte>, urlSafe: bool)
    requires var s := Significant(text);
             Acceptable(s, urlSafe) && DecodedSize(BodyLength(s)) <= output.Length
    modifies output
    ensures var s := Significant(text);
            Unpacked(output[..], TextBits(s[..BodyLength(s)]), DecodedSize(BodyLength(s)))
    ensures forall k :: DecodedSize(BodyLength(Significant(text))) <= k < output.Length ==> output[k] == old(output[k])
  {
    hide Significant, Acceptable, BodyLength, TextBits, Field, Pow2, ValueOf, IsBreak;
    ghost var s := Significant(text);
    AcceptableLength(s, urlSafe);
    ghost var total := BodyLength(s);
    ghost var bits := TextBits(s[..total]);
    var charCount, accumulator: nat := 0, 0;
    NothingSignificant();
    FieldEmpty(bits, 0);
    var i := 0;
    while i < |text|
      invariant 0 <= i <= |text| && charCount <= total
      invariant Significant(text[..i]) == s[..charCount]
      invariant accumulator == Field(bits, 0, 6 * charCount) % U32
      invariant Unpacked(output[..], bits, 3 * (charCount / 4))
      invariant forall k :: DecodedSize(total) <= k < output.Length ==> output[k] == old(output[k])
    {
      var c := text[i];
      SignificantNext(text, i);
      if !IsBreak(c) {
        PlaceOf(text, i, charCount, s, urlSafe);
        if c == '=' {
          break;
        }
        BodyValue(s, urlSafe, charCount);
        Accumulate(bits, charCount);
        accumulator := (accumulator * 64) % U32 + ValueOf(c);
        charCount := charCount + 1;
        if charCount % 4 == 0 {
          PutBlock(output, bits, charCount, accumulator);
        }
      }
      i := i + 1;
    }
    if i == |text| {
      assert text[..i] == text;
      WholeBody(s, charCount);
    }
    PutTail(output, bits, charCount, accumulator);
  }

  lemma {:induction false} BodyValue(s: string, urlSafe: bool, n: nat)
    requires Acceptable(s, urlSafe) && n < BodyLength(s)
    ensures ValueOf(s[n]) == Field(TextBits(s[..BodyLength(s)]), 6 * n, 6)
  {
    hide BodyLength, TextBits, Field;
    TextSextet(s[..BodyLength(s)], n);
  }

  lemma {:induction false} WholeBody(s: string, n: nat)
    requires n <= BodyLength(s) && s[..n] == s
    ensures n == BodyLength(s)
  {
    hide BodyLength;
    assert |s[..n]| == n;
  }

  /** Three bytes for a full block. */
  method PutBlock(output: array<byte>, ghost bits: seq<bit>, charCount: nat, accumulator: nat)
    requires charCount > 0 && charCount % 4 == 0 && 3 * (charCount / 4) <= output.Length
    requires accumulator == Field(bits, 0, 6 * charCount) % U32
    requires Unpacked(output[..], bits, 3 * (charCount / 4) - 3)
    modifies output
    ensures Unpacked(output[..], bits, 3 * (charCount / 4))
    ensures forall k :: 3 * (charCount / 4) <= k < output.Length ==> output[k] == old(output[k])
  {
    Pow2Constants();
    hide Field, Pow2;
    var at := 3 * (charCount / 4) - 3;
    AccumulatorByte(bits, 6 * charCount, 16);
    AccumulatorByte(bits, 6 * charCount, 8);
    LastByte(bits, 6 * charCount);
    output[at] := (accumulator / Pow2(16)) % 256;
    output[at + 1] := (accumulator / Pow2(8)) % 256;
    output[at + 2] := accumulator % 256;
  }

  lemma {:induction false} LastByte(bits: seq<bit>, n: nat)
    requires 8 <= n
    ensures (Field(bits, 0, n) % U32) % 256 == Field(bits, n - 8, 8)
  {
    assert Pow2(0) == 1;
    hide Pow2, Field;
    AccumulatorByte(bits, n, 0);
  }

  /** One or two bytes for the characters left over. */
  method PutTail(output: array<byte>, ghost bits: seq<bit>, charCount: nat, accumulator: nat)
    requires charCount % 4 != 1 && DecodedSize(charCount) <= output.Length
    requires accumulator == Field(bits, 0, 6 * charCount) % U32
    requires Unpacked(output[..], bits, 3 * (charCount / 4))
    modifies output
    ensures Unpacked(output[..], bits, DecodedSize(charCount))
    ensures forall k :: DecodedSize(charCount) <= k < output.Length ==> output[k] == old(output[k])
  {
    hide Field, Pow2;
    var tail, at := charCount % 4, 3 * (charCount / 4);
    if tail == 3 {
      AccumulatorByte(bits, 6 * charCount, 10);
      AccumulatorByte(bits, 6 * charCount, 2);
      output[at] := (accumulator / Pow2(10)) % 256;
      output[at + 1] := (accumulator / Pow2(2)) % 256;
    } else if tail >= 2 {
      AccumulatorByte(bits, 6 * charCount, 4);
      output[at] := (accumulator / Pow2(4)) % 256;
    }
  }
}
