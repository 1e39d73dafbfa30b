/** The option iterator. It checks nothing itself: that it stays inside the message, ends, and
    sees the options the validator saw rests on the message having been validated. */
module CoapIterator {
  import opened Common
  import opened CoapOptions
  import opened CoapMessage

  /** What a client loop sees: an option number 0 looks like the end. */
  function Visible(options: seq<CoapOption>): seq<CoapOption> {
    if options == [] || options[0].number == 0 then [] else [options[0]] + Visible(options[1..])
  }

  /** The options of a validated message. */
  function Options(m: Message): seq<CoapOption>
    requires Parse(m.data) == Ok(m)
  {
    Decode(ReadOptions(AfterToken(m.data)).value, 0)
  }

  /** The options a filter lets through; 0 stands for no filter. */
  function Matching(options: seq<CoapOption>, filter: u32): seq<CoapOption> {
    if filter == 0 then options else WithNumber(options, filter)
  }

  /** Where the options of a validated message are. */
  lemma {:induction false} ParsedBounds(m: Message)
    requires Parse(m.data) == Ok(m)
    ensures |m.data| >= MIN_SIZE
    ensures var at := MIN_SIZE + m.data[0] % 16;
            && at <= |m.data| && AfterToken(m.data) == m.data[at..]
            && ReadOptions(m.data[at..]).Some?
            && at + TotalSize(ReadOptions(m.data[at..]).value) <= m.payloadOffset <= |m.data|
  {
    ReadOptionsInside(AfterToken(m.data));
    hide ReadOptions, TotalSize;
  }

  class OptionIterator {
    const message: Message
    const end: nat
    const filter: u32
    var number: u32
    var value: Value
    var location: nat

    ghost predicate Valid()
      reads this
    {
      && end <= |message.data|
      && location <= |message.data|
      && ReadOptions(message.data[location..]).Some?
      && location + TotalSize(Left()) <= end
    }

    /** The options not yet visited. */
    ghost function Left(): seq<RawOption>
      requires location <= |message.data| && ReadOptions(message.data[location..]).Some?
      reads this
    {
      ReadOptions(message.data[location..]).value
    }

    /** What is still to come for a client that has not stopped. */
    ghost function Ahead(): seq<CoapOption>
      requires Valid()
      reads this
    {
      Visible(Decode(Left(), number))
    }

    constructor (m: Message, f: u32)
      requires Parse(m.data) == Ok(m)
      ensures message == m && filter == f
      ensures Valid() && number == 0 && Left() == ReadOptions(AfterToken(m.data)).value
    {
      hide Parse, ReadOptions, TotalSize;
      ParsedBounds(m);
      message, filter := m, f;
      end := m.payloadOffset;
      number, value := 0, Empty;
      location := MIN_SIZE + m.data[0] % 16;
    }

    /** Moves to the next option, reading the bytes it needs without any check of its own. */
    method StepUnchecked()
      requires Valid()
      modifies this
      ensures Valid()
      ensures old(Left()) == [] ==> number == 0 && value == Empty && location == old(location)
      ensures old(Left()) != [] ==>
                var o := old(Left())[0];
                && number == (old(number) + o.delta) % U32
                && Left() == old(Left())[1..]
                && value == if filter == 0 || filter == number then Interpret(number, o.value) else old(value)
      ensures old(Left()) == [] ==> Left() == []
    {
      hide ReadOption, ReadOptions, TotalSize, Interpret;
      ghost var left := Left();
      LeftParts(message.data[location..]);
      if location >= end || message.data[location] / 16 == 15 || message.data[location] % 16 == 15 {
        number, value := 0, Empty;
        return;
      }
      assert left != [];
      var delta, bytes, size := ReadUnchecked();
      number := (number + delta) % U32;
      if filter == 0 || filter == number {
        value := Interpret(number, bytes);
      }
      assert message.data[location..][size..] == message.data[location + size..];
      location := location + size;
    }

    /** The bytes of the current option, taken on trust. */
    method ReadUnchecked() returns (delta: nat, bytes: seq<byte>, size: nat)
      requires Valid() && Left() != []
      ensures RawOption(delta, bytes, size) == Left()[0]
    {
      hide ReadOptions, Extended, TotalSize;
      ghost var s := message.data[location..];
      LeftParts(s);
      var data, at := message.data, location + 1;
      var deltaNibble: nat, lengthNibble: nat := data[location] / 16, data[location] % 16;
      assert s[1..] == data[at..];
      delta, at := ReadExtended(data, deltaNibble, at);
      assert s[at - location..] == data[at..];
      var length;
      length, at := ReadExtended(data, lengthNibble, at);
      bytes := data[at..at + length];
      size := at + length - location;
      assert s[at - location..size] == bytes;
    }

    /** Moves to the next option the filter lets through, or to the end. */
    method Step()
      requires Valid()
      modifies this
      ensures Valid()
      ensures number == 0 || filter == 0 || number == filter
      ensures number == 0 ==> Matching(old(Ahead()), filter) == []
      ensures number != 0 ==> Matching(old(Ahead()), filter) == [CoapOption(number, value)] + Matching(Ahead(), filter)
      ensures |Left()| <= |old(Left())| && (number != 0 ==> |Left()| < |old(Left())|)
    {
      hide Visible, Decode, Matching, Interpret, ReadOptions, TotalSize;
      NothingMatches(filter);
      ghost var ahead := Ahead();
      AheadStep(Left(), number);
      StepUnchecked();
      MatchFirst(CoapOption(number, value), Ahead(), filter);
      MatchSkips(number, Ahead(), filter);
      while filter != 0 && number != 0 && number != filter
        invariant Valid()
        invariant |Left()| <= |old(Left())| && (number != 0 ==> |Left()| < |old(Left())|)
        invariant number == 0 ==> Matching(ahead, filter) == []
        invariant number != 0 && (filter == 0 || number == filter) ==>
                    Matching(ahead, filter) == [CoapOption(number, value)] + Matching(Ahead(), filter)
        invariant number != 0 && filter != 0 && number != filter ==>
                    Matching(ahead, filter) == Matching(Ahead(), filter)
        decreases |Left()|, number != 0
      {
        AheadStep(Left(), number);
        StepUnchecked();
        MatchFirst(CoapOption(number, value), Ahead(), filter);
        MatchSkips(number, Ahead(), filter);
      }
    }
  }

  /** An extended delta or length, without checking that its bytes are there. */
  method ReadExtended(data: seq<byte>, nibble: nat, at: nat) returns (n: nat, next: nat)
    requires at + ExtensionSize(nibble) <= |data|
    ensures next == at + ExtensionSize(nibble) && n == Extended(nibble, data[at..])
  {
    if nibble == 13 {
      n, next := 13 + (data[at] as nat), at + 1;
    } else if nibble == 14 {
      n, next := 269 + ((data[at] as nat) * 256 + data[at + 1]), at + 2;
    } else {
      n, next := nibble, at;
    }
  }

  lemma NothingMatches(filter: u32)
    ensures Matching([], filter) == []
  {
  }

  lemma MatchFirst(o: CoapOption, rest: seq<CoapOption>, filter: u32)
    ensures filter == 0 || o.number == filter ==> Matching([o] + rest, filter) == [o] + Matching(rest, filter)
  {
    assert ([o] + rest)[1..] == rest;
  }

  lemma MatchSkips(number: u32, rest: seq<CoapOption>, filter: u32)
    ensures filter != 0 && number != filter ==>
              forall value :: Matching([CoapOption(number, value)] + rest, filter) == Matching(rest, filter)
  {
    if filter != 0 && number != filter {
      forall value ensures Matching([CoapOption(number, value)] + rest, filter) == Matching(rest, filter) {
        assert ([CoapOption(number, value)] + rest)[1..] == rest;
      }
    }
  }

  lemma {:induction false} LeftParts(s: seq<byte>)
    requires ReadOptions(s).Some?
    ensures var left := ReadOptions(s).value;
            && (left == [] <==> AtEnd(s))
            && (left != [] ==>
                  && ReadOption(s) == Some(left[0])
                  && s[0] / 16 != 15 && s[0] % 16 != 15
                  && ReadOptions(s[left[0].size..]) == Some(left[1..])
                  && TotalSize(left) == left[0].size + TotalSize(left[1..]))
            && (left == [] && s != [] ==> s[0] / 16 == 15)
  {
    if !AtEnd(s) {
      var o := ReadOption(s).value;
      var rest := ReadOptions(s[o.size..]).value;
      assert ([o] + rest)[1..] == rest;
    }
  }

  /** What a client sees, one option at a time. */
  lemma AheadStep(left: seq<RawOption>, number: u32)
    ensures left == [] ==> Visible(Decode(left, number)) == []
    ensures left != [] ==>
              var next := (number + left[0].delta) % U32;
              Visible(Decode(left, number)) ==
                if next == 0 then []
                else [CoapOption(next, Interpret(next, left[0].value))] + Visible(Decode(left[1..], next))
  {
    if left != [] {
      var next := (number + left[0].delta) % U32;
      var o := CoapOption(next, Interpret(next, left[0].value));
      assert ([o] + Decode(left[1..], next))[1..] == Decode(left[1..], next);
    }
  }

  // ------------------------------------------------------------ client loops

  /** The usual loop over all options of a message. */
  method Collect(m: Message) returns (options: seq<CoapOption>)
    requires Parse(m.data) == Ok(m)
    ensures options == Visible(Options(m))
  {
    hide Visible, Decode, ReadOptions, Parse;
    options := [];
    var it := new OptionIterator(m, 0);
    it.Step();
    while it.number != 0
      invariant it.Valid() && it.filter == 0
      invariant Visible(Options(m))
               == options + (if it.number == 0 then [] else [CoapOption(it.number, it.value)] + it.Ahead())
      decreases |it.Left()|, it.number != 0
    {
      options := options + [CoapOption(it.number, it.value)];
      it.Step();
    }
  }

  /** The option with a given number and a given rank among those with that number. */
  method GetOption(m: Message, number: u32, index: nat) returns (r: Option<CoapOption>)
    requires Parse(m.data) == Ok(m)
    ensures var all := Matching(Visible(Options(m)), number);
            r == if index < |all| then Some(all[index]) else None
  {
    hide Visible, Decode, ReadOptions, Parse, Matching;
    ghost var all := Matching(Visible(Options(m)), number);
    var it := new OptionIterator(m, number);
    it.Step();
    var left := index;
    while it.number != 0
      invariant it.Valid() && it.filter == number && 0 <= left <= index
      invariant index - left <= |all|
      invariant all[index - left..] == if it.number == 0 then []
               else [CoapOption(it.number, it.value)] + Matching(it.Ahead(), number)
      decreases |it.Left()|, it.number != 0
    {
      if left == 0 {
        assert all[index] == all[index - left..][0];
        return Some(CoapOption(it.number, it.value));
      }
      assert all[index - left..][1..] == all[index - (left - 1)..];
      left := left - 1;
      it.Step();
    }
    assert |all[index - left..]| == |all| - (index - left);
    return None;
  }

  // -------------------------------------------------------------- main results

  ghost predicate NoZero(options: seq<CoapOption>) {
    forall o :: o in options ==> o.number != 0
  }

  /** What a client sees is a prefix, and all of it exactly when no number is 0. */
  lemma {:induction false} AllVisible(options: seq<CoapOption>)
    ensures Visible(options) <= options
    ensures Visible(options) == options <==> NoZero(options)
  {
    if options != [] {
      AllVisible(options[1..]);
      assert options == [options[0]] + options[1..];
    }
  }

  /** The message is one the validator accepts, and iterating over it yields `expected`. */
  ghost predicate Iterates(m: Message, expected: seq<CoapOption>) {
    Parse(m.data) == Ok(m) && Visible(Options(m)) == expected
  }

  /** No option has number 0, and in order of their numbers every distance and every length can be
      encoded. */
  ghost predicate Carried(options: seq<CoapOption>) {
    NoZero(options) && AllFit(Sort(options), 0)
  }

  lemma {:induction false} SortedNumbers(options: seq<CoapOption>)
    ensures NoZero(options) <==> NoZero(Sort(options))
  {
    hide Sort;
    SortSameOptions(options);
    assert forall o :: o in options <==> o in multiset(options);
    assert forall o :: o in Sort(options) <==> o in multiset(Sort(options));
  }

  /** The round trip, for any options whose values have the types of their numbers: iterating over a
      created message yields the stable sort of the options up to the first that cannot be encoded,
      and up to a number 0. That is all of them exactly when they can be carried. */
  lemma {:induction false} IterationRoundTrip(code: byte, kind: nat, options: seq<CoapOption>, id: nat,
                                              token: seq<byte>, payload: seq<byte>)
    requires kind < 4 && id < 0x1_0000 && |token| <= MAX_TOKEN_LENGTH
    requires AllWellTyped(options)
    ensures var data := Print(code, kind, options, id, token, payload);
            Iterates(Message(data, |data| - |payload|, |payload|), Visible(Writable(Sort(options), 0)))
    ensures Visible(Writable(Sort(options), 0)) == Sort(options) <==> Carried(options)
  {
    hide Print, Parse, Sort, AllWellTyped, ReadOptions, Decode, Writable, AfterToken, TokenLength, Visible, AllFit;
    PrintParse(code, kind, options, id, token, payload);
    PrintDecode(code, kind, options, id, token, payload);
    var sorted := Sort(options);
    AllWritable(sorted, 0);
    AllVisible(sorted);
    AllVisible(Writable(sorted, 0));
    SortedNumbers(options);
  }
}
