/** Whole uploads: a client, a server helper and a network between them that may lose, repeat and
    reorder requests, with the server keeping what the helper calls new. */
module BlockwiseUpload {
  import opened Common
  import opened CoapOptions
  import opened Blockwise
  import BitArithmetic
  import CoapMessage
  import CoapIterator

  /** `sent` holds every request the client has made; `received` what the server has kept since the
      last new block 0. */
  datatype Transfer = Transfer(source: seq<byte>, client: Upload, sent: seq<Request>, helper: Helper,
                               received: seq<byte>)

  datatype Event =
    | Arrives(index: nat)          // a request reaches the server, for the first time or again
    | Answered(response: Response) // the client gets some response
    | Retagged(etag: seq<byte>)    // the server's application sets an ETag

  /** All blocks of the source have numbers that fit, if they are no smaller than `floor`. For blocks
      of any size that is a source of at most 16 * MAX_INDEX bytes. */
  predicate Numbered(source: seq<byte>, floor: nat) {
    ValidSize(floor) && |source| <= floor * MAX_INDEX
  }

  /** A response asks for no smaller blocks than that. */
  predicate AsksFor(response: Response, floor: nat) {
    GetBlockInfo(response.block1, 0).Ok? ==> GetBlockInfo(response.block1, 0).value.size >= floor
  }

  ghost predicate AllAskFor(events: seq<Event>, floor: nat) {
    forall i :: 0 <= i < |events| ==> events[i].Answered? ==> AsksFor(events[i].response, floor)
  }

  /** With the smallest size that says nothing about the responses. */
  lemma AnyResponse(events: seq<Event>)
    ensures AllAskFor(events, 16)
  {
    forall i | 0 <= i < |events| && events[i].Answered? ensures AsksFor(events[i].response, 16) {
      hide SizeOf;
    }
  }

  function Begin(source: seq<byte>, preferredSize: nat): Transfer {
    StartOk(source);
    Transfer(source, Start(source), [RequestOf(Start(source), source)], InitHelper(preferredSize), [])
  }

  /** A handler keeps the payload of a block that is not a repetition, and starts over at block 0. */
  function Keep(received: seq<byte>, helper: Helper, verdict: Verdict, payload: seq<byte>): seq<byte> {
    if verdict != Accepted(false) then received
    else if helper.info.offset == 0 then payload
    else received + payload
  }

  function Deliver(t: Transfer, request: Request): Transfer {
    var (helper, verdict) := OnRequest(t.helper, request);
    t.(helper := helper, received := Keep(t.received, helper, verdict, request.payload))
  }

  function Answer(t: Transfer, response: Response): Transfer
    requires UploadOk(t.client, t.source) && t.client.status.Uploading?
  {
    OnResponseOk(t.client, t.source, response);
    var client := OnResponse(t.client, t.source, response);
    t.(client := client, sent := if client.status.Uploading? then t.sent + [RequestOf(client, t.source)] else t.sent)
  }

  /** Once a context has finished or failed it is gone and gets no more responses. */
  function Step(t: Transfer, event: Event): Transfer
    requires t.client.status.Uploading? ==> UploadOk(t.client, t.source)
  {
    match event
    case Arrives(i) => if i < |t.sent| then Deliver(t, t.sent[i]) else t
    case Answered(response) => if t.client.status.Uploading? then Answer(t, response) else t
    case Retagged(etag) => t.(helper := t.helper.(etag := etag[..Min(|etag|, MAX_ETAG_SIZE)]))
  }

  // -------------------------------------------------------- what is on its way

  /** The request carries an option that reads as a piece of the source, and that piece: more of it
      follows exactly if the option says so. */
  ghost predicate IsPiece(source: seq<byte>, request: Request) {
    && request.block1.Some?
    && var info := GetBlockInfo(request.block1, 0);
    && info.Ok? && ValidSize(info.value.size) && info.value.offset % info.value.size == 0
    && info.value.offset + |request.payload| <= |source|
    && request.payload == source[info.value.offset..info.value.offset + |request.payload|]
    && (info.value.more <==> info.value.offset + |request.payload| < |source|)
  }

  lemma RequestIsPiece(u: Upload, source: seq<byte>)
    requires UploadOk(u, source) && BlockNumber(u) < MAX_INDEX
    ensures IsPiece(source, RequestOf(u, source))
    ensures GetBlockInfo(RequestOf(u, source).block1, 0) == Ok(u.info)
  {
    hide ValidSize;
    SizePositive(u.info.size);
    OptionRoundTrip(u.info, 0);
  }

  function BlockNumber(u: Upload): nat {
    if u.info.size == 0 then 0 else u.info.offset / u.info.size
  }

  lemma NumberFits(u: Upload, source: seq<byte>, floor: nat)
    requires UploadOk(u, source) && Numbered(source, floor) && u.info.size >= floor
    ensures BlockNumber(u) < MAX_INDEX
  {
    hide ValidSize;
    SizePositive(u.info.size);
    QuotientBelow(u.info.offset, u.info.size);
  }

  lemma QuotientBelow(offset: nat, size: nat)
    requires 0 < size && offset < size * MAX_INDEX
    ensures offset / size < MAX_INDEX
  {
    BitArithmetic.QuotientParts(offset, size);
    if offset / size >= MAX_INDEX {
      BitArithmetic.MulMono(MAX_INDEX, offset / size, size);
      assert false;
    }
  }

  /** What a request's block option says. */
  function InfoOf(request: Request): BlockInfo {
    match GetBlockInfo(request.block1, 0)
    case Ok(info) => info
    case Err(_) => BlockInfo(0, 0, false)
  }

  function EndOf(request: Request): nat {
    InfoOf(request).offset + |request.payload|
  }

  // ------------------------------------------------------------------ on the wire

  /** A client's block option, sent in a message with any other options, is the one a server finds in
      the datagram, and it reads as the client's block. */
  lemma BlockOptionOnTheWire(u: Upload, source: seq<byte>, others: seq<CoapOption>, code: byte, id: nat,
                             token: seq<byte>)
    requires UploadOk(u, source) && BlockNumber(u) < MAX_INDEX
    requires id < 0x1_0000 && |token| <= CoapMessage.MAX_TOKEN_LENGTH
    requires AllWellTyped(others)
    requires forall i :: 0 <= i < |others| ==>
               && others[i].number != 0 && others[i].number != BLOCK1
               && Encodable(others[i].number) && Encodable(|ValueBytes(others[i].value)|)
    ensures var request := RequestOf(u, source);
            request.block1.Some? &&
            var data := CoapMessage.Print(code, 0, [request.block1.value] + others, id, token, request.payload);
            && Finds(CoapMessage.Message(data, |data| - |request.payload|, |request.payload|), request.block1.value)
            && GetBlockInfo(request.block1, 0) == Ok(u.info)
  {
    hide ValidSize, CoapMessage.Sort, CoapMessage.Print, CoapMessage.Parse, CoapIterator.Visible, RequestOf;
    RequestIsPiece(u, source);
    var request := RequestOf(u, source);
    BlockOptionFirst(u, source);
    var block1 := request.block1.value;
    var options := [block1] + others;
    ShortUint(block1);
    CoapIterator.IterationRoundTrip(code, 0, options, id, token, request.payload);
    SmallNumbersCarried(options);
    CoapMessage.SortIsStable(options, BLOCK1);
    assert options[1..] == others;
    CoapMessage.NoneWithNumber(others, BLOCK1);
  }

  lemma SmallNumbersCarried(options: seq<CoapOption>)
    requires forall i :: 0 <= i < |options| ==>
               && options[i].number != 0
               && Encodable(options[i].number) && Encodable(|ValueBytes(options[i].value)|)
    ensures CoapIterator.Carried(options)
  {
    hide CoapMessage.Sort, Encodable, ValueBytes, AllFit;
    CoapMessage.SortSameOptions(options);
    CoapMessage.SortIsStable(options, 0);
    var sorted := CoapMessage.Sort(options);
    forall i | 0 <= i < |sorted| ensures Encodable(sorted[i].number) && Encodable(|ValueBytes(sorted[i].value)|) {
      assert sorted[i] in multiset(sorted);
      assert sorted[i] in options;
    }
    SmallNumbersFit(sorted);
  }

  /** The message is valid and `option` is the only BLOCK1 option a server finds in it. */
  ghost predicate Finds(m: CoapMessage.Message, option: CoapOption) {
    && CoapMessage.Parse(m.data) == Ok(m)
    && CoapIterator.Matching(CoapIterator.Visible(CoapIterator.Options(m)), BLOCK1) == [option]
  }

  lemma BlockOptionFirst(u: Upload, source: seq<byte>)
    requires UploadOk(u, source)
    ensures var block1 := RequestOf(u, source).block1;
            block1.Some? && block1.value.number == BLOCK1 && block1.value.value.Uint?
  {
    hide ValidSize;
  }

  lemma ShortUint(o: CoapOption)
    requires o.value.Uint? && o.number == BLOCK1
    ensures Encodable(o.number) && Encodable(|ValueBytes(o.value)|) && WellTyped(o)
  {
  }

  // ------------------------------------------------------------------ invariants

  /** What the client has sent covers the source from its start without gaps or overlaps. */
  ghost predicate SentOk(t: Transfer) {
    && |t.sent| >= 1
    && (forall i :: 0 <= i < |t.sent| ==> IsPiece(t.source, t.sent[i]))
    && InfoOf(t.sent[0]).offset == 0
    && (forall i :: 1 <= i < |t.sent| ==> InfoOf(t.sent[i]).offset == EndOf(t.sent[i - 1]))
    && (t.client.status.Uploading? ==>
          UploadOk(t.client, t.source) && InfoOf(t.sent[|t.sent| - 1]) == t.client.info
          && |t.sent[|t.sent| - 1].payload| == t.client.payloadSize)
  }

  /** What the server has kept is the source as far as the helper has got, and all of it once the
      helper is done. */
  ghost predicate KeptOk(t: Transfer) {
    && (t.helper.nextOffset > 0 ==> t.helper.nextOffset < |t.source|)
    && t.received == if t.helper.done then t.source else t.source[..t.helper.nextOffset]
  }

  ghost predicate TransferOk(t: Transfer, floor: nat) {
    && Numbered(t.source, floor) && (t.client.status.Uploading? ==> t.client.info.size >= floor)
    && SentOk(t) && KeptOk(t) && t.helper.preferredSize != 0
  }

  lemma BeginOk(source: seq<byte>, preferredSize: nat, floor: nat)
    requires Numbered(source, floor)
    ensures TransferOk(Begin(source, preferredSize), floor)
  {
    StartOk(source);
    NumberFits(Start(source), source, floor);
    RequestIsPiece(Start(source), source);
  }

  lemma SourceParts(source: seq<byte>, a: nat, b: nat)
    requires a <= b <= |source|
    ensures source[..a] + source[a..b] == source[..b]
  {
  }

  /** Any piece of the source may arrive at any time. */
  lemma DeliverOk(t: Transfer, request: Request)
    requires KeptOk(t) && IsPiece(t.source, request)
    ensures KeptOk(Deliver(t, request))
    ensures var (helper, verdict) := OnRequest(t.helper, request);
            verdict.Accepted? && !InfoOf(request).more ==> helper.done && Deliver(t, request).received == t.source
  {
    hide ValidSize;
    var info := InfoOf(request);
    assert GetBlockInfo(request.block1, t.helper.preferredSize) == Ok(info);
    SourceParts(t.source, info.offset, EndOf(request));
    assert t.source[..|t.source|] == t.source;
  }

  lemma AnswerOk(t: Transfer, response: Response, floor: nat)
    requires TransferOk(t, floor) && t.client.status.Uploading? && AsksFor(response, floor)
    ensures TransferOk(Answer(t, response), floor)
  {
    hide ValidSize, GetBlockInfo, OptionValue;
    OnResponseOk(t.client, t.source, response);
    var client := OnResponse(t.client, t.source, response);
    if client.status.Uploading? {
      NumberFits(client, t.source, floor);
      RequestIsPiece(client, t.source);
      var next := Answer(t, response);
      var n := |t.sent|;
      assert next.sent[..n] == t.sent && next.sent[n] == RequestOf(client, t.source);
      forall i | 1 <= i < |next.sent| ensures InfoOf(next.sent[i]).offset == EndOf(next.sent[i - 1]) {
        assert next.sent[i - 1] == t.sent[i - 1];
      }
    }
  }

  lemma StepOk(t: Transfer, event: Event, floor: nat)
    requires TransferOk(t, floor) && (event.Answered? ==> AsksFor(event.response, floor))
    ensures TransferOk(Step(t, event), floor) && Step(t, event).source == t.source
  {
    hide GetBlockInfo, ValidSize, OnRequest;
    match event {
      case Arrives(i) =>
        if i < |t.sent| {
          DeliverOk(t, t.sent[i]);
          SizeKept(t.helper, t.sent[i]);
        }
      case Answered(response) =>
        if t.client.status.Uploading? {
          AnswerOk(t, response, floor);
        }
      case Retagged(_) =>
    }
  }

  lemma SizeKept(helper: Helper, request: Request)
    ensures OnRequest(helper, request).0.preferredSize == helper.preferredSize
    ensures OnRequest(helper, request).0.etag == helper.etag
  {
  }

  function Run(t: Transfer, events: seq<Event>, floor: nat): Transfer
    requires TransferOk(t, floor) && AllAskFor(events, floor)
    decreases |events|
  {
    if events == [] then t
    else
      StepOk(t, events[0], floor);
      Run(Step(t, events[0]), events[1..], floor)
  }

  lemma {:induction false} RunOk(t: Transfer, events: seq<Event>, floor: nat)
    requires TransferOk(t, floor) && AllAskFor(events, floor)
    ensures TransferOk(Run(t, events, floor), floor) && Run(t, events, floor).source == t.source
    decreases |events|
  {
    hide IsPiece, KeptOk, AsksFor;
    if events != [] {
      StepOk(t, events[0], floor);
      RunOk(Step(t, events[0]), events[1..], floor);
    }
  }

  // ---------------------------------------------------------------- main results

  /** Whatever is lost, repeated or reordered, what the server has kept since the last block 0 is a
      prefix of the source, and all of it once the helper is done. */
  lemma {:induction false} UploadSafety(source: seq<byte>, preferredSize: nat, events: seq<Event>, floor: nat)
    requires Numbered(source, floor) && AllAskFor(events, floor)
    ensures TransferOk(Begin(source, preferredSize), floor)
    ensures var t := Run(Begin(source, preferredSize), events, floor);
            t.received <= source && (t.helper.done ==> t.received == source)
  {
    hide IsPiece, SentOk, AllAskFor;
    BeginOk(source, preferredSize, floor);
    RunOk(Begin(source, preferredSize), events, floor);
  }

  /** Every request ever made decodes to an aligned piece of the source, the requests follow each
      other without a gap, and when the last one is accepted the server has everything. */
  lemma {:induction false} LastBlockCompletes(source: seq<byte>, preferredSize: nat, events: seq<Event>,
                                              floor: nat, i: nat)
    requires Numbered(source, floor) && AllAskFor(events, floor)
    ensures TransferOk(Begin(source, preferredSize), floor)
    ensures var t := Run(Begin(source, preferredSize), events, floor);
            i < |t.sent| ==>
              && IsPiece(source, t.sent[i])
              && InfoOf(t.sent[i]).offset == (if i == 0 then 0 else EndOf(t.sent[i - 1]))
              && (OnRequest(t.helper, t.sent[i]).1.Accepted? && !InfoOf(t.sent[i]).more ==>
                    Deliver(t, t.sent[i]).received == source)
  {
    hide IsPiece, OnRequest, Deliver, AllAskFor;
    BeginOk(source, preferredSize, floor);
    RunOk(Begin(source, preferredSize), events, floor);
    var t := Run(Begin(source, preferredSize), events, floor);
    if i < |t.sent| {
      DeliverOk(t, t.sent[i]);
    }
  }

  // ------------------------------------------------- uploads in step with the server

  /** One exchange: the current request arrives once and then some more times, and the server
      answers with a block option of its own. */
  datatype Round = Round(copies: nat, option: u32)

  /** The client knows no other ETag than the helper's. */
  ghost predicate EtagsAgree(t: Transfer) {
    |t.helper.etag| <= MAX_ETAG_SIZE && (t.client.etag == [] || t.client.etag == t.helper.etag)
  }

  ghost predicate Going(t: Transfer, floor: nat) {
    TransferOk(t, floor) && t.client.status.Uploading? && EtagsAgree(t)
        && t.sent[|t.sent| - 1] == RequestOf(t.client, t.source)
  }

  /** The server waits for the current block. */
  ghost predicate Awaited(t: Transfer, floor: nat) {
    Going(t, floor) && t.helper.nextOffset == t.client.info.offset && !t.helper.done
  }

  /** The server has the current block. */
  ghost predicate Delivered(t: Transfer, floor: nat) {
    && Going(t, floor)
    && t.helper.nextOffset == t.client.info.offset + (if t.client.info.more then t.client.payloadSize else 0)
    && t.helper.done == !t.client.info.more
  }

  lemma CurrentAccepted(t: Transfer, floor: nat)
    requires Awaited(t, floor) || Delivered(t, floor)
    ensures OnRequest(t.helper, RequestOf(t.client, t.source)).1.Accepted?
    ensures Delivered(Deliver(t, RequestOf(t.client, t.source)), floor)
  {
    hide ValidSize, OptionValue, RequestOf, IsPiece;
    var request := RequestOf(t.client, t.source);
    NumberFits(t.client, t.source, floor);
    RequestIsPiece(t.client, t.source);
    DeliverOk(t, request);
    PieceInfo(t, request);
    SizePositive(t.client.info.size);
    PieceEtag(t);
  }

  lemma PieceInfo(t: Transfer, request: Request)
    requires IsPiece(t.source, request)
    ensures GetBlockInfo(request.block1, t.helper.preferredSize) == GetBlockInfo(request.block1, 0)
  {
  }

  lemma PieceEtag(t: Transfer)
    requires EtagsAgree(t) && UploadOk(t.client, t.source)
    ensures CheckEtag(t.helper.etag, RequestOf(t.client, t.source).ifMatch) == None
    ensures |RequestOf(t.client, t.source).payload| == t.client.payloadSize
  {
  }

  lemma SizePositive(size: nat)
    requires ValidSize(size)
    ensures size >= 16
  {
  }

  /** The current request arrives `n` times. */
  function Repeat(t: Transfer, n: nat, floor: nat): Transfer
    requires Awaited(t, floor) || Delivered(t, floor)
    decreases n
  {
    if n == 0 then t
    else
      CurrentAccepted(t, floor);
      Repeat(Deliver(t, RequestOf(t.client, t.source)), n - 1, floor)
  }

  lemma {:induction false} RepeatDelivered(t: Transfer, n: nat, floor: nat)
    requires Delivered(t, floor) || (Awaited(t, floor) && n > 0)
    ensures var end := Repeat(t, n, floor);
            Delivered(end, floor) && end.client == t.client && end.source == t.source
    decreases n
  {
    hide IsPiece, KeptOk, RequestOf, OnRequest;
    if n > 0 {
      CurrentAccepted(t, floor);
      RepeatDelivered(Deliver(t, RequestOf(t.client, t.source)), n - 1, floor);
    }
  }

  /** The server's answer: a final one to the last block, otherwise one that asks for the next. */
  function AnswerTo(t: Transfer, option: u32): Response {
    Response(t.client.info.more, Some(BlockOption(option)), if t.helper.etag == [] then None else Some(t.helper.etag))
  }

  /** A block option with a size, and none below `floor`. */
  predicate Suits(option: u32, floor: nat) {
    option % 8 != 7 && SizeOf(option % 8) >= floor
  }

  lemma SuitsAsksFor(t: Transfer, option: u32, floor: nat)
    requires Suits(option, floor)
    ensures AsksFor(AnswerTo(t, option), floor) && GetBlockInfo(AnswerTo(t, option).block1, 0).Ok?
  {
    hide SizeOf;
  }

  lemma AnswerMovesOn(t: Transfer, option: u32, floor: nat)
    requires Delivered(t, floor) && Suits(option, floor)
    ensures var next := Answer(t, AnswerTo(t, option));
            && next.source == t.source && next.helper == t.helper && next.received == t.received
            && (t.client.info.more ==> Awaited(next, floor) && next.client.info.offset >= t.client.info.offset + 16)
            && (!t.client.info.more ==> next.client.status == Finished)
  {
    hide ValidSize, IsPiece, OptionValue, RequestOf, SizeOf;
    var response := AnswerTo(t, option);
    SuitsAsksFor(t, option, floor);
    OnResponseOk(t.client, t.source, response);
    AnswerOk(t, response, floor);
    SizePositive(t.client.info.size);
  }

  function Exchange(t: Transfer, round: Round, floor: nat): Transfer
    requires Awaited(t, floor)
  {
    RepeatDelivered(t, 1 + round.copies, floor);
    var delivered := Repeat(t, 1 + round.copies, floor);
    Answer(delivered, AnswerTo(delivered, round.option))
  }

  ghost predicate Complete(t: Transfer) {
    t.client.status == Finished && t.helper.done && t.received == t.source
  }

  lemma ExchangeOk(t: Transfer, round: Round, floor: nat)
    requires Awaited(t, floor) && Suits(round.option, floor)
    ensures var next := Exchange(t, round, floor);
            && next.source == t.source
            && (if t.client.info.more then Awaited(next, floor) && next.client.info.offset >= t.client.info.offset + 16
                else Complete(next))
  {
    hide Awaited, Answer, Repeat;
    RepeatDelivered(t, 1 + round.copies, floor);
    AnswerMovesOn(Repeat(t, 1 + round.copies, floor), round.option, floor);
  }

  ghost predicate WellFormed(rounds: seq<Round>, floor: nat) {
    forall i :: 0 <= i < |rounds| ==> Suits(rounds[i].option, floor)
  }

  function Exchanges(t: Transfer, rounds: seq<Round>, floor: nat): Transfer
    requires Awaited(t, floor) && WellFormed(rounds, floor)
    decreases |rounds|
  {
    if rounds == [] then t
    else
      ExchangeOk(t, rounds[0], floor);
      var next := Exchange(t, rounds[0], floor);
      if t.client.info.more then Exchanges(next, rounds[1..], floor) else next
  }

  lemma {:induction false} ExchangesOk(t: Transfer, rounds: seq<Round>, floor: nat)
    requires Awaited(t, floor) && WellFormed(rounds, floor)
    ensures var end := Exchanges(t, rounds, floor);
            && end.source == t.source
            && (Complete(end)
                || (Awaited(end, floor) && end.client.info.offset >= t.client.info.offset + 16 * |rounds|))
    decreases |rounds|
  {
    hide Awaited, Complete, Exchange;
    if rounds != [] {
      ExchangeOk(t, rounds[0], floor);
      if t.client.info.more {
        ExchangesOk(Exchange(t, rounds[0], floor), rounds[1..], floor);
      }
    }
  }

  /** However often each request is repeated and whatever block sizes the server asks for, no
      request is taken for a gap, and after at most one exchange for every 16 bytes, and one for an
      empty source, the server has the whole source and the client has finished. */
  lemma {:induction false} UploadCompletes(source: seq<byte>, preferredSize: nat, etag: seq<byte>, rounds: seq<Round>,
                                           floor: nat)
    requires Numbered(source, floor) && WellFormed(rounds, floor) && |rounds| >= 1 && |source| <= 16 * |rounds|
    ensures var t := Step(Begin(source, preferredSize), Retagged(etag));
            Awaited(t, floor) && Complete(Exchanges(t, rounds, floor)) && Exchanges(t, rounds, floor).received == source
  {
    hide IsPiece, RequestOf, OptionValue, ValidSize;
    BeginOk(source, preferredSize, floor);
    var begin := Begin(source, preferredSize);
    StepOk(begin, Retagged(etag), floor);
    ExchangesOk(Step(begin, Retagged(etag)), rounds, floor);
  }
}
