/** When the server helper refuses a block and when the client gives up: block options, ETags and the
    position of a block. */
module BlockwiseVerdicts {
  import opened Common
  import BitArithmetic
  import opened CoapOptions
  import opened Blockwise
  import opened BlockwiseUpload

  // ----------------------------------------------------------- the block option

  /** A request or response has a readable block option, or none where a default is given. */
  predicate Readable(option: Option<CoapOption>, defaultSize: nat) {
    if option.None? then defaultSize != 0 else option.value.value.Uint? && option.value.value.uint % 8 != 7
  }

  /** Exactly the readable ones are read; without an option the default stands for a single block. */
  lemma ReadIff(option: Option<CoapOption>, defaultSize: nat)
    ensures GetBlockInfo(option, defaultSize).Ok? <==> Readable(option, defaultSize)
    ensures option.None? && defaultSize != 0 ==>
              GetBlockInfo(option, defaultSize).value == BlockInfo(0, defaultSize, false)
    ensures GetBlockInfo(option, defaultSize) == Err(NoSuchItem) <==> option.None? && defaultSize == 0
  {
    hide SizeOf;
  }

  /** A description can be packed if and only if its size is a power of two from 16 to 1024. */
  lemma PackedIff(info: BlockInfo)
    ensures OptionValue(info).Ok? <==> exists k :: 4 <= k <= 10 && info.size == BitArithmetic.Pow2(k)
  {
    PowersOfTwo();
    if ValidSize(info.size) {
      assert exists k :: 4 <= k <= 10 && info.size == BitArithmetic.Pow2(k);
    }
  }

  lemma PowersOfTwo()
    ensures BitArithmetic.Pow2(4) == 16 && BitArithmetic.Pow2(5) == 32 && BitArithmetic.Pow2(6) == 64
    ensures BitArithmetic.Pow2(7) == 128 && BitArithmetic.Pow2(8) == 256 && BitArithmetic.Pow2(9) == 512
    ensures BitArithmetic.Pow2(10) == 1024
  {
  }

  /** A helper prefers the size it was given, or else the default one, and has seen nothing yet. */
  lemma HelperStarts(preferredSize: nat)
    ensures var h := InitHelper(preferredSize);
            && h.preferredSize == (if preferredSize == 0 then 1024 else preferredSize)
            && h.nextOffset == 0 && !h.done && h.etag == []
  {
  }

  // ---------------------------------------------------------------- the server

  /** A request sets no condition, or one that names the tag the server has. */
  predicate Matches(ifMatch: Option<seq<byte>>, etag: seq<byte>) {
    ifMatch.None? || (|ifMatch.value| <= MAX_ETAG_SIZE && ifMatch.value == etag)
  }

  /** A condition that could be one, but names another tag. */
  predicate OtherTag(ifMatch: Option<seq<byte>>, etag: seq<byte>) {
    ifMatch.Some? && |ifMatch.value| <= MAX_ETAG_SIZE && ifMatch.value != etag
  }

  /** Every verdict of the helper, by what is true of the request. Nothing but a new block changes
      what the helper waits for. */
  lemma VerdictIff(h: Helper, request: Request)
    ensures var (h', verdict) := OnRequest(h, request);
            var readable := Readable(request.block1, h.preferredSize);
            && (verdict == Refused(PreconditionFailed) <==> readable && OtherTag(request.ifMatch, h.etag))
            && (!readable ==> verdict == Refused(BadOption))
            && (request.ifMatch.Some? && |request.ifMatch.value| > MAX_ETAG_SIZE ==> verdict == Refused(BadOption))
            && (verdict.Accepted? ==> readable && Matches(request.ifMatch, h.etag))
            && (verdict != Accepted(false) ==> h' == h.(info := h'.info))
            && h'.etag == h.etag && h'.preferredSize == h.preferredSize
  {
    hide SizeOf;
  }

  /** Of the requests that read and whose condition holds: a block is new if it is the one waited for,
      or begins another upload; it repeats the last one if it ends where that did, or is the last of a
      finished upload again; it continues a finished upload in vain; anything else is a gap. */
  lemma PositionIff(h: Helper, request: Request)
    requires Readable(request.block1, h.preferredSize) && Matches(request.ifMatch, h.etag)
    ensures GetBlockInfo(request.block1, h.preferredSize).Ok?
    ensures var (h', verdict) := OnRequest(h, request);
            var info := GetBlockInfo(request.block1, h.preferredSize).value;
            var awaited, end := info.offset == h.nextOffset, info.offset + |request.payload|;
            && (verdict == Accepted(false) <==> if awaited then !h.done else info.offset == 0)
            && (verdict == Accepted(true) <==>
                  if awaited then h.done && !info.more else info.offset != 0 && end == h.nextOffset)
            && (verdict == Refused(BadOption) <==> awaited && h.done && info.more)
            && (verdict == Refused(RequestEntityIncomplete) <==>
                  !awaited && info.offset != 0 && end != h.nextOffset)
            && (verdict == Accepted(false) ==>
                  h'.done == !info.more && h'.nextOffset == (if info.more then end else h.nextOffset))
  {
    hide SizeOf;
  }

  // ---------------------------------------------------------------- the client

  /** A response's tag is none, or a proper one that is the first or the same as before. */
  predicate TagAgrees(u: Upload, etag: Option<seq<byte>>) {
    etag.None? || (|etag.value| <= MAX_ETAG_SIZE && (u.etag == [] || etag.value == u.etag))
  }

  /** An upload goes on if and only if the response asks for more, has a readable block option and an
      agreeing tag, and there is more; the next block is no larger than asked for. It is finished if
      and only if the response is final with an agreeing tag; another tag ends it. */
  lemma GoesOnIff(u: Upload, source: seq<byte>, response: Response)
    requires UploadOk(u, source) && u.status.Uploading?
    ensures var next, agrees := OnResponse(u, source, response), TagAgrees(u, response.etag);
            && (next.status.Uploading? <==>
                  response.isContinue && Readable(response.block1, 0) && agrees && u.info.more)
            && (next.status.Finished? <==> !response.isContinue && agrees)
            && (next.status == Failed(EtagMismatch) <==>
                  u.etag != [] && response.etag.Some? && |response.etag.value| <= MAX_ETAG_SIZE
                  && response.etag.value != u.etag)
            && (next.status == Failed(OutOfRange) <==>
                  response.isContinue && Readable(response.block1, 0) && agrees && !u.info.more)
            && (next.status.Uploading? ==>
                  next.info.size == Min(u.info.size, GetBlockInfo(response.block1, 0).value.size))
            && (agrees ==> next.etag == if u.etag == [] && response.etag.Some? then response.etag.value else u.etag)
  {
    hide SizeOf;
  }

  /** The first block is of the largest size, at the start, and sets no condition. */
  lemma StartsLarge(source: seq<byte>)
    ensures var u := Start(source);
            u.status.Uploading? && u.info.offset == 0 && u.info.size == 1024 && u.etag == []
  {
  }

  /** Each request sets the condition that the resource still has the tag seen first. */
  lemma SetsCondition(u: Upload, source: seq<byte>)
    requires UploadOk(u, source)
    ensures RequestOf(u, source).ifMatch.Some? <==> u.etag != []
    ensures u.etag != [] ==> RequestOf(u, source).ifMatch.value == u.etag
  {
  }

  // -------------------------------------------------------------- whole uploads

  /** The client after a list of responses, if it does not end before. */
  function Answers(u: Upload, source: seq<byte>, responses: seq<Response>): Upload
    decreases |responses|
  {
    if responses == [] || !u.status.Uploading? then u
    else Answers(OnResponse(u, source, responses[0]), source, responses[1..])
  }

  lemma {:induction false} OneTag(u: Upload, source: seq<byte>, responses: seq<Response>)
    requires UploadOk(u, source) && u.status.Uploading? && u.etag != []
    requires Answers(u, source, responses).status.Uploading?
    ensures Answers(u, source, responses).etag == u.etag
    ensures forall i :: 0 <= i < |responses| && responses[i].etag.Some? ==> responses[i].etag.value == u.etag
    decreases |responses|
  {
    hide OnResponse, UploadOk;
    if responses != [] {
      var next := OnResponse(u, source, responses[0]);
      OnResponseOk(u, source, responses[0]);
      GoesOnIff(u, source, responses[0]);
      OneTag(next, source, responses[1..]);
      assert forall i :: 1 <= i < |responses| ==> responses[i] == responses[1..][i - 1];
    }
  }

  /** An upload that is still going on has met no two different tags: once a response had one, every
      later one that has any has the same, and the requests ask for it. */
  lemma {:induction false} TagsAgree(u: Upload, source: seq<byte>, responses: seq<Response>, i: nat, j: nat)
    requires UploadOk(u, source) && u.status.Uploading? && Answers(u, source, responses).status.Uploading?
    requires i < j < |responses| && responses[i].etag.Some? && responses[i].etag.value != []
    ensures responses[j].etag.Some? ==> responses[j].etag.value == responses[i].etag.value
    ensures Answers(u, source, responses).etag == responses[i].etag.value
    decreases |responses|
  {
    hide OnResponse, UploadOk;
    var next := OnResponse(u, source, responses[0]);
    OnResponseOk(u, source, responses[0]);
    GoesOnIff(u, source, responses[0]);
    if i == 0 {
      OneTag(next, source, responses[1..]);
      assert responses[j] == responses[1..][j - 1];
    } else {
      TagsAgree(next, source, responses[1..], i - 1, j - 1);
    }
  }

  /** When the server's tag is no longer the one the client has seen, its block is refused and the
      server keeps what it had. */
  lemma StaleRefused(t: Transfer)
    requires UploadOk(t.client, t.source) && BlockNumber(t.client) < MAX_INDEX
    requires t.client.etag != [] && |t.client.etag| <= MAX_ETAG_SIZE && t.client.etag != t.helper.etag
    ensures var request := RequestOf(t.client, t.source);
            && OnRequest(t.helper, request).1 == Refused(PreconditionFailed)
            && Deliver(t, request).received == t.received
            && Deliver(t, request).helper.nextOffset == t.helper.nextOffset
            && Deliver(t, request).helper.done == t.helper.done
  {
    var request := RequestOf(t.client, t.source);
    RequestIsPiece(t.client, t.source);
    SetsCondition(t.client, t.source);
    ReadIff(request.block1, 0);
    hide RequestOf, OnRequest, GetBlockInfo, ValidSize;
    VerdictIff(t.helper, request);
  }
}
