/** Blockwise uploads (sections 2.2 and 2.5 of RFC 7959): the BLOCK1 option, the client that cuts
    a resource into blocks, and the helper a server uses to put them together again. */
module Blockwise {
  import opened Common
  import opened CoapOptions
  import opened BitArithmetic

  const BLOCK1: u32 := 27
  const MAX_ETAG_SIZE := 8
  const DEFAULT_BLOCK_SIZE := 1024
  /** Block numbers from this one on do not fit above the four low bits of the option. */
  const MAX_INDEX := 0x1000_0000

  datatype Error = OutOfRange | NoSuchItem | InvalidFormat | InvalidParameters | InvalidResponse | EtagMismatch

  datatype BlockInfo = BlockInfo(offset: nat, size: nat, more: bool)

  datatype Chunk = Chunk(size: nat, more: bool)

  /** How much there is at an offset, and whether more follows. */
  function AdjustAndGetChunkSize(offset: nat, blockSize: nat, payloadSize: nat): (r: Result<Chunk, Error>)
    ensures r.Ok? <==> offset < payloadSize
    ensures r.Ok? ==> r.value.size == Min(blockSize, payloadSize - offset)
    ensures r.Ok? ==> (r.value.more <==> offset + r.value.size < payloadSize)
  {
    if offset >= payloadSize then Err(OutOfRange)
    else if offset + blockSize >= payloadSize then Ok(Chunk(payloadSize - offset, false))
    else Ok(Chunk(blockSize, true))
  }

  // ------------------------------------------------------------ the BLOCK1 option

  function SizeOf(log: nat): (r: nat)
    ensures r >= 16
  {
    if log == 0 then 16 else 2 * SizeOf(log - 1)
  }

  predicate ValidSize(size: nat) {
    size in {16, 32, 64, 128, 256, 512, 1024}
  }

  lemma Sizes()
    ensures SizeOf(0) == 16 && SizeOf(1) == 32 && SizeOf(2) == 64 && SizeOf(3) == 128
    ensures SizeOf(4) == 256 && SizeOf(5) == 512 && SizeOf(6) == 1024
  {
  }

  /** The exponent of a block size that has one. */
  function LogOf(size: nat): (r: nat)
    requires ValidSize(size)
    ensures r <= 6 && SizeOf(r) == size
  {
    Sizes();
    if size == 16 then 0 else if size == 32 then 1 else if size == 64 then 2 else if size == 128 then 3
    else if size == 256 then 4 else if size == 512 then 5 else 6
  }

  /** Block number, more flag and size exponent, packed into 32 bits. */
  function Pack(index: u32, more: bool, log: nat): (r: u32)
    requires log < 8
    ensures r % 8 == log && ((r / 8) % 2 != 0 <==> more) && r / 16 == index % MAX_INDEX
  {
    ShiftedIndex(index);
    var high, low := (index * 16) % U32, (if more then 8 else 0) + log;
    Fields(index % MAX_INDEX, if more then 1 else 0, log);
    high + low
  }

  lemma Fields(index: nat, flag: nat, log: nat)
    requires flag < 2 && log < 8
    ensures var r := index * 16 + flag * 8 + log;
            r % 8 == log && (r / 8) % 2 == flag && r / 16 == index
  {
    DivModParts(2 * index + flag, log, 8);
    DivModParts(index, flag * 8 + log, 16);
  }

  lemma ShiftedIndex(index: nat)
    ensures (index * 16) % U32 == (index % MAX_INDEX) * 16
  {
    assert index * 16 == (index / MAX_INDEX) * U32 + (index % MAX_INDEX) * 16;
  }

  function OptionValue(info: BlockInfo): Result<u32, Error> {
    if ValidSize(info.size) then Ok(Pack((info.offset / info.size) % U32, info.more, LogOf(info.size)))
    else Err(InvalidParameters)
  }

  /** Packs a block description; fails for a size that is no power of two from 16 to 1024. */
  method ToOptionValue(info: BlockInfo) returns (r: Result<u32, Error>)
    ensures r == OptionValue(info)
  {
    Sizes();
    var log, size := 6, 1024;
    while size != info.size && log >= 0
      invariant -1 <= log <= 6 && size == (if log >= 0 then SizeOf(log) else 8)
      invariant forall l :: log < l <= 6 ==> SizeOf(l) != info.size
      decreases log + 1
    {
      size := size / 2;
      log := log - 1;
    }
    if log < 0 {
      return Err(InvalidParameters);
    }
    LogUnique(log);
    r := Ok(Pack((info.offset / info.size) % U32, info.more, log));
  }

  lemma {:induction false} LogUnique(log: nat)
    requires log <= 6
    ensures ValidSize(SizeOf(log)) && LogOf(SizeOf(log)) == log
  {
    Sizes();
  }

  /** Reads a block option as found in a message, with defaults if there is none. */
  function GetBlockInfo(option: Option<CoapOption>, defaultSize: nat): Result<BlockInfo, Error> {
    match option
    case None => if defaultSize != 0 then Ok(BlockInfo(0, defaultSize, false)) else Err(NoSuchItem)
    case Some(o) =>
      if !o.value.Uint? || o.value.uint % 8 == 7 then Err(InvalidFormat)
      else
        var size := SizeOf(o.value.uint % 8);
        Ok(BlockInfo(size * (o.value.uint / 16), size, (o.value.uint / 8) % 2 != 0))
  }

  function BlockOption(value: u32): CoapOption {
    CoapOption(BLOCK1, Uint(value))
  }

  /** A packed description reads back as itself exactly if the offset is a multiple of the size and
      the block number fits. */
  lemma OptionRoundTrip(info: BlockInfo, defaultSize: nat)
    requires ValidSize(info.size)
    ensures GetBlockInfo(Some(BlockOption(OptionValue(info).value)), defaultSize) == Ok(info)
            <==> info.offset % info.size == 0 && info.offset / info.size < MAX_INDEX
  {
    hide ValidSize, OptionValue, GetBlockInfo;
    ReadsAs(info, defaultSize);
    MultipleBelow(info.offset, info.size);
  }

  /** What a packed description reads as: the block number loses its top bits, and the offset the
      part within a block. */
  lemma ReadsAs(info: BlockInfo, defaultSize: nat)
    requires ValidSize(info.size)
    ensures info.size > 0
    ensures GetBlockInfo(Some(BlockOption(OptionValue(info).value)), defaultSize)
            == Ok(BlockInfo(info.size * ((info.offset / info.size) % MAX_INDEX), info.size, info.more))
  {
    var log, q := LogOf(info.size), info.offset / info.size;
    assert (q % U32) % MAX_INDEX == q % MAX_INDEX;
    hide SizeOf, Pack, LogOf;
  }

  lemma MultipleBelow(offset: nat, size: nat)
    requires size > 0
    ensures size * ((offset / size) % MAX_INDEX) == offset <==> offset % size == 0 && offset / size < MAX_INDEX
  {
    var q, r := offset / size, offset % size;
    QuotientParts(offset, size);
    assert q * size == size * q;
    if q >= MAX_INDEX {
      SmallerMultiple(size, q % MAX_INDEX, q);
    }
  }

  lemma SmallerMultiple(size: nat, a: nat, b: nat)
    requires size > 0 && a < b
    ensures size * a < size * b
  {
    MulMono(a + 1, b, size);
    assert (a + 1) * size == size * a + size;
  }

  /** Every well-formed option value is what its description packs to. */
  lemma ValueRoundTrips(value: u32, defaultSize: nat)
    requires value % 8 != 7
    ensures var info := GetBlockInfo(Some(BlockOption(value)), defaultSize);
            info.Ok? && OptionValue(info.value) == Ok(value)
  {
    hide Pack, LogOf, ValidSize, SizeOf;
    var size, index := SizeOf(value % 8), value / 16;
    LogUnique(value % 8);
    ExactQuotient(size, index);
    PackParts(value);
    var info := BlockInfo(size * index, size, (value / 8) % 2 != 0);
    assert GetBlockInfo(Some(BlockOption(value)), defaultSize) == Ok(info);
    hide GetBlockInfo;
    assert (info.offset / info.size) % U32 == index;
  }

  lemma ExactQuotient(d: nat, q: nat)
    requires d > 0
    ensures (d * q) / d == q
  {
    DivModParts(q, 0, d);
  }

  lemma PackParts(value: u32)
    ensures Pack(value / 16, (value / 8) % 2 != 0, value % 8) == value
  {
    assert (value / 16) * 16 < U32;
    assert value == (value / 16) * 16 + ((value / 8) % 2) * 8 + value % 8;
  }

  // -------------------------------------------------------------------- the client

  datatype Request = Request(block1: Option<CoapOption>, ifMatch: Option<seq<byte>>, payload: seq<byte>)

  datatype Status = Uploading | Finished | Failed(error: Error)

  /** The upload half of a request context. */
  datatype Upload = Upload(info: BlockInfo, payloadSize: nat, etag: seq<byte>, status: Status)

  /** The first block; a resource without any data is sent as one empty block. */
  function Start(source: seq<byte>): Upload {
    match AdjustAndGetChunkSize(0, 1024, |source|)
    case Ok(chunk) => Upload(BlockInfo(0, 1024, chunk.more), chunk.size, [], Uploading)
    case Err(_) => Upload(BlockInfo(0, 1024, false), 0, [], Uploading)
  }

  /** A response that asks for the next block, possibly in smaller pieces. */
  function OnContinue(u: Upload, source: seq<byte>, block1: Option<CoapOption>): Upload {
    match GetBlockInfo(block1, 0)
    case Err(_) => u.(status := Failed(InvalidResponse))
    case Ok(info) =>
      var offset, size := u.info.offset + u.payloadSize, Min(u.info.size, info.size);
      match AdjustAndGetChunkSize(offset, size, |source|)
      case Err(e) => Upload(BlockInfo(offset, size, u.info.more), size, u.etag, Failed(e))
      case Ok(chunk) => Upload(BlockInfo(offset, size, chunk.more), chunk.size, u.etag, Uploading)
  }

  datatype Response = Response(isContinue: bool, block1: Option<CoapOption>, etag: Option<seq<byte>>)

  /** The ETag of the responses has to stay the same. */
  function OnEtag(u: Upload, etag: Option<seq<byte>>): Upload {
    match etag
    case None => u
    case Some(e) =>
      if |e| > MAX_ETAG_SIZE then u.(status := Failed(InvalidResponse))
      else if u.etag != [] then if u.etag != e then u.(status := Failed(EtagMismatch)) else u
      else u.(etag := e)
  }

  function OnResponse(u: Upload, source: seq<byte>, response: Response): Upload {
    var checked := OnEtag(u, response.etag);
    if checked.status.Failed? then checked
    else if response.isContinue then OnContinue(checked, source, response.block1)
    else checked.(status := Finished)
  }

  /** The request for the current block. */
  function RequestOf(u: Upload, source: seq<byte>): Request
    requires u.info.offset + u.payloadSize <= |source|
  {
    var value := OptionValue(u.info);
    Request(if value.Ok? then Some(BlockOption(value.value)) else None,
            if u.etag == [] then None else Some(u.etag),
            source[u.info.offset..u.info.offset + u.payloadSize])
  }

  /** The current block is a piece of the source that ends with it exactly if no more follows, and
      starts at a multiple of its size, which is a size the option can hold. */
  ghost predicate UploadOk(u: Upload, source: seq<byte>) {
    && ValidSize(u.info.size) && u.info.offset % u.info.size == 0
    && u.info.offset + u.payloadSize <= |source| && u.payloadSize <= u.info.size
    && (u.info.more <==> u.info.offset + u.payloadSize < |source|)
    && (u.info.more ==> u.payloadSize == u.info.size)
    && (u.info.offset > 0 ==> u.info.offset < |source|)
  }

  lemma StartOk(source: seq<byte>)
    ensures UploadOk(Start(source), source)
  {
  }

  /** A multiple of a block size is a multiple of every smaller one. */
  lemma {:induction false} SmallerSizeDivides(offset: nat, big: nat, small: nat)
    requires ValidSize(big) && ValidSize(small) && small <= big && offset % big == 0
    ensures offset % small == 0
    decreases big
  {
    if small < big {
      Halved(offset, big);
      SmallerSizeDivides(offset, big / 2, small);
    }
  }

  lemma Halved(offset: nat, size: nat)
    requires ValidSize(size) && offset % size == 0
    ensures offset % (size / 2) == 0
  {
    var half := size / 2;
    DivModParts(2 * (offset / size), 0, half);
    assert offset == (offset / size) * size;
    assert size == 2 * half;
    assert (offset / size) * (2 * half) == (2 * (offset / size)) * half;
  }

  lemma NextMultiple(offset: nat, size: nat)
    requires size > 0 && offset % size == 0
    ensures (offset + size) % size == 0
  {
    var q := offset / size;
    assert offset == q * size && (q + 1) * size == q * size + size;
    DivModParts(q + 1, 0, size);
  }

  /** Whatever a server answers, the client's next block starts where the last one ended and is
      aligned, although the size may have shrunk. */
  lemma OnResponseOk(u: Upload, source: seq<byte>, response: Response)
    requires UploadOk(u, source) && u.status.Uploading?
    ensures var next := OnResponse(u, source, response);
            && (next.status.Uploading? ==>
                  && UploadOk(next, source) && u.info.more
                  && next.info.offset == u.info.offset + u.payloadSize && next.info.size <= u.info.size)
  {
    hide SizeOf;
    var checked := OnEtag(u, response.etag);
    var block := GetBlockInfo(response.block1, 0);
    if !checked.status.Failed? && response.isContinue && block.Ok? && u.info.more {
      assert ValidSize(block.value.size) by {
        LogUnique(response.block1.value.value.uint % 8);
      }
      var size := Min(u.info.size, block.value.size);
      NextMultiple(u.info.offset, u.info.size);
      SmallerSizeDivides(u.info.offset + u.info.size, u.info.size, size);
    }
  }

  /** The request context of an upload. */
  class RequestContext {
    const source: seq<byte>
    var block1Info: BlockInfo
    var block1PayloadSize: nat
    var etag: seq<byte>
    var status: Status

    function State(): Upload
      reads this
    {
      Upload(block1Info, block1PayloadSize, etag, status)
    }

    constructor (data: seq<byte>)
      ensures source == data && State() == Start(data)
    {
      source := data;
      etag, status := [], Uploading;
      var chunk := AdjustAndGetChunkSize(0, 1024, |data|);
      if chunk.Ok? {
        block1Info, block1PayloadSize := BlockInfo(0, 1024, chunk.value.more), chunk.value.size;
      } else {
        block1Info, block1PayloadSize := BlockInfo(0, 1024, false), 0;
      }
    }

    method OnContinueResponse(block1: Option<CoapOption>)
      requires UploadOk(State(), source) && status.Uploading?
      modifies this
      ensures State() == OnContinue(old(State()), source, block1)
    {
      var info := GetBlockInfo(block1, 0);
      if info.Err? {
        status := Failed(InvalidResponse);
        return;
      }
      block1Info := block1Info.(offset := block1Info.offset + block1PayloadSize);
      block1Info := block1Info.(size := Min(block1Info.size, info.value.size));
      block1PayloadSize := block1Info.size;
      var chunk := AdjustAndGetChunkSize(block1Info.offset, block1PayloadSize, |source|);
      if chunk.Err? {
        status := Failed(chunk.error);
        return;
      }
      block1PayloadSize, block1Info := chunk.value.size, block1Info.(more := chunk.value.more);
    }

    /** Keeps the current block a proper piece of the source. */
    method OnResponseReceived(response: Response)
      requires UploadOk(State(), source) && status.Uploading?
      modifies this
      ensures State() == OnResponse(old(State()), source, response)
      ensures status.Uploading? ==> UploadOk(State(), source)
    {
      OnResponseOk(State(), source, response);
      if response.etag.Some? {
        var e := response.etag.value;
        if |e| > MAX_ETAG_SIZE {
          status := Failed(InvalidResponse);
          return;
        }
        if etag != [] {
          if etag != e {
            status := Failed(EtagMismatch);
            return;
          }
        } else {
          etag := e;
        }
      }
      if response.isContinue {
        OnContinueResponse(response.block1);
      } else {
        status := Finished;
      }
    }
  }

  // -------------------------------------------------------------------- the server

  datatype Refusal = BadOption | PreconditionFailed | RequestEntityIncomplete

  datatype Helper = Helper(nextOffset: nat, done: bool, preferredSize: nat, info: BlockInfo, etag: seq<byte>)

  function InitHelper(preferredSize: nat): Helper {
    Helper(0, false, if preferredSize != 0 then preferredSize else DEFAULT_BLOCK_SIZE, BlockInfo(0, 0, false), [])
  }

  datatype Verdict = Accepted(resent: bool) | Refused(refusal: Refusal)

  /** Whether the condition of a request speaks against it. */
  function CheckEtag(etag: seq<byte>, ifMatch: Option<seq<byte>>): Option<Refusal> {
    if ifMatch.None? then None
    else if |ifMatch.value| > MAX_ETAG_SIZE then Some(BadOption)
    else if ifMatch.value != etag then Some(PreconditionFailed)
    else None
  }

  /** What the position of a block says about it. */
  function Judge(h: Helper, info: BlockInfo, end: nat): Verdict {
    if info.offset == h.nextOffset then
      if !h.done then Accepted(false) else if info.more then Refused(BadOption) else Accepted(true)
    else if info.offset == 0 then Accepted(false)
    else if end != h.nextOffset then Refused(RequestEntityIncomplete)
    else Accepted(true)
  }

  /** The helper after a request, and what it says about it. */
  function OnRequest(h: Helper, request: Request): (Helper, Verdict) {
    match GetBlockInfo(request.block1, h.preferredSize)
    case Err(_) => (h.(info := BlockInfo(0, 0, false)), Refused(BadOption))
    case Ok(info) =>
      var seen := h.(info := info);
      var refusal := CheckEtag(h.etag, request.ifMatch);
      var end := info.offset + |request.payload|;
      var verdict := Judge(h, info, end);
      if refusal.Some? then (seen, Refused(refusal.value))
      else if verdict != Accepted(false) then (seen, verdict)
      else if info.more then (seen.(nextOffset := end, done := false), verdict)
      else (seen.(done := true), verdict)
  }

  class ServerHelper {
    var nextOffset: nat
    var done: bool
    var preferredBlockSize: nat
    var blockInfo: BlockInfo
    var etag: seq<byte>

    function State(): Helper
      reads this
    {
      Helper(nextOffset, done, preferredBlockSize, blockInfo, etag)
    }

    constructor (preferredSize: nat)
      ensures State() == InitHelper(preferredSize)
    {
      nextOffset, done, blockInfo, etag := 0, false, BlockInfo(0, 0, false), [];
      if preferredSize != 0 {
        preferredBlockSize := preferredSize;
      } else {
        preferredBlockSize := DEFAULT_BLOCK_SIZE;
      }
    }

    method SetEtag(value: seq<byte>)
      modifies this
      ensures State() == old(State()).(etag := value[..Min(|value|, MAX_ETAG_SIZE)])
    {
      etag := value[..Min(|value|, MAX_ETAG_SIZE)];
    }

    method OnRequestReceived(request: Request) returns (verdict: Verdict)
      modifies this
      ensures (State(), verdict) == OnRequest(old(State()), request)
    {
      blockInfo := BlockInfo(0, 0, false);
      var info := GetBlockInfo(request.block1, preferredBlockSize);
      if info.Err? {
        return Refused(BadOption);
      }
      blockInfo := info.value;
      if request.ifMatch.Some? {
        if |request.ifMatch.value| > MAX_ETAG_SIZE {
          return Refused(BadOption);
        }
        if request.ifMatch.value != etag {
          return Refused(PreconditionFailed);
        }
      }
      var resent := false;
      var end := blockInfo.offset + |request.payload|;
      if blockInfo.offset == nextOffset {
        if done {
          if blockInfo.more {
            return Refused(BadOption);
          }
          resent := true;
        }
      } else if blockInfo.offset != 0 {
        if end != nextOffset {
          return Refused(RequestEntityIncomplete);
        }
        resent := true;
      } else {
        done := false;
      }
      if !resent {
        if blockInfo.more {
          nextOffset := end;
        } else {
          done := true;
        }
      }
      return Accepted(resent);
    }
  }
}
