/** What the RAM record storage is meant to be: a queue of records with a capacity in bytes, and
    handles through which a reader retrieves the records it saw when it came. `history` and the
    track of each handle are auxiliary: they number the records ever added. */
module RecordQueue {
  import opened Common

  const HANDLE_REMOVE := 0
  const HANDLE_GENERATE := 1
  const HANDLE_MIN := 2
  const HANDLE_MAX := 0xFFFF
  const MAX_RECORD := 0xFFFF - 2

  type Record = r: seq<byte> | 1 <= |r| <= MAX_RECORD witness [0]

  /** A record as stored: its length in two bytes, low byte first, and its payload. */
  function Encode(r: Record): (bytes: seq<byte>)
    ensures |bytes| == 2 + |r|
  {
    [|r| % 256, |r| / 256] + r
  }

  function Bytes(records: seq<Record>): seq<byte> {
    if records == [] then [] else Encode(records[0]) + Bytes(records[1..])
  }

  lemma {:induction false} BytesConcat(a: seq<Record>, b: seq<Record>)
    ensures Bytes(a + b) == Bytes(a) + Bytes(b)
  {
    if a == [] {
      assert a + b == b;
    } else {
      hide Encode;
      BytesConcat(a[1..], b);
      assert (a + b)[1..] == a[1..] + b;
      Regroup(Encode(a[0]), Bytes(a[1..]), Bytes(b));
    }
  }

  /** The records retrieved through a handle: of those numbered `start` up to `limit`, present
      when it was made, the numbers returned so far. */
  datatype Track = Track(start: nat, limit: nat, returned: seq<nat>)

  datatype Handle = Handle(number: nat, count: nat, offset: nat, track: Track)

  datatype Store = Store(records: seq<Record>, handles: seq<Handle>, nextHandle: nat,
                         removed: nat, history: seq<Record>)

  // --------------------------------------------------------------- operations

  /** How a handle feels the removal of the `k` oldest records. */
  function Shrink(h: Handle, k: nat): Handle
    requires k <= h.count
  {
    h.(count := h.count - k, offset := if h.offset > k then h.offset - k else 0)
  }

  function RecordsRemoved(handles: seq<Handle>, k: nat): seq<Handle> {
    if k == 0 || handles == [] then handles
    else (if handles[0].count <= k then [] else [Shrink(handles[0], k)]) + RecordsRemoved(handles[1..], k)
  }

  /** The store without its `k` oldest records. */
  function DropFront(s: Store, k: nat): Store
    requires k <= |s.records|
  {
    s.(records := s.records[k..], removed := s.removed + k, handles := RecordsRemoved(s.handles, k))
  }

  /** How many of the oldest records have to go before `need` more bytes fit. */
  function Evictions(records: seq<Record>, need: nat, capacity: nat): (k: nat)
    ensures k <= |records|
  {
    if records == [] || |Bytes(records)| + need <= capacity then 0
    else 1 + Evictions(records[1..], need, capacity)
  }

  function Add(s: Store, r: Record, capacity: nat): Store {
    var s1 := DropFront(s, Evictions(s.records, 2 + |r|, capacity));
    s1.(records := s1.records + [r], history := s.history + [r])
  }

  /** How many records fit into `room` bytes. */
  function FitCount(records: seq<Record>, room: nat): (k: nat)
    ensures k <= |records|
  {
    if records == [] || 2 + |records[0]| > room then 0
    else 1 + FitCount(records[1..], room - (2 + |records[0]|))
  }

  function Find(handles: seq<Handle>, number: nat): (i: nat)
    ensures i <= |handles|
    ensures i < |handles| ==> handles[i].number == number
  {
    if handles == [] || handles[0].number == number then 0 else 1 + Find(handles[1..], number)
  }

  function NewHandle(s: Store): Handle {
    Handle(s.nextHandle, |s.records|, 0, Track(s.removed, s.removed + |s.records|, []))
  }

  function AddHandle(s: Store): Store {
    s.(handles := [NewHandle(s)] + s.handles,
       nextHandle := if s.nextHandle == HANDLE_MAX then HANDLE_MIN else s.nextHandle + 1)
  }

  datatype Retrieved = Retrieved(store: Store, handle: nat, bytes: seq<byte>)

  /** The next records of the handle at index `i` that fit into `size` bytes. */
  function Advance(s: Store, i: nat, size: nat): Retrieved
    requires i < |s.handles| && s.handles[i].offset <= s.handles[i].count <= |s.records|
  {
    var h := s.handles[i];
    var pending := s.records[h.offset..h.count];
    var k := FitCount(pending, size);
    var first := s.removed + h.offset;
    var h' := h.(offset := h.offset + k, track := h.track.(returned := h.track.returned + Range(first, first + k)));
    Retrieved(s.(handles := s.handles[i := h']), h.number, Bytes(pending[..k]))
  }

  function Get(s: Store, handle: nat, size: nat): Retrieved
    requires HandlesInRange(s)
  {
    if handle == HANDLE_REMOVE then
      var k := FitCount(s.records, size);
      Retrieved(DropFront(s, k), handle, Bytes(s.records[..k]))
    else if handle == HANDLE_GENERATE then Advance(AddHandle(s), 0, size)
    else
      var i := Find(s.handles, handle);
      if i == |s.handles| then Retrieved(s, handle, []) else Advance(s, i, size)
  }

  function Delete(s: Store, handle: nat): Result<Store, ()>
    requires HandlesInRange(s)
  {
    if handle == HANDLE_GENERATE then Err(())
    else if handle == HANDLE_REMOVE then Ok(DropFront(s, |s.records|))
    else
      var i := Find(s.handles, handle);
      if i == |s.handles| then Ok(s) else Ok(DropFront(s, s.handles[i].count))
  }

  predicate HandlesInRange(s: Store) {
    forall i :: 0 <= i < |s.handles| ==> s.handles[i].offset <= s.handles[i].count <= |s.records|
  }

  // ---------------------------------------------------------------- invariant

  ghost predicate Increasing(numbers: seq<nat>) {
    forall i, j :: 0 <= i < j < |numbers| ==> numbers[i] < numbers[j]
  }

  /** A handle stands for the records numbered up to its limit. It has returned records in order
      and at most once, and what it skipped is no longer in the store. */
  ghost predicate HandleOk(h: Handle, removed: nat, available: nat) {
    && h.offset <= h.count <= available
    && h.track.start <= removed
    && h.track.limit == removed + h.count
    && Increasing(h.track.returned)
    && (forall n :: n in h.track.returned ==> h.track.start <= n < removed + h.offset)
    && (forall n :: h.track.start <= n < removed + h.offset ==> n in h.track.returned || n < removed)
  }

  ghost predicate StoreOk(s: Store) {
    && s.removed <= |s.history| && s.records == s.history[s.removed..]
    && HANDLE_MIN <= s.nextHandle <= HANDLE_MAX
    && AllOk(s.handles, s.removed, |s.records|)
  }

  lemma StoreInRange(s: Store)
    requires StoreOk(s)
    ensures HandlesInRange(s)
  {
    forall i | 0 <= i < |s.handles| ensures s.handles[i].offset <= s.handles[i].count <= |s.records| {
      assert HandleOk(s.handles[i], s.removed, |s.records|);
    }
  }

  lemma ShrinkOk(h: Handle, removed: nat, available: nat, k: nat)
    requires HandleOk(h, removed, available) && k < h.count && k <= available
    ensures HandleOk(Shrink(h, k), removed + k, available - k)
  {
  }

  ghost predicate AllOk(handles: seq<Handle>, removed: nat, available: nat) {
    forall i :: 0 <= i < |handles| ==> HandleOk(handles[i], removed, available)
  }

  lemma AllOkCons(h: Handle, rest: seq<Handle>, removed: nat, available: nat)
    requires HandleOk(h, removed, available) && AllOk(rest, removed, available)
    ensures AllOk([h] + rest, removed, available)
  {
    hide HandleOk;
  }

  lemma {:induction false} RemovedOk(handles: seq<Handle>, removed: nat, available: nat, k: nat)
    requires AllOk(handles, removed, available) && 0 < k <= available
    ensures AllOk(RecordsRemoved(handles, k), removed + k, available - k)
  {
    if handles != [] {
      assert HandleOk(handles[0], removed, available) && AllOk(handles[1..], removed, available) by {
        hide HandleOk;
      }
      hide HandleOk, Shrink, AllOk;
      RemovedOk(handles[1..], removed, available, k);
      if handles[0].count > k {
        ShrinkOk(handles[0], removed, available, k);
        AllOkCons(Shrink(handles[0], k), RecordsRemoved(handles[1..], k), removed + k, available - k);
      } else {
        assert [] + RecordsRemoved(handles[1..], k) == RecordsRemoved(handles[1..], k);
      }
    }
  }

  lemma DropFrontOk(s: Store, k: nat)
    requires StoreOk(s) && k <= |s.records|
    ensures StoreOk(DropFront(s, k))
  {
    hide AllOk;
    if k > 0 {
      RemovedOk(s.handles, s.removed, |s.records|, k);
    }
    assert s.history[s.removed..][k..] == s.history[s.removed + k..];
  }

  lemma HandleGrows(h: Handle, removed: nat, available: nat)
    requires HandleOk(h, removed, available)
    ensures HandleOk(h, removed, available + 1)
  {
  }

  lemma AddOk(s: Store, r: Record, capacity: nat)
    requires StoreOk(s)
    ensures StoreOk(Add(s, r, capacity))
  {
    var k := Evictions(s.records, 2 + |r|, capacity);
    DropFrontOk(s, k);
    hide HandleOk, Evictions, RecordsRemoved;
    var s1, s' := DropFront(s, k), Add(s, r, capacity);
    forall i | 0 <= i < |s'.handles| ensures HandleOk(s'.handles[i], s'.removed, |s'.records|) {
      HandleGrows(s1.handles[i], s1.removed, |s1.records|);
    }
  }

  lemma RangeGrows(returned: seq<nat>, from: nat, end: nat)
    requires from <= end && Increasing(returned) && forall n :: n in returned ==> n < from
    ensures Increasing(returned + Range(from, end))
    ensures forall n :: n in Range(from, end) <==> from <= n < end
  {
    forall n | from <= n < end ensures n in Range(from, end) {
      assert Range(from, end)[n - from] == n;
    }
    var all := returned + Range(from, end);
    forall i, j | 0 <= i < j < |all| ensures all[i] < all[j] {
      if i < |returned| <= j {
        assert returned[i] in returned;
      }
    }
  }

  lemma HandleAdvances(h: Handle, removed: nat, available: nat, k: nat)
    requires HandleOk(h, removed, available) && h.offset + k <= h.count
    ensures var first := removed + h.offset;
            HandleOk(h.(offset := h.offset + k,
                        track := h.track.(returned := h.track.returned + Range(first, first + k))),
                     removed, available)
  {
    var first := removed + h.offset;
    RangeGrows(h.track.returned, first, first + k);
    hide Range, Increasing;
    var before, more := h.track.returned, Range(first, first + k);
    assert forall n :: n in before + more <==> n in before || n in more;
  }

  /** A handle that has moved on is still the same handle. */
  ghost predicate SameBut(h: Handle, h': Handle) {
    h'.number == h.number && h'.count == h.count && h'.track.start == h.track.start && h'.track.limit == h.track.limit
  }

  /** Retrieving through a handle returns, as bytes, the records with the next numbers, and concerns
      that handle alone. */
  lemma AdvanceOk(s: Store, i: nat, size: nat)
    requires StoreOk(s) && i < |s.handles|
    requires s.handles[i].offset <= s.handles[i].count <= |s.records|
    ensures StoreOk(Advance(s, i, size).store)
    ensures var h, h' := s.handles[i], Advance(s, i, size).store.handles[i];
            && s.removed + h'.offset <= |s.history| && h.offset <= h'.offset
            && h'.track.returned == h.track.returned + Range(s.removed + h.offset, s.removed + h'.offset)
            && Advance(s, i, size).bytes == Bytes(s.history[s.removed + h.offset..s.removed + h'.offset])
            && Advance(s, i, size).handle == h.number && SameBut(h, h')
            && Advance(s, i, size).store == s.(handles := s.handles[i := h'])
  {
    hide HandleOk, Range, Bytes;
    var h := s.handles[i];
    var pending := s.records[h.offset..h.count];
    var k := FitCount(pending, size);
    HandleAdvances(h, s.removed, |s.records|, k);
    assert pending[..k] == s.history[s.removed + h.offset..s.removed + h.offset + k];
  }

  lemma AddHandleOk(s: Store)
    requires StoreOk(s)
    ensures StoreOk(AddHandle(s))
  {
    assert HandleOk(NewHandle(s), s.removed, |s.records|);
    hide HandleOk;
  }

  lemma GetOk(s: Store, handle: nat, size: nat)
    requires StoreOk(s)
    ensures HandlesInRange(s) && StoreOk(Get(s, handle, size).store)
  {
    hide Advance, DropFront, FitCount, HandleOk, StoreOk;
    StoreInRange(s);
    if handle == HANDLE_REMOVE {
      DropFrontOk(s, FitCount(s.records, size));
    } else if handle == HANDLE_GENERATE {
      AddHandleOk(s);
      AdvanceOk(AddHandle(s), 0, size);
    } else if Find(s.handles, handle) < |s.handles| {
      AdvanceOk(s, Find(s.handles, handle), size);
    }
  }

  lemma DeleteOk(s: Store, handle: nat)
    requires StoreOk(s)
    ensures HandlesInRange(s) && (Delete(s, handle).Ok? ==> StoreOk(Delete(s, handle).value))
  {
    hide HandleOk, DropFront, StoreOk;
    StoreInRange(s);
    DropFrontOk(s, |s.records|);
    var i := Find(s.handles, handle);
    if i < |s.handles| {
      DropFrontOk(s, s.handles[i].count);
    }
  }

  // ------------------------------------------------------------- main results

  lemma NothingStored()
    ensures Bytes([]) == []
  {
  }

  lemma {:induction false} FewestEvicted(records: seq<Record>, need: nat, capacity: nat, j: nat)
    requires j <= |records| && need <= capacity
    ensures var k := Evictions(records, need, capacity);
            |Bytes(records[j..])| + need <= capacity <==> k <= j
  {
    hide Bytes;
    if records != [] && |Bytes(records)| + need > capacity {
      if j == 0 {
        assert records[0..] == records;
      } else {
        FewestEvicted(records[1..], need, capacity, j - 1);
        assert records[1..][j - 1..] == records[j..];
      }
    } else {
      NothingStored();
      SuffixFits(records, j);
    }
  }

  /** The eviction loop can make room if and only if the new record fits into the empty buffer, which
      holds one byte less than its size. */
  lemma RoomIff(records: seq<Record>, need: nat, capacity: nat)
    ensures (exists j :: 0 <= j <= |records| && |Bytes(records[j..])| + need <= capacity) <==> need <= capacity
  {
    assert records[|records|..] == [] && Bytes([]) == [];
    assert need <= capacity ==> |Bytes(records[|records|..])| + need <= capacity;
  }

  /** The longest run of records that fits is the one returned. */
  lemma {:induction false} MostReturned(records: seq<Record>, room: nat, j: nat)
    requires j <= |records|
    ensures |Bytes(records[..j])| <= room <==> j <= FitCount(records, room)
  {
    if j > 0 {
      assert records[..j][1..] == records[1..][..j - 1];
      if 2 + |records[0]| <= room {
        MostReturned(records[1..], room - (2 + |records[0]|), j - 1);
      }
    }
  }

  /** DeleteRecords through a handle removes exactly what is left of the records that were there
      when the handle was made: afterwards the store holds the records added since then. */
  lemma {:induction false} DeleteThroughHandle(s: Store, handle: nat)
    requires StoreOk(s) && handle != HANDLE_GENERATE && handle != HANDLE_REMOVE
    requires Find(s.handles, handle) < |s.handles|
    ensures HandlesInRange(s)
    ensures var limit := s.handles[Find(s.handles, handle)].track.limit;
            && s.removed <= limit <= |s.history|
            && Delete(s, handle).Ok? && Delete(s, handle).value.records == s.history[limit..]
            && Delete(s, handle).value.removed == limit
  {
    StoreInRange(s);
    var h := s.handles[Find(s.handles, handle)];
    assert HandleOk(h, s.removed, |s.records|);
    assert s.history[s.removed..][h.count..] == s.history[s.removed + h.count..];
  }

  /** `k` records are the longest run from the front that fits into `size` bytes. */
  ghost predicate Longest(records: seq<Record>, size: nat, k: nat) {
    && k <= |records| && |Bytes(records[..k])| <= size
    && (k < |records| ==> |Bytes(records[..k + 1])| > size)
  }

  lemma {:induction false} FitIsLongest(records: seq<Record>, size: nat)
    ensures Longest(records, size, FitCount(records, size))
    ensures |Bytes(records)| <= size ==> FitCount(records, size) == |records|
  {
    hide Bytes, FitCount;
    var k := FitCount(records, size);
    MostReturned(records, size, k);
    if k < |records| {
      MostReturned(records, size, k + 1);
    }
    MostReturned(records, size, |records|);
    assert records[..|records|] == records;
  }

  /** The first retrieval of a reader: it gets a handle of its own, for all the records present, and
      as many of these from the front as fit. */
  lemma FirstRetrieval(s: Store, size: nat) returns (k: nat)
    requires StoreOk(s)
    ensures HandlesInRange(s) && Longest(s.records, size, k)
    ensures var r := Get(s, HANDLE_GENERATE, size);
            && r.bytes == Bytes(s.records[..k]) && r.handle == s.nextHandle
            && r.store.records == s.records && r.store.history == s.history && r.store.removed == s.removed
            && |r.store.handles| == 1 + |s.handles| && r.store.handles[1..] == s.handles
            && var h := r.store.handles[0];
               && h.number == r.handle && h.track == Track(s.removed, |s.history|, Range(s.removed, s.removed + k))
    ensures |Bytes(s.records)| <= size ==> k == |s.records| && Get(s, HANDLE_GENERATE, size).bytes == Bytes(s.records)
  {
    hide Bytes, FitCount, Range, HandlesInRange, HandleOk;
    StoreInRange(s);
    k := FitCount(s.records, size);
    FitIsLongest(s.records, size);
    assert s.records[0..|s.records|] == s.records && s.records[..|s.records|] == s.records;
    assert [] + Range(s.removed, s.removed + k) == Range(s.removed, s.removed + k);
  }

  /** Handle numbers go round from the smallest to the largest. */
  lemma NumbersGoRound(s: Store, size: nat)
    requires StoreOk(s)
    ensures HandlesInRange(s)
    ensures var next := Get(s, HANDLE_GENERATE, size).store.nextHandle;
            next - HANDLE_MIN == (s.nextHandle - HANDLE_MIN + 1) % (HANDLE_MAX - HANDLE_MIN + 1)
  {
    hide FitCount, HandlesInRange, HandleOk;
    StoreInRange(s);
  }

  /** Deleting through a handle just made leaves nothing. */
  lemma GenerateThenDelete(s: Store, size: nat)
    requires StoreOk(s)
    ensures HandlesInRange(s)
    ensures var r := Get(s, HANDLE_GENERATE, size);
            HandlesInRange(r.store) && Delete(r.store, r.handle).Ok?
            && Delete(r.store, r.handle).value.records == []
            && Delete(r.store, r.handle).value.removed == |s.history|
  {
    hide HandleOk, Bytes;
    GetOk(s, HANDLE_GENERATE, size);
    var k := FirstRetrieval(s, size);
    var r := Get(s, HANDLE_GENERATE, size);
    hide Get;
    assert Find(r.store.handles, r.handle) == 0;
    DeleteThroughHandle(r.store, r.handle);
    assert s.history[|s.history|..] == [];
  }

  /** Retrieval without a handle takes what it returns out of the store. */
  lemma TakesOut(s: Store, size: nat) returns (k: nat)
    requires StoreOk(s)
    ensures HandlesInRange(s) && Longest(s.records, size, k)
    ensures var r := Get(s, HANDLE_REMOVE, size);
            && r.handle == HANDLE_REMOVE && r.bytes == Bytes(s.records[..k]) && r.store == DropFront(s, k)
            && r.store.records == s.records[k..] && r.bytes + Bytes(r.store.records) == Bytes(s.records)
            && r.store.history == s.history && r.store.removed == s.removed + k
  {
    hide Bytes, FitCount, HandlesInRange, HandleOk;
    StoreInRange(s);
    k := FitCount(s.records, size);
    FitIsLongest(s.records, size);
    BytesConcat(s.records[..k], s.records[k..]);
    assert s.records == s.records[..k] + s.records[k..];
  }

  /** Deleting without a handle empties the store; a handle that is not known deletes and returns
      nothing; no handle is made for deleting. */
  lemma OtherHandles(s: Store, handle: nat, size: nat)
    requires StoreOk(s)
    ensures HandlesInRange(s)
    ensures Delete(s, handle).Err? <==> handle == HANDLE_GENERATE
    ensures handle == HANDLE_REMOVE ==>
              && Delete(s, handle).value == DropFront(s, |s.records|)
              && Delete(s, handle).value.records == [] && Delete(s, handle).value.history == s.history
    ensures handle != HANDLE_GENERATE && handle != HANDLE_REMOVE && (forall h :: h in s.handles ==> h.number != handle)
            ==> Delete(s, handle) == Ok(s) && Get(s, handle, size) == Retrieved(s, handle, [])
  {
    StoreInRange(s);
    hide HandlesInRange, HandleOk;
    if handle != HANDLE_GENERATE && handle != HANDLE_REMOVE && Find(s.handles, handle) < |s.handles| {
      assert s.handles[Find(s.handles, handle)] in s.handles;
    }
  }

  /** A new record is the last one, and what was there before stays but for the fewest oldest records
      that have to make room. */
  lemma AddAppends(s: Store, r: Record, capacity: nat) returns (k: nat)
    requires 2 + |r| <= capacity
    ensures k <= |s.records| && |Bytes(s.records[k..])| + 2 + |r| <= capacity
    ensures k > 0 ==> |Bytes(s.records[k - 1..])| + 2 + |r| > capacity
    ensures Add(s, r, capacity) == DropFront(s, k).(records := s.records[k..] + [r], history := s.history + [r])
  {
    hide Bytes, Evictions;
    k := Evictions(s.records, 2 + |r|, capacity);
    FewestEvicted(s.records, 2 + |r|, capacity, k);
    if k > 0 {
      FewestEvicted(s.records, 2 + |r|, capacity, k - 1);
    }
  }

  /** What identifies handles: their numbers and the records they stand for. */
  function Readers(handles: seq<Handle>): seq<(nat, Track)> {
    if handles == [] then [] else [(handles[0].number, handles[0].track)] + Readers(handles[1..])
  }

  /** Those that stand for a record numbered `floor` or higher. */
  function ReadersFrom(handles: seq<Handle>, floor: nat): seq<(nat, Track)> {
    if handles == [] then []
    else
      (if handles[0].track.limit > floor then [(handles[0].number, handles[0].track)] else [])
      + ReadersFrom(handles[1..], floor)
  }

  /** When records go, exactly the handles go that have none left, and the others keep their place. */
  lemma {:induction false} HandlesSurvive(handles: seq<Handle>, removed: nat, available: nat, k: nat)
    requires AllOk(handles, removed, available) && 0 < k <= available
    ensures Readers(RecordsRemoved(handles, k)) == ReadersFrom(handles, removed + k)
  {
    if handles != [] {
      assert HandleOk(handles[0], removed, available) && AllOk(handles[1..], removed, available) by {
        hide HandleOk;
      }
      HandlesSurvive(handles[1..], removed, available, k);
      var rest := RecordsRemoved(handles[1..], k);
      if handles[0].count > k {
        assert ([Shrink(handles[0], k)] + rest)[1..] == rest;
      } else {
        assert [] + rest == rest && [] + Readers(rest) == Readers(rest);
      }
    }
  }

  datatype Operation =
    | AddRecord(record: Record)
    | GetRecords(handle: nat, size: nat)
    | DeleteRecords(handle: nat)

  function Apply(s: Store, op: Operation, capacity: nat): Store {
    match op
    case AddRecord(r) => if 2 + |r| <= capacity then Add(s, r, capacity) else s
    case GetRecords(handle, size) => if HandlesInRange(s) then Get(s, handle, size).store else s
    case DeleteRecords(handle) =>
      if HandlesInRange(s) && Delete(s, handle).Ok? then Delete(s, handle).value else s
  }

  function Run(s: Store, ops: seq<Operation>, capacity: nat): Store
    decreases |ops|
  {
    if ops == [] then s else Run(Apply(s, ops[0], capacity), ops[1..], capacity)
  }

  const EMPTY_STORE := Store([], [], HANDLE_MIN, 0, [])

  lemma {:induction false} RunOk(s: Store, ops: seq<Operation>, capacity: nat)
    requires StoreOk(s) && |Bytes(s.records)| <= capacity
    ensures StoreOk(Run(s, ops, capacity)) && |Bytes(Run(s, ops, capacity).records)| <= capacity
    decreases |ops|
  {
    if ops != [] {
      hide StoreOk, Apply, Bytes;
      ApplyOk(s, ops[0], capacity);
      RunOk(Apply(s, ops[0], capacity), ops[1..], capacity);
    }
  }

  lemma {:induction false} ApplyOk(s: Store, op: Operation, capacity: nat)
    requires StoreOk(s) && |Bytes(s.records)| <= capacity
    ensures StoreOk(Apply(s, op, capacity)) && |Bytes(Apply(s, op, capacity).records)| <= capacity
  {
    hide StoreOk, Bytes, FitCount, RecordsRemoved, HandlesInRange;
    StoreInRange(s);
    match op
    case AddRecord(r) =>
      if 2 + |r| <= capacity {
        AddOk(s, r, capacity);
        AddFits(s, r, capacity);
      }
    case GetRecords(handle, size) =>
      GetOk(s, handle, size);
      SuffixFits(s.records, FitCount(s.records, size));
    case DeleteRecords(handle) =>
      DeleteOk(s, handle);
      SuffixFits(s.records, |s.records|);
      var i := Find(s.handles, handle);
      if i < |s.handles| && HandlesInRange(s) {
        CountInRange(s, i);
        SuffixFits(s.records, s.handles[i].count);
      }
  }

  lemma CountInRange(s: Store, i: nat)
    requires HandlesInRange(s) && i < |s.handles|
    ensures s.handles[i].count <= |s.records|
  {
  }

  lemma {:induction false} SuffixFits(records: seq<Record>, k: nat)
    requires k <= |records|
    ensures |Bytes(records[k..])| <= |Bytes(records)|
  {
    hide Bytes;
    BytesConcat(records[..k], records[k..]);
    assert records == records[..k] + records[k..];
  }

  lemma {:induction false} AddFits(s: Store, r: Record, capacity: nat)
    requires 2 + |r| <= capacity
    ensures |Bytes(Add(s, r, capacity).records)| <= capacity
  {
    var k := Evictions(s.records, 2 + |r|, capacity);
    FewestEvicted(s.records, 2 + |r|, capacity, k);
    hide Evictions;
    assert Bytes([r]) == Encode(r) by { assert [r][1..] == []; assert Bytes([]) == []; }
    BytesConcat(s.records[k..], [r]);
  }

  /** After any operations, every live handle has returned the records of its range in order and
      at most once, and has skipped only records that are gone. */
  lemma {:induction false} HandlesReadInOrder(ops: seq<Operation>, capacity: nat, i: nat)
    requires i < |Run(EMPTY_STORE, ops, capacity).handles|
    ensures var s := Run(EMPTY_STORE, ops, capacity);
            HandleOk(s.handles[i], s.removed, |s.records|)
  {
    hide HandleOk, Run;
    assert Bytes([]) == [];
    RunOk(EMPTY_STORE, ops, capacity);
  }
}
