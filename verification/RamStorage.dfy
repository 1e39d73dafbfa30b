/** The RAM record storage over the ring buffer, proved to be the record queue. */
module RamStorage {
  import opened Common
  import opened RecordQueue
  import RB = RingBuffer

  datatype Status = Success | InvalidParameters | NotEnoughSpace

  /** The length prefix read back. */
  function Length(prefix: seq<byte>): nat
    requires |prefix| >= 2
  {
    (prefix[1] as nat) * 256 + prefix[0]
  }

  /** Where the record at position `k` starts in the ring, and what stands there. */
  lemma {:induction false} RecordAt(records: seq<Record>, k: nat)
    requires k < |records|
    ensures var bytes, at := Bytes(records), |Bytes(records[..k])|;
            && at + 2 + |records[k]| <= |bytes|
            && Length(bytes[at..at + 2]) == |records[k]|
            && bytes[at..at + 2 + |records[k]|] == Encode(records[k])
            && |Bytes(records[..k + 1])| == at + 2 + |records[k]|
            && Bytes(records[..k + 1]) == Bytes(records[..k]) + Encode(records[k])
            && bytes[at..] == Bytes(records[k..])
  {
    BytesConcat(records[..k], records[k..]);
    assert records == records[..k] + records[k..];
    BytesOne(records[k]);
    BytesConcat(records[..k], [records[k]]);
    assert records[..k + 1] == records[..k] + [records[k]];
    assert records[k..] == [records[k]] + records[k + 1..];
    BytesConcat([records[k]], records[k + 1..]);
    hide Bytes;
    var at := |Bytes(records[..k])|;
    var tail := Bytes(records[k..]);
    assert Bytes(records)[at..] == tail;
    assert tail[..2 + |records[k]|] == Encode(records[k]);
    assert Bytes(records)[at..at + 2 + |records[k]|] == tail[..2 + |records[k]|];
    assert Bytes(records)[at..at + 2] == Encode(records[k])[..2];
  }

  lemma BytesOne(r: Record)
    ensures Bytes([r]) == Encode(r)
  {
    assert [r][1..] == [];
    assert Bytes([]) == [];
    assert Encode(r) + [] == Encode(r);
  }

  /** The size of a record in the ring, in 16 bits. */
  function StoredSize(payload: seq<byte>): nat {
    (2 + |payload|) % 0x1_0000
  }

  /** A byte string that starts with the encodings of some records and is one of as many and one
      more is that of these records and one more. */
  lemma {:induction false} SameRecords(records: seq<Record>, x: seq<byte>, rs: seq<Record>)
    requires |rs| == |records| + 1 && Bytes(records) + x == Bytes(rs)
    ensures x == Encode(rs[|records|])
  {
    if records == [] {
      assert rs == [rs[0]];
      BytesOne(rs[0]);
      assert Bytes(records) + x == x;
    } else {
      var rest, rest' := Bytes(records[1..]), Bytes(rs[1..]);
      Regroup(Encode(records[0]), rest, x);
      SameHead(records[0], rest + x, rs[0], rest');
      SameRecords(records[1..], x, rs[1..]);
    }
  }

  /** An encoding shows where it ends. */
  lemma SameHead(r: Record, x: seq<byte>, r': Record, x': seq<byte>)
    requires Encode(r) + x == Encode(r') + x'
    ensures x == x'
  {
    var a, b := Encode(r) + x, Encode(r') + x';
    assert a[0] == |r| % 256 && a[1] == |r| / 256 && b[0] == |r'| % 256 && b[1] == |r'| / 256;
    assert |r| == |r'|;
    assert a[|Encode(r)|..] == x && b[|Encode(r')|..] == x';
  }

  /** What is written for a payload that is too long is no record: its prefix announces more bytes
      than any ring has. */
  lemma NoRecord(payload: seq<byte>, n: nat, m: nat, r: Record)
    requires MAX_RECORD < |payload| <= 0xFFFF && n <= 2 && m <= |payload| && (n < 2 ==> m == 0) && n + m < 0xFFFF
    ensures var prefix: seq<byte> := [|payload| % 256, |payload| / 256];
            prefix[..n] + payload[..m] != Encode(r)
  {
    var prefix: seq<byte> := [|payload| % 256, |payload| / 256];
    var x := prefix[..n] + payload[..m];
    if n == 2 {
      assert x[0] == |payload| % 256 && x[1] == |payload| / 256 && |x| == 2 + m;
      assert Encode(r)[0] == |r| % 256 && Encode(r)[1] == |r| / 256;
    }
  }

  lemma {:induction false} NotRecords(records: seq<Record>, payload: seq<byte>, n: nat, m: nat)
    requires MAX_RECORD < |payload| <= 0xFFFF && n <= 2 && m <= |payload| && (n < 2 ==> m == 0) && n + m < 0xFFFF
    ensures var prefix: seq<byte> := [|payload| % 256, |payload| / 256];
            forall rs: seq<Record> :: |rs| == |records| + 1
                ==> Bytes(records) + (prefix[..n] + payload[..m]) != Bytes(rs)
  {
    hide Bytes, Encode;
    var prefix: seq<byte> := [|payload| % 256, |payload| / 256];
    var x := prefix[..n] + payload[..m];
    forall rs: seq<Record> | |rs| == |records| + 1 ensures Bytes(records) + x != Bytes(rs) {
      NoRecord(payload, n, m, rs[|records|]);
      if Bytes(records) + x == Bytes(rs) {
        SameRecords(records, x, rs);
        assert false;
      }
    }
  }

  class Storage {
    const ring: RB.RingBuffer
    const byteSize: nat
    var recordCount: nat
    var handles: seq<Handle>
    var nextHandle: nat
    ghost var records: seq<Record>
    var removed: nat             // auxiliary, like the tracks of the handles: never read for a decision
    ghost var history: seq<Record>

    ghost predicate Valid()
      reads this, ring, ring.data
    {
      && ring.Valid()
      && ring.data.Length == byteSize <= 0xFFFF
      && ring.Contents() == Bytes(records)
      && recordCount == |records|
      && HandlesInRange(View())
    }

    ghost function View(): Store
      reads this
    {
      Store(records, handles, nextHandle, removed, history)
    }

    constructor (size: nat)
      requires 0 < size <= 0xFFFF
      ensures Valid() && View() == EMPTY_STORE && fresh(ring) && fresh(ring.data) && byteSize == size
    {
      ring := new RB.RingBuffer(size);
      byteSize := size;
      recordCount, handles, nextHandle := 0, [], HANDLE_MIN;
      records, removed, history := [], 0, [];
    }

    /** Tells the handles that the `k` oldest records are gone. */
    method HandlesRecordsRemoved(k: nat)
      modifies `handles
      ensures handles == RecordsRemoved(old(handles), k)
    {
      if k == 0 {
        return;
      }
      var kept: seq<Handle>, i := [], 0;
      assert handles[0..] == handles;
      while i < |handles|
        invariant 0 <= i <= |handles| && handles == old(handles)
        invariant kept + RecordsRemoved(handles[i..], k) == RecordsRemoved(handles, k)
      {
        var h := handles[i];
        assert handles[i..][0] == h && handles[i..][1..] == handles[i + 1..];
        if h.count > k {
          kept := kept + [Shrink(h, k)];
        }
        i := i + 1;
      }
      assert handles[i..] == [];
      handles := kept;
    }

    /** The length of the record that starts at `offset`. */
    method PeekLength(offset: nat, ghost k: nat) returns (length: nat)
      requires Valid() && k < |records| && offset == |Bytes(records[..k])|
      ensures length == |records[k]|
    {
      RecordAt(records, k);
      hide Bytes, Encode;
      var prefix := ring.Peek(offset, 2);
      length := Length(prefix);
    }

    /** Removes the oldest records from the ring, as many as needed to have `need` bytes free. */
    method Evict(need: nat) returns (k: nat)
      requires Valid() && need < byteSize
      modifies ring`output
      ensures k == Evictions(records, need, byteSize - 1)
      ensures ring.Valid() && ring.Contents() == Bytes(records[k..])
    {
      hide Encode;
      k := 0;
      assert records[0..] == records;
      var free := ring.GetSpace();
      while free < need
        invariant 0 <= k <= |records|
        invariant ring.Valid() && ring.Contents() == Bytes(records[k..])
        invariant free == byteSize - 1 - |Bytes(records[k..])|
        invariant k + Evictions(records[k..], need, byteSize - 1) == Evictions(records, need, byteSize - 1)
        decreases |records| - k
      {
        NonEmpty(records[k..]);
        FrontRecord(records, k);
        var prefix := ring.Read(2);
        ring.MoveOut(Length(prefix));
        k := k + 1;
        free := ring.GetSpace();
      }
    }

    /** Adds a record, evicting old ones. The size is computed in 16 bits: for the two longest payloads
        the sum wraps, and what is then in the ring are no records any more. */
    method AddRecord(payload: seq<byte>) returns (status: Status)
      requires Valid() && |payload| <= 0xFFFF
      requires StoredSize(payload) != byteSize
      modifies this, ring, ring.data
      ensures status == if |payload| == 0 then InvalidParameters
                        else if StoredSize(payload) > byteSize then NotEnoughSpace else Success
      ensures status != Success ==> Valid() && View() == old(View())
      ensures status == Success && |payload| <= MAX_RECORD ==>
                Valid() && View() == Add(old(View()), payload, byteSize - 1)
      ensures status == Success && |payload| > MAX_RECORD ==>
                ring.Valid() && forall rs: seq<Record> :: |rs| == recordCount ==> ring.Contents() != Bytes(rs)
    {
      if |payload| == 0 {
        return InvalidParameters;
      }
      var size := (2 + |payload|) % 0x1_0000;
      if size > byteSize {
        return NotEnoughSpace;
      }
      hide Bytes, Encode, RecordsRemoved, Evictions, HandlesInRange;
      MakeRoom(size);
      Append(payload);
      status := Success;
    }

    /** Evicts what has to go, counts it off and tells the handles. */
    method MakeRoom(need: nat)
      requires Valid() && need < byteSize
      modifies this, ring`output
      ensures Valid() && View() == DropFront(old(View()), Evictions(old(records), need, byteSize - 1))
      ensures |Bytes(records)| + need < byteSize
    {
      hide Bytes, Encode, RecordsRemoved, Evictions;
      ghost var before := View();
      var k := Evict(need);
      recordCount := recordCount - k;
      HandlesRecordsRemoved(k);
      DroppedInRange(before, k);
      FewestEvicted(records, need, byteSize - 1, k);
      records := records[k..];
      removed := removed + k;
    }

    /** Writes a record behind the others. */
    method Append(payload: seq<byte>)
      requires Valid() && 1 <= |payload| <= 0xFFFF
      requires |payload| <= MAX_RECORD ==> |Bytes(records)| + 2 + |payload| < byteSize
      modifies ring, ring.data, `recordCount, `records, `history
      ensures |payload| <= MAX_RECORD ==>
                Valid() && View() == old(View()).(records := old(records) + [payload],
                                                  history := old(history) + [payload])
      ensures |payload| > MAX_RECORD ==>
                ring.Valid() && forall rs: seq<Record> :: |rs| == recordCount ==> ring.Contents() != Bytes(rs)
    {
      hide Bytes, HandlesInRange;
      ghost var stored := ring.Contents();
      var prefix: seq<byte> := [|payload| % 256, |payload| / 256];
      var n := ring.Write(prefix);
      var m := ring.Write(payload);
      recordCount := recordCount + 1;
      if |payload| <= MAX_RECORD {
        BytesOne(payload);
        BytesConcat(records, [payload]);
        MoreInRange(View(), payload);
        assert payload[..m] == payload && prefix[..n] == prefix;
        Regroup(stored, prefix, payload);
        records, history := records + [payload], history + [payload];
      } else {
        Regroup(stored, prefix[..n], payload[..m]);
        NotRecords(records, payload, n, m);
      }
    }

    /** Takes the `k` oldest records out of the ring. */
    method RemoveFront(k: nat)
      requires Valid() && k <= |records|
      modifies this, ring`output
      ensures Valid() && View() == DropFront(old(View()), k)
    {
      hide Encode, Bytes, RecordsRemoved;
      ghost var before := View();
      var i := 0;
      assert records[0..] == records;
      while i < k
        invariant 0 <= i <= k && View() == before && recordCount == |records|
        invariant ring.Valid() && ring.Contents() == Bytes(records[i..])
      {
        FrontRecord(records, i);
        var prefix := ring.Peek(0, 2);
        ring.MoveOut(2 + Length(prefix));
        i := i + 1;
      }
      recordCount := recordCount - k;
      HandlesRecordsRemoved(k);
      DroppedInRange(before, k);
      records, removed := records[k..], removed + k;
    }

    /** Where the record at position `skip` starts, found by walking over those before it. */
    method OffsetOf(skip: nat) returns (offset: nat)
      requires Valid() && skip <= |records|
      ensures offset == |Bytes(records[..skip])|
    {
      hide Bytes, Encode, HandlesInRange;
      NoBytes();
      offset := 0;
      var i := 0;
      assert records[..0] == [];
      while i < skip
        invariant 0 <= i <= skip && offset == |Bytes(records[..i])|
      {
        var length := PeekLength(offset, i);
        RecordAt(records, i);
        offset := offset + 2 + length;
        i := i + 1;
      }
    }

    /** Finds where to start and copies out the records that fit, oldest first. */
    method Retrieve(skip: nat, max: nat, size: nat) returns (bytes: seq<byte>, count: nat)
      requires Valid() && skip + max <= |records|
      ensures count == FitCount(records[skip..skip + max], size)
      ensures bytes == Bytes(records[skip..skip + count])
    {
      hide Bytes, Encode, FitCount, HandlesInRange;
      NoBytes();
      var offset := OffsetOf(skip);
      assert records[skip..skip] == [];
      bytes, count := [], 0;
      while count < max
        invariant 0 <= count <= max && offset == |Bytes(records[..skip + count])|
        invariant bytes == Bytes(records[skip..skip + count]) && |bytes| <= size
        invariant count + FitCount(records[skip + count..skip + max], size - |bytes|)
                 == FitCount(records[skip..skip + max], size)
      {
        ghost var k := skip + count;
        var length := PeekLength(offset, k);
        FitStep(records[k..skip + max], size - |bytes|);
        RecordAt(records, k);
        assert records[k..skip + max][0] == records[k] && records[k..skip + max][1..] == records[k + 1..skip + max];
        if |bytes| + 2 + length > size {
          break;
        }
        var record := ring.Peek(offset, 2 + length);
        AppendRecord(records, skip, k);
        bytes := bytes + record;
        offset := offset + 2 + length;
        count := count + 1;
      }
      if count == max {
        assert records[skip + count..skip + max] == [];
        FitStep([], size - |bytes|);
      }
    }

    method GetRecords(handle: nat, size: nat) returns (result: nat, bytes: seq<byte>)
      requires Valid()
      modifies this, ring`output
      ensures Valid()
      ensures Retrieved(View(), result, bytes) == Get(old(View()), handle, size)
    {
      hide Bytes, Encode, FitCount, RecordsRemoved;
      result := handle;
      if handle == HANDLE_REMOVE {
        var k;
        bytes, k := Retrieve(0, recordCount, size);
        assert records[0..0 + recordCount] == records && records[0..0 + k] == records[..k];
        RemoveFront(k);
        return;
      }
      var i := 0;
      if handle == HANDLE_GENERATE {
        ghost var grown := AddHandle(View());
        handles := [Handle(nextHandle, recordCount, 0, Track(removed, removed + recordCount, []))] + handles;
        nextHandle := if nextHandle == HANDLE_MAX then HANDLE_MIN else nextHandle + 1;
        result := handles[0].number;
        assert View() == grown;
      } else {
        i := FindHandle(handle);
        if i == |handles| {
          return handle, [];
        }
      }
      bytes := AdvanceHandle(i, size);
    }

    /** Retrieves through the handle at index `i` and moves it on. */
    method AdvanceHandle(i: nat, size: nat) returns (bytes: seq<byte>)
      requires Valid() && i < |handles|
      modifies `handles
      ensures Valid()
      ensures Retrieved(View(), old(handles)[i].number, bytes) == Advance(old(View()), i, size)
    {
      hide Bytes, FitCount, Range;
      var h := handles[i];
      var k;
      bytes, k := Retrieve(h.offset, h.count - h.offset, size);
      assert records[h.offset..h.offset + (h.count - h.offset)] == records[h.offset..h.count];
      assert records[h.offset..h.count][..k] == records[h.offset..h.offset + k];
      var track := h.track.(returned := h.track.returned + Range(removed + h.offset, removed + h.offset + k));
      handles := handles[i := h.(offset := h.offset + k, track := track)];
    }

    method FindHandle(number: nat) returns (i: nat)
      ensures i == Find(handles, number)
    {
      i := 0;
      assert handles[0..] == handles;
      while i < |handles| && handles[i].number != number
        invariant 0 <= i <= |handles| && i + Find(handles[i..], number) == Find(handles, number)
      {
        assert handles[i..][1..] == handles[i + 1..];
        i := i + 1;
      }
    }

    method DeleteRecords(handle: nat) returns (status: Status)
      requires Valid()
      modifies this, ring
      ensures Valid()
      ensures status == if Delete(old(View()), handle).Ok? then Success else InvalidParameters
      ensures View() == if status == Success then Delete(old(View()), handle).value else old(View())
    {
      hide Bytes, RecordsRemoved;
      if handle == HANDLE_GENERATE {
        return InvalidParameters;
      }
      status := Success;
      if handle == HANDLE_REMOVE {
        NoBytes();
        ghost var before := View();
        DroppedInRange(before, |records|);
        ring.Clear();
        HandlesRecordsRemoved(recordCount);
        assert records[|records|..] == [];
        removed := removed + recordCount;
        recordCount, records := 0, [];
        return;
      }
      var i := FindHandle(handle);
      if i < |handles| {
        RemoveFront(handles[i].count);
      }
    }
  }

  lemma NoBytes()
    ensures Bytes([]) == []
  {
  }

  lemma FitStep(records: seq<Record>, room: nat)
    ensures FitCount(records, room) ==
            if records == [] || 2 + |records[0]| > room then 0
            else 1 + FitCount(records[1..], room - (2 + |records[0]|))
  {
  }

  lemma {:induction false} AppendRecord(records: seq<Record>, from: nat, k: nat)
    requires from <= k < |records|
    ensures Bytes(records[from..k + 1]) == Bytes(records[from..k]) + Encode(records[k])
  {
    hide Bytes, Encode;
    BytesOne(records[k]);
    BytesConcat(records[from..k], [records[k]]);
    assert records[from..k + 1] == records[from..k] + [records[k]];
  }

  lemma {:induction false} NonEmpty(records: seq<Record>)
    ensures |Bytes(records)| > 0 ==> records != []
  {
  }

  /** The oldest record left after `k` were taken out. */
  lemma FrontRecord(records: seq<Record>, k: nat)
    requires k < |records|
    ensures var bytes := Bytes(records[k..]);
            && |bytes| >= 2 + |records[k]|
            && Length(bytes[..2]) == |records[k]|
            && bytes[2 + |records[k]|..] == Bytes(records[k + 1..])
            && bytes[2..][|records[k]|..] == Bytes(records[k + 1..])
            && records[k..][1..] == records[k + 1..]
  {
    var rest := records[k..];
    assert rest[1..] == records[k + 1..];
    assert Bytes(rest) == Encode(records[k]) + Bytes(rest[1..]);
    assert Bytes(rest)[..2] == Encode(records[k])[..2];
  }

  lemma MoreInRange(s: Store, r: Record)
    requires HandlesInRange(s)
    ensures HandlesInRange(s.(records := s.records + [r], history := s.history + [r]))
  {
  }

  lemma {:induction false} RemovedInRange(handles: seq<Handle>, k: nat, available: nat)
    requires k <= available
    requires forall i :: 0 <= i < |handles| ==> handles[i].offset <= handles[i].count <= available
    ensures forall i :: 0 <= i < |RecordsRemoved(handles, k)| ==>
              RecordsRemoved(handles, k)[i].offset <= RecordsRemoved(handles, k)[i].count <= available - k
              || k == 0
  {
    if handles != [] && k > 0 {
      RemovedInRange(handles[1..], k, available);
    }
  }

  lemma DroppedInRange(s: Store, k: nat)
    requires HandlesInRange(s) && k <= |s.records|
    ensures HandlesInRange(DropFront(s, k))
  {
    RemovedInRange(s.handles, k, |s.records|);
  }
}
