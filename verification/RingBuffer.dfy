/** The ring buffer: a fixed array, a read position and a write position. One byte of the array
    always stays unused, so that an empty buffer and a full one differ. */
module RingBuffer {
  import opened Common

  /** The bytes of a ring from `from` up to `to`, wrapping at the end of the array. */
  function Ring(data: seq<byte>, from: nat, to: nat): seq<byte>
    requires from < |data| && to < |data|
  {
    if from <= to then data[from..to] else data[from..] + data[..to]
  }

  function Wrap(position: nat, size: nat): nat {
    if position >= size then position - size else position
  }

  /** Moving the read position drops bytes from the front. */
  lemma RingDrop(data: seq<byte>, from: nat, to: nat, count: nat)
    requires from < |data| && to < |data| && count <= |Ring(data, from, to)|
    ensures Wrap(from + count, |data|) < |data|
    ensures Ring(data, Wrap(from + count, |data|), to) == Ring(data, from, to)[count..]
  {
  }

  /** `count` bytes of the ring from `at` on. */
  function Run(data: seq<byte>, at: nat, count: nat): seq<byte>
    requires at < |data| && count <= |data|
  {
    if at + count <= |data| then data[at..at + count] else data[at..] + data[..at + count - |data|]
  }

  /** Where a position is after `count` more bytes, when that is at most the end of the array. */
  function Advance(position: nat, count: nat, size: nat): nat {
    if position + count == size then 0 else position + count
  }

  /** The front of the ring, as one run. */
  lemma RunIsFront(data: seq<byte>, from: nat, to: nat, count: nat)
    requires from < |data| && to < |data| && count <= |Ring(data, from, to)|
    ensures Run(data, from, count) == Ring(data, from, to)[..count]
  {
  }

  /** Writing behind the write position appends, as long as the bytes in use are left alone. */
  lemma RingAppend(data: seq<byte>, data': seq<byte>, from: nat, to: nat, bytes: seq<byte>)
    requires from < |data| == |data'| && to < |data|
    requires |Ring(data, from, to)| + |bytes| < |data|
    requires Run(data', to, |bytes|) == bytes
    requires Run(data', from, |Ring(data, from, to)|) == Ring(data, from, to)
    ensures Wrap(to + |bytes|, |data|) < |data|
    ensures Ring(data', from, Wrap(to + |bytes|, |data|)) == Ring(data, from, to) + bytes
  {
  }

  lemma RunAt(data: seq<byte>, at: nat, count: nat)
    requires at < |data| && count <= |data|
    ensures |Run(data, at, count)| == count
    ensures forall k :: 0 <= k < count ==>
              Run(data, at, count)[k] == if at + k < |data| then data[at + k] else data[at + k - |data|]
  {
  }

  lemma RingIsRun(data: seq<byte>, from: nat, to: nat)
    requires from < |data| && to < |data|
    ensures |Ring(data, from, to)| == if from <= to then to - from else |data| - from + to
    ensures Ring(data, from, to) == Run(data, from, |Ring(data, from, to)|)
  {
  }

  lemma OverwriteAt(data: seq<byte>, at: nat, bytes: seq<byte>)
    requires at + |bytes| <= |data|
    ensures forall k :: 0 <= k < |data| ==>
              Overwrite(data, at, bytes)[k] == if at <= k < at + |bytes| then bytes[k - at] else data[k]
  {
  }

  /** What one or two chunk copies leave in the array: `bytes` from `to` on, the rest as before. */
  lemma Copied(before: seq<byte>, after: seq<byte>, to: nat, bytes: seq<byte>, chunk: nat)
    requires to < |before| && chunk <= |bytes| < |before|
    requires if chunk == |bytes| then to + chunk <= |before| else to + chunk == |before|
    requires after == if chunk == |bytes| then Overwrite(before, to, bytes)
                      else Overwrite(Overwrite(before, to, bytes[..chunk]), 0, bytes[chunk..])
    ensures |after| == |before|
    ensures forall k :: 0 <= k < |after| ==>
              after[k] == if to <= k < to + |bytes| then bytes[k - to]
                          else if k + |before| < to + |bytes| then bytes[k + |before| - to]
                          else before[k]
  {
    hide Overwrite;
    if chunk == |bytes| {
      OverwriteAt(before, to, bytes);
    } else {
      OverwriteAt(before, to, bytes[..chunk]);
      OverwriteAt(Overwrite(before, to, bytes[..chunk]), 0, bytes[chunk..]);
    }
  }

  /** The new bytes follow on the old ones, which are still there. */
  lemma WrittenInPlace(before: seq<byte>, after: seq<byte>, from: nat, to: nat, bytes: seq<byte>, chunk: nat)
    requires from < |before| && to < |before| && chunk <= |bytes|
    requires |Ring(before, from, to)| + |bytes| < |before|
    requires chunk == if to < from then |bytes| else Min(|bytes|, |before| - to)
    requires after == if chunk == |bytes| then Overwrite(before, to, bytes)
                      else Overwrite(Overwrite(before, to, bytes[..chunk]), 0, bytes[chunk..])
    ensures Run(after, to, |bytes|) == bytes
    ensures Run(after, from, |Ring(before, from, to)|) == Ring(before, from, to)
  {
    RingIsRun(before, from, to);
    hide Ring, Run, Overwrite;
    Copied(before, after, to, bytes, chunk);
    var used := |Ring(before, from, to)|;
    RunAt(after, to, |bytes|);
    RunAt(after, from, used);
    RunAt(before, from, used);
  }

  class RingBuffer {
    const data: array<byte>
    var input: nat
    var output: nat

    ghost predicate Valid()
      reads this
    {
      input < data.Length && output < data.Length
    }

    ghost function Contents(): seq<byte>
      requires Valid()
      reads this, data
    {
      Ring(data[..], output, input)
    }

    constructor (size: nat)
      requires size > 0
      ensures Valid() && fresh(data) && data.Length == size && Contents() == []
    {
      data := new byte[size](_ => 0);
      input, output := 0, 0;
    }

    method GetSpace() returns (space: nat)
      requires Valid()
      ensures space == data.Length - 1 - |Contents()|
    {
      space := if input < output then output - input - 1 else data.Length - input + output - 1;
    }

    method GetAvailable() returns (available: nat)
      requires Valid()
      ensures available == |Contents()|
    {
      available := if output <= input then input - output else data.Length - output + input;
    }

    /** Appends as much of `bytes` as fits, in one or two chunks. */
    method Write(bytes: seq<byte>) returns (written: nat)
      requires Valid()
      modifies this, data
      ensures Valid() && output == old(output)
      ensures written == Min(|bytes|, data.Length - 1 - |old(Contents())|)
      ensures Contents() == old(Contents()) + bytes[..written]
    {
      hide Ring, Run, Overwrite;
      RingIsRun(data[..], output, input);
      ghost var before := data[..];
      assert bytes[..0] == [];
      written := GetSpace();
      written := if |bytes| > written then written else |bytes|;
      if written == 0 {
        return;
      }
      ghost var start := input;
      var chunk := if input < output then written else Min(written, data.Length - input);
      CopyIn(bytes[..chunk], input);
      input := Advance(input, chunk, data.Length);
      assert bytes[..written][..chunk] == bytes[..chunk];
      if chunk != written {
        assert bytes[..written][chunk..] == bytes[chunk..written];
        CopyIn(bytes[chunk..written], input);
        input := Advance(input, written - chunk, data.Length);
      }
      WrittenInPlace(before, data[..], output, start, bytes[..written], chunk);
      RingAppend(before, data[..], output, start, bytes[..written]);
    }

    /** memcpy into the array. */
    method CopyIn(bytes: seq<byte>, to: nat)
      requires to + |bytes| <= data.Length
      modifies data
      ensures data[..] == Overwrite(old(data[..]), to, bytes)
    {
      forall i | 0 <= i < |bytes| {
        data[to + i] := bytes[i];
      }
    }

    /** Copies out, without consuming, up to `size` bytes from `offset` on. */
    method Peek(offset: nat, size: nat) returns (bytes: seq<byte>)
      requires Valid()
      ensures var n := |Contents()|;
              bytes == if offset >= n then [] else Contents()[offset..offset + Min(size, n - offset)]
    {
      hide Ring, Run;
      RingIsRun(data[..], output, input);
      var available := GetAvailable();
      if offset >= available {
        return [];
      }
      var count := Min(size, available - offset);
      if count == 0 {
        return [];
      }
      RingDrop(data[..], output, input, offset);
      var at := output + offset;
      if at >= data.Length {
        at := at - data.Length;
      }
      RunIsFront(data[..], at, input, count);
      bytes := CopyOut(at, count);
    }

    /** memcpy out of the array, in one or two chunks. */
    method CopyOut(at: nat, count: nat) returns (bytes: seq<byte>)
      requires at < data.Length && count <= data.Length
      ensures bytes == Run(data[..], at, count)
    {
      var chunk := Min(data.Length - at, count);
      bytes := data[at..at + chunk];
      if chunk != count {
        bytes := bytes + data[..count - chunk];
      }
    }

    /** Consumes up to `size` bytes. */
    method Read(size: nat) returns (bytes: seq<byte>)
      requires Valid()
      modifies `output
      ensures Valid()
      ensures var n := Min(size, |old(Contents())|);
              bytes == old(Contents())[..n] && Contents() == old(Contents())[n..]
    {
      hide Ring, Run;
      RingIsRun(data[..], output, input);
      var count := GetAvailable();
      count := if size > count then count else size;
      if count == 0 {
        return [];
      }
      RingDrop(data[..], output, input, count);
      RunIsFront(data[..], output, input, count);
      ghost var start := output;
      bytes := CopyOut(output, count);
      if input > output {
        output := Advance(output, count, data.Length);
      } else {
        var chunk := Min(data.Length - output, count);
        output := Advance(output, chunk, data.Length);
        if chunk != count {
          output := Advance(output, count - chunk, data.Length);
        }
      }
      assert output == Wrap(start + count, data.Length);
    }

    /** Consumes exactly `count` bytes. */
    method MoveOut(count: nat)
      requires Valid() && count <= |Contents()|
      modifies `output
      ensures Valid() && Contents() == old(Contents())[count..]
    {
      RingDrop(data[..], output, input, count);
      output := output + count;
      if output >= data.Length {
        output := output - data.Length;
      }
    }

    method Clear()
      requires Valid()
      modifies `input, `output
      ensures Valid() && Contents() == []
    {
      input, output := 0, 0;
    }
  }
}
