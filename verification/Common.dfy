/** Types shared by the models of the protocol stack. */
module Common {

  type byte = b: int | 0 <= b < 256

  const U32 := 0x1_0000_0000
  type u32 = n: nat | n < U32

  datatype Option<+T> = None | Some(value: T)

  datatype Result<+T, +E> = Ok(value: T) | Err(error: E)

  function Min(a: int, b: int): int {
    if a < b then a else b
  }

  /** Consecutive numbers. */
  function Range(from: nat, end: nat): seq<nat>
    requires from <= end
  {
    seq(end - from, i requires 0 <= i < end - from => from + i)
  }

  /** A buffer with some of its bytes replaced. */
  function Overwrite(buffer: seq<byte>, at: nat, bytes: seq<byte>): (r: seq<byte>)
    requires at + |bytes| <= |buffer|
    ensures |r| == |buffer|
  {
    buffer[..at] + bytes + buffer[at + |bytes|..]
  }

  /** Concatenation of a sequence of byte strings. */
  function Flat(parts: seq<seq<byte>>): seq<byte> {
    if parts == [] then [] else parts[0] + Flat(parts[1..])
  }

  lemma {:induction false} FlatConcat(a: seq<seq<byte>>, b: seq<seq<byte>>)
    ensures Flat(a + b) == Flat(a) + Flat(b)
  {
    if a == [] {
      assert a + b == b;
    } else {
      FlatConcat(a[1..], b);
      assert (a + b)[1..] == a[1..] + b;
      Regroup(a[0], Flat(a[1..]), Flat(b));
    }
  }

  lemma Regroup<T>(a: seq<T>, b: seq<T>, c: seq<T>)
    ensures a + b + c == a + (b + c)
  {
  }

  lemma FlatOne(part: seq<byte>)
    ensures Flat([part]) == part
  {
    assert [part][1..] == [];
  }

  /** Splitting a list of byte strings splits its concatenation. */
  lemma {:induction false} FlatSplit(parts: seq<seq<byte>>, i: nat)
    requires i <= |parts|
    ensures Flat(parts) == Flat(parts[..i]) + Flat(parts[i..])
  {
    FlatConcat(parts[..i], parts[i..]);
    assert parts == parts[..i] + parts[i..];
  }

  lemma {:induction false} FlatSnoc(parts: seq<seq<byte>>, part: seq<byte>)
    ensures Flat(parts + [part]) == Flat(parts) + part
  {
    FlatConcat(parts, [part]);
    FlatOne(part);
  }
}
