/** Shared value types: bytes, optional results and flattened sequences. */
module Common {

  type byte = b: int | 0 <= b < 0x100
  type uint16 = n: int | 0 <= n < 0x1_0000
  type uint32 = n: int | 0 <= n < 0x1_0000_0000

  datatype Option<+T> = None | Some(value: T)

  /** The concatenation, in order, of a list of sequences. */
  function Flatten<T>(parts: seq<seq<T>>): seq<T> {
    if parts == [] then [] else parts[0] + Flatten(parts[1..])
  }

  lemma {:induction false} FlattenAppend<T>(a: seq<seq<T>>, b: seq<seq<T>>)
    ensures Flatten(a + b) == Flatten(a) + Flatten(b)
  {
    if a == [] {
      assert a + b == b;
    } else {
      FlattenAppend(a[1..], b);
      assert (a + b)[0] == a[0] && (a + b)[1..] == a[1..] + b;
      ConcatAssoc(a[0], Flatten(a[1..]), Flatten(b));
    }
  }

  lemma {:induction false} FlattenSingle<T>(part: seq<T>)
    ensures Flatten([part]) == part
  {
    assert Flatten([part][1..]) == [];
  }

  lemma {:induction false} FlattenSnoc<T>(parts: seq<seq<T>>, last: seq<T>)
    ensures Flatten(parts + [last]) == Flatten(parts) + last
  {
    FlattenAppend(parts, [last]);
    FlattenSingle(last);
  }

  lemma {:induction false} ConcatAssoc<T>(a: seq<T>, b: seq<T>, c: seq<T>)
    ensures (a + b) + c == a + (b + c)
  {
  }

  lemma {:induction false} JoinSlices<T>(s: seq<T>, a: nat, b: nat, c: nat)
    requires a <= b <= c <= |s|
    ensures s[a..b] + s[b..c] == s[a..c]
  {
  }

  /** before in front of an optional rest: the state of a loop that may still fail. */
  function Prepend<T>(before: seq<T>, rest: Option<seq<T>>): Option<seq<T>> {
    if rest.Some? then Some(before + rest.value) else None
  }

  lemma {:induction false} PrependNothing<T>(rest: Option<seq<T>>)
    ensures Prepend([], rest) == rest
  {
    if rest.Some? {
      assert [] + rest.value == rest.value;
    }
  }

  lemma {:induction false} PrependStep<T>(before: seq<T>, x: T, rest: Option<seq<T>>)
    ensures Prepend(before + [x], rest) == Prepend(before, Prepend([x], rest))
  {
    if rest.Some? {
      ConcatAssoc(before, [x], rest.value);
    }
  }

  /** Big-endian reads, as both packet parsers do them. */
  function ReadUint16(bytes: seq<byte>, offset: nat): uint16
    requires offset + 2 <= |bytes|
  {
    bytes[offset] as int * 0x100 + bytes[offset + 1]
  }

  function ReadUint32(bytes: seq<byte>, offset: nat): uint32
    requires offset + 4 <= |bytes|
  {
    bytes[offset] as int * 0x100_0000 + bytes[offset + 1] as int * 0x1_0000 +
    bytes[offset + 2] as int * 0x100 + bytes[offset + 3]
  }

  /** Big-endian writes. */
  function Uint16Bytes(value: uint16): (bytes: seq<byte>)
    ensures |bytes| == 2 && ReadUint16(bytes, 0) == value
  {
    [value / 0x100, value % 0x100]
  }

  function Uint32Bytes(value: uint32): (bytes: seq<byte>)
    ensures |bytes| == 4 && ReadUint32(bytes, 0) == value
  {
    var high, low := value / 0x1_0000, value % 0x1_0000;
    [high / 0x100, high % 0x100, low / 0x100, low % 0x100]
  }

  lemma {:induction false} ReadWritten16(before: seq<byte>, value: uint16, after: seq<byte>)
    ensures ReadUint16(before + Uint16Bytes(value) + after, |before|) == value
  {
    var bytes := before + Uint16Bytes(value) + after;
    assert bytes[|before|] == Uint16Bytes(value)[0] && bytes[|before| + 1] == Uint16Bytes(value)[1];
  }

  /** A big-endian value is determined by its bytes: writing what was read gives the bytes back. */
  lemma {:induction false} Uint16Canonical(bytes: seq<byte>, offset: nat)
    requires offset + 2 <= |bytes|
    ensures Uint16Bytes(ReadUint16(bytes, offset)) == bytes[offset..offset + 2]
  {
  }

  lemma {:induction false} Uint32Canonical(bytes: seq<byte>, offset: nat)
    requires offset + 4 <= |bytes|
    ensures Uint32Bytes(ReadUint32(bytes, offset)) == bytes[offset..offset + 4]
  {
    var high, low := ReadUint16(bytes, offset), ReadUint16(bytes, offset + 2);
    assert ReadUint32(bytes, offset) == high as int * 0x1_0000 + low;
    Uint16Canonical(bytes, offset);
    Uint16Canonical(bytes, offset + 2);
    assert Uint32Bytes(ReadUint32(bytes, offset)) == Uint16Bytes(high) + Uint16Bytes(low);
  }
}
