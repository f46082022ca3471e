/** The serialized form of a vector: a descriptor tree and byte buffers. */
module Wire {
  import opened Bytes

  /** The descriptor of a serialized vector: how many values it holds, the
      byte length of its buffers, and the descriptors of its sub-vectors in
      the order their buffers follow one another. */
  datatype SerializedField = SerializedField(valueCount: nat, bufferLength: nat, children: seq<SerializedField>)

  /** The buffer segments laid end to end, in order. */
  function Flatten(segments: seq<seq<byte>>): (r: seq<byte>)
    ensures segments == [] ==> r == []
    ensures segments != [] ==> |segments[0]| <= |r| && r[..|segments[0]|] == segments[0]
  {
    if segments == [] then [] else segments[0] + Flatten(segments[1..])
  }

  /** The length bytes of buffer starting at start. */
  function Slice(buffer: seq<byte>, start: nat, length: nat): (r: seq<byte>)
    requires start + length <= |buffer|
    ensures |r| == length
    ensures forall k :: 0 <= k < length ==> r[k] == buffer[start + k]
  {
    buffer[start..start + length]
  }

  /** Three segments laid end to end are recovered by slicing at their lengths. */
  lemma {:induction false} SliceOfFlatten(a: seq<byte>, b: seq<byte>, c: seq<byte>)
    ensures Flatten([a, b, c]) == a + b + c
    ensures Slice(Flatten([a, b, c]), 0, |a|) == a
    ensures Slice(Flatten([a, b, c]), |a|, |b|) == b
    ensures Slice(Flatten([a, b, c]), |a| + |b|, |c|) == c
  {
    assert [a, b, c][1..] == [b, c];
    assert [b, c][1..] == [c];
    assert [c][1..] == [];
    assert Flatten([c]) == c;
    assert Flatten([b, c]) == b + c;
    var w := a + b + c;
    assert Flatten([a, b, c]) == a + (b + c) == w;
    assert w[|a|..|a| + |b|] == b;
    assert w[|a| + |b|..|a| + |b| + |c|] == c;
  }
}
