/** The contract this model assumes of the fixed-width vectors a list vector
    is built from: the offset vector (4-byte values), the validity vector
    (1-byte values) and the child vector (modelled as 4-byte values). A
    fixed-width vector is its buffer contents together with its logical value
    count. */
module FixedWidth {
  import opened Bytes
  import opened Wire

  datatype FixedVector = FixedVector(width: nat, data: seq<nat>, count: nat)

  /** The logical values lie inside the buffer and every stored value fits the width. */
  predicate WellFormed(f: FixedVector)
  {
    f.count <= |f.data| && AllFit(f.data, f.width)
  }

  function Zeros(n: nat): (r: seq<nat>)
    ensures |r| == n && forall k :: 0 <= k < n ==> r[k] == 0
  {
    seq(n, _ => 0)
  }

  /** setSafe: writes x at index, first growing the buffer (zero-filled) when
      index lies beyond it. The value count is not touched. */
  function SetSafe(f: FixedVector, index: nat, x: nat): (r: FixedVector)
    ensures r.width == f.width && r.count == f.count
    ensures |r.data| == if index < |f.data| then |f.data| else index + 1
    ensures r.data[index] == x
    ensures forall k :: 0 <= k < |r.data| && k != index ==> r.data[k] == if k < |f.data| then f.data[k] else 0
    ensures WellFormed(f) && x < Pow256(f.width) ==> WellFormed(r)
  {
    if index < |f.data| then f.(data := f.data[index := x])
    else f.(data := f.data + Zeros(index - |f.data|) + [x])
  }

  /** setValueCount: the logical value count becomes n, the buffer growing
      (zero-filled) to hold n values if it is too small. */
  function SetValueCount(f: FixedVector, n: nat): (r: FixedVector)
    ensures r.width == f.width && r.count == n
    ensures |r.data| == if n <= |f.data| then |f.data| else n
    ensures forall k :: 0 <= k < |r.data| ==> r.data[k] == if k < |f.data| then f.data[k] else 0
    ensures AllFit(f.data, f.width) ==> WellFormed(r)
  {
    f.(data := if n <= |f.data| then f.data else f.data + Zeros(n - |f.data|), count := n)
  }

  /** clear: the buffer is released and the vector holds no values. */
  function Released(f: FixedVector): (r: FixedVector)
    ensures WellFormed(r) && r.width == f.width
  {
    FixedVector(f.width, [], 0)
  }

  /** zeroVector: every byte of the buffer becomes 0. */
  function Zeroed(f: FixedVector): (r: FixedVector)
    ensures r.width == f.width && r.count == f.count && |r.data| == |f.data|
    ensures forall k :: 0 <= k < |r.data| ==> r.data[k] == 0
    ensures f.count <= |f.data| ==> WellFormed(r)
  {
    f.(data := Zeros(|f.data|))
  }

  /** What the allocator answers to one request for a buffer: a refusal, or
      a block whose prior contents are arbitrary. */
  datatype Grant = Refused | Granted(block: seq<nat>)

  predicate GrantFits(g: Grant, w: nat)
  {
    g.Granted? ==> AllFit(g.block, w)
  }

  /** allocateNewSafe of a fixed-width vector: it releases its buffer, then
      holds the granted block with no values set, or stays released when the
      request is refused. */
  function Allocate(f: FixedVector, g: Grant): (r: FixedVector)
    ensures r.width == f.width && r.count == 0
    ensures g.Refused? ==> r == Released(f)
    ensures g.Granted? ==> r.data == g.block
    ensures GrantFits(g, f.width) ==> WellFormed(r)
  {
    match g
    case Refused => Released(f)
    case Granted(block) => FixedVector(f.width, block, 0)
  }

  /** getBufferSize: the bytes its logical values occupy. */
  function BufferSize(f: FixedVector): nat
  {
    f.width * f.count
  }

  /** getBuffers: the bytes of the logical values, in order. */
  function Buffer(f: FixedVector): (r: seq<byte>)
    requires WellFormed(f)
    ensures |r| == BufferSize(f)
  {
    EncodeAll(f.data[..f.count], f.width)
  }

  /** getMetadata: the value count and the byte length of Buffer(f). */
  function Metadata(f: FixedVector): (r: SerializedField)
    requires WellFormed(f)
    ensures r.valueCount == f.count && r.bufferLength == |Buffer(f)| && r.children == []
  {
    SerializedField(f.count, BufferSize(f), [])
  }

  /** The descriptor of a vector of w-byte values whose bytes lie within the
      first `available` bytes of a buffer. */
  predicate Describes(meta: SerializedField, w: nat, available: nat)
  {
    meta.bufferLength == w * meta.valueCount && meta.bufferLength <= available
  }

  /** load: the vector takes the values read from the front of buffer. */
  function Loaded(f: FixedVector, meta: SerializedField, buffer: seq<byte>): (r: FixedVector)
    requires Describes(meta, f.width, |buffer|)
    ensures WellFormed(r) && r.width == f.width && r.count == meta.valueCount && |r.data| == r.count
  {
    FixedVector(f.width, DecodeAll(buffer, f.width, meta.valueCount), meta.valueCount)
  }

  /** The vector cut down to its logical values. */
  function Trimmed(f: FixedVector): FixedVector
    requires f.count <= |f.data|
  {
    FixedVector(f.width, f.data[..f.count], f.count)
  }

  /** Loading a vector's own buffer with its own descriptor gives back its
      logical values, whatever bytes follow the buffer. */
  lemma LoadBuffer(f: FixedVector, into: FixedVector, rest: seq<byte>)
    requires WellFormed(f) && into.width == f.width
    ensures Describes(Metadata(f), f.width, |Buffer(f) + rest|)
    ensures Loaded(into, Metadata(f), Buffer(f) + rest) == Trimmed(f)
  {
    DecodeEncodeAll(f.data[..f.count], f.width, rest);
  }
}
