/** The layout of a list vector as values: its three sub-vectors, the rules
    its mutator follows when it fills offsets, the rows a reader sees, and the
    serialized form (descriptor and buffer) with the slicing that reads it
    back. The class in ListVectors is proved against these functions. */
module ListLayout {
  import opened Bytes
  import opened Wire
  import opened FixedWidth

  datatype Option<T> = None | Some(value: T)

  /** Offsets are 4-byte unsigned integers, validity entries single bytes. */
  const OffsetWidth: nat := 4
  const BitWidth: nat := 1
  /** The child vector is modelled as a vector of 4-byte values. */
  const ChildWidth: nat := 4

  /** The offset vector, the validity vector and the child (data) vector. */
  datatype Parts = Parts(offsets: FixedVector, bits: FixedVector, child: FixedVector)

  /** All three sub-vectors released. */
  const Empty: Parts := Parts(FixedVector(OffsetWidth, [], 0), FixedVector(BitWidth, [], 0), FixedVector(ChildWidth, [], 0))

  predicate Shaped(p: Parts)
  {
    && p.offsets.width == OffsetWidth && p.bits.width == BitWidth && p.child.width == ChildWidth
    && WellFormed(p.offsets) && WellFormed(p.bits) && WellFormed(p.child)
  }

  /** The first k entries of d never decrease. */
  predicate NonDecreasing(d: seq<nat>, k: nat)
  {
    k <= |d| && forall i, j :: 0 <= i <= j < k ==> d[i] <= d[j]
  }

  /** The offsets of the rows before lastSet have been written: they start at
      0 and never decrease up to and including the end of row lastSet - 1. */
  predicate Written(d: seq<nat>, lastSet: nat)
  {
    lastSet < |d| && d[0] == 0 && NonDecreasing(d, lastSet + 1)
  }

  /** For each row r in [lo, hi), offsets[r + 1] := offsets[r]: every such row
      gets an empty span starting where the row before it ends. */
  function Backfill(f: FixedVector, lo: nat, hi: nat): (r: FixedVector)
    requires lo < hi ==> lo < |f.data|
    ensures r.width == f.width && r.count == f.count
    ensures |r.data| == if lo < hi && |f.data| <= hi then hi + 1 else |f.data|
    ensures WellFormed(f) ==> WellFormed(r)
    decreases hi
  {
    if hi <= lo then f
    else
      var g := Backfill(f, lo, hi - 1);
      SetSafe(g, hi, g.data[hi - 1])
  }

  /** Backfilling [lo, hi) makes offsets lo .. hi all equal to offsets[lo]
      and leaves every other stored offset as it was. */
  lemma {:induction false} BackfillSpec(f: FixedVector, lo: nat, hi: nat)
    requires lo < hi && lo < |f.data|
    ensures forall k :: lo <= k <= hi ==> Backfill(f, lo, hi).data[k] == f.data[lo]
    ensures forall k :: 0 <= k < |f.data| && !(lo < k <= hi) ==> Backfill(f, lo, hi).data[k] == f.data[k]
    decreases hi
  {
    if lo < hi - 1 {
      BackfillSpec(f, lo, hi - 1);
    }
  }

  /** startNewValue(index) keeps the written offsets non-decreasing: after
      backfilling up to index + 1, rows 0 .. index are written. */
  lemma {:induction false} BackfillKeepsWritten(f: FixedVector, lastSet: nat, index: nat)
    requires Written(f.data, lastSet)
    ensures Written(Backfill(f, lastSet, index + 1).data, index + 1)
  {
    var r := Backfill(f, lastSet, index + 1);
    if lastSet < index + 1 {
      BackfillSpec(f, lastSet, index + 1);
      forall i, j | 0 <= i <= j < index + 2
        ensures r.data[i] <= r.data[j]
      {
        if j <= lastSet {
          assert r.data[i] == f.data[i] && r.data[j] == f.data[j];
        } else if i <= lastSet {
          assert r.data[i] == f.data[i] && r.data[j] == f.data[lastSet];
        }
      }
      assert r.data[0] == f.data[0];
    }
  }

  /** The appending writer closes the open row by raising its end offset:
      offsets stay written. */
  lemma AppendKeepsWritten(d: seq<nat>, lastSet: nat, x: nat)
    requires Written(d, lastSet) && 0 < lastSet && d[lastSet] <= x
    ensures Written(d[lastSet := x], lastSet)
  {
  }

  /** The three sub-vectors after setValueCount(n) with cursor lastSet. */
  function Finalize(p: Parts, lastSet: nat, n: nat): (r: Parts)
    requires 0 < n && lastSet < n ==> lastSet < |p.offsets.data|
    ensures n == 0 ==> r.offsets.data == p.offsets.data
    ensures Shaped(p) ==> Shaped(r)
  {
    var o := if n == 0 then FixedWidth.SetValueCount(p.offsets, 0)
             else FixedWidth.SetValueCount(Backfill(p.offsets, lastSet, n), n + 1);
    Parts(o, FixedWidth.SetValueCount(p.bits, n), FixedWidth.SetValueCount(p.child, if n == 0 then 0 else o.data[n]))
  }

  /** The finalized layout of n = bits.count rows: with no rows, every count
      is 0; otherwise there are n + 1 offsets starting at 0 and never
      decreasing, and the child holds offsets[n] values. */
  ghost predicate Finalized(p: Parts)
  {
    var n := p.bits.count;
    && n <= |p.bits.data|
    && if n == 0 then p.offsets.count == 0 && p.child.count == 0
       else
         && p.offsets.count == n + 1 && NonDecreasing(p.offsets.data, n + 1) && p.offsets.data[0] == 0
         && p.child.count == p.offsets.data[n] && p.child.count <= |p.child.data|
  }

  /** setValueCount(0) always leaves a finalized layout with every count 0;
      setValueCount(n) for n > 0 does so whenever the offsets before lastSet
      were written: n + 1 offsets, n validity entries, and a child of
      offsets[n] values. */
  lemma {:induction false} FinalizeLayout(p: Parts, lastSet: nat, n: nat)
    requires n > 0 ==> Written(p.offsets.data, lastSet)
    ensures Finalized(Finalize(p, lastSet, n))
    ensures Finalize(p, lastSet, n).bits.count == n
    ensures n > 0 ==> Finalize(p, lastSet, n).offsets.count == n + 1
  {
    if n > 0 {
      var r := Finalize(p, lastSet, n);
      var b := Backfill(p.offsets, lastSet, n);
      if lastSet < n {
        BackfillKeepsWritten(p.offsets, lastSet, n - 1);
      } else {
        assert b == p.offsets;
      }
      assert Written(b.data, n) || NonDecreasing(b.data, n + 1);
      assert r.offsets.data == b.data;
    }
  }

  /** The number of rows, as the offset vector implies it. */
  function ValueCount(p: Parts): nat
  {
    if p.offsets.count == 0 then 0 else p.offsets.count - 1
  }

  /** What the reader sees at row i: null when its validity entry is 0,
      otherwise the child values of its span, in order. */
  function Row(p: Parts, i: nat): Option<seq<nat>>
    requires Finalized(p) && i < p.bits.count
  {
    if p.bits.data[i] == 0 then None
    else Some(p.child.data[p.offsets.data[i]..p.offsets.data[i + 1]])
  }

  /** getBufferSize: nothing when there are no rows, otherwise the bytes of
      all three sub-vectors. */
  function ListBufferSize(p: Parts): nat
  {
    if ValueCount(p) == 0 then 0
    else BufferSize(p.offsets) + BufferSize(p.bits) + BufferSize(p.child)
  }

  /** getBuffers: offsets, then validity, then child. */
  function ListBuffers(p: Parts): (r: seq<seq<byte>>)
    requires Shaped(p)
  {
    [Buffer(p.offsets), Buffer(p.bits), Buffer(p.child)]
  }

  /** getMetadataBuilder: its children describe offsets, validity and child in
      that order, each with the length of the matching buffer segment. */
  function ListMetadata(p: Parts): (r: SerializedField)
    requires Shaped(p)
    ensures |r.children| == 3
    ensures forall k :: 0 <= k < 3 ==> r.children[k].bufferLength == |ListBuffers(p)[k]|
    ensures r.children[0].valueCount == p.offsets.count && r.children[1].valueCount == p.bits.count
    ensures r.children[2].valueCount == p.child.count
  {
    SerializedField(ValueCount(p), ListBufferSize(p), [Metadata(p.offsets), Metadata(p.bits), Metadata(p.child)])
  }

  /** A descriptor and a buffer that load can read: three children of the
      right widths whose lengths together lie within the buffer. */
  predicate Loadable(meta: SerializedField, available: nat)
  {
    && |meta.children| >= 3
    && meta.children[0].bufferLength == OffsetWidth * meta.children[0].valueCount
    && meta.children[1].bufferLength == BitWidth * meta.children[1].valueCount
    && meta.children[2].bufferLength == ChildWidth * meta.children[2].valueCount
    && meta.children[0].bufferLength + meta.children[1].bufferLength + meta.children[2].bufferLength <= available
  }

  /** load: the offsets read from the front of the buffer, the validity
      entries from the offsetLength bytes after them, the child from the
      bytes after those. */
  function LoadParts(p: Parts, meta: SerializedField, buffer: seq<byte>): (r: Parts)
    requires Shaped(p) && Loadable(meta, |buffer|)
    ensures Shaped(r)
  {
    var offsetLength := meta.children[0].bufferLength;
    var bitLength := meta.children[1].bufferLength;
    var vectorLength := meta.children[2].bufferLength;
    Parts(Loaded(p.offsets, meta.children[0], buffer),
          Loaded(p.bits, meta.children[1], Slice(buffer, offsetLength, bitLength)),
          Loaded(p.child, meta.children[2], Slice(buffer, offsetLength + bitLength, vectorLength)))
  }

  /** Loading the concatenated buffers with the descriptor of the same vector
      gives back each sub-vector's logical values. */
  lemma {:induction false} LoadInvertsBuffers(p: Parts, into: Parts)
    requires Shaped(p) && Shaped(into)
    ensures Loadable(ListMetadata(p), |Flatten(ListBuffers(p))|)
    ensures LoadParts(into, ListMetadata(p), Flatten(ListBuffers(p)))
            == Parts(Trimmed(p.offsets), Trimmed(p.bits), Trimmed(p.child))
  {
    var a, b, c := Buffer(p.offsets), Buffer(p.bits), Buffer(p.child);
    SliceOfFlatten(a, b, c);
    var wire := Flatten(ListBuffers(p));
    assert wire == a + (b + c);
    LoadBuffer(p.offsets, into.offsets, b + c);
    assert b + [] == b && c + [] == c;
    LoadBuffer(p.bits, into.bits, []);
    LoadBuffer(p.child, into.child, []);
  }

  /** Round trip: loading what getMetadataBuilder and getBuffers produce
      reproduces every row a reader sees. */
  lemma {:induction false} ReloadKeepsRows(p: Parts, into: Parts)
    requires Shaped(p) && Shaped(into) && Finalized(p)
    ensures Loadable(ListMetadata(p), |Flatten(ListBuffers(p))|)
    ensures Finalized(LoadParts(into, ListMetadata(p), Flatten(ListBuffers(p))))
    ensures LoadParts(into, ListMetadata(p), Flatten(ListBuffers(p))).bits.count == p.bits.count
    ensures forall i :: 0 <= i < p.bits.count ==>
              Row(LoadParts(into, ListMetadata(p), Flatten(ListBuffers(p))), i) == Row(p, i)
  {
    LoadInvertsBuffers(p, into);
    var q := LoadParts(into, ListMetadata(p), Flatten(ListBuffers(p)));
    var n := p.bits.count;
    if n > 0 {
      assert q.offsets.data == p.offsets.data[..n + 1];
      assert Finalized(q);
      forall i | 0 <= i < n
        ensures Row(q, i) == Row(p, i)
      {
        assert q.bits.data[i] == p.bits.data[i];
        assert p.offsets.data[i] <= p.offsets.data[i + 1] <= p.offsets.data[n];
        assert q.offsets.data[i] == p.offsets.data[i] && q.offsets.data[i + 1] == p.offsets.data[i + 1];
        assert q.child.data == p.child.data[..p.child.count];
        assert q.child.data[p.offsets.data[i]..p.offsets.data[i + 1]] == p.child.data[p.offsets.data[i]..p.offsets.data[i + 1]];
      }
    }
  }

  /** The buffer length getMetadataBuilder declares is the length of the
      buffer getBuffers produces, and its value count is the row count. */
  lemma BufferSizeIsWireLength(p: Parts)
    requires Shaped(p) && Finalized(p)
    ensures ListBufferSize(p) == |Flatten(ListBuffers(p))|
    ensures ListMetadata(p).valueCount == p.bits.count
  {
    SliceOfFlatten(Buffer(p.offsets), Buffer(p.bits), Buffer(p.child));
  }
}
