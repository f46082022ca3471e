/** The list vector: an offset vector, a validity vector and a child vector,
    with the cursor lastSet that the mutator advances as rows are opened. */
module ListVectors {
  import opened Bytes
  import opened Wire
  import opened FixedWidth
  import opened ListLayout

  class ListVector {
    var offsets: FixedVector
    var bits: FixedVector
    var child: FixedVector
    /** One past the last row the mutator opened. */
    var lastSet: nat
    /** The rows marked not-null since the validity buffer was last zero-filled,
        released or loaded (for a loaded buffer: the rows it marks). */
    ghost var notNull: set<nat>

    function View(): Parts
      reads this
    {
      Parts(offsets, bits, child)
    }

    /** The sub-vectors are well formed, and a validity entry is nonzero
        exactly for the rows marked not-null. */
    ghost predicate Valid()
      reads this
    {
      && Shaped(View())
      && (forall i :: 0 <= i < |bits.data| ==> (bits.data[i] != 0 <==> i in notNull))
      && (forall i :: i in notNull ==> i < |bits.data|)
    }

    /** A new list vector holds no buffers. */
    constructor ()
      ensures Valid() && View() == Empty && lastSet == 0 && notNull == {}
    {
      offsets := Empty.offsets;
      bits := Empty.bits;
      child := Empty.child;
      lastSet := 0;
      notNull := {};
    }

    /** The bytes held by the three sub-vectors, or 0 when there are no rows;
        on a finalized layout, exactly the bytes getBuffers hands out. */
    function GetBufferSize(): (r: nat)
      reads this
      ensures Shaped(View()) && Finalized(View()) ==> r == |Flatten(ListBuffers(View()))|
      ensures Shaped(View()) && Finalized(View()) && ValueCount(View()) > 0 ==>
                r == |Buffer(offsets)| + |Buffer(bits)| + |Buffer(child)|
    {
      assert Shaped(View()) && Finalized(View()) ==> ListBufferSize(View()) == |Flatten(ListBuffers(View()))| by {
        if Shaped(View()) && Finalized(View()) {
          BufferSizeIsWireLength(View());
        }
      }
      ListBufferSize(View())
    }

    /** A row is null when its validity entry is 0: exactly the rows never
        marked not-null. */
    predicate IsNull(index: nat)
      reads this
      requires Valid() && index < |bits.data|
      ensures IsNull(index) <==> index !in notNull
    {
      bits.data[index] == 0
    }

    /** The row at index: null when its validity entry is 0, otherwise the child
        values from offsets[index] up to (not including) offsets[index + 1]. */
    method GetObject(index: nat) returns (r: Option<seq<nat>>)
      requires Valid() && index < |bits.data|
      requires !IsNull(index) ==> index + 1 < |offsets.data|
      requires !IsNull(index) && offsets.data[index] < offsets.data[index + 1] ==> offsets.data[index + 1] <= |child.data|
      ensures r.None? <==> IsNull(index)
      ensures r.Some? ==> |r.value| == if offsets.data[index] < offsets.data[index + 1]
                                       then offsets.data[index + 1] - offsets.data[index] else 0
      ensures r.Some? ==> forall k :: 0 <= k < |r.value| ==> r.value[k] == child.data[offsets.data[index] + k]
      ensures Finalized(View()) && index < bits.count ==> r == Row(View(), index)
    {
      if IsNull(index) {
        return None;
      }
      var vals: seq<nat> := [];
      var start := offsets.data[index];
      var end := offsets.data[index + 1];
      var i := start;
      while i < end
        invariant start <= i && (i <= end || i == start)
        invariant |vals| == i - start
        invariant forall k :: 0 <= k < |vals| ==> vals[k] == child.data[start + k]
      {
        vals := vals + [child.data[i]];
        i := i + 1;
      }
      if start <= end && end <= |child.data| {
        assert vals == child.data[start..end];
      }
      return Some(vals);
    }

    /** allocateNewSafe, with the allocator's answer to each of the three
        requests given. All or nothing: it succeeds exactly when all three
        requests are granted; on failure, including a refused offsets request
        that returns early, every sub-vector is released and lastSet is 0; on
        success offsets and validity are zero-filled and no value is set. */
    method AllocateNewSafe(offsetGrant: Grant, childGrant: Grant, bitsGrant: Grant) returns (success: bool)
      requires Valid()
      requires GrantFits(offsetGrant, OffsetWidth) && GrantFits(childGrant, ChildWidth) && GrantFits(bitsGrant, BitWidth)
      modifies this
      ensures Valid()
      ensures success <==> offsetGrant.Granted? && childGrant.Granted? && bitsGrant.Granted?
      ensures !success ==> View() == Empty && lastSet == 0 && notNull == {} && GetBufferSize() == 0
      ensures success ==> && offsets == Zeroed(Allocate(old(offsets), offsetGrant))
                          && bits == Zeroed(Allocate(old(bits), bitsGrant))
                          && child == Allocate(old(child), childGrant)
                          && lastSet == old(lastSet) && notNull == {}
      ensures success && lastSet < |offsets.data| ==> Written(offsets.data, lastSet)
    {
      success := false;
      offsets := Allocate(offsets, offsetGrant);
      if offsetGrant.Refused? {
        // the early return still passes through the finally block
        Clear();
        return;
      }
      child := Allocate(child, childGrant);
      success := childGrant.Granted?;
      if success {
        bits := Allocate(bits, bitsGrant);
        success := bitsGrant.Granted?;
      }
      if !success {
        Clear();
      }
      if success {
        offsets := Zeroed(offsets);
        bits := Zeroed(bits);
        notNull := {};
      }
    }

    /** clear: releases the three sub-vectors and resets lastSet. The state it
        leaves does not depend on the state before, so clearing twice is
        clearing once. */
    method Clear()
      modifies this
      ensures Valid() && View() == Empty && lastSet == 0 && notNull == {}
      ensures GetBufferSize() == 0
    {
      offsets := Empty.offsets;
      child := Empty.child;
      bits := Empty.bits;
      lastSet := 0;
      notNull := {};
    }

    /** setNotNull: marks row index not-null and moves lastSet just past it;
        no other validity entry changes. */
    method SetNotNull(index: nat)
      requires Valid()
      modifies this
      ensures Valid()
      ensures bits == SetSafe(old(bits), index, 1)
      ensures offsets == old(offsets) && child == old(child)
      ensures lastSet == index + 1 && notNull == old(notNull) + {index}
    {
      bits := SetSafe(bits, index, 1);
      lastSet := index + 1;
      notNull := notNull + {index};
    }

    /** The loop shared by startNewValue and setValueCount: each row r in
        [lastSet, hi) gets offsets[r + 1] := offsets[r]. */
    method BackfillOffsets(hi: nat)
      requires Valid()
      requires lastSet < hi ==> lastSet < |offsets.data|
      modifies this`offsets
      ensures Valid()
      ensures offsets == Backfill(old(offsets), lastSet, hi)
    {
      var i := lastSet;
      while i < hi
        invariant lastSet <= i && (i <= hi || i == lastSet)
        invariant offsets == Backfill(old(offsets), lastSet, i)
        invariant Valid()
      {
        offsets := SetSafe(offsets, i + 1, offsets.data[i]);
        i := i + 1;
      }
    }

    /** startNewValue: gives every row from lastSet up to index an empty span
        ending where the row before it ends, marks row index not-null and moves
        lastSet just past it. Written offsets stay written. */
    method StartNewValue(index: nat)
      requires Valid()
      requires lastSet <= index ==> lastSet < |offsets.data|
      modifies this
      ensures Valid()
      ensures offsets == Backfill(old(offsets), old(lastSet), index + 1)
      ensures bits == SetSafe(old(bits), index, 1) && child == old(child)
      ensures lastSet == index + 1 && notNull == old(notNull) + {index}
      ensures old(Written(offsets.data, lastSet)) ==> Written(offsets.data, lastSet)
    {
      ghost var o, l := offsets, lastSet;
      BackfillOffsets(index + 1);
      SetNotNull(index);
      lastSet := index + 1;
      if Written(o.data, l) {
        BackfillKeepsWritten(o, l, index);
      }
    }

    /** The step of the appending writer that fills the open row (row
        lastSet - 1): it writes values into the child from that row's end
        offset on, then moves the end offset past them. */
    method AppendToOpenRow(values: seq<nat>)
      requires Valid()
      requires 0 < lastSet < |offsets.data|
      requires AllFit(values, ChildWidth) && offsets.data[lastSet] + |values| < Pow256(OffsetWidth)
      modifies this
      ensures Valid()
      ensures offsets == SetSafe(old(offsets), lastSet, old(offsets.data[lastSet]) + |values|)
      ensures child.width == old(child.width) && child.count == old(child.count)
      ensures |old(child.data)| <= |child.data|
      ensures |values| > 0 ==> old(offsets.data[lastSet]) + |values| <= |child.data|
      ensures forall k :: 0 <= k < |values| ==> child.data[old(offsets.data[lastSet]) + k] == values[k]
      ensures forall k :: 0 <= k < |old(child.data)| && !(old(offsets.data[lastSet]) <= k < old(offsets.data[lastSet]) + |values|)
                ==> child.data[k] == old(child.data[k])
      ensures bits == old(bits) && lastSet == old(lastSet) && notNull == old(notNull)
      ensures old(Written(offsets.data, lastSet)) ==> Written(offsets.data, lastSet)
    {
      var start := offsets.data[lastSet];
      var j := 0;
      while j < |values|
        invariant 0 <= j <= |values|
        invariant Valid() && offsets == old(offsets) && bits == old(bits) && lastSet == old(lastSet)
        invariant child.width == old(child.width) && child.count == old(child.count)
        invariant |old(child.data)| <= |child.data| && (j > 0 ==> start + j <= |child.data|)
        invariant forall k :: 0 <= k < j ==> child.data[start + k] == values[k]
        invariant forall k :: 0 <= k < |old(child.data)| && !(start <= k < start + j) ==> child.data[k] == old(child.data[k])
      {
        child := SetSafe(child, start + j, values[j]);
        j := j + 1;
      }
      ghost var d := offsets.data;
      offsets := SetSafe(offsets, lastSet, start + |values|);
      if Written(d, lastSet) {
        AppendKeepsWritten(d, lastSet, start + |values|);
        assert offsets.data == d[lastSet := start + |values|];
      }
    }

    /** setValueCount(n): with n = 0 the offset count becomes 0 and no offset is
        written; otherwise rows from lastSet up to n get empty spans and the
        offset count becomes n + 1. The child count becomes offsets[n] (0 when
        n is 0), the validity count n; lastSet does not move. When n is 0, or
        the written offsets reach lastSet, the result is a finalized layout of
        n rows. */
    method SetValueCount(n: nat)
      requires Valid()
      requires 0 < n && lastSet < n ==> lastSet < |offsets.data|
      modifies this
      ensures Valid()
      ensures View() == Finalize(old(View()), old(lastSet), n)
      ensures lastSet == old(lastSet) && notNull == old(notNull)
      ensures (n == 0 || old(Written(offsets.data, lastSet))) ==> Finalized(View()) && bits.count == n
    {
      ghost var before := View();
      if n == 0 {
        offsets := FixedWidth.SetValueCount(offsets, 0);
      } else {
        BackfillOffsets(n);
        offsets := FixedWidth.SetValueCount(offsets, n + 1);
      }
      var childValueCount := if n == 0 then 0 else offsets.data[n];
      child := FixedWidth.SetValueCount(child, childValueCount);
      bits := FixedWidth.SetValueCount(bits, n);
      if n == 0 || Written(before.offsets.data, lastSet) {
        FinalizeLayout(before, lastSet, n);
      }
    }

    /** getBuffers: the buffers of offsets, validity and child, in that order;
        with clear set the vector then releases everything. */
    method GetBuffers(clear: bool) returns (buffers: seq<seq<byte>>)
      requires Valid()
      modifies this
      ensures Valid()
      ensures buffers == ListBuffers(old(View()))
      ensures clear ==> View() == Empty && lastSet == 0 && notNull == {}
      ensures !clear ==> View() == old(View()) && lastSet == old(lastSet) && notNull == old(notNull)
    {
      buffers := [Buffer(offsets)] + ([Buffer(bits)] + [Buffer(child)]);
      if clear {
        Clear();
      }
    }

    /** load: the offsets read the front of the buffer, the validity entries
        the bitLength bytes after the offsets' bytes, the child the
        vectorLength bytes after those. lastSet does not move. */
    method Load(meta: SerializedField, buffer: seq<byte>)
      requires Valid() && Loadable(meta, |buffer|)
      modifies this
      ensures Valid()
      ensures View() == LoadParts(old(View()), meta, buffer)
      ensures lastSet == old(lastSet)
    {
      var offsetMeta := meta.children[0];
      offsets := Loaded(offsets, offsetMeta, buffer);
      var offsetLength := offsetMeta.bufferLength;
      var bitMeta := meta.children[1];
      var bitLength := bitMeta.bufferLength;
      bits := Loaded(bits, bitMeta, Slice(buffer, offsetLength, bitLength));
      var vectorMeta := meta.children[2];
      var vectorLength := vectorMeta.bufferLength;
      child := Loaded(child, vectorMeta, Slice(buffer, offsetLength + bitLength, vectorLength));
      notNull := set i | 0 <= i < |bits.data| && bits.data[i] != 0;
    }

    /** transferTo: each sub-vector's buffer moves to the target (which first
        releases its own), leaving this vector's sub-vectors empty. */
    method TransferTo(target: ListVector)
      requires Valid() && target.Valid()
      modifies this, target
      ensures Valid() && target.Valid()
      ensures View() == Empty && notNull == {} && GetBufferSize() == 0
      ensures target != this ==> target.View() == old(View()) && target.notNull == old(notNull)
      ensures target != this ==> target.lastSet == old(target.lastSet)
      ensures lastSet == old(lastSet)
    {
      target.offsets := Released(target.offsets);
      target.offsets := offsets;
      offsets := Released(offsets);
      target.bits := Released(target.bits);
      target.bits := bits;
      target.notNull := notNull;
      bits := Released(bits);
      notNull := {};
      target.child := Released(target.child);
      target.child := child;
      child := Released(child);
    }
  }

  /** A new vector after allocateNewSafe is granted blocks holding leftover values. */
  method AllocatedVector() returns (v: ListVector)
    ensures fresh(v) && v.Valid() && v.lastSet == 0 && v.child.width == ChildWidth && v.notNull == {}
    ensures v.child.count == 0
    ensures v.offsets.width == OffsetWidth && v.offsets.count == 0 && |v.offsets.data| == 4
    ensures v.offsets.data[0] == 0 && v.offsets.data[1] == 0 && v.offsets.data[2] == 0 && v.offsets.data[3] == 0
    ensures v.bits.width == BitWidth && v.bits.count == 0 && |v.bits.data| == 3
  {
    v := new ListVector();
    var ok := v.AllocateNewSafe(Granted([9, 9, 9, 9]), Granted([5, 5]), Granted([7, 7, 7]));
    assert ok;
  }

  /** Opens row 0 of an allocated vector and appends [1, 2] to it. */
  method WriteFirstRow() returns (v: ListVector)
    ensures fresh(v) && v.Valid() && v.lastSet == 1 && v.child.width == ChildWidth && v.notNull == {0}
    ensures v.offsets.width == OffsetWidth && v.offsets.count == 0 && |v.offsets.data| == 4
    ensures v.offsets.data[0] == 0 && v.offsets.data[1] == 2 && v.offsets.data[2] == 0 && v.offsets.data[3] == 0
    ensures v.bits.width == BitWidth && v.bits.count == 0 && |v.bits.data| == 3
    ensures v.bits.data[0] == 1 && v.bits.data[1] == 0 && v.bits.data[2] == 0
    ensures v.child.count == 0 && |v.child.data| >= 2 && v.child.data[0] == 1 && v.child.data[1] == 2
  {
    v := AllocatedVector();
    ghost var o := v.offsets;
    v.StartNewValue(0);
    BackfillSpec(o, 0, 1);
    var row: seq<nat> := [1, 2];
    v.AppendToOpenRow(row);
    assert v.child.data[0 + 0] == row[0] && v.child.data[0 + 1] == row[1];
  }

  /** After row 0, skips row 1 and opens row 2, appending [3] to it. */
  method WriteThirdRow() returns (v: ListVector)
    ensures fresh(v) && v.Valid() && v.lastSet == 3 && v.child.width == ChildWidth && v.notNull == {0, 2}
    ensures v.offsets.width == OffsetWidth && |v.offsets.data| == 4
    ensures v.offsets.data[0] == 0 && v.offsets.data[1] == 2 && v.offsets.data[2] == 2 && v.offsets.data[3] == 3
    ensures v.bits.width == BitWidth && |v.bits.data| == 3
    ensures v.bits.data[0] == 1 && v.bits.data[1] == 0 && v.bits.data[2] == 1
    ensures |v.child.data| >= 3 && v.child.data[0] == 1 && v.child.data[1] == 2 && v.child.data[2] == 3
  {
    v := WriteFirstRow();
    ghost var o := v.offsets;
    ghost var c := v.child.data;
    v.StartNewValue(2);
    BackfillSpec(o, 1, 3);
    var row: seq<nat> := [3];
    v.AppendToOpenRow(row);
    assert v.child.data[2 + 0] == row[0];
    assert v.child.data[0] == c[0] && v.child.data[1] == c[1];
  }

  /** Writes row 0 = [1, 2], skips row 1, writes row 2 = [3] and calls
      setValueCount(3). */
  method WriteSkippedRow() returns (v: ListVector)
    ensures fresh(v) && v.Valid() && Finalized(v.View())
    ensures v.offsets.count == 4 && v.offsets.data[..4] == [0, 2, 2, 3]
    ensures v.bits.count == 3 && v.bits.data[..3] == [1, 0, 1]
    ensures v.child.count == 3 && |v.child.data| >= 3
    ensures v.child.data[0] == 1 && v.child.data[1] == 2 && v.child.data[2] == 3
  {
    v := WriteThirdRow();
    assert Written(v.offsets.data, v.lastSet);
    v.SetValueCount(3);
    assert v.offsets.data[..4] == [0, 2, 2, 3];
    assert v.bits.data[..3] == [1, 0, 1];
  }

  /** Scenario: the skipped row reads as null, with an empty span; the
      written rows read back their values. */
  method SkippedRowScenario() returns (offsets: seq<nat>, bits: seq<nat>, rows: seq<Option<seq<nat>>>)
    ensures offsets == [0, 2, 2, 3]
    ensures bits == [1, 0, 1]
    ensures rows == [Some([1, 2]), None, Some([3])]
  {
    var v := WriteSkippedRow();
    offsets := v.offsets.data[..v.offsets.count];
    bits := v.bits.data[..v.bits.count];
    var r0 := v.GetObject(0);
    assert r0.value[0] == v.child.data[0 + 0] && r0.value[1] == v.child.data[0 + 1];
    assert r0.value == [1, 2];
    var r1 := v.GetObject(1);
    var r2 := v.GetObject(2);
    assert r2.value[0] == v.child.data[2 + 0];
    assert r2.value == [3];
    rows := [r0, r1, r2];
  }

  /** The offsets request is granted and the child request refused: the
      allocation reports failure and no buffer is left behind. */
  method FailedChildAllocationScenario() returns (success: bool, size: nat)
    ensures !success && size == 0
  {
    var v := new ListVector();
    success := v.AllocateNewSafe(Granted([0, 0, 0, 0]), Refused, Granted([0, 0, 0]));
    size := v.GetBufferSize();
  }

  /** A transfer hands over the rows but not the cursor: the target keeps
      its own lastSet (0 for a new vector), so setValueCount(3) on it
      backfills from row 0 and row 0 then reads as an empty list, not [1, 2]. */
  method StaleCursorAfterTransferScenario() returns (offsets: seq<nat>, row0: Option<seq<nat>>)
    ensures offsets == [0, 0, 0, 0]
    ensures row0 == Some([])
  {
    var v := WriteSkippedRow();
    var target := new ListVector();
    v.TransferTo(target);
    assert target.lastSet == 0;
    ghost var o := target.offsets;
    target.SetValueCount(3);
    BackfillSpec(o, 0, 3);
    offsets := target.offsets.data[..target.offsets.count];
    row0 := target.GetObject(0);
  }

  /** setNotNull past lastSet marks the row but writes no offsets: after row
      0 = [1, 2], setNotNull(2) moves lastSet to 3, so setValueCount(3)
      backfills nothing and the offsets decrease from 2 to 0. */
  method SetNotNullSkipsBackfillScenario() returns (offsets: seq<nat>)
    ensures offsets == [0, 2, 0, 0]
  {
    var v := WriteFirstRow();
    v.SetNotNull(2);
    v.SetValueCount(3);
    offsets := v.offsets.data[..v.offsets.count];
  }
}
