# ListVector: a Dafny model of the list column vector

This project models the core of the list vector of a columnar engine
(`ListVector`): a column whose rows each hold zero or more values. A list
vector is three sub-vectors kept in step, plus a cursor:

- the **offset vector** (4-byte unsigned values): row `i` spans child
  positions `offsets[i] .. offsets[i+1]`;
- the **validity vector** (1-byte values): a row whose entry is 0 reads as
  null, whatever its span;
- the **child (data) vector**: every element of every row, flattened;
- the cursor **`lastSet`**: one past the last row the mutator opened.

The files, leaves first:

- `bytes.dfy` (`Bytes`): little-endian encoding of fixed-width values and the
  proof that decoding inverts it.
- `wire.dfy` (`Wire`): the serialized descriptor (`SerializedField`: value
  count, buffer length, ordered children), buffer concatenation and slicing.
- `fixed_width.dfy` (`FixedWidth`): the contract assumed of the fixed-width
  sub-vectors, as values `FixedVector(width, data, count)` (buffer contents
  and logical value count): `setSafe` and `setValueCount` grow the buffer
  zero-filled, `clear` releases it, `allocateNewSafe` takes the allocator's
  block or stays released, `load` reads the values back from a buffer.
- `list_layout.dfy` (`ListLayout`): the layout as values (`Parts`), the
  backfill rule, the finalized layout, the rows a reader sees, the
  serialized form and the round trip.
- `list_vector.dfy` (`ListVectors`): the `ListVector` class. Its fields are
  the three sub-vectors and `lastSet`; its methods update them in place, as
  the mutator, allocation, clear, transfer, getBuffers and load do. Each
  method's postcondition ties the new state to a `ListLayout` function of the
  old state. A ghost set `notNull` records the rows marked not-null since the
  validity buffer was last zero-filled, released or loaded, and the class
  invariant `Valid()` says a validity entry is nonzero exactly for those rows.

The appending writer (`UnionListWriter`) is not part of this model. Its step
that fills the open row is `ListVectors.ListVector.AppendToOpenRow`. It writes
the values into the child from the row's end offset on, then raises that end
offset past them. The two scenarios at the end of `list_vector.dfy` use it.

Allocation is driven by an oracle. For each sub-vector, the allocator's
answer is a `Grant`: either `Refused`, or `Granted(block)` where the block
holds arbitrary leftover values.

Behaviours of the code that the model keeps:

- `lastSet` is not forward-only: `setNotNull` and `startNewValue` set it to
  `index + 1` unconditionally, so opening an earlier row moves it back.
- `setNotNull` alone writes no offsets. Marking a row past `lastSet` moves the
  cursor over the rows in between, so a later `setValueCount` does not
  backfill them (`ListVectors.SetNotNullSkipsBackfillScenario`).
- `transferTo` moves the buffers but not the cursor. A later `setValueCount`
  on the target backfills from the target's own `lastSet`
  (`ListVectors.StaleCursorAfterTransferScenario`).
- A successful `allocateNewSafe` does not reset `lastSet`, and `load` does not
  touch it.
- `load` hands the offset vector the whole buffer, not a slice; the offset
  vector reads its declared number of values from the front. Validity and
  child get slices at the declared lengths.

## Model

| member | source | states |
|---|---|---|
| `ListVectors.ListVector.constructor` | exec/vector/src/main/java/org/apache/drill/exec/vector/complex/ListVector.java:60-68 | a new vector holds no buffers, `lastSet` is 0 and no row is marked |
| `ListVectors.ListVector.SetNotNull` | exec/vector/src/main/java/org/apache/drill/exec/vector/complex/ListVector.java:297-300 | validity entry `index` becomes 1 (the buffer grows zero-filled if needed) and no other entry changes; `lastSet` becomes `index + 1`; offsets and child are untouched |
| `ListVectors.ListVector.BackfillOffsets` | exec/vector/src/main/java/org/apache/drill/exec/vector/complex/ListVector.java:304-306 | the backfill loop: the offsets become `Backfill(old offsets, lastSet, hi)`, nothing else changes |
| `ListLayout.Backfill` | exec/vector/src/main/java/org/apache/drill/exec/vector/complex/ListVector.java:317-319 | backfilling rows `[lo, hi)` leaves `hi + 1` offsets when the buffer was shorter, keeps the value count and keeps every value within the width |
| `ListLayout.BackfillSpec` | exec/vector/src/main/java/org/apache/drill/exec/vector/complex/ListVector.java:304-306 | after backfilling `[lo, hi)`, offsets `lo..hi` all equal `offsets[lo]` and every other stored offset is unchanged |
| `ListVectors.ListVector.StartNewValue` | exec/vector/src/main/java/org/apache/drill/exec/vector/complex/ListVector.java:303-309 | rows `lastSet..index` get empty spans (`offsets[r+1] := offsets[r]`), only validity entry `index` changes (to 1), `lastSet` becomes `index + 1`; offsets that started at 0 and never decreased still do so up to the new `lastSet` |
| `ListLayout.BackfillKeepsWritten` | exec/vector/src/main/java/org/apache/drill/exec/vector/complex/ListVector.java:303-309 | if offsets start at 0 and never decrease up to `lastSet`, then after the backfill they do so up to `index + 1`, whether `index` lies before or after `lastSet` |
| `ListVectors.ListVector.SetValueCount` | exec/vector/src/main/java/org/apache/drill/exec/vector/complex/ListVector.java:312-325 | the new state is `Finalize(old state, lastSet, n)`; `lastSet` does not move; for `n == 0`, or from written offsets, the result is a finalized layout of `n` rows |
| `ListLayout.Finalize` | exec/vector/src/main/java/org/apache/drill/exec/vector/complex/ListVector.java:314-315 | with `n == 0` no offset is written; the finalize step keeps the sub-vectors well formed |
| `ListLayout.FinalizeLayout` | exec/vector/src/main/java/org/apache/drill/exec/vector/complex/ListVector.java:312-325 | `setValueCount(0)`, from any state, leaves every count 0; for `n > 0`, from offsets written up to `lastSet`, it leaves `n` validity entries and `n + 1` offsets starting at 0 and never decreasing, with a child of `offsets[n]` values |
| `ListVectors.ListVector.IsNull` | exec/vector/src/main/java/org/apache/drill/exec/vector/complex/ListVector.java:291-293 | a row reads as null exactly when it was never marked not-null, so a skipped row is null |
| `ListVectors.ListVector.GetObject` | exec/vector/src/main/java/org/apache/drill/exec/vector/complex/ListVector.java:275-288 | null exactly when `IsNull(index)`; otherwise a list of length `offsets[index+1] - offsets[index]` (0 if the span is reversed) whose `k`-th value is child value `offsets[index] + k`; on a finalized layout it is `Row(index)` |
| `ListVectors.ListVector.AllocateNewSafe` | exec/vector/src/main/java/org/apache/drill/exec/vector/complex/ListVector.java:169-192 | succeeds exactly when all three requests are granted; on failure (including the early return when offsets are refused) all three sub-vectors are released, `lastSet` is 0 and the buffer size is 0; on success offsets and validity are zero-filled with no value set, and, when `lastSet` lies within the offset buffer, the offsets are written up to `lastSet` |
| `ListVectors.SetNotNullSkipsBackfillScenario` | exec/vector/src/main/java/org/apache/drill/exec/vector/complex/ListVector.java:297-325 | row 0 = [1, 2], then setNotNull(2) and setValueCount(3): the offsets are [0, 2, 0, 0], which decrease, because no backfill ran |
| `ListVectors.StaleCursorAfterTransferScenario` | exec/vector/src/main/java/org/apache/drill/exec/vector/complex/ListVector.java:79-86 | rows [1, 2], null, [3] transferred to a new vector, then setValueCount(3) on it: offsets [0, 0, 0, 0] and row 0 reads as an empty list |
| `ListVectors.FailedChildAllocationScenario` | exec/vector/src/main/java/org/apache/drill/exec/vector/complex/ListVector.java:177-186 | the child request refused after the offsets were granted: failure, and buffer size 0 afterwards |
| `ListVectors.ListVector.Clear` | exec/vector/src/main/java/org/apache/drill/exec/vector/complex/ListVector.java:218-224 | offsets, child and validity are released and `lastSet` is 0; the resulting state does not depend on the state before, so a second clear changes nothing |
| `ListVectors.ListVector.GetBufferSize` | exec/vector/src/main/java/org/apache/drill/exec/vector/complex/ListVector.java:210-215 | on a finalized layout the reported size is the length of the bytes getBuffers hands out, and with at least one row it is the sum of the three sub-vectors' buffer lengths |
| `ListLayout.BufferSizeIsWireLength` | exec/vector/src/main/java/org/apache/drill/exec/vector/complex/ListVector.java:210-215 | on a finalized layout, the size getBufferSize reports (0 with no rows, else the sum of the three sub-vector sizes) is the length of the bytes getBuffers produces, and the declared value count is the row count |
| `ListLayout.ListMetadata` | exec/vector/src/main/java/org/apache/drill/exec/vector/complex/ListVector.java:195-202 | three children, describing offsets, validity and child in that order, each declaring the value count of its sub-vector and the byte length of the matching buffer segment |
| `ListVectors.ListVector.GetBuffers` | exec/vector/src/main/java/org/apache/drill/exec/vector/complex/ListVector.java:227-237 | the segments are the buffers of offsets, validity and child in that order; with `clear` the vector is then released, otherwise unchanged |
| `ListVectors.ListVector.Load` | exec/vector/src/main/java/org/apache/drill/exec/vector/complex/ListVector.java:240-256 | offsets are read from the front of the buffer, validity from `[offLen, offLen+bitLen)`, child from `[offLen+bitLen, offLen+bitLen+vecLen)`; `lastSet` does not move |
| `FixedWidth.LoadBuffer` | exec/vector/src/main/java/org/apache/drill/exec/vector/complex/ListVector.java:242 | a sub-vector loaded from a buffer that starts with its own bytes, under its own descriptor, holds exactly its former logical values |
| `Wire.SliceOfFlatten` | exec/vector/src/main/java/org/apache/drill/exec/vector/complex/ListVector.java:244-255 | slicing `off ++ bits ++ child` at the declared lengths gives back each segment |
| `ListLayout.LoadInvertsBuffers` | exec/vector/src/main/java/org/apache/drill/exec/vector/complex/ListVector.java:240-256 | loading the concatenated buffers under the vector's own descriptor is accepted and gives back the logical values of all three sub-vectors |
| `ListLayout.ReloadKeepsRows` | exec/vector/src/main/java/org/apache/drill/exec/vector/complex/ListVector.java:195-256 | round trip: loading what getMetadataBuilder and getBuffers produce yields a finalized layout with the same row count and the same row (null or values) at every index |
| `ListVectors.ListVector.TransferTo` | exec/vector/src/main/java/org/apache/drill/exec/vector/complex/ListVector.java:79-86 | the target then holds this vector's former offsets, validity and child (and rows), this vector's sub-vectors are empty and its buffer size is 0; transferring to itself empties it |
| `ListVectors.SkippedRowScenario` | exec/vector/src/main/java/org/apache/drill/exec/vector/complex/ListVector.java:296-325 | row 0 = [1, 2], row 1 skipped, row 2 = [3], then setValueCount(3): offsets [0, 2, 2, 3], validity [1, 0, 1], rows [1, 2], null, [3] |

## Left out

- `copyFrom`, `copyFromSafe` and the per-row copy of `splitAndTransfer`: they delegate to the recursive value copier over the union list reader and writer, which are not part of this model.
- `promoteToUnion`, `addOrGetVector` and `getDataVector`: the child vector's type is not modelled. So the placeholder-child checks in `transferTo` and `load` are left out, along with the reader rebuild. The child is modelled as a vector of 4-byte values; nested and union children are not covered.
- `allocateNew` calls the base class's `allocateNewSafe`. `BaseRepeatedValueVector` is not part of this model.
- `getValueCount` comes from `BaseRepeatedValueVector`. Here it is the offset vector's value count minus one, or 0 when that count is 0.
- The reader and writer accessors, `getTransferPair`, `makeTransferPair` and its cast, `getFieldIdIfMatches`, the structural-change callback and field/path handling: schema plumbing with no effect on the buffers.
- Reference counting (`retain` in `getBuffers`), the memory allocator and buffer capacities. A growing write extends the buffer exactly to the index it needs, zero-filled, instead of doubling it. Capacity is not observable in this model.
- A sub-vector's `getBuffers` returns zero or one buffer. The model gives one segment per sub-vector, possibly empty, so the concatenated bytes are the same.
- 32-bit arithmetic: the offset vector stores 4-byte values, and the writer step requires the row's end offset to stay below 2^32. Java `int` overflow of row indices is not modelled.
- ListVectors.ListVector.GetObject: the source reads each offset into a signed 32-bit `int`, so an offset of 2^31 or more reads as negative. The model reads offsets as unsigned, so offsets of 2^31 or more are not modelled.
- Out-of-range indices, which the source does not check, are excluded by `requires` clauses on the reads they would make.
- The metadata and buffer length checks that `load` leaves to its caller are the `Loadable` precondition.
