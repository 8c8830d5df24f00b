# NodeTracker in Dafny

A model of `NodeTracker`, the bookkeeping class of a drag-and-drop list
component. A tracker keeps three things:

- an ordered list of opaque nodes, which may contain duplicates;
- one helper-node slot;
- a flag that says whether the helper node is active.

`add` and `remove` change the list in place through `Array.prototype.splice`.
`setHelperNode` and `unsetHelperNode` write the slot and the flag. Three
getters read the state back.

The project has four modules:

- `Wrappers` (`wrappers.dfy`): the `Option` type. `None` stands for the
  `null` that the constructor stores.
- `ArraySplice` (`array_splice.dfy`): `splice` as a function on sequences. It
  follows section 23.1.3.31 of ECMA-262 (14th edition) for integer arguments.
  A negative start counts from the end and stops at 0. A start past the end
  stops at the length. The delete count is clamped to what is left after the
  start.
- `TrackerModel` (`tracker_model.dfy`): the tracker's state as a value. It
  defines one `Step` per mutating call and `Run` for a sequence of calls, with
  lemmas about one call and about any sequence of calls.
- `NodeTracker` (`node_tracker.dfy`): the class itself. It has fields
  `nodes: seq<T>`, `helperNode: Option<T>` and `isHelperNodeActive: bool`.
  Each mutator has `modifies this` and says what every field holds
  afterwards. It also states that the new state is `TrackerModel.Step` of the
  old state. `Scenario` is a client that uses only these contracts.

`remove(i)` at or past the end removes nothing, so the length does not
change on every call. A negative `i` counts from the end, so `remove(-1)`
removes the last element. `add` always adds exactly one element, and appends
when `i` is past the end.

`add(i, x)` followed by `remove(i)` restores the state when
`0 <= i <= |nodes|`. It also restores it when `i < -|nodes|`, because both
calls then work at position 0. It fails in two cases:

- `i > |nodes|`: `add` appends, `remove` does nothing, and `x` stays
  (`TrackerModel.AddThenRemovePastEnd`).
- `-|nodes| <= i < 0`: `remove` counts back from the longer list and takes out
  the element after `x`, so the pair overwrites one element with `x`
  (`TrackerModel.AddThenRemoveFromEnd`).

For any `i`, the inverse that always works removes at the clamped start.
`ArraySplice.RemoveUndoesInsert` proves that.

## Model

| member | source | states |
|---|---|---|
| `ArraySplice.ActualStart` | src/nodeTracker.js:18 | the position splice really uses lies in `0..len`: an in-range start is kept, a start past the end becomes `len`, a negative start counts back from the end and stops at 0 |
| `ArraySplice.ActualDeleteCount` | src/nodeTracker.js:22 | the number of elements splice really deletes is at most what lies after the start, 0 for a non-positive count, and the count itself when it fits |
| `ArraySplice.Spliced` | src/nodeTracker.js:17-23 | the contents after a splice: the length changes by items minus deleted, elements before the start keep their places, the items follow, and later elements shift by the difference |
| `ArraySplice.InsertOne` | src/nodeTracker.js:18 | `splice(i, 0, x)` puts `x` at the clamped start and leaves everything else in order |
| `ArraySplice.RemoveOne` | src/nodeTracker.js:22 | `splice(i, 1)` takes out the element at the clamped start if one is there, and otherwise leaves the contents unchanged |
| `ArraySplice.RemoveUndoesInsert` | src/nodeTracker.js:17-23 | for any index, removing at the clamped start right after an insertion restores the original contents |
| `TrackerModel.AddThenRemove` | src/nodeTracker.js:17-23 | `add(i, x)` then `remove(i)` restores the whole state when `0 <= i <= len`, and also when `i < -len` |
| `TrackerModel.AddThenRemoveFromEnd` | src/nodeTracker.js:17-23 | when `-len <= i < 0`, `add(i, x)` then `remove(i)` replaces the element at `len + i` with `x` and changes nothing else |
| `TrackerModel.AddThenRemovePastEnd` | src/nodeTracker.js:17-23 | when `i > len`, `add(i, x)` then `remove(i)` leaves `x` appended |
| `TrackerModel.HelperAfterRun` | src/nodeTracker.js:8-15 | after any calls, the helper slot holds the argument of the last `setHelperNode`, or the earlier value if there was none; the flag is true exactly when the last helper call was `setHelperNode` |
| `TrackerModel.NodesAfterRun` | src/nodeTracker.js:8-23 | after any calls, the node list depends only on the starting list and the `add`/`remove` calls, never on the helper slot |
| `TrackerModel.AddsLengthen` | src/nodeTracker.js:17-19 | any sequence of `add` calls lengthens the list by the number of calls |
| `TrackerModel.ActiveHasNodeAfterRun` | src/nodeTracker.js:2-15 | once the flag is set, the slot has been written by `setHelperNode`, and it stays written after any calls; starting from a new tracker, a set flag always comes with a written slot |
| `NodeTracker.NodeTracker.constructor` | src/nodeTracker.js:2-6 | a new tracker has an empty list, no helper node and the flag cleared |
| `NodeTracker.NodeTracker.SetHelperNode` | src/nodeTracker.js:8-11 | afterwards the helper slot holds the node, the flag is set and the nodes are unchanged |
| `NodeTracker.NodeTracker.UnsetHelperNode` | src/nodeTracker.js:13-15 | afterwards the flag is cleared, and the stored helper node and the nodes are unchanged |
| `NodeTracker.NodeTracker.Add` | src/nodeTracker.js:17-19 | the list grows by one, becomes `old[..i] + [el] + old[i..]` for `0 <= i <= len`, `old + [el]` for `i > len`, insertion at `len + i` for `-len <= i < 0` and `[el] + old` for `i < -len`; the helper slot and flag are unchanged |
| `NodeTracker.NodeTracker.Remove` | src/nodeTracker.js:21-23 | the list becomes `old[..i] + old[i+1..]` for `0 <= i < len` and is unchanged for `i >= len`; for `-len <= i < 0` it loses the element at `len + i`, for `i < -len` its first element; the helper slot and flag are unchanged |
| `NodeTracker.NodeTracker.GetHelperNode` | src/nodeTracker.js:25-27 | returns the stored helper node, whether active or not, and changes nothing |
| `NodeTracker.NodeTracker.HasActiveHelperNode` | src/nodeTracker.js:29-31 | returns the active flag and changes nothing |
| `NodeTracker.NodeTracker.GetNodes` | src/nodeTracker.js:33-35 | returns the current list of nodes and changes nothing |

## Left out

- NodeTracker.NodeTracker.GetNodes: returns the list as a value. The original returns its live internal array, so a caller could change the tracker's list through it. That aliasing is not modelled.
- Arguments that are not integers (fractions, `NaN`, strings, infinities), which `splice` would first convert. Indices are `int`.
- The array returned by `splice`, holding the deleted elements. The class discards it.
- The `TypeError` and `RangeError` that `splice` raises when the length would pass the array limits (2^53 - 1 in step 11, and 2^32 - 1 for arrays). Lists of UI nodes never get near these limits.
- `setHelperNode(null)`: the slot is an `Option<T>` and the argument is a `T`. Storing a null argument is therefore not the same in the model as the `null` a new tracker holds. If `T` has a null value, `Some(null)` stands for it.
- TrackerModel.ActiveHasNodeAfterRun: holds because the argument of `setHelperNode` is a `T`. In the original, `setHelperNode(null)` or `setHelperNode()` sets the flag while the slot holds `null`, the same value a new tracker holds. In that program, a set flag therefore only means that `setHelperNode` was called.
- What the nodes are (elements of the surrounding component). `T` is an opaque type parameter with no equality.
