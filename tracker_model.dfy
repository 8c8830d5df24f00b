/** The state of a `NodeTracker` as a value, the calls that change it, and
    what any sequence of calls does to it. */
module TrackerModel {
  import opened Wrappers
  import ArraySplice

  /** The three fields of a tracker: the ordered nodes, the helper slot and
      the flag saying whether the helper node is in use. */
  datatype State<T> = State(nodes: seq<T>, helperNode: Option<T>, isHelperNodeActive: bool)

  /** The state the constructor builds. */
  function Initial<T>(): (st: State<T>)
  {
    State([], None, false)
  }

  /** The mutating calls of the tracker, with their arguments. */
  datatype Call<T> =
    | SetHelperNode(node: T)
    | UnsetHelperNode
    | Add(index: int, el: T)
    | Remove(index: int)

  /** The state after one call. */
  function Step<T>(st: State<T>, c: Call<T>): (r: State<T>)
  {
    match c
    case SetHelperNode(node) => st.(helperNode := Some(node), isHelperNodeActive := true)
    case UnsetHelperNode => st.(isHelperNodeActive := false)
    case Add(index, el) => st.(nodes := ArraySplice.Spliced(st.nodes, index, 0, [el]))
    case Remove(index) => st.(nodes := ArraySplice.Spliced(st.nodes, index, 1, []))
  }

  /** The state after the calls, made in order. */
  function Run<T>(st: State<T>, calls: seq<Call<T>>): (r: State<T>)
    decreases |calls|
  {
    if calls == [] then st else Run(Step(st, calls[0]), calls[1..])
  }

  /** The last call in `calls` that touches the helper slot, if any. */
  function LastHelperCall<T>(calls: seq<Call<T>>): (c: Option<Call<T>>)
    decreases |calls|
  {
    if calls == [] then None
    else
      var c := calls[|calls| - 1];
      if c.SetHelperNode? || c.UnsetHelperNode? then Some(c)
      else LastHelperCall(calls[..|calls| - 1])
  }

  /** The node passed to the last `setHelperNode` in `calls`, if any. */
  function LastSetNode<T>(calls: seq<Call<T>>): (n: Option<T>)
    decreases |calls|
  {
    if calls == [] then None
    else
      var c := calls[|calls| - 1];
      if c.SetHelperNode? then Some(c.node) else LastSetNode(calls[..|calls| - 1])
  }

  /** The calls in `calls` that change the node list, in order. */
  function ListCalls<T>(calls: seq<Call<T>>): (r: seq<Call<T>>)
    decreases |calls|
  {
    if calls == [] then []
    else if calls[0].Add? || calls[0].Remove? then [calls[0]] + ListCalls(calls[1..])
    else ListCalls(calls[1..])
  }

  /** The helper slot holds a node whenever the flag is set. */
  predicate ActiveHasNode<T>(st: State<T>)
  {
    st.isHelperNodeActive ==> st.helperNode.Some?
  }

  // ---------------------------------------------------------------------
  // One call

  /** `add(i, x)` followed by `remove(i)` restores the whole state when
      `0 <= i <= |nodes|`, and also when `i` lies before the start, since both
      calls then clamp to position 0. */
  lemma AddThenRemove<T>(st: State<T>, i: int, x: T)
    requires 0 <= i <= |st.nodes| || |st.nodes| + i < 0
    ensures Step(Step(st, Add(i, x)), Remove(i)) == st
  {
  }

  /** With a negative `i` that counts back into the list the inverse law
      fails: `add` inserts `x` at `|nodes| + i`, `remove` counts back from
      the longer list and takes out the element after `x`, so the pair
      overwrites that element with `x`. */
  lemma AddThenRemoveFromEnd<T>(st: State<T>, i: int, x: T)
    requires i < 0 <= |st.nodes| + i
    ensures Step(Step(st, Add(i, x)), Remove(i)) == st.(nodes := st.nodes[|st.nodes| + i := x])
  {
  }

  /** Past the end the inverse law fails: the element `add` appended stays,
      because `remove` past the end does nothing. */
  lemma AddThenRemovePastEnd<T>(st: State<T>, i: int, x: T)
    requires |st.nodes| < i
    ensures Step(Step(st, Add(i, x)), Remove(i)).nodes == st.nodes + [x]
  {
  }

  // ---------------------------------------------------------------------
  // Sequences of calls

  /** Running `calls` and then one more call is one more step. */
  lemma {:induction false} RunSnoc<T>(st: State<T>, calls: seq<Call<T>>, c: Call<T>)
    ensures Run(st, calls + [c]) == Step(Run(st, calls), c)
    decreases |calls|
  {
    if calls == [] {
      assert [c][1..] == [];
    } else {
      assert (calls + [c])[1..] == calls[1..] + [c];
      RunSnoc(Step(st, calls[0]), calls[1..], c);
    }
  }

  /** After any calls, the helper slot holds the node of the last
      `setHelperNode` (or what it held before, if there was none), and the
      flag is set exactly when the last helper call was `setHelperNode` (or
      is what it was before, if there was none). */
  lemma {:induction false} HelperAfterRun<T>(st: State<T>, calls: seq<Call<T>>)
    ensures Run(st, calls).helperNode ==
            if LastSetNode(calls).Some? then LastSetNode(calls) else st.helperNode
    ensures Run(st, calls).isHelperNodeActive ==
            if LastHelperCall(calls).Some? then LastHelperCall(calls).value.SetHelperNode?
            else st.isHelperNodeActive
    decreases |calls|
  {
    if calls != [] {
      var init, c := calls[..|calls| - 1], calls[|calls| - 1];
      assert calls == init + [c];
      RunSnoc(st, init, c);
      HelperAfterRun(st, init);
    }
  }

  /** The node list after any calls depends only on the `add` and `remove`
      calls among them and on the starting list, never on the helper slot. */
  lemma {:induction false} NodesAfterRun<T>(st: State<T>, other: State<T>, calls: seq<Call<T>>)
    requires st.nodes == other.nodes
    ensures Run(st, calls).nodes == Run(other, ListCalls(calls)).nodes
    decreases |calls|
  {
    if calls != [] {
      var c := calls[0];
      if c.Add? || c.Remove? {
        assert ([c] + ListCalls(calls[1..]))[1..] == ListCalls(calls[1..]);
        NodesAfterRun(Step(st, c), Step(other, c), calls[1..]);
      } else {
        NodesAfterRun(Step(st, c), other, calls[1..]);
      }
    }
  }

  /** Every sequence of `add` calls lengthens the list by its own length. */
  lemma {:induction false} AddsLengthen<T>(st: State<T>, calls: seq<Call<T>>)
    requires forall j :: 0 <= j < |calls| ==> calls[j].Add?
    ensures |Run(st, calls).nodes| == |st.nodes| + |calls|
    decreases |calls|
  {
    if calls != [] {
      AddsLengthen(Step(st, calls[0]), calls[1..]);
    }
  }

  /** Once the flag is set the slot has been written by `setHelperNode`, and
      stays written whatever calls follow; this rests on the argument being a
      node, never the empty slot. */
  lemma {:induction false} ActiveHasNodeAfterRun<T>(st: State<T>, calls: seq<Call<T>>)
    requires ActiveHasNode(st)
    ensures ActiveHasNode(Run(st, calls))
    decreases |calls|
  {
    if calls != [] {
      ActiveHasNodeAfterRun(Step(st, calls[0]), calls[1..]);
    }
  }
}
