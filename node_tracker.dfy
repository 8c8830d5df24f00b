/** The `NodeTracker` class: an ordered list of nodes plus a helper-node slot
    with an active flag, all changed in place. */
module NodeTracker {
  import opened Wrappers
  import ArraySplice
  import TrackerModel

  class NodeTracker<T> {
    var nodes: seq<T>
    var helperNode: Option<T>
    var isHelperNodeActive: bool

    /** The tracker's fields as a value. */
    function Snapshot(): (st: TrackerModel.State<T>)
      reads this
    {
      TrackerModel.State(nodes, helperNode, isHelperNodeActive)
    }

    /** A new tracker has no nodes, no helper node and the flag cleared. */
    constructor ()
      ensures nodes == [] && helperNode == None && !isHelperNodeActive
      ensures Snapshot() == TrackerModel.Initial()
    {
      nodes := [];
      helperNode := None;
      isHelperNodeActive := false;
    }

    /** Stores `node` in the helper slot and marks it active. */
    method SetHelperNode(node: T)
      modifies this
      ensures helperNode == Some(node) && isHelperNodeActive
      ensures nodes == old(nodes)
      ensures Snapshot() == TrackerModel.Step(old(Snapshot()), TrackerModel.SetHelperNode(node))
    {
      helperNode := Some(node);
      isHelperNodeActive := true;
    }

    /** Marks the helper node inactive; the stored node is kept. */
    method UnsetHelperNode()
      modifies this
      ensures !isHelperNodeActive
      ensures helperNode == old(helperNode) && nodes == old(nodes)
      ensures Snapshot() == TrackerModel.Step(old(Snapshot()), TrackerModel.UnsetHelperNode)
    {
      isHelperNodeActive := false;
    }

    /** `nodes.splice(index, 0, el)`: inserts `el` at `index`, at the end
        when `index` is past the end; a negative `index` counts back from the
        end, and one before the start inserts at the front. */
    method Add(index: int, el: T)
      modifies this
      ensures |nodes| == |old(nodes)| + 1
      ensures 0 <= index <= |old(nodes)| ==> nodes == old(nodes)[..index] + [el] + old(nodes)[index..]
      ensures |old(nodes)| < index ==> nodes == old(nodes) + [el]
      ensures index < 0 <= |old(nodes)| + index ==>
                nodes == old(nodes)[..|old(nodes)| + index] + [el] + old(nodes)[|old(nodes)| + index..]
      ensures |old(nodes)| + index < 0 ==> nodes == [el] + old(nodes)
      ensures helperNode == old(helperNode) && isHelperNodeActive == old(isHelperNodeActive)
      ensures Snapshot() == TrackerModel.Step(old(Snapshot()), TrackerModel.Add(index, el))
    {
      nodes := ArraySplice.Spliced(nodes, index, 0, [el]);
    }

    /** `nodes.splice(index, 1)`: removes the element at `index`; at or past
        the end it does nothing. A negative `index` counts back from the end,
        and one before the start removes the first element. */
    method Remove(index: int)
      modifies this
      ensures 0 <= index < |old(nodes)| ==>
                nodes == old(nodes)[..index] + old(nodes)[index + 1..] && |nodes| == |old(nodes)| - 1
      ensures |old(nodes)| <= index ==> nodes == old(nodes)
      ensures index < 0 <= |old(nodes)| + index ==>
                nodes == old(nodes)[..|old(nodes)| + index] + old(nodes)[|old(nodes)| + index + 1..]
      ensures |old(nodes)| + index < 0 < |old(nodes)| ==> nodes == old(nodes)[1..]
      ensures old(nodes) == [] ==> nodes == []
      ensures helperNode == old(helperNode) && isHelperNodeActive == old(isHelperNodeActive)
      ensures Snapshot() == TrackerModel.Step(old(Snapshot()), TrackerModel.Remove(index))
    {
      nodes := ArraySplice.Spliced(nodes, index, 1, []);
    }

    /** The node in the helper slot, active or not. */
    method GetHelperNode() returns (node: Option<T>)
      ensures node == helperNode
    {
      node := helperNode;
    }

    /** Whether the helper node is marked active. */
    method HasActiveHelperNode() returns (active: bool)
      ensures active == isHelperNodeActive
    {
      active := isHelperNodeActive;
    }

    /** The nodes, in order. */
    method GetNodes() returns (s: seq<T>)
      ensures s == nodes
    {
      s := nodes;
    }
  }

  /** A client that relies on the contracts alone: three insertions, one
      removal, then setting and unsetting the helper node. */
  method Scenario()
  {
    var t := new NodeTracker<char>();
    t.Add(0, 'a');
    t.Add(1, 'b');
    t.Add(0, 'c');
    var s := t.GetNodes();
    assert s == ['c', 'a', 'b'];
    t.Remove(1);
    s := t.GetNodes();
    assert s == ['c', 'b'];
    t.SetHelperNode('h');
    var h := t.GetHelperNode();
    assert h == Some('h');
    t.UnsetHelperNode();
    var active := t.HasActiveHelperNode();
    h := t.GetHelperNode();
    assert !active && h == Some('h');
    t.Remove(5);
    s := t.GetNodes();
    assert s == ['c', 'b'];
    t.Add(-1, 'z');
    t.Remove(-1);
    s := t.GetNodes();
    assert s == ['c', 'z'];
  }
}
