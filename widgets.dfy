/**
 * The widget tree returned by the UI-automation query, and its pre-order
 * flattening (`flatten_widgets`): the node itself, then the flattening of
 * each child in turn.
 */
module Widgets {

  /** One node of the widget tree: its Qt class name, its displayed text and its children. */
  datatype Widget = Widget(className: string, text: string, children: seq<Widget>)

  /** Number of nodes in the tree rooted at `w`. */
  function Size(w: Widget): nat
    decreases w
  {
    1 + SizeAll(w.children)
  }

  /** Number of nodes in a forest. */
  function SizeAll(ws: seq<Widget>): nat
    decreases ws
  {
    if ws == [] then 0 else Size(ws[0]) + SizeAll(ws[1..])
  }

  /** `x` is `w` or a node of one of the subtrees below `w`, at any depth. */
  ghost predicate InTree(x: Widget, w: Widget)
    decreases w
  {
    x == w || InForest(x, w.children)
  }

  /** `x` is a node of one of the trees of `ws`. */
  ghost predicate InForest(x: Widget, ws: seq<Widget>)
    decreases ws
  {
    exists i :: 0 <= i < |ws| && InTree(x, ws[i])
  }

  /** Pre-order traversal: the node first, then each child's flattening in child order. */
  function Flatten(w: Widget): (r: seq<Widget>)
    ensures |r| == Size(w)
    decreases w
  {
    [w] + FlattenAll(w.children)
  }

  /** The flattenings of the trees of `ws`, concatenated in order. */
  function FlattenAll(ws: seq<Widget>): (r: seq<Widget>)
    ensures |r| == SizeAll(ws)
    decreases ws
  {
    if ws == [] then [] else Flatten(ws[0]) + FlattenAll(ws[1..])
  }

  /** The argument itself comes first. */
  lemma RootFirst(w: Widget)
    ensures |Flatten(w)| >= 1 && Flatten(w)[0] == w
  {
  }

  /** A leaf flattens to itself alone. */
  lemma LeafFlatten(w: Widget)
    requires w.children == []
    ensures Flatten(w) == [w]
  {
  }

  lemma {:induction false} FlattenAllAppend(a: seq<Widget>, b: seq<Widget>)
    ensures FlattenAll(a + b) == FlattenAll(a) + FlattenAll(b)
    ensures SizeAll(a + b) == SizeAll(a) + SizeAll(b)
    decreases |a|
  {
    if a == [] {
      assert a + b == b;
    } else {
      assert (a + b)[1..] == a[1..] + b;
      FlattenAllAppend(a[1..], b);
    }
  }

  /**
   * Child `i`'s flattening is one contiguous block of the parent's flattening,
   * starting right after the root and the blocks of the children before it.
   */
  lemma {:induction false} ChildBlock(w: Widget, i: nat)
    requires i < |w.children|
    ensures var off := 1 + SizeAll(w.children[..i]);
            off + Size(w.children[i]) <= |Flatten(w)| &&
            Flatten(w)[off .. off + Size(w.children[i])] == Flatten(w.children[i])
  {
    var ws := w.children;
    assert ws == ws[..i] + ([ws[i]] + ws[i + 1..]);
    FlattenAllAppend(ws[..i], [ws[i]] + ws[i + 1..]);
    FlattenAllAppend([ws[i]], ws[i + 1..]);
    assert FlattenAll([ws[i]]) == Flatten(ws[i]) by {
      assert [ws[i]][1..] == [];
    }
    var off := 1 + SizeAll(ws[..i]);
    assert Flatten(w) == [w] + FlattenAll(ws[..i]) + Flatten(ws[i]) + FlattenAll(ws[i + 1..]);
  }

  /**
   * Pre-order, stated at every position: the node at index `j` of a flattening is
   * immediately followed by all of its descendants, as the block `Flatten` of it.
   */
  lemma {:induction false} SubtreeAt(w: Widget, j: nat)
    requires j < |Flatten(w)|
    ensures j + Size(Flatten(w)[j]) <= |Flatten(w)|
    ensures Flatten(w)[j .. j + Size(Flatten(w)[j])] == Flatten(Flatten(w)[j])
    decreases w, 1
  {
    if j > 0 {
      SubtreeAtAll(w.children, j - 1);
      assert Flatten(w)[j] == FlattenAll(w.children)[j - 1];
      var n := Size(Flatten(w)[j]);
      assert Flatten(w)[j .. j + n] == FlattenAll(w.children)[j - 1 .. j - 1 + n];
    }
  }

  lemma {:induction false} SubtreeAtAll(ws: seq<Widget>, j: nat)
    requires j < |FlattenAll(ws)|
    ensures j + Size(FlattenAll(ws)[j]) <= |FlattenAll(ws)|
    ensures FlattenAll(ws)[j .. j + Size(FlattenAll(ws)[j])] == Flatten(FlattenAll(ws)[j])
    decreases ws, 0
  {
    var f := FlattenAll(ws);
    var head := Flatten(ws[0]);
    var tail := FlattenAll(ws[1..]);
    assert f == head + tail;
    if j < |head| {
      SubtreeAt(ws[0], j);
      var n := Size(head[j]);
      assert f[j] == head[j];
      assert f[j .. j + n] == head[j .. j + n];
    } else {
      SubtreeAtAll(ws[1..], j - |head|);
      var n := Size(tail[j - |head|]);
      assert f[j] == tail[j - |head|];
      assert f[j .. j + n] == tail[j - |head| .. j - |head| + n];
    }
  }

  /** Every node of the tree appears in the flattening, and nothing else does. */
  lemma {:induction false} FlattenComplete(w: Widget, x: Widget)
    ensures x in Flatten(w) <==> InTree(x, w)
    decreases w, 1
  {
    FlattenAllComplete(w.children, x);
  }

  lemma {:induction false} FlattenAllComplete(ws: seq<Widget>, x: Widget)
    ensures x in FlattenAll(ws) <==> InForest(x, ws)
    decreases ws, 0
  {
    if ws != [] {
      FlattenComplete(ws[0], x);
      FlattenAllComplete(ws[1..], x);
      if InForest(x, ws) {
        var i :| 0 <= i < |ws| && InTree(x, ws[i]);
        if i > 0 {
          assert ws[1..][i - 1] == ws[i];
        }
      }
      if InForest(x, ws[1..]) {
        var i :| 0 <= i < |ws[1..]| && InTree(x, ws[1..][i]);
        assert ws[i + 1] == ws[1..][i];
      }
    }
  }
}
