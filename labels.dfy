/**
 * The label collection of the VNC properties test: the texts of the `QLabel`
 * nodes of a widget tree, in the order the pre-order flattening visits them.
 */
module Labels {
  import opened Widgets

  const LabelClass: string := "QLabel"

  /** What one node contributes: its text when it is a `QLabel`, nothing otherwise. */
  function OwnLabel(w: Widget): seq<string>
  {
    if w.className == LabelClass then [w.text] else []
  }

  /** Filter a sequence of nodes down to the texts of its `QLabel`s, keeping the order. */
  function LabelTexts(ws: seq<Widget>): (r: seq<string>)
    ensures |r| <= |ws|
  {
    if ws == [] then [] else OwnLabel(ws[0]) + LabelTexts(ws[1..])
  }

  /** The `labels` list built from the flattening of `w`. */
  function Labels(w: Widget): (r: seq<string>)
    ensures |r| <= Size(w)
  {
    LabelTexts(Flatten(w))
  }

  /** Reference count of the `QLabel` nodes of a tree, by recursion over the tree itself. */
  function CountLabels(w: Widget): nat
    decreases w
  {
    |OwnLabel(w)| + CountLabelsAll(w.children)
  }

  function CountLabelsAll(ws: seq<Widget>): nat
    decreases ws
  {
    if ws == [] then 0 else CountLabels(ws[0]) + CountLabelsAll(ws[1..])
  }

  /** Reference labels of a forest: each tree's labels, concatenated in order. */
  function LabelsAll(ws: seq<Widget>): seq<string>
    decreases ws
  {
    if ws == [] then [] else Labels(ws[0]) + LabelsAll(ws[1..])
  }

  lemma {:induction false} LabelTextsAppend(a: seq<Widget>, b: seq<Widget>)
    ensures LabelTexts(a + b) == LabelTexts(a) + LabelTexts(b)
    decreases |a|
  {
    if a == [] {
      assert a + b == b;
    } else {
      assert (a + b)[1..] == a[1..] + b;
      LabelTextsAppend(a[1..], b);
    }
  }

  /** The filter keeps exactly the texts of the `QLabel` entries of the sequence. */
  lemma {:induction false} LabelTextsMember(ws: seq<Widget>, t: string)
    ensures t in LabelTexts(ws) <==>
            exists k :: 0 <= k < |ws| && ws[k].className == LabelClass && ws[k].text == t
    decreases |ws|
  {
    if ws != [] {
      LabelTextsMember(ws[1..], t);
      if exists k :: 0 <= k < |ws| && ws[k].className == LabelClass && ws[k].text == t {
        var k :| 0 <= k < |ws| && ws[k].className == LabelClass && ws[k].text == t;
        if k > 0 {
          assert ws[1..][k - 1] == ws[k];
        }
      }
      if exists k :: 0 <= k < |ws[1..]| && ws[1..][k].className == LabelClass && ws[1..][k].text == t {
        var k :| 0 <= k < |ws[1..]| && ws[1..][k].className == LabelClass && ws[1..][k].text == t;
        assert ws[k + 1] == ws[1..][k];
      }
    }
  }

  /**
   * `labels` holds a text exactly when some node of the tree, at any depth, is a
   * `QLabel` showing that text; nodes of other classes contribute nothing.
   */
  lemma LabelsExactly(w: Widget, t: string)
    ensures t in Labels(w) <==>
            exists x :: InTree(x, w) && x.className == LabelClass && x.text == t
  {
    LabelTextsMember(Flatten(w), t);
    if t in Labels(w) {
      var k :| 0 <= k < |Flatten(w)| && Flatten(w)[k].className == LabelClass && Flatten(w)[k].text == t;
      FlattenComplete(w, Flatten(w)[k]);
    }
    if exists x :: InTree(x, w) && x.className == LabelClass && x.text == t {
      var x :| InTree(x, w) && x.className == LabelClass && x.text == t;
      FlattenComplete(w, x);
      var k :| 0 <= k < |Flatten(w)| && Flatten(w)[k] == x;
    }
  }

  /** A `QLabel` anywhere below the root contributes its text. */
  lemma DeepLabel(w: Widget, x: Widget)
    requires InTree(x, w) && x.className == LabelClass
    ensures x.text in Labels(w)
  {
    LabelsExactly(w, x.text);
  }

  /** A tree without `QLabel` nodes yields no labels at all. */
  lemma NoLabelNodes(w: Widget)
    requires forall x :: InTree(x, w) ==> x.className != LabelClass
    ensures Labels(w) == []
  {
    if Labels(w) != [] {
      LabelsExactly(w, Labels(w)[0]);
    }
  }

  /**
   * Order: the labels of a node are its own text (if it is a `QLabel`) followed by
   * the labels of each child, child by child.
   */
  lemma {:induction false} LabelsCompose(w: Widget)
    ensures Labels(w) == OwnLabel(w) + LabelsAll(w.children)
  {
    LabelTextsAppend([w], FlattenAll(w.children));
    assert [w][1..] == [];
    LabelsAllFlatten(w.children);
  }

  lemma {:induction false} LabelsAllFlatten(ws: seq<Widget>)
    ensures LabelTexts(FlattenAll(ws)) == LabelsAll(ws)
    decreases |ws|
  {
    if ws != [] {
      LabelTextsAppend(Flatten(ws[0]), FlattenAll(ws[1..]));
      LabelsAllFlatten(ws[1..]);
    }
  }

  /** The number of labels is the number of `QLabel` nodes in the tree. */
  lemma {:induction false} LabelsCount(w: Widget)
    ensures |Labels(w)| == CountLabels(w)
    decreases w, 1
  {
    LabelsCompose(w);
    LabelsAllCount(w.children);
  }

  lemma {:induction false} LabelsAllCount(ws: seq<Widget>)
    ensures |LabelsAll(ws)| == CountLabelsAll(ws)
    decreases ws, 0
  {
    if ws != [] {
      LabelsCount(ws[0]);
      LabelsAllCount(ws[1..]);
    }
  }
}
