/**
 * The section fold tree of the status report (lib/fold-manager.js).
 *
 * A `FoldInfo` owns a row range and an ordered array of child `FoldInfo`s.
 * `Add` walks down into the first child whose rows contain the new range and
 * otherwise appends it as the last child; `Toggle` walks down the same way to
 * the deepest node containing a row and folds or unfolds it in the editor,
 * flipping the node's gutter glyph. The editor and gutter are the `Host`
 * class below (a set of folded ranges, a log of destroyed markers and the
 * buffer's extent); the DOM element showing the glyph is the `Item` class.
 *
 * Every `FoldInfo` carries a ghost `Shape`, the `Node` value of its subtree,
 * and the pure functions on `Node` (`Insert`, `Descend`, `MarkerLog`) are the
 * specification the methods are proved against.
 */
module FoldTree {
  import opened JsString

  /** The rows of an editor range, both ends inclusive. */
  datatype RowRange = RowRange(start: int, end: int)

  /** The glyph of a section's gutter item: '▼' (expanded) or '▶' (collapsed). */
  datatype Glyph = Expanded | Collapsed

  /** A gutter marker, placed at column 0 of a row. */
  datatype Marker = Marker(row: int)

  /** The containment test of `add` and `toggle`: both ends inclusive. */
  predicate Contains(outer: RowRange, inner: RowRange) {
    outer.start <= inner.start && inner.end <= outer.end
  }

  /** The range made of the single row `row`. */
  function RowOf(row: int): RowRange {
    RowRange(row, row)
  }

  // ------------------------------------------------------------------
  // The host editor and gutter

  /** A folded range hides row `row` when it contains it. */
  predicate FoldedAt(folded: set<RowRange>, row: int) {
    exists r :: r in folded && Contains(r, RowOf(row))
  }

  /** `unfoldBufferRow(row)` destroys every fold containing the row. */
  function Unfolded(folded: set<RowRange>, row: int): (r: set<RowRange>)
    ensures r <= folded && !FoldedAt(r, row)
    ensures forall f :: f in folded && !Contains(f, RowOf(row)) ==> f in r
  {
    set f | f in folded && !Contains(f, RowOf(row))
  }

  /** The editor and its gutter, reduced to what the fold tree uses. */
  class Host {
    /** The ranges currently folded in the editor. */
    var folded: set<RowRange>
    /** The markers destroyed so far, in order. */
    var released: seq<Marker>
    /** `buffer.getRange()`: the rows the buffer currently spans. */
    var extent: RowRange

    constructor (extent: RowRange)
      ensures folded == {} && released == [] && this.extent == extent
    {
      folded := {};
      released := [];
      this.extent := extent;
    }

    predicate IsFoldedAtBufferRow(row: int)
      reads this
    {
      FoldedAt(folded, row)
    }

    method UnfoldBufferRow(row: int)
      modifies this
      ensures folded == Unfolded(old(folded), row)
      ensures released == old(released) && extent == old(extent)
    {
      folded := Unfolded(folded, row);
    }

    /** `setSelectedBufferRange(range)` followed by `foldSelectedLines()`. */
    method FoldRange(range: RowRange)
      modifies this
      ensures folded == old(folded) + {range}
      ensures released == old(released) && extent == old(extent)
    {
      folded := folded + {range};
    }

    method DestroyMarker(m: Marker)
      modifies this
      ensures released == old(released) + [m]
      ensures folded == old(folded) && extent == old(extent)
    {
      released := released + [m];
    }
  }

  /** The `span` element that shows a section's glyph. */
  class Item {
    var glyph: Glyph

    constructor (glyph: Glyph)
      ensures this.glyph == glyph
    {
      this.glyph := glyph;
    }
  }

  // ------------------------------------------------------------------
  // The tree as a value

  /** A fold node: its range, its item and marker (absent on the root), its children in order. */
  datatype Node = Node(range: RowRange, item: Item?, marker: Option<Marker>, children: seq<Node>)

  /** The index of the first child, in array order, whose range contains `r`; `|cs|` if none does. */
  function FirstContaining(cs: seq<Node>, r: RowRange): (k: nat)
    ensures k <= |cs|
    ensures k < |cs| ==> Contains(cs[k].range, r)
    ensures forall j :: 0 <= j < k ==> !Contains(cs[j].range, r)
  {
    if cs == [] then 0
    else if Contains(cs[0].range, r) then 0
    else 1 + FirstContaining(cs[1..], r)
  }

  /** `FoldInfo.add`: descend into the first child containing the new range, else append it. */
  function Insert(n: Node, x: Node): (r: Node)
    ensures r.range == n.range && r.item == n.item && r.marker == n.marker
    ensures |r.children| == |n.children| || |r.children| == |n.children| + 1
    ensures forall i :: 0 <= i < |n.children| ==> r.children[i].range == n.children[i].range
    decreases n
  {
    var k := FirstContaining(n.children, x.range);
    if k < |n.children| then n.(children := n.children[k := Insert(n.children[k], x)])
    else n.(children := n.children + [x])
  }

  /** The node reached by repeatedly taking the first child whose range contains `r`. */
  function Descend(n: Node, r: RowRange): Node
    decreases n
  {
    var k := FirstContaining(n.children, r);
    if k < |n.children| then Descend(n.children[k], r) else n
  }

  /** The ranges of all nodes of a tree, in pre-order (a node, then its children's subtrees in order). */
  function Preorder(n: Node): (r: seq<RowRange>)
    ensures |r| >= 1 && r[0] == n.range
    decreases n
  {
    [n.range] + PreorderOf(n.children)
  }

  function PreorderOf(cs: seq<Node>): seq<RowRange>
    decreases cs
  {
    if cs == [] then [] else Preorder(cs[0]) + PreorderOf(cs[1..])
  }

  /** The markers `destroy` releases: children first, in order, then the node's own. */
  function MarkerLog(n: Node): seq<Marker>
    decreases n
  {
    MarkerLogOf(n.children) + (if n.marker.Some? then [n.marker.value] else [])
  }

  function MarkerLogOf(cs: seq<Node>): seq<Marker>
    decreases cs
  {
    if cs == [] then [] else MarkerLogOf(cs[..|cs| - 1]) + MarkerLog(cs[|cs| - 1])
  }

  /** Every node below `n` lies inside its parent's rows. */
  predicate Nested(n: Node)
    decreases n
  {
    forall c :: c in n.children ==> Contains(n.range, c.range) && Nested(c)
  }

  /** The root's own range is never compared with anything: only its children's subtrees are nested. */
  predicate RootNested(root: Node) {
    forall c :: c in root.children ==> Nested(c)
  }

  /** A node added through `FoldManager.add`: it has an item and a marker, and so does every node below it. */
  predicate Section(n: Node)
    decreases n
  {
    n.item != null && n.marker.Some? && forall c :: c in n.children ==> Section(c)
  }

  /** The shape of `FoldManager.foldInfo`: a root without item or marker over sections. */
  predicate ManagedRoot(root: Node) {
    root.item == null && root.marker == None && forall c :: c in root.children ==> Section(c)
  }

  // ------------------------------------------------------------------
  // Properties of the value-level tree

  lemma {:induction false} PreorderOfAppend(a: seq<Node>, b: seq<Node>)
    ensures PreorderOf(a + b) == PreorderOf(a) + PreorderOf(b)
    decreases a
  {
    if a == [] {
      assert a + b == b;
    } else {
      assert (a + b)[0] == a[0] && (a + b)[1..] == a[1..] + b;
      PreorderOfAppend(a[1..], b);
    }
  }

  lemma {:induction false} PreorderAround(cs: seq<Node>, k: nat)
    requires k < |cs|
    ensures PreorderOf(cs) == PreorderOf(cs[..k]) + Preorder(cs[k]) + PreorderOf(cs[k + 1..])
  {
    if k == 0 {
      assert cs[..0] == [];
    } else {
      var t := cs[1..];
      PreorderAround(t, k - 1);
      assert t[..k - 1] == cs[..k][1..] && t[k - 1] == cs[k] && t[k..] == cs[k + 1..];
      assert cs[..k][0] == cs[0];
    }
  }

  lemma SpliceAt(p: seq<RowRange>, A: seq<RowRange>, c: seq<RowRange>, B: seq<RowRange>,
                 c': seq<RowRange>, xs: seq<RowRange>, j: nat)
    requires 0 < j <= |c| && c' == c[..j] + xs + c[j..]
    ensures var i := |p| + |A| + j;
      p + (A + c' + B) == (p + (A + c + B))[..i] + xs + (p + (A + c + B))[i..]
  {
    var i := |p| + |A| + j;
    assert (p + (A + c + B))[..i] == p + A + c[..j];
    assert (p + (A + c + B))[i..] == c[j..] + B;
  }

  lemma {:induction false} PreorderReplace(cs: seq<Node>, k: nat, c': Node)
    requires k < |cs|
    ensures PreorderOf(cs[k := c']) == PreorderOf(cs[..k]) + Preorder(c') + PreorderOf(cs[k + 1..])
  {
    var ds := cs[k := c'];
    PreorderAround(ds, k);
    assert ds[..k] == cs[..k] && ds[k + 1..] == cs[k + 1..];
  }

  /** Replacing child `k` by a node whose pre-order has `xs` spliced in splices `xs` into the parent's. */
  lemma ReplaceChildPreorder(n: Node, k: nat, c': Node, xs: seq<RowRange>, j: nat)
    requires k < |n.children|
    requires 0 < j <= |Preorder(n.children[k])|
    requires Preorder(c') == Preorder(n.children[k])[..j] + xs + Preorder(n.children[k])[j..]
    ensures var i := 1 + |PreorderOf(n.children[..k])| + j;
      0 < i <= |Preorder(n)| &&
      Preorder(n.(children := n.children[k := c'])) == Preorder(n)[..i] + xs + Preorder(n)[i..]
  {
    var cs := n.children;
    var A, C, B := PreorderOf(cs[..k]), Preorder(cs[k]), PreorderOf(cs[k + 1..]);
    PreorderAround(cs, k);
    PreorderReplace(cs, k, c');
    SpliceAt([n.range], A, C, B, Preorder(c'), xs, j);
  }

  lemma InsertInto(n: Node, x: Node, k: nat)
    requires k == FirstContaining(n.children, x.range) && k < |n.children|
    ensures Insert(n, x) == n.(children := n.children[k := Insert(n.children[k], x)])
  {
  }

  lemma InsertPreorderAppend(n: Node, x: Node)
    requires FirstContaining(n.children, x.range) == |n.children|
    ensures Preorder(Insert(n, x)) == Preorder(n) + Preorder(x)
  {
    var cs := n.children;
    PreorderOfAppend(cs, [x]);
    assert PreorderOf([x]) == Preorder(x) by {
      assert [x][1..] == [];
    }
    assert Insert(n, x) == n.(children := cs + [x]);
  }

  /** `add` changes only the first child containing the new range, and only by inserting into it;
      with no such child the new node is appended and every existing child keeps its place. */
  lemma InsertSiblings(n: Node, x: Node)
    ensures var k := FirstContaining(n.children, x.range);
      var r := Insert(n, x);
      if k < |n.children| then
        |r.children| == |n.children| && r.children[k] == Insert(n.children[k], x) &&
        forall i :: 0 <= i < |n.children| && i != k ==> r.children[i] == n.children[i]
      else
        r.children == n.children + [x]
  {
  }

  /** `add` inserts the new subtree's nodes as one block into the pre-order of the tree, after
      the root: every existing node stays, in the same order, and none is detached or moved. */
  lemma {:induction false} InsertSplices(n: Node, x: Node)
    ensures exists i :: (0 < i <= |Preorder(n)| &&
                         Preorder(Insert(n, x)) == Preorder(n)[..i] + Preorder(x) + Preorder(n)[i..])
    decreases n
  {
    var k := FirstContaining(n.children, x.range);
    if k < |n.children| {
      var c := n.children[k];
      InsertSplices(c, x);
      var j :| 0 < j <= |Preorder(c)| && Preorder(Insert(c, x)) == Preorder(c)[..j] + Preorder(x) + Preorder(c)[j..];
      InsertInto(n, x, k);
      ReplaceChildPreorder(n, k, Insert(c, x), Preorder(x), j);
      var i := 1 + |PreorderOf(n.children[..k])| + j;
      assert Preorder(Insert(n, x)) == Preorder(n)[..i] + Preorder(x) + Preorder(n)[i..];
    } else {
      InsertPreorderAppend(n, x);
      var i := |Preorder(n)|;
      assert Preorder(n)[..i] == Preorder(n) && Preorder(n)[i..] == [];
      assert Preorder(Insert(n, x)) == Preorder(n)[..i] + Preorder(x) + Preorder(n)[i..];
    }
  }

  /** Adding a single new node grows the tree by exactly one node. */
  lemma AddOneNode(n: Node, x: Node)
    requires x.children == []
    ensures |Preorder(Insert(n, x))| == |Preorder(n)| + 1
  {
    InsertSplices(n, x);
    assert PreorderOf(x.children) == [];
  }

  /** Adding keeps every non-root node inside its parent's rows; the root's range is not consulted. */
  lemma {:induction false} InsertKeepsNesting(n: Node, x: Node)
    requires RootNested(n) && Nested(x)
    ensures RootNested(Insert(n, x))
    decreases n
  {
    var k := FirstContaining(n.children, x.range);
    var r := Insert(n, x);
    InsertSiblings(n, x);
    if k < |n.children| {
      var c := n.children[k];
      assert c in n.children;
      var c' := Insert(c, x);
      InsertKeepsNesting(c, x);
      InsertSiblings(c, x);
      assert Nested(c') by {
        forall d | d in c'.children ensures Contains(c'.range, d.range) && Nested(d) {
          var i :| 0 <= i < |c'.children| && c'.children[i] == d;
          if i < |c.children| {
            assert c.children[i] in c.children;
          }
        }
      }
      forall d | d in r.children ensures Nested(d) {
        var i :| 0 <= i < |r.children| && r.children[i] == d;
        if i != k {
          assert n.children[i] in n.children;
        }
      }
    } else {
      forall d | d in r.children ensures Nested(d) {
        var i :| 0 <= i < |r.children| && r.children[i] == d;
        if i < |n.children| {
          assert n.children[i] in n.children;
        }
      }
    }
  }

  /** The walk of `toggle` ends at `n` itself or at a node whose range contains `r`,
      and no child of the node it ends at contains `r`. */
  lemma {:induction false} DescendIsDeepest(n: Node, r: RowRange)
    ensures var t := Descend(n, r);
      (t == n || Contains(t.range, r)) && FirstContaining(t.children, r) == |t.children|
    decreases n
  {
    var k := FirstContaining(n.children, r);
    if k < |n.children| {
      DescendIsDeepest(n.children[k], r);
    }
  }

  /** After `add(x)`, the walk for `x`'s own range reaches `x` the way it would starting at `x`:
      a fresh node is found by the same walk `toggle` and `add` use. */
  lemma {:induction false} InsertThenDescend(n: Node, x: Node)
    ensures Descend(Insert(n, x), x.range) == Descend(x, x.range)
    decreases n
  {
    var k := FirstContaining(n.children, x.range);
    var r := Insert(n, x);
    InsertSiblings(n, x);
    if k < |n.children| {
      InsertThenDescend(n.children[k], x);
      assert FirstContaining(r.children, x.range) == k by {
        FirstContainingSameRanges(n.children, r.children, x.range, k);
      }
    } else {
      assert FirstContaining(r.children, x.range) == |n.children| by {
        FirstContainingSameRanges(n.children, r.children, x.range, |n.children|);
      }
    }
  }

  lemma FirstContainingSameRanges(cs: seq<Node>, ds: seq<Node>, r: RowRange, k: nat)
    requires k <= |cs| && k < |ds| && |cs| <= |ds|
    requires forall i :: 0 <= i < k ==> ds[i].range == cs[i].range
    requires forall i :: 0 <= i < k ==> !Contains(cs[i].range, r)
    requires Contains(ds[k].range, r)
    ensures FirstContaining(ds, r) == k
  {
  }

  /** `add` through the manager keeps the root bare and every other node a section. */
  lemma {:induction false} InsertKeepsSections(n: Node, x: Node)
    requires forall c :: c in n.children ==> Section(c)
    requires Section(x)
    ensures forall c :: c in Insert(n, x).children ==> Section(c)
    decreases n
  {
    var k := FirstContaining(n.children, x.range);
    var r := Insert(n, x);
    InsertSiblings(n, x);
    if k < |n.children| {
      var c := n.children[k];
      assert c in n.children;
      InsertKeepsSections(c, x);
      forall d | d in r.children ensures Section(d) {
        var i :| 0 <= i < |r.children| && r.children[i] == d;
        if i != k {
          assert n.children[i] in n.children;
        }
      }
    } else {
      forall d | d in r.children ensures Section(d) {
        var i :| 0 <= i < |r.children| && r.children[i] == d;
        if i < |n.children| {
          assert n.children[i] in n.children;
        }
      }
    }
  }

  /** On the manager's tree, `toggle(row)` finds an item exactly when some top-level section
      contains the row; a row inside no registered range reaches the root, which has none. */
  lemma ToggleTargetHasItem(root: Node, row: int)
    requires ManagedRoot(root)
    ensures (Descend(root, RowOf(row)).item != null) <==>
      FirstContaining(root.children, RowOf(row)) < |root.children|
  {
    var k := FirstContaining(root.children, RowOf(row));
    if k < |root.children| {
      DescendStaysInSection(root.children[k], RowOf(row));
    }
  }

  lemma {:induction false} DescendStaysInSection(n: Node, r: RowRange)
    requires Section(n)
    ensures Section(Descend(n, r))
    decreases n
  {
    var k := FirstContaining(n.children, r);
    if k < |n.children| {
      DescendStaysInSection(n.children[k], r);
    }
  }

  /** Folding a range that contains an unfolded row and then unfolding that row gives the
      editor its original folds back: two toggles on the same node undo each other. */
  lemma FoldThenUnfold(folded: set<RowRange>, range: RowRange, row: int)
    requires Contains(range, RowOf(row)) && !FoldedAt(folded, row)
    ensures FoldedAt(folded + {range}, row)
    ensures Unfolded(folded + {range}, row) == folded
  {
    assert range in folded + {range};
  }

  lemma MarkerLogOfSnoc(cs: seq<Node>, i: nat, log0: seq<Marker>, log: seq<Marker>)
    requires i < |cs| && log == log0 + MarkerLogOf(cs[..i])
    ensures log + MarkerLog(cs[i]) == log0 + MarkerLogOf(cs[..i + 1])
  {
    assert cs[..i + 1][..i] == cs[..i];
  }

  // ------------------------------------------------------------------
  // The objects

  class FoldInfo {
    const range: RowRange
    var item: Item?
    var marker: Option<Marker>
    var children: seq<FoldInfo>
    ghost var Repr: set<FoldInfo>
    ghost var Shape: Node

    ghost predicate Valid()
      reads this, Repr
      decreases Repr
    {
      this in Repr &&
      Shape.range == range && Shape.item == item && Shape.marker == marker &&
      |Shape.children| == |children| &&
      (forall i :: 0 <= i < |children| ==>
        children[i] in Repr && children[i].Repr <= Repr && this !in children[i].Repr &&
        children[i].Valid() && Shape.children[i] == children[i].Shape) &&
      (forall i, j :: 0 <= i < j < |children| ==> children[i].Repr !! children[j].Repr)
    }

    constructor (range: RowRange)
      ensures Valid() && Repr == {this}
      ensures Shape == Node(range, null, None, [])
    {
      this.range := range;
      item := null;
      marker := None;
      children := [];
      Repr := {this};
      Shape := Node(range, null, None, []);
    }

    /** The node reached from this one by following child indices; an index past the end stops the walk. */
    ghost function At(path: seq<nat>): (m: FoldInfo)
      requires Valid()
      reads this, Repr
      ensures m in Repr && m.Repr <= Repr && m.Valid()
      decreases Repr
    {
      if path == [] || path[0] >= |children| then this
      else children[path[0]].At(path[1..])
    }

    /** `destroy`: children first, in array order, then the node's own marker. */
    method Destroy(host: Host)
      requires Valid()
      modifies host
      ensures host.released == old(host.released) + MarkerLog(Shape)
      ensures host.folded == old(host.folded) && host.extent == old(host.extent)
      decreases Repr
    {
      ChildrenValid();
      var kids := children;
      ghost var cs := Shape.children;
      for i := 0 to |kids|
        invariant host.released == old(host.released) + MarkerLogOf(cs[..i])
        invariant host.folded == old(host.folded) && host.extent == old(host.extent)
      {
        ghost var before := host.released;
        kids[i].Destroy(host);
        MarkerLogOfSnoc(cs, i, old(host.released), before);
      }
      assert cs[..|kids|] == cs;
      if marker.Some? {
        host.DestroyMarker(marker.value);
      }
    }

    /** The children of a valid node are valid, own smaller footprints and carry the shape's children. */
    lemma ChildrenValid()
      requires Valid()
      ensures forall i :: 0 <= i < |children| ==>
        children[i].Valid() && children[i].Repr < Repr && children[i].Shape == Shape.children[i]
    {
    }

    /** `add`: the subtree `info` goes into the first child containing its range, else becomes the last child. */
    method Add(info: FoldInfo)
      requires Valid() && info.Valid() && info.Repr !! Repr
      modifies Repr
      ensures Valid() && Repr == old(Repr) + info.Repr
      ensures Shape == Insert(old(Shape), info.Shape)
      decreases Repr
    {
      ChildrenValid();
      for i := 0 to |children|
        invariant unchanged(Repr)
        invariant forall j :: 0 <= j < i ==> !Contains(children[j].range, info.range)
      {
        var child := children[i];
        if info.range.start < child.range.start {
          continue;
        }
        if info.range.end > child.range.end {
          continue;
        }
        assert FirstContaining(Shape.children, info.range) == i;
        AddInto(i, info);
        return;
      }
      assert FirstContaining(Shape.children, info.range) == |children|;
      Append(info);
    }

    /** The second half of `add` when no child contains the new range. */
    method Append(info: FoldInfo)
      requires Valid() && info.Valid() && info.Repr !! Repr
      modifies this
      ensures Valid() && Repr == old(Repr) + info.Repr
      ensures Shape == old(Shape).(children := old(Shape).children + [info.Shape])
    {
      ChildrenValid();
      assert this !in info.Repr && info in info.Repr;
      ghost var n := |children|;
      children := children + [info];
      Repr := Repr + info.Repr;
      Shape := Shape.(children := Shape.children + [info.Shape]);
      assert forall j :: 0 <= j < n ==> children[j].Valid();
      ValidFromParts();
    }

    lemma ValidFromParts()
      requires this in Repr
      requires Shape.range == range && Shape.item == item && Shape.marker == marker
      requires |Shape.children| == |children|
      requires forall i :: 0 <= i < |children| ==>
        children[i] in Repr && children[i].Repr <= Repr && this !in children[i].Repr &&
        children[i].Valid() && Shape.children[i] == children[i].Shape
      requires forall i, j :: 0 <= i < j < |children| ==> children[i].Repr !! children[j].Repr
      ensures Valid()
    {
    }

    /** The recursive half of `add`: child `k` receives the new subtree. */
    method AddInto(k: nat, info: FoldInfo)
      requires Valid() && info.Valid() && info.Repr !! Repr
      requires k < |children|
      modifies Repr
      ensures Valid() && Repr == old(Repr) + info.Repr
      ensures Shape == old(Shape).(children := old(Shape).children[k := Insert(old(Shape).children[k], info.Shape)])
      decreases Repr, 0
    {
      ChildrenValid();
      var child := children[k];
      assert forall j :: 0 <= j < |children| && j != k ==> children[j].Repr !! child.Repr + info.Repr;
      child.Add(info);
      Adopt(k, info.Repr);
    }

    /** Ghost bookkeeping after child `k` has grown by the objects `added`. */
    ghost method Adopt(k: nat, added: set<FoldInfo>)
      requires k < |children| && |Shape.children| == |children| && this in Repr
      requires Shape.range == range && Shape.item == item && Shape.marker == marker
      requires forall i :: 0 <= i < |children| ==>
        children[i] in Repr && children[i].Repr <= Repr + added && this !in children[i].Repr &&
        children[i].Valid() && (i != k ==> Shape.children[i] == children[i].Shape)
      requires forall i, j :: 0 <= i < j < |children| ==> children[i].Repr !! children[j].Repr
      modifies this
      ensures Valid() && Repr == old(Repr) + added
      ensures Shape == old(Shape).(children := old(Shape).children[k := children[k].Shape])
      ensures children == old(children)
    {
      Repr := Repr + added;
      Shape := Shape.(children := Shape.children[k := children[k].Shape]);
      ValidFromParts();
    }

    /** `toggle(line)`: at the deepest node containing the row, unfold it if the editor shows it
        folded, else fold the node's range, then set its glyph; at a node without an item
        (the root) setting the glyph fails, after the editor has already been changed. */
    method Toggle(line: int, host: Host) returns (ok: bool)
      requires Valid()
      modifies host, Descend(Shape, RowOf(line)).item
      ensures var target := Descend(old(Shape), RowOf(line));
        var wasFolded := FoldedAt(old(host.folded), line);
        && host.folded == (if wasFolded then Unfolded(old(host.folded), line)
                           else old(host.folded) + {target.range})
        && ok == (target.item != null)
        && (ok ==> target.item.glyph == if wasFolded then Expanded else Collapsed)
      ensures host.released == old(host.released) && host.extent == old(host.extent)
      decreases Repr
    {
      for i := 0 to |children|
        invariant unchanged(host)
        invariant forall j :: 0 <= j < i ==> !Contains(children[j].range, RowOf(line))
      {
        var child := children[i];
        if line < child.range.start {
          continue;
        }
        if line > child.range.end {
          continue;
        }
        assert FirstContaining(Shape.children, RowOf(line)) == i;
        ok := child.Toggle(line, host);
        return;
      }
      assert FirstContaining(Shape.children, RowOf(line)) == |children|;
      var wasFolded := host.IsFoldedAtBufferRow(line);
      if wasFolded {
        host.UnfoldBufferRow(line);
      } else {
        host.FoldRange(range);
      }
      if item == null {
        ok := false;
        return;
      }
      item.glyph := if wasFolded then Expanded else Collapsed;
      ok := true;
    }
  }

  class FoldManager {
    const host: Host
    var foldInfo: FoldInfo

    ghost predicate Valid()
      reads this, foldInfo, foldInfo.Repr
    {
      foldInfo.Valid() && ManagedRoot(foldInfo.Shape)
    }

    constructor (host: Host)
      ensures Valid() && this.host == host && fresh(foldInfo.Repr)
      ensures foldInfo.Shape == Node(host.extent, null, None, [])
    {
      this.host := host;
      foldInfo := new FoldInfo(host.extent);
    }

    /** `destroy`: every marker of the tree is released, post-order. */
    method Destroy()
      requires Valid()
      modifies host
      ensures host.released == old(host.released) + MarkerLog(foldInfo.Shape)
      ensures host.folded == old(host.folded)
    {
      foldInfo.Destroy(host);
    }

    /** `reset`: destroy the tree, then start a fresh root over the buffer's current extent. */
    method Reset()
      requires Valid()
      modifies this, host
      ensures Valid() && fresh(foldInfo.Repr)
      ensures foldInfo.Shape == Node(host.extent, null, None, [])
      ensures host.released == old(host.released) + MarkerLog(old(foldInfo.Shape))
      ensures host.folded == old(host.folded) && host.extent == old(host.extent)
    {
      foldInfo.Destroy(host);
      foldInfo := new FoldInfo(host.extent);
    }

    /** `add(range)`: a fresh node with glyph '▼' and a marker at the range's first row,
        inserted from the root. `added` names the new node, whose click handler is `Click(added)`. */
    method Add(range: RowRange) returns (ghost added: FoldInfo)
      requires Valid()
      modifies foldInfo.Repr
      ensures Valid() && foldInfo == old(foldInfo)
      ensures fresh(added) && added.range == range && fresh(added.item) && added.item.glyph == Expanded
      ensures added.Shape == Node(range, added.item, Some(Marker(range.start)), [])
      ensures foldInfo.Shape == Insert(old(foldInfo.Shape), added.Shape)
      ensures foldInfo.Repr == old(foldInfo.Repr) + {added}
    {
      var info := new FoldInfo(range);
      info.item := new Item(Expanded);
      info.marker := Some(Marker(range.start));
      info.Shape := info.Shape.(item := info.item, marker := info.marker);
      foldInfo.Add(info);
      added := info;
      InsertKeepsSections(old(foldInfo.Shape), info.Shape);
    }

    /** `toggle(line)` from the root. */
    method Toggle(line: int) returns (ok: bool)
      requires Valid()
      modifies host, Descend(foldInfo.Shape, RowOf(line)).item
      ensures Valid()
      ensures var target := Descend(foldInfo.Shape, RowOf(line));
        var wasFolded := FoldedAt(old(host.folded), line);
        && host.folded == (if wasFolded then Unfolded(old(host.folded), line)
                           else old(host.folded) + {target.range})
        && ok == (FirstContaining(foldInfo.Shape.children, RowOf(line)) < |foldInfo.Shape.children|)
        && (ok ==> target.item != null && target.item.glyph == if wasFolded then Expanded else Collapsed)
    {
      ToggleTargetHasItem(foldInfo.Shape, line);
      ok := foldInfo.Toggle(line, host);
    }

    /** The click handler `add` registers on a node's item: toggle from that node at its own first row. */
    method Click(ghost path: seq<nat>, info: FoldInfo) returns (ok: bool)
      requires Valid() && info == foldInfo.At(path)
      modifies host, Descend(info.Shape, RowOf(info.range.start)).item
      ensures Valid()
      ensures var target := Descend(info.Shape, RowOf(info.range.start));
        var wasFolded := FoldedAt(old(host.folded), info.range.start);
        && host.folded == (if wasFolded then Unfolded(old(host.folded), info.range.start)
                           else old(host.folded) + {target.range})
        && ok == (target.item != null)
        && (ok ==> target.item.glyph == if wasFolded then Expanded else Collapsed)
    {
      ok := info.Toggle(info.range.start, host);
    }
  }
}
