// Red-black tree, value level: the cases of the deletion fixup.

module RbDelete {
  import opened RbLinks
  import opened RbColor

  // Loop invariant of the deletion fixup: the slot of temp is one black node short.
  ghost predicate Deleting(t: Tree, sp: Spans, order: seq<Node?>, bh: Heights, temp: Node?) {
    && Links(t, sp, order) && Balanced(t, bh, temp) && RedRule(t, null, temp)
    && !IsRed(t, t.nil) && temp in t.mem
    && (temp != t.root ==>
          && !IsRed(t, t.root) && t.mem[temp].parent in sp
          && var c := t.mem[t.mem[temp].parent];
          && (c.left == temp || c.right == temp) && c.left != c.right)
  }

  // The sibling of a short slot is a real node.
  lemma {:induction false} Sibling(t: Tree, sp: Spans, order: seq<Node?>, bh: Heights, temp: Node?, p: Node?, w: Node?)
    requires Deleting(t, sp, order, bh, temp) && temp != t.root && p == t.mem[temp].parent
    requires p in sp && w == (if t.mem[p].left == temp then t.mem[p].right else t.mem[p].left)
    ensures w in sp && w in bh && temp in bh && bh[w] == bh[temp] + 1 && w != temp && w != p && temp != p
    ensures t.mem[w].parent == p && w != t.root
    ensures p in bh && bh[p] == bh[w] + if t.mem[p].red then 0 else 1
    ensures HeightAt(t, bh, temp, w) && t.mem[w].left in t.mem && t.mem[w].right in t.mem
  {
    assert HeightAt(t, bh, temp, p) && LinkAt(t, sp, order, p);
    assert LinkAt(t, sp, order, w);
    assert HeightAt(t, bh, temp, w);
    RootHasNoParent(t, sp, order, p, w);
  }

  // Case 1 of deletion, at a left child: the sibling w is red.
  lemma {:induction false} DeleteRedSiblingAt(t: Tree, sp: Spans, order: seq<Node?>, bh: Heights, temp: Node?,
      p: Node?, w: Node?, t1: Tree, b: Node?, t': Tree)
    requires Deleting(t, sp, order, bh, temp) && temp != t.root && !IsRed(t, temp) && p == t.mem[temp].parent
    requires p in sp && t.mem[p].left == temp && t.mem[p].right == w && IsRed(t, w) && w in bh && p in bh
    requires t1 == Paint(Paint(t, w, false), p, true) && Rotation(t1, sp, order, p, w, b, t')
    ensures HeightsChange(t1, bh, SwappedHeights(bh, w, p), p, w, null) && ShortStays(t1, temp, p, w, b, null)
    ensures HeightAt(t', SwappedHeights(bh, w, p), temp, p) && HeightAt(t', SwappedHeights(bh, w, p), temp, w)
    ensures RedAt(t', p, null) && RedAt(t', w, null) && temp != b
    ensures t'.mem[temp].parent == p && t'.mem[p].left == temp && t'.mem[p].right == b
  {
    Sibling(t, sp, order, bh, temp, p, w);
    assert HeightAt(t, bh, temp, p) && HeightAt(t, bh, temp, w) && RedAt(t, p, null) && RedAt(t, w, null);
    assert b != t.nil && b == t.mem[w].left && t.mem[b].parent == w;
    hide Deleting, Links, RotatableLeft;
    assert t'.mem[p] == LeftRotated(t1, p, w, b, p);
    assert t'.mem[w] == LeftRotated(t1, p, w, b, w);
    assert t'.mem[temp] == LeftRotated(t1, p, w, b, temp);
    assert IsRed(t', b) == IsRed(t, b) && IsRed(t', temp) == IsRed(t, temp);
  }

  // Painting x and y, which are about to rotate, leaves the red rule elsewhere.
  lemma {:induction false} DeleteColors(t: Tree, sp: Spans, order: seq<Node?>, bh: Heights, temp: Node?, x: Node?,
      y: Node?, xRed: bool, yRed: bool, t1: Tree)
    requires Deleting(t, sp, order, bh, temp) && temp != t.root && x in sp && y in sp && x != y
    requires t1 == Paint(Paint(t, y, yRed), x, xRed) && (yRed ==> IsRed(t, y))
    ensures forall z {:trigger RedBut(t1, z, null, x)} | z in sp && z != x && z != y
            && z != temp :: RedBut(t1, z, null, x)
    ensures !IsRed(t1, t1.nil) && (x != t.root && y != t.root ==> !IsRed(t1, t1.root))
  {
    forall z | z in sp && z != x && z != y && z != temp
      ensures RedBut(t1, z, null, x)
    {
      assert RedAt(t, z, null);
    }
  }

  lemma {:induction false} DeleteRedSiblingLeft(t: Tree, sp: Spans, order: seq<Node?>, bh: Heights, temp: Node?,
      p: Node?, w: Node?)
    requires Deleting(t, sp, order, bh, temp) && temp != t.root && !IsRed(t, temp) && p == t.mem[temp].parent
    requires p in sp && t.mem[p].left == temp && t.mem[p].right == w && IsRed(t, w)
    ensures w in sp && w in bh && p in bh && w != p
    ensures var t1 := Paint(Paint(t, w, false), p, true);
            && RotatableLeft(t1, p)
            && var t' := LeftRotate(t1, p);
            && Deleting(t', RotatedSpans(sp, p, w), order, SwappedHeights(bh, w, p), temp)
            && temp != t'.root && t'.mem[temp].parent == p && t'.mem[p].left == temp
            && t'.mem[p].right == t.mem[w].left && IsRed(t', p) && !IsRed(t', t'.mem[p].right) && !IsRed(t', temp)
  {
    Sibling(t, sp, order, bh, temp, p, w);
    var t1, bh' := Paint(Paint(t, w, false), p, true), SwappedHeights(bh, w, p);
    PaintTwo(t, sp, order, bh, temp, w, false, p, true);
    RotationOf(t1, sp, order, p);
    var t', b := LeftRotate(t1, p), t1.mem[w].left;
    DeleteRedSiblingAt(t, sp, order, bh, temp, p, w, t1, b, t');
    DeleteColors(t, sp, order, bh, temp, p, w, true, false, t1);
    RotationColors(t1, sp, order, p, w, b, t');
    assert !IsRed(t', b);
    hide HeightAt, RedAt, RedBut, LinkAt, LeftRotate, LeftRotated, RotatedSpans, RotatableLeft, Paint;
    forall z | z in sp && z != p && z != w
      ensures HeightAt(t1, bh, temp, z)
    {
      assert HeightAt(t, bh, temp, z);
    }
    RotateBalanced(t1, sp, order, bh, bh', temp, p, w, b, null, t');
    RotateRedRule(t1, sp, order, null, null, temp, p, w, b, t');
    RotatedSpansFacts(sp, p, w);
  }

  ghost function LoweredHeights(bh: Heights, w: Node?, p: Node?): Heights
    requires w in bh && p in bh && bh[w] >= 1 && bh[p] >= 1
  {
    bh[w := bh[w] - 1][p := bh[p] - 1]
  }

  lemma {:induction false} DeleteRecolorAt(t: Tree, sp: Spans, order: seq<Node?>, bh: Heights, temp: Node?,
      p: Node?, w: Node?, z: Node?)
    requires Links(t, sp, order) && p in sp && w in sp && z in sp && w != p && temp in t.mem && p == t.mem[temp].parent
    requires w in bh && p in bh && z in bh && temp in bh && bh[w] == bh[temp] + 1 && bh[p] >= 1 && temp != p
             && temp != w
    requires {t.mem[p].left, t.mem[p].right} == {temp, w}
    requires t.mem[w].parent == p && !t.mem[w].red && HeightAt(t, bh, temp, z) && HeightAt(t, bh, temp, w)
    ensures HeightAt(Paint(t, w, true), LoweredHeights(bh, w, p), p, z)
  {
    assert LinkAt(t, sp, order, z) && LinkAt(t, sp, order, p);
    hide Links;
    LoweredAt(t, bh, temp, p, w, z);
  }

  // What the paint does to one height, in terms of the links alone.
  lemma {:induction false} LoweredAt(t: Tree, bh: Heights, temp: Node?, p: Node?, w: Node?, z: Node?)
    requires p in t.mem && w in t.mem && z in t.mem && temp in t.mem && w != p && temp != p && temp != w
    requires t.mem[temp].parent == p && t.mem[w].parent == p && {t.mem[p].left, t.mem[p].right} == {temp, w}
    requires w in bh && p in bh && z in bh && temp in bh && bh[w] == bh[temp] + 1 && bh[p] >= 1 && !t.mem[w].red
    requires HeightAt(t, bh, temp, z) && HeightAt(t, bh, temp, w)
    requires t.mem[z].left == p || t.mem[z].right == p ==> t.mem[p].parent == z
    requires z != p ==> t.mem[z].left != w && t.mem[z].right != w
    requires t.mem[z].left != p || t.mem[z].right != p
    ensures HeightAt(Paint(t, w, true), LoweredHeights(bh, w, p), p, z)
  {
  }

  // Case 2 of deletion: the sibling and its children are black, so the short
  // slot moves up to the parent.
  lemma {:induction false} DeleteRecolor(t: Tree, sp: Spans, order: seq<Node?>, bh: Heights, temp: Node?, p: Node?,
      w: Node?)
    requires Deleting(t, sp, order, bh, temp) && temp != t.root && !IsRed(t, temp) && p == t.mem[temp].parent
    requires p in sp && w == (if t.mem[p].left == temp then t.mem[p].right else t.mem[p].left)
    requires !IsRed(t, w) && w in t.mem && !IsRed(t, t.mem[w].left) && !IsRed(t, t.mem[w].right)
    ensures w in bh && p in bh && bh[w] >= 1 && bh[p] >= 1
    ensures Deleting(Paint(t, w, true), sp, order, LoweredHeights(bh, w, p), p)
  {
    hide HeightAt, RedAt;
    Sibling(t, sp, order, bh, temp, p, w);
    PaintKeepsLinks(t, sp, order, w, true);
    var t', bh' := Paint(t, w, true), LoweredHeights(bh, w, p);
    forall z | z in sp
      ensures HeightAt(t', bh', p, z) && (z != p ==> RedAt(t', z, null))
    {
      DeleteRecolorRed(t, sp, order, bh, temp, p, w, z);
      assert HeightAt(t, bh, temp, z) && HeightAt(t, bh, temp, w);
      DeleteRecolorAt(t, sp, order, bh, temp, p, w, z);
    }
    if p != t.root {
      RootIsTop(t, sp, order, p);
      assert t'.mem[t'.mem[p].parent].left != t'.mem[t'.mem[p].parent].right;
    }
    assert Balanced(t', bh', p);
    assert RedRule(t', null, p);
  }

  lemma {:induction false} DeleteRecolorRed(t: Tree, sp: Spans, order: seq<Node?>, bh: Heights, temp: Node?,
      p: Node?, w: Node?, z: Node?)
    requires Deleting(t, sp, order, bh, temp) && temp != t.root && !IsRed(t, temp) && p == t.mem[temp].parent
    requires p in sp && w in sp && t.mem[w].parent == p && !IsRed(t, t.mem[w].left) && !IsRed(t, t.mem[w].right)
    requires z in sp
    ensures z != p ==> RedAt(Paint(t, w, true), z, null)
  {
    if z != p {
      NotChild(t, sp, order, z, w);
      if z != temp {
        assert RedAt(t, z, null);
      }
    }
  }

  // Case 3 of deletion, at a right child: the sibling w is black and only its right child v is red.
  lemma {:induction false} DeleteInnerAt(t: Tree, sp: Spans, order: seq<Node?>, bh: Heights, temp: Node?, p: Node?,
      w: Node?, v: Node?, t1: Tree, b: Node?, t': Tree)
    requires Deleting(t, sp, order, bh, temp) && temp != t.root && !IsRed(t, temp) && p == t.mem[temp].parent
    requires p in sp && t.mem[p].right == temp && t.mem[p].left == w && w in sp && !IsRed(t, w) && w in bh
    requires v == t.mem[w].right && v in sp && v in bh && IsRed(t, v) && !IsRed(t, t.mem[w].left)
    requires t1 == Paint(Paint(t, v, false), w, true) && Rotation(t1, sp, order, w, v, b, t')
    ensures HeightsChange(t1, bh, SwappedHeights(bh, v, w), w, v, null) && ShortStays(t1, temp, w, v, b, null)
    ensures HeightAt(t', SwappedHeights(bh, v, w), temp, w) && HeightAt(t', SwappedHeights(bh, v, w), temp, v)
    ensures RedAt(t', w, null) && RedAt(t', v, null)
    ensures t'.mem[temp].parent == p && t'.mem[p].right == temp && t'.mem[p].left == v && t'.mem[v].left == w
  {
    Sibling(t, sp, order, bh, temp, p, w);
    assert HeightAt(t, bh, temp, v) && HeightAt(t, bh, temp, w) && RedAt(t, v, null) && RedAt(t, w, null);
    assert b == t.mem[v].left && (b != t.nil ==> t.mem[b].parent == v) && w != t.root && v != temp && p != v;
    InnerDistinct(t, sp, order, w, v);
    hide Deleting, Links, RotatableLeft, HeightAt, SwappedHeights, HeightsChange;
    assert t'.mem[p] == LeftRotated(t1, w, v, b, p);
    assert t'.mem[w] == LeftRotated(t1, w, v, b, w);
    assert t'.mem[v] == LeftRotated(t1, w, v, b, v);
    assert t'.mem[temp] == LeftRotated(t1, w, v, b, temp);
    assert b in t'.mem && IsRed(t', b) == IsRed(t, b);
    assert t.mem[w].left in t'.mem && IsRed(t', t.mem[w].left) == IsRed(t, t.mem[w].left);
    InnerSwap(t, bh, temp, w, v, t1, t');
  }

  lemma {:induction false} InnerDistinct(t: Tree, sp: Spans, order: seq<Node?>, w: Node?, v: Node?)
    requires Links(t, sp, order) && w in sp && v in sp && v == t.mem[w].right
    ensures {w, v} !! {t.mem[w].left, t.mem[v].left, t.mem[v].right}
  {
    assert LinkAt(t, sp, order, w) && LinkAt(t, sp, order, v);
  }

  // What the rotation does to the two heights, in terms of the links alone.
  lemma {:induction false} InnerSwap(t: Tree, bh: Heights, temp: Node?, w: Node?, v: Node?, t1: Tree, t': Tree)
    requires temp in t.mem && temp in t'.mem && t.mem[temp].parent == t'.mem[temp].parent
    requires t.mem[temp].parent !in {w, v}
    requires w in t.mem && v in t.mem && w in bh && v in bh && w != v && t.mem[w].right == v
    requires !t.mem[w].red && t.mem[v].red && HeightAt(t, bh, temp, w) && HeightAt(t, bh, temp, v)
    requires {w, v} !! {temp, t.mem[w].left, t.mem[v].left, t.mem[v].right}
    requires v in t'.mem && t'.mem[v].left == w && t'.mem[v].right == t.mem[v].right && !t'.mem[v].red
    requires w in t'.mem && t'.mem[w].left == t.mem[w].left && t'.mem[w].right == t.mem[v].left && t'.mem[w].red
    ensures HeightAt(t', SwappedHeights(bh, v, w), temp, w) && HeightAt(t', SwappedHeights(bh, v, w), temp, v)
    ensures HeightsChange(t1, bh, SwappedHeights(bh, v, w), w, v, null)
  {
  }

  lemma {:induction false} DeleteInnerRight(t: Tree, sp: Spans, order: seq<Node?>, bh: Heights, temp: Node?,
      p: Node?, w: Node?, v: Node?)
    requires Deleting(t, sp, order, bh, temp) && temp != t.root && !IsRed(t, temp) && p == t.mem[temp].parent
    requires p in sp && t.mem[p].right == temp && t.mem[p].left == w && w in sp && !IsRed(t, w)
    requires v == t.mem[w].right && IsRed(t, v) && !IsRed(t, t.mem[w].left)
    ensures v in sp && v in bh && w in bh && v != w
    ensures var t1 := Paint(Paint(t, v, false), w, true);
            && RotatableLeft(t1, w)
            && var t' := LeftRotate(t1, w);
            && Deleting(t', RotatedSpans(sp, w, v), order, SwappedHeights(bh, v, w), temp)
            && temp != t'.root && t'.mem[temp].parent == p && t'.mem[p].right == temp && t'.mem[p].left == v
            && !IsRed(t', v) && t'.mem[v].left == w && IsRed(t', w) && !IsRed(t', temp)
  {
    Sibling(t, sp, order, bh, temp, p, w);
    assert v in sp && v != w && v != t.root by {
      assert LinkAt(t, sp, order, w);
      RootHasNoParent(t, sp, order, w, v);
    }
    var t1, bh' := Paint(Paint(t, v, false), w, true), SwappedHeights(bh, v, w);
    PaintTwo(t, sp, order, bh, temp, v, false, w, true);
    RotationOf(t1, sp, order, w);
    var t', b := LeftRotate(t1, w), t1.mem[v].left;
    DeleteInnerAt(t, sp, order, bh, temp, p, w, v, t1, b, t');
    DeleteColors(t, sp, order, bh, temp, w, v, true, false, t1);
    RotationColors(t1, sp, order, w, v, b, t');
    hide HeightAt, RedAt, RedBut, LinkAt, LeftRotate, LeftRotated, RotatedSpans, RotatableLeft, Paint;
    forall z | z in sp && z != w && z != v
      ensures HeightAt(t1, bh, temp, z)
    {
      assert HeightAt(t, bh, temp, z);
    }
    RotateBalanced(t1, sp, order, bh, bh', temp, w, v, b, null, t');
    RotateRedRule(t1, sp, order, null, null, temp, w, v, b, t');
    RotatedSpansFacts(sp, w, v);
  }

  // Case 4 of deletion, at a left child: the right child r of the black sibling w is red.
  function OuterPaint(t: Tree, p: Node?, w: Node?, r: Node?): Tree
    requires p in t.mem && w in t.mem && r in t.mem
  {
    Paint(Paint(Paint(t, w, t.mem[p].red), p, false), r, false)
  }

  // The colours after that.
  function OuterRedOf(t: Tree, p: Node?, w: Node?, r: Node?, z: Node?): bool
    requires p in t.mem && z in t.mem
  {
    if z == p || z == r then false else if z == w then t.mem[p].red else t.mem[z].red
  }

  ghost function OuterHeights(bh: Heights, p: Node?, w: Node?, r: Node?): Heights
    requires p in bh && w in bh && r in bh
  {
    bh[p := bh[w]][w := bh[p]][r := bh[r] + 1]
  }

  ghost predicate Outer(t: Tree, sp: Spans, order: seq<Node?>, bh: Heights, temp: Node?, p: Node?, w: Node?, r: Node?) {
    && Deleting(t, sp, order, bh, temp) && temp != t.root && !IsRed(t, temp) && p == t.mem[temp].parent
    && p in sp && t.mem[p].left == temp && t.mem[p].right == w && w in sp && !IsRed(t, w)
    && r == t.mem[w].right && r in sp && IsRed(t, r) && w in bh && p in bh && r in bh && temp in bh
    && p != w && w != r && p != r && temp != p && temp != w && temp != r && t.mem[w].parent == p && t.mem[r].parent == w
    && w != t.root && r != t.root
  }

  lemma {:induction false} OuterFromDeleting(t: Tree, sp: Spans, order: seq<Node?>, bh: Heights, temp: Node?,
      p: Node?, w: Node?, r: Node?)
    requires Deleting(t, sp, order, bh, temp) && temp != t.root && !IsRed(t, temp) && p == t.mem[temp].parent
    requires p in sp && t.mem[p].left == temp && t.mem[p].right == w && w in sp && !IsRed(t, w)
    requires r == t.mem[w].right && IsRed(t, r)
    ensures Outer(t, sp, order, bh, temp, p, w, r)
  {
    Sibling(t, sp, order, bh, temp, p, w);
    assert LinkAt(t, sp, order, w);
    RootHasNoParent(t, sp, order, w, r);
  }

  lemma {:induction false} OuterPainted(t: Tree, sp: Spans, order: seq<Node?>, p: Node?, w: Node?, r: Node?)
    requires Links(t, sp, order) && p in sp && w in sp && r in sp && p != w && p != r && w != r
    ensures var t1 := OuterPaint(t, p, w, r);
            && Links(t1, sp, order) && t1.root == t.root && t1.nil == t.nil
            && (forall z | z in t.mem :: z in t1.mem
                  && t1.mem[z] == t.mem[z].(red := OuterRedOf(t, p, w, r, z)))
            && (forall z | z in t1.mem :: z in t.mem)
  {
    hide Links;
    PaintInside(t, sp, order);
    PaintKeepsLinks(t, sp, order, w, t.mem[p].red);
    PaintKeepsLinks(Paint(t, w, t.mem[p].red), sp, order, p, false);
    PaintKeepsLinks(Paint(Paint(t, w, t.mem[p].red), p, false), sp, order, r, false);
  }

  lemma {:induction false} PaintInside(t: Tree, sp: Spans, order: seq<Node?>)
    requires Links(t, sp, order)
    ensures forall z | z in sp :: z in t.mem
  {
  }

  // Below every other node the short slot does not show.
  lemma {:induction false} OuterOthers(t: Tree, sp: Spans, order: seq<Node?>, bh: Heights, temp: Node?, p: Node?,
      w: Node?, r: Node?, t1: Tree, z: Node?)
    requires Outer(t, sp, order, bh, temp, p, w, r) && z in sp && z in bh
    requires forall z | z in t.mem :: z in t1.mem
               && t1.mem[z] == t.mem[z].(red := OuterRedOf(t, p, w, r, z))
    requires forall z | z in t1.mem :: z in t.mem
    ensures z != p && z != w && z != r ==> HeightAt(t1, bh, null, z)
    ensures z != p && z != w ==> RedBut(t1, z, null, p)
  {
    assert HeightAt(t, bh, temp, z);
    if z != temp {
      assert RedAt(t, z, null);
    }
    if z != p && z != w {
      NotChild(t, sp, order, z, w);
    }
  }

  lemma {:induction false} OuterDistinct(t: Tree, sp: Spans, order: seq<Node?>, p: Node?, w: Node?, r: Node?)
    requires Links(t, sp, order) && p in sp && w in sp && r in sp && w == t.mem[p].right && r == t.mem[w].right
    ensures t.mem[r].left !in {p, w, r} && t.mem[r].right !in {p, w, r} && t.mem[w].left !in {p, w, r}
    ensures p != t.root ==> t.mem[p].parent !in {w, r}
  {
    assert LinkAt(t, sp, order, p) && LinkAt(t, sp, order, w) && LinkAt(t, sp, order, r);
    if p != t.root {
      RootIsTop(t, sp, order, p);
    }
  }

  lemma {:induction false} OuterChange(bh: Heights, p: Node?, w: Node?, r: Node?, t1: Tree)
    requires p in bh && w in bh && r in bh && p != w && w != r && p != r && r != null
    requires w in t1.mem && t1.mem[w].right == r
    ensures HeightsChange(t1, bh, OuterHeights(bh, p, w, r), p, w, r)
  {
  }

  // What the rotation does to the three heights, in terms of the links alone.
  lemma {:induction false} OuterSettle(t: Tree, bh: Heights, temp: Node?, p: Node?, w: Node?, r: Node?, t': Tree)
    requires null !in t.mem && null !in t'.mem && temp in t.mem && t.mem[temp].parent == p
    requires p in t.mem && w in t.mem && r in t.mem && p in bh && w in bh && r in bh && p != w && p != r && w != r
    requires t.mem[p].left == temp && t.mem[p].right == w && t.mem[w].right == r && !t.mem[w].red && t.mem[r].red
    requires HeightAt(t, bh, temp, p) && HeightAt(t, bh, temp, w) && HeightAt(t, bh, temp, r)
    requires {p, w, r} !! {temp, t.mem[w].left, t.mem[r].left, t.mem[r].right}
    requires p in t'.mem && t'.mem[p].left == temp && t'.mem[p].right == t.mem[w].left && !t'.mem[p].red
    requires w in t'.mem && t'.mem[w].left == p && t'.mem[w].right == r && t'.mem[w].red == t.mem[p].red
    requires r in t'.mem && t'.mem[r].left == t.mem[r].left && t'.mem[r].right == t.mem[r].right && !t'.mem[r].red
    ensures var bh' := OuterHeights(bh, p, w, r);
            HeightAt(t', bh', null, p) && HeightAt(t', bh', null, w) && HeightAt(t', bh', null, r)
  {
  }

  lemma {:induction false} OuterHeight(t: Tree, sp: Spans, order: seq<Node?>, bh: Heights, temp: Node?, p: Node?,
      w: Node?, r: Node?, t1: Tree, b: Node?, t': Tree)
    requires Outer(t, sp, order, bh, temp, p, w, r)
    requires t1 == OuterPaint(t, p, w, r) && Rotation(t1, sp, order, p, w, b, t')
    ensures var bh' := OuterHeights(bh, p, w, r);
            HeightAt(t', bh', null, p) && HeightAt(t', bh', null, w) && HeightAt(t', bh', null, r)
  {
    Sibling(t, sp, order, bh, temp, p, w);
    assert HeightAt(t, bh, temp, p) && HeightAt(t, bh, temp, w) && HeightAt(t, bh, temp, r);
    OuterDistinct(t, sp, order, p, w, r);
    hide Deleting, Links, RotatableLeft, HeightAt, OuterHeights;
    assert t'.mem[p] == LeftRotated(t1, p, w, b, p);
    assert t'.mem[w] == LeftRotated(t1, p, w, b, w);
    assert t'.mem[r] == LeftRotated(t1, p, w, b, r);
    OuterSettle(t, bh, temp, p, w, r, t');
  }

  lemma {:induction false} OuterRed(t: Tree, sp: Spans, order: seq<Node?>, bh: Heights, temp: Node?, p: Node?,
      w: Node?, r: Node?, t1: Tree, b: Node?, t': Tree)
    requires Outer(t, sp, order, bh, temp, p, w, r)
    requires t1 == OuterPaint(t, p, w, r) && Rotation(t1, sp, order, p, w, b, t')
    ensures RedAt(t', p, null) && RedAt(t', w, null)
    ensures p != t.root && IsRed(t1, t1.mem[p].parent) ==> !IsRed(t1, w)
    ensures !IsRed(t', t'.nil) && !IsRed(t', t'.root)
  {
    RotationColors(t1, sp, order, p, w, b, t');
    assert t'.mem[w] == LeftRotated(t1, p, w, b, w);
    if p != t.root {
      RootIsTop(t, sp, order, p);
      var q := t.mem[p].parent;
      if q != temp {
        assert RedAt(t, q, null);
      }
    }
  }

  lemma {:induction false} DeleteOuterLeft(t: Tree, sp: Spans, order: seq<Node?>, bh: Heights, temp: Node?,
      p: Node?, w: Node?, r: Node?)
    requires Deleting(t, sp, order, bh, temp) && temp != t.root && !IsRed(t, temp) && p == t.mem[temp].parent
    requires p in sp && t.mem[p].left == temp && t.mem[p].right == w && w in sp && !IsRed(t, w)
    requires r == t.mem[w].right && IsRed(t, r)
    ensures w in bh && p in bh && r in bh && p != w
    ensures var t1 := OuterPaint(t, p, w, r);
            && RotatableLeft(t1, p)
            && RedBlack(LeftRotate(t1, p), RotatedSpans(sp, p, w), order, OuterHeights(bh, p, w, r))
  {
    OuterFromDeleting(t, sp, order, bh, temp, p, w, r);
    var t1, bh' := OuterPaint(t, p, w, r), OuterHeights(bh, p, w, r);
    OuterPainted(t, sp, order, p, w, r);
    RotationOf(t1, sp, order, p);
    var t', b := LeftRotate(t1, p), t1.mem[w].left;
    OuterChange(bh, p, w, r, t1);
    OuterHeight(t, sp, order, bh, temp, p, w, r, t1, b, t');
    OuterRed(t, sp, order, bh, temp, p, w, r, t1, b, t');
    hide HeightAt, RedAt, RedBut, LinkAt, LeftRotate, LeftRotated, RotatedSpans, RotatableLeft, Paint, OuterPaint,
         OuterHeights;
    forall z | z in sp
      ensures z != p && z != w && z != r ==> HeightAt(t1, bh, null, z)
      ensures z != p && z != w ==> RedBut(t1, z, null, p)
    {
      OuterOthers(t, sp, order, bh, temp, p, w, r, t1, z);
    }
    assert bh'[t.nil] == bh[t.nil];
    RotateBalanced(t1, sp, order, bh, bh', null, p, w, b, r, t');
    RotateRedRule(t1, sp, order, null, null, null, p, w, b, t');
  }

  // Deleting, but temp may be a red child of a red parent; it is then painted
  // black at once.
  ghost predicate Short(t: Tree, sp: Spans, order: seq<Node?>, bh: Heights, temp: Node?) {
    && Links(t, sp, order) && Balanced(t, bh, temp) && RedRule(t, temp, temp)
    && !IsRed(t, t.nil) && temp in t.mem
    && (temp != t.root ==>
          && !IsRed(t, t.root) && t.mem[temp].parent in sp
          && var c := t.mem[t.mem[temp].parent];
          && (c.left == temp || c.right == temp) && c.left != c.right)
  }

  lemma {:induction false} ShortIsDeleting(t: Tree, sp: Spans, order: seq<Node?>, bh: Heights, temp: Node?)
    requires Short(t, sp, order, bh, temp) && !IsRed(t, temp)
    ensures Deleting(t, sp, order, bh, temp)
  {
    forall z | z in t.mem && z != t.nil && z != temp
      ensures RedAt(t, z, null)
    {
      assert RedAt(t, z, temp);
    }
  }

  lemma {:induction false} DeletingIsShort(t: Tree, sp: Spans, order: seq<Node?>, bh: Heights, temp: Node?)
    requires Deleting(t, sp, order, bh, temp)
    ensures Short(t, sp, order, bh, temp)
  {
    forall z | z in t.mem && z != t.nil && z != temp
      ensures RedAt(t, z, temp)
    {
      assert RedAt(t, z, null);
    }
  }

  // The deletion loop stops at the root or at a red node, which is painted black.
  lemma {:induction false} DeleteDone(t: Tree, sp: Spans, order: seq<Node?>, bh: Heights, temp: Node?)
    requires Short(t, sp, order, bh, temp) && (temp == t.root || IsRed(t, temp))
    ensures temp in bh && temp in t.mem
    ensures RedBlack(Paint(t, temp, false), sp, order, RootHeights(t, bh, temp))
  {
    PaintKeepsLinks(t, sp, order, temp, false);
    var t', bh' := Paint(t, temp, false), RootHeights(t, bh, temp);
    forall z | z in sp
      ensures HeightAt(t', bh', null, z) && RedAt(t', z, null)
    {
      DeleteDoneAt(t, sp, order, bh, temp, z);
    }
    hide HeightAt, RedAt, LinkAt;
    assert Balanced(t', bh', null);
    assert RedRule(t', null, null);
  }

  lemma {:induction false} DeleteDoneAt(t: Tree, sp: Spans, order: seq<Node?>, bh: Heights, temp: Node?, z: Node?)
    requires Short(t, sp, order, bh, temp) && (temp == t.root || IsRed(t, temp)) && z in sp && temp in bh && z in bh
    ensures HeightAt(Paint(t, temp, false), RootHeights(t, bh, temp), null, z)
    ensures RedAt(Paint(t, temp, false), z, null)
  {
    assert HeightAt(t, bh, temp, z) && LinkAt(t, sp, order, z);
    if z != temp {
      assert RedAt(t, z, temp);
    }
    if temp == t.root && temp in sp && (t.mem[z].left == temp || t.mem[z].right == temp) {
      RootHasNoParent(t, sp, order, z, temp);
    }
    assert LinkAt(t, sp, order, z);
  }

  // A red-black tree with the short slot at its root.
  lemma {:induction false} RedBlackIsDeleting(t: Tree, sp: Spans, order: seq<Node?>, bh: Heights)
    requires RedBlack(t, sp, order, bh)
    ensures Deleting(t, sp, order, bh, t.root)
  {
    forall z | z in sp
      ensures HeightAt(t, bh, t.root, z) && RedAt(t, z, null)
    {
      assert HeightAt(t, bh, null, z) && RedAt(t, z, null) && LinkAt(t, sp, order, z);
      if t.mem[z].left == t.root || t.mem[z].right == t.root {
        assert LinkAt(t, sp, order, z);
        RootHasNoParent(t, sp, order, z, t.root);
      }
    }
  }
}
