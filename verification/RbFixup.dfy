// Red-black tree, value level: the rounds of the deletion loop, with what the
// loop needs from each.

module RbFixup {
  import opened RbLinks
  import opened RbColor
  import opened RbDelete
  import opened RbMirror
  import opened RbKeys

  // The loop works on a black node temp below p, with sibling w.

  ghost predicate DeleteLeft(t: Tree, sp: Spans, order: seq<Node?>, bh: Heights, temp: Node?, p: Node?, w: Node?) {
    && Deleting(t, sp, order, bh, temp) && temp != t.root && !IsRed(t, temp) && p == t.mem[temp].parent
    && p in sp && t.mem[p].left == temp && t.mem[p].right == w && w in sp
  }

  ghost predicate DeleteRight(t: Tree, sp: Spans, order: seq<Node?>, bh: Heights, temp: Node?, p: Node?, w: Node?) {
    && Deleting(t, sp, order, bh, temp) && temp != t.root && !IsRed(t, temp) && p == t.mem[temp].parent
    && p in sp && t.mem[p].right == temp && t.mem[p].left == w && w in sp
  }

  // Case 3 at a left child: only the inner child of the black sibling is red.
  ghost predicate InnerLeft(t: Tree, sp: Spans, order: seq<Node?>, bh: Heights, temp: Node?, p: Node?, w: Node?) {
    && DeleteLeft(t, sp, order, bh, temp, p, w) && p in t.mem && w in t.mem && !IsRed(t, w)
    && t.mem[w].left in t.mem && IsRed(t, t.mem[w].left) && !IsRed(t, t.mem[w].right)
  }

  // Case 4 at a left child: the outer child of the black sibling is red.
  ghost predicate OuterLeft(t: Tree, sp: Spans, order: seq<Node?>, bh: Heights, temp: Node?, p: Node?, w: Node?) {
    && DeleteLeft(t, sp, order, bh, temp, p, w) && p in t.mem && w in t.mem && !IsRed(t, w)
    && t.mem[w].right in t.mem && IsRed(t, t.mem[w].right)
  }

  // Case 3 at a right child: only the inner child of the black sibling is red.
  ghost predicate InnerRight(t: Tree, sp: Spans, order: seq<Node?>, bh: Heights, temp: Node?, p: Node?, w: Node?) {
    && DeleteRight(t, sp, order, bh, temp, p, w) && p in t.mem && w in t.mem && !IsRed(t, w)
    && t.mem[w].right in t.mem && IsRed(t, t.mem[w].right) && !IsRed(t, t.mem[w].left)
  }

  // Case 4 at a right child: the outer child of the black sibling is red.
  ghost predicate OuterRight(t: Tree, sp: Spans, order: seq<Node?>, bh: Heights, temp: Node?, p: Node?, w: Node?) {
    && DeleteRight(t, sp, order, bh, temp, p, w) && p in t.mem && w in t.mem && !IsRed(t, w)
    && t.mem[w].left in t.mem && IsRed(t, t.mem[w].left)
  }

  // A short slot below the root is on one of the two sides.
  lemma {:induction false} Sides(t: Tree, sp: Spans, order: seq<Node?>, bh: Heights, temp: Node?)
    requires Short(t, sp, order, bh, temp) && temp != t.root && !IsRed(t, temp)
    ensures temp in t.mem && t.mem[temp].parent in t.mem
    ensures var p := t.mem[temp].parent;
            if t.mem[p].left == temp then DeleteLeft(t, sp, order, bh, temp, p, t.mem[p].right)
            else DeleteRight(t, sp, order, bh, temp, p, t.mem[p].left)
  {
    ShortIsDeleting(t, sp, order, bh, temp);
    var p := t.mem[temp].parent;
    Sibling(t, sp, order, bh, temp, p, if t.mem[p].left == temp then t.mem[p].right else t.mem[p].left);
  }

  lemma {:induction false} SiblingKids(t: Tree, sp: Spans, order: seq<Node?>, bh: Heights, temp: Node?, p: Node?,
      w: Node?)
    requires DeleteLeft(t, sp, order, bh, temp, p, w) || DeleteRight(t, sp, order, bh, temp, p, w)
    ensures temp in t.mem && p in t.mem && w in t.mem && p in sp && t.mem[temp].parent == p
    ensures t.mem[w].left in t.mem && t.mem[w].right in t.mem
  {
    Sibling(t, sp, order, bh, temp, p, w);
  }

  // Case 1 at a left child: the new sibling is black.
  lemma {:induction false} RedSiblingLeftStep(t: Tree, sp: Spans, order: seq<Node?>, bh: Heights, temp: Node?,
      p: Node?, w: Node?, t1: Tree)
    returns (sp': Spans, bh': Heights)
    requires DeleteLeft(t, sp, order, bh, temp, p, w) && IsRed(t, w) && p in t.mem
             && t1 == Paint(Paint(t, w, false), p, true)
    ensures RotatableLeft(t1, p)
    ensures var t' := LeftRotate(t1, p);
            && p in t'.mem && t'.mem[p].right in t'.mem
            && DeleteLeft(t', sp', order, bh', temp, p, t'.mem[p].right) && !IsRed(t', t'.mem[p].right) && IsRed(t', p)
            && SameKeys(t.mem, t'.mem)
  {
    DeleteRedSiblingLeft(t, sp, order, bh, temp, p, w);
    sp', bh' := RotatedSpans(sp, p, w), SwappedHeights(bh, w, p);
    PaintKeys2(t, w, false, p, true);
    var t' := LeftRotate(t1, p);
    LeftRotateKeys(t1, p);
    hide Paint, LeftRotate, RotatedSpans, SwappedHeights, RotatableLeft, SameKeys;
    SameKeysAgain(t.mem, t1.mem, t'.mem);
    Sibling(t', sp', order, bh', temp, p, t'.mem[p].right);
  }

  // Case 1 at a right child.
  lemma {:induction false} RedSiblingRightStep(t: Tree, sp: Spans, order: seq<Node?>, bh: Heights, temp: Node?,
      p: Node?, w: Node?, t1: Tree)
    returns (sp': Spans, bh': Heights)
    requires DeleteRight(t, sp, order, bh, temp, p, w) && IsRed(t, w) && p in t.mem
             && t1 == Paint(Paint(t, w, false), p, true)
    ensures RotatableRight(t1, p)
    ensures var t' := RightRotate(t1, p);
            && p in t'.mem && t'.mem[p].left in t'.mem
            && DeleteRight(t', sp', order, bh', temp, p, t'.mem[p].left) && !IsRed(t', t'.mem[p].left) && IsRed(t', p)
            && SameKeys(t.mem, t'.mem)
  {
    sp', bh' := DeleteRedSiblingRight(t, sp, order, bh, temp, p, w);
    Sibling(t, sp, order, bh, temp, p, w);
    PaintTwo(t, sp, order, bh, temp, w, false, p, true);
    PaintKeys2(t, w, false, p, true);
    var t' := RightRotate(t1, p);
    assert t1.mem[p].left != t1.nil;
    hide Paint, RightRotate, RotatableRight, SameKeys;
    RightRotateKeys(t1, sp, order, p);
    SameKeysAgain(t.mem, t1.mem, t'.mem);
    hide HeightAt;
    RightKid(t', sp', order, bh', temp, p);
    Sibling(t', sp', order, bh', temp, p, t'.mem[p].left);
  }

  lemma {:induction false} RightKid(t: Tree, sp: Spans, order: seq<Node?>, bh: Heights, temp: Node?, p: Node?)
    requires Deleting(t, sp, order, bh, temp) && temp != t.root && t.mem[temp].parent == p && p in t.mem
             && t.mem[p].right == temp
    ensures p in sp && t.mem[p].left != temp
  {
  }

  // Case 2, on either side: the short slot moves up.
  lemma {:induction false} RecolorStep(t: Tree, sp: Spans, order: seq<Node?>, bh: Heights, temp: Node?, p: Node?,
      w: Node?)
    returns (bh': Heights)
    requires DeleteLeft(t, sp, order, bh, temp, p, w) || DeleteRight(t, sp, order, bh, temp, p, w)
    requires w in t.mem && !IsRed(t, w) && !IsRed(t, t.mem[w].left) && !IsRed(t, t.mem[w].right)
    ensures Short(Paint(t, w, true), sp, order, bh', p) && p in sp
    ensures SizeOf(sp, p) > SizeOf(sp, temp) && SizeOf(sp, p) <= |order|
    ensures SameKeys(t.mem, Paint(t, w, true).mem)
    ensures IsRed(t, p) ==> IsRed(Paint(t, w, true), p)
  {
    Sibling(t, sp, order, bh, temp, p, w);
    DeleteRecolor(t, sp, order, bh, temp, p, w);
    bh' := LoweredHeights(bh, w, p);
    PaintKeys(t, w, true);
    ParentSize(t, sp, order, temp, p);
    hide LoweredHeights, SameKeys;
    DeletingIsShort(Paint(t, w, true), sp, order, bh', p);
  }

  // Number of nodes below and at x; the sentinel has none.
  ghost function SizeOf(sp: Spans, x: Node?): int {
    if x in sp then sp[x].hi - sp[x].lo else 0
  }

  lemma {:induction false} ParentSize(t: Tree, sp: Spans, order: seq<Node?>, temp: Node?, p: Node?)
    requires Links(t, sp, order) && temp in t.mem && p in sp && (t.mem[p].left == temp || t.mem[p].right == temp)
    ensures SizeOf(sp, p) > SizeOf(sp, temp) && SizeOf(sp, p) <= |order|
  {
    assert LinkAt(t, sp, order, p);
    if temp in sp {
      assert LinkAt(t, sp, order, temp);
    }
  }

  // Case 3 at a left child leads to case 4.
  lemma {:induction false} DeleteInnerLeftStep(t: Tree, sp: Spans, order: seq<Node?>, bh: Heights, temp: Node?,
      p: Node?, w: Node?, v: Node?, t1: Tree)
    returns (sp': Spans, bh': Heights)
    requires InnerLeft(t, sp, order, bh, temp, p, w) && v == t.mem[w].left && t1 == Paint(Paint(t, v, false), w, true)
    ensures RotatableRight(t1, w)
    ensures var t' := RightRotate(t1, w);
            && OuterLeft(t', sp', order, bh', temp, p, v) && SameKeys(t.mem, t'.mem)
            && p in t'.mem && t'.mem[p].right == v
  {
    sp', bh' := DeleteInnerLeft(t, sp, order, bh, temp, p, w, v);
    Sibling(t, sp, order, bh, temp, p, w);
    assert v in sp && v != w && v != t.nil by {
      assert LinkAt(t, sp, order, w);
    }
    PaintTwo(t, sp, order, bh, temp, v, false, w, true);
    PaintKeys2(t, v, false, w, true);
    var t' := RightRotate(t1, w);
    assert t1.mem[w].left != t1.nil;
    hide Paint, RightRotate, RotatableRight, SameKeys, HeightAt;
    RightRotateKeys(t1, sp, order, w);
    SameKeysAgain(t.mem, t1.mem, t'.mem);
    LeftKid(t', sp', order, bh', temp, p);
    Sibling(t', sp', order, bh', temp, p, v);
  }

  lemma {:induction false} LeftKid(t: Tree, sp: Spans, order: seq<Node?>, bh: Heights, temp: Node?, p: Node?)
    requires Deleting(t, sp, order, bh, temp) && temp != t.root && t.mem[temp].parent == p && p in t.mem
             && t.mem[p].left == temp
    ensures p in sp && t.mem[p].right != temp
  {
  }

  // Case 3 at a right child leads to case 4.
  lemma {:induction false} DeleteInnerRightStep(t: Tree, sp: Spans, order: seq<Node?>, bh: Heights, temp: Node?,
      p: Node?, w: Node?, v: Node?, t1: Tree)
    returns (sp': Spans, bh': Heights)
    requires InnerRight(t, sp, order, bh, temp, p, w) && v == t.mem[w].right && t1 == Paint(Paint(t, v, false), w, true)
    ensures RotatableLeft(t1, w)
    ensures var t' := LeftRotate(t1, w);
            && OuterRight(t', sp', order, bh', temp, p, v) && SameKeys(t.mem, t'.mem)
            && p in t'.mem && t'.mem[p].left == v
  {
    DeleteInnerRight(t, sp, order, bh, temp, p, w, v);
    sp', bh' := RotatedSpans(sp, w, v), SwappedHeights(bh, v, w);
    PaintKeys2(t, v, false, w, true);
    var t' := LeftRotate(t1, w);
    LeftRotateKeys(t1, w);
    hide Paint, LeftRotate, RotatableLeft, SameKeys, HeightAt, RotatedSpans, SwappedHeights;
    SameKeysAgain(t.mem, t1.mem, t'.mem);
    RightKid(t', sp', order, bh', temp, p);
    Sibling(t', sp', order, bh', temp, p, v);
  }

  // Case 4 at a left child ends the loop.
  lemma {:induction false} DeleteOuterLeftStep(t: Tree, sp: Spans, order: seq<Node?>, bh: Heights, temp: Node?,
      p: Node?, w: Node?, r: Node?, t1: Tree)
    returns (sp': Spans, bh': Heights)
    requires OuterLeft(t, sp, order, bh, temp, p, w) && r == t.mem[w].right && t1 == OuterPaint(t, p, w, r)
    ensures RotatableLeft(t1, p)
    ensures var t' := LeftRotate(t1, p);
            Short(t', sp', order, bh', t'.root) && SameKeys(t.mem, t'.mem)
  {
    DeleteOuterLeft(t, sp, order, bh, temp, p, w, r);
    sp', bh' := RotatedSpans(sp, p, w), OuterHeights(bh, p, w, r);
    var t' := LeftRotate(t1, p);
    LeftRotateKeys(t1, p);
    OuterKeys(t, p, w, r);
    hide OuterPaint, LeftRotate, RotatedSpans, OuterHeights, SameKeys, RotatableLeft;
    SameKeysAgain(t.mem, t1.mem, t'.mem);
    RedBlackIsDeleting(t', sp', order, bh');
    DeletingIsShort(t', sp', order, bh', t'.root);
  }

  lemma {:induction false} OuterKeys(t: Tree, p: Node?, w: Node?, r: Node?)
    requires p in t.mem && w in t.mem && r in t.mem
    ensures SameKeys(t.mem, OuterPaint(t, p, w, r).mem)
  {
  }

  // Case 4 at a right child ends the loop.
  lemma {:induction false} DeleteOuterRightStep(t: Tree, sp: Spans, order: seq<Node?>, bh: Heights, temp: Node?,
      p: Node?, w: Node?, l: Node?, t1: Tree)
    returns (sp': Spans, bh': Heights)
    requires OuterRight(t, sp, order, bh, temp, p, w) && l == t.mem[w].left && t1 == OuterPaint(t, p, w, l)
    ensures RotatableRight(t1, p)
    ensures var t' := RightRotate(t1, p);
            Short(t', sp', order, bh', t'.root) && SameKeys(t.mem, t'.mem)
  {
    sp', bh' := DeleteOuterRight(t, sp, order, bh, temp, p, w, l);
    Sibling(t, sp, order, bh, temp, p, w);
    assert l in sp && l != w && l != p && w != t.nil by {
      assert LinkAt(t, sp, order, w) && LinkAt(t, sp, order, p);
    }
    OuterPainted(t, sp, order, p, w, l);
    OuterKeys(t, p, w, l);
    var t' := RightRotate(t1, p);
    assert t1.mem[p].left != t1.nil;
    hide OuterPaint, RightRotate, RotatableRight, SameKeys;
    RightRotateKeys(t1, sp, order, p);
    SameKeysAgain(t.mem, t1.mem, t'.mem);
    RedBlackIsDeleting(t', sp', order, bh');
    DeletingIsShort(t', sp', order, bh', t'.root);
  }

  // The nodes of a case are there.
  lemma {:induction false} CaseNodes(t: Tree, sp: Spans, order: seq<Node?>, bh: Heights, temp: Node?, p: Node?,
      w: Node?)
    requires DeleteLeft(t, sp, order, bh, temp, p, w) || DeleteRight(t, sp, order, bh, temp, p, w)
             || InnerLeft(t, sp, order, bh, temp, p, w) || InnerRight(t, sp, order, bh, temp, p, w)
             || OuterLeft(t, sp, order, bh, temp, p, w) || OuterRight(t, sp, order, bh, temp, p, w)
    ensures p in t.mem && w in t.mem && t.mem[w].left in t.mem && t.mem[w].right in t.mem
  {
    SiblingKids(t, sp, order, bh, temp, p, w);
  }
}
