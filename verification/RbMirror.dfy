// Red-black tree, value level: every case at a right child is the mirror image
// of the same case at a left child.

module RbMirror {
  import opened RbLinks
  import opened RbColor
  import opened RbDelete

  lemma {:induction false} FlipHeightAt(t: Tree, bh: Heights, temp: Node?, x: Node?)
    requires x in t.mem && x in bh
    ensures x in Flip(t).mem && HeightAt(Flip(t), bh, temp, x) == HeightAt(t, bh, temp, x)
  {
    FlipAt(t, x);
    FlipAt(t, temp);
    hide Flip;
  }

  lemma {:induction false} FlipAt(t: Tree, x: Node?)
    ensures x in Flip(t).mem <==> x in t.mem
    ensures x in t.mem ==> Flip(t).mem[x] == FlipCell(t.mem[x])
  {
  }

  lemma {:induction false} FlipRedAt(t: Tree, x: Node?, child: Node?)
    requires x in t.mem
    ensures x in Flip(t).mem && RedAt(Flip(t), x, child) == RedAt(t, x, child)
  {
  }

  lemma {:induction false} FlipColors(t: Tree)
    ensures Flip(t).root == t.root && Flip(t).nil == t.nil
    ensures forall z | z in t.mem :: z in Flip(t).mem && Flip(t).mem[z] == FlipCell(t.mem[z])
    ensures forall z | z in Flip(t).mem :: z in t.mem
    ensures forall z :: IsRed(Flip(t), z) == IsRed(t, z)
  {
  }

  lemma {:induction false} FlipBalanced(t: Tree, bh: Heights, temp: Node?)
    requires Balanced(t, bh, temp)
    ensures Balanced(Flip(t), bh, temp)
  {
    FlipColors(t);
    hide HeightAt, Flip;
    forall z | z in t.mem && z != t.nil
      ensures HeightAt(Flip(t), bh, temp, z)
    {
      assert HeightAt(t, bh, temp, z);
      FlipHeightAt(t, bh, temp, z);
    }
  }

  lemma {:induction false} FlipRedRule(t: Tree, child: Node?, parent: Node?)
    requires RedRule(t, child, parent)
    ensures RedRule(Flip(t), child, parent)
  {
    FlipColors(t);
    hide RedAt, Flip;
    forall z | z in t.mem && z != t.nil && z != parent
      ensures RedAt(Flip(t), z, child)
    {
      assert RedAt(t, z, child);
      FlipRedAt(t, z, child);
    }
  }

  lemma {:induction false} FlipInserting(t: Tree, sp: Spans, order: seq<Node?>, bh: Heights, node: Node?)
    requires Inserting(t, sp, order, bh, node)
    ensures Inserting(Flip(t), FlipSpans(sp, |order|), Reverse(order), bh, node)
  {
    FlipKeepsLinks(t, sp, order);
    FlipBalanced(t, bh, null);
    FlipRedRule(t, node, null);
    FlipColors(t);
    assert node in FlipSpans(sp, |order|);
    hide Flip, Links, Balanced, RedRule;
  }

  lemma {:induction false} FlipDeleting(t: Tree, sp: Spans, order: seq<Node?>, bh: Heights, temp: Node?)
    requires Deleting(t, sp, order, bh, temp)
    ensures Deleting(Flip(t), FlipSpans(sp, |order|), Reverse(order), bh, temp)
  {
    FlipKeepsLinks(t, sp, order);
    FlipBalanced(t, bh, temp);
    FlipRedRule(t, null, temp);
    FlipColors(t);
    assert forall z | z in sp :: z in FlipSpans(sp, |order|) && z in t.mem;
    hide Flip, FlipSpans, Links, Balanced, RedRule;
  }

  lemma {:induction false} FlipRedBlack(t: Tree, sp: Spans, order: seq<Node?>, bh: Heights)
    requires RedBlack(t, sp, order, bh)
    ensures RedBlack(Flip(t), FlipSpans(sp, |order|), Reverse(order), bh)
  {
    FlipKeepsLinks(t, sp, order);
    FlipBalanced(t, bh, null);
    FlipRedRule(t, null, null);
    FlipColors(t);
    hide Flip, FlipSpans, Links, Balanced, RedRule;
  }

  lemma {:induction false} FlipPaint(t: Tree, x: Node?, red: bool)
    requires x in t.mem
    ensures x in Flip(t).mem && Flip(Paint(t, x, red)) == Paint(Flip(t), x, red)
  {
    FlipSetters(t.mem, x, null, red);
  }

  // A result about a left rotation of the mirror image, read back.
  lemma {:induction false} MirrorRotation(t: Tree, x: Node?)
    requires RotatableLeft(Flip(t), x)
    ensures RotatableRight(t, x) && RightRotate(t, x) == Flip(LeftRotate(Flip(t), x))
  {
    RightRotateIsFlipped(t, x);
    FlipTwice(RightRotate(t, x), map[], []);
  }

  // Case 3 of insertion at a left child.
  lemma {:induction false} InsertOuterLeft(t: Tree, sp: Spans, order: seq<Node?>, bh: Heights, node: Node?,
      p: Node?, g: Node?)
    returns (sp': Spans, bh': Heights)
    requires Inserting(t, sp, order, bh, node) && node != t.root && p == t.mem[node].parent && IsRed(t, p)
    requires p in sp && g == t.mem[p].parent && g in sp && t.mem[g].left == p && t.mem[p].left == node
    requires !IsRed(t, t.mem[g].right)
    ensures var t1 := Paint(Paint(t, p, false), g, true);
            && RotatableRight(t1, g)
            && var t' := RightRotate(t1, g);
            && Inserting(t', sp', order, bh', node)
            && t'.mem[node].parent == p && !IsRed(t', p) && node != t'.root
  {
    var f, fs, fo := Flip(t), FlipSpans(sp, |order|), Reverse(order);
    FlipInserting(t, sp, order, bh, node);
    FlipColors(t);
    assert p in fs && g in fs;
    FlipPaint(t, p, false);
    var t0 := Paint(t, p, false);
    FlipPaint(t0, g, true);
    var t1 := Paint(t0, g, true);
    hide Flip, FlipSpans, RotatableLeft, LeftRotate, RightRotate, Inserting, Paint;
    InsertOuterRight(f, fs, fo, bh, node, p, g);
    MirrorRotation(t1, g);
    var f' := LeftRotate(Flip(t1), g);
    sp', bh' := RotatedSpans(fs, g, p), SwappedHeights(bh, p, g);
    FlipInserting(f', sp', fo, bh', node);
    assert node in f'.mem by { InsertingInside(f', sp', fo, bh', node); }
    FlipColors(f');
    FlipTwice(t, sp, order);
    sp' := FlipSpans(sp', |order|);
  }

  lemma {:induction false} InsertingInside(t: Tree, sp: Spans, order: seq<Node?>, bh: Heights, node: Node?)
    requires Inserting(t, sp, order, bh, node)
    ensures node in t.mem && node in sp
  {
  }

  // Case 1 of deletion at a right child.
  lemma {:induction false} DeleteRedSiblingRight(t: Tree, sp: Spans, order: seq<Node?>, bh: Heights, temp: Node?,
      p: Node?, w: Node?)
    returns (sp': Spans, bh': Heights)
    requires Deleting(t, sp, order, bh, temp) && temp != t.root && !IsRed(t, temp) && p == t.mem[temp].parent
    requires p in sp && t.mem[p].right == temp && t.mem[p].left == w && IsRed(t, w)
    ensures w in t.mem
    ensures var t1 := Paint(Paint(t, w, false), p, true);
            && RotatableRight(t1, p)
            && var t' := RightRotate(t1, p);
            && Deleting(t', sp', order, bh', temp)
            && temp != t'.root && t'.mem[temp].parent == p && p in t'.mem && t'.mem[p].right == temp
            && IsRed(t', p) && !IsRed(t', t'.mem[p].left) && !IsRed(t', temp)
  {
    var f, fs, fo := Flip(t), FlipSpans(sp, |order|), Reverse(order);
    FlipDeleting(t, sp, order, bh, temp);
    FlipColors(t);
    assert p in fs && temp in f.mem;
    FlipPaint(t, w, false);
    var t0 := Paint(t, w, false);
    FlipPaint(t0, p, true);
    var t1 := Paint(t0, p, true);
    hide Flip, FlipSpans, RotatableLeft, LeftRotate, RightRotate, Deleting, Paint;
    DeleteRedSiblingLeft(f, fs, fo, bh, temp, p, w);
    MirrorRotation(t1, p);
    var f' := LeftRotate(Flip(t1), p);
    sp', bh' := RotatedSpans(fs, p, w), SwappedHeights(bh, w, p);
    FlipDeleting(f', sp', fo, bh', temp);
    assert temp in f'.mem && p in f'.mem by { assert IsRed(f', p); FlipHas(f', sp', fo, bh', temp); }
    FlipColors(f');
    FlipTwice(t, sp, order);
    sp' := FlipSpans(sp', |order|);
  }

  lemma {:induction false} FlipHas(t: Tree, sp: Spans, order: seq<Node?>, bh: Heights, temp: Node?)
    requires Deleting(t, sp, order, bh, temp)
    ensures temp in t.mem
  {
  }

  // Case 3 of deletion at a left child.
  lemma {:induction false} DeleteInnerLeft(t: Tree, sp: Spans, order: seq<Node?>, bh: Heights, temp: Node?,
      p: Node?, w: Node?, v: Node?)
    returns (sp': Spans, bh': Heights)
    requires Deleting(t, sp, order, bh, temp) && temp != t.root && !IsRed(t, temp) && p == t.mem[temp].parent
    requires p in sp && t.mem[p].left == temp && t.mem[p].right == w && w in sp && !IsRed(t, w)
    requires v == t.mem[w].left && IsRed(t, v) && !IsRed(t, t.mem[w].right)
    ensures v in t.mem
    ensures var t1 := Paint(Paint(t, v, false), w, true);
            && RotatableRight(t1, w)
            && var t' := RightRotate(t1, w);
            && Deleting(t', sp', order, bh', temp)
            && temp != t'.root && t'.mem[temp].parent == p && p in t'.mem && t'.mem[p].left == temp
                  && t'.mem[p].right == v
            && v in t'.mem && !IsRed(t', v) && t'.mem[v].right == w && IsRed(t', w) && !IsRed(t', temp)
  {
    var f, fs, fo := Flip(t), FlipSpans(sp, |order|), Reverse(order);
    FlipDeleting(t, sp, order, bh, temp);
    FlipColors(t);
    assert p in fs && w in fs && temp in f.mem;
    FlipPaint(t, v, false);
    var t0 := Paint(t, v, false);
    FlipPaint(t0, w, true);
    var t1 := Paint(t0, w, true);
    hide Flip, FlipSpans, RotatableLeft, LeftRotate, RightRotate, Deleting, Paint;
    DeleteInnerRight(f, fs, fo, bh, temp, p, w, v);
    MirrorRotation(t1, w);
    var f' := LeftRotate(Flip(t1), w);
    sp', bh' := RotatedSpans(fs, w, v), SwappedHeights(bh, v, w);
    FlipDeleting(f', sp', fo, bh', temp);
    assert temp in f'.mem && p in f'.mem && v in f'.mem by { FlipHasParent(f', sp', fo, bh', temp, p, v); }
    FlipColors(f');
    FlipTwice(t, sp, order);
    sp' := FlipSpans(sp', |order|);
  }

  lemma {:induction false} FlipHasParent(t: Tree, sp: Spans, order: seq<Node?>, bh: Heights, temp: Node?, p: Node?,
      v: Node?)
    requires Deleting(t, sp, order, bh, temp) && temp != t.root && t.mem[temp].parent == p && p in t.mem
             && t.mem[p].left == v
    ensures temp in t.mem && p in t.mem && v in t.mem
  {
    assert LinkAt(t, sp, order, p);
  }

  // Case 4 of deletion at a right child.
  lemma {:induction false} DeleteOuterRight(t: Tree, sp: Spans, order: seq<Node?>, bh: Heights, temp: Node?,
      p: Node?, w: Node?, l: Node?)
    returns (sp': Spans, bh': Heights)
    requires Deleting(t, sp, order, bh, temp) && temp != t.root && !IsRed(t, temp) && p == t.mem[temp].parent
    requires p in sp && t.mem[p].right == temp && t.mem[p].left == w && w in sp && !IsRed(t, w)
    requires l == t.mem[w].left && IsRed(t, l)
    ensures var t1 := OuterPaint(t, p, w, l);
            RotatableRight(t1, p) && RedBlack(RightRotate(t1, p), sp', order, bh')
  {
    var f, fs, fo := Flip(t), FlipSpans(sp, |order|), Reverse(order);
    FlipDeleting(t, sp, order, bh, temp);
    FlipColors(t);
    assert p in fs && w in fs && temp in f.mem;
    FlipPaint(t, w, t.mem[p].red);
    var t0 := Paint(t, w, t.mem[p].red);
    FlipPaint(t0, p, false);
    FlipPaint(Paint(t0, p, false), l, false);
    var t1 := OuterPaint(t, p, w, l);
    assert Flip(t1) == OuterPaint(f, p, w, l);
    hide Flip, FlipSpans, RotatableLeft, LeftRotate, RightRotate, Deleting, Paint, OuterPaint, RedBlack;
    DeleteOuterLeft(f, fs, fo, bh, temp, p, w, l);
    MirrorRotation(t1, p);
    sp', bh' := RotatedSpans(fs, p, w), OuterHeights(bh, p, w, l);
    FlipRedBlack(LeftRotate(Flip(t1), p), sp', fo, bh');
    FlipTwice(t, sp, order);
    sp' := FlipSpans(sp', |order|);
  }
}
