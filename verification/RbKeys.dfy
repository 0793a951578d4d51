// Red-black tree, value level: the order of the keys, which no rebalancing step changes.

module RbKeys {
  import opened RbLinks
  import opened RbColor
  import opened RbMirror

  ghost predicate Sorted(mem: Mem, order: seq<Node?>) {
    && (forall i | 0 <= i < |order| :: order[i] in mem)
    && forall i, j | 0 <= i < j < |order| :: mem[order[i]].key <= mem[order[j]].key
  }

  // Two memories with the same keys.
  ghost predicate SameKeys(m: Mem, m': Mem) {
    && (forall x | x in m :: x in m' && m'[x].key == m[x].key)
    && (forall x | x in m' :: x in m)
  }

  lemma {:induction false} SameKeysAgain(m: Mem, m': Mem, m'': Mem)
    requires SameKeys(m, m') && SameKeys(m', m'')
    ensures SameKeys(m, m'')
  {
  }

  lemma {:induction false} SortedAgain(m: Mem, m': Mem, order: seq<Node?>)
    requires Sorted(m, order) && SameKeys(m, m')
    ensures Sorted(m', order)
  {
  }

  lemma {:induction false} LeftRotateKeys(t: Tree, x: Node?)
    requires RotatableLeft(t, x)
    ensures SameKeys(t.mem, LeftRotate(t, x).mem)
  {
    LeftRotateEffect(t, x);
    hide LeftRotate;
  }

  // A right rotation of a linked tree, seen through its mirror image.
  lemma {:induction false} RightRotateMirrored(t: Tree, sp: Spans, order: seq<Node?>, x: Node?)
    requires Links(t, sp, order) && x in sp && t.mem[x].left != t.nil
    ensures RotatableLeft(Flip(t), x) && RotatableRight(t, x)
    ensures RightRotate(t, x) == Flip(LeftRotate(Flip(t), x))
  {
    FlipKeepsLinks(t, sp, order);
    RotatableLeftFromLinks(Flip(t), FlipSpans(sp, |order|), Reverse(order), x);
    hide Flip;
    MirrorRotation(t, x);
  }

  lemma {:induction false} RightRotateKeys(t: Tree, sp: Spans, order: seq<Node?>, x: Node?)
    requires Links(t, sp, order) && x in sp && t.mem[x].left != t.nil
    ensures RotatableRight(t, x) && SameKeys(t.mem, RightRotate(t, x).mem)
  {
    RightRotateMirrored(t, sp, order, x);
    FlipColors(t);
    FlipColors(LeftRotate(Flip(t), x));
    hide Flip, RotatableLeft, LeftRotate, RightRotate;
    LeftRotateKeys(Flip(t), x);
  }

  lemma {:induction false} PaintKeys(t: Tree, x: Node?, red: bool)
    requires x in t.mem
    ensures SameKeys(t.mem, Paint(t, x, red).mem)
  {
  }

  lemma {:induction false} PaintKeys2(t: Tree, x: Node?, xRed: bool, y: Node?, yRed: bool)
    requires x in t.mem && y in t.mem
    ensures SameKeys(t.mem, Paint(Paint(t, x, xRed), y, yRed).mem)
  {
  }
}
