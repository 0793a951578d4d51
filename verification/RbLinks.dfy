// Red-black tree, value level: the node memory as a map, the rotations on it,
// and the local linkage invariant that makes the memory a binary tree.

module RbLinks {

  class Node {
    var key: nat
    var left: Node?
    var right: Node?
    var parent: Node?
    var red: bool

    constructor (key: nat)
      ensures this.key == key
    {
      this.key := key;
      left, right, parent, red := null, null, null, false;
    }
  }

  // The fields of one node.
  datatype Cell = Cell(key: nat, left: Node?, right: Node?, parent: Node?, red: bool)

  type Mem = map<Node?, Cell>

  // nil is the shared sentinel.
  datatype Tree = Tree(mem: Mem, root: Node?, nil: Node?)

  // The subtree of a node covers order[lo..hi] and the node itself is order[pos].
  datatype Span = Span(lo: int, pos: int, hi: int)

  type Spans = map<Node?, Span>

  function SetLeft(m: Mem, x: Node?, v: Node?): Mem requires x in m { m[x := m[x].(left := v)] }
  function SetRight(m: Mem, x: Node?, v: Node?): Mem requires x in m { m[x := m[x].(right := v)] }
  function SetParent(m: Mem, x: Node?, v: Node?): Mem requires x in m { m[x := m[x].(parent := v)] }
  function SetRed(m: Mem, x: Node?, red: bool): Mem requires x in m { m[x := m[x].(red := red)] }

  // x's left child covers the part of x's span before x.
  ghost predicate LeftAt(t: Tree, sp: Spans, x: Node?)
    requires x in sp && x in t.mem
  {
    var c, i := t.mem[x].left, sp[x];
    if i.lo == i.pos then c == t.nil
    else c in sp && c in t.mem && t.mem[c].parent == x && sp[c].lo == i.lo && sp[c].hi == i.pos
  }

  // x's right child covers the part of x's span after x.
  ghost predicate RightAt(t: Tree, sp: Spans, x: Node?)
    requires x in sp && x in t.mem
  {
    var c, i := t.mem[x].right, sp[x];
    if i.pos + 1 == i.hi then c == t.nil
    else c in sp && c in t.mem && t.mem[c].parent == x && sp[c].lo == i.pos + 1 && sp[c].hi == i.hi
  }

  // x is the root or a child of its parent.
  ghost predicate UpAt(t: Tree, sp: Spans, x: Node?)
    requires x in sp && x in t.mem
  {
    var p := t.mem[x].parent;
    x == t.root || (p in sp && p in t.mem && (t.mem[p].left == x || t.mem[p].right == x))
  }

  ghost predicate LinkAt(t: Tree, sp: Spans, order: seq<Node?>, x: Node?)
    requires x in sp && x in t.mem
  {
    && 0 <= sp[x].lo <= sp[x].pos < sp[x].hi <= |order| && order[sp[x].pos] == x
    && LeftAt(t, sp, x) && RightAt(t, sp, x) && UpAt(t, sp, x)
  }

  // The sentinel, the root and the positions, without the conditions on single nodes.
  ghost predicate Frame(t: Tree, sp: Spans, order: seq<Node?>) {
    && null !in t.mem && t.nil in t.mem && t.nil !in sp
    && (forall x | x in sp :: x in t.mem) && (forall x | x in t.mem && x != t.nil :: x in sp)
    && (if order == [] then t.root == t.nil
        else t.root in sp && sp[t.root].lo == 0 && sp[t.root].hi == |order|)
    && (forall k | 0 <= k < |order| :: order[k] in sp && sp[order[k]].pos == k)
  }

  // The memory of t is a binary tree whose in-order walk is order.
  ghost predicate Links(t: Tree, sp: Spans, order: seq<Node?>) {
    && Frame(t, sp, order)
    && (forall x {:trigger LinkAt(t, sp, order, x)} | x in sp :: LinkAt(t, sp, order, x))
  }

  lemma {:induction false} FrameLinks(t: Tree, sp: Spans, order: seq<Node?>)
    requires Frame(t, sp, order)
    requires forall x {:trigger LinkAt(t, sp, order, x)} | x in sp && x in t.mem :: LinkAt(t, sp, order, x)
    ensures Links(t, sp, order)
  {
    hide LinkAt;
  }

  // ngx_rbtree_left_rotate
  function LeftRotate(t: Tree, x: Node?): Tree
    requires x in t.mem && t.mem[x].right in t.mem && t.mem[t.mem[x].right].left in t.mem
    requires x != t.root ==> t.mem[x].parent in t.mem
  {
    var y := t.mem[x].right;
    var b := t.mem[y].left;
    var t3 := Hang(t.(mem := PassRight(t, x, y, b)), x, y, true);
    t3.(mem := SetParent(SetLeft(t3.mem, y, x), x, y))
  }

  // First half of a rotation at x: b moves from y to x, and y below x's parent.
  function PassRight(t: Tree, x: Node?, y: Node?, b: Node?): Mem
    requires x in t.mem && y in t.mem && b in t.mem
  {
    var m1 := SetRight(t.mem, x, b);
    var m2 := if b != t.nil then SetParent(m1, b, x) else m1;
    SetParent(m2, y, m2[x].parent)
  }

  function PassLeft(t: Tree, x: Node?, y: Node?, b: Node?): Mem
    requires x in t.mem && y in t.mem && b in t.mem
  {
    var m1 := SetLeft(t.mem, x, b);
    var m2 := if b != t.nil then SetParent(m1, b, x) else m1;
    SetParent(m2, y, m2[x].parent)
  }

  // y takes the place of x below x's parent.  The two rotations look for x on
  // different sides first.
  function Hang(t: Tree, x: Node?, y: Node?, leftFirst: bool): Tree
    requires x in t.mem && (x != t.root ==> t.mem[x].parent in t.mem)
  {
    var p := t.mem[x].parent;
    if x == t.root then t.(root := y)
    else if (if leftFirst then x == t.mem[p].left else x != t.mem[p].right) then t.(mem := SetLeft(t.mem, p, y))
    else t.(mem := SetRight(t.mem, p, y))
  }

  function RotatedSpans(sp: Spans, x: Node?, y: Node?): Spans
    requires x in sp && y in sp
  {
    sp[x := sp[x].(hi := sp[y].pos)][y := sp[y].(lo := sp[x].lo)]
  }

  lemma {:induction false} RotatedSpansFacts(sp: Spans, x: Node?, y: Node?)
    requires x in sp && y in sp && x != y
    ensures var sp' := RotatedSpans(sp, x, y);
            && sp'.Keys == sp.Keys && sp'[y] == Span(sp[x].lo, sp[y].pos, sp[y].hi)
            && forall z | z in sp :: sp'[z].pos == sp[z].pos && (z != x && z != y ==> sp'[z] == sp[z])
  {
  }

  lemma {:induction false} RootIsTop(t: Tree, sp: Spans, order: seq<Node?>, x: Node?)
    requires Links(t, sp, order) && x in sp && x != t.root
    ensures var p := t.mem[x].parent;
            && p in sp && p in t.mem && p != x && LinkAt(t, sp, order, p)
            && (t.mem[p].left == x <==> sp[x].pos < sp[p].pos)
            && (t.mem[p].right == x <==> sp[x].pos > sp[p].pos)
            && (t.mem[p].left == x || t.mem[p].right == x) && t.mem[p].left != t.mem[p].right
  {
    assert LinkAt(t, sp, order, x);
    var p := t.mem[x].parent;
    assert LinkAt(t, sp, order, p);
  }

  // The fields of z after rotating x, its right child y and y's left subtree b.
  ghost function LeftRotated(t: Tree, x: Node?, y: Node?, b: Node?, z: Node?): Cell
    requires x in t.mem && y in t.mem && z in t.mem
  {
    var c, p := t.mem[z], t.mem[x].parent;
    Cell(c.key,
      if z == y then x else if x != t.root && z == p && c.left == x then y else c.left,
      if z == x then b else if x != t.root && z == p && c.left != x then y else c.right,
      if z == x then y else if z == y then p else if z == b && b != t.nil then x else c.parent,
      c.red)
  }

  // The nodes that a rotation at x touches are there and distinct.
  ghost predicate RotatableLeft(t: Tree, x: Node?) {
    && x in t.mem && t.mem[x].right in t.mem && t.mem[t.mem[x].right].left in t.mem
    && var y := t.mem[x].right;
    && var b := t.mem[y].left;
    && x != y && x != b && y != b
    && (x != t.root ==> var p := t.mem[x].parent; p in t.mem && p != x && p != y && p != b)
  }

  lemma {:induction false} PassRightAt(t: Tree, x: Node?, y: Node?, b: Node?, z: Node?)
    requires x in t.mem && y in t.mem && b in t.mem && z in t.mem && x != y && x != b && y != b
    ensures z in PassRight(t, x, y, b)
    ensures PassRight(t, x, y, b)[z] == (if z == x then t.mem[x].(right := b)
                                         else if z == y then t.mem[y].(parent := t.mem[x].parent)
                                         else if z == b && b != t.nil then t.mem[b].(parent := x) else t.mem[z])
  {
  }

  lemma {:induction false} LeftRotateNode(t: Tree, x: Node?, z: Node?)
    requires RotatableLeft(t, x) && z in t.mem
    ensures z in LeftRotate(t, x).mem
    ensures LeftRotate(t, x).mem[z] == LeftRotated(t, x, t.mem[x].right, t.mem[t.mem[x].right].left, z)
  {
    var y := t.mem[x].right;
    var b := t.mem[y].left;
    var m := PassRight(t, x, y, b);
    PassRightAt(t, x, y, b, x);
    PassRightAt(t, x, y, b, z);
    if x != t.root {
      PassRightAt(t, x, y, b, t.mem[x].parent);
    }
    hide PassRight;
    var t3 := Hang(t.(mem := m), x, y, true);
    assert t3.mem[z] == (if z == x then t.mem[x].(right := b)
                         else if z == y then t.mem[y].(parent := t.mem[x].parent)
                         else LeftRotated(t, x, y, b, z));
  }

  lemma {:induction false} LeftRotateEffect(t: Tree, x: Node?)
    requires RotatableLeft(t, x)
    ensures IsLeftRotated(t, LeftRotate(t, x), x)
  {
    hide LeftRotated;
    var t' := LeftRotate(t, x);
    assert forall z | z in t'.mem :: z in t.mem;
    forall z | z in t.mem
      ensures z in t'.mem && t'.mem[z] == LeftRotated(t, x, t.mem[x].right, t.mem[t.mem[x].right].left, z)
    {
      LeftRotateNode(t, x, z);
    }
  }

  lemma {:induction false} RotatableLeftFromLinks(t: Tree, sp: Spans, order: seq<Node?>, x: Node?)
    requires Links(t, sp, order) && x in sp && t.mem[x].right != t.nil
    ensures RotatableLeft(t, x) && t.mem[x].right in sp
    ensures sp[t.mem[x].right].lo == sp[x].pos + 1 && sp[t.mem[x].right].hi == sp[x].hi
  {
    assert LinkAt(t, sp, order, x);
    var y := t.mem[x].right;
    assert LinkAt(t, sp, order, y);
    var b := t.mem[y].left;
    if b != t.nil {
      assert LinkAt(t, sp, order, b);
    }
    if x != t.root {
      RootIsTop(t, sp, order, x);
    }
  }

  // t' is t after the rotation, as LeftRotateEffect gives it.
  ghost predicate IsLeftRotated(t: Tree, t': Tree, x: Node?)
    requires RotatableLeft(t, x)
  {
    var y := t.mem[x].right;
    && t'.mem.Keys == t.mem.Keys && t'.nil == t.nil && t'.root == (if x == t.root then y else t.root)
    && forall z | z in t.mem :: t'.mem[z] == LeftRotated(t, x, y, t.mem[y].left, z)
  }

  ghost predicate LinkedAround(t: Tree, sp: Spans, order: seq<Node?>, x: Node?, y: Node?, b: Node?, z: Node?) {
    && Links(t, sp, order)
    && x in sp && y in sp && z in sp && t.mem[x].right == y && t.mem[y].left == b
    && LinkAt(t, sp, order, x) && LinkAt(t, sp, order, y) && LinkAt(t, sp, order, z)
    && (b != t.nil ==> b in sp && LinkAt(t, sp, order, b))
    && (x != t.root ==>
          var p := t.mem[x].parent;
          && p in sp && LinkAt(t, sp, order, p)
          && (t.mem[p].left == x <==> sp[x].pos < sp[p].pos)
          && (t.mem[p].right == x <==> sp[x].pos > sp[p].pos))
  }

  lemma {:induction false} LeftRotateLeftAt(t: Tree, sp: Spans, order: seq<Node?>, x: Node?, y: Node?, b: Node?,
      t': Tree, z: Node?)
    requires LinkedAround(t, sp, order, x, y, b, z) && RotatableLeft(t, x) && IsLeftRotated(t, t', x)
    ensures LeftAt(t', RotatedSpans(sp, x, y), z)
  {
  }

  lemma {:induction false} LeftRotateRightAt(t: Tree, sp: Spans, order: seq<Node?>, x: Node?, y: Node?, b: Node?,
      t': Tree, z: Node?)
    requires LinkedAround(t, sp, order, x, y, b, z) && RotatableLeft(t, x) && IsLeftRotated(t, t', x)
    ensures RightAt(t', RotatedSpans(sp, x, y), z)
  {
  }

  lemma {:induction false} LeftRotateUpAt(t: Tree, sp: Spans, order: seq<Node?>, x: Node?, y: Node?, b: Node?,
      t': Tree, z: Node?)
    requires LinkedAround(t, sp, order, x, y, b, z) && RotatableLeft(t, x) && IsLeftRotated(t, t', x)
    ensures UpAt(t', RotatedSpans(sp, x, y), z)
  {
  }

  lemma {:induction false} LeftRotateLinkAt(t: Tree, sp: Spans, order: seq<Node?>, x: Node?, t': Tree, z: Node?)
    requires Links(t, sp, order) && x in sp && t.mem[x].right != t.nil && RotatableLeft(t, x) && t.mem[x].right in sp
    requires IsLeftRotated(t, t', x) && z in sp
    ensures LinkAt(t', RotatedSpans(sp, x, t.mem[x].right), order, z)
  {
    var y := t.mem[x].right;
    var b := t.mem[y].left;
    assert LinkAt(t, sp, order, x) && LinkAt(t, sp, order, y) && LinkAt(t, sp, order, z);
    if b != t.nil {
      assert LinkAt(t, sp, order, b);
    }
    if x != t.root {
      RootIsTop(t, sp, order, x);
    }
    LeftRotateLeftAt(t, sp, order, x, y, b, t', z);
    LeftRotateRightAt(t, sp, order, x, y, b, t', z);
    LeftRotateUpAt(t, sp, order, x, y, b, t', z);
  }

  lemma {:induction false} RightSpan(t: Tree, sp: Spans, order: seq<Node?>, x: Node?)
    requires Links(t, sp, order) && x in sp && t.mem[x].right != t.nil
    ensures t.mem[x].right in sp && sp[t.mem[x].right].lo > 0 && sp[t.mem[x].right].hi == sp[x].hi
  {
    assert LinkAt(t, sp, order, x);
  }

  lemma {:induction false} RotatableNodes(t: Tree, x: Node?)
    requires RotatableLeft(t, x)
    ensures x in t.mem && t.mem[x].right in t.mem && t.mem[t.mem[x].right].left in t.mem && x != t.mem[x].right
    ensures x != t.root ==> t.mem[x].parent in t.mem
  {
  }

  lemma {:induction false} LeftRotateKeepsLinks(t: Tree, sp: Spans, order: seq<Node?>, x: Node?)
    requires Links(t, sp, order) && x in sp && t.mem[x].right != t.nil
    ensures RotatableLeft(t, x) && t.mem[x].right in sp
    ensures Links(LeftRotate(t, x), RotatedSpans(sp, x, t.mem[x].right), order)
  {
    hide LeftRotate, LinkAt, LeftRotated, RotatableLeft, RotatedSpans;
    RotatableLeftFromLinks(t, sp, order, x);
    RotatableNodes(t, x);
    RightSpan(t, sp, order, x);
    LeftRotateEffect(t, x);
    var t', sp' := LeftRotate(t, x), RotatedSpans(sp, x, t.mem[x].right);
    RotatedSpansFacts(sp, x, t.mem[x].right);
    forall z | z in sp'
      ensures LinkAt(t', sp', order, z)
    {
      LeftRotateLinkAt(t, sp, order, x, t', z);
    }
  }

  predicate RotatableRight(t: Tree, x: Node?) {
    && x in t.mem && t.mem[x].left in t.mem && t.mem[t.mem[x].left].right in t.mem
    && (x != t.root ==> t.mem[x].parent in t.mem)
  }

  // ngx_rbtree_right_rotate
  function RightRotate(t: Tree, x: Node?): Tree
    requires RotatableRight(t, x)
  {
    var y := t.mem[x].left;
    var b := t.mem[y].right;
    var t3 := Hang(t.(mem := PassLeft(t, x, y, b)), x, y, false);
    t3.(mem := SetParent(SetRight(t3.mem, y, x), x, y))
  }

  // The mirror image of a tree, its spans and its order.

  function FlipCell(c: Cell): Cell {
    Cell(c.key, c.right, c.left, c.parent, c.red)
  }

  ghost function FlipMem(m: Mem): Mem {
    map x | x in m :: FlipCell(m[x])
  }

  ghost function Flip(t: Tree): Tree {
    Tree(FlipMem(t.mem), t.root, t.nil)
  }

  ghost function FlipSpans(sp: Spans, n: int): Spans {
    map x | x in sp :: Span(n - sp[x].hi, n - 1 - sp[x].pos, n - sp[x].lo)
  }

  ghost function Reverse(order: seq<Node?>): (r: seq<Node?>)
    ensures |r| == |order|
    ensures forall i | 0 <= i < |r| :: r[i] == order[|order| - 1 - i]
  {
    seq(|order|, i requires 0 <= i < |order| => order[|order| - 1 - i])
  }

  lemma {:induction false} FlipTwice(t: Tree, sp: Spans, order: seq<Node?>)
    ensures Flip(Flip(t)) == t
    ensures FlipSpans(FlipSpans(sp, |order|), |order|) == sp
    ensures Reverse(Reverse(order)) == order
  {
    assert FlipMem(FlipMem(t.mem)) == t.mem;
    assert FlipSpans(FlipSpans(sp, |order|), |order|) == sp;
    assert Reverse(Reverse(order)) == order;
  }

  lemma {:induction false} FlipKeepsLinks(t: Tree, sp: Spans, order: seq<Node?>)
    requires Links(t, sp, order)
    ensures Links(Flip(t), FlipSpans(sp, |order|), Reverse(order))
  {
    hide LinkAt;
    var t', sp', order' := Flip(t), FlipSpans(sp, |order|), Reverse(order);
    forall x | x in sp'
      ensures LinkAt(t', sp', order', x)
    {
      assert LinkAt(t, sp, order, x);
      FlipLinkAt(t, sp, order, x);
    }
  }

  lemma {:induction false} FlipLinkAt(t: Tree, sp: Spans, order: seq<Node?>, x: Node?)
    requires x in sp && x in t.mem && LinkAt(t, sp, order, x)
    ensures LinkAt(Flip(t), FlipSpans(sp, |order|), Reverse(order), x)
  {
  }

  lemma {:induction false} FlipUpdate(m: Mem, x: Node?, c: Cell)
    requires x in m
    ensures x in FlipMem(m) && FlipMem(m)[x] == FlipCell(m[x])
    ensures FlipMem(m[x := c]) == FlipMem(m)[x := FlipCell(c)]
  {
  }

  lemma {:induction false} FlipSetters(m: Mem, x: Node?, v: Node?, red: bool)
    requires x in m
    ensures x in FlipMem(m)
    ensures FlipMem(SetLeft(m, x, v)) == SetRight(FlipMem(m), x, v)
    ensures FlipMem(SetRight(m, x, v)) == SetLeft(FlipMem(m), x, v)
    ensures FlipMem(SetParent(m, x, v)) == SetParent(FlipMem(m), x, v)
    ensures FlipMem(SetRed(m, x, red)) == SetRed(FlipMem(m), x, red)
  {
    hide FlipMem;
    FlipUpdate(m, x, m[x].(left := v));
    FlipUpdate(m, x, m[x].(right := v));
    FlipUpdate(m, x, m[x].(parent := v));
    FlipUpdate(m, x, m[x].(red := red));
  }

  lemma {:induction false} RightRotateIsFlipped(t: Tree, x: Node?)
    requires RotatableLeft(Flip(t), x)
    ensures RotatableRight(t, x)
    ensures Flip(RightRotate(t, x)) == LeftRotate(Flip(t), x)
  {
    var y := t.mem[x].left;
    var b := t.mem[y].right;
    var p := t.mem[x].parent;
    var m1 := SetLeft(t.mem, x, b);
    FlipSetters(t.mem, x, b, false);
    var m2 := if b != t.nil then SetParent(m1, b, x) else m1;
    FlipSetters(m1, b, x, false);
    var m3 := SetParent(m2, y, p);
    FlipSetters(m2, y, p, false);
    var m4 := if x == t.root then m3 else if x == m3[p].right then SetRight(m3, p, y) else SetLeft(m3, p, y);
    if x != t.root {
      FlipSetters(m3, p, y, false);
    }
    var m5 := SetRight(m4, y, x);
    FlipSetters(m4, y, x, false);
    FlipSetters(m5, x, y, false);
    hide FlipMem;
    assert RightRotate(t, x).mem == SetParent(m5, x, y);
  }
}
