// ngx_rbtree: the red-black tree with a shared sentinel, updated in place.

module RbTree {
  import opened RbLinks
  import opened RbColor
  import opened RbDelete
  import opened RbMirror
  import opened RbEdit
  import opened RbReplace
  import opened RbKeys
  import opened RbFixup

  // The fixup works on node, its red parent p and its grandparent g, with a black uncle.

  ghost predicate LeftCase(t: Tree, sp: Spans, order: seq<Node?>, bh: Heights, node: Node?, p: Node?, g: Node?) {
    && Inserting(t, sp, order, bh, node) && node != t.root && p == t.mem[node].parent && IsRed(t, p)
    && p in sp && g == t.mem[p].parent && g in sp && t.mem[g].left == p
    && t.mem[g].right in t.mem && !IsRed(t, t.mem[g].right)
  }

  ghost predicate RightCase(t: Tree, sp: Spans, order: seq<Node?>, bh: Heights, node: Node?, p: Node?, g: Node?) {
    && Inserting(t, sp, order, bh, node) && node != t.root && p == t.mem[node].parent && IsRed(t, p)
    && p in sp && g == t.mem[p].parent && g in sp && t.mem[g].right == p
    && t.mem[g].left in t.mem && !IsRed(t, t.mem[g].left)
  }

  // Case 1 of insertion, on either side.
  lemma {:induction false} RecolorUpStep(t: Tree, sp: Spans, order: seq<Node?>, bh: Heights, node: Node?, p: Node?,
      u: Node?, g: Node?)
    returns (bh': Heights)
    requires Inserting(t, sp, order, bh, node) && node != t.root && node in t.mem && p == t.mem[node].parent
             && Uncle(t, bh, p, u, g)
    ensures p in t.mem && u in t.mem && g in t.mem
    ensures Inserting(Recolor(t, p, u, g), sp, order, bh', g) && SameKeys(t.mem, Recolor(t, p, u, g).mem)
    ensures Recolor(t, p, u, g) == t.(mem := SetRed(SetRed(SetRed(t.mem, p, false), u, false), g, true))
    ensures node in sp && g in sp && SizeOf(sp, g) > SizeOf(sp, node)
  {
    UncleSpans(t, sp, order, bh, node, p, u, g);
    InsertRecolor(t, sp, order, bh, node, p, u, g);
    GrowsUp(t, sp, order, node);
    GrowsUp(t, sp, order, p);
    bh' := RecoloredHeights(bh, p, u);
  }

  // The violation is gone, except perhaps for a red root.
  ghost predicate Settled(t: Tree, sp: Spans, order: seq<Node?>, bh: Heights, node: Node?) {
    Inserting(t, sp, order, bh, node) && (node == t.root || !IsRed(t, t.mem[node].parent))
  }

  // Case 2 of insertion at a left child leads to case 3.
  lemma {:induction false} InnerLeftStep(t: Tree, sp: Spans, order: seq<Node?>, bh: Heights, node: Node?, p: Node?,
      g: Node?)
    returns (sp': Spans)
    requires LeftCase(t, sp, order, bh, node, p, g) && t.mem[p].right == node
    ensures RotatableLeft(t, p)
    ensures var t' := LeftRotate(t, p);
            && LeftCase(t', sp', order, bh, p, node, g) && SameKeys(t.mem, t'.mem)
            && p in t'.mem && node in t'.mem && t'.mem[p].parent == node && t'.mem[node].left == p
  {
    GrandparentExists(t, sp, order, bh, node);
    assert LinkAt(t, sp, order, g) && LinkAt(t, sp, order, p) && p != t.root;
    RotationOf(t, sp, order, p);
    InsertInnerLeft(t, sp, order, bh, node, p);
    LeftRotateKeys(t, p);
    var t', b := LeftRotate(t, p), t.mem[node].left;
    RotationColors(t, sp, order, p, node, b, t');
    RotatedSpansFacts(sp, p, node);
    sp' := RotatedSpans(sp, p, node);
    hide LeftRotate, RotatedSpans, LinkAt, Inserting, RotatableLeft;
    assert t'.mem[p] == LeftRotated(t, p, node, b, p);
    assert t'.mem[node] == LeftRotated(t, p, node, b, node);
    assert t'.mem[g] == LeftRotated(t, p, node, b, g);
  }

  lemma {:induction false} FlipRightCase(t: Tree, sp: Spans, order: seq<Node?>, bh: Heights, node: Node?, p: Node?,
      g: Node?)
    requires RightCase(t, sp, order, bh, node, p, g)
    ensures LeftCase(Flip(t), FlipSpans(sp, |order|), Reverse(order), bh, node, p, g)
  {
    FlipInserting(t, sp, order, bh, node);
    FlipColors(t);
    assert p in FlipSpans(sp, |order|) && g in FlipSpans(sp, |order|);
    hide Flip, FlipSpans;
  }

  lemma {:induction false} FlipLeftCase(t: Tree, sp: Spans, order: seq<Node?>, bh: Heights, node: Node?, p: Node?,
      g: Node?)
    requires LeftCase(t, sp, order, bh, node, p, g)
    ensures RightCase(Flip(t), FlipSpans(sp, |order|), Reverse(order), bh, node, p, g)
  {
    FlipInserting(t, sp, order, bh, node);
    FlipColors(t);
    assert p in FlipSpans(sp, |order|) && g in FlipSpans(sp, |order|);
    hide Flip, FlipSpans;
  }

  // Case 2 of insertion at a right child leads to case 3.
  lemma {:induction false} InnerRightStep(t: Tree, sp: Spans, order: seq<Node?>, bh: Heights, node: Node?,
      p: Node?, g: Node?)
    returns (sp': Spans)
    requires RightCase(t, sp, order, bh, node, p, g) && t.mem[p].left == node
    ensures RotatableRight(t, p)
    ensures var t' := RightRotate(t, p);
            && RightCase(t', sp', order, bh, p, node, g) && SameKeys(t.mem, t'.mem)
            && p in t'.mem && node in t'.mem && t'.mem[p].parent == node && t'.mem[node].right == p
  {
    FlipRightCase(t, sp, order, bh, node, p, g);
    FlipColors(t);
    hide Flip, FlipSpans, LeftRotate, RightRotate, RotatableLeft, Inserting;
    sp' := InnerLeftStep(Flip(t), FlipSpans(sp, |order|), Reverse(order), bh, node, p, g);
    var f' := LeftRotate(Flip(t), p);
    MirrorRotation(t, p);
    FlipLeftCase(f', sp', Reverse(order), bh, p, node, g);
    FlipColors(f');
    FlipTwice(t, sp, order);
    sp' := FlipSpans(sp', |order|);
  }

  // Case 3 of insertion at a right child ends the loop.
  lemma {:induction false} OuterRightStep(t: Tree, sp: Spans, order: seq<Node?>, bh: Heights, node: Node?,
      p: Node?, g: Node?, t1: Tree)
    returns (sp': Spans, bh': Heights)
    requires RightCase(t, sp, order, bh, node, p, g) && t.mem[p].right == node
    requires t1 == Paint(Paint(t, p, false), g, true)
    ensures RotatableLeft(t1, g)
    ensures var t' := LeftRotate(t1, g);
            Settled(t', sp', order, bh', node) && SameKeys(t.mem, t'.mem)
  {
    InsertOuterRight(t, sp, order, bh, node, p, g);
    sp', bh' := RotatedSpans(sp, g, p), SwappedHeights(bh, p, g);
    PaintTwo(t, sp, order, bh, null, p, false, g, true);
    hide Inserting, Paint, LeftRotate;
    LeftRotateKeys(t1, g);
    InsertingInside(LeftRotate(t1, g), sp', order, bh', node);
  }

  // Case 3 of insertion at a left child ends the loop.
  lemma {:induction false} OuterLeftStep(t: Tree, sp: Spans, order: seq<Node?>, bh: Heights, node: Node?, p: Node?,
      g: Node?, t1: Tree)
    returns (sp': Spans, bh': Heights)
    requires LeftCase(t, sp, order, bh, node, p, g) && t.mem[p].left == node
    requires t1 == Paint(Paint(t, p, false), g, true)
    ensures RotatableRight(t1, g)
    ensures var t' := RightRotate(t1, g);
            Settled(t', sp', order, bh', node) && SameKeys(t.mem, t'.mem)
  {
    GrandparentExists(t, sp, order, bh, node);
    assert p != t.nil;
    sp', bh' := InsertOuterLeft(t, sp, order, bh, node, p, g);
    PaintTwo(t, sp, order, bh, null, p, false, g, true);
    hide Inserting, Paint, RightRotate;
    RightRotateKeys(t1, sp, order, g);
    InsertingInside(RightRotate(t1, g), sp', order, bh', node);
  }

  // The four ways a violation can look like.
  lemma {:induction false} Violation(t: Tree, sp: Spans, order: seq<Node?>, bh: Heights, node: Node?)
    requires Inserting(t, sp, order, bh, node) && !Settled(t, sp, order, bh, node)
    ensures node in t.mem && t.mem[node].parent in t.mem && t.mem[t.mem[node].parent].parent in t.mem
    ensures var p := t.mem[node].parent;
            var g := t.mem[p].parent;
            var u := if p == t.mem[g].left then t.mem[g].right else t.mem[g].left;
            && node != t.root && u in t.mem && (t.mem[p].left == node || t.mem[p].right == node)
            && (t.mem[u].red ==> Uncle(t, bh, p, u, g))
            && (!t.mem[u].red && p == t.mem[g].left ==> LeftCase(t, sp, order, bh, node, p, g))
            && (!t.mem[u].red && p != t.mem[g].left ==> RightCase(t, sp, order, bh, node, p, g))
  {
    GrandparentExists(t, sp, order, bh, node);
    hide Links;
  }

  lemma {:induction false} ParentThere(t: Tree, sp: Spans, order: seq<Node?>, bh: Heights, node: Node?)
    requires Inserting(t, sp, order, bh, node)
    ensures node in t.mem && node in sp && SizeOf(sp, node) <= |order|
    ensures node != t.root ==> t.mem[node].parent in t.mem
    ensures Settled(t, sp, order, bh, node) <==> node == t.root || !t.mem[t.mem[node].parent].red
  {
    assert LinkAt(t, sp, order, node);
  }

  // Subtrees grow on the way up.
  lemma {:induction false} GrowsUp(t: Tree, sp: Spans, order: seq<Node?>, x: Node?)
    requires Links(t, sp, order) && x in sp && x != t.root
    ensures t.mem[x].parent in sp && SizeOf(sp, t.mem[x].parent) > SizeOf(sp, x)
    ensures SizeOf(sp, t.mem[x].parent) <= |order|
  {
    RootIsTop(t, sp, order, x);
    assert LinkAt(t, sp, order, x);
  }

  // key belongs between the keys before position lo and those from hi on, where
  // equal keys stay before the new one.
  ghost predicate Between(mem: Mem, order: seq<Node?>, lo: int, hi: int, key: nat) {
    && 0 <= lo <= hi <= |order| && (forall i | 0 <= i < |order| :: order[i] in mem)
    && (forall i | 0 <= i < lo :: mem[order[i]].key <= key)
    && (forall i | hi <= i < |order| :: key < mem[order[i]].key)
  }

  // Keys of timers are times, of which a node holds the low 64 bits.

  const WORDS: nat := 0x1_0000_0000_0000_0000
  const HALF: nat := 0x8000_0000_0000_0000

  predicate Close(a: nat, b: nat) {
    b <= a + HALF && a < b + HALF
  }

  // (ngx_rbtree_key_int_t) (a - b) < 0
  predicate Earlier(a: nat, b: nat) {
    (a - b) % WORDS >= HALF
  }

  // The signed difference orders two times right, even if one has wrapped around, exactly
  // when they are close.
  lemma {:induction false} Wraps(a: nat, b: nat)
    requires b <= a + WORDS && a < b + WORDS
    ensures (Earlier(a % WORDS, b % WORDS) <==> a < b) <==> Close(a, b)
  {
    var p, q := a / WORDS, b / WORDS;
    assert a % WORDS - b % WORDS == a - b + WORDS * (q - p);
    Modulo(a - b, q - p);
  }

  lemma {:induction false} Modulo(d: int, k: int)
    ensures (d + WORDS * k) % WORDS == d % WORDS
  {
  }

  // The descent narrows the interval.
  lemma {:induction false} Descend(t: Tree, sp: Spans, order: seq<Node?>, x: Node?, key: nat)
    requires Links(t, sp, order) && Sorted(t.mem, order) && x in sp && Between(t.mem, order, sp[x].lo, sp[x].hi, key)
    ensures var left := key < t.mem[x].key;
            var c := if left then t.mem[x].left else t.mem[x].right;
            && c in t.mem
            && (c == t.nil ==>
                  LeafSlot(t, sp, x, left) && Between(t.mem, order, SlotOf(sp, x, left), SlotOf(sp, x, left), key))
            && (c != t.nil ==>
                  c in sp && SizeOf(sp, c) < SizeOf(sp, x) && Between(t.mem, order, sp[c].lo, sp[c].hi, key))
  {
    assert LinkAt(t, sp, order, x);
  }

  lemma {:induction false} SortedInsert(m: Mem, m': Mem, order: seq<Node?>, k: nat, node: Node?)
    requires Sorted(m, order) && k <= |order| && node in m' && Between(m, order, k, k, m'[node].key)
    requires forall x | x in m :: x in m' && m'[x].key == m[x].key
    ensures Sorted(m', Insert(order, k, node))
  {
    var order' := Insert(order, k, node);
    assert forall i | 0 <= i < |order'| ::
             order'[i] == if i < k then order[i] else if i == k then node else order[i - 1];
  }

  // Hanging the new leaf into its slot.
  lemma {:induction false} LeafStep(t: Tree, sp: Spans, order: seq<Node?>, bh: Heights, x: Node?, node: Node?,
      key: nat, left: bool)
    returns (k: nat)
    requires RedBlack(t, sp, order, bh) && Sorted(t.mem, order) && LeafSlot(t, sp, x, left) && node !in t.mem
             && node != null
    requires x in t.mem && Between(t.mem, order, SlotOf(sp, x, left), SlotOf(sp, x, left), key)
    ensures k == SlotOf(sp, x, left) && k <= |order|
    ensures var t' := AddLeaf(t, x, node, key, left);
            && Inserting(t', InsertedSpans(sp, k, node, left), Insert(order, k, node), bh[node := 0], node)
            && Sorted(t'.mem, Insert(order, k, node))
            && forall y | y in t.mem :: y in t'.mem && t'.mem[y].key == t.mem[y].key
  {
    hide RedBlack, Inserting, InsertedSpans, Insert, Sorted;
    k := SlotOf(sp, x, left);
    var t' := AddLeaf(t, x, node, key, left);
    AddLeafInserting(t, sp, order, bh, x, node, key, left);
    assert forall y | y in t.mem :: y in t'.mem && t'.mem[y].key == t.mem[y].key;
    SortedInsert(t.mem, t'.mem, order, k, node);
  }

  // A tree with one black node.
  lemma {:induction false} SingleNode(t: Tree, sp: Spans, bh: Heights, node: Node?, key: nat)
    requires RedBlack(t, sp, [], bh) && node !in t.mem && node != null && t.nil in t.mem
    ensures var m := t.mem[node := Cell(key, t.nil, t.nil, null, false)];
            RedBlack(Tree(m, node, t.nil), map[node := Span(0, 0, 1)], [node], map[t.nil := 0, node := 1])
  {
    var t', sp', bh' := Tree(t.mem[node := Cell(key, t.nil, t.nil, null, false)], node, t.nil),
                        map[node := Span(0, 0, 1)], map[t.nil := 0, node := 1];
    assert forall y | y in sp :: LinkAt(t, sp, [], y);
    assert LinkAt(t', sp', [node], node) && HeightAt(t', bh', null, node) && RedAt(t', node, null);
  }

  lemma {:induction false} FirstPlace(m: Mem, node: Node?)
    ensures RbEdit.Insert([], 0, node) == [node]
    ensures forall key: nat :: Between(m, [], 0, 0, key)
  {
  }

  lemma {:induction false} SameKeysKeep(m: Mem, m': Mem)
    requires SameKeys(m, m')
    ensures forall x | x in m :: x in m' && m'[x].key == m[x].key
  {
  }

  lemma {:induction false} KeysButKeep(m: Mem, m': Mem, node: Node?)
    requires KeysBut(m, m', node)
    ensures forall x | x in m && x in m' :: m'[x].key == m[x].key
  {
  }

  lemma {:induction false} SortedRemove(m: Mem, m': Mem, order: seq<Node?>, k: nat, node: Node?)
    requires Sorted(m, order) && k < |order| && order[k] == node && KeysBut(m, m', node)
    requires forall i | 0 <= i < |order| && i != k :: order[i] != node
    ensures Sorted(m', Remove(order, k))
  {
    var order' := Remove(order, k);
    assert forall i | 0 <= i < |order'| :: order'[i] == if i < k then order[i] else order[i + 1];
  }

  lemma {:induction false} SameKeysSelf(m: Mem)
    ensures SameKeys(m, m)
  {
  }

  lemma {:induction false} KeysButSame(m: Mem, m': Mem, m'': Mem, node: Node?)
    requires KeysBut(m, m', node) && SameKeys(m', m'')
    ensures KeysBut(m, m'', node)
  {
  }

  lemma {:induction false} TempStays(m: Mem, t: Tree, sp: Spans, order: seq<Node?>, bh: Heights, node: Node?,
      temp: Node?)
    requires Short(t, sp, order, bh, temp) && KeysBut(m, t.mem, node)
    ensures temp != node
  {
  }

  lemma {:induction false} ShortSize(t: Tree, sp: Spans, order: seq<Node?>, bh: Heights, temp: Node?)
    requires Short(t, sp, order, bh, temp)
    ensures 0 <= SizeOf(sp, temp) <= |order|
  {
    if temp in sp {
      assert LinkAt(t, sp, order, temp);
    }
  }

  lemma {:induction false} ChosenNodes(t: Tree, sp: Spans, order: seq<Node?>, node: Node?, subst: Node?, temp: Node?)
    requires Chosen(t, sp, order, node, subst, temp)
    ensures node in sp && node in t.mem && subst in t.mem
  {
  }

  lemma {:induction false} OwnPlace(t: Tree, sp: Spans, order: seq<Node?>, bh: Heights, node: Node?) returns (k: nat)
    requires RedBlack(t, sp, order, bh) && node in t.mem && node != t.nil
    ensures node in sp && k == sp[node].pos && k < |order| && order[k] == node
    ensures forall i | 0 <= i < |order| && i != k :: order[i] != node
  {
    assert LinkAt(t, sp, order, node);
    k := sp[node].pos;
  }

  // Only a node that leaves its own place can be the root.
  lemma {:induction false} ChosenRoot(t: Tree, sp: Spans, order: seq<Node?>, bh: Heights, node: Node?,
      subst: Node?, temp: Node?)
    requires RedBlack(t, sp, order, bh) && Chosen(t, sp, order, node, subst, temp)
    ensures subst == t.root ==> subst == node
  {
    assert LinkAt(t, sp, order, node) && LinkAt(t, sp, order, subst);
  }

  // Deleting the root when it has at most one child.
  lemma {:induction false} TopStep(t: Tree, sp: Spans, order: seq<Node?>, bh: Heights, node: Node?, temp: Node?)
    requires RedBlack(t, sp, order, bh) && Chosen(t, sp, order, node, node, temp) && node == t.root
    ensures temp in t.mem && node in sp && temp == Child(t, node) && temp != node && node != t.nil && temp in bh
    ensures 0 <= sp[node].pos < |order|
    ensures var t' := Tree(SetRed(t.mem, temp, false) - {node}, temp, t.nil);
            && RedBlack(t', RemovedSpans(sp, sp[node].pos, node), Remove(order, sp[node].pos),
                        RootHeights(Splice(t, node), bh, temp))
            && KeysBut(t.mem, t'.mem, node)
  {
    SpliceTop(t, sp, order, bh, node);
    assert LinkAt(t, sp, order, node);
    hide RedBlack, RemovedSpans, Remove, RootHeights;
    var t' := Tree(SetRed(t.mem, temp, false) - {node}, temp, t.nil);
    assert t' == Paint(Splice(t, node), temp, false);
  }

  // x black and y red
  function PaintedBlackRed(t: Tree, x: Node?, y: Node?): Tree
    requires x in t.mem && y in t.mem
  {
    Paint(Paint(t, x, false), y, true)
  }

  class RbTree {
    var root: Node
    const sentinel: Node

    ghost var repr: set<Node>      // the nodes of the tree and the sentinel
    ghost var mem: Mem             // their fields
    ghost var sp: Spans
    ghost var bh: Heights
    ghost var order: seq<Node?>    // the nodes in order

    ghost function T(): Tree
      reads this
    {
      Tree(mem, root, sentinel)
    }

    ghost predicate At(x: Node)
      reads `mem, x
    {
      x in mem && mem[x] == Cell(x.key, x.left, x.right, x.parent, x.red)
    }

    // mem is a picture of the heap.
    ghost predicate Sync()
      reads this, repr
    {
      && null !in mem && (forall x | x in mem :: x in repr)
      && sentinel in repr && root in repr
      && forall x {:trigger At(x)} | x in repr :: At(x)
    }

    // Links, colours and the sort order of the keys.
    ghost predicate Valid()
      reads this, repr
    {
      Sync() && RedBlack(T(), sp, order, bh) && Sorted(mem, order)
    }

    // ngx_rbtree_init
    constructor (s: Node)
      modifies s
      ensures Valid() && order == [] && sentinel == s && repr == {s}
    {
      root, sentinel := s, s;
      repr, sp, bh, order := {s}, map[], map[s := 0], [];
      mem := map[s := Cell(s.key, s.left, s.right, s.parent, false)];
      new;
      s.red := false;
    }

    // Assignments to the fields of a node.

    method PutLeft(x: Node, v: Node?)
      requires Sync() && x in repr && At(x)
      modifies x`left, `mem
      ensures Sync() && mem == SetLeft(old(mem), x, v) && x.left == v
    {
      assert forall y | y in repr :: At(y);
      x.left, mem := v, SetLeft(mem, x, v);
    }

    method PutRight(x: Node, v: Node?)
      requires Sync() && x in repr && At(x)
      modifies x`right, `mem
      ensures Sync() && mem == SetRight(old(mem), x, v) && x.right == v
    {
      assert forall y | y in repr :: At(y);
      x.right, mem := v, SetRight(mem, x, v);
    }

    method PutParent(x: Node, v: Node?)
      requires Sync() && x in repr && At(x)
      modifies x`parent, `mem
      ensures Sync() && mem == SetParent(old(mem), x, v) && x.parent == v
    {
      assert forall y | y in repr :: At(y);
      x.parent, mem := v, SetParent(mem, x, v);
    }

    method PutRed(x: Node, red: bool)
      requires Sync() && x in repr && At(x)
      modifies x`red, `mem
      ensures Sync() && mem == SetRed(old(mem), x, red) && x.red == red
    {
      assert forall y | y in repr :: At(y);
      x.red, mem := red, SetRed(mem, x, red);
    }

    // What the deletion leaves in the node it took out.
    static predicate Cleared(node: Node)
      reads node
    {
      node.left == null && node.right == null && node.parent == null && node.key == 0
    }

    // The part of both rotations that changes what node's parent points to.
    method Rehang(node: Node, temp: Node, leftFirst: bool)
      requires Sync() && node in repr && At(node) && temp in repr
               && (node != root ==> node.parent in repr && At(node.parent))
      modifies `root, `mem, repr
      ensures Sync() && T() == Hang(old(T()), node, temp, leftFirst)
      ensures node == old(root) || temp != old(node.parent) ==>
                temp.left == old(temp.left) && temp.right == old(temp.right)
      ensures root == if node == old(root) then temp else old(root)
    {
      if node == root {
        root := temp;
      } else if leftFirst {
        if node == node.parent.left {
          PutLeft(node.parent, temp);
        } else {
          PutRight(node.parent, temp);
        }
      } else if node == node.parent.right {
        PutRight(node.parent, temp);
      } else {
        PutLeft(node.parent, temp);
      }
    }

    // The first half of both rotations.
    method PassRight(node: Node, temp: Node)
      requires Sync() && node in repr && temp in repr && At(node) && At(temp) && temp.left in mem
      modifies `mem, repr
      ensures Sync() && mem == RbLinks.PassRight(old(T()), node, temp, old(mem)[temp].left)
      ensures node.parent == old(node.parent) || node.parent == node
    {
      hide SetLeft, SetRight, SetParent;
      PutRight(node, temp.left);
      assert At(temp);
      if temp.left != sentinel {
        assert At(temp.left);
        PutParent(temp.left, node);
      }
      assert At(node) && At(temp);
      PutParent(temp, node.parent);
    }

    method PassLeft(node: Node, temp: Node)
      requires Sync() && node in repr && temp in repr && At(node) && At(temp) && temp.right in mem
      modifies `mem, repr
      ensures Sync() && mem == RbLinks.PassLeft(old(T()), node, temp, old(mem)[temp].right)
      ensures node.parent == old(node.parent) || node.parent == node
    {
      hide SetLeft, SetRight, SetParent;
      PutLeft(node, temp.right);
      assert At(temp);
      if temp.right != sentinel {
        assert At(temp.right);
        PutParent(temp.right, node);
      }
      assert At(node) && At(temp);
      PutParent(temp, node.parent);
    }

    // ngx_rbtree_left_rotate
    method RotateLeft(node: Node)
      requires Sync() && RotatableLeft(T(), node)
      modifies `root, `mem, repr
      ensures Sync() && T() == LeftRotate(old(T()), node)
    {
      hide Hang, SetLeft, SetRight, SetParent, RbLinks.PassRight, RbLinks.PassLeft;
      assert At(node) && At(node.right) && (node != root ==> node.parent in repr);
      var temp := node.right;
      PassRight(node, temp);
      assert At(node) && At(temp) && (node != root ==> At(node.parent));
      Rehang(node, temp, true);
      assert At(node) && At(temp);
      PutLeft(temp, node);
      assert At(node);
      PutParent(node, temp);
    }

    // ngx_rbtree_right_rotate
    method RotateRight(node: Node)
      requires Sync() && RotatableRight(T(), node)
      modifies `root, `mem, repr
      ensures Sync() && T() == RightRotate(old(T()), node)
    {
      hide Hang, SetLeft, SetRight, SetParent, RbLinks.PassRight, RbLinks.PassLeft;
      assert At(node) && At(node.left) && (node != root ==> node.parent in repr);
      var temp := node.left;
      PassLeft(node, temp);
      assert At(node) && At(temp) && (node != root ==> At(node.parent));
      Rehang(node, temp, false);
      assert At(node) && At(temp);
      PutRight(temp, node);
      assert At(node);
      PutParent(node, temp);
    }

    // ngx_rbt_black(x) and ngx_rbt_red(y)
    method PaintBlackRed(x: Node, y: Node)
      requires Sync() && x in repr && y in repr && x in mem && y in mem
      modifies `mem, repr
      ensures Sync() && T() == Paint(Paint(old(T()), x, false), y, true)
    {
      assert At(x);
      PutRed(x, false);
      assert At(y);
      PutRed(y, true);
    }

    // x turns black, y turns red and rotates to the left.
    method PaintRotateLeft(x: Node, y: Node)
      requires Sync() && x in repr && y in repr && x in mem && y in mem
      requires RotatableLeft(Paint(Paint(T(), x, false), y, true), y)
      modifies `root, `mem, repr
      ensures Sync() && T() == LeftRotate(Paint(Paint(old(T()), x, false), y, true), y)
    {
      hide LeftRotate, RotatableLeft, Paint;
      PaintBlackRed(x, y);
      RotateLeft(y);
    }

    // x turns black, y turns red and rotates to the right.
    method PaintRotateRight(x: Node, y: Node)
      requires Sync() && x in repr && y in repr && x in mem && y in mem
      requires RotatableRight(Paint(Paint(T(), x, false), y, true), y)
      modifies `root, `mem, repr
      ensures Sync() && T() == RightRotate(Paint(Paint(old(T()), x, false), y, true), y)
    {
      hide RightRotate, RotatableRight, Paint;
      PaintBlackRed(x, y);
      RotateRight(y);
    }

    // Insertion, red uncle: the source repeats these lines on both sides.
    method RecolorUp(node: Node, parent: Node, temp: Node, grandparent: Node)
      requires Sync() && Inserting(T(), sp, order, bh, node) && node != root && parent == mem[node].parent
      requires parent in repr && temp in repr && grandparent in repr && Uncle(T(), bh, parent, temp, grandparent)
      modifies `mem, `bh, repr
      ensures Sync() && Inserting(T(), sp, order, bh, grandparent) && SameKeys(old(mem), mem)
      ensures SizeOf(sp, grandparent) > SizeOf(sp, node)
    {
      hide Inserting, Uncle, SetRed, Recolor, RecoloredHeights, SameKeys;
      InsertingInside(T(), sp, order, bh, node);
      bh := RecolorUpStep(T(), sp, order, bh, node, parent, temp, grandparent);
      assert At(parent);
      PutRed(parent, false);
      assert At(temp);
      PutRed(temp, false);
      assert At(grandparent);
      PutRed(grandparent, true);
    }

    // Insertion, black uncle, at a left child: paint and rotate the grandparent.
    method RotateOuterLeft(node: Node, parent: Node, grandparent: Node)
      requires Sync() && node in repr && parent in repr && grandparent in repr
      requires LeftCase(T(), sp, order, bh, node, parent, grandparent) && parent in mem && mem[parent].left == node
      modifies `root, `mem, `sp, `bh, repr
      ensures Sync() && Settled(T(), sp, order, bh, node) && SameKeys(old(mem), mem)
    {
      hide LeftCase, RightCase, Inserting, Settled, Paint, LeftRotate, RightRotate, RotatableLeft, RotatableRight,
           SameKeys, IsRed, Uncle;
      assert At(parent) && At(grandparent);
      ghost var t1 := PaintedBlackRed(T(), parent, grandparent);
      sp, bh := OuterLeftStep(T(), sp, order, bh, node, parent, grandparent, t1);
      PaintRotateRight(parent, grandparent);
    }

    // Insertion, black uncle, at a left child: an inner node is first turned outwards.
    method RotateUpLeft(start: Node, red: Node, grandparent: Node) returns (node: Node)
      requires Sync() && start in repr && red in repr && grandparent in repr
      requires LeftCase(T(), sp, order, bh, start, red, grandparent)
      requires red in mem && (mem[red].left == start || mem[red].right == start)
      modifies `root, `mem, `sp, `bh, repr
      ensures Sync() && Settled(T(), sp, order, bh, node) && SameKeys(old(mem), mem) && node in repr
    {
      hide LeftCase, RightCase, Inserting, Settled, Paint, LeftRotate, RightRotate, RotatableLeft, RotatableRight,
           SameKeys, IsRed, Uncle;
      node := start;
      assert At(red);
      if node == red.right {
        sp := InnerLeftStep(T(), sp, order, bh, node, red, grandparent);
        node := red;
        RotateLeft(node);
        ghost var m := mem;
        assert At(node);
        RotateOuterLeft(node, node.parent, grandparent);
        SameKeysAgain(old(mem), m, mem);
      } else {
        RotateOuterLeft(node, red, grandparent);
      }
    }

    // Insertion, black uncle, at a right child: paint and rotate the grandparent.
    method RotateOuterRight(node: Node, parent: Node, grandparent: Node)
      requires Sync() && node in repr && parent in repr && grandparent in repr
      requires RightCase(T(), sp, order, bh, node, parent, grandparent) && parent in mem && mem[parent].right == node
      modifies `root, `mem, `sp, `bh, repr
      ensures Sync() && Settled(T(), sp, order, bh, node) && SameKeys(old(mem), mem)
    {
      hide LeftCase, RightCase, Inserting, Settled, Paint, LeftRotate, RightRotate, RotatableLeft, RotatableRight,
           SameKeys, IsRed, Uncle;
      assert At(parent) && At(grandparent);
      ghost var t1 := PaintedBlackRed(T(), parent, grandparent);
      sp, bh := OuterRightStep(T(), sp, order, bh, node, parent, grandparent, t1);
      PaintRotateLeft(parent, grandparent);
    }

    // Insertion, black uncle, at a right child: an inner node is first turned outwards.
    method RotateUpRight(start: Node, red: Node, grandparent: Node) returns (node: Node)
      requires Sync() && start in repr && red in repr && grandparent in repr
      requires RightCase(T(), sp, order, bh, start, red, grandparent)
      requires red in mem && (mem[red].left == start || mem[red].right == start)
      modifies `root, `mem, `sp, `bh, repr
      ensures Sync() && Settled(T(), sp, order, bh, node) && SameKeys(old(mem), mem) && node in repr
    {
      hide LeftCase, RightCase, Inserting, Settled, Paint, LeftRotate, RightRotate, RotatableLeft, RotatableRight,
           SameKeys, IsRed, Uncle;
      node := start;
      assert At(red);
      if node == red.left {
        sp := InnerRightStep(T(), sp, order, bh, node, red, grandparent);
        node := red;
        RotateRight(node);
        ghost var m := mem;
        assert At(node);
        RotateOuterRight(node, node.parent, grandparent);
        SameKeysAgain(old(mem), m, mem);
      } else {
        RotateOuterRight(node, red, grandparent);
      }
    }

    // One round of the loop of ngx_rbtree_insert.
    method FixInsertRound(node: Node) returns (next: Node)
      requires Sync() && node in repr && Inserting(T(), sp, order, bh, node) && !Settled(T(), sp, order, bh, node)
      modifies `root, `mem, `sp, `bh, repr
      ensures Sync() && Inserting(T(), sp, order, bh, next) && next in repr && SameKeys(old(mem), mem)
      ensures Settled(T(), sp, order, bh, next) || SizeOf(sp, next) > SizeOf(old(sp), node)
    {
      Violation(T(), sp, order, bh, node);
      hide Inserting, Uncle, LeftCase, RightCase, SameKeys;
      assert At(node) && At(node.parent) && At(node.parent.parent);
      var parent := node.parent;
      var grandparent := parent.parent;
      if parent == grandparent.left {
        var temp := grandparent.right;
        assert At(temp);
        if temp.red {
          RecolorUp(node, parent, temp, grandparent);
          next := grandparent;
        } else {
          next := RotateUpLeft(node, parent, grandparent);
        }
      } else {
        var temp := grandparent.left;
        assert At(temp);
        if temp.red {
          RecolorUp(node, parent, temp, grandparent);
          next := grandparent;
        } else {
          next := RotateUpRight(node, parent, grandparent);
        }
      }
    }

    // The loop of ngx_rbtree_insert and the painting of the root.
    method FixInsert(start: Node)
      requires Sync() && start in repr && Inserting(T(), sp, order, bh, start)
      modifies `root, `mem, `sp, `bh, repr
      ensures Sync() && RedBlack(T(), sp, order, bh) && SameKeys(old(mem), mem)
    {
      hide Inserting, Settled, SameKeys, RedBlack, SizeOf;
      var node := start;
      ParentThere(T(), sp, order, bh, node);
      SameKeysSelf(mem);
      assert At(node);
      while node != root && node.parent.red
        invariant Sync() && node in repr && Inserting(T(), sp, order, bh, node) && SameKeys(old(mem), mem)
        invariant At(node) && node in sp && (node != root ==> node.parent in repr)
        decreases if Settled(T(), sp, order, bh, node) then 0 else 1, |order| - SizeOf(sp, node)
      {
        ghost var m := mem;
        ParentThere(T(), sp, order, bh, node);
        assert At(node.parent);
        node := FixInsertRound(node);
        ParentThere(T(), sp, order, bh, node);
        assert At(node);
        SameKeysAgain(old(mem), m, mem);
      }
      ParentThere(T(), sp, order, bh, node);
      assert node != root ==> At(node.parent);
      ghost var m := mem;
      FinishInsert(node);
      SameKeysAgain(old(mem), m, mem);
    }

    // ngx_rbt_black(*root)
    method FinishInsert(ghost node: Node)
      requires Sync() && node in repr && Settled(T(), sp, order, bh, node)
      modifies `mem, `bh, repr
      ensures Sync() && RedBlack(T(), sp, order, bh) && SameKeys(old(mem), mem)
    {
      InsertDone(T(), sp, order, bh, node);
      PaintKeys(T(), root, false);
      bh := RootHeights(T(), bh, root);
      hide RedBlack, SameKeys, Settled;
      assert At(root);
      PutRed(root, false);
    }

    // Every key is less than half the range of a word away.
    ghost predicate Near(key: nat)
      reads `mem
    {
      forall x | x in mem && x != sentinel :: Close(key, mem[x].key)
    }

    // The descent of ngx_rbtree_insert_value, or of ngx_rbtree_insert_timer_value.
    method FindSlot(key: nat, timer: bool) returns (temp: Node, left: bool)
      requires Valid() && root != sentinel && (timer ==> Near(key))
      ensures temp in repr && left == (key < temp.key) && LeafSlot(T(), sp, temp, left)
      ensures Between(mem, order, SlotOf(sp, temp, left), SlotOf(sp, temp, left), key)
    {
      temp := root;
      assert order != [];
      assert At(temp);
      while true
        invariant temp in repr && temp in sp && At(temp) && Between(mem, order, sp[temp].lo, sp[temp].hi, key)
        decreases SizeOf(sp, temp)
      {
        Descend(T(), sp, order, temp, key);
        assert timer ==> Close(key, temp.key);
        if timer {
          Wraps(key, temp.key);
        }
        left := if timer then Earlier(key % WORDS, temp.key % WORDS) else key < temp.key;
        var next := if left then temp.left else temp.right;
        if next == sentinel {
          break;
        }
        assert At(next);
        temp := next;
      }
    }

    // The fields of a new leaf.
    method InitLeaf(node: Node, parent: Node?, red: bool)
      requires Sync() && node !in repr
      modifies `mem, `repr, node`left, node`right, node`parent, node`red
      ensures Sync() && repr == old(repr) + {node}
      ensures mem == old(mem)[node := Cell(node.key, sentinel, sentinel, parent, red)]
    {
      assert forall y | y in repr :: At(y);
      node.parent := parent;
      node.left := sentinel;
      node.right := sentinel;
      node.red := red;
      mem := mem[node := Cell(node.key, sentinel, sentinel, parent, red)];
      repr := repr + {node};
    }

    // ngx_rbtree_insert_value, the linking.
    method LinkLeaf(temp: Node, node: Node, left: bool)
      requires Sync() && temp in repr && temp in mem && node !in repr
      modifies `mem, `repr, repr, node
      ensures Sync() && repr == old(repr) + {node} && node.key == old(node.key)
      ensures T() == AddLeaf(old(T()), temp, node, node.key, left)
    {
      assert At(temp);
      if left {
        PutLeft(temp, node);
      } else {
        PutRight(temp, node);
      }
      InitLeaf(node, temp, true);
    }

    // ngx_rbtree_insert into an empty tree.
    method InsertFirst(node: Node)
      requires Valid() && node !in repr && root == sentinel
      modifies this, node
      ensures Valid() && repr == old(repr) + {node} && order == [node] && node.key == old(node.key)
      ensures old(order) == [] && forall x | x in old(mem) :: x in mem && mem[x].key == old(mem)[x].key
    {
      assert order == [];
      assert At(sentinel);
      SingleNode(T(), sp, bh, node, node.key);
      hide RedBlack;
      sp, bh, order := map[node := Span(0, 0, 1)], map[sentinel := 0, node := 1], [node];
      InitLeaf(node, null, false);
      root := node;
    }

    // tree->insert with either of the two functions.
    method InsertLeaf(node: Node, timer: bool) returns (ghost k: nat)
      requires Valid() && node !in repr && root != sentinel && (timer ==> Near(node.key))
      modifies `mem, `repr, `sp, `bh, `order, repr, node
      ensures Sync() && repr == old(repr) + {node} && Inserting(T(), sp, order, bh, node) && Sorted(mem, order)
      ensures k <= |old(order)| && order == RbEdit.Insert(old(order), k, node)
              && Between(old(mem), old(order), k, k, node.key)
      ensures node.key == old(node.key) && forall x | x in old(mem) :: x in mem && mem[x].key == old(mem)[x].key
    {
      hide RedBlack, Inserting, InsertedSpans, RbEdit.Insert, AddLeaf, Sorted, Between, LeafSlot;
      var temp, left := FindSlot(node.key, timer);
      assert At(temp);
      k := LeafStep(T(), sp, order, bh, temp, node, node.key, left);
      sp, bh, order := InsertedSpans(sp, k, node, left), bh[node := 0], RbEdit.Insert(order, k, node);
      LinkLeaf(temp, node, left);
    }

    // ngx_rbtree_insert; timer says that tree->insert is ngx_rbtree_insert_timer_value.
    method Insert(node: Node, timer: bool) returns (ghost k: nat)
      requires Valid() && node !in repr && (timer ==> Near(node.key))
      modifies this, repr, node
      ensures Valid() && repr == old(repr) + {node}
      ensures k <= |old(order)| && order == RbEdit.Insert(old(order), k, node)
      ensures Between(old(mem), old(order), k, k, node.key)
      ensures node.key == old(node.key) && forall x | x in old(mem) :: x in mem && mem[x].key == old(mem)[x].key
      ensures forall x | x in old(repr) :: x.key == old(x.key)
    {
      hide RedBlack, Inserting, Sorted, Between, RbEdit.Insert, SameKeys;
      if root == sentinel {
        k := 0;
        FirstPlace(mem, node);
        InsertFirst(node);
      } else {
        k := InsertLeaf(node, timer);
        ghost var m := mem;
        assert At(node);
        FixInsert(node);
        assert At(node);
        SortedAgain(m, mem, order);
        SameKeysKeep(m, mem);
      }
      KeysStay();
    }

    // ngx_rbtree_min
    method Min(start: Node) returns (node: Node)
      requires Sync() && RedBlack(T(), sp, order, bh) && start in repr && start in sp
      ensures node in repr && node in sp && node in mem && mem[node].left == sentinel
      ensures sp[node].lo == sp[start].lo && sp[node].pos == sp[node].lo && sp[node].hi <= sp[start].hi
    {
      node := start;
      assert At(node);
      assert LinkAt(T(), sp, order, node);
      while node.left != sentinel
        invariant node in repr && node in sp && At(node) && LinkAt(T(), sp, order, node)
        invariant sp[node].lo == sp[start].lo && sp[node].hi <= sp[start].hi
        decreases SizeOf(sp, node)
      {
        assert At(node.left) && LinkAt(T(), sp, order, node.left);
        node := node.left;
      }
    }

    // The deleted node's own fields.
    method Forget(node: Node)
      requires Sync() && node in repr && node != root && node != sentinel
      modifies `mem, `repr, node
      ensures Sync() && mem == old(mem) - {node} && repr == old(repr) - {node} && Cleared(node)
    {
      assert forall y | y in repr :: At(y);
      node.left, node.right, node.parent, node.key := null, null, null, 0;
      mem, repr := mem - {node}, repr - {node};
    }

    method DetachNode(node: Node, subst: Node, temp: Node)
      requires Sync() && subst in repr && temp in repr && subst in mem && temp in mem && mem[subst].parent in mem
      modifies `mem, repr
      ensures Sync() && mem == Detach(old(mem), node, subst, temp)
    {
      assert At(subst) && At(subst.parent);
      var parent := subst.parent;
      if subst == parent.left {
        PutLeft(parent, temp);
      } else {
        PutRight(parent, temp);
      }
      assert At(temp);
      if subst == node {
        PutParent(temp, parent);
      } else if parent == node {
        PutParent(temp, subst);
      } else {
        PutParent(temp, parent);
      }
    }

    method CopyNode(node: Node, subst: Node)
      requires Sync() && node in repr && subst in repr && node in mem && subst in mem && node != subst
      modifies `mem, repr
      ensures Sync() && mem == CopyFields(old(mem), node, subst)
      ensures node.parent == old(node.parent) && subst.left == old(node.left) && subst.right == old(node.right)
    {
      assert At(subst) && At(node);
      PutLeft(subst, node.left);
      assert At(node) && At(subst);
      PutRight(subst, node.right);
      assert At(node) && At(subst);
      PutParent(subst, node.parent);
      assert At(node) && At(subst);
      PutRed(subst, node.red);
    }

    method AdoptNode(node: Node, subst: Node)
      requires Sync() && node in repr && subst in repr && node != subst && node in mem && subst in mem
      requires mem[node].left in mem && mem[node].right in mem
      requires node != root ==> mem[node].parent in mem && mem[node].parent != subst
      modifies `root, `mem, repr
      ensures Sync() && mem == Adopt(old(T()), old(mem), node, subst)
              && root == if node == old(root) then subst else old(root)
    {
      hide Hang, CopyFields, TakeKids;
      assert At(node) && At(subst) && (node != root ==> At(node.parent));
      assert node.left in repr && node.right in repr;
      CopyNode(node, subst);
      assert At(node) && (node != root ==> At(node.parent));
      Rehang(node, subst, true);
      assert At(subst) && At(subst.left) && At(subst.right);
      AdoptKids(subst);
    }

    method AdoptKids(subst: Node)
      requires Sync() && subst in repr && At(subst) && subst.left in repr && subst.right in repr
      requires subst.left in mem && subst.right in mem
      modifies `mem, repr
      ensures Sync() && mem == TakeKids(old(mem), sentinel, subst)
    {
      hide SetParent;
      if subst.left != sentinel {
        assert At(subst.left);
        PutParent(subst.left, subst);
      }
      assert At(subst);
      if subst.right != sentinel {
        assert At(subst.right);
        PutParent(subst.right, subst);
      }
    }

    // ngx_rbtree_delete after the choice of subst, up to the fixup.
    method UnlinkNode(node: Node, subst: Node, temp: Node)
      requires Sync() && node in repr && subst in repr && temp in repr && node != sentinel
      requires UnlinkDefined(T(), node, subst, temp) && subst != root
      modifies `root, `mem, `repr, repr
      ensures Sync() && T() == Unlink(old(T()), node, subst, temp) && repr == old(repr) - {node} && Cleared(node)
    {
      DetachNode(node, subst, temp);
      if subst != node {
        AdoptNode(node, subst);
      }
      Forget(node);
    }

    // ngx_rbt_copy_color(w, p), ngx_rbt_black(p) and ngx_rbt_black(outer)
    method PaintOuter(p: Node, w: Node, outer: Node)
      requires Sync() && p in repr && w in repr && outer in repr && p in mem && w in mem && outer in mem
      modifies `mem, repr
      ensures Sync() && T() == OuterPaint(old(T()), p, w, outer)
    {
      assert At(p) && At(w);
      PutRed(w, p.red);
      assert At(p);
      PutRed(p, false);
      assert At(outer);
      PutRed(outer, false);
    }

    // Deletion, red sibling, at a left child.
    method SiblingLeft(temp: Node, p: Node, w: Node) returns (sibling: Node)
      requires Sync() && p in repr && w in repr && p in mem && w in mem
      requires DeleteLeft(T(), sp, order, bh, temp, p, w) && IsRed(T(), w)
      modifies `root, `mem, `sp, `bh, repr
      ensures Sync() && sibling in repr && DeleteLeft(T(), sp, order, bh, temp, p, sibling)
      ensures !IsRed(T(), sibling) && IsRed(T(), p) && SameKeys(old(mem), mem)
    {
      hide DeleteLeft, DeleteRight, InnerLeft, InnerRight, OuterLeft, OuterRight, Paint, OuterPaint, LeftRotate,
           RightRotate, RotatableLeft, RotatableRight, SameKeys, Short, IsRed;
      CaseNodes(T(), sp, order, bh, temp, p, w);
      ghost var t1 := PaintedBlackRed(T(), w, p);
      sp, bh := RedSiblingLeftStep(T(), sp, order, bh, temp, p, w, t1);
      PaintRotateLeft(w, p);
      assert At(p);
      sibling := p.right;
      assert At(sibling);
    }

    // Deletion, black sibling with a red child, at a left child: the red child is
    // turned outwards first.
    method TurnOutLeft(temp: Node, p: Node, w: Node) returns (sibling: Node)
      requires Sync() && p in repr && w in repr && InnerLeft(T(), sp, order, bh, temp, p, w)
      modifies `root, `mem, `sp, `bh, repr
      ensures Sync() && sibling in repr && OuterLeft(T(), sp, order, bh, temp, p, sibling) && SameKeys(old(mem), mem)
    {
      hide DeleteLeft, DeleteRight, InnerLeft, InnerRight, OuterLeft, OuterRight, Paint, OuterPaint, LeftRotate,
           RightRotate, RotatableLeft, RotatableRight, SameKeys, Short, IsRed;
      CaseNodes(T(), sp, order, bh, temp, p, w);
      assert At(w) && At(w.left);
      var inner := w.left;
      ghost var t1 := PaintedBlackRed(T(), inner, w);
      sp, bh := DeleteInnerLeftStep(T(), sp, order, bh, temp, p, w, inner, t1);
      PaintRotateRight(inner, w);
      assert At(p);
      sibling := p.right;
    }

    // Deletion, last case at a left child.
    method SettleDeleteLeft(temp: Node, p: Node, w: Node)
      requires Sync() && p in repr && w in repr && OuterLeft(T(), sp, order, bh, temp, p, w)
      modifies `root, `mem, `sp, `bh, repr
      ensures Sync() && Short(T(), sp, order, bh, root) && SameKeys(old(mem), mem)
    {
      hide DeleteLeft, DeleteRight, InnerLeft, InnerRight, OuterLeft, OuterRight, Paint, OuterPaint, LeftRotate,
           RightRotate, RotatableLeft, RotatableRight, SameKeys, Short, IsRed;
      CaseNodes(T(), sp, order, bh, temp, p, w);
      assert At(p) && At(w) && At(w.right);
      var outer := w.right;
      ghost var t1 := OuterPaint(T(), p, w, outer);
      sp, bh := DeleteOuterLeftStep(T(), sp, order, bh, temp, p, w, outer, t1);
      PaintOuter(p, w, outer);
      RotateLeft(p);
    }

    // Deletion, red sibling, at a right child.
    method SiblingRight(temp: Node, p: Node, w: Node) returns (sibling: Node)
      requires Sync() && p in repr && w in repr && p in mem && w in mem
      requires DeleteRight(T(), sp, order, bh, temp, p, w) && IsRed(T(), w)
      modifies `root, `mem, `sp, `bh, repr
      ensures Sync() && sibling in repr && DeleteRight(T(), sp, order, bh, temp, p, sibling)
      ensures !IsRed(T(), sibling) && IsRed(T(), p) && SameKeys(old(mem), mem)
    {
      hide DeleteLeft, DeleteRight, InnerLeft, InnerRight, OuterLeft, OuterRight, Paint, OuterPaint, LeftRotate,
           RightRotate, RotatableLeft, RotatableRight, SameKeys, Short, IsRed;
      CaseNodes(T(), sp, order, bh, temp, p, w);
      ghost var t1 := PaintedBlackRed(T(), w, p);
      sp, bh := RedSiblingRightStep(T(), sp, order, bh, temp, p, w, t1);
      PaintRotateRight(w, p);
      assert At(p);
      sibling := p.left;
      assert At(sibling);
    }

    // Deletion, black sibling with a red child, at a right child: the red child is
    // turned outwards first.
    method TurnOutRight(temp: Node, p: Node, w: Node) returns (sibling: Node)
      requires Sync() && p in repr && w in repr && InnerRight(T(), sp, order, bh, temp, p, w)
      modifies `root, `mem, `sp, `bh, repr
      ensures Sync() && sibling in repr && OuterRight(T(), sp, order, bh, temp, p, sibling) && SameKeys(old(mem), mem)
    {
      hide DeleteLeft, DeleteRight, InnerLeft, InnerRight, OuterLeft, OuterRight, Paint, OuterPaint, LeftRotate,
           RightRotate, RotatableLeft, RotatableRight, SameKeys, Short, IsRed;
      CaseNodes(T(), sp, order, bh, temp, p, w);
      assert At(w) && At(w.right);
      var inner := w.right;
      ghost var t1 := PaintedBlackRed(T(), inner, w);
      sp, bh := DeleteInnerRightStep(T(), sp, order, bh, temp, p, w, inner, t1);
      PaintRotateLeft(inner, w);
      assert At(p);
      sibling := p.left;
    }

    // Deletion, last case at a right child.
    method SettleDeleteRight(temp: Node, p: Node, w: Node)
      requires Sync() && p in repr && w in repr && OuterRight(T(), sp, order, bh, temp, p, w)
      modifies `root, `mem, `sp, `bh, repr
      ensures Sync() && Short(T(), sp, order, bh, root) && SameKeys(old(mem), mem)
    {
      hide DeleteLeft, DeleteRight, InnerLeft, InnerRight, OuterLeft, OuterRight, Paint, OuterPaint, LeftRotate,
           RightRotate, RotatableLeft, RotatableRight, SameKeys, Short, IsRed;
      CaseNodes(T(), sp, order, bh, temp, p, w);
      assert At(p) && At(w) && At(w.left);
      var outer := w.left;
      ghost var t1 := OuterPaint(T(), p, w, outer);
      sp, bh := DeleteOuterRightStep(T(), sp, order, bh, temp, p, w, outer, t1);
      PaintOuter(p, w, outer);
      RotateRight(p);
    }

    // Deletion at a left child with a black sibling.
    method FixBlackSiblingLeft(temp: Node, p: Node, start: Node) returns (next: Node)
      requires Sync() && temp in repr && p in repr && start in repr && DeleteLeft(T(), sp, order, bh, temp, p, start)
               && !IsRed(T(), start)
      modifies `root, `mem, `sp, `bh, repr
      ensures Sync() && next in repr && Short(T(), sp, order, bh, next) && SameKeys(old(mem), mem)
      ensures next == root ||
              (sp == old(sp) && SizeOf(sp, next) > SizeOf(sp, temp) && next == p
               && (IsRed(old(T()), p) ==> IsRed(T(), p)))
    {
      hide DeleteLeft, DeleteRight, SetRed, LeftRotate, RightRotate, SameKeys, Short, SizeOf, Links;
      var w := start;
      SiblingKids(T(), sp, order, bh, temp, p, w);
      assert At(w) && At(w.left) && At(w.right) && At(p);
      if !w.left.red && !w.right.red {
        bh := RecolorStep(T(), sp, order, bh, temp, p, w);
        PutRed(w, true);
        next := p;
      } else {
        ghost var m := mem;
        if !w.right.red {
          w := TurnOutLeft(temp, p, w);
          m := mem;
        } else {
          SameKeysSelf(mem);
        }
        SettleDeleteLeft(temp, p, w);
        SameKeysAgain(old(mem), m, mem);
        next := root;
      }
    }

    // One round of the loop of ngx_rbtree_delete at a left child.
    method FixDeleteLeft(temp: Node, p: Node) returns (next: Node)
      requires Sync() && temp in repr && p in repr && p in mem && DeleteLeft(T(), sp, order, bh, temp, p, mem[p].right)
      modifies `root, `mem, `sp, `bh, repr
      ensures Sync() && next in repr && Short(T(), sp, order, bh, next) && SameKeys(old(mem), mem)
      ensures next == root || IsRed(T(), next) || SizeOf(sp, next) > SizeOf(old(sp), temp)
    {
      hide DeleteLeft, DeleteRight, SetRed, LeftRotate, RightRotate, SameKeys, Short, SizeOf, Links;
      SiblingKids(T(), sp, order, bh, temp, p, mem[p].right);
      assert At(p) && At(p.right);
      var w := p.right;
      SameKeysSelf(mem);
      ghost var m := mem;
      if w.red {
        w := SiblingLeft(temp, p, w);
        m := mem;
      }
      next := FixBlackSiblingLeft(temp, p, w);
      SameKeysAgain(old(mem), m, mem);
    }

    // Deletion at a right child with a black sibling.
    method FixBlackSiblingRight(temp: Node, p: Node, start: Node) returns (next: Node)
      requires Sync() && temp in repr && p in repr && start in repr
               && DeleteRight(T(), sp, order, bh, temp, p, start) && !IsRed(T(), start)
      modifies `root, `mem, `sp, `bh, repr
      ensures Sync() && next in repr && Short(T(), sp, order, bh, next) && SameKeys(old(mem), mem)
      ensures next == root ||
              (sp == old(sp) && SizeOf(sp, next) > SizeOf(sp, temp) && next == p
               && (IsRed(old(T()), p) ==> IsRed(T(), p)))
    {
      hide DeleteLeft, DeleteRight, SetRed, LeftRotate, RightRotate, SameKeys, Short, SizeOf, Links;
      var w := start;
      SiblingKids(T(), sp, order, bh, temp, p, w);
      assert At(w) && At(w.left) && At(w.right) && At(p);
      if !w.left.red && !w.right.red {
        bh := RecolorStep(T(), sp, order, bh, temp, p, w);
        PutRed(w, true);
        next := p;
      } else {
        ghost var m := mem;
        if !w.left.red {
          w := TurnOutRight(temp, p, w);
          m := mem;
        } else {
          SameKeysSelf(mem);
        }
        SettleDeleteRight(temp, p, w);
        SameKeysAgain(old(mem), m, mem);
        next := root;
      }
    }

    // One round of the loop of ngx_rbtree_delete at a right child.
    method FixDeleteRight(temp: Node, p: Node) returns (next: Node)
      requires Sync() && temp in repr && p in repr && p in mem && DeleteRight(T(), sp, order, bh, temp, p, mem[p].left)
      modifies `root, `mem, `sp, `bh, repr
      ensures Sync() && next in repr && Short(T(), sp, order, bh, next) && SameKeys(old(mem), mem)
      ensures next == root || IsRed(T(), next) || SizeOf(sp, next) > SizeOf(old(sp), temp)
    {
      hide DeleteLeft, DeleteRight, SetRed, LeftRotate, RightRotate, SameKeys, Short, SizeOf, Links;
      SiblingKids(T(), sp, order, bh, temp, p, mem[p].left);
      assert At(p) && At(p.left);
      var w := p.left;
      SameKeysSelf(mem);
      ghost var m := mem;
      if w.red {
        w := SiblingRight(temp, p, w);
        m := mem;
      }
      next := FixBlackSiblingRight(temp, p, w);
      SameKeysAgain(old(mem), m, mem);
    }

    // The loop of ngx_rbtree_delete and the painting of the node it ends at.
    method FixDelete(start: Node)
      requires Sync() && start in repr && Short(T(), sp, order, bh, start)
      modifies `root, `mem, `sp, `bh, repr
      ensures Sync() && RedBlack(T(), sp, order, bh) && SameKeys(old(mem), mem)
    {
      hide DeleteLeft, DeleteRight, SameKeys, Short, RedBlack, SizeOf, Links;
      var temp := start;
      SameKeysSelf(mem);
      assert At(temp);
      while temp != root && !temp.red
        invariant Sync() && temp in repr && At(temp) && Short(T(), sp, order, bh, temp) && SameKeys(old(mem), mem)
        decreases if temp == root || IsRed(T(), temp) then 0 else 1, |order| - SizeOf(sp, temp)
      {
        ghost var m := mem;
        Sides(T(), sp, order, bh, temp);
        ShortSize(T(), sp, order, bh, temp);
        assert At(temp.parent);
        if temp == temp.parent.left {
          temp := FixDeleteLeft(temp, temp.parent);
        } else {
          temp := FixDeleteRight(temp, temp.parent);
        }
        assert At(temp);
        SameKeysAgain(old(mem), m, mem);
        ShortSize(T(), sp, order, bh, temp);
      }
      ghost var last := mem;
      FinishDelete(temp);
      SameKeysAgain(old(mem), last, mem);
    }

    // ngx_rbt_black(temp)
    method FinishDelete(temp: Node)
      requires Sync() && temp in repr && Short(T(), sp, order, bh, temp) && (temp == root || IsRed(T(), temp))
      modifies `mem, `bh, repr
      ensures Sync() && RedBlack(T(), sp, order, bh) && SameKeys(old(mem), mem)
    {
      hide RedBlack, SameKeys, Short, RootHeights;
      DeleteDone(T(), sp, order, bh, temp);
      PaintKeys(T(), temp, false);
      bh := RootHeights(T(), bh, temp);
      assert At(temp);
      PutRed(temp, false);
    }

    // ngx_rbtree_delete, the choice of the node that leaves its place.
    method ChooseSubst(node: Node) returns (subst: Node, temp: Node)
      requires Sync() && RedBlack(T(), sp, order, bh) && node in repr && node != sentinel
      ensures subst in repr && temp in repr && Chosen(T(), sp, order, node, subst, temp)
    {
      assert At(node) && node in sp && LinkAt(T(), sp, order, node);
      if node.left == sentinel {
        assert node.right in mem && At(node.right);
        temp, subst := node.right, node;
      } else if node.right == sentinel {
        assert node.left in mem && At(node.left);
        temp, subst := node.left, node;
      } else {
        assert node.right in sp && At(node.right);
        subst := Min(node.right);
        assert At(subst) && LinkAt(T(), sp, order, subst);
        if subst.left != sentinel {
          // the minimum has no left child
          assert false;
          temp := sentinel;
        } else {
          temp := subst.right;
        }
      }
    }

    // ngx_rbtree_delete when the leaving node is the root.
    method DeleteTop(node: Node, temp: Node)
      requires Sync() && RedBlack(T(), sp, order, bh) && node in repr && temp in repr && node == root
      requires Chosen(T(), sp, order, node, node, temp)
      modifies this, repr
      ensures Sync() && RedBlack(T(), sp, order, bh) && repr == old(repr) - {node}
      ensures 0 <= old(sp)[node].pos < |old(order)| && order == RbEdit.Remove(old(order), old(sp)[node].pos)
      ensures KeysBut(old(mem), mem, node) && Cleared(node)
    {
      hide RedBlack, Links, RemovedSpans, RootHeights, RbEdit.Remove;
      TopStep(T(), sp, order, bh, node, temp);
      ghost var sp', bh', order' := RemovedSpans(sp, sp[node].pos, node), RootHeights(Splice(T(), node), bh, temp),
                                    RbEdit.Remove(order, sp[node].pos);
      root := temp;
      assert At(temp);
      PutRed(temp, false);
      Forget(node);
      sp, bh, order := sp', bh', order';
    }

    // ngx_rbtree_delete when the leaving node has a parent.
    method DeleteBelow(node: Node, subst: Node, temp: Node)
      requires Sync() && RedBlack(T(), sp, order, bh) && node in repr && subst in repr && temp in repr
               && node != sentinel
      requires Chosen(T(), sp, order, node, subst, temp) && subst != root
      modifies this, repr
      ensures Sync() && RedBlack(T(), sp, order, bh) && repr == old(repr) - {node}
      ensures 0 <= old(sp)[node].pos < |old(order)| && order == RbEdit.Remove(old(order), old(sp)[node].pos)
      ensures KeysBut(old(mem), mem, node) && Cleared(node)
    {
      hide RedBlack, Links, Unlink, Short, Chosen, KeysBut, SameKeys, UnlinkDefined, RbEdit.Remove;
      ChosenNodes(T(), sp, order, node, subst, temp);
      assert At(subst);
      var red := subst.red;
      ghost var sp', bh' := UnlinkChosen(T(), sp, order, bh, node, subst, temp);
      ghost var order' := RbEdit.Remove(order, sp[node].pos);
      UnlinkNode(node, subst, temp);
      sp, bh, order := sp', bh', order';
      if red {
        return;
      }
      ghost var m := mem;
      TempStays(old(mem), T(), sp, order, bh, node, temp);
      FixDelete(temp);
      KeysButSame(old(mem), m, mem, node);
    }

    // ngx_rbtree_delete
    method Delete(node: Node) returns (ghost k: nat)
      requires Valid() && node in repr && node != sentinel
      modifies this, repr
      ensures Valid() && repr == old(repr) - {node}
      ensures k < |old(order)| && old(order)[k] == node && order == RbEdit.Remove(old(order), k)
      ensures KeysBut(old(mem), mem, node) && forall x | x in repr :: x.key == old(x.key)
      ensures Cleared(node)
    {
      hide Links, RedBlack, KeysBut, Chosen, RbEdit.Remove, Sorted;
      var subst, temp := ChooseSubst(node);
      k := OwnPlace(T(), sp, order, bh, node);
      ChosenRoot(T(), sp, order, bh, node, subst, temp);
      if subst == root {
        DeleteTop(node, temp);
      } else {
        DeleteBelow(node, subst, temp);
      }
      SortedRemove(old(mem), mem, old(order), k, node);
      KeysButKeep(old(mem), mem, node);
      KeysStay();
    }

    // The pictures of both heaps show the same keys.
    twostate lemma {:induction false} KeysStay()
      requires old(Sync()) && Sync() && forall x | x in old(mem) && x in mem :: mem[x].key == old(mem)[x].key
      ensures forall x | x in old(repr) && x in repr :: x.key == old(x.key)
    {
      forall x | x in old(repr) && x in repr
        ensures x.key == old(x.key)
      {
        assert At(x) && old(At(x));
      }
    }

    // ngx_rbtree_next
    method Next(start: Node) returns (next: Node?)
      requires Valid() && start in repr && start != sentinel
      ensures start in sp && 0 <= sp[start].pos < |order| && order[sp[start].pos] == start
      ensures next == if sp[start].pos + 1 < |order| then order[sp[start].pos + 1] else null
    {
      assert At(start) && start in sp && LinkAt(T(), sp, order, start);
      if start.right != sentinel {
        assert At(start.right);
        next := Min(start.right);
        assert LinkAt(T(), sp, order, next);
        return;
      }
      var node := start;
      while true
        invariant node in repr && node in sp && At(node) && sp[node].hi == sp[start].pos + 1
        decreases |order| - SizeOf(sp, node)
      {
        assert LinkAt(T(), sp, order, node);
        if node == root {
          return null;
        }
        var parent := node.parent;
        RootIsTop(T(), sp, order, node);
        assert At(parent);
        if node == parent.left {
          return parent;
        }
        node := parent;
      }
    }
  }
}
