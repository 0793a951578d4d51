// Red-black tree, value level: linking a new leaf, unlinking a node with at
// most one child, and moving a node into the place of another.

module RbEdit {
  import opened RbLinks
  import opened RbColor
  import opened RbDelete

  // ngx_rbtree_insert_value, last part: node becomes the left or right child of x.
  function AddLeaf(t: Tree, x: Node?, node: Node?, key: nat, left: bool): Tree
    requires x in t.mem
  {
    var m := if left then SetLeft(t.mem, x, node) else SetRight(t.mem, x, node);
    t.(mem := m[node := Cell(key, t.nil, t.nil, x, true)])
  }

  function Insert(order: seq<Node?>, k: nat, node: Node?): seq<Node?>
    requires k <= |order|
  {
    order[..k] + [node] + order[k..]
  }

  function Remove(order: seq<Node?>, k: nat): seq<Node?>
    requires k < |order|
  {
    order[..k] + order[k + 1..]
  }

  // Spans after an insertion at k, below a node that is now after (left) or before k.
  ghost function InsertedSpans(sp: Spans, k: int, node: Node?, left: bool): Spans {
    var open := map x | x in sp ::
      Span(if sp[x].lo < k || (left && sp[x].lo == k) then sp[x].lo else sp[x].lo + 1,
           if sp[x].pos < k then sp[x].pos else sp[x].pos + 1,
           if sp[x].hi < k || (left && sp[x].hi == k) then sp[x].hi else sp[x].hi + 1);
    open[node := Span(k, k, k + 1)]
  }

  ghost predicate LeafSlot(t: Tree, sp: Spans, x: Node?, left: bool) {
    x in sp && x in t.mem && (if left then t.mem[x].left == t.nil else t.mem[x].right == t.nil)
  }

  ghost function SlotOf(sp: Spans, x: Node?, left: bool): int
    requires x in sp
  {
    if left then sp[x].pos else sp[x].pos + 1
  }

  // Where the children of z are after the insertion, and what they span.
  lemma {:induction false} AddLeafLeftAt(t: Tree, sp: Spans, order: seq<Node?>, x: Node?, node: Node?, key: nat,
      left: bool, z: Node?)
    requires Frame(t, sp, order) && LeafSlot(t, sp, x, left) && node !in t.mem && node !in sp && z in sp
    requires LinkAt(t, sp, order, x) && LinkAt(t, sp, order, z)
    ensures var t', sp' := AddLeaf(t, x, node, key, left), InsertedSpans(sp, SlotOf(sp, x, left), node, left);
            LeftAt(t', sp', z)
  {
    hide UpAt;
  }

  lemma {:induction false} AddLeafRightAt(t: Tree, sp: Spans, order: seq<Node?>, x: Node?, node: Node?, key: nat,
      left: bool, z: Node?)
    requires Frame(t, sp, order) && LeafSlot(t, sp, x, left) && node !in t.mem && node !in sp && z in sp
    requires LinkAt(t, sp, order, x) && LinkAt(t, sp, order, z)
    ensures var t', sp' := AddLeaf(t, x, node, key, left), InsertedSpans(sp, SlotOf(sp, x, left), node, left);
            RightAt(t', sp', z)
  {
    hide UpAt;
  }

  lemma {:induction false} AddLeafUpAt(t: Tree, sp: Spans, order: seq<Node?>, x: Node?, node: Node?, key: nat,
      left: bool, z: Node?)
    requires Frame(t, sp, order) && LeafSlot(t, sp, x, left) && node !in t.mem && node !in sp && z in sp
    requires LinkAt(t, sp, order, x) && LinkAt(t, sp, order, z)
    ensures var t', sp' := AddLeaf(t, x, node, key, left), InsertedSpans(sp, SlotOf(sp, x, left), node, left);
            UpAt(t', sp', z)
  {
    hide LeftAt, RightAt;
  }

  lemma {:induction false} AddLeafSides(t: Tree, sp: Spans, order: seq<Node?>, x: Node?, node: Node?, key: nat,
      left: bool, z: Node?)
    requires Links(t, sp, order) && LeafSlot(t, sp, x, left) && node !in t.mem && node !in sp
    requires 0 <= SlotOf(sp, x, left) <= |order| && z in sp
    ensures var t', sp' := AddLeaf(t, x, node, key, left), InsertedSpans(sp, SlotOf(sp, x, left), node, left);
            LeftAt(t', sp', z) && RightAt(t', sp', z) && UpAt(t', sp', z)
  {
    assert LinkAt(t, sp, order, x) && LinkAt(t, sp, order, z);
    AddLeafLeftAt(t, sp, order, x, node, key, left, z);
    AddLeafRightAt(t, sp, order, x, node, key, left, z);
    hide InsertedSpans, Links;
    AddLeafUpAt(t, sp, order, x, node, key, left, z);
  }

  lemma {:induction false} AddLeafLinkAt(t: Tree, sp: Spans, order: seq<Node?>, x: Node?, node: Node?, key: nat,
      left: bool, z: Node?)
    requires Links(t, sp, order) && LeafSlot(t, sp, x, left) && node !in t.mem && node !in sp
    requires 0 <= SlotOf(sp, x, left) <= |order| && z in sp
    ensures LinkAt(AddLeaf(t, x, node, key, left), InsertedSpans(sp, SlotOf(sp, x, left), node, left),
                   Insert(order, SlotOf(sp, x, left), node), z)
  {
    assert LinkAt(t, sp, order, x) && LinkAt(t, sp, order, z);
    var k := SlotOf(sp, x, left);
    var sp', order' := InsertedSpans(sp, k, node, left), Insert(order, k, node);
    assert 0 <= sp'[z].lo <= sp'[z].pos < sp'[z].hi <= |order'| && order'[sp'[z].pos] == z;
    hide Insert;
    AddLeafSides(t, sp, order, x, node, key, left, z);
  }

  lemma {:induction false} AddLeafFresh(t: Tree, sp: Spans, order: seq<Node?>, x: Node?, node: Node?, key: nat,
      left: bool)
    requires Links(t, sp, order) && LeafSlot(t, sp, x, left) && node !in t.mem
    ensures 0 <= SlotOf(sp, x, left) <= |order|
    ensures var t', k := AddLeaf(t, x, node, key, left), SlotOf(sp, x, left);
            LinkAt(t', InsertedSpans(sp, k, node, left), Insert(order, k, node), node)
  {
    assert LinkAt(t, sp, order, x);
  }

  lemma {:induction false} InsertedPositions(sp: Spans, order: seq<Node?>, k: nat, node: Node?, left: bool)
    requires k <= |order| && node !in sp
    requires forall i | 0 <= i < |order| :: order[i] in sp && sp[order[i]].pos == i
    ensures var sp', order' := InsertedSpans(sp, k, node, left), Insert(order, k, node);
            forall i | 0 <= i < |order'| :: order'[i] in sp' && sp'[order'[i]].pos == i
  {
    var sp', order' := InsertedSpans(sp, k, node, left), Insert(order, k, node);
    forall i | 0 <= i < |order'|
      ensures order'[i] in sp' && sp'[order'[i]].pos == i
    {
      var j := if i < k then i else i - 1;
      if i != k {
        assert order'[i] == order[j];
      }
    }
  }

  lemma {:induction false} AddLeafRoot(t: Tree, sp: Spans, order: seq<Node?>, x: Node?, node: Node?, key: nat,
      left: bool)
    requires Links(t, sp, order) && LeafSlot(t, sp, x, left) && node !in t.mem
    ensures var t', k := AddLeaf(t, x, node, key, left), SlotOf(sp, x, left);
            var sp' := InsertedSpans(sp, k, node, left);
            && t'.root == t.root && t'.nil == t.nil && t.root in sp && t.root in sp' && t.root != node
            && sp'[t.root].lo == 0 && sp'[t.root].hi == |order| + 1
            && (forall z | z in sp' :: z in t'.mem) && (forall z | z in t'.mem && z != t.nil :: z in sp')
            && t.nil in t'.mem && t.nil !in sp' && null !in t.mem
            && (node != null ==> null !in t'.mem)
  {
    assert LinkAt(t, sp, order, x);
    assert LinkAt(t, sp, order, t.root);
  }

  lemma {:induction false} AddLeafFrame(t: Tree, sp: Spans, order: seq<Node?>, x: Node?, node: Node?, key: nat,
      left: bool)
    requires Links(t, sp, order) && LeafSlot(t, sp, x, left) && node !in t.mem && node != null
    ensures x in t.mem && x in sp && node !in sp && 0 <= SlotOf(sp, x, left) <= |order|
    ensures var k := SlotOf(sp, x, left);
            var sp' := InsertedSpans(sp, k, node, left);
            && Frame(AddLeaf(t, x, node, key, left), sp', Insert(order, k, node))
            && forall z | z in sp' && z != node :: z in sp
  {
    AddLeafFresh(t, sp, order, x, node, key, left);
    AddLeafRoot(t, sp, order, x, node, key, left);
    var k := SlotOf(sp, x, left);
    InsertedPositions(sp, order, k, node, left);
    assert |Insert(order, k, node)| == |order| + 1;
    assert forall z | z in InsertedSpans(sp, k, node, left) && z != node :: z in sp;
    hide AddLeaf, InsertedSpans, Insert, LinkAt;
  }

  lemma {:induction false} AddLeafKeepsLinks(t: Tree, sp: Spans, order: seq<Node?>, x: Node?, node: Node?,
      key: nat, left: bool)
    requires Links(t, sp, order) && LeafSlot(t, sp, x, left) && node !in t.mem && node != null
    ensures 0 <= SlotOf(sp, x, left) <= |order|
    ensures var k := SlotOf(sp, x, left);
            Links(AddLeaf(t, x, node, key, left), InsertedSpans(sp, k, node, left), Insert(order, k, node))
  {
    hide AddLeaf, InsertedSpans, Insert, LinkAt, Frame, Links, LeafSlot;
    AddLeafFrame(t, sp, order, x, node, key, left);
    var k := SlotOf(sp, x, left);
    var t', sp', order' := AddLeaf(t, x, node, key, left), InsertedSpans(sp, k, node, left), Insert(order, k, node);
    forall z | z in sp' && z in t'.mem
      ensures LinkAt(t', sp', order', z)
    {
      if z == node {
        AddLeafFresh(t, sp, order, x, node, key, left);
      } else {
        AddLeafLinkAt(t, sp, order, x, node, key, left, z);
      }
    }
    FrameLinks(t', sp', order');
  }

  lemma {:induction false} AddLeafColorsAt(t: Tree, sp: Spans, order: seq<Node?>, bh: Heights, x: Node?,
      node: Node?, key: nat, left: bool, z: Node?)
    requires RedBlack(t, sp, order, bh) && LeafSlot(t, sp, x, left) && node !in t.mem && node != null
    requires z in sp || z == node
    ensures z in AddLeaf(t, x, node, key, left).mem && z in bh[node := 0]
    ensures HeightAt(AddLeaf(t, x, node, key, left), bh[node := 0], null, z)
    ensures RedAt(AddLeaf(t, x, node, key, left), z, node)
  {
    if z != node {
      assert HeightAt(t, bh, null, z) && RedAt(t, z, null) && LinkAt(t, sp, order, z);
    }
  }

  // A new red leaf leaves at most one violation, between it and its parent.
  lemma {:induction false} AddLeafInserting(t: Tree, sp: Spans, order: seq<Node?>, bh: Heights, x: Node?,
      node: Node?, key: nat, left: bool)
    requires RedBlack(t, sp, order, bh) && LeafSlot(t, sp, x, left) && node !in t.mem && node != null
    ensures 0 <= SlotOf(sp, x, left) <= |order|
    ensures var k := SlotOf(sp, x, left);
            Inserting(AddLeaf(t, x, node, key, left), InsertedSpans(sp, k, node, left), Insert(order, k, node),
                      bh[node := 0], node)
  {
    AddLeafKeepsLinks(t, sp, order, x, node, key, left);
    AddLeafRoot(t, sp, order, x, node, key, left);
    var t', bh' := AddLeaf(t, x, node, key, left), bh[node := 0];
    assert !IsRed(t', t.root) && !IsRed(t', t.nil) && IsRed(t', node);
    assert forall z | z in t'.mem && z != t.nil && z != node :: z in sp;
    assert node in InsertedSpans(sp, SlotOf(sp, x, left), node, left);
    hide HeightAt, RedAt, LinkAt, AddLeaf, InsertedSpans, Insert;
    forall z | z in t'.mem && z != t'.nil
      ensures HeightAt(t', bh', null, z) && RedAt(t', z, node)
    {
      AddLeafColorsAt(t, sp, order, bh, x, node, key, left, z);
    }
    assert Balanced(t', bh', null);
  }

  // First half of ngx_rbtree_delete: x, which has at most one child, is replaced
  // by that child (or by the sentinel, whose parent field is then set too).
  function Child(t: Tree, x: Node?): Node?
    requires x in t.mem
  {
    if t.mem[x].left == t.nil then t.mem[x].right else t.mem[x].left
  }

  function Splice(t: Tree, x: Node?): Tree
    requires x in t.mem && Child(t, x) in t.mem && (x != t.root ==> t.mem[x].parent in t.mem)
  {
    var c := Child(t, x);
    if x == t.root then Tree(t.mem - {x}, c, t.nil)
    else
      var q := t.mem[x].parent;
      var m := if t.mem[q].left == x then SetLeft(t.mem, q, c) else SetRight(t.mem, q, c);
      Tree(SetParent(m, c, q) - {x}, t.root, t.nil)
  }

  ghost function RemovedSpans(sp: Spans, k: int, x: Node?): Spans {
    map z | z in sp && z != x ::
      Span(if sp[z].lo <= k then sp[z].lo else sp[z].lo - 1,
           if sp[z].pos < k then sp[z].pos else sp[z].pos - 1,
           if sp[z].hi <= k then sp[z].hi else sp[z].hi - 1)
  }

  ghost predicate Spliceable(t: Tree, sp: Spans, order: seq<Node?>, x: Node?) {
    Links(t, sp, order) && x in sp && (t.mem[x].left == t.nil || t.mem[x].right == t.nil)
  }

  lemma {:induction false} SpliceReady(t: Tree, sp: Spans, order: seq<Node?>, x: Node?)
    requires Spliceable(t, sp, order, x)
    ensures LinkAt(t, sp, order, x) && Child(t, x) in t.mem && Child(t, x) != x
    ensures Child(t, x) != t.nil ==> Child(t, x) in sp && LinkAt(t, sp, order, Child(t, x))
    ensures x != t.root ==>
              var q := t.mem[x].parent;
              && q in sp && q != x && q != Child(t, x) && LinkAt(t, sp, order, q)
              && (t.mem[q].left == x <==> sp[x].pos < sp[q].pos)
              && (t.mem[q].right == x <==> sp[x].pos > sp[q].pos)
  {
    assert LinkAt(t, sp, order, x);
    var c := Child(t, x);
    if c != t.nil {
      assert LinkAt(t, sp, order, c);
    }
    if x != t.root {
      RootIsTop(t, sp, order, x);
    }
  }

  // The fields of z after splicing out x, with parent q and child c.
  ghost function Spliced(t: Tree, x: Node?, c: Node?, z: Node?): Cell
    requires x in t.mem && z in t.mem
  {
    var q := t.mem[x].parent;
    if x == t.root then t.mem[z]
    else
      Cell(t.mem[z].key,
        if z == q && t.mem[z].left == x then c else t.mem[z].left,
        if z == q && t.mem[z].left != x then c else t.mem[z].right,
        if z == c then q else t.mem[z].parent,
        t.mem[z].red)
  }

  ghost predicate IsSpliced(t: Tree, t': Tree, x: Node?, c: Node?)
    requires x in t.mem
  {
    && t'.nil == t.nil && t'.root == (if x == t.root then c else t.root) && x !in t'.mem
    && (forall z | z in t.mem && z != x :: z in t'.mem && t'.mem[z] == Spliced(t, x, c, z))
    && (forall z | z in t'.mem :: z in t.mem)
  }

  lemma {:induction false} SpliceEffect(t: Tree, x: Node?)
    requires x in t.mem && Child(t, x) in t.mem && Child(t, x) != x
    requires x != t.root ==> t.mem[x].parent in t.mem && t.mem[x].parent != x && t.mem[x].parent != Child(t, x)
    ensures IsSpliced(t, Splice(t, x), x, Child(t, x))
  {
  }

  ghost predicate SpliceAround(t: Tree, sp: Spans, order: seq<Node?>, x: Node?, c: Node?, z: Node?) {
    && Spliceable(t, sp, order, x) && z in sp && z != x && c in t.mem && c == Child(t, x) && c != x
    && LinkAt(t, sp, order, x) && LinkAt(t, sp, order, z)
    && (t.mem[z].left != t.nil ==> t.mem[z].left in sp && LinkAt(t, sp, order, t.mem[z].left))
    && (t.mem[z].right != t.nil ==> t.mem[z].right in sp && LinkAt(t, sp, order, t.mem[z].right))
    && (c != t.nil ==> c in sp && LinkAt(t, sp, order, c))
    && (x != t.root ==>
          var q := t.mem[x].parent;
          && q in sp && q != x && q != c && LinkAt(t, sp, order, q)
          && (t.mem[q].left == x <==> sp[x].pos < sp[q].pos)
          && (t.mem[q].right == x <==> sp[x].pos > sp[q].pos))
    && (t.mem[z].left == x || t.mem[z].right == x ==> x != t.root && t.mem[x].parent == z)
  }

  lemma {:induction false} SpliceLeftAt(t: Tree, sp: Spans, order: seq<Node?>, x: Node?, c: Node?, t': Tree, z: Node?)
    requires SpliceAround(t, sp, order, x, c, z) && IsSpliced(t, t', x, c)
    ensures z in t'.mem && LeftAt(t', RemovedSpans(sp, sp[x].pos, x), z)
  {
    hide UpAt;
  }

  lemma {:induction false} SpliceRightAt(t: Tree, sp: Spans, order: seq<Node?>, x: Node?, c: Node?, t': Tree, z: Node?)
    requires SpliceAround(t, sp, order, x, c, z) && IsSpliced(t, t', x, c)
    ensures z in t'.mem && RightAt(t', RemovedSpans(sp, sp[x].pos, x), z)
  {
    hide UpAt;
  }

  lemma {:induction false} SpliceUpAt(t: Tree, sp: Spans, order: seq<Node?>, x: Node?, c: Node?, t': Tree, z: Node?)
    requires SpliceAround(t, sp, order, x, c, z) && IsSpliced(t, t', x, c)
    requires z != t.root ==> t.mem[z].parent in sp && LinkAt(t, sp, order, t.mem[z].parent)
    ensures z in t'.mem && UpAt(t', RemovedSpans(sp, sp[x].pos, x), z)
  {
  }

  lemma {:induction false} SpliceAroundHolds(t: Tree, sp: Spans, order: seq<Node?>, x: Node?, z: Node?)
    requires Spliceable(t, sp, order, x) && z in sp && z != x
    ensures Child(t, x) in t.mem && SpliceAround(t, sp, order, x, Child(t, x), z)
    ensures z != t.root ==> t.mem[z].parent in sp && LinkAt(t, sp, order, t.mem[z].parent)
  {
    SpliceReady(t, sp, order, x);
    assert LinkAt(t, sp, order, z);
    if t.mem[z].left != t.nil {
      assert LinkAt(t, sp, order, t.mem[z].left);
    }
    if t.mem[z].right != t.nil {
      assert LinkAt(t, sp, order, t.mem[z].right);
    }
    if t.mem[z].left == x || t.mem[z].right == x {
      RootHasNoParent(t, sp, order, z, x);
    }
    if z != t.root {
      assert LinkAt(t, sp, order, t.mem[z].parent);
    }
  }

  lemma {:induction false} SpliceSpanAt(sp: Spans, order: seq<Node?>, k: nat, x: Node?, z: Node?)
    requires k < |order| && order[k] == x && z in sp && z != x
    requires 0 <= sp[z].lo <= sp[z].pos < sp[z].hi <= |order| && order[sp[z].pos] == z
    ensures var s, order' := RemovedSpans(sp, k, x)[z], Remove(order, k);
            0 <= s.lo <= s.pos < s.hi <= |order'| && order'[s.pos] == z
  {
  }

  lemma {:induction false} SpliceLinkAt(t: Tree, sp: Spans, order: seq<Node?>, x: Node?, t': Tree, z: Node?)
    requires Spliceable(t, sp, order, x) && Child(t, x) in t.mem && IsSpliced(t, t', x, Child(t, x)) && z in sp
             && z != x
    requires 0 <= sp[x].pos < |order|
    ensures z in t'.mem
    ensures LinkAt(t', RemovedSpans(sp, sp[x].pos, x), Remove(order, sp[x].pos), z)
  {
    var c := Child(t, x);
    SpliceAroundHolds(t, sp, order, x, z);
    SpliceSpanAt(sp, order, sp[x].pos, x, z);
    hide SpliceAround, IsSpliced, LeftAt, RightAt, UpAt, Remove, RemovedSpans;
    SpliceLeftAt(t, sp, order, x, c, t', z);
    SpliceRightAt(t, sp, order, x, c, t', z);
    SpliceUpAt(t, sp, order, x, c, t', z);
  }

  lemma {:induction false} RemovedPositions(sp: Spans, order: seq<Node?>, k: nat, x: Node?)
    requires k < |order| && order[k] == x
    requires forall i | 0 <= i < |order| :: order[i] in sp && sp[order[i]].pos == i
    ensures var sp', order' := RemovedSpans(sp, k, x), Remove(order, k);
            forall i | 0 <= i < |order'| :: order'[i] in sp' && sp'[order'[i]].pos == i
  {
    var sp', order' := RemovedSpans(sp, k, x), Remove(order, k);
    forall i | 0 <= i < |order'|
      ensures order'[i] in sp' && sp'[order'[i]].pos == i
    {
      var j := if i < k then i else i + 1;
      assert order'[i] == order[j];
    }
  }

  lemma {:induction false} SpliceRoot(t: Tree, sp: Spans, order: seq<Node?>, x: Node?, t': Tree)
    requires Spliceable(t, sp, order, x) && Child(t, x) in t.mem && IsSpliced(t, t', x, Child(t, x))
    ensures 0 <= sp[x].pos < |order| && order[sp[x].pos] == x
    ensures var sp' := RemovedSpans(sp, sp[x].pos, x);
            && (if |order| == 1 then t'.root == t.nil
                else t'.root in sp' && sp'[t'.root].lo == 0 && sp'[t'.root].hi == |order| - 1)
            && (forall z | z in sp' :: z in t'.mem && z in sp && z != x)
            && (forall z | z in t'.mem && z != t.nil :: z in sp')
            && t.nil in t'.mem && t.nil !in sp' && null !in t'.mem
  {
    SpliceReady(t, sp, order, x);
    assert LinkAt(t, sp, order, x);
    assert LinkAt(t, sp, order, t.root);
    if |order| == 1 {
      assert t.root == x;
    }
  }

  lemma {:induction false} SpliceDefined(t: Tree, sp: Spans, order: seq<Node?>, x: Node?)
    requires Spliceable(t, sp, order, x)
    ensures x in sp && x in t.mem && Child(t, x) in t.mem && (x != t.root ==> t.mem[x].parent in t.mem)
    ensures IsSpliced(t, Splice(t, x), x, Child(t, x))
  {
    SpliceReady(t, sp, order, x);
    SpliceEffect(t, x);
  }

  lemma {:induction false} SpliceFrame(t: Tree, sp: Spans, order: seq<Node?>, x: Node?, t': Tree)
    requires Spliceable(t, sp, order, x) && Child(t, x) in t.mem && IsSpliced(t, t', x, Child(t, x))
    ensures 0 <= sp[x].pos < |order|
    ensures var sp' := RemovedSpans(sp, sp[x].pos, x);
            Frame(t', sp', Remove(order, sp[x].pos)) && forall z | z in sp' :: z in sp && z != x
  {
    SpliceRoot(t, sp, order, x, t');
    RemovedPositions(sp, order, sp[x].pos, x);
    assert |Remove(order, sp[x].pos)| == |order| - 1;
    assert t'.nil == t.nil;
    hide IsSpliced, RemovedSpans, Remove, LinkAt, Child;
  }

  lemma {:induction false} SpliceKeepsLinks(t: Tree, sp: Spans, order: seq<Node?>, x: Node?)
    requires Spliceable(t, sp, order, x)
    ensures Child(t, x) in t.mem && (x != t.root ==> t.mem[x].parent in t.mem)
    ensures IsSpliced(t, Splice(t, x), x, Child(t, x))
    ensures 0 <= sp[x].pos < |order|
    ensures Links(Splice(t, x), RemovedSpans(sp, sp[x].pos, x), Remove(order, sp[x].pos))
  {
    SpliceDefined(t, sp, order, x);
    hide Splice, IsSpliced, RemovedSpans, Remove, LinkAt, Child, Frame, Links, Spliceable;
    var t' := Splice(t, x);
    SpliceFrame(t, sp, order, x, t');
    var sp', order' := RemovedSpans(sp, sp[x].pos, x), Remove(order, sp[x].pos);
    forall z | z in sp' && z in t'.mem
      ensures LinkAt(t', sp', order', z)
    {
      SpliceLinkAt(t, sp, order, x, t', z);
    }
    FrameLinks(t', sp', order');
  }

  lemma {:induction false} SpliceHeightAt(t: Tree, sp: Spans, order: seq<Node?>, bh: Heights, x: Node?, c: Node?,
      t': Tree, z: Node?)
    requires SpliceAround(t, sp, order, x, c, z) && IsSpliced(t, t', x, c) && x != t.root
    requires x in bh && z in bh && c in bh && t.nil in bh && bh[t.nil] == 0
    requires HeightAt(t, bh, null, x) && HeightAt(t, bh, null, z)
    ensures z in t'.mem && HeightAt(t', bh, if t.mem[x].red then null else c, z)
  {
    hide UpAt;
  }

  lemma {:induction false} SpliceRedAt(t: Tree, sp: Spans, order: seq<Node?>, x: Node?, c: Node?, t': Tree, z: Node?)
    requires SpliceAround(t, sp, order, x, c, z) && IsSpliced(t, t', x, c) && x != t.root
    requires RedAt(t, x, null) && RedAt(t, z, null) && !IsRed(t, t.nil)
    ensures z in t'.mem && RedAt(t', z, if t.mem[x].red then null else c)
  {
    hide UpAt, LeftAt, RightAt;
  }

  lemma {:induction false} SpliceSiblings(t: Tree, sp: Spans, order: seq<Node?>, bh: Heights, x: Node?, c: Node?,
      q: Node?, t': Tree)
    requires SpliceAround(t, sp, order, x, c, q) && IsSpliced(t, t', x, c) && x != t.root && q == t.mem[x].parent
    requires x in bh && q in bh && c in bh && t.nil in bh && bh[t.nil] == 0
    requires HeightAt(t, bh, null, x) && HeightAt(t, bh, null, q) && !t.mem[x].red
    ensures t'.mem[c].parent == q && (t'.mem[q].left == c || t'.mem[q].right == c) && t'.mem[q].left != t'.mem[q].right
  {
    hide UpAt;
  }

  lemma {:induction false} SpliceColor(t: Tree, sp: Spans, order: seq<Node?>, x: Node?, z: Node?)
    requires Spliceable(t, sp, order, x) && x != t.root && z in t.mem && z != x
    requires Child(t, x) in t.mem && t.mem[x].parent in t.mem
    ensures IsRed(Splice(t, x), z) == IsRed(t, z) && Splice(t, x).root == t.root && Splice(t, x).nil == t.nil
  {
  }

  // Removing a red node with at most one child keeps everything in order.
  lemma {:induction false} SpliceRed(t: Tree, sp: Spans, order: seq<Node?>, bh: Heights, x: Node?)
    requires RedBlack(t, sp, order, bh) && Spliceable(t, sp, order, x) && x != t.root && t.mem[x].red
    ensures Child(t, x) in t.mem && t.mem[x].parent in t.mem && 0 <= sp[x].pos < |order|
    ensures RedBlack(Splice(t, x), RemovedSpans(sp, sp[x].pos, x), Remove(order, sp[x].pos), bh)
  {
    hide Splice, HeightAt, RedAt, LinkAt, SpliceAround;
    SpliceKeepsLinks(t, sp, order, x);
    SpliceColor(t, sp, order, x, t.nil);
    SpliceColor(t, sp, order, x, t.root);
    var t', c := Splice(t, x), Child(t, x);
    forall z | z in sp && z != x
      ensures z in t'.mem && HeightAt(t', bh, null, z) && RedAt(t', z, null)
    {
      SpliceAroundHolds(t, sp, order, x, z);
      assert HeightAt(t, bh, null, z) && HeightAt(t, bh, null, x) && RedAt(t, z, null) && RedAt(t, x, null);
      SpliceHeightAt(t, sp, order, bh, x, c, t', z);
      SpliceRedAt(t, sp, order, x, c, t', z);
    }
  }

  // The node below x's parent after the splice of a black x.
  lemma {:induction false} SpliceBlackTop(t: Tree, sp: Spans, order: seq<Node?>, bh: Heights, x: Node?)
    requires RedBlack(t, sp, order, bh) && Spliceable(t, sp, order, x) && x != t.root && !t.mem[x].red
    requires Child(t, x) in t.mem && t.mem[x].parent in t.mem && 0 <= sp[x].pos < |order|
    requires IsSpliced(t, Splice(t, x), x, Child(t, x))
    ensures var t', c, q := Splice(t, x), Child(t, x), t.mem[x].parent;
            && !IsRed(t', t'.nil) && !IsRed(t', t'.root) && c in t'.mem && q in RemovedSpans(sp, sp[x].pos, x)
            && q in t'.mem && t'.mem[c].parent == q && (t'.mem[q].left == c || t'.mem[q].right == c)
            && t'.mem[q].left != t'.mem[q].right
  {
    SpliceReady(t, sp, order, x);
    var t', c, q := Splice(t, x), Child(t, x), t.mem[x].parent;
    assert HeightAt(t, bh, null, x) && HeightAt(t, bh, null, q);
    hide Splice, LinkAt, HeightAt, RedAt;
    SpliceAroundHolds(t, sp, order, x, q);
    SpliceSiblings(t, sp, order, bh, x, c, q, t');
  }

  lemma {:induction false} InMemory(t: Tree, sp: Spans, order: seq<Node?>)
    requires Links(t, sp, order)
    ensures null !in t.mem && t.nil !in sp
    ensures (forall z | z in sp :: z in t.mem) && (forall z | z in t.mem && z != t.nil :: z in sp)
  {
  }

  // Removing a black node leaves its slot one black node short.
  lemma {:induction false} SpliceBlack(t: Tree, sp: Spans, order: seq<Node?>, bh: Heights, x: Node?)
    requires RedBlack(t, sp, order, bh) && Spliceable(t, sp, order, x) && x != t.root && !t.mem[x].red
    ensures Child(t, x) in t.mem && t.mem[x].parent in t.mem && 0 <= sp[x].pos < |order|
    ensures Short(Splice(t, x), RemovedSpans(sp, sp[x].pos, x), Remove(order, sp[x].pos), bh, Child(t, x))
  {
    hide Splice, HeightAt, RedAt, LinkAt, SpliceAround, RemovedSpans, Links, Child, Remove;
    InMemory(t, sp, order);
    SpliceKeepsLinks(t, sp, order, x);
    SpliceBlackTop(t, sp, order, bh, x);
    var t', c := Splice(t, x), Child(t, x);
    forall z | z in sp && z != x
      ensures z in t'.mem && HeightAt(t', bh, c, z) && RedAt(t', z, c)
    {
      SpliceAroundHolds(t, sp, order, x, z);
      assert HeightAt(t, bh, null, z) && HeightAt(t, bh, null, x) && RedAt(t, z, null) && RedAt(t, x, null);
      SpliceHeightAt(t, sp, order, bh, x, c, t', z);
      SpliceRedAt(t, sp, order, x, c, t', z);
    }
  }

  // Removing a root with at most one child: the child becomes the black root.
  lemma {:induction false} SpliceTop(t: Tree, sp: Spans, order: seq<Node?>, bh: Heights, x: Node?)
    requires RedBlack(t, sp, order, bh) && Spliceable(t, sp, order, x) && x == t.root
    ensures Child(t, x) in t.mem && Child(t, x) in Splice(t, x).mem && Child(t, x) in bh && 0 <= sp[x].pos < |order|
    ensures RedBlack(Paint(Splice(t, x), Child(t, x), false), RemovedSpans(sp, sp[x].pos, x), Remove(order, sp[x].pos),
                     RootHeights(Splice(t, x), bh, Child(t, x)))
  {
    SpliceKeepsLinks(t, sp, order, x);
    SpliceReady(t, sp, order, x);
    var t', c := Splice(t, x), Child(t, x);
    var sp', order' := RemovedSpans(sp, sp[x].pos, x), Remove(order, sp[x].pos);
    hide Splice, LinkAt, SpliceAround;
    forall z | z in t'.mem && z != t'.nil
      ensures z in sp && z != x
      ensures HeightAt(t', bh, c, z) && RedAt(t', z, c)
    {
      assert HeightAt(t, bh, null, z) && RedAt(t, z, null);
      SpliceAroundHolds(t, sp, order, x, z);
      SpliceTopAt(t, sp, order, bh, x, c, t', z);
    }
    hide HeightAt, RedAt, RemovedSpans;
    assert Balanced(t', bh, c);
    DeleteDone(t', sp', order', bh, c);
  }

  lemma {:induction false} SpliceTopAt(t: Tree, sp: Spans, order: seq<Node?>, bh: Heights, x: Node?, c: Node?,
      t': Tree, z: Node?)
    requires SpliceAround(t, sp, order, x, c, z) && IsSpliced(t, t', x, c) && x == t.root
    requires z in bh && HeightAt(t, bh, null, z) && RedAt(t, z, null)
    ensures z in t'.mem && HeightAt(t', bh, c, z) && RedAt(t', z, c)
  {
    assert LeftAt(t, sp, x) && RightAt(t, sp, x) && LeftAt(t, sp, z) && RightAt(t, sp, z);
    hide UpAt;
  }
}
