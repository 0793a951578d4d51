// Red-black tree, value level: black heights, the red rule, and what every
// rebalancing case of insertion and deletion does to them.

module RbColor {
  import opened RbLinks

  // Black heights, counting the node itself; the sentinel has height 0.
  type Heights = map<Node?, nat>

  // Height that x sees at its child c when the slot of temp below its parent is
  // one black node short.  With temp == null no slot is short.
  ghost function Seen(t: Tree, bh: Heights, temp: Node?, x: Node?, c: Node?): nat
    requires c in bh
  {
    bh[c] + if c == temp && temp in t.mem && t.mem[temp].parent == x then 1 else 0
  }

  ghost predicate HeightAt(t: Tree, bh: Heights, temp: Node?, x: Node?)
    requires x in t.mem && x in bh
  {
    var c := t.mem[x];
    && c.left in bh && c.right in bh
    && Seen(t, bh, temp, x, c.left) == Seen(t, bh, temp, x, c.right)
    && bh[x] == Seen(t, bh, temp, x, c.left) + if c.red then 0 else 1
  }

  // Every node's subtrees have equal black height.
  ghost predicate Balanced(t: Tree, bh: Heights, temp: Node?) {
    && (forall x | x in t.mem :: x in bh) && t.nil in bh && bh[t.nil] == 0
    && forall x {:trigger HeightAt(t, bh, temp, x)} | x in t.mem && x != t.nil :: HeightAt(t, bh, temp, x)
  }

  ghost predicate IsRed(t: Tree, x: Node?) {
    x in t.mem && t.mem[x].red
  }

  ghost predicate RedAt(t: Tree, x: Node?, child: Node?)
    requires x in t.mem
  {
    t.mem[x].red ==> (IsRed(t, t.mem[x].left) ==> t.mem[x].left == child)
                     && (IsRed(t, t.mem[x].right) ==> t.mem[x].right == child)
  }

  // No red node has a red child, except child below its parent and whatever is
  // below parent.
  ghost predicate RedRule(t: Tree, child: Node?, parent: Node?) {
    forall x {:trigger RedAt(t, x, child)} | x in t.mem && x != t.nil && x != parent :: RedAt(t, x, child)
  }

  ghost predicate RedBlack(t: Tree, sp: Spans, order: seq<Node?>, bh: Heights) {
    && Links(t, sp, order) && Balanced(t, bh, null) && RedRule(t, null, null)
    && !IsRed(t, t.nil) && !IsRed(t, t.root)
  }

  // Loop invariant of the insertion fixup at node.
  ghost predicate Inserting(t: Tree, sp: Spans, order: seq<Node?>, bh: Heights, node: Node?) {
    && Links(t, sp, order) && Balanced(t, bh, null) && RedRule(t, node, null)
    && node in sp && IsRed(t, node)
    && !IsRed(t, t.nil) && (node != t.root ==> !IsRed(t, t.root))
  }

  function Paint(t: Tree, x: Node?, red: bool): Tree
    requires x in t.mem
  {
    t.(mem := SetRed(t.mem, x, red))
  }

  lemma {:induction false} PaintKeepsLinks(t: Tree, sp: Spans, order: seq<Node?>, x: Node?, red: bool)
    requires Links(t, sp, order) && x in t.mem
    ensures Links(Paint(t, x, red), sp, order)
  {
    var t' := Paint(t, x, red);
    forall z | z in sp
      ensures LinkAt(t', sp, order, z)
    {
      assert LinkAt(t, sp, order, z);
    }
  }

  // The neighbourhood of a node that violates the red rule.
  lemma {:induction false} GrandparentExists(t: Tree, sp: Spans, order: seq<Node?>, bh: Heights, node: Node?)
    requires Inserting(t, sp, order, bh, node) && node != t.root && IsRed(t, t.mem[node].parent)
    ensures var p := t.mem[node].parent;
            && p in sp && p != t.root && t.mem[p].parent in sp
            && var g := t.mem[p].parent;
            && !IsRed(t, g) && p != node && g != p && g != node
            && LinkAt(t, sp, order, node) && LinkAt(t, sp, order, p) && LinkAt(t, sp, order, g)
            && t.mem[g].left in t.mem && t.mem[g].right in t.mem
            && (t.mem[g].left == p || t.mem[g].right == p) && t.mem[g].left != t.mem[g].right
            && (t.mem[p].left == node || t.mem[p].right == node)
  {
    assert LinkAt(t, sp, order, node);
    RootIsTop(t, sp, order, node);
    var p := t.mem[node].parent;
    RootIsTop(t, sp, order, p);
    var g := t.mem[p].parent;
    assert RedAt(t, g, node);
  }

  ghost function RecoloredHeights(bh: Heights, p: Node?, u: Node?): Heights
    requires p in bh && u in bh
  {
    bh[p := bh[p] + 1][u := bh[u] + 1]
  }

  // A child has only one parent.
  lemma {:induction false} NotChild(t: Tree, sp: Spans, order: seq<Node?>, z: Node?, c: Node?)
    requires Links(t, sp, order) && z in sp && c in sp && t.mem[c].parent != z
    ensures t.mem[z].left != c && t.mem[z].right != c
  {
    assert LinkAt(t, sp, order, z);
  }

  // Case 1 of insertion: p and u turn black and their parent g turns red.
  function Recolor(t: Tree, p: Node?, u: Node?, g: Node?): Tree
    requires p in t.mem && u in t.mem && g in t.mem
  {
    Paint(Paint(Paint(t, p, false), u, false), g, true)
  }

  ghost predicate Uncle(t: Tree, bh: Heights, p: Node?, u: Node?, g: Node?) {
    && p in t.mem && u in t.mem && g in t.mem && p != u && p != g && u != g && g != t.nil
    && t.mem[p].red && t.mem[u].red && !t.mem[g].red && p in bh && u in bh && g in bh
    && ((t.mem[g].left == p && t.mem[g].right == u) || (t.mem[g].left == u && t.mem[g].right == p))
  }

  lemma {:induction false} RecoloredCell(t: Tree, p: Node?, u: Node?, g: Node?, z: Node?)
    requires p in t.mem && u in t.mem && g in t.mem && p != g && u != g
    ensures z in Recolor(t, p, u, g).mem <==> z in t.mem
    ensures z in t.mem ==> Recolor(t, p, u, g).mem[z] == t.mem[z].(red := z == g || (t.mem[z].red && z != p && z != u))
  {
  }

  lemma {:induction false} RecoloredHeight(bh: Heights, p: Node?, u: Node?, z: Node?)
    requires p in bh && u in bh && p != u && z in bh
    ensures z in RecoloredHeights(bh, p, u)
    ensures RecoloredHeights(bh, p, u)[z] == bh[z] + if z == p || z == u then 1 else 0
  {
  }

  lemma {:induction false} RecolorHeight(t: Tree, bh: Heights, p: Node?, u: Node?, g: Node?, z: Node?)
    requires Uncle(t, bh, p, u, g) && z in t.mem && z in bh && HeightAt(t, bh, null, z)
    requires z != g ==> t.mem[z].left != p && t.mem[z].left != u && t.mem[z].right != p && t.mem[z].right != u
    ensures HeightAt(Recolor(t, p, u, g), RecoloredHeights(bh, p, u), null, z)
  {
    RecoloredCell(t, p, u, g, z);
    RecoloredCell(t, p, u, g, null);
    RecoloredHeight(bh, p, u, z);
    RecoloredHeight(bh, p, u, t.mem[z].left);
    RecoloredHeight(bh, p, u, t.mem[z].right);
    hide Recolor, RecoloredHeights;
  }

  lemma {:induction false} RecolorRed(t: Tree, bh: Heights, p: Node?, u: Node?, g: Node?, node: Node?, z: Node?)
    requires Uncle(t, bh, p, u, g) && z in t.mem && RedAt(t, z, node) && node in t.mem && t.mem[node].parent == p
    requires t.mem[z].left == node || t.mem[z].right == node ==> z == p
    ensures RedAt(Recolor(t, p, u, g), z, g)
  {
  }

  lemma {:induction false} RecolorFacts(t: Tree, sp: Spans, order: seq<Node?>, p: Node?, u: Node?, g: Node?)
    requires Links(t, sp, order) && p in t.mem && u in t.mem && g in t.mem && p != g && u != g
    ensures var t' := Recolor(t, p, u, g);
            && Links(t', sp, order) && t'.root == t.root && t'.nil == t.nil && t'.mem.Keys == t.mem.Keys
            && forall z | z in t.mem :: IsRed(t', z) == (z == g || (t.mem[z].red && z != p && z != u))
  {
    PaintKeepsLinks(t, sp, order, p, false);
    PaintKeepsLinks(Paint(t, p, false), sp, order, u, false);
    PaintKeepsLinks(Paint(Paint(t, p, false), u, false), sp, order, g, true);
  }

  lemma {:induction false} RecolorAt(t: Tree, sp: Spans, order: seq<Node?>, bh: Heights, node: Node?, p: Node?,
      u: Node?, g: Node?, z: Node?)
    requires Links(t, sp, order) && Uncle(t, bh, p, u, g) && z in sp && z in bh
    requires p in sp && u in sp && node in sp && t.mem[p].parent == g && t.mem[u].parent == g && t.mem[node].parent == p
    requires HeightAt(t, bh, null, z) && RedAt(t, z, node)
    ensures HeightAt(Recolor(t, p, u, g), RecoloredHeights(bh, p, u), null, z) && RedAt(Recolor(t, p, u, g), z, g)
  {
    hide HeightAt, RedAt, Recolor, RecoloredHeights;
    if z != g {
      NotChild(t, sp, order, z, p);
      NotChild(t, sp, order, z, u);
    }
    if z != p {
      NotChild(t, sp, order, z, node);
    }
    RecolorHeight(t, bh, p, u, g, z);
    RecolorRed(t, bh, p, u, g, node, z);
  }

  // Case 1: the uncle is red, so the violation moves up to the grandparent.
  lemma {:induction false} InsertRecolor(t: Tree, sp: Spans, order: seq<Node?>, bh: Heights, node: Node?, p: Node?,
      u: Node?, g: Node?)
    requires Inserting(t, sp, order, bh, node) && node != t.root
    requires p == t.mem[node].parent && Uncle(t, bh, p, u, g)
    ensures Inserting(Recolor(t, p, u, g), sp, order, RecoloredHeights(bh, p, u), g)
  {
    UncleSpans(t, sp, order, bh, node, p, u, g);
    hide LinkAt, HeightAt, RedAt, Recolor;
    RecolorFacts(t, sp, order, p, u, g);
    var t', bh' := Recolor(t, p, u, g), RecoloredHeights(bh, p, u);
    forall z | z in sp
      ensures HeightAt(t', bh', null, z) && RedAt(t', z, g)
    {
      assert HeightAt(t, bh, null, z) && RedAt(t, z, node);
      RecolorAt(t, sp, order, bh, node, p, u, g, z);
    }
    assert Balanced(t', bh', null);
    assert RedRule(t', g, null);
  }

  lemma {:induction false} UncleSpans(t: Tree, sp: Spans, order: seq<Node?>, bh: Heights, node: Node?, p: Node?,
      u: Node?, g: Node?)
    requires Inserting(t, sp, order, bh, node) && node != t.root
    requires p == t.mem[node].parent && Uncle(t, bh, p, u, g)
    ensures p in sp && u in sp && g in sp && t.mem[p].parent == g && t.mem[u].parent == g && p != t.root && u != t.root
  {
    GrandparentExists(t, sp, order, bh, node);
    assert LinkAt(t, sp, order, g);
  }

  // A left rotation at x of the linked tree t, with y and b the nodes that move.
  ghost predicate Rotation(t: Tree, sp: Spans, order: seq<Node?>, x: Node?, y: Node?, b: Node?, t': Tree) {
    && Links(t, sp, order) && x in sp && y in sp && x != y && b in t.mem && y == t.mem[x].right && b == t.mem[y].left
    && RotatableLeft(t, x) && IsLeftRotated(t, t', x)
    && t.mem[y].parent == x && (b != t.nil ==> b in sp && t.mem[b].parent == y)
    && (x != t.root ==> t.mem[x].parent in sp)
  }

  lemma {:induction false} RotationOf(t: Tree, sp: Spans, order: seq<Node?>, x: Node?)
    requires Links(t, sp, order) && x in sp && t.mem[x].right != t.nil
    ensures RotatableLeft(t, x)
    ensures Rotation(t, sp, order, x, t.mem[x].right, t.mem[t.mem[x].right].left, LeftRotate(t, x))
    ensures Links(LeftRotate(t, x), RotatedSpans(sp, x, t.mem[x].right), order)
  {
    RotatableLeftFromLinks(t, sp, order, x);
    LeftRotateEffect(t, x);
    LeftRotateKeepsLinks(t, sp, order, x);
    hide LeftRotate, RotatedSpans;
    assert LinkAt(t, sp, order, x);
    assert LinkAt(t, sp, order, t.mem[x].right);
  }

  lemma {:induction false} RotationColors(t: Tree, sp: Spans, order: seq<Node?>, x: Node?, y: Node?, b: Node?, t': Tree)
    requires Rotation(t, sp, order, x, y, b, t')
    ensures t'.nil == t.nil && t'.root == (if x == t.root then y else t.root)
    ensures forall z | z in t.mem :: z in t'.mem && IsRed(t', z) == IsRed(t, z)
    ensures forall z | z in t'.mem :: z in t.mem
  {
  }

  // bh' changes only the heights of x, y and y's right child r (r == null: only x and y).
  ghost predicate HeightsChange(t: Tree, bh: Heights, bh': Heights, x: Node?, y: Node?, r: Node?) {
    && (forall z | z in bh :: z in bh' && (z != x && z != y && z != r ==> bh'[z] == bh[z]))
    && x in bh && y in bh && bh'[y] == bh[x]
    && (r != null ==> y in t.mem && t.mem[y].right == r)
  }

  // The node whose slot is short is not one that moves.
  ghost predicate ShortStays(t: Tree, temp: Node?, x: Node?, y: Node?, b: Node?, r: Node?) {
    temp == null || (temp != x && temp != y && temp != r && (temp == b ==> b == t.nil))
  }

  // Where the nodes that move can and cannot be children.
  ghost predicate Aside(t: Tree, x: Node?, y: Node?, r: Node?, z: Node?)
    requires z in t.mem && x in t.mem
  {
    && t.mem[z].left in t.mem && t.mem[z].right in t.mem
    && t.mem[z].left != y && t.mem[z].right != y && (r != null ==> t.mem[z].left != r && t.mem[z].right != r)
    && (t.mem[z].left == x || t.mem[z].right == x ==> x != t.root && z == t.mem[x].parent)
    && (t.mem[z].left == x ==> t.mem[z].right != x)
    && (x != t.root && z == t.mem[x].parent ==> t.mem[z].left == x || t.mem[z].right == x)
  }

  lemma {:induction false} RotateHeightAt(t: Tree, sp: Spans, order: seq<Node?>, bh: Heights, bh': Heights,
      temp: Node?, x: Node?, y: Node?, b: Node?, r: Node?, t': Tree, z: Node?)
    requires Rotation(t, sp, order, x, y, b, t') && HeightsChange(t, bh, bh', x, y, r)
    requires ShortStays(t, temp, x, y, b, r) && null !in t.mem
    requires z in sp && z in bh && z != x && z != y && z != r && HeightAt(t, bh, temp, z)
    requires Aside(t, x, y, r, z)
    ensures HeightAt(t', bh', temp, z)
  {
    assert t'.mem[z] == LeftRotated(t, x, y, b, z);
    assert temp in t.mem ==> t'.mem[temp].parent == t.mem[temp].parent;
  }

  lemma {:induction false} StandsAside(t: Tree, sp: Spans, order: seq<Node?>, x: Node?, y: Node?, r: Node?, z: Node?)
    requires Links(t, sp, order) && x in sp && y in sp && z in sp && z != x && z != y
    requires t.mem[y].parent == x && (r != null ==> r in sp && t.mem[r].parent == y)
    ensures Aside(t, x, y, r, z)
  {
    assert LinkAt(t, sp, order, z) && LinkAt(t, sp, order, x);
    if t.mem[z].left == x || t.mem[z].right == x {
      assert t.mem[x].parent == z;
      RootHasNoParent(t, sp, order, z, x);
    }
  }

  lemma {:induction false} RootHasNoParent(t: Tree, sp: Spans, order: seq<Node?>, z: Node?, x: Node?)
    requires Links(t, sp, order) && x in sp && z in sp && (t.mem[z].left == x || t.mem[z].right == x)
    ensures x != t.root
  {
    assert LinkAt(t, sp, order, z) && LinkAt(t, sp, order, x);
  }

  lemma {:induction false} RotateBalanced(t: Tree, sp: Spans, order: seq<Node?>, bh: Heights, bh': Heights,
      temp: Node?, x: Node?, y: Node?, b: Node?, r: Node?, t': Tree)
    requires Rotation(t, sp, order, x, y, b, t') && HeightsChange(t, bh, bh', x, y, r)
    requires ShortStays(t, temp, x, y, b, r)
    requires r != null ==> r in sp && t.mem[r].parent == y
    requires t.nil in bh' && bh'[t.nil] == 0 && (forall z | z in t.mem :: z in bh)
    requires forall z {:trigger HeightAt(t, bh, temp, z)} | z in sp && z != x && z != y
             && z != r :: HeightAt(t, bh, temp, z)
    requires HeightAt(t', bh', temp, x) && HeightAt(t', bh', temp, y)
    requires r != null ==> HeightAt(t', bh', temp, r)
    ensures Balanced(t', bh', temp)
  {
    forall z | z in sp
      ensures HeightAt(t', bh', temp, z)
    {
      if z != x && z != y && z != r {
        hide HeightAt, LinkAt, RotatableLeft, LeftRotated;
        StandsAside(t, sp, order, x, y, r, z);
        RotateHeightAt(t, sp, order, bh, bh', temp, x, y, b, r, t', z);
      }
    }
    hide HeightAt, LinkAt, RotatableLeft, LeftRotated;
    assert forall z | z in t'.mem :: z in t.mem;
  }

  // RedAt, not looking at x, which is about to move down.
  ghost predicate RedBut(t: Tree, z: Node?, child: Node?, x: Node?)
    requires z in t.mem
  {
    t.mem[z].red ==> (IsRed(t, t.mem[z].left) ==> t.mem[z].left == child || t.mem[z].left == x)
                     && (IsRed(t, t.mem[z].right) ==> t.mem[z].right == child || t.mem[z].right == x)
  }

  lemma {:induction false} RotateRedAt(t: Tree, sp: Spans, order: seq<Node?>, child: Node?, child': Node?,
      x: Node?, y: Node?, b: Node?, t': Tree, z: Node?)
    requires Rotation(t, sp, order, x, y, b, t') && z in sp && z != x && z != y && Aside(t, x, y, null, z)
    requires RedBut(t, z, child, x) && (child != null ==>
               child == child' || (t.mem[z].left != child && t.mem[z].right != child))
    requires x != t.root && IsRed(t, t.mem[x].parent) ==> !IsRed(t, y)
    requires child == null || child != x
    ensures RedAt(t', z, child')
  {
    assert t'.mem[z] == LeftRotated(t, x, y, b, z);
  }

  lemma {:induction false} RotateRedRule(t: Tree, sp: Spans, order: seq<Node?>, child: Node?, child': Node?,
      parent: Node?, x: Node?, y: Node?, b: Node?, t': Tree)
    requires Rotation(t, sp, order, x, y, b, t')
    requires forall z {:trigger RedBut(t, z, child, x)} | z in sp && z != x && z != y
             && z != parent :: RedBut(t, z, child, x)
    requires child == null || (child in sp && child != x && t.mem[child].parent in {x, y})
    requires x != t.root && IsRed(t, t.mem[x].parent) ==> !IsRed(t, y)
    requires RedAt(t', x, child') && RedAt(t', y, child')
    ensures RedRule(t', child', parent)
  {
    forall z | z in sp && z != parent
      ensures RedAt(t', z, child')
    {
      if z != x && z != y {
        hide RedAt, RedBut, LinkAt, RotatableLeft, LeftRotated;
        StandsAside(t, sp, order, x, y, null, z);
        assert RedBut(t, z, child, x);
        if child != null {
          NotChild(t, sp, order, z, child);
        }
        RotateRedAt(t, sp, order, child, child', x, y, b, t', z);
      }
    }
    hide RedAt, LinkAt, RotatableLeft, LeftRotated;
    assert forall z | z in t'.mem :: z in t.mem;
  }

  // Case 2 of insertion, at a left child p of a black node: node is p's right child.
  lemma {:induction false} InsertInnerAt(t: Tree, sp: Spans, order: seq<Node?>, bh: Heights, node: Node?, p: Node?,
      b: Node?, t': Tree)
    requires Inserting(t, sp, order, bh, node) && node != t.root && p == t.mem[node].parent && IsRed(t, p)
    requires Rotation(t, sp, order, p, node, b, t')
    ensures HeightAt(t', bh, null, p) && HeightAt(t', bh, null, node)
    ensures RedAt(t', p, p) && RedAt(t', node, p)
    ensures HeightsChange(t, bh, bh, p, node, null)
    ensures p != t.root && !IsRed(t, t.mem[p].parent)
  {
    GrandparentExists(t, sp, order, bh, node);
    assert HeightAt(t, bh, null, p) && HeightAt(t, bh, null, node);
    assert RedAt(t, p, node) && RedAt(t, node, node);
    assert t'.mem[p] == LeftRotated(t, p, node, b, p);
    assert t'.mem[node] == LeftRotated(t, p, node, b, node);
  }

  lemma {:induction false} InsertInnerLeft(t: Tree, sp: Spans, order: seq<Node?>, bh: Heights, node: Node?, p: Node?)
    requires Inserting(t, sp, order, bh, node) && node != t.root && p == t.mem[node].parent && IsRed(t, p)
    requires t.mem[p].right == node
    ensures p in sp && RotatableLeft(t, p) && node in sp
    ensures Inserting(LeftRotate(t, p), RotatedSpans(sp, p, node), order, bh, p)
  {
    GrandparentExists(t, sp, order, bh, node);
    RotationOf(t, sp, order, p);
    var t', b := LeftRotate(t, p), t.mem[node].left;
    InsertInnerAt(t, sp, order, bh, node, p, b, t');
    forall z | z in sp && z != p && z != node
      ensures RedBut(t, z, node, p)
    {
      assert RedAt(t, z, node);
    }
    assert t'.root == t.root && t'.nil == t.nil;
    assert forall z | z in t.mem :: IsRed(t', z) == IsRed(t, z);
    hide HeightAt, RedAt, RedBut, LinkAt, LeftRotate, LeftRotated, RotatedSpans, RotatableLeft;
    RotateBalanced(t, sp, order, bh, bh, null, p, node, b, null, t');
    RotateRedRule(t, sp, order, node, p, null, p, node, b, t');
    RotatedSpansFacts(sp, p, node);
  }

  // Painting p and g leaves the heights and the red rule of all other nodes alone.
  lemma {:induction false} PaintTwo(t: Tree, sp: Spans, order: seq<Node?>, bh: Heights, temp: Node?, p: Node?,
      pRed: bool, g: Node?, gRed: bool)
    requires Links(t, sp, order) && p in sp && g in sp && p != g
    ensures var t1 := Paint(Paint(t, p, pRed), g, gRed);
            && Links(t1, sp, order) && t1.root == t.root && t1.nil == t.nil
            && (forall z | z in t.mem :: z in t1.mem
                  && t1.mem[z] == t.mem[z].(red := if z == g then gRed else if z == p then pRed else t.mem[z].red))
            && (forall z | z in t1.mem :: z in t.mem)
            && (forall z {:trigger HeightAt(t1, bh, temp, z)} | z in sp && z in bh && z != p && z != g ::
                  HeightAt(t1, bh, temp, z) == HeightAt(t, bh, temp, z))
  {
    PaintKeepsLinks(t, sp, order, p, pRed);
    PaintKeepsLinks(Paint(t, p, pRed), sp, order, g, gRed);
    var t1 := Paint(Paint(t, p, pRed), g, gRed);
    forall z | z in sp && z in bh && z != p && z != g
      ensures HeightAt(t1, bh, temp, z) == HeightAt(t, bh, temp, z)
    {
      assert t1.mem[z] == t.mem[z];
      assert temp in t.mem <==> temp in t1.mem;
      assert temp in t.mem ==> t1.mem[temp].parent == t.mem[temp].parent;
    }
  }

  ghost function SwappedHeights(bh: Heights, p: Node?, g: Node?): Heights
    requires p in bh && g in bh
  {
    bh[g := bh[p]][p := bh[g]]
  }

  // What the rotation does to the two heights, in terms of the links alone.
  lemma {:induction false} OuterSwap(t: Tree, bh: Heights, p: Node?, g: Node?, t': Tree)
    requires null !in t.mem && null !in t'.mem && p in t.mem && g in t.mem && p in bh && g in bh && p != g
    requires t.mem[g].right == p && t.mem[p].red && !t.mem[g].red && HeightAt(t, bh, null, p)
    requires HeightAt(t, bh, null, g)
    requires {p, g} !! {t.mem[g].left, t.mem[p].left, t.mem[p].right}
    requires p in t'.mem && t'.mem[p].left == g && t'.mem[p].right == t.mem[p].right && !t'.mem[p].red
    requires g in t'.mem && t'.mem[g].left == t.mem[g].left && t'.mem[g].right == t.mem[p].left && t'.mem[g].red
    ensures HeightAt(t', SwappedHeights(bh, p, g), null, g) && HeightAt(t', SwappedHeights(bh, p, g), null, p)
  {
  }

  lemma {:induction false} InsertOuterAt(t: Tree, sp: Spans, order: seq<Node?>, bh: Heights, node: Node?, p: Node?,
      g: Node?, t1: Tree, b: Node?, t': Tree)
    requires Inserting(t, sp, order, bh, node) && node != t.root && p == t.mem[node].parent && IsRed(t, p)
    requires p in sp && g == t.mem[p].parent && g in sp && t.mem[g].right == p && t.mem[p].right == node
    requires !IsRed(t, t.mem[g].left)
    requires t1 == Paint(Paint(t, p, false), g, true) && Rotation(t1, sp, order, g, p, b, t')
    ensures HeightsChange(t1, bh, SwappedHeights(bh, p, g), g, p, null)
    ensures HeightAt(t', SwappedHeights(bh, p, g), null, g) && HeightAt(t', SwappedHeights(bh, p, g), null, p)
  {
    GrandparentExists(t, sp, order, bh, node);
    assert HeightAt(t, bh, null, p) && HeightAt(t, bh, null, g);
    hide Inserting, Links, RotatableLeft, HeightAt;
    assert t'.mem[g] == LeftRotated(t1, g, p, b, g);
    assert t'.mem[p] == LeftRotated(t1, g, p, b, p);
    OuterSwap(t, bh, p, g, t');
  }

  lemma {:induction false} InsertOuterRed(t: Tree, sp: Spans, order: seq<Node?>, bh: Heights, node: Node?, p: Node?,
      g: Node?, t1: Tree, b: Node?, t': Tree)
    requires Inserting(t, sp, order, bh, node) && node != t.root && p == t.mem[node].parent && IsRed(t, p)
    requires p in sp && g == t.mem[p].parent && g in sp && t.mem[g].right == p && t.mem[p].right == node
    requires !IsRed(t, t.mem[g].left)
    requires t1 == Paint(Paint(t, p, false), g, true) && Rotation(t1, sp, order, g, p, b, t')
    ensures RedAt(t', g, node) && RedAt(t', p, node)
  {
    GrandparentExists(t, sp, order, bh, node);
    assert RedAt(t, p, node);
    hide Inserting, Links, RotatableLeft;
    assert t'.mem[g] == LeftRotated(t1, g, p, b, g);
    assert t'.mem[p] == LeftRotated(t1, g, p, b, p);
    assert forall z | z in t.mem :: IsRed(t', z) == (z == g || (z != p && t.mem[z].red));
  }

  // Case 3 of insertion, at a right child p: node is p's right child and the uncle is black.
  lemma {:induction false} InsertOuterRight(t: Tree, sp: Spans, order: seq<Node?>, bh: Heights, node: Node?,
      p: Node?, g: Node?)
    requires Inserting(t, sp, order, bh, node) && node != t.root && p == t.mem[node].parent && IsRed(t, p)
    requires p in sp && g == t.mem[p].parent && g in sp && t.mem[g].right == p && t.mem[p].right == node
    requires !IsRed(t, t.mem[g].left)
    ensures p in bh && g in bh && p != g
    ensures var t1 := Paint(Paint(t, p, false), g, true);
            && RotatableLeft(t1, g)
            && var t' := LeftRotate(t1, g);
            && Inserting(t', RotatedSpans(sp, g, p), order, SwappedHeights(bh, p, g), node)
            && t'.mem[node].parent == p && !IsRed(t', p) && node != t'.root
  {
    GrandparentExists(t, sp, order, bh, node);
    var t1, bh' := Paint(Paint(t, p, false), g, true), SwappedHeights(bh, p, g);
    PaintTwo(t, sp, order, bh, null, p, false, g, true);
    RotationOf(t1, sp, order, g);
    var t', b := LeftRotate(t1, g), t1.mem[p].left;
    InsertOuterAt(t, sp, order, bh, node, p, g, t1, b, t');
    InsertOuterRed(t, sp, order, bh, node, p, g, t1, b, t');
    InsertOuterColors(t, sp, order, bh, node, p, g, t1, b, t');
    hide HeightAt, RedAt, RedBut, LinkAt, LeftRotate, LeftRotated, RotatedSpans, RotatableLeft, Paint;
    forall z | z in sp && z != p && z != g
      ensures HeightAt(t1, bh, null, z)
    {
      assert HeightAt(t, bh, null, z);
    }
    RotateBalanced(t1, sp, order, bh, bh', null, g, p, b, null, t');
    RotateRedRule(t1, sp, order, node, node, null, g, p, b, t');
    RotatedSpansFacts(sp, g, p);
  }

  lemma {:induction false} InsertOuterColors(t: Tree, sp: Spans, order: seq<Node?>, bh: Heights, node: Node?,
      p: Node?, g: Node?, t1: Tree, b: Node?, t': Tree)
    requires Inserting(t, sp, order, bh, node) && node != t.root && p == t.mem[node].parent && IsRed(t, p)
    requires p in sp && g == t.mem[p].parent && g in sp && t.mem[g].right == p && t.mem[p].right == node
    requires t1 == Paint(Paint(t, p, false), g, true) && Rotation(t1, sp, order, g, p, b, t')
    ensures !IsRed(t1, p) && t1.mem[node].parent == p && node != g
    ensures forall z {:trigger RedBut(t1, z, node, g)} | z in sp && z != p && z != g :: RedBut(t1, z, node, g)
    ensures t'.nil == t.nil && !IsRed(t', t'.nil) && !IsRed(t', t'.root) && IsRed(t', node)
    ensures t'.mem[node].parent == p && !IsRed(t', p) && node != t'.root
  {
    GrandparentExists(t, sp, order, bh, node);
    forall z | z in sp && z != p && z != g
      ensures RedBut(t1, z, node, g)
    {
      assert RedAt(t, z, node);
      PaintedBut(t, node, p, g, z);
    }
    assert !IsRed(t, t.nil) && IsRed(t, node) && (g == t.root || !IsRed(t, t.root));
    hide Inserting, Links, RedAt, RedBut, RotatableLeft;
    RotationColors(t1, sp, order, g, p, b, t');
    assert t'.mem[node] == LeftRotated(t1, g, p, b, node);
  }

  lemma {:induction false} PaintedBut(t: Tree, node: Node?, p: Node?, g: Node?, z: Node?)
    requires p in t.mem && g in t.mem && z in t.mem && z != p && z != g && RedAt(t, z, node)
    ensures RedBut(Paint(Paint(t, p, false), g, true), z, node, g)
  {
  }

  ghost function RootHeights(t: Tree, bh: Heights, x: Node?): Heights
    requires x in bh
  {
    if IsRed(t, x) then bh[x := bh[x] + 1] else bh
  }

  // The insertion loop stops at a red root or below a black parent.
  lemma {:induction false} InsertDone(t: Tree, sp: Spans, order: seq<Node?>, bh: Heights, node: Node?)
    requires Inserting(t, sp, order, bh, node) && (node == t.root || !IsRed(t, t.mem[node].parent))
    ensures t.root in t.mem && t.root in bh
    ensures RedBlack(Paint(t, t.root, false), sp, order, RootHeights(t, bh, t.root))
  {
    var root := t.root;
    assert LinkAt(t, sp, order, node);
    PaintKeepsLinks(t, sp, order, root, false);
    var t', bh' := Paint(t, root, false), RootHeights(t, bh, root);
    forall z | z in sp
      ensures HeightAt(t', bh', null, z) && RedAt(t', z, null)
    {
      assert HeightAt(t, bh, null, z) && RedAt(t, z, node) && LinkAt(t, sp, order, z);
      if t.mem[z].left == root || t.mem[z].right == root {
        RootHasNoParent(t, sp, order, z, root);
      }
    }
    hide HeightAt, RedAt, LinkAt;
    assert Balanced(t', bh', null);
  }
}
