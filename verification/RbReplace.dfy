// Red-black tree, value level: the second half of ngx_rbtree_delete, where the
// successor that was unlinked takes the place of the node to be deleted.

module RbReplace {
  import opened RbLinks
  import opened RbColor
  import opened RbDelete
  import opened RbEdit

  // The fields of z after s has taken the place of x.  temp is the node whose
  // parent field is kept up to date even when it is the sentinel.
  ghost function Replaced(t: Tree, x: Node?, temp: Node?, s: Node?, z: Node?): Cell
    requires x in t.mem && z in t.mem
  {
    var c, p := t.mem[z], t.mem[x].parent;
    Cell(c.key,
      if x != t.root && z == p && c.left == x then s else c.left,
      if x != t.root && z == p && c.left != x then s else c.right,
      if c.parent == x && z != t.root && (z != t.nil || z == temp) then s else c.parent,
      c.red)
  }

  ghost predicate IsReplaced(t: Tree, t': Tree, x: Node?, temp: Node?, s: Node?, key: nat)
    requires x in t.mem
  {
    && t'.nil == t.nil && t'.root == (if x == t.root then s else t.root) && x !in t'.mem
    && s in t'.mem && t'.mem[s] == t.mem[x].(key := key)
    && (forall z | z in t.mem && z != x :: z in t'.mem && t'.mem[z] == Replaced(t, x, temp, s, z))
    && (forall z | z in t'.mem && z != s :: z in t.mem)
  }

  ghost function ReplacedSpans(sp: Spans, x: Node?, s: Node?): Spans
    requires x in sp
  {
    map z | z in sp.Keys + {s} && z != x :: if z == s then sp[x] else sp[z]
  }

  ghost predicate Replaceable(t: Tree, sp: Spans, order: seq<Node?>, x: Node?, temp: Node?, s: Node?) {
    Links(t, sp, order) && x in sp && s !in t.mem && s != null && s !in sp && temp in t.mem && temp != x
          && 0 <= sp[x].pos < |order|
  }

  lemma {:induction false} ReplaceLinkAt(t: Tree, sp: Spans, order: seq<Node?>, x: Node?, temp: Node?, s: Node?,
      key: nat, t': Tree, z: Node?)
    requires Replaceable(t, sp, order, x, temp, s) && IsReplaced(t, t', x, temp, s, key)
    requires z in sp && z != x
    ensures z in t'.mem && LinkAt(t', ReplacedSpans(sp, x, s), order[sp[x].pos := s], z)
  {
    hide LeftAt, RightAt, UpAt, Replaced;
    assert LinkAt(t, sp, order, z) && LinkAt(t, sp, order, x);
    KidsOfHolds(t, sp, order, x, z);
    ReplaceLeftAt(t, sp, order, x, temp, s, key, t', z);
    ReplaceRightAt(t, sp, order, x, temp, s, key, t', z);
    ReplaceUpAt(t, sp, order, x, temp, s, key, t', z);
  }

  lemma {:induction false} ReplaceLeftAt(t: Tree, sp: Spans, order: seq<Node?>, x: Node?, temp: Node?, s: Node?,
      key: nat, t': Tree, z: Node?)
    requires Replaceable(t, sp, order, x, temp, s) && IsReplaced(t, t', x, temp, s, key)
    requires z in sp && z != x && KidsOf(t, sp, x, z) && LeftAt(t, sp, z)
    ensures z in t'.mem && LeftAt(t', ReplacedSpans(sp, x, s), z)
  {
    hide LinkAt;
    assert t'.mem[z] == Replaced(t, x, temp, s, z);
  }

  lemma {:induction false} ReplaceRightAt(t: Tree, sp: Spans, order: seq<Node?>, x: Node?, temp: Node?, s: Node?,
      key: nat, t': Tree, z: Node?)
    requires Replaceable(t, sp, order, x, temp, s) && IsReplaced(t, t', x, temp, s, key)
    requires z in sp && z != x && KidsOf(t, sp, x, z) && RightAt(t, sp, z)
    ensures z in t'.mem && RightAt(t', ReplacedSpans(sp, x, s), z)
  {
    hide LinkAt;
    assert t'.mem[z] == Replaced(t, x, temp, s, z);
  }

  lemma {:induction false} ReplaceUpAt(t: Tree, sp: Spans, order: seq<Node?>, x: Node?, temp: Node?, s: Node?,
      key: nat, t': Tree, z: Node?)
    requires Replaceable(t, sp, order, x, temp, s) && IsReplaced(t, t', x, temp, s, key)
    requires z in sp && z != x && UpAt(t, sp, z)
    ensures z in t'.mem && UpAt(t', ReplacedSpans(sp, x, s), z)
  {
    assert LinkAt(t, sp, order, z) && LinkAt(t, sp, order, x);
    if z != t.root {
      var p := t.mem[z].parent;
      RootIsTop(t, sp, order, z);
      if p != x {
        KidsOfHolds(t, sp, order, x, p);
      }
    }
  }

  lemma {:induction false} ReplaceLinkS(t: Tree, sp: Spans, order: seq<Node?>, x: Node?, temp: Node?, s: Node?,
      key: nat, t': Tree)
    requires Replaceable(t, sp, order, x, temp, s) && IsReplaced(t, t', x, temp, s, key)
    ensures LinkAt(t', ReplacedSpans(sp, x, s), order[sp[x].pos := s], s)
  {
    assert LinkAt(t, sp, order, x);
    if x != t.root {
      RootIsTop(t, sp, order, x);
    }
    if t.mem[x].left != t.nil {
      RootHasNoParent(t, sp, order, x, t.mem[x].left);
    }
    if t.mem[x].right != t.nil {
      RootHasNoParent(t, sp, order, x, t.mem[x].right);
    }
  }

  lemma {:induction false} ReplaceFrame(t: Tree, sp: Spans, order: seq<Node?>, x: Node?, temp: Node?, s: Node?,
      key: nat, t': Tree)
    requires Replaceable(t, sp, order, x, temp, s) && IsReplaced(t, t', x, temp, s, key)
    ensures x in sp && 0 <= sp[x].pos < |order|
    ensures Frame(t', ReplacedSpans(sp, x, s), order[sp[x].pos := s])
    ensures forall z | z in ReplacedSpans(sp, x, s) && z != s :: z in sp && z != x
  {
    var sp', order' := ReplacedSpans(sp, x, s), order[sp[x].pos := s];
    assert LinkAt(t, sp, order, x);
    assert null !in t'.mem && t'.nil in t'.mem && t'.nil !in sp';
    forall i | 0 <= i < |order'|
      ensures order'[i] in sp' && sp'[order'[i]].pos == i
    {
      assert order[i] in sp && sp[order[i]].pos == i;
    }
  }

  lemma {:induction false} ReplaceKeepsLinks(t: Tree, sp: Spans, order: seq<Node?>, x: Node?, temp: Node?,
      s: Node?, key: nat, t': Tree)
    requires Replaceable(t, sp, order, x, temp, s) && IsReplaced(t, t', x, temp, s, key)
    ensures Links(t', ReplacedSpans(sp, x, s), order[sp[x].pos := s])
  {
    hide LinkAt, Replaceable, IsReplaced, ReplacedSpans, Frame, Links;
    ReplaceFrame(t, sp, order, x, temp, s, key, t');
    var sp', order' := ReplacedSpans(sp, x, s), order[sp[x].pos := s];
    forall z | z in sp' && z in t'.mem
      ensures LinkAt(t', sp', order', z)
    {
      if z == s {
        ReplaceLinkS(t, sp, order, x, temp, s, key, t');
      } else {
        ReplaceLinkAt(t, sp, order, x, temp, s, key, t', z);
      }
    }
    FrameLinks(t', sp', order');
  }

  ghost predicate KidsOf(t: Tree, sp: Spans, x: Node?, z: Node?)
    requires z in t.mem && x in t.mem
  {
    && t.mem[z].left in t.mem && t.mem[z].right in t.mem
    && (t.mem[z].left == x || t.mem[z].right == x ==> x != t.root && t.mem[x].parent == z)
    && (x != t.root && t.mem[x].parent == z ==> t.mem[z].left == x || t.mem[z].right == x)
    && (t.mem[z].left == x ==> t.mem[z].right != x)
    && (t.mem[z].left != t.nil ==> t.mem[t.mem[z].left].parent == z && t.mem[z].left != t.root)
    && (t.mem[z].right != t.nil ==> t.mem[t.mem[z].right].parent == z && t.mem[z].right != t.root)
  }

  lemma {:induction false} KidsOfHolds(t: Tree, sp: Spans, order: seq<Node?>, x: Node?, z: Node?)
    requires Links(t, sp, order) && x in sp && z in sp
    ensures KidsOf(t, sp, x, z)
  {
    assert LinkAt(t, sp, order, z);
    if t.mem[z].left != t.nil {
      RootHasNoParent(t, sp, order, z, t.mem[z].left);
    }
    if t.mem[z].right != t.nil {
      RootHasNoParent(t, sp, order, z, t.mem[z].right);
    }
    if x != t.root {
      RootIsTop(t, sp, order, x);
    }
  }

  // s sees what x saw, and the others see s where they saw x.
  lemma {:induction false} ReplaceHeightAt(t: Tree, sp: Spans, order: seq<Node?>, bh: Heights, short: Node?,
      x: Node?, temp: Node?, s: Node?, key: nat, t': Tree, z: Node?)
    requires Replaceable(t, sp, order, x, temp, s) && IsReplaced(t, t', x, temp, s, key)
    requires z in sp && z in bh && x in bh && KidsOf(t, sp, x, z) && (short == null || short == temp)
    requires t.mem[temp].parent != s
    requires HeightAt(t, bh, short, z)
    ensures var z' := if z == x then s else z;
            z' in t'.mem && HeightAt(t', bh[s := bh[x]], short, z')
  {
    var z' := if z == x then s else z;
    assert t'.mem[temp] == Replaced(t, x, temp, s, temp);
    if z != x {
      assert t'.mem[z] == Replaced(t, x, temp, s, z);
    }
  }

  lemma {:induction false} ReplaceRedAt(t: Tree, sp: Spans, order: seq<Node?>, child: Node?, x: Node?, temp: Node?,
      s: Node?, key: nat, t': Tree, z: Node?)
    requires Replaceable(t, sp, order, x, temp, s) && IsReplaced(t, t', x, temp, s, key)
    requires z in sp && KidsOf(t, sp, x, z) && child != x && RedAt(t, z, child)
    ensures var z' := if z == x then s else z;
            z' in t'.mem && RedAt(t', z', child)
  {
    if z != x {
      assert t'.mem[z] == Replaced(t, x, temp, s, z);
    }
  }

  ghost predicate ReplaceStep(t: Tree, sp: Spans, order: seq<Node?>, x: Node?, temp: Node?, s: Node?, key: nat,
        t': Tree) {
    Replaceable(t, sp, order, x, temp, s) && IsReplaced(t, t', x, temp, s, key) && t.mem[temp].parent != s
  }

  lemma {:induction false} ReplaceColors(t: Tree, sp: Spans, order: seq<Node?>, bh: Heights, short: Node?,
      x: Node?, temp: Node?, s: Node?, key: nat, t': Tree)
    requires ReplaceStep(t, sp, order, x, temp, s, key, t') && (short == null || short == temp)
    requires Balanced(t, bh, short) && RedRule(t, short, short) && !IsRed(t, t.nil)
    ensures Balanced(t', bh[s := bh[x]], short) && RedRule(t', short, short) && !IsRed(t', t'.nil)
    ensures IsRed(t', t'.root) == IsRed(t, t.root)
  {
    assert !IsRed(t', t'.nil) && IsRed(t', t'.root) == IsRed(t, t.root) by {
      assert LinkAt(t, sp, order, x);
      assert t'.mem[t.nil] == Replaced(t, x, temp, s, t.nil);
    }
    hide LinkAt, Replaced, HeightAt, RedAt;
    forall z' | z' in t'.mem && z' != t'.nil
      ensures HeightAt(t', bh[s := bh[x]], short, z')
      ensures z' != short ==> RedAt(t', z', short)
    {
      var z := if z' == s then x else z';
      KidsOfHolds(t, sp, order, x, z);
      assert HeightAt(t, bh, short, z);
      ReplaceHeightAt(t, sp, order, bh, short, x, temp, s, key, t', z);
      if z' != short {
        assert RedAt(t, z, short);
        ReplaceRedAt(t, sp, order, short, x, temp, s, key, t', z);
      }
    }
  }

  lemma {:induction false} ReplaceRedBlack(t: Tree, sp: Spans, order: seq<Node?>, bh: Heights, x: Node?,
      temp: Node?, s: Node?, key: nat, t': Tree)
    requires ReplaceStep(t, sp, order, x, temp, s, key, t') && RedBlack(t, sp, order, bh) && x in bh
    ensures RedBlack(t', ReplacedSpans(sp, x, s), order[sp[x].pos := s], bh[s := bh[x]])
  {
    ReplaceKeepsLinks(t, sp, order, x, temp, s, key, t');
    ReplaceColors(t, sp, order, bh, null, x, temp, s, key, t');
  }

  lemma {:induction false} ReplaceShort(t: Tree, sp: Spans, order: seq<Node?>, bh: Heights, x: Node?, temp: Node?,
      s: Node?, key: nat, t': Tree)
    requires ReplaceStep(t, sp, order, x, temp, s, key, t') && Short(t, sp, order, bh, temp) && x in bh
    requires temp != t.root
    ensures Short(t', ReplacedSpans(sp, x, s), order[sp[x].pos := s], bh[s := bh[x]], temp)
  {
    ReplaceKeepsLinks(t, sp, order, x, temp, s, key, t');
    ReplaceColors(t, sp, order, bh, temp, x, temp, s, key, t');
    var p := t.mem[temp].parent;
    KidsOfHolds(t, sp, order, x, p);
    assert t'.mem[temp] == Replaced(t, x, temp, s, temp);
    if p != x {
      assert t'.mem[p] == Replaced(t, x, temp, s, p);
    }
    assert LinkAt(t, sp, order, x);
    assert (if p == x then s else p) in ReplacedSpans(sp, x, s);
    hide Links, Balanced, RedRule, ReplacedSpans;
  }

  // ngx_rbtree_delete, first step: subst's parent lets go of it.
  function Detach(m: Mem, node: Node?, subst: Node?, temp: Node?): Mem
    requires subst in m && temp in m && m[subst].parent in m
  {
    var q := m[subst].parent;
    var m1 := if subst == m[q].left then SetLeft(m, q, temp) else SetRight(m, q, temp);
    SetParent(m1, temp, if subst != node && q == node then subst else q)
  }

  // ngx_rbtree_delete, second step: subst takes over the fields of node and node's neighbours.
  function Adopt(t: Tree, m: Mem, node: Node?, subst: Node?): Mem
    requires node in m && subst in m && node != subst && m[node].left in m && m[node].right in m
    requires node != t.root ==> m[node].parent in m
    requires node != t.root ==> m[node].parent != subst
  {
    TakeKids(Hang(t.(mem := CopyFields(m, node, subst)), node, subst, true).mem, t.nil, subst)
  }

  // The children of x name it as their parent.
  function TakeKids(m: Mem, nil: Node?, x: Node?): Mem
    requires x in m && m[x].left in m && m[x].right in m
  {
    var l := m[x].left;
    var m' := if l != nil then SetParent(m, l, x) else m;
    var r := m'[x].right;
    if r != nil then SetParent(m', r, x) else m'
  }

  function CopyFields(m: Mem, node: Node?, subst: Node?): Mem
    requires node in m && subst in m
  {
    var m1 := SetLeft(m, subst, m[node].left);
    var m2 := SetRight(m1, subst, m1[node].right);
    var m3 := SetParent(m2, subst, m2[node].parent);
    SetRed(m3, subst, m3[node].red)
  }

  // ngx_rbtree_delete between the early return for the root and the fixup, with
  // subst == node or subst the successor of node.
  function Unlink(t: Tree, node: Node?, subst: Node?, temp: Node?): Tree
    requires node in t.mem && subst in t.mem && temp in t.mem && t.mem[subst].parent in t.mem
    requires subst != node ==>
               var m := Detach(t.mem, node, subst, temp);
               m[node].left in m && m[node].right in m
                     && (node != t.root ==> m[node].parent in m && m[node].parent != subst)
  {
    var m := Detach(t.mem, node, subst, temp);
    if subst == node then Tree(m - {node}, t.root, t.nil)
    else Tree(Adopt(t, m, node, subst) - {node}, if node == t.root then subst else t.root, t.nil)
  }

  lemma {:induction false} UnlinkSelf(t: Tree, x: Node?)
    requires x in t.mem && Child(t, x) in t.mem && x != t.root && t.mem[x].parent in t.mem
    ensures Unlink(t, x, x, Child(t, x)) == Splice(t, x)
  {
  }

  // The nodes around node and its successor s, where temp is s's right child.
  ghost predicate Around(t: Tree, node: Node?, s: Node?, temp: Node?) {
    && node in t.mem && s in t.mem && temp in t.mem && node != s && temp != node && temp != s
    && t.mem[s].left == t.nil && t.mem[s].right == temp && s != t.root && t.nil in t.mem && s != t.nil && node != t.nil
    && var q := t.mem[s].parent;
    && q in t.mem && q != s && q != temp && q != t.nil
    && (if q == node then t.mem[node].right == s else t.mem[q].left == s)
    && t.mem[node].left in t.mem && t.mem[node].right in t.mem
    && t.mem[node].left != t.nil && t.mem[node].right != t.nil && t.mem[node].left != t.mem[node].right
    && t.mem[node].left !in {node, s, temp, q} && t.mem[node].right != node
    && (q != node ==> t.mem[node].right != s && t.mem[node].right != temp)
    && t.mem[node].left != t.root && t.mem[node].right != t.root && temp != t.root
    && (node != t.root ==>
          var p := t.mem[node].parent;
          && p in t.mem && p != node && p != s && p != temp && p != q && p != t.nil
          && p != t.mem[node].left && p != t.mem[node].right
          && (t.mem[p].left == node || t.mem[p].right == node))
    && (forall z | z in t.mem && t.mem[z].parent == node && z != t.root && z != t.nil ::
          z == t.mem[node].left || z == t.mem[node].right)
    && t.mem[t.mem[node].left].parent == node && t.mem[t.mem[node].right].parent == node
  }

  // After Detach everything but s is as if s had been spliced out, except that
  // temp already names its parent-to-be.
  lemma {:induction false} DetachEffect(t: Tree, node: Node?, s: Node?, temp: Node?, t1: Tree)
    requires Around(t, node, s, temp) && IsSpliced(t, t1, s, temp)
    ensures var m := Detach(t.mem, node, s, temp);
            && node in m && s in m && m[s] == t.mem[s] && node in t1.mem && temp in t1.mem
            && t1.mem[temp].parent == t.mem[s].parent && t1.nil == t.nil && t1.root == t.root
            && (forall z | z in m && z != s :: z in t1.mem
                  && m[z] == if z == temp && t.mem[s].parent == node then t1.mem[z].(parent := s) else t1.mem[z])
            && (forall z | z in t1.mem :: z in m && z != s)
  {
  }

  // What Adopt needs to know about the memory it works on.
  ghost predicate Adoptable(t: Tree, m: Mem, node: Node?, s: Node?) {
    && node in m && s in m && node != s && m[node].left in m && m[node].right in m
    && node != t.nil && s != t.nil
    && m[node].left != s && m[node].right != s && m[node].left != node && m[node].right != node
    && (node != t.root ==>
          var p := m[node].parent;
          p in m && p != node && p != s && p != m[node].left && p != m[node].right)
  }

  // The fields of z, other than node and s, after Adopt.
  ghost function Adopted(t: Tree, m: Mem, node: Node?, s: Node?, z: Node?): Cell
    requires node in m && z in m
  {
    var above := node != t.root && z == m[node].parent;
    Cell(m[z].key,
      if above && m[z].left == node then s else m[z].left,
      if above && m[z].left != node then s else m[z].right,
      if z != t.nil && (z == m[node].left || z == m[node].right) then s else m[z].parent,
      m[z].red)
  }

  lemma {:induction false} AdoptOther(t: Tree, m: Mem, node: Node?, s: Node?, z: Node?)
    requires Adoptable(t, m, node, s) && z in m && z != node && z != s
    ensures z in Adopt(t, m, node, s) && Adopt(t, m, node, s)[z] == Adopted(t, m, node, s, z)
  {
    HungAt(t, m, node, s, s);
    HungAt(t, m, node, s, z);
    HungAt(t, m, node, s, m[node].left);
    HungAt(t, m, node, s, m[node].right);
    TakeKidsAt(Hang(t.(mem := CopyFields(m, node, s)), node, s, true).mem, t.nil, s, z);
    hide Hang, CopyFields, TakeKids;
  }

  // The fields of z, other than node, when s has taken over those of node and hangs below its parent.
  lemma {:induction false} HungAt(t: Tree, m: Mem, node: Node?, s: Node?, z: Node?)
    requires Adoptable(t, m, node, s) && z in m && z != node
    ensures var m' := Hang(t.(mem := CopyFields(m, node, s)), node, s, true).mem;
            && z in m'
            && m'[z] == if z == s then m[node].(key := m[s].key)
                        else Adopted(t, m, node, s, z).(parent := m[z].parent)
  {
  }

  lemma {:induction false} TakeKidsAt(m: Mem, nil: Node?, x: Node?, z: Node?)
    requires x in m && m[x].left in m && m[x].right in m && m[x].left != x && m[x].right != x && z in m
    ensures z in TakeKids(m, nil, x)
    ensures TakeKids(m, nil, x)[z]
            == if z != nil && (z == m[x].left || z == m[x].right) then m[z].(parent := x) else m[z]
  {
  }

  lemma {:induction false} AdoptEffect(t: Tree, m: Mem, node: Node?, s: Node?)
    requires Adoptable(t, m, node, s)
    ensures var m' := Adopt(t, m, node, s);
            && (forall z | z in m' :: z in m) && s in m' && m'[s] == m[node].(key := m[s].key)
            && (forall z | z in m && z != node && z != s :: z in m' && m'[z] == Adopted(t, m, node, s, z))
  {
    assert s in Adopt(t, m, node, s) && Adopt(t, m, node, s)[s] == m[node].(key := m[s].key);
    assert forall z | z in Adopt(t, m, node, s) :: z in m;
    hide Adopt, Adopted;
    forall z | z in m && z != node && z != s
      ensures z in Adopt(t, m, node, s) && Adopt(t, m, node, s)[z] == Adopted(t, m, node, s, z)
    {
      AdoptOther(t, m, node, s, z);
    }
  }

  lemma {:induction false} AdoptReady(t: Tree, node: Node?, s: Node?, temp: Node?, t1: Tree)
    requires Around(t, node, s, temp) && IsSpliced(t, t1, s, temp)
    ensures Adoptable(t, Detach(t.mem, node, s, temp), node, s)
  {
  }

  // The only nodes below node once s is gone.
  lemma {:induction false} SplicedKids(t: Tree, node: Node?, s: Node?, temp: Node?, t1: Tree, z: Node?)
    requires Around(t, node, s, temp) && IsSpliced(t, t1, s, temp) && z in t1.mem && node in t1.mem && z != node
             && z != t.nil
    ensures z == t1.mem[node].left || z == t1.mem[node].right <==> t1.mem[z].parent == node && z != t1.root
  {
  }

  // Unlinking the successor is splicing it out and then putting it in node's place.
  lemma {:induction false} UnlinkSuccessor(t: Tree, node: Node?, s: Node?, temp: Node?)
    requires Around(t, node, s, temp)
    ensures Child(t, s) == temp
    ensures var m := Detach(t.mem, node, s, temp);
            && node in m && m[node].left in m && m[node].right in m
            && (node != t.root ==> m[node].parent in m && m[node].parent != s)
    ensures IsReplaced(Splice(t, s), Unlink(t, node, s, temp), node, temp, s, t.mem[s].key)
    ensures Splice(t, s).mem[temp].parent != s
  {
    SuccessorReady(t, node, s, temp);
    hide Splice, Detach, Adopt, Around, Replaced;
    var t1, t' := Splice(t, s), Unlink(t, node, s, temp);
    forall z | z in t1.mem && z != node
      ensures z in t'.mem && t'.mem[z] == Replaced(t1, node, temp, s, z)
    {
      UnlinkedNode(t, node, s, temp, z);
    }
  }

  // What unlinking needs, and what it does to the node and the substitute.
  lemma {:induction false} SuccessorReady(t: Tree, node: Node?, s: Node?, temp: Node?)
    requires Around(t, node, s, temp)
    ensures Child(t, s) == temp && s != node
    ensures var m := Detach(t.mem, node, s, temp);
            && node in m && s in m && m[node].left in m && m[node].right in m
            && (node != t.root ==> m[node].parent in m && m[node].parent != s)
    ensures var t1, t' := Splice(t, s), Unlink(t, node, s, temp);
            && t1.nil == t.nil && t1.root == t.root && node in t1.mem && temp in t1.mem && t1.mem[temp].parent != s
            && node !in t'.mem && s in t'.mem && t'.mem[s] == t1.mem[node].(key := t.mem[s].key)
            && (forall z | z in t'.mem && z != s :: z in t1.mem)
  {
    SpliceEffect(t, s);
    var t1, m := Splice(t, s), Detach(t.mem, node, s, temp);
    AdoptReady(t, node, s, temp, t1);
    DetachEffect(t, node, s, temp, t1);
    AdoptEffect(t, m, node, s);
    hide Splice, Detach, Adopt;
  }

  lemma {:induction false} UnlinkedNode(t: Tree, node: Node?, s: Node?, temp: Node?, z: Node?)
    requires Around(t, node, s, temp) && Child(t, s) == temp && node in Splice(t, s).mem
    requires var m := Detach(t.mem, node, s, temp);
             && node in m && m[node].left in m && m[node].right in m
             && (node != t.root ==> m[node].parent in m && m[node].parent != s)
    requires z in Splice(t, s).mem && z != node
    ensures z in Unlink(t, node, s, temp).mem
    ensures Unlink(t, node, s, temp).mem[z] == Replaced(Splice(t, s), node, temp, s, z)
  {
    SpliceEffect(t, s);
    var t1, m := Splice(t, s), Detach(t.mem, node, s, temp);
    AdoptReady(t, node, s, temp, t1);
    DetachEffect(t, node, s, temp, t1);
    AdoptOther(t, m, node, s, z);
    if z != t.nil {
      SplicedKids(t, node, s, temp, t1, z);
    }
    hide Splice, Detach, Adopt;
  }

  // s is the node right after node, at the left end of node's right subtree.
  ghost predicate Successor(t: Tree, sp: Spans, node: Node?, s: Node?) {
    && node in sp && s in sp && node in t.mem && s in t.mem
    && t.mem[node].left != t.nil && t.mem[node].right != t.nil && t.mem[s].left == t.nil
    && sp[s].lo == sp[node].pos + 1 && sp[s].hi <= sp[node].hi
  }

  lemma {:induction false} SuccessorParent(t: Tree, sp: Spans, order: seq<Node?>, node: Node?, s: Node?)
    requires Links(t, sp, order) && Successor(t, sp, node, s)
    ensures s != node && s != t.root && sp[s].pos == sp[node].pos + 1
    ensures var q := t.mem[s].parent;
            && q in sp && q != s && (if q == node then t.mem[node].right == s else t.mem[q].left == s)
            && (q != node ==> sp[q].pos > sp[s].pos && sp[q].lo == sp[s].lo && sp[q].hi <= sp[node].hi)
  {
    assert LinkAt(t, sp, order, node) && LinkAt(t, sp, order, s);
    assert s != t.root;
    RootIsTop(t, sp, order, s);
    var q := t.mem[s].parent;
    assert LinkAt(t, sp, order, q);
    if q != node {
      Nested(t, sp, order, q, node);
    }
  }

  // The spans of two nodes are nested or disjoint, as far as one end is concerned:
  // a subtree that starts right after node lies below node.
  lemma {:induction false} Nested(t: Tree, sp: Spans, order: seq<Node?>, q: Node?, node: Node?)
    requires Links(t, sp, order) && q in sp && node in sp && q != node
    requires sp[q].lo == sp[node].pos + 1
    ensures sp[q].hi <= sp[node].hi
    decreases |order| - (sp[q].hi - sp[q].lo)
  {
    assert LinkAt(t, sp, order, q) && LinkAt(t, sp, order, node);
    if q != t.root {
      RootIsTop(t, sp, order, q);
      var p := t.mem[q].parent;
      assert LinkAt(t, sp, order, p);
      if sp[q].pos < sp[p].pos {
        assert p != node;
        Nested(t, sp, order, p, node);
      } else {
        assert sp[p].pos == sp[node].pos;
        assert p == node;
      }
    }
  }

  lemma {:induction false} AroundFromLinks(t: Tree, sp: Spans, order: seq<Node?>, node: Node?, s: Node?)
    requires Links(t, sp, order) && Successor(t, sp, node, s)
    ensures Around(t, node, s, t.mem[s].right)
  {
    SuccessorParent(t, sp, order, node, s);
    var temp, q := t.mem[s].right, t.mem[s].parent;
    assert LinkAt(t, sp, order, node) && LinkAt(t, sp, order, s);
    var l, r := t.mem[node].left, t.mem[node].right;
    assert LinkAt(t, sp, order, l) && LinkAt(t, sp, order, r);
    RootHasNoParent(t, sp, order, node, l);
    RootHasNoParent(t, sp, order, node, r);
    if temp != t.nil {
      assert LinkAt(t, sp, order, temp);
      RootHasNoParent(t, sp, order, s, temp);
    }
    if node != t.root {
      RootIsTop(t, sp, order, node);
    }
    forall z | z in t.mem && t.mem[z].parent == node && z != t.root && z != t.nil
      ensures z == l || z == r
    {
      RootIsTop(t, sp, order, z);
    }
  }

  // The result of unlinking: a red-black tree, or one whose slot at temp is short.
  ghost predicate Unlinked(t': Tree, sp': Spans, order': seq<Node?>, bh': Heights, temp: Node?, red: bool) {
    if red then RedBlack(t', sp', order', bh') else Short(t', sp', order', bh', temp) && temp != t'.root
  }

  ghost predicate UnlinkDefined(t: Tree, node: Node?, subst: Node?, temp: Node?) {
    && node in t.mem && subst in t.mem && temp in t.mem && t.mem[subst].parent in t.mem
    && (subst != node ==>
          var m := Detach(t.mem, node, subst, temp);
          m[node].left in m && m[node].right in m && (node != t.root ==>
              m[node].parent in m && m[node].parent != subst))
  }

  lemma {:induction false} UnlinkOneChild(t: Tree, sp: Spans, order: seq<Node?>, bh: Heights, node: Node?)
    returns (sp': Spans, bh': Heights)
    requires RedBlack(t, sp, order, bh) && Spliceable(t, sp, order, node) && node != t.root
    ensures 0 <= sp[node].pos < |order| && UnlinkDefined(t, node, node, Child(t, node))
    ensures Unlinked(Unlink(t, node, node, Child(t, node)), sp', Remove(order, sp[node].pos), bh', Child(t, node),
                t.mem[node].red)
  {
    SpliceReady(t, sp, order, node);
    UnlinkSelf(t, node);
    sp', bh' := RemovedSpans(sp, sp[node].pos, node), bh;
    if t.mem[node].red {
      SpliceRed(t, sp, order, bh, node);
    } else {
      SpliceBlack(t, sp, order, bh, node);
      ChildNotRoot(t, sp, order, node);
    }
  }

  lemma {:induction false} ChildNotRoot(t: Tree, sp: Spans, order: seq<Node?>, x: Node?)
    requires Spliceable(t, sp, order, x) && x != t.root
    ensures Child(t, x) != t.root
  {
    SpliceReady(t, sp, order, x);
    var c := Child(t, x);
    if c != t.nil {
      RootHasNoParent(t, sp, order, x, c);
    }
  }

  lemma {:induction false} RemovePair(order: seq<Node?>, k: nat, s: Node?)
    requires 0 < k < |order| && order[k] == s
    ensures Remove(order, k)[k - 1 := s] == Remove(order, k - 1)
  {
  }

  lemma {:induction false} UnlinkPieces(t: Tree, sp: Spans, order: seq<Node?>, node: Node?, s: Node?, temp: Node?)
    requires Links(t, sp, order) && Successor(t, sp, node, s) && temp == t.mem[s].right
    ensures Spliceable(t, sp, order, s) && s != t.root && Child(t, s) == temp && UnlinkDefined(t, node, s, temp)
    ensures t.mem[s].parent in t.mem && 0 <= sp[node].pos && sp[s].pos == sp[node].pos + 1 < |order|
    ensures order[sp[s].pos] == s && temp != node && s != node && temp in Splice(t, s).mem && s !in Splice(t, s).mem
    ensures node in Splice(t, s).mem && Splice(t, s).mem[temp].parent != s
    ensures IsReplaced(Splice(t, s), Unlink(t, node, s, temp), node, temp, s, t.mem[s].key)
  {
    SuccessorParent(t, sp, order, node, s);
    AroundFromLinks(t, sp, order, node, s);
    assert LinkAt(t, sp, order, s) && LinkAt(t, sp, order, node);
    assert temp != node && temp in t.mem && t.mem[s].parent in t.mem;
    assert node in Splice(t, s).mem && temp in Splice(t, s).mem && s !in Splice(t, s).mem;
    hide Around, Unlink, Splice, IsReplaced, LinkAt;
    UnlinkSuccessor(t, node, s, temp);
  }

  lemma {:induction false} UnlinkReplace(t: Tree, sp: Spans, order: seq<Node?>, node: Node?, s: Node?, temp: Node?)
    requires Links(t, sp, order) && Successor(t, sp, node, s) && temp == t.mem[s].right
    ensures Spliceable(t, sp, order, s) && s != t.root && Child(t, s) == temp && UnlinkDefined(t, node, s, temp)
    ensures Child(t, s) in t.mem && t.mem[s].parent in t.mem && sp[s].pos == sp[node].pos + 1 < |order|
    ensures var k := sp[s].pos;
            var sp1 := RemovedSpans(sp, k, s);
            && node in sp1 && sp1[node].pos == k - 1 >= 0
            && ReplaceStep(Splice(t, s), sp1, Remove(order, k), node, temp, s, t.mem[s].key, Unlink(t, node, s, temp))
            && Remove(order, k)[k - 1 := s] == Remove(order, k - 1)
  {
    UnlinkPieces(t, sp, order, node, s, temp);
    hide Unlink, Splice, UnlinkDefined, IsReplaced, LinkAt;
    SpliceKeepsLinks(t, sp, order, s);
    RemovePair(order, sp[s].pos, s);
    assert |Remove(order, sp[s].pos)| == |order| - 1;
    hide Remove, Links, Child, IsSpliced;
  }

  lemma {:induction false} UnlinkWithSuccessor(t: Tree, sp: Spans, order: seq<Node?>, bh: Heights, node: Node?,
      s: Node?, temp: Node?)
    returns (sp': Spans, bh': Heights)
    requires RedBlack(t, sp, order, bh) && Successor(t, sp, node, s) && temp == t.mem[s].right
    ensures 0 <= sp[node].pos < |order| && UnlinkDefined(t, node, s, temp)
    ensures Unlinked(Unlink(t, node, s, temp), sp', Remove(order, sp[node].pos), bh', temp, t.mem[s].red)
  {
    UnlinkReplace(t, sp, order, node, s, temp);
    var k := sp[s].pos;
    var t1, sp1, order1, t' := Splice(t, s), RemovedSpans(sp, k, s), Remove(order, k), Unlink(t, node, s, temp);
    assert node in bh;
    sp', bh' := ReplacedSpans(sp1, node, s), bh[s := bh[node]];
    hide Splice, Unlink, RemovedSpans, ReplacedSpans, Remove, Detach;
    if t.mem[s].red {
      SpliceRed(t, sp, order, bh, s);
      ReplaceRedBlack(t1, sp1, order1, bh, node, temp, s, t.mem[s].key, t');
    } else {
      SpliceBlack(t, sp, order, bh, s);
      ChildNotRoot(t, sp, order, s);
      assert t1.root == t.root;
      ReplaceShort(t1, sp1, order1, bh, node, temp, s, t.mem[s].key, t');
      assert temp != t'.root;
    }
  }

  // m' is m without node, with the same keys.
  ghost predicate KeysBut(m: Mem, m': Mem, node: Node?) {
    && (forall x | x in m && x != node :: x in m' && m'[x].key == m[x].key)
    && (forall x | x in m' :: x in m && x != node)
  }

  lemma {:induction false} UnlinkOneKeys(t: Tree, sp: Spans, order: seq<Node?>, node: Node?)
    requires Spliceable(t, sp, order, node) && node != t.root
    ensures UnlinkDefined(t, node, node, Child(t, node))
    ensures KeysBut(t.mem, Unlink(t, node, node, Child(t, node)).mem, node)
  {
    SpliceReady(t, sp, order, node);
    UnlinkSelf(t, node);
    SpliceKeepsLinks(t, sp, order, node);
  }

  lemma {:induction false} UnlinkTwoKeys(t: Tree, sp: Spans, order: seq<Node?>, node: Node?, s: Node?, temp: Node?)
    requires Links(t, sp, order) && Successor(t, sp, node, s) && temp == t.mem[s].right
    ensures UnlinkDefined(t, node, s, temp) && KeysBut(t.mem, Unlink(t, node, s, temp).mem, node)
  {
    UnlinkPieces(t, sp, order, node, s, temp);
    SpliceKeepsLinks(t, sp, order, s);
    hide Splice, Unlink, Links;
  }

  // What ngx_rbtree_delete chooses: the node to take out and the child that moves up.
  ghost predicate Chosen(t: Tree, sp: Spans, order: seq<Node?>, node: Node?, subst: Node?, temp: Node?) {
    && node in sp && subst in sp && node in t.mem && subst in t.mem
    && (if subst == node then Spliceable(t, sp, order, node) && temp == Child(t, node)
        else Successor(t, sp, node, subst) && temp == t.mem[subst].right)
  }

  lemma {:induction false} UnlinkChosen(t: Tree, sp: Spans, order: seq<Node?>, bh: Heights, node: Node?,
      subst: Node?, temp: Node?)
    returns (sp': Spans, bh': Heights)
    requires RedBlack(t, sp, order, bh) && Chosen(t, sp, order, node, subst, temp) && subst != t.root
    ensures 0 <= sp[node].pos < |order| && order[sp[node].pos] == node && UnlinkDefined(t, node, subst, temp)
    ensures Unlinked(Unlink(t, node, subst, temp), sp', Remove(order, sp[node].pos), bh', temp, t.mem[subst].red)
    ensures KeysBut(t.mem, Unlink(t, node, subst, temp).mem, node)
  {
    assert LinkAt(t, sp, order, node);
    hide Unlink, Unlinked, UnlinkDefined, LinkAt, KeysBut;
    if subst == node {
      UnlinkOneKeys(t, sp, order, node);
      sp', bh' := UnlinkOneChild(t, sp, order, bh, node);
    } else {
      UnlinkTwoKeys(t, sp, order, node, subst, temp);
      sp', bh' := UnlinkWithSuccessor(t, sp, order, bh, node, subst, temp);
    }
  }
}
