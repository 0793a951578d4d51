// Red-black tree, value level: what the local colour and height rules mean for
// whole paths from the root to the sentinel.

module RbPaths {
  import opened RbLinks
  import opened RbColor

  // A way down from x to the sentinel: the nodes it visits, the sentinel not counted.
  ghost predicate Path(t: Tree, x: Node?, path: seq<Node?>)
    decreases path
  {
    if path == [] then x == t.nil
    else
      && x == path[0] && x in t.mem && x != t.nil
      && (Path(t, t.mem[x].left, path[1..]) || Path(t, t.mem[x].right, path[1..]))
  }

  ghost function Blacks(t: Tree, path: seq<Node?>): nat {
    if path == [] then 0 else (if IsRed(t, path[0]) then 0 else 1) + Blacks(t, path[1..])
  }

  function Pow2(n: nat): nat {
    if n == 0 then 1 else 2 * Pow2(n - 1)
  }

  lemma {:induction false} PathBlacks(t: Tree, bh: Heights, x: Node?, path: seq<Node?>)
    requires Balanced(t, bh, null) && Path(t, x, path) && null !in t.mem
    ensures x in bh && Blacks(t, path) == bh[x]
    decreases path
  {
    if path != [] {
      assert HeightAt(t, bh, null, x);
      if Path(t, t.mem[x].left, path[1..]) {
        PathBlacks(t, bh, t.mem[x].left, path[1..]);
      } else {
        PathBlacks(t, bh, t.mem[x].right, path[1..]);
      }
    }
  }

  // No two red nodes follow each other, so at least every second node is black.
  lemma {:induction false} PathLength(t: Tree, x: Node?, path: seq<Node?>)
    requires RedRule(t, null, null) && Path(t, x, path) && null !in t.mem && !IsRed(t, t.nil)
    ensures |path| <= 2 * Blacks(t, path) + if IsRed(t, x) then 1 else 0
    decreases path
  {
    if path != [] {
      assert RedAt(t, x, null);
      if Path(t, t.mem[x].left, path[1..]) {
        PathLength(t, t.mem[x].left, path[1..]);
      } else {
        PathLength(t, t.mem[x].right, path[1..]);
      }
    }
  }

  // A subtree of black height h holds at least 2^h - 1 nodes.
  lemma {:induction false} SubtreeSize(t: Tree, sp: Spans, order: seq<Node?>, bh: Heights, x: Node?)
    requires RedBlack(t, sp, order, bh) && x in sp
    ensures x in bh && Pow2(bh[x]) <= sp[x].hi - sp[x].lo + 1
    decreases sp[x].hi - sp[x].lo
  {
    assert LinkAt(t, sp, order, x) && HeightAt(t, bh, null, x);
    var l, r := t.mem[x].left, t.mem[x].right;
    if l != t.nil {
      assert LinkAt(t, sp, order, l);
      SubtreeSize(t, sp, order, bh, l);
    }
    if r != t.nil {
      assert LinkAt(t, sp, order, r);
      SubtreeSize(t, sp, order, bh, r);
    }
    assert Pow2(bh[l]) <= sp[x].pos - sp[x].lo + 1 && Pow2(bh[r]) <= sp[x].hi - sp[x].pos;
  }

  // All ways down cross the same number of black nodes, none is more than twice as
  // long as another, and the depth is logarithmic in the number of nodes.
  lemma {:induction false} PathsAreBalanced(t: Tree, sp: Spans, order: seq<Node?>, bh: Heights, p: seq<Node?>,
      q: seq<Node?>)
    requires RedBlack(t, sp, order, bh) && Path(t, t.root, p) && Path(t, t.root, q)
    ensures Blacks(t, p) == Blacks(t, q)
    ensures |p| <= 2 * |q|
    ensures Pow2((|p| + 1) / 2) <= |order| + 1
  {
    PathBlacks(t, bh, t.root, p);
    PathBlacks(t, bh, t.root, q);
    PathLength(t, t.root, p);
    BlacksBound(t, q);
    if order != [] {
      SubtreeSize(t, sp, order, bh, t.root);
      Pow2Grows((|p| + 1) / 2, bh[t.root]);
    }
  }

  // The in-order walk from x, by the child links alone.
  ghost function Walk(t: Tree, x: Node?, fuel: nat): seq<Node?>
    decreases fuel
  {
    if fuel == 0 || x == t.nil || x !in t.mem then []
    else Walk(t, t.mem[x].left, fuel - 1) + [x] + Walk(t, t.mem[x].right, fuel - 1)
  }

  // Walking down from a node meets exactly the nodes of its span, in their order.
  lemma {:induction false} WalkIsSpan(t: Tree, sp: Spans, order: seq<Node?>, x: Node?, fuel: nat)
    requires Links(t, sp, order) && x in sp && sp[x].hi - sp[x].lo <= fuel
    ensures 0 <= sp[x].lo <= sp[x].hi <= |order| && Walk(t, x, fuel) == order[sp[x].lo..sp[x].hi]
    decreases fuel
  {
    hide Links;
    Kids(t, sp, order, x);
    var i, l, r := sp[x], t.mem[x].left, t.mem[x].right;
    if l != t.nil {
      WalkIsSpan(t, sp, order, l, fuel - 1);
    }
    if r != t.nil {
      WalkIsSpan(t, sp, order, r, fuel - 1);
    }
    assert Walk(t, l, fuel - 1) == order[i.lo..i.pos] && Walk(t, r, fuel - 1) == order[i.pos + 1..i.hi];
    Around(order, i.lo, i.pos, i.hi);
  }

  // What the children of x span.
  lemma {:induction false} Kids(t: Tree, sp: Spans, order: seq<Node?>, x: Node?)
    requires Links(t, sp, order) && x in sp
    ensures x in t.mem && x != t.nil && 0 <= sp[x].lo <= sp[x].pos < sp[x].hi <= |order| && order[sp[x].pos] == x
    ensures var i, l, r := sp[x], t.mem[x].left, t.mem[x].right;
            && (if l == t.nil then i.lo == i.pos else l in sp && sp[l].lo == i.lo && sp[l].hi == i.pos)
            && (if r == t.nil then i.pos + 1 == i.hi else r in sp && sp[r].lo == i.pos + 1 && sp[r].hi == i.hi)
  {
    assert LinkAt(t, sp, order, x);
  }

  lemma {:induction false} Around(order: seq<Node?>, lo: nat, pos: nat, hi: nat)
    requires lo <= pos < hi <= |order|
    ensures order[lo..hi] == order[lo..pos] + [order[pos]] + order[pos + 1..hi]
  {
  }

  lemma {:induction false} WalkIsOrder(t: Tree, sp: Spans, order: seq<Node?>)
    requires Links(t, sp, order)
    ensures Walk(t, t.root, |order|) == order
  {
    if order != [] {
      WalkIsSpan(t, sp, order, t.root, |order|);
    }
  }

  lemma {:induction false} BlacksBound(t: Tree, path: seq<Node?>)
    ensures Blacks(t, path) <= |path|
  {
    if path != [] {
      BlacksBound(t, path[1..]);
    }
  }

  lemma {:induction false} Pow2Grows(m: nat, n: nat)
    requires m <= n
    ensures Pow2(m) <= Pow2(n)
  {
    if m < n {
      Pow2Grows(m, n - 1);
    }
  }
}
