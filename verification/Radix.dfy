// ngx_radix_tree: longest-prefix match over 32-bit keys, with a free list of nodes.

module Radix {
  // NGX_RADIX_NO_VALUE
  const NONE: nat := 0xffff_ffff_ffff_ffff

  datatype Result = Ok | Busy | Error

  function Bit(x: bv32, d: nat): bool
    requires d <= 32
  {
    x & (0x80000000 >> d) != 0
  }

  // The first n bits of a key.
  function Prefix(key: bv32, n: nat): (p: seq<bool>)
    requires n <= 32
    ensures |p| == n
  {
    seq(n, i requires 0 <= i < n => Bit(key, i))
  }

  // The number of leading ones of a mask from bit d on.
  function Ones(mask: bv32, d: nat): (n: nat)
    requires d <= 32
    ensures d <= n <= 32 && !Bit(mask, n) && forall i | d <= i < n :: Bit(mask, i)
    decreases 32 - d
  {
    if d == 32 then
      assert (0x80000000 as bv32) >> 32 == 0;
      d
    else if Bit(mask, d) then Ones(mask, d + 1) else d
  }

  lemma {:induction false} Shifted(d: nat)
    requires d < 32
    ensures ((0x80000000 as bv32) >> d) >> 1 == (0x80000000 as bv32) >> (d + 1)
  {
  }

  lemma {:induction false} OnesIs(mask: bv32, d: nat, n: nat)
    requires d <= n <= 32 && !Bit(mask, n) && forall i | d <= i < n :: Bit(mask, i)
    ensures Ones(mask, d) == n
    decreases n - d
  {
    if d < n {
      OnesIs(mask, d + 1, n);
    }
  }

  lemma {:induction false} PrefixMore(key: bv32, n: nat)
    requires n < 32
    ensures Prefix(key, n + 1) == Prefix(key, n) + [Bit(key, n)]
  {
  }

  class Node {
    var left: Node?
    var right: Node?
    var parent: Node?
    var value: nat
  }

  function Up(p: seq<bool>): seq<bool>
    requires p != []
  {
    p[..|p| - 1]
  }

  datatype Cell = Cell(left: Node?, right: Node?, parent: Node?, value: nat)
  type Mem = map<Node, Cell>

  // A tree: the fields of its nodes, the nodes by prefix and back, the prefixes with
  // values, and the free list.
  datatype Tree = Tree(mem: Mem, at: map<seq<bool>, Node>, path: map<Node, seq<bool>>, entries: map<seq<bool>, nat>,
                       spare: seq<Node>)

  ghost function Child(t: Tree, p: seq<bool>, b: bool): Node? {
    if p + [b] in t.at then t.at[p + [b]] else null
  }

  // The fields of the node for prefix p.
  ghost predicate NodeAt(t: Tree, p: seq<bool>)
    requires p in t.at
  {
    var n := t.at[p];
    && |p| <= 32 && n in t.mem && n in t.path && t.path[n] == p && n !in t.spare && (p != [] ==> Up(p) in t.at)
    && t.mem[n] == Cell(Child(t, p, false), Child(t, p, true), if p == [] then null else t.at[Up(p)],
                        if p in t.entries then t.entries[p] else NONE)
  }

  ghost predicate SpareAt(t: Tree, i: nat)
    requires i < |t.spare|
  {
    t.spare[i] in t.mem && t.mem[t.spare[i]].right == if i + 1 < |t.spare| then t.spare[i + 1] else null
  }

  // A node below the root without children has a value; leaf is an exception.
  ghost predicate LeafAt(t: Tree, leaf: seq<bool>, p: seq<bool>) {
    p != [] && p != leaf ==> p in t.entries || p + [false] in t.at || p + [true] in t.at
  }

  ghost predicate Inv(t: Tree, leaf: seq<bool>) {
    && [] in t.at
    && (forall p {:trigger NodeAt(t, p)} | p in t.at :: NodeAt(t, p))
    && (forall p {:trigger LeafAt(t, leaf, p)} | p in t.at :: LeafAt(t, leaf, p))
    && (forall i {:trigger SpareAt(t, i)} | 0 <= i < |t.spare| :: SpareAt(t, i))
    && (forall i, j | 0 <= i < j < |t.spare| :: t.spare[i] != t.spare[j])
    && (forall p | p in t.entries :: p in t.at && t.entries[p] != NONE)
  }

  // The free list loses its first node.
  lemma {:induction false} PopKeeps(t: Tree, leaf: seq<bool>)
    requires Inv(t, leaf) && t.spare != []
    ensures Inv(t.(spare := t.spare[1..]), leaf) && Unused(t.(spare := t.spare[1..]), t.spare[0])
  {
    var t' := t.(spare := t.spare[1..]);
    assert SpareAt(t, 0);
    forall i | 0 <= i < |t'.spare|
      ensures SpareAt(t', i)
    {
      assert SpareAt(t, i + 1);
    }
    forall p | p in t.at
      ensures NodeAt(t', p) && LeafAt(t', leaf, p) && t.at[p] != t.spare[0]
    {
      assert NodeAt(t, p) && LeafAt(t, leaf, p);
    }
  }

  // A node that is neither in the tree nor in the free list.
  ghost predicate Unused(t: Tree, n: Node) {
    n in t.mem && n !in t.spare && forall p | p in t.at :: t.at[p] != n
  }

  lemma {:induction false} NewKeeps(t: Tree, leaf: seq<bool>, n: Node, c: Cell)
    requires Inv(t, leaf) && n !in t.mem
    ensures Inv(t.(mem := t.mem[n := c]), leaf) && Unused(t.(mem := t.mem[n := c]), n)
  {
    hide NodeAt, SpareAt, LeafAt;
    var t' := t.(mem := t.mem[n := c]);
    forall i | 0 <= i < |t'.spare|
      ensures SpareAt(t', i) && t.spare[i] != n
    {
      assert SpareAt(t, i);
      NewSpareAt(t, n, c, i);
    }
    forall p | p in t.at
      ensures NodeAt(t', p) && LeafAt(t', leaf, p) && t.at[p] != n
    {
      assert NodeAt(t, p) && LeafAt(t, leaf, p);
      NewNodeAt(t, leaf, n, c, p);
    }
  }

  lemma {:induction false} NewSpareAt(t: Tree, n: Node, c: Cell, i: nat)
    requires i < |t.spare| && SpareAt(t, i) && n !in t.mem
    ensures SpareAt(t.(mem := t.mem[n := c]), i) && t.spare[i] != n
  {
  }

  lemma {:induction false} NewNodeAt(t: Tree, leaf: seq<bool>, n: Node, c: Cell, p: seq<bool>)
    requires p in t.at && NodeAt(t, p) && LeafAt(t, leaf, p) && n !in t.mem
    ensures var t' := t.(mem := t.mem[n := c]);
            NodeAt(t', p) && LeafAt(t', leaf, p) && t.at[p] != n
  {
    var t' := t.(mem := t.mem[n := c]);
    assert Child(t', p, false) == Child(t, p, false) && Child(t', p, true) == Child(t, p, true);
  }

  // Two prefixes differ if their parents or last bits do.
  lemma {:induction false} UpOf(p: seq<bool>, b: bool)
    ensures Up(p + [b]) == p && (p + [b])[|p|] == b
  {
  }

  // A new node without a value below the node for p.
  function Added(t: Tree, p: seq<bool>, b: bool, n: Node): Tree
    requires p in t.at && t.at[p] in t.mem
  {
    var q := t.at[p];
    var m := t.mem[n := Cell(null, null, q, NONE)];
    var c := t.mem[q];
    Tree(m[q := if b then c.(right := n) else c.(left := n)], t.at[p + [b] := n], t.path[n := p + [b]],
         t.entries, t.spare)
  }

  lemma {:induction false} AddedKeeps(t: Tree, p: seq<bool>, b: bool, n: Node)
    requires Inv(t, p) && p in t.at && p + [b] !in t.at && |p| < 32 && Unused(t, n)
    ensures t.at[p] in t.mem && Inv(Added(t, p, b, n), p + [b])
  {
    assert NodeAt(t, p);
    var t', q := Added(t, p, b, n), p + [b];
    UpOf(p, b);
    forall r | r in t'.at
      ensures NodeAt(t', r) && LeafAt(t', q, r)
    {
      AddedAt(t, p, b, n, r);
    }
    forall i | 0 <= i < |t'.spare|
      ensures SpareAt(t', i)
    {
      assert SpareAt(t, i);
    }
  }

  lemma {:induction false} AddedAt(t: Tree, p: seq<bool>, b: bool, n: Node, r: seq<bool>)
    requires Inv(t, p) && p in t.at && p + [b] !in t.at && |p| < 32 && Unused(t, n) && t.at[p] in t.mem
    requires r in t.at || r == p + [b]
    ensures NodeAt(Added(t, p, b, n), r) && LeafAt(Added(t, p, b, n), p + [b], r)
  {
    var t', q := Added(t, p, b, n), p + [b];
    UpOf(p, b);
    assert NodeAt(t, p);
    if r == q {
      NoChildren(t, q);
    } else {
      assert NodeAt(t, r) && LeafAt(t, p, r);
      UpOf(r, false);
      UpOf(r, true);
      assert r != p ==> Child(t', r, false) == Child(t, r, false) && Child(t', r, true) == Child(t, r, true);
    }
  }

  // A prefix outside the tree has no children in it.
  lemma {:induction false} NoChildren(t: Tree, q: seq<bool>)
    requires (forall p {:trigger NodeAt(t, p)} | p in t.at :: NodeAt(t, p)) && q !in t.at
    ensures q + [false] !in t.at && q + [true] !in t.at
  {
    forall b
      ensures q + [b] !in t.at
    {
      UpOf(q, b);
      assert q + [b] in t.at ==> NodeAt(t, q + [b]);
    }
  }

  // The node for p gets a value.
  function Valued(t: Tree, p: seq<bool>, v: nat): Tree
    requires p in t.at && t.at[p] in t.mem
  {
    t.(mem := t.mem[t.at[p] := t.mem[t.at[p]].(value := v)],
       entries := if v == NONE then t.entries - {p} else t.entries[p := v])
  }

  lemma {:induction false} ValuedAt(t: Tree, leaf: seq<bool>, p: seq<bool>, v: nat, r: seq<bool>)
    requires p in t.at && NodeAt(t, p) && r in t.at && NodeAt(t, r) && LeafAt(t, leaf, r)
    requires v == NONE ==> p + [false] in t.at || p + [true] in t.at
    requires leaf == p || leaf == []
    ensures NodeAt(Valued(t, p, v), r) && LeafAt(Valued(t, p, v), [], r)
  {
    var t' := Valued(t, p, v);
    assert r != p ==> t.at[r] != t.at[p];
    assert Child(t', r, false) == Child(t, r, false) && Child(t', r, true) == Child(t, r, true);
  }

  lemma {:induction false} InMem(t: Tree, p: seq<bool>)
    requires p in t.at && NodeAt(t, p)
    ensures t.at[p] in t.mem
  {
  }

  lemma {:induction false} ValuedSpare(t: Tree, p: seq<bool>, v: nat, i: nat)
    requires p in t.at && NodeAt(t, p) && i < |t.spare| && SpareAt(t, i)
    ensures SpareAt(Valued(t, p, v), i)
  {
  }

  lemma {:induction false} ValuedKeeps(t: Tree, leaf: seq<bool>, p: seq<bool>, v: nat)
    requires Inv(t, leaf) && p in t.at
    requires v == NONE ==> p + [false] in t.at || p + [true] in t.at
    requires leaf == p || leaf == []
    ensures t.at[p] in t.mem && Inv(Valued(t, p, v), [])
  {
    hide NodeAt, LeafAt, SpareAt;
    assert NodeAt(t, p);
    InMem(t, p);
    var t' := Valued(t, p, v);
    forall r | r in t'.at
      ensures NodeAt(t', r) && LeafAt(t', [], r)
    {
      assert NodeAt(t, r) && LeafAt(t, leaf, r);
      ValuedAt(t, leaf, p, v, r);
    }
    forall i | 0 <= i < |t'.spare|
      ensures SpareAt(t', i)
    {
      assert SpareAt(t, i);
      ValuedSpare(t, p, v, i);
    }
  }

  // The childless node for q leaves the tree and heads the free list.
  function Removed(t: Tree, q: seq<bool>): Tree
    requires q in t.at && q != [] && Up(q) in t.at && t.at[q] in t.mem && t.at[Up(q)] in t.mem
  {
    var n, u := t.at[q], t.at[Up(q)];
    var c := t.mem[u];
    var m := t.mem[u := if c.right == n then c.(right := null) else c.(left := null)];
    Tree(m[n := t.mem[n].(right := if t.spare == [] then null else t.spare[0])], t.at - {q}, t.path - {n},
         t.entries - {q},
         [n] + t.spare)
  }

  lemma {:induction false} RemovedKeeps(t: Tree, q: seq<bool>)
    requires Inv(t, q) && q in t.at && q != [] && q + [false] !in t.at && q + [true] !in t.at
    ensures Up(q) in t.at && t.at[q] in t.mem && t.at[Up(q)] in t.mem
    ensures Inv(Removed(t, q), Up(q))
  {
    assert NodeAt(t, q) && NodeAt(t, Up(q));
    var t' := Removed(t, q);
    forall r | r in t'.at
      ensures NodeAt(t', r) && LeafAt(t', Up(q), r)
    {
      RemovedAt(t, q, r);
    }
    RemovedSpare(t, q);
  }

  // The memory after the two writes.
  lemma {:induction false} RemovedIs(t: Tree, q: seq<bool>, m: Mem, m': Mem)
    requires q in t.at && q != [] && Up(q) in t.at && t.at[q] in t.mem && t.at[Up(q)] in t.mem && t.at[q] != t.at[Up(q)]
    requires var n, u := t.at[q], t.at[Up(q)];
             var c := t.mem[u];
             m == t.mem[u := if c.right == n then c.(right := null) else c.(left := null)]
    requires m' == m[t.at[q] := m[t.at[q]].(right := if t.spare == [] then null else t.spare[0])]
    ensures Removed(t, q) == Tree(m', t.at - {q}, t.path - {t.at[q]}, t.entries - {q}, [t.at[q]] + t.spare)
  {
  }

  lemma {:induction false} RemovedSpare(t: Tree, q: seq<bool>)
    requires Inv(t, q) && q in t.at && q != [] && Up(q) in t.at && t.at[q] in t.mem && t.at[Up(q)] in t.mem
    ensures var t' := Removed(t, q);
            && (forall i | 0 <= i < |t'.spare| :: SpareAt(t', i))
            && (forall i, j | 0 <= i < j < |t'.spare| :: t'.spare[i] != t'.spare[j])
  {
    assert NodeAt(t, q) && NodeAt(t, Up(q));
    var t' := Removed(t, q);
    forall i | 0 <= i < |t'.spare|
      ensures SpareAt(t', i)
    {
      if i > 0 {
        assert SpareAt(t, i - 1);
        assert t'.spare[i] == t.spare[i - 1];
      }
    }
  }

  lemma {:induction false} RemovedAt(t: Tree, q: seq<bool>, r: seq<bool>)
    requires Inv(t, q) && q in t.at && q != [] && q + [false] !in t.at && q + [true] !in t.at && r in t.at && r != q
    requires Up(q) in t.at && t.at[q] in t.mem && t.at[Up(q)] in t.mem
    ensures NodeAt(Removed(t, q), r) && LeafAt(Removed(t, q), Up(q), r)
  {
    var t', u := Removed(t, q), Up(q);
    assert NodeAt(t, q) && NodeAt(t, u) && NodeAt(t, r) && LeafAt(t, q, r);
    assert t.at[r] != t.at[q];
    LastBit(q);
    UpOf(r, false);
    UpOf(r, true);
    if r != u {
      assert t.at[r] != t.at[u] && r + [false] != q && r + [true] != q;
      assert Child(t', r, false) == Child(t, r, false) && Child(t', r, true) == Child(t, r, true);
    } else {
      var b := q[|q| - 1];
      assert Child(t', u, b) == null && u + [!b] != q && Child(t', u, !b) == Child(t, u, !b);
      OtherChild(t, u, b);
    }
    assert r != [] ==> Up(r) != q by {
      if r != [] && Up(r) == q {
        LastBit(r);
      }
    }
  }

  lemma {:induction false} LastBit(q: seq<bool>)
    requires q != []
    ensures q == Up(q) + [q[|q| - 1]] && (q == Up(q) + [true] || q == Up(q) + [false])
  {
    if q[|q| - 1] {
      assert q == Up(q) + [true];
    } else {
      assert q == Up(q) + [false];
    }
  }

  lemma {:induction false} OtherChild(t: Tree, u: seq<bool>, b: bool)
    requires u in t.at && u + [b] in t.at && NodeAt(t, u) && NodeAt(t, u + [b])
    requires u + [!b] in t.at ==> NodeAt(t, u + [!b])
    ensures b <==> t.mem[t.at[u]].right == t.at[u + [b]]
  {
  }

  // r is the value of the longest entry that is a prefix of the key, or NONE.
  ghost predicate Longest(entries: map<seq<bool>, nat>, key: bv32, r: nat) {
    if r == NONE then forall p | p in entries :: !(p <= Prefix(key, 32))
    else exists p :: p in entries && entries[p] == r && p <= Prefix(key, 32)
                     && forall q | q in entries && q <= Prefix(key, 32) :: |q| <= |p|
  }

  class RadixTree {
    const root: Node
    var free: Node?

    ghost var repr: set<Node>
    ghost var mem: Mem
    ghost var at: map<seq<bool>, Node>
    ghost var path: map<Node, seq<bool>>
    ghost var entries: map<seq<bool>, nat>
    ghost var spare: seq<Node>

    ghost function T(): Tree
      reads this
    {
      Tree(mem, at, path, entries, spare)
    }

    ghost predicate At(x: Node)
      reads `mem, x
    {
      x in mem && mem[x] == Cell(x.left, x.right, x.parent, x.value)
    }

    // mem is a picture of the heap.
    ghost predicate Pictured()
      reads `mem, `repr, repr
    {
      (forall x | x in mem :: x in repr) && (forall x {:trigger At(x)} | x in repr :: At(x))
    }

    ghost predicate Sync()
      reads this, repr
    {
      && Pictured() && [] in at && at[[]] == root && free == if spare == [] then null else spare[0]
    }

    ghost predicate Valid()
      reads this, repr
    {
      Sync() && Inv(T(), [])
    }

    // ngx_radix_tree_create without preallocation
    constructor ()
      ensures Valid() && entries == map[] && spare == [] && fresh(repr)
    {
      var r := new Node;
      r.right, r.left, r.parent, r.value := null, null, null, NONE;
      root, free := r, null;
      at, path, entries, spare, repr := map[[] := r], map[r := []], map[], [], {r};
      mem := map[r := Cell(null, null, null, NONE)];
      new;
      assert NodeAt(T(), []);
    }

    // ngx_radix_alloc: a node of the free list, or new memory.
    method Alloc(ghost leaf: seq<bool>) returns (n: Node)
      requires Sync() && Inv(T(), leaf)
      modifies `free, `spare, `repr, `mem
      ensures Sync() && Inv(T(), leaf) && Unused(T(), n) && n in repr
      ensures repr == old(repr) + {n} && (n !in old(repr) ==> fresh(n))
      ensures spare == if old(spare) == [] then [] else old(spare)[1..]
    {
      hide Inv;
      if free != null {
        FirstSpare(T(), leaf);
        assert At(spare[0]);
        PopKeeps(T(), leaf);
        n := free;
        free := free.right;
        spare := spare[1..];
        return;
      }
      n := new Node;
      assert forall x | x in repr :: At(x);
      NewKeeps(T(), leaf, n, Cell(n.left, n.right, n.parent, n.value));
      mem := mem[n := Cell(n.left, n.right, n.parent, n.value)];
      repr := repr + {n};
    }

    // The second loop of ngx_radix32tree_insert: a new node below node.
    method AddChild(node: Node, ghost p: seq<bool>, b: bool) returns (next: Node)
      requires Sync() && Inv(T(), p) && p in at && at[p] == node && p + [b] !in at && |p| < 32
      modifies this, repr
      ensures Sync() && Inv(T(), p + [b]) && at == old(at)[p + [b] := next] && entries == old(entries)
      ensures (forall n | n in repr :: n in old(repr) || fresh(n)) && old(repr) <= repr
    {
      hide Inv, Pictured;
      next := Alloc(p);
      ghost var t := T();
      AddedKeeps(t, p, b, next);
      Differ(t, p, next);
      Pictures(node);
      InitNode(next, node);
      LinkChild(node, b, next);
      at, path := at[p + [b] := next], path[next := p + [b]];
      assert T() == Added(t, p, b, next);
    }

    method InitNode(next: Node, node: Node)
      requires Sync() && next in repr
      modifies `mem, next
      ensures Sync() && mem == old(mem)[next := Cell(null, null, node, NONE)]
    {
      assert forall x | x in repr :: At(x);
      next.right, next.left, next.parent, next.value := null, null, node, NONE;
      mem := mem[next := Cell(null, null, node, NONE)];
    }

    method LinkChild(node: Node, b: bool, next: Node?)
      requires Sync() && node in repr && node in mem
      modifies `mem, node
      ensures Sync() && mem == old(mem)[node := if b then old(mem)[node].(right := next)
                else old(mem)[node].(left := next)]
    {
      assert At(node) && forall x | x in repr :: At(x);
      if b {
        node.right := next;
      } else {
        node.left := next;
      }
      mem := mem[node := Cell(node.left, node.right, node.parent, node.value)];
    }

    // The assignments to a node's value.
    method PutValue(node: Node, value: nat, ghost leaf: seq<bool>, ghost p: seq<bool>)
      requires Sync() && Inv(T(), leaf) && p in at && at[p] == node && (leaf == p || leaf == [])
      requires value == NONE ==> p + [false] in at || p + [true] in at
      modifies `mem, `entries, repr
      ensures Valid() && entries == if value == NONE then old(entries) - {p} else old(entries)[p := value]
    {
      hide Inv;
      ValuedKeeps(T(), leaf, p, value);
      ghost var t := Valued(T(), p, value);
      assert At(node) && forall x | x in repr :: At(x);
      node.value := value;
      mem, entries := t.mem, t.entries;
    }

    // The first loop of ngx_radix32tree_insert: as far as the tree goes.
    method Walk(key: bv32, mask: bv32) returns (node: Node, next: Node?, bit: bv32, ghost d: nat)
      requires Valid()
      ensures d <= Ones(mask, 0) && BitAt(bit, d) && Prefix(key, d) in at && at[Prefix(key, d)] == node
      ensures next != null ==> next == node && d == Ones(mask, 0)
      ensures next == null ==> d < Ones(mask, 0) && Prefix(key, d + 1) !in at
    {
      hide Inv, Prefix, Ones, Bit, BitAt;
      node, next, bit, d := root, root, 0x80000000, 0;
      PrefixNone(key);
      FirstBit();
      while bit & mask != 0
        invariant d <= 32 && BitAt(bit, d) && (forall i | 0 <= i < d :: Bit(mask, i))
        invariant Prefix(key, d) in at && at[Prefix(key, d)] == node && next == node
        decreases 32 - d
      {
        NextBit(bit, d, key, mask);
        Step(T(), [], key, d);
        NodeFields(T(), [], Prefix(key, d));
        assert At(node);
        next := if key & bit != 0 then node.right else node.left;
        if next == null {
          OnesMore(mask, d);
          return;
        }
        bit := bit >> 1;
        node := next;
        d := d + 1;
      }
      NextBit(bit, d, key, mask);
      OnesIs(mask, 0, d);
    }

    // ngx_radix32tree_insert
    method Insert(key: bv32, mask: bv32, value: nat) returns (r: Result)
      requires Valid() && value != NONE
      modifies this, repr
      ensures Valid() && (forall n | n in repr :: n in old(repr) || fresh(n))
      ensures var p := Prefix(key, Ones(mask, 0));
              if p in old(entries) then r == Busy && entries == old(entries) && at == old(at)
              else r == Ok && entries == old(entries)[p := value]
    {
      hide Inv, Prefix, Ones, BitAt;
      var node, next, bit;
      ghost var d;
      node, next, bit, d := Walk(key, mask);
      if next != null {
        NodeFields(T(), [], Prefix(key, d));
        assert At(node);
        if node.value != NONE {
          return Busy;
        }
        PutValue(node, value, [], Prefix(key, d));
        return Ok;
      }
      Absent(T(), [], key, d + 1, Ones(mask, 0));
      Weaken(T(), Prefix(key, d));
      r := Extend(key, mask, value, node, bit, d);
    }

    // The second loop of ngx_radix32tree_insert: the part of the path that is missing.
    method Extend(key: bv32, mask: bv32, value: nat, start: Node, from: bv32, ghost depth: nat) returns (r: Result)
      requires depth < Ones(mask, 0) && BitAt(from, depth) && value != NONE && Prefix(key, depth + 1) !in at
      requires Sync() && Prefix(key, depth) in at && at[Prefix(key, depth)] == start && Inv(T(), Prefix(key, depth))
      modifies this, repr
      ensures Valid() && r == Ok && (forall n | n in repr :: n in old(repr) || fresh(n))
      ensures entries == old(entries)[Prefix(key, Ones(mask, 0)) := value]
    {
      hide Inv, Prefix, Ones, Bit, BitAt;
      var node, bit := start, from;
      ghost var d := depth;
      while bit & mask != 0
        invariant d <= Ones(mask, 0) && BitAt(bit, d)
        invariant Sync() && Prefix(key, d) in at && at[Prefix(key, d)] == node && Inv(T(), Prefix(key, d))
                  && entries == old(entries)
        invariant d < 32 ==> Prefix(key, d + 1) !in at
        invariant forall n | n in repr :: n in old(repr) || fresh(n)
        decreases 32 - d
      {
        NextBit(bit, d, key, mask);
        OnesMore(mask, d);
        PrefixMore(key, d);
        if d + 1 < 32 {
          Beyond(T(), key, d);
        }
        node := AddChild(node, Prefix(key, d), key & bit != 0);
        bit := bit >> 1;
        d := d + 1;
      }
      NextBit(bit, d, key, mask);
      OnesEnd(mask, d);
      PutValue(node, value, Prefix(key, d), Prefix(key, d));
      return Ok;
    }

    // The search loop of ngx_radix32tree_delete.
    method Seek(key: bv32, mask: bv32) returns (node: Node?)
      requires Valid()
      ensures var p := Prefix(key, Ones(mask, 0)); node == if p in at then at[p] else null
    {
      hide Inv, Prefix, Ones, Bit, BitAt;
      var bit := 0x80000000 as bv32;
      ghost var d := 0;
      node := root;
      PrefixNone(key);
      FirstBit();
      while node != null && bit & mask != 0
        invariant node != null ==> d <= 32 && BitAt(bit, d) && (forall i | 0 <= i < d :: Bit(mask, i))
        invariant node != null ==> Prefix(key, d) in at && at[Prefix(key, d)] == node
        invariant node == null ==> Prefix(key, Ones(mask, 0)) !in at
        decreases node != null, 32 - d
      {
        NextBit(bit, d, key, mask);
        Step(T(), [], key, d);
        NodeFields(T(), [], Prefix(key, d));
        assert At(node);
        node := if key & bit != 0 then node.right else node.left;
        if node == null {
          OnesMore(mask, d);
          Absent(T(), [], key, d + 1, Ones(mask, 0));
        }
        bit := bit >> 1;
        d := d + 1;
      }
      if node != null {
        NextBit(bit, d, key, mask);
        OnesIs(mask, 0, d);
      }
    }

    // A childless node leaves the tree for the free list.
    method Unlink(node: Node, ghost q: seq<bool>) returns (parent: Node)
      requires Sync() && Inv(T(), q) && q in at && at[q] == node && q != [] && q + [false] !in at && q + [true] !in at
      modifies this, repr
      ensures Sync() && Up(q) in at && at[Up(q)] == parent && Inv(T(), Up(q)) && repr == old(repr)
      ensures at == old(at) - {q} && entries == old(entries) - {q} && spare == [node] + old(spare)
    {
      hide Inv, Removed, Pictured;
      ghost var s := T();
      RemovedKeeps(s, q);
      parent := Unhook(node, q);
      at, path, entries := at - {q}, path - {node}, entries - {q};
    }

    // The writes to the parent, the node and the free list.
    method Unhook(node: Node, ghost q: seq<bool>) returns (parent: Node)
      requires Sync() && Inv(T(), q) && q in at && at[q] == node && q != []
      requires Up(q) in at && node in mem && at[Up(q)] in mem
      modifies `mem, `free, `spare, repr
      ensures Pictured() && parent == at[Up(q)] && parent != node && free == node && spare == [node] + old(spare)
      ensures [] in at - {q} && (at - {q})[[]] == at[[]]
      ensures Removed(old(T()), q) == Tree(mem, at - {q}, path - {node}, entries - {q}, spare)
    {
      hide Inv, Removed, Pictured;
      ghost var s := T();
      ParentOf(s, q);
      Pictures(node);
      Pictures(node.parent);
      parent := node.parent;
      LinkChild(parent, parent.right == node, null);
      ghost var m := mem;
      PutFree(node);
      RemovedIs(s, q, m, mem);
    }

    // A node and its picture.
    lemma {:induction false} Pictures(x: Node?)
      requires Pictured() && x != null && x in mem
      ensures x in repr && At(x)
    {
    }

    method PutFree(node: Node)
      requires Sync() && node in repr && node in mem
      modifies `mem, `free, `spare, node
      ensures Pictured() && free == node && spare == [node] + old(spare)
      ensures mem == old(mem)[node := old(mem)[node].(right := old(free))]
    {
      assert At(node) && forall x | x in repr :: At(x);
      node.right := free;
      mem := mem[node := mem[node].(right := free)];
      free := node;
      spare := [node] + spare;
    }

    // ngx_radix32tree_delete; a mask of no bits needs a root with children.
    method Delete(key: bv32, mask: bv32) returns (r: Result)
      requires Valid() && (Ones(mask, 0) > 0 || [false] in at || [true] in at)
      modifies this, repr
      ensures Valid() && repr == old(repr)
      ensures var p := Prefix(key, Ones(mask, 0));
              (r == Ok <==> p in old(entries)) && (r == Error <==> p !in old(entries)) && entries == old(entries) - {p}
    {
      hide Inv, Prefix, Ones;
      var node := Seek(key, mask);
      ghost var p := Prefix(key, Ones(mask, 0));
      EntriesIn(T(), []);
      if node == null {
        return Error;
      }
      NodeFields(T(), [], p);
      assert At(node);
      if node.right != null || node.left != null {
        if node.value != NONE {
          PutValue(node, NONE, [], p);
          return Ok;
        }
        return Error;
      }
      RootChildren(T(), p);
      Prune(node, p);
      return Ok;
    }

    // The loop that takes childless nodes without values out of the tree.
    method Prune(start: Node, ghost p: seq<bool>)
      requires Valid() && p in at && at[p] == start && p != [] && p + [false] !in at && p + [true] !in at
      modifies this, repr
      ensures Valid() && entries == old(entries) - {p} && repr == old(repr) && p in old(entries)
    {
      hide Inv;
      var node := start;
      ghost var q := p;
      Weaken(T(), p);
      LeafHasValue(T(), p);
      while true
        invariant Sync() && Inv(T(), q) && q in at && at[q] == node && q != [] && q + [false] !in at
                  && q + [true] !in at
        invariant repr == old(repr) && (if q == p then entries == old(entries)
                    else entries == old(entries) - {p} && q !in entries)
        decreases |q|
      {
        node := Unlink(node, q);
        q := Up(q);
        NodeFields(T(), q, q);
        assert At(node);
        if node.right != null || node.left != null {
          break;
        }
        if node.value != NONE {
          break;
        }
        if node.parent == null {
          break;
        }
      }
      Settled(T(), q);
    }

    // ngx_radix32tree_find
    method Find(key: bv32) returns (value: nat)
      requires Valid()
      ensures Longest(entries, key, value)
    {
      hide Inv, Prefix, Bit, BitAt, Longest;
      var bit, node := 0x80000000 as bv32, root as Node?;
      ghost var d := 0;
      value := NONE;
      PrefixNone(key);
      FirstBit();
      NothingYet(T(), key);
      while node != null
        invariant if node != null then d <= 32 && BitAt(bit, d) && Prefix(key, d) in at && at[Prefix(key, d)] == node
                                       && Upto(entries, key, d, value)
                  else Longest(entries, key, value)
        decreases node != null, 32 - d
      {
        NodeFields(T(), [], Prefix(key, d));
        assert At(node);
        UptoNext(T(), key, d, value);
        if node.value != NONE {
          value := node.value;
        }
        if d < 32 {
          AnyBit(bit, d, key);
          Step(T(), [], key, d);
        } else {
          Bottom(T(), key);
        }
        node := if key & bit != 0 then node.right else node.left;
        if node == null {
          UptoEnd(T(), key, d, value);
        }
        bit := bit >> 1;
        d := d + 1;
      }
    }
  }

  lemma {:induction false} EntriesIn(t: Tree, leaf: seq<bool>)
    requires Inv(t, leaf)
    ensures forall p | p in t.entries :: p in t.at && t.entries[p] != NONE
  {
  }

  lemma {:induction false} ParentOf(t: Tree, q: seq<bool>)
    requires q in t.at && q != [] && Inv(t, q)
    ensures Up(q) in t.at && t.at[Up(q)] != t.at[q] && t.at[Up(q)] in t.mem
    ensures t.at[q] in t.mem && t.mem[t.at[q]].parent == t.at[Up(q)] && [] in t.at && (t.at - {q})[[]] == t.at[[]]
  {
    assert NodeAt(t, q) && NodeAt(t, Up(q));
  }

  lemma {:induction false} RootChildren(t: Tree, p: seq<bool>)
    requires ([false] in t.at || [true] in t.at || p != []) && p + [false] !in t.at && p + [true] !in t.at
    ensures p != []
  {
    assert [] + [false] == [false] && [] + [true] == [true];
  }

  lemma {:induction false} LeafHasValue(t: Tree, p: seq<bool>)
    requires Inv(t, []) && p in t.at && p != [] && p + [false] !in t.at && p + [true] !in t.at
    ensures p in t.entries
  {
    assert LeafAt(t, [], p);
  }

  // The exception is not needed for the root, nor for a node with a value or a child.
  lemma {:induction false} Settled(t: Tree, q: seq<bool>)
    requires Inv(t, q) && (q == [] || q in t.entries || q + [false] in t.at || q + [true] in t.at)
    ensures Inv(t, [])
  {
    forall p | p in t.at
      ensures LeafAt(t, [], p)
    {
      assert LeafAt(t, q, p);
    }
  }

  // bit is the mask for the bit at depth d.
  predicate BitAt(bit: bv32, d: nat)
    requires d <= 32
  {
    bit == (0x80000000 as bv32) >> d
  }

  lemma {:induction false} FirstBit()
    ensures BitAt(0x80000000, 0)
  {
  }

  lemma {:induction false} NextBit(bit: bv32, d: nat, key: bv32, mask: bv32)
    requires d <= 32 && BitAt(bit, d)
    ensures bit & mask != 0 <==> Bit(mask, d)
    ensures key & bit != 0 <==> Bit(key, d)
    ensures bit & mask != 0 ==> d < 32 && BitAt(bit >> 1, d + 1)
  {
    if d == 32 {
      assert (0x80000000 as bv32) >> 32 == 0;
    } else {
      Shifted(d);
    }
  }

  lemma {:induction false} Leading(mask: bv32, e: nat, d: nat)
    requires e <= d <= 32 && forall i | e <= i <= d :: Bit(mask, i)
    ensures d < Ones(mask, e)
    decreases d - e
  {
    if e < d {
      Leading(mask, e + 1, d);
    }
  }

  lemma {:induction false} OnesMore(mask: bv32, d: nat)
    requires d <= 32 && Bit(mask, d) && (d <= Ones(mask, 0) || forall i | 0 <= i < d :: Bit(mask, i))
    ensures d < Ones(mask, 0)
  {
    if forall i | 0 <= i < d :: Bit(mask, i) {
      Leading(mask, 0, d);
    }
  }

  lemma {:induction false} OnesEnd(mask: bv32, d: nat)
    requires d <= Ones(mask, 0) && !Bit(mask, d)
    ensures d == Ones(mask, 0)
  {
  }

  lemma {:induction false} PrefixNone(key: bv32)
    ensures Prefix(key, 0) == []
  {
  }

  // The links of a node in the tree.
  lemma {:induction false} NodeFields(t: Tree, leaf: seq<bool>, p: seq<bool>)
    requires Inv(t, leaf) && p in t.at
    ensures t.at[p] in t.mem && |p| <= 32
    ensures t.mem[t.at[p]] == Cell(Child(t, p, false), Child(t, p, true),
                                   if p == [] || Up(p) !in t.at then null else t.at[Up(p)],
                                   if p in t.entries then t.entries[p] else NONE)
    ensures p != [] ==> Up(p) in t.at
    ensures forall q | q in t.entries :: q in t.at && t.entries[q] != NONE
  {
    assert NodeAt(t, p);
  }

  // The next node on the way of a key.
  lemma {:induction false} Step(t: Tree, leaf: seq<bool>, key: bv32, d: nat)
    requires Inv(t, leaf) && d < 32 && Prefix(key, d) in t.at
    ensures Prefix(key, d + 1) == Prefix(key, d) + [Bit(key, d)]
    ensures Child(t, Prefix(key, d), Bit(key, d)) == if Prefix(key, d + 1) in t.at then t.at[Prefix(key, d + 1)]
              else null
  {
    PrefixMore(key, d);
  }

  // Where the way of a key leaves the tree, it does not come back.
  lemma {:induction false} Absent(t: Tree, leaf: seq<bool>, key: bv32, d: nat, n: nat)
    requires Inv(t, leaf) && d <= n <= 32 && Prefix(key, d) !in t.at
    ensures Prefix(key, n) !in t.at && Prefix(key, n) !in t.entries
  {
    if d < n {
      Absent(t, leaf, key, d, n - 1);
      PrefixMore(key, n - 1);
      if Prefix(key, n) in t.at {
        assert NodeAt(t, Prefix(key, n));
        UpOf(Prefix(key, n - 1), Bit(key, n - 1));
      }
    }
  }

  // Below a new node there is nothing yet.
  lemma {:induction false} Beyond(t: Tree, key: bv32, d: nat)
    requires d < 31 && Inv(t, Prefix(key, d)) && Prefix(key, d + 1) !in t.at
    ensures Prefix(key, d + 2) !in t.at && Prefix(key, d + 2) != Prefix(key, d + 1)
  {
    Absent(t, Prefix(key, d), key, d + 1, d + 2);
  }

  lemma {:induction false} Weaken(t: Tree, leaf: seq<bool>)
    requires Inv(t, [])
    ensures Inv(t, leaf)
  {
    forall p | p in t.at
      ensures LeafAt(t, leaf, p)
    {
      assert LeafAt(t, [], p);
    }
  }

  lemma {:induction false} FirstSpare(t: Tree, leaf: seq<bool>)
    requires Inv(t, leaf) && t.spare != []
    ensures t.spare[0] in t.mem && t.mem[t.spare[0]].right == if |t.spare| > 1 then t.spare[1] else null
  {
    assert SpareAt(t, 0);
  }

  lemma {:induction false} Differ(t: Tree, p: seq<bool>, n: Node)
    requires p in t.at && Unused(t, n)
    ensures t.at[p] != n
  {
  }

  // The best entry among those shorter than d.
  ghost predicate Upto(entries: map<seq<bool>, nat>, key: bv32, d: nat, r: nat) {
    if r == NONE then forall p | p in entries && |p| < d :: !(p <= Prefix(key, 32))
    else exists p :: p in entries && entries[p] == r && p <= Prefix(key, 32) && |p| < d
                     && forall q | q in entries && q <= Prefix(key, 32) && |q| < d :: |q| <= |p|
  }

  lemma {:induction false} NothingYet(t: Tree, key: bv32)
    ensures Upto(t.entries, key, 0, NONE)
  {
  }

  lemma {:induction false} PrefixOf(key: bv32, p: seq<bool>)
    ensures p <= Prefix(key, 32) <==> |p| <= 32 && p == Prefix(key, |p|)
  {
    if |p| <= 32 {
      assert Prefix(key, 32)[..|p|] == Prefix(key, |p|);
    }
  }

  lemma {:induction false} UptoNext(t: Tree, key: bv32, d: nat, r: nat)
    requires Inv(t, []) && d <= 32 && Prefix(key, d) in t.at && Upto(t.entries, key, d, r)
    ensures var p := Prefix(key, d); Upto(t.entries, key, d + 1, if p in t.entries then t.entries[p] else r)
  {
    var p := Prefix(key, d);
    PrefixOf(key, p);
    forall q | q in t.entries && |q| == d && q <= Prefix(key, 32)
      ensures q == p
    {
      PrefixOf(key, q);
    }
    if p !in t.entries && r != NONE {
      var w :| w in t.entries && t.entries[w] == r && w <= Prefix(key, 32) && |w| < d
               && forall q | q in t.entries && q <= Prefix(key, 32) && |q| < d :: |q| <= |w|;
      assert |w| < d + 1;
    }
  }

  lemma {:induction false} UptoEnd(t: Tree, key: bv32, d: nat, r: nat)
    requires Inv(t, []) && d <= 32 && Upto(t.entries, key, d + 1, r) && (d < 32 ==> Prefix(key, d + 1) !in t.at)
    ensures Longest(t.entries, key, r)
  {
    forall q | q in t.entries && q <= Prefix(key, 32)
      ensures |q| < d + 1
    {
      PrefixOf(key, q);
      if |q| > d {
        Absent(t, [], key, d + 1, |q|);
      }
    }
  }

  lemma {:induction false} AnyBit(bit: bv32, d: nat, key: bv32)
    requires d < 32 && BitAt(bit, d)
    ensures (key & bit != 0 <==> Bit(key, d)) && BitAt(bit >> 1, d + 1)
  {
    Shifted(d);
  }

  // The nodes for whole keys have no children.
  lemma {:induction false} Bottom(t: Tree, key: bv32)
    requires Inv(t, [])
    ensures Child(t, Prefix(key, 32), false) == null && Child(t, Prefix(key, 32), true) == null
  {
    forall b
      ensures Prefix(key, 32) + [b] !in t.at
    {
      assert Prefix(key, 32) + [b] in t.at ==> NodeAt(t, Prefix(key, 32) + [b]);
    }
  }
}
