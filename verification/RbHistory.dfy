// Red-black tree: what whole histories of insertions and deletions leave.

module RbHistory {
  import opened RbLinks
  import opened RbKeys
  import opened RbColor
  import opened RbPaths
  import RbEdit
  import opened RbTree

  // A client sets the key of a node before it inserts the node.
  datatype Op = Put(node: Node, key: nat) | Take(node: Node)

  // The nodes in the tree after the operations, with their keys.
  function Held(ops: seq<Op>): map<Node, nat> {
    if ops == [] then map[]
    else
      var h := Held(ops[..|ops| - 1]);
      match ops[|ops| - 1]
      case Put(n, key) => h[n := key]
      case Take(n) => h - {n}
  }

  // A node is inserted when it is not in the tree, and deleted when it is; s is the sentinel.
  // A timer is close to all that are set.
  predicate Legal(ops: seq<Op>, s: Node, timer: bool) {
    ops != [] ==>
      && Legal(ops[..|ops| - 1], s, timer)
      && match ops[|ops| - 1]
         case Put(n, key) =>
           n != s && n !in Held(ops[..|ops| - 1]) && (timer ==> CloseToAll(Held(ops[..|ops| - 1]), key))
         case Take(n) => n in Held(ops[..|ops| - 1])
  }

  predicate CloseToAll(held: map<Node, nat>, key: nat) {
    forall x | x in held :: Close(key, held[x])
  }

  function Inserted(ops: seq<Op>): multiset<nat> {
    if ops == [] then multiset{}
    else
      match ops[|ops| - 1]
      case Put(_, key) => Inserted(ops[..|ops| - 1]) + multiset{key}
      case Take(_) => Inserted(ops[..|ops| - 1])
  }

  // The keys that the deleted nodes had.
  function Deleted(ops: seq<Op>): multiset<nat> {
    if ops == [] then multiset{}
    else
      var init := ops[..|ops| - 1];
      match ops[|ops| - 1]
      case Put(_, _) => Deleted(init)
      case Take(n) => Deleted(init) + if n in Held(init) then multiset{Held(init)[n]} else multiset{}
  }

  function Nodes(ops: seq<Op>): set<Node> {
    set i | 0 <= i < |ops| :: ops[i].node
  }

  ghost predicate Increasing(keys: seq<nat>) {
    forall i, j | 0 <= i < j < |keys| :: keys[i] <= keys[j]
  }

  // The keys of the nodes in order.
  ghost predicate Shows(t: RbTree, keys: seq<nat>)
    reads t, t.repr
  {
    && |keys| == |t.order|
    && forall i | 0 <= i < |keys| :: t.order[i] != null && t.order[i] in t.repr && t.order[i].key == keys[i]
  }

  // The tree after the operations: it holds the nodes of the history, with their keys.
  ghost predicate After(t: RbTree, s: Node, ops: seq<Op>, keys: seq<nat>)
    reads t, t.repr
  {
    && t.Valid() && t.sentinel == s && Shows(t, keys)
    && (forall x | x in t.repr :: x == s || x in Held(ops)) && (forall x | x in Held(ops) :: x in t.repr && x != s)
    && (forall x | x in t.repr && x != s :: x in Held(ops) && x.key == Held(ops)[x])
    && multiset(keys) + Deleted(ops) == Inserted(ops)
  }

  function Added(keys: seq<nat>, k: nat, key: nat): seq<nat>
    requires k <= |keys|
  {
    keys[..k] + [key] + keys[k..]
  }

  function Dropped(keys: seq<nat>, k: nat): seq<nat>
    requires k < |keys|
  {
    keys[..k] + keys[k + 1..]
  }

  lemma {:induction false} AddedKeys(keys: seq<nat>, k: nat, key: nat)
    requires k <= |keys|
    ensures multiset(Added(keys, k, key)) == multiset(keys) + multiset{key}
  {
    assert keys == keys[..k] + keys[k..];
  }

  lemma {:induction false} DroppedKeys(keys: seq<nat>, k: nat)
    requires k < |keys|
    ensures multiset(Dropped(keys, k)) + multiset{keys[k]} == multiset(keys)
  {
    assert keys == keys[..k] + [keys[k]] + keys[k + 1..];
  }

  // The order of the tree and the keys grow and shrink alike.
  lemma {:induction false} InsertAt(order: seq<Node?>, k: nat, node: Node?, keys: seq<nat>, key: nat, i: nat)
    requires k <= |order| == |keys| && i <= |order|
    ensures var o, q := RbEdit.Insert(order, k, node), Added(keys, k, key);
            && |o| == |q| == |order| + 1
            && (if i < k then o[i] == order[i] && q[i] == keys[i]
                else if i == k then o[i] == node && q[i] == key
                else o[i] == order[i - 1] && q[i] == keys[i - 1])
  {
  }

  lemma {:induction false} RemovedLength(order: seq<Node?>, k: nat, keys: seq<nat>)
    requires k < |order| == |keys|
    ensures |RbEdit.Remove(order, k)| == |Dropped(keys, k)| == |order| - 1
  {
  }

  lemma {:induction false} RemoveAt(order: seq<Node?>, k: nat, keys: seq<nat>, i: nat)
    requires k < |order| == |keys| && i < |order| - 1
    ensures var o, q := RbEdit.Remove(order, k), Dropped(keys, k);
            && |o| == |q| == |order| - 1
            && (if i < k then o[i] == order[i] && q[i] == keys[i] else o[i] == order[i + 1] && q[i] == keys[i + 1])
  {
  }

  lemma {:induction false} OneMore(ops: seq<Op>, op: Op)
    ensures var h, more := Held(ops), ops + [op];
            && (op.Put? ==> Held(more) == h[op.node := op.key] && Inserted(more) == Inserted(ops) + multiset{op.key}
                            && Deleted(more) == Deleted(ops))
            && (op.Take? && op.node in h ==> Held(more) == h - {op.node} && Inserted(more) == Inserted(ops)
                                             && Deleted(more) == Deleted(ops) + multiset{h[op.node]})
  {
    assert (ops + [op])[..|ops|] == ops;
  }

  // The nodes of the order are nodes of the tree.
  lemma {:induction false} OrderInside(t: RbTree)
    requires t.Valid()
    ensures forall i | 0 <= i < |t.order| :: t.order[i] != null && t.order[i] in t.repr
  {
  }

  lemma {:induction false} NearAll(t: RbTree, s: Node, ops: seq<Op>, keys: seq<nat>, key: nat)
    requires After(t, s, ops, keys) && CloseToAll(Held(ops), key)
    ensures t.Near(key)
  {
    hide RedBlack, Sorted, Held, Inserted, Deleted, Shows;
    forall x | x in t.mem && x != s
      ensures Close(key, t.mem[x].key)
    {
      assert t.At(x);
    }
  }

  method PutStep(t: RbTree, s: Node, node: Node, key: nat, timer: bool, ghost ops: seq<Op>, ghost keys: seq<nat>)
    returns (ghost keys': seq<nat>)
    requires After(t, s, ops, keys) && node != s && node !in Held(ops) && (timer ==> CloseToAll(Held(ops), key))
    modifies t, t.repr, node
    ensures t.repr == old(t.repr) + {node} && After(t, s, ops + [Put(node, key)], keys')
  {
    hide RedBlack, Sorted, RbEdit.Insert, Added, Held, Inserted, Deleted, RbTree.Valid, Shows, CloseToAll;
    OneMore(ops, Put(node, key));
    if timer {
      NearAll(t, s, ops, keys, key);
    }
    node.key := key;
    keys' := ShowInsert(t, node, timer, keys);
  }

  method ShowInsert(t: RbTree, node: Node, timer: bool, ghost keys: seq<nat>) returns (ghost keys': seq<nat>)
    requires t.Valid() && Shows(t, keys) && node !in t.repr && (timer ==> t.Near(node.key))
    modifies t, t.repr, node
    ensures t.Valid() && t.repr == old(t.repr) + {node} && Shows(t, keys')
    ensures multiset(keys') == multiset(keys) + multiset{node.key}
    ensures node.key == old(node.key) && forall x | x in old(t.repr) :: x.key == old(x.key)
  {
    hide RedBlack, Sorted, RbEdit.Insert, Added, RbTree.Valid;
    ghost var k := t.Insert(node, timer);
    keys' := Added(keys, k, node.key);
    AddedKeys(keys, k, node.key);
    OrderInside(t);
    InsertAt(old(t.order), k, node, keys, node.key, 0);
    forall i | 0 <= i < |keys'|
      ensures t.order[i] != null && t.order[i].key == keys'[i]
    {
      InsertAt(old(t.order), k, node, keys, node.key, i);
    }
  }

  method TakeStep(t: RbTree, s: Node, node: Node, ghost ops: seq<Op>, ghost keys: seq<nat>)
    returns (ghost keys': seq<nat>)
    requires After(t, s, ops, keys) && node in Held(ops)
    modifies t, t.repr
    ensures t.repr == old(t.repr) - {node} && After(t, s, ops + [Take(node)], keys')
  {
    hide RedBlack, Sorted, RbEdit.Remove, Dropped, Held, Inserted, Deleted, RbTree.Valid, Shows;
    OneMore(ops, Take(node));
    keys' := ShowDelete(t, node, keys);
  }

  method ShowDelete(t: RbTree, node: Node, ghost keys: seq<nat>) returns (ghost keys': seq<nat>)
    requires t.Valid() && Shows(t, keys) && node in t.repr && node != t.sentinel
    modifies t, t.repr
    ensures t.Valid() && t.repr == old(t.repr) - {node} && Shows(t, keys')
    ensures multiset(keys') + multiset{old(node.key)} == multiset(keys)
    ensures forall x | x in t.repr :: x.key == old(x.key)
  {
    hide RedBlack, Sorted, RbEdit.Remove, Dropped, RbTree.Valid;
    ghost var k := t.Delete(node);
    keys' := Dropped(keys, k);
    DroppedKeys(keys, k);
    OrderInside(t);
    RemovedLength(old(t.order), k, keys);
    forall i | 0 <= i < |keys'|
      ensures t.order[i] != null && t.order[i].key == keys'[i]
    {
      RemoveAt(old(t.order), k, keys, i);
    }
  }

  lemma {:induction false} HeldNodes(ops: seq<Op>, i: nat, x: Node)
    requires i <= |ops|
    ensures x in Held(ops[..i]) ==> x in Nodes(ops)
    ensures i < |ops| ==> ops[i].node in Nodes(ops)
  {
    if i > 0 {
      HeldNodes(ops, i - 1, x);
      assert ops[..i][..i - 1] == ops[..i - 1] && ops[..i][i - 1] == ops[i - 1];
    }
  }

  lemma {:induction false} LegalStep(ops: seq<Op>, s: Node, timer: bool, i: nat)
    requires Legal(ops, s, timer) && i < |ops|
    ensures ops[i].node in Nodes(ops)
    ensures if ops[i].Put? then ops[i].node != s && ops[i].node !in Held(ops[..i]) else ops[i].node in Held(ops[..i])
    ensures ops[i].Put? && timer ==> CloseToAll(Held(ops[..i]), ops[i].key)
  {
    LegalPart(ops, s, timer, i + 1);
    assert ops[..i + 1][..i] == ops[..i] && ops[..i + 1][i] == ops[i];
  }

  lemma {:induction false} LegalPart(ops: seq<Op>, s: Node, timer: bool, i: nat)
    requires Legal(ops, s, timer) && i <= |ops|
    ensures Legal(ops[..i], s, timer)
    decreases |ops| - i
  {
    if i < |ops| {
      LegalPart(ops, s, timer, i + 1);
      assert ops[..i + 1][..i] == ops[..i];
    } else {
      assert ops[..i] == ops;
    }
  }

  // Valid trees show their keys in order, along the walk by the links.
  lemma {:induction false} InOrder(t: RbTree, keys: seq<nat>)
    requires t.Valid() && Shows(t, keys)
    ensures Increasing(keys) && Walk(t.T(), t.root, |t.order|) == t.order
  {
    WalkIsOrder(t.T(), t.sp, t.order);
    forall i, j | 0 <= i < j < |keys|
      ensures keys[i] <= keys[j]
    {
      assert t.At(t.order[i]) && t.At(t.order[j]);
    }
  }

  // Every history from the empty tree: the keys in the tree and the deleted ones are together
  // the inserted ones, the walk along the links meets them in order, and the tree is shallow.
  method Replay(s: Node, ops: seq<Op>, timer: bool) returns (t: RbTree, ghost keys: seq<nat>)
    requires Legal(ops, s, timer)
    modifies s, Nodes(ops)
    ensures After(t, s, ops, keys) && multiset(keys) + Deleted(ops) == Inserted(ops) && Increasing(keys)
    ensures Walk(t.T(), t.root, |keys|) == t.order && Shows(t, keys)
    ensures forall p, q | Path(t.T(), t.root, p) && Path(t.T(), t.root, q) ::
              |p| <= 2 * |q| && Pow2((|p| + 1) / 2) <= |keys| + 1
  {
    hide RedBlack, Sorted, Links, Held, Inserted, Deleted, Legal, Shows, RbTree.Valid, Walk, Path;
    t := Build(s, ops, timer);
    keys := KeysOf(t, s, ops);
    InOrder(t, keys);
    Length(t, keys);
    forall p, q | Path(t.T(), t.root, p) && Path(t.T(), t.root, q)
      ensures |p| <= 2 * |q| && Pow2((|p| + 1) / 2) <= |keys| + 1
    {
      Balance(t, p, q);
    }
  }

  ghost predicate Built(t: RbTree, s: Node, ops: seq<Op>)
    reads t, t.repr
  {
    exists keys :: After(t, s, ops, keys)
  }

  lemma {:induction false} KeysOf(t: RbTree, s: Node, ops: seq<Op>) returns (keys: seq<nat>)
    requires Built(t, s, ops)
    ensures After(t, s, ops, keys)
  {
    keys :| After(t, s, ops, keys);
  }

  lemma {:induction false} Length(t: RbTree, keys: seq<nat>)
    requires Shows(t, keys)
    ensures |keys| == |t.order|
  {
  }

  lemma {:induction false} Balance(t: RbTree, p: seq<Node?>, q: seq<Node?>)
    requires t.Valid() && Path(t.T(), t.root, p) && Path(t.T(), t.root, q)
    ensures |p| <= 2 * |q| && Pow2((|p| + 1) / 2) <= |t.order| + 1
  {
    PathsAreBalanced(t.T(), t.sp, t.order, t.bh, p, q);
  }

  // The operations one after the other, from the empty tree.
  method Build(s: Node, ops: seq<Op>, timer: bool) returns (t: RbTree)
    requires Legal(ops, s, timer)
    modifies s, Nodes(ops)
    ensures fresh(t) && Built(t, s, ops)
  {
    hide RbTree.Valid, Nodes, CloseToAll;
    t := new RbTree(s);
    ghost var keys := [];
    assert ops[..0] == [];
    assert After(t, s, ops[..0], keys);
    hide Held, Inserted, Deleted, Legal, Shows;
    for i := 0 to |ops|
      invariant fresh(t) && After(t, s, ops[..i], keys)
    {
      LegalStep(ops, s, timer, i);
      forall x | x in t.repr && x != s
        ensures x in Nodes(ops)
      {
        HeldNodes(ops, i, x);
      }
      assert ops[..i + 1] == ops[..i] + [ops[i]];
      match ops[i]
      case Put(node, key) => keys := PutStep(t, s, node, key, timer, ops[..i], keys);
      case Take(node) => keys := TakeStep(t, s, node, ops[..i], keys);
    }
    assert ops[..|ops|] == ops;
  }
}
