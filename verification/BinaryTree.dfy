// BinaryTree.c: the search tree behind the global symbol table. Nodes are linked on the heap and never rebalanced.
module BinaryTree {
  import opened Results
  import opened Words

  class Node<V> {
    const key: u64
    const value: V
    var left: Node?<V>
    var right: Node?<V>

    constructor (key: u64, value: V)
      ensures this.key == key && this.value == value && left == null && right == null
    {
      this.key := key;
      this.value := value;
      left := null;
      right := null;
    }
  }

  // The shape of the linked structure: a finite tree of nodes
  datatype Shape<V> = Leaf | Branch(left: Shape<V>, node: Node<V>, right: Shape<V>)

  function Nodes<V>(t: Shape<V>): set<Node<V>>
  {
    match t
    case Leaf => {}
    case Branch(l, x, r) => Nodes(l) + {x} + Nodes(r)
  }

  // The links on the heap form the shape t under n.
  ghost predicate Linked<V>(t: Shape<V>, n: Node?<V>)
    reads Nodes(t)
  {
    match t
    case Leaf => n == null
    case Branch(l, x, r) => n == x && Linked(l, x.left) && Linked(r, x.right)
  }

  function Contents<V>(t: Shape<V>): map<u64, V>
  {
    match t
    case Leaf => map[]
    case Branch(l, x, r) => Contents(l)[x.key := x.value] + Contents(r)
  }

  // Search order: smaller keys to the left, larger ones to the right
  ghost predicate Ordered<V>(t: Shape<V>)
  {
    match t
    case Leaf => true
    case Branch(l, x, r) =>
      && Ordered(l) && Ordered(r)
      && (forall y :: y in Nodes(l) ==> y.key < x.key)
      && (forall y :: y in Nodes(r) ==> x.key < y.key)
  }

  function InOrder<V>(t: Shape<V>): seq<Node<V>>
  {
    match t
    case Leaf => []
    case Branch(l, x, r) => InOrder(l) + [x] + InOrder(r)
  }

  // ---- insertion and search on shapes ----

  function Put<V>(t: Shape<V>, n: Node<V>): Shape<V>
  {
    match t
    case Leaf => Branch(Leaf, n, Leaf)
    case Branch(l, x, r) =>
      if n.key < x.key then Branch(Put(l, n), x, r)
      else if x.key < n.key then Branch(l, x, Put(r, n))
      else t
  }

  // The last node on the search path for the key
  function PathEnd<V>(t: Shape<V>, key: u64): Node<V>
    requires t.Branch?
  {
    if key < t.node.key && t.left.Branch? then PathEnd(t.left, key)
    else if t.node.key < key && t.right.Branch? then PathEnd(t.right, key)
    else t.node
  }

  lemma {:induction false} PathEndIsNode<V>(t: Shape<V>, key: u64)
    requires t.Branch?
    ensures PathEnd(t, key) in Nodes(t)
  {
    if key < t.node.key && t.left.Branch? {
      PathEndIsNode(t.left, key);
    } else if t.node.key < key && t.right.Branch? {
      PathEndIsNode(t.right, key);
    }
  }

  lemma {:induction false} ContentsKeys<V>(t: Shape<V>, key: u64)
    requires Ordered(t)
    ensures key in Contents(t) <==> exists x :: x in Nodes(t) && x.key == key
  {
    match t {
      case Leaf =>
      case Branch(l, x, r) =>
        ContentsKeys(l, key);
        ContentsKeys(r, key);
    }
  }

  // The map of an ordered tree, read along the search path
  lemma ContentsAt<V>(t: Shape<V>, key: u64)
    requires Ordered(t) && t.Branch?
    ensures key == t.node.key ==> key in Contents(t) && Contents(t)[key] == t.node.value
    ensures key < t.node.key ==> (key in Contents(t) <==> key in Contents(t.left))
    ensures key < t.node.key && key in Contents(t.left) ==>
      key in Contents(t) && Contents(t)[key] == Contents(t.left)[key]
    ensures t.node.key < key ==> (key in Contents(t) <==> key in Contents(t.right))
    ensures t.node.key < key && key in Contents(t.right) ==>
      key in Contents(t) && Contents(t)[key] == Contents(t.right)[key]
  {
    ContentsKeys(t.left, key);
    ContentsKeys(t.right, key);
  }

  lemma {:induction false} PutOrdered<V>(t: Shape<V>, n: Node<V>)
    requires Ordered(t) && n.key !in Contents(t)
    ensures Ordered(Put(t, n)) && Nodes(Put(t, n)) == Nodes(t) + {n}
  {
    if t.Branch? {
      ContentsAt(t, n.key);
      if n.key < t.node.key {
        PutOrdered(t.left, n);
      } else {
        PutOrdered(t.right, n);
      }
    }
  }

  lemma UnionUpdate<V>(a: map<u64, V>, b: map<u64, V>, k: u64, v: V)
    ensures a + b[k := v] == (a + b)[k := v]
    ensures k !in b ==> a[k := v] + b == (a + b)[k := v]
  {
  }

  lemma UpdatesCommute<V>(a: map<u64, V>, k: u64, v: V, l: u64, w: V)
    requires k != l
    ensures a[k := v][l := w] == a[l := w][k := v]
  {
  }

  // Inserting a fresh key adds exactly its pair to the map.
  lemma {:induction false} PutRefines<V>(t: Shape<V>, n: Node<V>)
    requires Ordered(t) && n.key !in Contents(t)
    ensures Contents(Put(t, n)) == Contents(t)[n.key := n.value]
  {
    match t {
      case Leaf =>
      case Branch(l, x, r) =>
        ContentsAt(t, n.key);
        if n.key < x.key {
          PutRefines(l, n);
          ContentsKeys(r, n.key);
          UpdatesCommute(Contents(l), n.key, n.value, x.key, x.value);
          UnionUpdate(Contents(l)[x.key := x.value], Contents(r), n.key, n.value);
        } else {
          PutRefines(r, n);
          UnionUpdate(Contents(l)[x.key := x.value], Contents(r), n.key, n.value);
        }
    }
  }

  lemma {:induction false} InOrderNodes<V>(t: Shape<V>)
    ensures (set x | x in InOrder(t)) == Nodes(t)
  {
    if t.Branch? {
      InOrderNodes(t.left);
      InOrderNodes(t.right);
    }
  }

  // Listing an ordered tree in order visits its nodes in strictly ascending order of keys.
  lemma {:induction false} InOrderAscends<V>(t: Shape<V>)
    requires Ordered(t)
    ensures forall i, j :: 0 <= i < j < |InOrder(t)| ==> InOrder(t)[i].key < InOrder(t)[j].key
  {
    if t.Branch? {
      var l, x, r := t.left, t.node, t.right;
      InOrderAscends(l);
      InOrderAscends(r);
      forall y | y in InOrder(l) ensures y.key < x.key {
        InOrderNodes(l);
        assert y in (set z | z in InOrder(l));
      }
      forall y | y in InOrder(r) ensures x.key < y.key {
        InOrderNodes(r);
        assert y in (set z | z in InOrder(r));
      }
      Join(InOrder(l), x, InOrder(r));
    }
  }

  lemma Join<V>(a: seq<Node<V>>, x: Node<V>, b: seq<Node<V>>)
    requires forall i, j :: 0 <= i < j < |a| ==> a[i].key < a[j].key
    requires forall i, j :: 0 <= i < j < |b| ==> b[i].key < b[j].key
    requires (forall y :: y in a ==> y.key < x.key) && (forall y :: y in b ==> x.key < y.key)
    ensures var c := a + [x] + b; forall i, j :: 0 <= i < j < |c| ==> c[i].key < c[j].key
  {
    var c := a + [x] + b;
    forall i, j | 0 <= i < j < |c| ensures c[i].key < c[j].key {
      assert i < |a| ==> c[i] == a[i] && a[i] in a;
      assert j < |a| ==> c[j] == a[j];
      assert i > |a| ==> c[i] == b[i - |a| - 1];
      assert j > |a| ==> c[j] == b[j - |a| - 1] && b[j - |a| - 1] in b;
    }
  }

  // ---- insertion on the heap ----

  // The links as they were at some moment
  ghost predicate LinkedBy<V>(t: Shape<V>, n: Node?<V>, left: map<Node<V>, Node?<V>>, right: map<Node<V>, Node?<V>>)
    requires Nodes(t) <= left.Keys && Nodes(t) <= right.Keys
  {
    match t
    case Leaf => n == null
    case Branch(l, x, r) => n == x && LinkedBy(l, left[x], left, right) && LinkedBy(r, right[x], left, right)
  }

  ghost predicate Snapshot<V>(t: Shape<V>, left: map<Node<V>, Node?<V>>, right: map<Node<V>, Node?<V>>)
    reads Nodes(t)
  {
    forall x :: x in Nodes(t) ==> x in left && x in right && left[x] == x.left && right[x] == x.right
  }

  lemma {:induction false} LinksAre<V>(t: Shape<V>, n: Node?<V>, left: map<Node<V>, Node?<V>>,
                                       right: map<Node<V>, Node?<V>>)
    requires Snapshot(t, left, right)
    ensures Nodes(t) <= left.Keys && Nodes(t) <= right.Keys
    ensures Linked(t, n) <==> LinkedBy(t, n, left, right)
  {
    if t.Branch? {
      LinksAre(t.left, left[t.node], left, right);
      LinksAre(t.right, right[t.node], left, right);
    }
  }

  lemma {:induction false} LinksElsewhere<V>(t: Shape<V>, n: Node?<V>, left: map<Node<V>, Node?<V>>,
                                             right: map<Node<V>, Node?<V>>,
                                             left': map<Node<V>, Node?<V>>, right': map<Node<V>, Node?<V>>)
    requires Nodes(t) <= left.Keys && Nodes(t) <= right.Keys && Nodes(t) <= left'.Keys && Nodes(t) <= right'.Keys
    requires forall x :: x in Nodes(t) ==> left'[x] == left[x] && right'[x] == right[x]
    ensures LinkedBy(t, n, left', right') == LinkedBy(t, n, left, right)
  {
    if t.Branch? {
      LinksElsewhere(t.left, left[t.node], left, right, left', right');
      LinksElsewhere(t.right, right[t.node], left, right, left', right');
    }
  }

  // Hanging n under the last node x of its search path turns the shape t into Put(t, n).
  lemma {:induction false} Hang<V>(t: Shape<V>, n: Node<V>, x: Node<V>, left: map<Node<V>, Node?<V>>,
                                   right: map<Node<V>, Node?<V>>,
                                   left': map<Node<V>, Node?<V>>, right': map<Node<V>, Node?<V>>)
    requires Ordered(t) && t.Branch? && n.key !in Contents(t) && x == PathEnd(t, n.key)
    requires Nodes(t) <= left.Keys && Nodes(t) <= right.Keys && LinkedBy(t, t.node, left, right)
    requires left' == (if n.key < x.key then left[x := n] else left)[n := null]
    requires right' == (if n.key < x.key then right else right[x := n])[n := null]
    requires n !in Nodes(t)
    ensures Nodes(Put(t, n)) <= left'.Keys && Nodes(Put(t, n)) <= right'.Keys
    ensures LinkedBy(Put(t, n), t.node, left', right')
    decreases t
  {
    PutOrdered(t, n);
    ContentsAt(t, n.key);
    if n.key < t.node.key {
      if t.left.Branch? {
        PathEndIsNode(t.left, n.key);
        Hang(t.left, n, x, left, right, left', right');
      }
      LinksElsewhere(t.right, right[t.node], left, right, left', right');
    } else {
      if t.right.Branch? {
        PathEndIsNode(t.right, n.key);
        Hang(t.right, n, x, left, right, left', right');
      }
      LinksElsewhere(t.left, left[t.node], left, right, left', right');
    }
  }

  // Maps of links agree with the nodes after n was hung under x.
  lemma Rewired<V>(t: Shape<V>, n: Node<V>, x: Node<V>, left: map<Node<V>, Node?<V>>, right: map<Node<V>, Node?<V>>)
    requires Nodes(t) <= left.Keys && Nodes(t) <= right.Keys && n !in Nodes(t) && x in Nodes(t)
    requires forall y :: y in Nodes(t) && y != x ==> y.left == left[y] && y.right == right[y]
    requires n.left == null && n.right == null
    requires x.left == if n.key < x.key then n else left[x]
    requires x.right == if n.key < x.key then right[x] else n
    ensures var left' := (if n.key < x.key then left[x := n] else left)[n := null];
      forall y :: y in Nodes(t) + {n} ==> y in left' && left'[y] == y.left
    ensures var right' := (if n.key < x.key then right else right[x := n])[n := null];
      forall y :: y in Nodes(t) + {n} ==> y in right' && right'[y] == y.right
  {
    hide Nodes;
  }

  // The links after n is hung under x, and the shape, order and map they stand for
  lemma Rewire<V>(t: Shape<V>, root: Node?<V>, n: Node<V>, x: Node<V>, left: map<Node<V>, Node?<V>>,
                  right: map<Node<V>, Node?<V>>)
    returns (left': map<Node<V>, Node?<V>>, right': map<Node<V>, Node?<V>>)
    requires Snapshot(t, left, right) && Linked(t, root)
    requires Ordered(t) && t.Branch? && n.key !in Contents(t) && x == PathEnd(t, n.key) && n !in Nodes(t)
    ensures left' == (if n.key < x.key then left[x := n] else left)[n := null]
    ensures right' == (if n.key < x.key then right else right[x := n])[n := null]
    ensures Ordered(Put(t, n)) && Nodes(Put(t, n)) == Nodes(t) + {n}
    ensures Contents(Put(t, n)) == Contents(t)[n.key := n.value]
    ensures Nodes(Put(t, n)) <= left'.Keys && Nodes(Put(t, n)) <= right'.Keys
    ensures LinkedBy(Put(t, n), root, left', right')
  {
    left' := (if n.key < x.key then left[x := n] else left)[n := null];
    right' := (if n.key < x.key then right else right[x := n])[n := null];
    LinksAre(t, root, left, right);
    PutOrdered(t, n);
    PutRefines(t, n);
    Hang(t, n, x, left, right, left', right');
  }

  class Tree<V> {
    var root: Node?<V>
    ghost var shape: Shape<V>
    ghost var repr: set<Node<V>>

    ghost predicate Valid()
      reads this, repr
    {
      Nodes(shape) == repr && Linked(shape, root) && Ordered(shape)
    }

    ghost function Map(): map<u64, V>
      reads this
    {
      Contents(shape)
    }

    constructor ()
      ensures Valid() && Map() == map[] && repr == {}
    {
      root := null;
      shape := Leaf;
      repr := {};
    }

    // binary_tree_insert; a second insertion of a key aborts.
    method Insert(key: u64, value: V) returns (ok: bool)
      requires Valid()
      modifies this, repr
      ensures Valid() && (ok <==> key !in old(Map()))
      ensures Map() == if ok then old(Map())[key := value] else old(Map())
      ensures fresh(repr - old(repr)) && old(repr) <= repr
    {
      var node := new Node(key, value);
      if root == null {
        root := node;
        shape, repr := Branch(Leaf, node, Leaf), {node};
        return true;
      }
      var leaf := root;
      ghost var sub := shape;
      while true
        invariant shape == old(shape) && repr == old(repr) && root == old(root) && Valid()
        invariant node.left == null && node.right == null && node !in repr
        invariant sub.Branch? && Linked(sub, leaf) && Ordered(sub) && Nodes(sub) <= repr
        invariant PathEnd(sub, key) == PathEnd(shape, key)
        invariant key in Contents(shape) <==> key in Contents(sub)
        decreases sub
      {
        ContentsAt(sub, key);
        if leaf.key > key {
          if leaf.left == null {
            assert sub.left == Leaf && PathEnd(sub, key) == leaf;
            Attach(node, leaf, true);
            return true;
          }
          leaf, sub := leaf.left, sub.left;
        } else if leaf.key < key {
          if leaf.right == null {
            assert sub.right == Leaf && PathEnd(sub, key) == leaf;
            Attach(node, leaf, false);
            return true;
          }
          leaf, sub := leaf.right, sub.right;
        } else {
          return false;
        }
      }
    }

    // The store of the new link at the end of the search path
    method Attach(node: Node<V>, leaf: Node<V>, toLeft: bool)
      requires Valid() && shape.Branch? && node.key !in Contents(shape) && node !in Nodes(shape)
      requires node.left == null && node.right == null
      requires leaf == PathEnd(shape, node.key) && leaf in repr
      requires if toLeft then node.key < leaf.key else leaf.key < node.key
      modifies this`shape, this`repr, leaf
      ensures Valid() && Map() == old(Map())[node.key := node.value] && repr == old(repr) + {node}
    {
      hide Linked, LinkedBy, Ordered, Contents, PathEnd, Put, Nodes;
      ghost var t := shape;
      ghost var left: map<Node<V>, Node?<V>> := map x | x in Nodes(t) :: x.left;
      ghost var right: map<Node<V>, Node?<V>> := map x | x in Nodes(t) :: x.right;
      ghost var left', right' := Rewire(t, root, node, leaf, left, right);
      if toLeft {
        leaf.left := node;
      } else {
        leaf.right := node;
      }
      shape, repr := Put(t, node), repr + {node};
      Rewired(t, node, leaf, left, right);
      LinksAre(shape, root, left', right');
    }

    // binary_tree_lookup
    method Lookup(key: u64) returns (value: Option<V>)
      requires Valid()
      ensures value == if key in Map() then Some(Map()[key]) else None
    {
      var leaf := root;
      ghost var sub := shape;
      while leaf != null
        invariant Linked(sub, leaf) && Ordered(sub)
        invariant key in Contents(shape) <==> key in Contents(sub)
        invariant key in Contents(sub) ==> Contents(shape)[key] == Contents(sub)[key]
        decreases sub
      {
        ContentsAt(sub, key);
        if leaf.key == key {
          return Some(leaf.value);
        } else if leaf.key > key {
          leaf, sub := leaf.left, sub.left;
        } else {
          leaf, sub := leaf.right, sub.right;
        }
      }
      return None;
    }
  }

  // walk: left subtree, node, right subtree
  method Walk<V>(n: Node<V>, ghost t: Shape<V>, ghost repr: set<Node<V>>) returns (visited: seq<Node<V>>)
    requires Linked(t, n) && Nodes(t) <= repr
    ensures visited == InOrder(t)
    decreases t
  {
    visited := [];
    if n.left != null {
      visited := Walk(n.left, t.left, repr);
    }
    visited := visited + [n];
    if n.right != null {
      var rest := Walk(n.right, t.right, repr);
      visited := visited + rest;
    }
  }
}
