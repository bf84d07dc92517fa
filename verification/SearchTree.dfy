/** The search tree on the heap: nodes, insertion in place, search, destruction. */
module SearchTree {
  import opened TreeModel

  class Node {
    var key: int
    var left: Node?
    var right: Node?
    ghost var stamp: nat
    ghost var repr: set<Node>
    ghost var tree: Tree

    // `repr` are the nodes below and including this one; no node is reached in two ways.
    ghost predicate Valid()
      reads this, repr
      decreases repr
    {
      && this in repr
      && (left != null ==> left in repr && left.repr <= repr && this !in left.repr && left.Valid())
      && (right != null ==> right in repr && right.repr <= repr && this !in right.repr && right.Valid())
      && (left != null && right != null ==> left.repr !! right.repr)
      && repr == {this} + (if left == null then {} else left.repr) + (if right == null then {} else right.repr)
      && tree == Branch(if left == null then Leaf else left.tree, Item(key, stamp),
                        if right == null then Leaf else right.tree)
    }

    constructor (key: int, ghost stamp: nat)
      ensures Valid() && fresh(this) && repr == {this} && tree == Branch(Leaf, Item(key, stamp), Leaf)
    {
      this.key, left, right := key, null, null;
      this.stamp, repr := stamp, {this};
      tree := Branch(Leaf, Item(key, stamp), Leaf);
    }

    // What Valid says of the children alone.
    ghost predicate Linked()
      reads this, left, right, if left == null then {} else left.repr, if right == null then {} else right.repr
    {
      && (left != null ==> this !in left.repr && left.Valid())
      && (right != null ==> this !in right.repr && right.Valid())
      && (left != null && right != null ==> left.repr !! right.repr)
    }

    // Brings `repr` and `tree` up to date after a change below.
    ghost method Refresh()
      requires Linked()
      modifies this`repr, this`tree
      ensures Valid() && Linked()
      ensures repr == {this} + (if left == null then {} else left.repr) + (if right == null then {} else right.repr)
      ensures tree == Branch(if left == null then Leaf else left.tree, Item(key, stamp),
                             if right == null then Leaf else right.tree)
    {
      repr := {this} + (if left == null then {} else left.repr) + (if right == null then {} else right.repr);
      tree := Branch(if left == null then Leaf else left.tree, Item(key, stamp),
                     if right == null then Leaf else right.tree);
    }
  }

  // What the nodes hold.
  ghost function ItemsOf(order: seq<Node>): (s: seq<Item>)
    reads order
    ensures |s| == |order|
  {
    seq(|order|, (i: nat) requires i < |order| reads order => Item(order[i].key, order[i].stamp))
  }

  // No node occurs twice, and every node comes after its children.
  ghost predicate ChildrenFirst(order: seq<Node>)
    reads order
  {
    forall i :: 0 <= i < |order| ==>
      && order[i] !in order[..i]
      && (order[i].left != null ==> order[i].left in order[..i])
      && (order[i].right != null ==> order[i].right in order[..i])
  }

  class BTree {
    var root: Node?
    ghost var keys: seq<int>   // every key inserted so far, in order

    ghost predicate Valid()
      reads this, root, Nodes()
    {
      && (root != null ==> root.Valid())
      && TreeView() == Build(keys)
    }

    ghost function Nodes(): set<Node>
      reads this, root
    {
      if root == null then {} else root.repr
    }

    ghost function TreeView(): Tree
      reads this, root
    {
      if root == null then Leaf else root.tree
    }

    constructor ()
      ensures Valid() && keys == [] && Nodes() == {}
    {
      root, keys := null, [];
    }

    method Insert(key: int)
      requires Valid()
      modifies this, Nodes()
      ensures Valid() && keys == old(keys) + [key]
      ensures old(Nodes()) < Nodes() && fresh(Nodes() - old(Nodes()))
    {
      assert (keys + [key])[..|keys|] == keys;
      if root != null {
        ghost var added := InsertAt(key, |keys|, root);
      } else {
        root := new Node(key, |keys|);
      }
      keys := keys + [key];
    }

    // The recursive descent; exactly one node is allocated, as a leaf below `leaf`.
    method InsertAt(key: int, ghost stamp: nat, leaf: Node) returns (ghost added: Node)
      requires leaf.Valid()
      modifies leaf.repr
      ensures leaf.Valid() && leaf.tree == InsertInto(old(leaf.tree), Item(key, stamp))
      ensures leaf.repr == old(leaf.repr) + {added} && fresh(added)
      decreases leaf.repr, 1
    {
      if key < leaf.key {
        added := InsertLeft(key, stamp, leaf);
      } else {
        added := InsertRight(key, stamp, leaf);
      }
    }

    // The two branches of the descent.
    method InsertLeft(key: int, ghost stamp: nat, leaf: Node) returns (ghost added: Node)
      requires leaf.Valid() && key < leaf.key
      modifies leaf.repr
      ensures leaf.Valid() && leaf.tree == InsertInto(old(leaf.tree), Item(key, stamp))
      ensures leaf.repr == old(leaf.repr) + {added} && fresh(added)
      decreases leaf.repr, 0
    {
      if leaf.left != null {
        added := InsertAt(key, stamp, leaf.left);
      } else {
        leaf.left := new Node(key, stamp);
        added := leaf.left;
      }
      leaf.Refresh();
    }

    method InsertRight(key: int, ghost stamp: nat, leaf: Node) returns (ghost added: Node)
      requires leaf.Valid() && key >= leaf.key
      modifies leaf.repr
      ensures leaf.Valid() && leaf.tree == InsertInto(old(leaf.tree), Item(key, stamp))
      ensures leaf.repr == old(leaf.repr) + {added} && fresh(added)
      decreases leaf.repr, 0
    {
      if leaf.right != null {
        added := InsertAt(key, stamp, leaf.right);
      } else {
        leaf.right := new Node(key, stamp);
        added := leaf.right;
      }
      leaf.Refresh();
    }

    // True exactly for the keys inserted so far.
    method Search(key: int) returns (found: bool)
      requires Valid()
      ensures found <==> key in keys
    {
      var result := SearchAt(key, root);
      found := result != null;
      SearchAfter(keys, key);
    }

    method SearchAt(key: int, leaf: Node?) returns (r: Node?)
      requires leaf != null ==> leaf.Valid()
      ensures r != null <==> leaf != null && SearchIn(leaf.tree, key)
      ensures r != null ==> r in leaf.repr && r.key == key
      decreases if leaf == null then {} else leaf.repr
    {
      if leaf == null {
        return null;
      }
      if key == leaf.key {
        return leaf;
      }
      if key < leaf.key {
        r := SearchAt(key, leaf.left);
      } else {
        r := SearchAt(key, leaf.right);
      }
    }

    // The destructor: the order in which the nodes are deleted. Every allocated node is deleted,
    // none twice, and none while it is still needed to reach another.
    method Destroy() returns (deleted: seq<Node>)
      requires Valid()
      ensures forall n :: n in deleted <==> n in Nodes()
      ensures ChildrenFirst(deleted) && ItemsOf(deleted) == PostOrder(Build(keys))
    {
      deleted := DestroyAt(root);
    }

    method DestroyAt(leaf: Node?) returns (deleted: seq<Node>)
      requires leaf != null ==> leaf.Valid()
      ensures forall n :: n in deleted <==> leaf != null && n in leaf.repr
      ensures ChildrenFirst(deleted)
      ensures ItemsOf(deleted) == if leaf == null then [] else PostOrder(leaf.tree)
      decreases if leaf == null then {} else leaf.repr
    {
      if leaf == null {
        return [];
      }
      var first := DestroyAt(leaf.left);
      var second := DestroyAt(leaf.right);
      deleted := first + second + [leaf];
      ChildrenFirstJoin(first, second);
      ChildrenFirstNode(first + second, leaf);
      ItemsJoin(first, second, leaf);
    }
  }

  lemma ChildrenFirstNode(order: seq<Node>, n: Node)
    requires ChildrenFirst(order) && n !in order
    requires (n.left != null ==> n.left in order) && (n.right != null ==> n.right in order)
    ensures ChildrenFirst(order + [n])
  {
    assert (order + [n])[..|order|] == order;
    forall i | 0 <= i < |order| ensures (order + [n])[i] == order[i] && (order + [n])[..i] == order[..i] {
    }
  }

  lemma ItemsJoin(a: seq<Node>, b: seq<Node>, n: Node)
    ensures ItemsOf(a + b + [n]) == ItemsOf(a) + ItemsOf(b) + [Item(n.key, n.stamp)]
  {
  }

  lemma ChildrenFirstJoin(a: seq<Node>, b: seq<Node>)
    requires ChildrenFirst(a) && ChildrenFirst(b) && forall n :: n in b ==> n !in a
    ensures ChildrenFirst(a + b)
  {
    forall i | 0 <= i < |a + b|
      ensures (a + b)[..i] == if i < |a| then a[..i] else a + b[..i - |a|]
    {
    }
  }
}
