/** The interleaved tree is node for node the tree that sequential insertion would have built. */
module SharedTreeShape {
  import opened TreeModel
  import opened SharedTree

  // The tree hanging from `r`; a node's index is its insertion number.
  function TreeOf(heap: seq<NodeRec>, r: Ref): Tree
    decreases if r.At? && r.i < |heap| then |heap| - r.i else 0
  {
    if r.Null? || r.i >= |heap| then Leaf
    else
      var n := heap[r.i];
      Branch(if n.left.At? && n.left.i <= r.i then Leaf else TreeOf(heap, n.left),
             Item(n.key, r.i),
             if n.right.At? && n.right.i <= r.i then Leaf else TreeOf(heap, n.right))
  }

  function KeysOf(log: seq<Event>): seq<int>
  {
    if log == [] then []
    else
      var last := log[|log| - 1];
      KeysOf(log[..|log| - 1]) + if last.op.Insert? then [last.op.key] else []
  }

  lemma {:induction false} NodesBelow(heap: seq<NodeRec>, r: Ref)
    requires HeapOk(heap, At(0))
    ensures forall x :: x in InOrder(TreeOf(heap, r)) ==>
              r.At? && r.i <= x.stamp < |heap| && x == Item(heap[x.stamp].key, x.stamp)
    decreases if r.At? && r.i < |heap| then |heap| - r.i else 0
  {
    if r.At? && r.i < |heap| {
      var n := heap[r.i];
      NodesBelow(heap, n.left);
      NodesBelow(heap, n.right);
    }
  }

  lemma {:induction false} PassesNode(heap: seq<NodeRec>, w: nat, v: nat, key: int)
    requires HeapOk(heap, At(0)) && Passes(heap, w, v, key) && v < |heap|
    ensures Item(heap[v].key, v) in InOrder(TreeOf(heap, At(w)))
    decreases |heap| - w
  {
    if w != v {
      PassesNode(heap, InsertChild(heap[w], key).i, v, key);
    }
  }

  lemma {:induction false} AttachElsewhere(heap: seq<NodeRec>, v: nat, key: int, r: Ref)
    requires HeapOk(heap, At(0)) && v < |heap| && (r.At? ==> r.i < |heap|)
    requires Item(heap[v].key, v) !in InOrder(TreeOf(heap, r))
    ensures TreeOf(Attach(heap, v, key), r) == TreeOf(heap, r)
    decreases if r.At? then |heap| - r.i else 0
  {
    if r.At? {
      var n := heap[r.i];
      assert r.i != v;
      AttachElsewhere(heap, v, key, n.left);
      AttachElsewhere(heap, v, key, n.right);
    }
  }

  // Linking a node at the end of its walk is inserting its item into the tree.
  lemma {:induction false} AttachInserts(heap: seq<NodeRec>, v: nat, key: int, w: nat)
    requires HeapOk(heap, At(0)) && v < |heap| && InsertChild(heap[v], key).Null? && Passes(heap, w, v, key)
    requires StablySorted(InOrder(TreeOf(heap, At(w))))
    ensures TreeOf(Attach(heap, v, key), At(w)) == InsertInto(TreeOf(heap, At(w)), Item(key, |heap|))
    decreases |heap| - w
  {
    var n, heap' := heap[w], Attach(heap, v, key);
    var l, r := TreeOf(heap, n.left), TreeOf(heap, n.right);
    SortedAround(InOrder(l), Item(n.key, w), InOrder(r));
    NodesBelow(heap, n.left);
    NodesBelow(heap, n.right);
    var child, other := InsertChild(n, key), if key < n.key then n.right else n.left;
    if w == v {
      assert heap'[|heap|] == NodeRec(key, Null, Null);
      assert TreeOf(heap', At(|heap|)) == Branch(Leaf, Item(key, |heap|), Leaf);
      AttachElsewhere(heap, v, key, other);
    } else {
      PassesNode(heap, child.i, v, key);
      assert Item(heap[v].key, v) !in InOrder(TreeOf(heap, other));
      AttachElsewhere(heap, v, key, other);
      AttachInserts(heap, v, key, child.i);
    }
  }

  ghost predicate ShapeOk(s: State)
  {
    |s.heap| == |KeysOf(s.log)| && TreeOf(s.heap, s.root) == Build(KeysOf(s.log))
  }

  lemma ShapeStep(s: State, t: nat)
    requires Inv(s) && Enabled(s, t) && ShapeOk(s)
    ensures ShapeOk(Step(s, t))
  {
    var s' := Step(s, t);
    assert WalkOk(s, s.threads[t]);
    if s'.log != s.log {
      assert s'.log[..|s.log|] == s.log;
    }
    if s'.heap != s.heap {
      var keys, key := KeysOf(s.log), s.threads[t].todo[0].key;
      assert KeysOf(s'.log) == keys + [key];
      BuildMore(keys, key);
      if s.threads[t].pc.InsertWalk? {
        BuildSorts(keys);
        AttachInserts(s.heap, s.threads[t].pc.at, key, 0);
      } else {
        FirstNode(key);
        assert s'.heap == [NodeRec(key, Null, Null)];
      }
    } else {
      assert KeysOf(s'.log) == KeysOf(s.log);
    }
  }

  lemma BuildMore(keys: seq<int>, key: int)
    ensures Build(keys + [key]) == InsertInto(Build(keys), Item(key, |keys|))
  {
    assert (keys + [key])[..|keys|] == keys;
  }

  lemma FirstNode(key: int)
    ensures TreeOf([NodeRec(key, Null, Null)], At(0)) == InsertInto(Leaf, Item(key, 0))
  {
  }

  // In every interleaving the heap holds the tree built by inserting the keys one after the other
  // in the order their inserts took effect; so it is searchable and its in-order walk is the
  // stable sort of those keys.
  lemma {:induction false} RefinesSequential(scripts: seq<seq<Op>>, schedule: seq<nat>)
    requires Run(scripts, schedule).Reached?
    ensures var s := Run(scripts, schedule).s;
            && TreeOf(s.heap, s.root) == Build(KeysOf(s.log)) && |s.heap| == |KeysOf(s.log)|
            && Searchable(TreeOf(s.heap, s.root))
            && StablySorted(InOrder(TreeOf(s.heap, s.root)))
            && multiset(InOrder(TreeOf(s.heap, s.root))) == multiset(Numbered(KeysOf(s.log)))
  {
    if schedule != [] {
      var before := schedule[..|schedule| - 1];
      RefinesSequential(scripts, before);
      Linearizable(scripts, before);
      ShapeStep(Run(scripts, before).s, schedule[|schedule| - 1]);
    }
    BuildSorts(KeysOf(Run(scripts, schedule).s.log));
  }
}
