/** The search tree as a value: insertion is a stable sort, search is membership. */
module TreeModel {

  // A key and the number of insertions before its own.
  datatype Item = Item(key: int, stamp: nat)

  datatype Tree = Leaf | Branch(left: Tree, item: Item, right: Tree)

  function InOrder(t: Tree): seq<Item>
  {
    match t
    case Leaf => []
    case Branch(l, x, r) => InOrder(l) + [x] + InOrder(r)
  }

  // Left subtree, right subtree, node.
  function PostOrder(t: Tree): seq<Item>
  {
    match t
    case Leaf => []
    case Branch(l, x, r) => PostOrder(l) + PostOrder(r) + [x]
  }

  // Smaller keys to the left, all others to the right, equal ones included.
  function InsertInto(t: Tree, x: Item): Tree
  {
    match t
    case Leaf => Branch(Leaf, x, Leaf)
    case Branch(l, y, r) =>
      if x.key < y.key then Branch(InsertInto(l, x), y, r) else Branch(l, y, InsertInto(r, x))
  }

  function SearchIn(t: Tree, key: int): bool
  {
    match t
    case Leaf => false
    case Branch(l, y, r) =>
      key == y.key || if key < y.key then SearchIn(l, key) else SearchIn(r, key)
  }

  // The tree after inserting `keys` one after the other.
  function Build(keys: seq<int>): Tree
  {
    if keys == [] then Leaf
    else InsertInto(Build(keys[..|keys| - 1]), Item(keys[|keys| - 1], |keys| - 1))
  }

  // ----- order

  ghost predicate Searchable(t: Tree)
  {
    match t
    case Leaf => true
    case Branch(l, y, r) =>
      && Searchable(l) && Searchable(r)
      && (forall x :: x in InOrder(l) ==> x.key < y.key)
      && (forall x :: x in InOrder(r) ==> x.key >= y.key)
  }

  predicate Before(a: Item, b: Item)
  {
    a.key < b.key || (a.key == b.key && a.stamp < b.stamp)
  }

  // By key, and equal keys in the order they were inserted.
  ghost predicate StablySorted(s: seq<Item>)
  {
    forall i, j :: 0 <= i < j < |s| ==> Before(s[i], s[j])
  }

  lemma MultisetAround(a: seq<Item>, y: Item, b: seq<Item>)
    ensures multiset(a + [y] + b) == multiset(a) + multiset(b) + multiset{y}
  {
  }

  lemma {:induction false} InsertMultiset(t: Tree, x: Item)
    ensures multiset(InOrder(InsertInto(t, x))) == multiset(InOrder(t)) + multiset{x}
  {
    match t
    case Leaf =>
    case Branch(l, y, r) =>
      if x.key < y.key {
        InsertMultiset(l, x);
        GrowAround(InOrder(l), InOrder(InsertInto(l, x)), y, InOrder(r), x);
      } else {
        InsertMultiset(r, x);
        GrowAround(InOrder(r), InOrder(InsertInto(r, x)), y, InOrder(l), x);
        MultisetAround(InOrder(l), y, InOrder(r));
        MultisetAround(InOrder(l), y, InOrder(InsertInto(r, x)));
        MultisetAround(InOrder(r), y, InOrder(l));
        MultisetAround(InOrder(InsertInto(r, x)), y, InOrder(l));
      }
  }

  lemma GrowAround(a: seq<Item>, a': seq<Item>, y: Item, b: seq<Item>, x: Item)
    requires multiset(a') == multiset(a) + multiset{x}
    ensures multiset(a' + [y] + b) == multiset(a + [y] + b) + multiset{x}
  {
    MultisetAround(a, y, b);
    MultisetAround(a', y, b);
  }

  lemma InsertContents(t: Tree, x: Item)
    ensures forall y :: y in InOrder(InsertInto(t, x)) <==> y == x || y in InOrder(t)
  {
    InsertMultiset(t, x);
    var now := InOrder(InsertInto(t, x));
    forall y ensures y in now <==> y == x || y in InOrder(t) {
      assert y in multiset(now) <==> y in multiset(InOrder(t)) + multiset{x};
    }
  }

  lemma {:induction false} InsertSearchable(t: Tree, x: Item)
    requires Searchable(t)
    ensures Searchable(InsertInto(t, x))
  {
    if t.Branch? {
      if x.key < t.item.key {
        InsertContents(t.left, x);
        InsertSearchable(t.left, x);
      } else {
        InsertContents(t.right, x);
        InsertSearchable(t.right, x);
      }
    }
  }

  // Sortedness of a concatenation around a middle item.
  lemma SortedAround(a: seq<Item>, y: Item, b: seq<Item>)
    ensures StablySorted(a + [y] + b) <==>
            && StablySorted(a) && StablySorted(b)
            && (forall x :: x in a ==> Before(x, y)) && (forall x :: x in b ==> Before(y, x))
  {
    var s := a + [y] + b;
    if StablySorted(s) {
      forall i, j | 0 <= i < j < |a| ensures Before(a[i], a[j]) {
        assert s[i] == a[i] && s[j] == a[j];
      }
      forall i, j | 0 <= i < j < |b| ensures Before(b[i], b[j]) {
        assert s[|a| + 1 + i] == b[i] && s[|a| + 1 + j] == b[j];
      }
      forall x | x in a ensures Before(x, y) {
        var i :| 0 <= i < |a| && a[i] == x;
        assert s[i] == x && s[|a|] == y;
      }
      forall x | x in b ensures Before(y, x) {
        var i :| 0 <= i < |b| && b[i] == x;
        assert s[|a| + 1 + i] == x && s[|a|] == y;
      }
    }
    if StablySorted(a) && StablySorted(b) && (forall x :: x in a ==> Before(x, y)) &&
       (forall x :: x in b ==> Before(y, x))
    {
      forall i, j | 0 <= i < j < |s| ensures Before(s[i], s[j]) {
        assert i < |a| ==> s[i] in a;
        assert j > |a| ==> s[j] == b[j - |a| - 1] && s[j] in b;
      }
    }
  }

  lemma {:induction false} InsertSorted(t: Tree, x: Item)
    requires StablySorted(InOrder(t)) && forall y :: y in InOrder(t) ==> y.stamp < x.stamp
    ensures StablySorted(InOrder(InsertInto(t, x)))
  {
    match t
    case Leaf =>
    case Branch(l, y, r) =>
      SortedAround(InOrder(l), y, InOrder(r));
      assert y in InOrder(t);
      if x.key < y.key {
        InsertSorted(l, x);
        InsertContents(l, x);
        SortedAround(InOrder(InsertInto(l, x)), y, InOrder(r));
      } else {
        InsertSorted(r, x);
        InsertContents(r, x);
        SortedAround(InOrder(l), y, InOrder(InsertInto(r, x)));
      }
  }

  function Numbered(keys: seq<int>): (s: seq<Item>)
    ensures |s| == |keys|
  {
    seq(|keys|, (i: nat) requires i < |keys| => Item(keys[i], i))
  }

  lemma {:induction false} BuildContents(keys: seq<int>)
    ensures multiset(InOrder(Build(keys))) == multiset(Numbered(keys))
  {
    if keys != [] {
      var n := |keys| - 1;
      BuildContents(keys[..n]);
      assert Numbered(keys) == Numbered(keys[..n]) + [Item(keys[n], n)];
      InsertMultiset(Build(keys[..n]), Item(keys[n], n));
    }
  }

  // After any sequence of insertions: the in-order walk is a permutation of what was inserted,
  // sorted by key with equal keys in insertion order, and the search order holds at every node.
  lemma {:induction false} BuildSorts(keys: seq<int>)
    ensures multiset(InOrder(Build(keys))) == multiset(Numbered(keys))
    ensures StablySorted(InOrder(Build(keys))) && Searchable(Build(keys))
  {
    BuildContents(keys);
    if keys != [] {
      var n := |keys| - 1;
      var before, x := keys[..n], Item(keys[n], n);
      BuildSorts(before);
      StampsBelow(InOrder(Build(before)), before);
      InsertSorted(Build(before), x);
      InsertSearchable(Build(before), x);
    }
  }

  lemma StampsBelow(walk: seq<Item>, keys: seq<int>)
    requires multiset(walk) == multiset(Numbered(keys))
    ensures forall y :: y in walk ==> y in Numbered(keys) && y.stamp < |keys|
  {
    forall y | y in walk ensures y in Numbered(keys) {
      assert y in multiset(Numbered(keys));
    }
  }

  lemma {:induction false} SearchFinds(t: Tree, key: int)
    requires Searchable(t)
    ensures SearchIn(t, key) <==> exists x :: x in InOrder(t) && x.key == key
  {
    match t
    case Leaf =>
    case Branch(l, y, r) =>
      SearchFinds(l, key);
      SearchFinds(r, key);
      assert y in InOrder(t);
      assert forall x :: x in InOrder(t) <==> x in InOrder(l) || x == y || x in InOrder(r);
  }

  // Searching finds exactly the keys inserted so far.
  lemma SearchAfter(keys: seq<int>, key: int)
    ensures SearchIn(Build(keys), key) <==> key in keys
  {
    BuildSorts(keys);
    SearchFinds(Build(keys), key);
    var walk := InOrder(Build(keys));
    forall x ensures x in walk <==> x in Numbered(keys) {
      assert x in multiset(walk) <==> x in multiset(Numbered(keys));
    }
    if key in keys {
      var i :| 0 <= i < |keys| && keys[i] == key;
      assert Numbered(keys)[i] == Item(key, i) && Item(key, i) in walk;
    }
  }
}
