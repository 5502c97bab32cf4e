/** `SBTTree` of `sbt_storage_engine.py`: an object whose `root` field each public
    operation replaces. The node-level work (`_insert`, `_delete`, `_maintain`, the
    rotations) is the value-level `SbtSpec` model; the two walks of the source that
    only read the tree, `_find_min` and `_inorder`, are methods here, proved against
    the value-level functions that specify them. */
module Sbt {
  import opened Wrappers
  import opened KeyOrder
  import opened SortedEntries
  import opened PyValues
  import S = SbtSpec

  /** `_find_min`: follow left links to the leftmost node, which holds the first
      entry of the in-order walk and, in an ordered tree, the smallest key. This is
      the loop of `_find_min` on its own; the value-level `SbtSpec.Delete` takes the
      minimum through `SbtSpec.Leftmost`, which this method is proved to return. */
  method FindMin<V>(t: S.Tree<V>) returns (m: Entry<V>)
    requires t.Node?
    ensures m == S.Leftmost(t)
    ensures m == S.Inorder(t)[0]
    ensures S.Ordered(t) ==> forall e :: e in S.Inorder(t) ==> e.0 == m.0 || Lt(m.0, e.0)
  {
    var node := t;
    while node.left.Node?
      invariant node.Node? && S.Leftmost(node) == S.Leftmost(t)
      decreases node
    {
      node := node.left;
    }
    m := (node.key, node.value);
    S.LeftmostFirst(t);
    if S.Ordered(t) {
      forall e | e in S.Inorder(t) ensures e.0 == m.0 || Lt(m.0, e.0) {
        var i :| 0 <= i < |S.Inorder(t)| && S.Inorder(t)[i] == e;
        if i > 0 {
          assert Lt(S.Inorder(t)[0].0, S.Inorder(t)[i].0);
        }
      }
    }
  }

  /** `_inorder`: append the subtree's entries, in order, to `result`. */
  method InorderInto<V>(t: S.Tree<V>, result: seq<Entry<V>>) returns (out: seq<Entry<V>>)
    ensures out == result + S.Inorder(t)
    decreases t
  {
    out := result;
    if t.Node? {
      out := InorderInto(t.left, out);
      out := out + [(t.key, t.value)];
      out := InorderInto(t.right, out);
    }
  }

  class SbtTree {
    var root: S.Tree<Value>

    /** The tree is ordered by key and every cached size is correct. */
    ghost predicate Valid()
      reads this
    {
      S.Wf(root)
    }

    /** `SBTTree()`: the empty tree. */
    constructor ()
      ensures Valid() && root == S.Nil
    {
      root := S.Nil;
    }

    /** `insert`: afterwards the key maps to the value, every other key keeps its
        value, and the size grows by one exactly when the key is new. */
    method Insert(key: string, value: Value)
      requires Valid()
      modifies this
      ensures Valid()
      ensures root == S.Insert(old(root), key, value)
      ensures Search(key) == Some(value)
      ensures forall x :: x != key ==> Search(x) == old(Search(x))
      ensures Size() == if old(Search(key)).Some? then old(Size()) else old(Size()) + 1
    {
      S.InsertCorrect(root, key, value);
      S.SearchFind(root, key);
      S.SizeIsCount(root);
      root := S.Insert(root, key, value);
      S.SearchFind(root, key);
      S.SizeIsCount(root);
      forall x | x != key ensures Search(x) == old(Search(x)) {
        S.SearchFind(old(root), x);
        S.SearchFind(root, x);
      }
    }

    /** `delete`. The result is computed as the source writes it: the root object
        was replaced, or the old root object, now the root again, still leads to the
        key. `SbtSpec.RootKept` stands for "the same root object comes back" (the
        source compares object identity); `SbtSpec.DeleteResultIsRootReplaced`
        shows the second disjunct never holds, so a successful delete that keeps the
        root object reports false. On an empty tree the source's expression is
        `False or None`, which is `None`; the model gives its truth value, false. */
    method Delete(key: string) returns (deleted: bool)
      requires Valid()
      modifies this
      ensures Valid()
      ensures root == S.Delete(old(root), key)
      ensures deleted == S.DeleteResult(old(root), key)
      ensures Search(key) == None
      ensures forall x :: x != key ==> Search(x) == old(Search(x))
      ensures old(root).Nil? ==> !deleted
    {
      S.DeleteCorrect(root, key);
      S.DeleteResultIsRootReplaced(root, key);
      var oldRoot := root;
      root := S.Delete(root, key);
      deleted := !S.RootKept(oldRoot, key) || (oldRoot.Node? && S.Search(root, key).Some?);
      S.SearchFind(root, key);
      forall x | x != key ensures Search(x) == old(Search(x)) {
        S.SearchFind(old(root), x);
        S.SearchFind(root, x);
      }
    }

    /** `search`: the value stored under the key, if any. */
    function Search(key: string): (r: Option<Value>)
      requires Valid()
      reads this
      ensures r == Find(S.Inorder(root), key)
    {
      S.SearchFind(root, key);
      S.Search(root, key)
    }

    /** `search(key) is not None`: the key is present with a value other than
        `None`. Python's `search` answers `None` both for a missing key and for a
        stored `None`. */
    predicate Found(key: string)
      requires Valid()
      reads this
    {
      Search(key).Some? && Search(key).value != PyNone
    }

    /** `update`: overwrite a key only when `search` finds a value other than
        `None` under it; a missing key or a stored `None` is left alone. */
    method Update(key: string, value: Value) returns (updated: bool)
      requires Valid()
      modifies this
      ensures Valid()
      ensures updated == old(Found(key))
      ensures updated ==> Search(key) == Some(value)
      ensures forall x :: x != key ==> Search(x) == old(Search(x))
      ensures !updated ==> root == old(root)
      ensures Size() == old(Size())
    {
      if Found(key) {
        Insert(key, value);
        return true;
      }
      return false;
    }

    /** `get_all`: every entry, in strictly ascending key order, as many as `size`. */
    method GetAll() returns (all: seq<Entry<Value>>)
      requires Valid()
      ensures all == S.Inorder(root)
      ensures Sorted(all) && |all| == Size()
    {
      all := InorderInto(root, []);
    }

    /** `size`: the root's cached size, which counts the stored entries. */
    function Size(): (n: nat)
      requires Valid()
      reads this
      ensures n == |S.Inorder(root)|
    {
      S.SizeIsCount(root);
      S.SizeOf(root)
    }
  }
}
