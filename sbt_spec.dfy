/** The size-balanced tree of `sbt_storage_engine.py` as a value: every node carries
    its key, its value, its two subtrees and its cached `size` field, and every
    function below follows one method of `SBTTree` branch for branch, including
    which rotations `_maintain` performs. The heap classes in module `Sbt` are
    proved to compute exactly these functions; the lemmas here say what they mean:
    the in-order walk stays sorted by key, the cached sizes stay correct, and the
    tree behaves as the association list `SortedEntries` describes. */
module SbtSpec {
  import opened Wrappers
  import opened KeyOrder
  import opened SortedEntries

  datatype Tree<V> = Nil | Node(key: string, value: V, left: Tree<V>, right: Tree<V>, size: nat)

  /** `_get_size`: the cached size of a node, 0 for an absent node. */
  function SizeOf<V>(t: Tree<V>): nat {
    if t.Nil? then 0 else t.size
  }

  /** `_update_size`: recompute a node's cached size from its children's cached sizes. */
  function Resized<V>(t: Tree<V>): Tree<V>
    requires t.Node?
  {
    t.(size := 1 + SizeOf(t.left) + SizeOf(t.right))
  }

  /** The in-order walk `_inorder`: entries left subtree first, then the node, then the
      right subtree. */
  function Inorder<V>(t: Tree<V>): seq<Entry<V>> {
    match t
    case Nil => []
    case Node(k, v, l, r, _) => Inorder(l) + [(k, v)] + Inorder(r)
  }

  /** Search-tree ordering: the in-order walk is strictly ascending by key. */
  ghost predicate Ordered<V>(t: Tree<V>) {
    Sorted(Inorder(t))
  }

  /** Every node's cached size is one plus the cached sizes of its children. */
  ghost predicate SizesOk<V>(t: Tree<V>) {
    match t
    case Nil => true
    case Node(_, _, l, r, sz) => sz == 1 + SizeOf(l) + SizeOf(r) && SizesOk(l) && SizesOk(r)
  }

  /** The invariant `SBTTree` keeps: ordered, with correct cached sizes. */
  ghost predicate Wf<V>(t: Tree<V>) {
    Ordered(t) && SizesOk(t)
  }

  /** With correct cached sizes, a node's size counts the entries below it. */
  lemma {:induction false} SizeIsCount<V>(t: Tree<V>)
    requires SizesOk(t)
    ensures SizeOf(t) == |Inorder(t)|
  {
    if t.Node? {
      SizeIsCount(t.left);
      SizeIsCount(t.right);
    }
  }

  lemma OrderedChildren<V>(t: Tree<V>)
    requires t.Node? && Ordered(t)
    ensures Ordered(t.left) && Ordered(t.right)
  {
    SortedSplit(Inorder(t.left), (t.key, t.value), Inorder(t.right));
  }

  // ---- rotations and _maintain ------------------------------------------------

  /** `_left_rotate`: the right child becomes the root; both touched sizes are
      recomputed. */
  function RotateLeft<V>(t: Tree<V>): (r: Tree<V>)
    requires t.Node? && t.right.Node?
    ensures r.Node? && Inorder(r) == Inorder(t)
    ensures SizesOk(t) ==> SizesOk(r) && r.size == t.size
  {
    var n := Resized(t.(right := t.right.left));
    var r := Resized(t.right.(left := n));
    assert SizesOk(t) ==> SizesOk(t.right) && SizesOk(n) && SizesOk(r);
    assert Inorder(r) == Inorder(t) by {
      calc {
        Inorder(r);
        Inorder(n) + [(t.right.key, t.right.value)] + Inorder(t.right.right);
        Inorder(t.left) + [(t.key, t.value)] + Inorder(t.right.left) + [(t.right.key, t.right.value)] + Inorder(t.right.right);
        Inorder(t.left) + [(t.key, t.value)] + (Inorder(t.right.left) + [(t.right.key, t.right.value)] + Inorder(t.right.right));
      }
    }
    r
  }

  /** `_right_rotate`: the left child becomes the root; both touched sizes are
      recomputed. */
  function RotateRight<V>(t: Tree<V>): (r: Tree<V>)
    requires t.Node? && t.left.Node?
    ensures r.Node? && Inorder(r) == Inorder(t)
    ensures SizesOk(t) ==> SizesOk(r) && r.size == t.size
  {
    var n := Resized(t.(left := t.left.right));
    var r := Resized(t.left.(right := n));
    assert SizesOk(t) ==> SizesOk(t.left) && SizesOk(n) && SizesOk(r);
    assert Inorder(r) == Inorder(t) by {
      calc {
        Inorder(r);
        Inorder(t.left.left) + [(t.left.key, t.left.value)] + Inorder(n);
        Inorder(t.left.left) + [(t.left.key, t.left.value)] + (Inorder(t.left.right) + [(t.key, t.value)] + Inorder(t.right));
        Inorder(t.left.left) + [(t.left.key, t.left.value)] + Inorder(t.left.right) + [(t.key, t.value)] + Inorder(t.right);
      }
    }
    r
  }

  /** True when `_maintain` rotates at this node: one of its four size checks fires. */
  predicate Rotates<V>(t: Tree<V>) {
    t.Node? &&
    ((t.left.Node? && SizeOf(t.left.left) > SizeOf(t.right)) ||
     (t.left.Node? && SizeOf(t.left.right) > SizeOf(t.right)) ||
     (t.right.Node? && SizeOf(t.right.right) > SizeOf(t.left)) ||
     (t.right.Node? && SizeOf(t.right.left) > SizeOf(t.left)))
  }

  /** `_maintain`: at most one single or double rotation at this node, chosen by the
      first size check that fires; the children are not maintained again. A check
      on a grandchild's size can fire only when that grandchild is present, because
      absent nodes have size 0 and sizes are never negative, so every rotation it
      asks for has the child it needs. */
  function Maintain<V>(t: Tree<V>): (r: Tree<V>)
    ensures Inorder(r) == Inorder(t)
    ensures SizesOk(t) ==> SizesOk(r) && SizeOf(r) == SizeOf(t)
    ensures t.Node? ==> r.Node?
  {
    if t.Nil? then t
    else if t.left.Node? && SizeOf(t.left.left) > SizeOf(t.right) then RotateRight(t)
    else if t.left.Node? && SizeOf(t.left.right) > SizeOf(t.right) then
      RotateRight(t.(left := RotateLeft(t.left)))
    else if t.right.Node? && SizeOf(t.right.right) > SizeOf(t.left) then RotateLeft(t)
    else if t.right.Node? && SizeOf(t.right.left) > SizeOf(t.left) then
      RotateLeft(t.(right := RotateRight(t.right)))
    else t
  }

  // ---- _insert ---------------------------------------------------------------

  /** `_insert`: descend by key comparison; an equal key only has its value
      overwritten (no size update, no maintenance); otherwise the changed node is
      resized and maintained on the way back up. */
  function Insert<V>(t: Tree<V>, k: string, v: V): Tree<V> {
    match t
    case Nil => Node(k, v, Nil, Nil, 1)
    case Node(nk, _, l, r, _) =>
      if Lt(k, nk) then Maintain(Resized(t.(left := Insert(l, k, v))))
      else if Lt(nk, k) then Maintain(Resized(t.(right := Insert(r, k, v))))
      else t.(value := v)
  }

  /** Inserting into an ordered tree yields the entry list with `k` bound to `v`. */
  lemma {:induction false} InsertInorder<V>(t: Tree<V>, k: string, v: V)
    requires Ordered(t)
    ensures Inorder(Insert(t, k, v)) == Put(Inorder(t), k, v)
  {
    match t
    case Nil =>
    case Node(nk, nv, l, r, _) =>
      OrderedChildren(t);
      if Lt(k, nk) {
        InsertInorder(l, k, v);
        PutLeft(Inorder(l), (nk, nv), Inorder(r), k, v);
      } else if Lt(nk, k) {
        InsertInorder(r, k, v);
        PutRight(Inorder(l), (nk, nv), Inorder(r), k, v);
      } else {
        LtTotal(k, nk);
        PutHere(Inorder(l), (nk, nv), Inorder(r), v);
      }
  }

  lemma {:induction false} InsertSizes<V>(t: Tree<V>, k: string, v: V)
    requires SizesOk(t)
    ensures SizesOk(Insert(t, k, v))
  {
    match t
    case Nil =>
    case Node(nk, nv, l, r, _) =>
      if Lt(k, nk) {
        InsertSizes(l, k, v);
      } else if Lt(nk, k) {
        InsertSizes(r, k, v);
      }
  }

  /** `insert` keeps the tree invariant, binds `k` to `v`, leaves every other key's
      value unchanged, and grows the size by one exactly when `k` was new. */
  lemma InsertCorrect<V>(t: Tree<V>, k: string, v: V)
    requires Wf(t)
    ensures Wf(Insert(t, k, v))
    ensures Inorder(Insert(t, k, v)) == Put(Inorder(t), k, v)
    ensures forall x :: Search(Insert(t, k, v), x) == if x == k then Some(v) else Search(t, x)
    ensures SizeOf(Insert(t, k, v)) == if Search(t, k).Some? then SizeOf(t) else SizeOf(t) + 1
  {
    var t' := Insert(t, k, v);
    InsertInorder(t, k, v);
    InsertSizes(t, k, v);
    PutSorted(Inorder(t), k, v);
    forall x ensures Search(t', x) == if x == k then Some(v) else Search(t, x) {
      SearchFind(t', x);
      SearchFind(t, x);
      PutFind(Inorder(t), k, v, x);
    }
    SizeIsCount(t);
    SizeIsCount(t');
    SearchFind(t, k);
    PutLength(Inorder(t), k, v);
  }

  // ---- _search ---------------------------------------------------------------

  /** `_search`: equality first, then descend by comparison. */
  function Search<V>(t: Tree<V>, k: string): Option<V> {
    match t
    case Nil => None
    case Node(nk, nv, l, r, _) =>
      if k == nk then Some(nv) else if Lt(k, nk) then Search(l, k) else Search(r, k)
  }

  /** On an ordered tree, the descent finds exactly what a scan of the in-order
      walk finds. */
  lemma {:induction false} SearchFind<V>(t: Tree<V>, k: string)
    requires Ordered(t)
    ensures Search(t, k) == Find(Inorder(t), k)
  {
    if t.Node? {
      OrderedChildren(t);
      FindAround(Inorder(t.left), (t.key, t.value), Inorder(t.right), k);
      if k != t.key {
        if Lt(k, t.key) {
          SearchFind(t.left, k);
        } else {
          SearchFind(t.right, k);
        }
      }
    }
  }

  // ---- _find_min and _delete --------------------------------------------------

  /** `_find_min`: follow left links to the leftmost node. */
  function Leftmost<V>(t: Tree<V>): Entry<V>
    requires t.Node?
  {
    if t.left.Nil? then (t.key, t.value) else Leftmost(t.left)
  }

  /** The leftmost entry is the first of the in-order walk, hence the smallest key. */
  lemma {:induction false} LeftmostFirst<V>(t: Tree<V>)
    requires t.Node?
    ensures Inorder(t) != [] && Leftmost(t) == Inorder(t)[0]
  {
    if t.left.Node? {
      LeftmostFirst(t.left);
      assert Inorder(t) == Inorder(t.left) + ([(t.key, t.value)] + Inorder(t.right));
    }
  }

  /** The node holding `k` has at most one child, so `_delete` returns that child in
      its place. */
  predicate Splices<V>(t: Tree<V>, k: string) {
    t.Node? && !Lt(k, t.key) && !Lt(t.key, k) && (t.left.Nil? || t.right.Nil?)
  }

  /** The node `_delete` passes to `_maintain`: after the recursive deletion in one
      subtree (with the right subtree's minimum copied into the node when both
      children exist) and `_update_size`. */
  function Unbalanced<V>(t: Tree<V>, k: string): Tree<V>
    requires t.Node? && !Splices(t, k)
    decreases t, 0
  {
    if Lt(k, t.key) then Resized(t.(left := Delete(t.left, k)))
    else if Lt(t.key, k) then Resized(t.(right := Delete(t.right, k)))
    else
      var m := Leftmost(t.right);
      Resized(t.(key := m.0, value := m.1, right := Delete(t.right, m.0)))
  }

  /** `_delete`. */
  function Delete<V>(t: Tree<V>, k: string): Tree<V>
    decreases t, 1
  {
    if t.Nil? then Nil
    else if Splices(t, k) then (if t.left.Nil? then t.right else t.left)
    else Maintain(Unbalanced(t, k))
  }

  /** Deleting from an ordered tree yields the entry list without `k`. */
  lemma {:induction false} DeleteInorder<V>(t: Tree<V>, k: string)
    requires Ordered(t)
    ensures Inorder(Delete(t, k)) == Remove(Inorder(t), k)
    decreases t
  {
    if t.Node? {
      var l, p, r := Inorder(t.left), (t.key, t.value), Inorder(t.right);
      OrderedChildren(t);
      if Lt(k, t.key) {
        DeleteInorder(t.left, k);
        RemoveLeft(l, p, r, k);
      } else if Lt(t.key, k) {
        DeleteInorder(t.right, k);
        RemoveRight(l, p, r, k);
      } else {
        LtTotal(k, t.key);
        RemoveHere(l, p, r);
        if !Splices(t, k) {
          var m := Leftmost(t.right);
          LeftmostFirst(t.right);
          DeleteInorder(t.right, m.0);
          assert r == [m] + r[1..];
        }
      }
    }
  }

  lemma {:induction false} DeleteSizes<V>(t: Tree<V>, k: string)
    requires SizesOk(t)
    ensures SizesOk(Delete(t, k))
    decreases t
  {
    if t.Node? && !Splices(t, k) {
      if Lt(k, t.key) {
        DeleteSizes(t.left, k);
      } else if Lt(t.key, k) {
        DeleteSizes(t.right, k);
      } else {
        DeleteSizes(t.right, Leftmost(t.right).0);
      }
    }
  }

  /** `delete` keeps the tree invariant, removes exactly `k` (including the
      two-children case that copies the right subtree's minimum), leaves every other
      key's value unchanged, and shrinks the size by one exactly when `k` was
      present. */
  lemma DeleteCorrect<V>(t: Tree<V>, k: string)
    requires Wf(t)
    ensures Wf(Delete(t, k))
    ensures Inorder(Delete(t, k)) == Remove(Inorder(t), k)
    ensures forall x :: Search(Delete(t, k), x) == if x == k then None else Search(t, x)
    ensures SizeOf(Delete(t, k)) == if Search(t, k).Some? then SizeOf(t) - 1 else SizeOf(t)
    ensures Search(t, k) == None ==> Inorder(Delete(t, k)) == Inorder(t)
  {
    var t' := Delete(t, k);
    DeleteInorder(t, k);
    DeleteSizes(t, k);
    RemoveSorted(Inorder(t), k);
    forall x ensures Search(t', x) == if x == k then None else Search(t, x) {
      SearchFind(t', x);
      SearchFind(t, x);
      RemoveFind(Inorder(t), k, x);
    }
    SizeIsCount(t);
    SizeIsCount(t');
    SearchFind(t, k);
    RemoveLength(Inorder(t), k);
    if Search(t, k) == None {
      RemoveAbsent(Inorder(t), k);
    }
  }

  // ---- the boolean `delete` reports -------------------------------------------

  /** `_delete` hands back the very node it was given: it was absent, or it was
      neither spliced out nor rotated away by `_maintain`. */
  predicate RootKept<V>(t: Tree<V>, k: string) {
    t.Nil? || (!Splices(t, k) && !Rotates(Unbalanced(t, k)))
  }

  /** `delete`'s result as written: the root object changed, or the old root object
      (which is the new root when it did not change) still leads to `k`. */
  predicate DeleteResult<V>(t: Tree<V>, k: string) {
    !RootKept(t, k) || (t.Node? && Search(Delete(t, k), k).Some?)
  }

  /** Because the key is always gone afterwards, the result only says whether the
      root object was replaced, whether or not `k` was present. On an empty tree it
      is falsy: the source's expression evaluates to `None` there, and the model
      gives that `None` as false. */
  lemma DeleteResultIsRootReplaced<V>(t: Tree<V>, k: string)
    requires Wf(t)
    ensures DeleteResult(t, k) == !RootKept(t, k)
    ensures t.Nil? ==> !DeleteResult(t, k)
  {
    DeleteCorrect(t, k);
  }

  /** With keys "b", "a", "c" inserted in that order, deleting the leaf "c" removes
      it but reports false: "b" stays the root object and `_maintain` does not
      rotate. Deleting "a" from the one-key tree {"a"} reports true. */
  lemma DeleteReportsFalseOnSuccess()
    ensures var t := Insert(Insert(Insert(Nil, "b", 0), "a", 0), "c", 0);
      Search(t, "c") == Some(0) && Search(Delete(t, "c"), "c") == None && !DeleteResult(t, "c")
    ensures DeleteResult(Insert(Nil, "a", 0), "a")
  {
    var t := Insert(Insert(Insert(Nil, "b", 0), "a", 0), "c", 0);
    assert Lt("a", "b") && Lt("b", "c");
    LtAsymmetric("a", "b");
    LtAsymmetric("b", "c");
    assert t == Node("b", 0, Node("a", 0, Nil, Nil, 1), Node("c", 0, Nil, Nil, 1), 3);
    assert Unbalanced(t, "c") == Node("b", 0, Node("a", 0, Nil, Nil, 1), Nil, 2);
  }
}
