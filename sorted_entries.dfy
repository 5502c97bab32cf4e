/** Association lists of (key, value) entries kept in strictly ascending key order:
    the abstract value of a search tree, read off by an in-order walk. `Put` and
    `Remove` are the reference definitions the tree operations are proved against. */
module SortedEntries {
  import opened Wrappers
  import opened KeyOrder

  type Entry<V> = (string, V)

  ghost predicate Sorted<V>(s: seq<Entry<V>>) {
    forall i, j :: 0 <= i < j < |s| ==> Lt(s[i].0, s[j].0)
  }

  /** The value stored under `k`, scanning from the front. */
  function Find<V>(s: seq<Entry<V>>, k: string): Option<V> {
    if s == [] then None
    else if s[0].0 == k then Some(s[0].1)
    else Find(s[1..], k)
  }

  /** The entry list with `k` bound to `v`: replaced in place, or inserted before the
      first larger key. */
  function Put<V>(s: seq<Entry<V>>, k: string, v: V): seq<Entry<V>> {
    if s == [] then [(k, v)]
    else if Lt(k, s[0].0) then [(k, v)] + s
    else if s[0].0 == k then [(k, v)] + s[1..]
    else [s[0]] + Put(s[1..], k, v)
  }

  /** The entry list without its first entry for `k`. */
  function Remove<V>(s: seq<Entry<V>>, k: string): seq<Entry<V>> {
    if s == [] then []
    else if s[0].0 == k then s[1..]
    else [s[0]] + Remove(s[1..], k)
  }

  // ---- sortedness of pieces -------------------------------------------------

  lemma SortedTail<V>(s: seq<Entry<V>>)
    requires Sorted(s) && s != []
    ensures Sorted(s[1..])
  {
    forall i, j | 0 <= i < j < |s| - 1 ensures Lt(s[1..][i].0, s[1..][j].0) {
      assert s[1..][i] == s[i + 1] && s[1..][j] == s[j + 1];
    }
  }

  /** A sorted `a + [p] + b` splits into sorted halves on either side of `p`. */
  lemma SortedSplit<V>(a: seq<Entry<V>>, p: Entry<V>, b: seq<Entry<V>>)
    requires Sorted(a + [p] + b)
    ensures Sorted(a) && Sorted(b)
    ensures forall i :: 0 <= i < |a| ==> Lt(a[i].0, p.0)
    ensures forall j :: 0 <= j < |b| ==> Lt(p.0, b[j].0)
  {
    var s := a + [p] + b;
    forall i, j | 0 <= i < j < |a| ensures Lt(a[i].0, a[j].0) {
      assert a[i] == s[i] && a[j] == s[j];
    }
    forall i, j | 0 <= i < j < |b| ensures Lt(b[i].0, b[j].0) {
      assert b[i] == s[|a| + 1 + i] && b[j] == s[|a| + 1 + j];
    }
    forall i | 0 <= i < |a| ensures Lt(a[i].0, p.0) {
      assert a[i] == s[i] && p == s[|a|];
    }
    forall j | 0 <= j < |b| ensures Lt(p.0, b[j].0) {
      assert b[j] == s[|a| + 1 + j] && p == s[|a|];
    }
  }

  /** A key below every key of a sorted list is absent from it. */
  lemma {:induction false} FindBelow<V>(s: seq<Entry<V>>, k: string)
    requires forall i :: 0 <= i < |s| ==> Lt(k, s[i].0)
    ensures Find(s, k) == None
    decreases |s|
  {
    if s != [] {
      LtIrreflexive(k);
      FindBelow(s[1..], k);
    }
  }

  /** A key above every key of a list is absent from it. */
  lemma {:induction false} FindAbove<V>(s: seq<Entry<V>>, k: string)
    requires forall i :: 0 <= i < |s| ==> Lt(s[i].0, k)
    ensures Find(s, k) == None
    decreases |s|
  {
    if s != [] {
      LtIrreflexive(k);
      FindAbove(s[1..], k);
    }
  }

  /** Lookup in a concatenation: the first list answers if it can. */
  lemma {:induction false} FindConcat<V>(a: seq<Entry<V>>, b: seq<Entry<V>>, k: string)
    ensures Find(a + b, k) == if Find(a, k).Some? then Find(a, k) else Find(b, k)
    decreases |a|
  {
    if a != [] {
      assert (a + b)[0] == a[0] && (a + b)[1..] == a[1..] + b;
      FindConcat(a[1..], b, k);
    } else {
      assert a + b == b;
    }
  }

  /** Lookup in a sorted `a + [p] + b` follows the comparison with `p`, as a search
      tree does at a node. */
  lemma FindAround<V>(a: seq<Entry<V>>, p: Entry<V>, b: seq<Entry<V>>, k: string)
    requires Sorted(a + [p] + b)
    ensures Find(a + [p] + b, k) ==
      if k == p.0 then Some(p.1) else if Lt(k, p.0) then Find(a, k) else Find(b, k)
  {
    SortedSplit(a, p, b);
    FindConcat(a + [p], b, k);
    FindConcat(a, [p], k);
    if k == p.0 {
      FindAbove(a, k);
    } else if Lt(k, p.0) {
      forall j | 0 <= j < |b| ensures Lt(k, b[j].0) { LtTransitive(k, p.0, b[j].0); }
      FindBelow(b, k);
    } else {
      LtTotal(k, p.0);
      forall i | 0 <= i < |a| ensures Lt(a[i].0, k) { LtTransitive(a[i].0, p.0, k); }
      FindAbove(a, k);
    }
  }

  /** Gluing sorted pieces around a separating entry gives a sorted list. */
  lemma SortedJoin<V>(a: seq<Entry<V>>, p: Entry<V>, b: seq<Entry<V>>)
    requires Sorted(a) && Sorted(b)
    requires forall i :: 0 <= i < |a| ==> Lt(a[i].0, p.0)
    requires forall j :: 0 <= j < |b| ==> Lt(p.0, b[j].0)
    ensures Sorted(a + [p] + b)
  {
    var s := a + [p] + b;
    forall i, j | 0 <= i < j < |s| ensures Lt(s[i].0, s[j].0) {
      if j < |a| {
        assert s[i] == a[i] && s[j] == a[j];
      } else if j == |a| {
        assert s[i] == a[i] && s[j] == p;
      } else if i > |a| {
        assert s[i] == b[i - |a| - 1] && s[j] == b[j - |a| - 1];
      } else if i == |a| {
        assert s[i] == p && s[j] == b[j - |a| - 1];
      } else {
        assert s[i] == a[i] && s[j] == b[j - |a| - 1];
        LtTransitive(a[i].0, p.0, b[j - |a| - 1].0);
      }
    }
  }

  // ---- Put --------------------------------------------------------------------

  /** `Put` binds `k` to `v` and leaves every other key's value as it was. */
  lemma {:induction false} PutFind<V>(s: seq<Entry<V>>, k: string, v: V, x: string)
    ensures Find(Put(s, k, v), x) == if x == k then Some(v) else Find(s, x)
    decreases |s|
  {
    if s != [] && !Lt(k, s[0].0) && s[0].0 != k {
      PutFind(s[1..], k, v, x);
    }
  }

  /** An entry below every key of a sorted list can go in front of it. */
  lemma SortedCons<V>(p: Entry<V>, t: seq<Entry<V>>)
    requires Sorted(t) && forall j :: 0 <= j < |t| ==> Lt(p.0, t[j].0)
    ensures Sorted([p] + t)
  {
    var r := [p] + t;
    forall i, j | 0 <= i < j < |r| ensures Lt(r[i].0, r[j].0) {
      assert r[j] == t[j - 1];
      if i > 0 {
        assert r[i] == t[i - 1];
      }
    }
  }

  /** A bound below `k` and below every key of `s` stays below every key of
      `Put(s, k, v)`. */
  lemma {:induction false} PutAbove<V>(s: seq<Entry<V>>, k: string, v: V, b: string)
    requires Lt(b, k) && forall j :: 0 <= j < |s| ==> Lt(b, s[j].0)
    ensures forall i :: 0 <= i < |Put(s, k, v)| ==> Lt(b, Put(s, k, v)[i].0)
    decreases |s|
  {
    if s != [] && !Lt(k, s[0].0) && s[0].0 != k {
      PutAbove(s[1..], k, v, b);
      var r := Put(s, k, v);
      forall i | 0 <= i < |r| ensures Lt(b, r[i].0) {
        if i > 0 {
          assert r[i] == Put(s[1..], k, v)[i - 1];
        }
      }
    }
  }

  /** `Put` keeps a sorted list sorted. */
  lemma {:induction false} PutSorted<V>(s: seq<Entry<V>>, k: string, v: V)
    requires Sorted(s)
    ensures Sorted(Put(s, k, v))
    decreases |s|
  {
    if s == [] {
    } else if Lt(k, s[0].0) {
      forall j | 0 <= j < |s| ensures Lt(k, s[j].0) {
        if j > 0 {
          LtTransitive(k, s[0].0, s[j].0);
        }
      }
      SortedCons((k, v), s);
    } else if s[0].0 == k {
      SortedTail(s);
      SortedCons((k, v), s[1..]);
    } else {
      LtTotal(k, s[0].0);
      SortedTail(s);
      PutSorted(s[1..], k, v);
      PutAbove(s[1..], k, v, s[0].0);
      SortedCons(s[0], Put(s[1..], k, v));
    }
  }

  lemma {:induction false} PutLength<V>(s: seq<Entry<V>>, k: string, v: V)
    requires Sorted(s)
    ensures |Put(s, k, v)| == if Find(s, k).Some? then |s| else |s| + 1
    decreases |s|
  {
    if s != [] {
      if Lt(k, s[0].0) {
        forall j | 0 <= j < |s| ensures Lt(k, s[j].0) {
          if j > 0 { LtTransitive(k, s[0].0, s[j].0); }
        }
        FindBelow(s, k);
      } else if s[0].0 != k {
        SortedTail(s);
        PutLength(s[1..], k, v);
      }
    }
  }

  /** At a node whose key is above `k`, `Put` acts on the left part only. */
  lemma {:induction false} PutLeft<V>(a: seq<Entry<V>>, p: Entry<V>, b: seq<Entry<V>>, k: string, v: V)
    requires Lt(k, p.0)
    ensures Put(a + [p] + b, k, v) == Put(a, k, v) + [p] + b
    decreases |a|
  {
    if a != [] {
      assert (a + [p] + b)[0] == a[0] && (a + [p] + b)[1..] == a[1..] + [p] + b;
      if !Lt(k, a[0].0) && a[0].0 != k {
        PutLeft(a[1..], p, b, k, v);
      }
    } else {
      assert a + [p] + b == [p] + b;
    }
  }

  /** At a node whose key is below `k`, `Put` acts on the right part only. */
  lemma {:induction false} PutRight<V>(a: seq<Entry<V>>, p: Entry<V>, b: seq<Entry<V>>, k: string, v: V)
    requires Lt(p.0, k) && Sorted(a + [p] + b)
    ensures Put(a + [p] + b, k, v) == a + [p] + Put(b, k, v)
    decreases |a|
  {
    if a != [] {
      SortedSplit(a, p, b);
      LtTransitive(a[0].0, p.0, k);
      LtAsymmetric(a[0].0, k);
      assert (a + [p] + b)[0] == a[0] && (a + [p] + b)[1..] == a[1..] + [p] + b;
      SortedTail(a + [p] + b);
      PutRight(a[1..], p, b, k, v);
    } else {
      LtAsymmetric(p.0, k);
      assert a + [p] + b == [p] + b;
    }
  }

  /** At the node holding `k`, `Put` replaces that node's value. */
  lemma {:induction false} PutHere<V>(a: seq<Entry<V>>, p: Entry<V>, b: seq<Entry<V>>, v: V)
    requires Sorted(a + [p] + b)
    ensures Put(a + [p] + b, p.0, v) == a + [(p.0, v)] + b
    decreases |a|
  {
    if a != [] {
      SortedSplit(a, p, b);
      LtAsymmetric(a[0].0, p.0);
      assert (a + [p] + b)[0] == a[0] && (a + [p] + b)[1..] == a[1..] + [p] + b;
      SortedTail(a + [p] + b);
      PutHere(a[1..], p, b, v);
    } else {
      LtIrreflexive(p.0);
      assert a + [p] + b == [p] + b;
    }
  }

  // ---- Remove -----------------------------------------------------------------

  /** Removing an absent key changes nothing. */
  lemma {:induction false} RemoveAbsent<V>(s: seq<Entry<V>>, k: string)
    requires Find(s, k) == None
    ensures Remove(s, k) == s
    decreases |s|
  {
    if s != [] {
      RemoveAbsent(s[1..], k);
    }
  }

  /** `Remove` drops the binding of `k` and leaves every other key's value as it was. */
  lemma {:induction false} RemoveFind<V>(s: seq<Entry<V>>, k: string, x: string)
    requires Sorted(s)
    ensures Find(Remove(s, k), x) == if x == k then None else Find(s, x)
    decreases |s|
  {
    if s != [] {
      SortedTail(s);
      if s[0].0 == k {
        if x == k {
          forall j | 0 <= j < |s[1..]| ensures Lt(k, s[1..][j].0) { assert s[1..][j] == s[j + 1]; }
          FindBelow(s[1..], k);
        }
      } else {
        RemoveFind(s[1..], k, x);
      }
    }
  }

  /** A bound below every key of `s` stays below every key of `Remove(s, k)`. */
  lemma {:induction false} RemoveAbove<V>(s: seq<Entry<V>>, k: string, b: string)
    requires forall j :: 0 <= j < |s| ==> Lt(b, s[j].0)
    ensures forall i :: 0 <= i < |Remove(s, k)| ==> Lt(b, Remove(s, k)[i].0)
    decreases |s|
  {
    if s != [] && s[0].0 != k {
      RemoveAbove(s[1..], k, b);
      var r := Remove(s, k);
      forall i | 0 <= i < |r| ensures Lt(b, r[i].0) {
        if i > 0 {
          assert r[i] == Remove(s[1..], k)[i - 1];
        }
      }
    }
  }

  /** `Remove` keeps a sorted list sorted. */
  lemma {:induction false} RemoveSorted<V>(s: seq<Entry<V>>, k: string)
    requires Sorted(s)
    ensures Sorted(Remove(s, k))
    decreases |s|
  {
    if s != [] {
      SortedTail(s);
      if s[0].0 != k {
        RemoveSorted(s[1..], k);
        RemoveAbove(s[1..], k, s[0].0);
        SortedCons(s[0], Remove(s[1..], k));
      }
    }
  }

  lemma {:induction false} RemoveLength<V>(s: seq<Entry<V>>, k: string)
    ensures |Remove(s, k)| == if Find(s, k).Some? then |s| - 1 else |s|
    decreases |s|
  {
    if s != [] && s[0].0 != k {
      RemoveLength(s[1..], k);
    }
  }

  /** At a node whose key is above `k`, `Remove` acts on the left part only. */
  lemma {:induction false} RemoveLeft<V>(a: seq<Entry<V>>, p: Entry<V>, b: seq<Entry<V>>, k: string)
    requires Lt(k, p.0) && Sorted(a + [p] + b)
    ensures Remove(a + [p] + b, k) == Remove(a, k) + [p] + b
    decreases |a|
  {
    SortedSplit(a, p, b);
    if a != [] {
      assert (a + [p] + b)[0] == a[0] && (a + [p] + b)[1..] == a[1..] + [p] + b;
      if a[0].0 != k {
        SortedTail(a + [p] + b);
        RemoveLeft(a[1..], p, b, k);
      }
    } else {
      assert a + [p] + b == [p] + b;
      LtIrreflexive(k);
      forall j | 0 <= j < |b| ensures Lt(k, b[j].0) { LtTransitive(k, p.0, b[j].0); }
      FindBelow(b, k);
      RemoveAbsent(b, k);
    }
  }

  /** At a node whose key is below `k`, `Remove` acts on the right part only. */
  lemma RemoveRight<V>(a: seq<Entry<V>>, p: Entry<V>, b: seq<Entry<V>>, k: string)
    requires Lt(p.0, k) && Sorted(a + [p] + b)
    ensures Remove(a + [p] + b, k) == a + [p] + Remove(b, k)
  {
    SortedSplit(a, p, b);
    forall i | 0 <= i < |a| ensures Lt(a[i].0, k) { LtTransitive(a[i].0, p.0, k); }
    FindAbove(a, k);
    LtIrreflexive(k);
    RemoveSkip(a, [p] + b, k);
    assert a + [p] + b == a + ([p] + b);
  }

  lemma {:induction false} RemoveSkip<V>(a: seq<Entry<V>>, b: seq<Entry<V>>, k: string)
    requires Find(a, k) == None
    ensures Remove(a + b, k) == a + Remove(b, k)
    decreases |a|
  {
    if a != [] {
      assert (a + b)[0] == a[0] && (a + b)[1..] == a[1..] + b;
      RemoveSkip(a[1..], b, k);
    } else {
      assert a + b == b;
    }
  }

  /** At the node holding `k`, `Remove` drops exactly that node's entry. */
  lemma RemoveHere<V>(a: seq<Entry<V>>, p: Entry<V>, b: seq<Entry<V>>)
    requires Sorted(a + [p] + b)
    ensures Remove(a + [p] + b, p.0) == a + b
  {
    SortedSplit(a, p, b);
    FindAbove(a, p.0);
    RemoveSkip(a, [p] + b, p.0);
    assert a + [p] + b == a + ([p] + b);
  }
}
