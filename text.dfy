/** The two JavaScript string operations the frontend's lookups rely on:
    `String.prototype.includes` and `String.prototype.toLowerCase`. */
module JsText {
  /** `a.includes(b)`: `b` occurs in `a` as a contiguous piece. */
  predicate Includes(a: string, b: string)
    decreases |a|
  {
    |b| <= |a| && (a[..|b|] == b || Includes(a[1..], b))
  }

  /** Every text includes the empty text. */
  lemma IncludesEmpty(a: string)
    ensures Includes(a, [])
  {
    assert a[..0] == [];
  }

  /** A text includes each of its pieces. */
  lemma {:induction false} IncludedAt(a: string, b: string, i: nat)
    requires i + |b| <= |a| && a[i..i + |b|] == b
    ensures Includes(a, b)
    decreases i
  {
    if i > 0 {
      assert a[1..][i - 1..i - 1 + |b|] == b;
      IncludedAt(a[1..], b, i - 1);
    }
  }

  /** A text does not include a word whose first character it lacks. */
  lemma {:induction false} NotIncluded(a: string, b: string)
    requires b != [] && forall i :: 0 <= i < |a| ==> a[i] != b[0]
    ensures !Includes(a, b)
    decreases |a|
  {
    if |b| <= |a| {
      assert a[..|b|][0] == a[0];
      NotIncluded(a[1..], b);
    }
  }

  /** `toLowerCase`, on the ASCII letters. */
  function Lower(s: string): (r: string)
    ensures |r| == |s|
    ensures forall i :: 0 <= i < |s| ==> ('A' <= s[i] <= 'Z' ==> r[i] == (s[i] as int + 32) as char)
    ensures forall i :: 0 <= i < |s| ==> (!('A' <= s[i] <= 'Z') ==> r[i] == s[i])
  {
    if s == [] then []
    else [if 'A' <= s[0] <= 'Z' then (s[0] as int + 32) as char else s[0]] + Lower(s[1..])
  }
}
