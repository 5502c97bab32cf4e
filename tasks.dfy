/** The to-do record shared by the Python services and the browser client, the two
    string-trimming functions they rely on (Python `str.strip()`, JavaScript
    `String.prototype.trim`), and the stable sort by creation time that both
    `get_all_tasks` and `getAllTasks` apply. */
module Tasks {
  import opened Wrappers

  /** `Task` (core/interfaces.py, frontend/src/types/index.ts). Instants are
      abstract: a natural number per instant, ordered as the source orders dates. */
  datatype Task = Task(id: string, text: string, completed: bool, createdAt: nat, updatedAt: Option<nat>)

  // ---- whitespace and trimming ---------------------------------------------------

  /** Characters for which Python's `str.isspace()` holds: the characters `strip()`
      with no argument removes. */
  predicate IsPySpace(c: char) {
    var n := c as int;
    (0x09 <= n <= 0x0D) || (0x1C <= n <= 0x20) || n == 0x85 || n == 0xA0 || n == 0x1680
    || (0x2000 <= n <= 0x200A) || n == 0x2028 || n == 0x2029 || n == 0x202F || n == 0x205F
    || n == 0x3000
  }

  /** The WhiteSpace and LineTerminator characters that JavaScript's `trim()` removes. */
  predicate IsJsSpace(c: char) {
    var n := c as int;
    (0x09 <= n <= 0x0D) || n == 0x20 || n == 0xA0 || n == 0x1680 || (0x2000 <= n <= 0x200A)
    || n == 0x2028 || n == 0x2029 || n == 0x202F || n == 0x205F || n == 0x3000 || n == 0xFEFF
  }

  /** Drop leading characters of the given class. */
  function TrimStart(s: string, isSpace: char -> bool): (r: string)
    ensures |r| <= |s| && r == s[|s| - |r|..]
    ensures forall i :: 0 <= i < |s| - |r| ==> isSpace(s[i])
    ensures r != [] ==> !isSpace(r[0])
  {
    if s != [] && isSpace(s[0]) then TrimStart(s[1..], isSpace) else s
  }

  /** Drop trailing characters of the given class. */
  function TrimEnd(s: string, isSpace: char -> bool): (r: string)
    ensures |r| <= |s| && r == s[..|r|]
    ensures forall i :: |r| <= i < |s| ==> isSpace(s[i])
    ensures r != [] ==> !isSpace(r[|r| - 1])
  {
    if s != [] && isSpace(s[|s| - 1]) then TrimEnd(s[..|s| - 1], isSpace) else s
  }

  /** Drop both ends. */
  function Trim(s: string, isSpace: char -> bool): (r: string)
    ensures r != [] ==> !isSpace(r[0]) && !isSpace(r[|r| - 1])
  {
    TrimEnd(TrimStart(s, isSpace), isSpace)
  }

  /** Every character belongs to the class. */
  predicate Blank(s: string, isSpace: char -> bool) {
    forall i :: 0 <= i < |s| ==> isSpace(s[i])
  }

  /** Trimming leaves nothing exactly when the text is blank, and otherwise keeps a
      contiguous piece of it. */
  lemma TrimEmptyIffBlank(s: string, isSpace: char -> bool)
    ensures Trim(s, isSpace) == [] <==> Blank(s, isSpace)
    ensures exists i, j :: 0 <= i <= j <= |s| && Trim(s, isSpace) == s[i..j]
  {
    var a := TrimStart(s, isSpace);
    var r := TrimEnd(a, isSpace);
    var i := |s| - |a|;
    assert r == a[..|r|];
    assert r == s[i..i + |r|];
    if r == [] {
      assert a == [];
    }
  }

  /** Trimming only removes characters, so whatever holds of every character of the
      text holds of every character of the result. */
  lemma TrimKeepsProperty(s: string, isSpace: char -> bool, p: char -> bool)
    requires forall k :: 0 <= k < |s| ==> p(s[k])
    ensures forall k :: 0 <= k < |Trim(s, isSpace)| ==> p(Trim(s, isSpace)[k])
  {
    var a := TrimStart(s, isSpace);
    var r := TrimEnd(a, isSpace);
    forall k | 0 <= k < |r| ensures p(r[k]) {
      assert r[k] == a[k];
      assert a[k] == s[|s| - |a| + k];
    }
  }

  /** Python `text.strip()`. */
  function PyStrip(s: string): string {
    Trim(s, IsPySpace)
  }

  /** JavaScript `text.trim()`. */
  function JsTrim(s: string): string {
    Trim(s, IsJsSpace)
  }

  // ---- stable sort by creation time ---------------------------------------------

  /** Non-decreasing creation times. */
  predicate SortedByCreated(s: seq<Task>) {
    forall i, j :: 0 <= i < j < |s| ==> s[i].createdAt <= s[j].createdAt
  }

  /** Place `t` before the first entry created no earlier than it. */
  function InsertByCreated(t: Task, s: seq<Task>): seq<Task> {
    if s == [] || t.createdAt <= s[0].createdAt then [t] + s
    else [s[0]] + InsertByCreated(t, s[1..])
  }

  /** `list.sort(key=created_at)` and `Array.prototype.sort` by `createdAt`: both
      sorts are stable, so this insertion sort computes exactly their result. */
  function SortByCreated(s: seq<Task>): seq<Task> {
    if s == [] then [] else InsertByCreated(s[0], SortByCreated(s[1..]))
  }

  /** The entries created at instant `c`, in order. */
  function CreatedAt(s: seq<Task>, c: nat): seq<Task> {
    if s == [] then []
    else if s[0].createdAt == c then [s[0]] + CreatedAt(s[1..], c)
    else CreatedAt(s[1..], c)
  }

  lemma {:induction false} CreatedAtConcat(a: seq<Task>, b: seq<Task>, c: nat)
    ensures CreatedAt(a + b, c) == CreatedAt(a, c) + CreatedAt(b, c)
  {
    if a != [] {
      assert (a + b)[1..] == a[1..] + b;
      CreatedAtConcat(a[1..], b, c);
    } else {
      assert a + b == b;
    }
  }

  lemma {:induction false} InsertByCreatedMultiset(t: Task, s: seq<Task>)
    ensures multiset(InsertByCreated(t, s)) == multiset(s) + multiset{t}
  {
    if s != [] && t.createdAt > s[0].createdAt {
      InsertByCreatedMultiset(t, s[1..]);
      assert s == [s[0]] + s[1..];
    }
  }

  lemma {:induction false} InsertByCreatedSorted(t: Task, s: seq<Task>)
    requires SortedByCreated(s)
    ensures SortedByCreated(InsertByCreated(t, s))
  {
    if s != [] && t.createdAt > s[0].createdAt {
      var rest := InsertByCreated(t, s[1..]);
      InsertByCreatedSorted(t, s[1..]);
      assert s[0].createdAt <= rest[0].createdAt by {
        if |s| > 1 {
          assert s[0].createdAt <= s[1].createdAt;
        }
      }
      var r := [s[0]] + rest;
      forall i, j | 0 <= i < j < |r| ensures r[i].createdAt <= r[j].createdAt {
        assert r[j] == rest[j - 1];
        if i == 0 {
          assert rest[0].createdAt <= rest[j - 1].createdAt;
        } else {
          assert r[i] == rest[i - 1];
        }
      }
    }
  }

  lemma {:induction false} InsertByCreatedStable(t: Task, s: seq<Task>, c: nat)
    requires SortedByCreated(s)
    ensures CreatedAt(InsertByCreated(t, s), c) ==
      (if t.createdAt == c then [t] + CreatedAt(s, c) else CreatedAt(s, c))
  {
    if s == [] || t.createdAt <= s[0].createdAt {
      assert ([t] + s)[1..] == s;
    } else {
      InsertByCreatedStable(t, s[1..], c);
      assert ([s[0]] + InsertByCreated(t, s[1..]))[1..] == InsertByCreated(t, s[1..]);
    }
  }

  /** The sort yields non-decreasing creation times, keeps exactly the same entries,
      and is stable: the entries sharing any one creation time keep their order. */
  lemma {:induction false} SortByCreatedCorrect(s: seq<Task>)
    ensures SortedByCreated(SortByCreated(s))
    ensures multiset(SortByCreated(s)) == multiset(s)
    ensures forall c :: CreatedAt(SortByCreated(s), c) == CreatedAt(s, c)
  {
    if s != [] {
      SortByCreatedCorrect(s[1..]);
      InsertByCreatedSorted(s[0], SortByCreated(s[1..]));
      InsertByCreatedMultiset(s[0], SortByCreated(s[1..]));
      assert s == [s[0]] + s[1..];
      forall c ensures CreatedAt(SortByCreated(s), c) == CreatedAt(s, c) {
        InsertByCreatedStable(s[0], SortByCreated(s[1..]), c);
        assert CreatedAt(s, c) == if s[0].createdAt == c then [s[0]] + CreatedAt(s[1..], c) else CreatedAt(s[1..], c);
      }
    }
  }

  /** The length is kept too. */
  lemma SortByCreatedLength(s: seq<Task>)
    ensures |SortByCreated(s)| == |s|
  {
    SortByCreatedCorrect(s);
    assert |multiset(SortByCreated(s))| == |multiset(s)|;
  }
}
