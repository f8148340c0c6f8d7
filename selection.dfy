/** Row selection: every query of the trace layer is a `select` with a condition followed by
    `fetchall`, which yields the rows of one table that satisfy the condition, in the table's scan
    order. This module defines that selection once and proves what it keeps. */
module Selection {

  /** The rows of `rows` that satisfy `p`, in their original order. */
  function Select<T(!new)>(rows: seq<T>, p: T -> bool): (r: seq<T>)
    ensures |r| <= |rows|
    ensures forall x :: x in r <==> x in rows && p(x)
    ensures IsSubsequence(r, rows)
  {
    if rows == [] then []
    else if p(rows[0]) then [rows[0]] + Select(rows[1..], p)
    else Select(rows[1..], p)
  }

  /** `a` is `b` with some elements left out: the elements of `a` occur in `b` in the same order. */
  ghost predicate IsSubsequence<T>(a: seq<T>, b: seq<T>)
    decreases |b|
  {
    if a == [] then true
    else if b == [] then false
    else if a[0] == b[0] then IsSubsequence(a[1..], b[1..])
    else IsSubsequence(a, b[1..])
  }

  /** Selecting from two tables placed one after the other selects from each in turn. */
  lemma {:induction false} SelectConcat<T(!new)>(a: seq<T>, b: seq<T>, p: T -> bool)
    ensures Select(a + b, p) == Select(a, p) + Select(b, p)
  {
    if a == [] {
      assert a + b == b;
    } else {
      assert (a + b)[0] == a[0] && (a + b)[1..] == a[1..] + b;
      SelectConcat(a[1..], b, p);
    }
  }

  /** `key` strictly increases along `s`; for a table keyed by `rowid` this is its scan order. */
  ghost predicate Ascending<T>(s: seq<T>, key: T -> int)
  {
    forall i, j :: 0 <= i < j < |s| ==> key(s[i]) < key(s[j])
  }

  /** Selection keeps the table order: a selection from an ascending table is ascending. */
  lemma {:induction false} SelectAscending<T(!new)>(rows: seq<T>, p: T -> bool, key: T -> int)
    ensures Ascending(rows, key) ==> Ascending(Select(rows, p), key)
  {
    if rows != [] && Ascending(rows, key) {
      var tail := rows[1..];
      assert Ascending(tail, key) by {
        forall i, j | 0 <= i < j < |tail| ensures key(tail[i]) < key(tail[j]) {
          assert tail[i] == rows[i + 1] && tail[j] == rows[j + 1];
        }
      }
      SelectAscending(tail, p, key);
      if p(rows[0]) {
        var rest := Select(tail, p);
        forall x | x in rest ensures key(rows[0]) < key(x) {
          var k :| 0 <= k < |tail| && tail[k] == x;
          assert x == rows[k + 1];
        }
        var r := [rows[0]] + rest;
        forall i, j | 0 <= i < j < |r| ensures key(r[i]) < key(r[j]) {
          if i == 0 {
            assert r[j] == rest[j - 1] && r[j] in rest;
          } else {
            assert r[i] == rest[i - 1] && r[j] == rest[j - 1];
          }
        }
      }
    }
  }

  /** Dropping the first element keeps a sequence ascending. */
  lemma AscendingTail<T>(s: seq<T>, key: T -> int)
    requires Ascending(s, key) && s != []
    ensures Ascending(s[1..], key)
  {
    forall i, j | 0 <= i < j < |s[1..]| ensures key(s[1..][i]) < key(s[1..][j]) {
      assert s[1..][i] == s[i + 1] && s[1..][j] == s[j + 1];
    }
  }

  /** In an ascending sequence, an element of the tail is not the head, so every member other than
      the head is a member of the tail. */
  lemma AscendingTailMembers<T>(s: seq<T>, key: T -> int)
    requires Ascending(s, key) && s != []
    ensures forall x :: x in s[1..] <==> x in s && x != s[0]
  {
    forall x | x in s[1..] ensures x != s[0] {
      var i :| 0 <= i < |s[1..]| && s[1..][i] == x;
      assert key(s[0]) < key(s[i + 1]);
    }
    forall x | x in s && x != s[0] ensures x in s[1..] {
      var i :| 0 <= i < |s| && s[i] == x;
      assert i != 0;
      assert s[1..][i - 1] == x;
    }
  }

  /** An ascending sequence is determined by its elements: two ascending sequences with the same
      members are equal. So "exactly these rows, in ascending order" pins a query result down. */
  lemma {:induction false} AscendingDetermined<T>(a: seq<T>, b: seq<T>, key: T -> int)
    requires Ascending(a, key) && Ascending(b, key)
    requires forall x :: x in a <==> x in b
    ensures a == b
  {
    if a != [] { assert a[0] in b; }
    if b != [] { assert b[0] in a; }
    if a != [] && b != [] {
      var m :| 0 <= m < |b| && b[m] == a[0];
      var n :| 0 <= n < |a| && a[n] == b[0];
      assert key(a[0]) <= key(a[n]) && key(b[0]) <= key(b[m]);
      assert n == 0;
      AscendingTail(a, key);
      AscendingTail(b, key);
      AscendingTailMembers(a, key);
      AscendingTailMembers(b, key);
      AscendingDetermined(a[1..], b[1..], key);
      assert a == [a[0]] + a[1..] && b == [b[0]] + b[1..];
    }
  }

  /** A sequence with no members is empty. */
  lemma NoMembersMeansEmpty<T>(s: seq<T>)
    ensures (forall x :: x !in s) ==> s == []
  {
    assert s == [] || s[0] in s;
  }

  /** The first `n` elements of an ascending sequence are its `n` least: any element left out has a
      larger key than every element kept. */
  lemma AscendingPrefixIsLeast<T>(s: seq<T>, key: T -> int, n: nat)
    requires n <= |s|
    ensures Ascending(s, key) ==> Ascending(s[..n], key)
    ensures Ascending(s, key) ==>
      forall x, y :: x in s && x !in s[..n] && y in s[..n] ==> key(y) < key(x)
  {
    if Ascending(s, key) {
      forall x, y | x in s && x !in s[..n] && y in s[..n] ensures key(y) < key(x) {
        var i :| 0 <= i < |s| && s[i] == x;
        var j :| 0 <= j < n && s[..n][j] == y;
        assert i >= n by {
          if i < n { assert false; }
        }
      }
    }
  }
}
