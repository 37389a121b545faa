/**
 * The three query shapes the services build with the ORM, over a table
 * held as a sequence of rows in storage order:
 * `select(T).where(p).first()`, `select(T).where(p).all()` and
 * `.offset(n).limit(k)`.
 */
module Query {
  import opened Base

  /** `select(T).where(p).first()`: the first row that satisfies `p`, or None. */
  function First<T>(rows: seq<T>, p: T -> bool): (r: Option<T>)
    ensures r.None? <==> forall i :: 0 <= i < |rows| ==> !p(rows[i])
    ensures r.Some? ==> r.value in rows && p(r.value)
  {
    if rows == [] then None
    else if p(rows[0]) then Some(rows[0])
    else First(rows[1..], p)
  }

  /** `select(T).where(p).all()`: every row that satisfies `p`, in storage order. */
  function Where<T>(rows: seq<T>, p: T -> bool): (r: seq<T>)
    ensures |r| <= |rows|
    ensures forall x :: x in r ==> x in rows && p(x)
    ensures forall x :: x in rows && p(x) ==> x in r
  {
    if rows == [] then []
    else if p(rows[0]) then [rows[0]] + Where(rows[1..], p)
    else Where(rows[1..], p)
  }

  /** `.offset(offset).limit(limit)`: at most `limit` rows, starting at position `offset`. */
  function Window<T>(s: seq<T>, offset: nat, limit: nat): (r: seq<T>)
    ensures |r| == (if offset >= |s| then 0 else if |s| - offset < limit then |s| - offset else limit)
    ensures forall k :: 0 <= k < |r| ==> r[k] == s[offset + k]
  {
    if offset >= |s| then []
    else if |s| - offset < limit then s[offset..]
    else s[offset..offset + limit]
  }

  /**
   * Primary keys grow with storage order, so no two rows share a key, and
   * all lie below `bound`, the key the next insert receives.
   */
  ghost predicate KeysIncreasing<T>(rows: seq<T>, key: T -> int, bound: int)
  {
    && (forall i, j :: 0 <= i < j < |rows| ==> key(rows[i]) < key(rows[j]))
    && (forall i :: 0 <= i < |rows| ==> key(rows[i]) < bound)
  }

  /** At most one row satisfies `p` (for instance, `p` matches one primary key and keys are unique). */
  ghost predicate AtMostOne<T>(rows: seq<T>, p: T -> bool)
  {
    forall i, j :: 0 <= i < |rows| && 0 <= j < |rows| && p(rows[i]) && p(rows[j]) ==> i == j
  }

  /** When exactly one row satisfies `p`, `.first()` returns that row. */
  lemma FirstOfUnique<T>(rows: seq<T>, p: T -> bool, x: T)
    requires x in rows && p(x) && AtMostOne(rows, p)
    ensures First(rows, p) == Some(x)
  {
    var y := First(rows, p).value;
    var i :| 0 <= i < |rows| && rows[i] == x;
    var j :| 0 <= j < |rows| && rows[j] == y;
    assert i == j;
  }

  /** Filtering a concatenation filters each part. */
  lemma {:induction false} WhereAppend<T>(a: seq<T>, b: seq<T>, p: T -> bool)
    ensures Where(a + b, p) == Where(a, p) + Where(b, p)
  {
    if a == [] {
      assert a + b == b;
    } else {
      assert (a + b)[0] == a[0] && (a + b)[1..] == a[1..] + b;
      WhereAppend(a[1..], b, p);
    }
  }

  /** A filter every row passes keeps the whole table. */
  lemma {:induction false} WhereAll<T>(rows: seq<T>, p: T -> bool)
    requires forall x :: x in rows ==> p(x)
    ensures Where(rows, p) == rows
  {
    if rows != [] {
      assert p(rows[0]);
      WhereAll(rows[1..], p);
    }
  }

  /** The rows before position `k` all pass, so filtering keeps them. */
  lemma WhereBefore<T>(rows: seq<T>, p: T -> bool, k: nat)
    requires k < |rows| && forall i :: 0 <= i < |rows| && i != k ==> p(rows[i])
    ensures Where(rows[..k], p) == rows[..k]
  {
    forall x | x in rows[..k] ensures p(x) {
      var i :| 0 <= i < k && rows[..k][i] == x;
      assert rows[i] == x;
    }
    WhereAll(rows[..k], p);
  }

  /** The rows after position `k` all pass, so filtering keeps them. */
  lemma WhereAfter<T>(rows: seq<T>, p: T -> bool, k: nat)
    requires k < |rows| && forall i :: 0 <= i < |rows| && i != k ==> p(rows[i])
    ensures Where(rows[k + 1..], p) == rows[k + 1..]
  {
    forall x | x in rows[k + 1..] ensures p(x) {
      var i :| 0 <= i < |rows| - k - 1 && rows[k + 1..][i] == x;
      assert rows[k + 1 + i] == x;
    }
    WhereAll(rows[k + 1..], p);
  }

  /** A filter that exactly one row fails drops exactly that row. */
  lemma WhereDropsOne<T>(rows: seq<T>, p: T -> bool, k: nat)
    requires k < |rows| && !p(rows[k])
    requires forall i :: 0 <= i < |rows| && i != k ==> p(rows[i])
    ensures Where(rows, p) == rows[..k] + rows[k + 1..]
  {
    var before, after := rows[..k], rows[k + 1..];
    assert rows == before + ([rows[k]] + after);
    WhereBefore(rows, p, k);
    WhereAfter(rows, p, k);
    WhereAppend(before, [rows[k]] + after, p);
    assert ([rows[k]] + after)[1..] == after;
  }

  /** Filtering keeps storage order, so keys stay increasing. */
  lemma {:induction false} WhereKeepsKeysIncreasing<T>(rows: seq<T>, key: T -> int, bound: int, p: T -> bool)
    requires KeysIncreasing(rows, key, bound)
    ensures KeysIncreasing(Where(rows, p), key, bound)
  {
    if rows != [] {
      var tail := rows[1..];
      assert KeysIncreasing(tail, key, bound) by {
        forall i, j | 0 <= i < j < |tail| ensures key(tail[i]) < key(tail[j]) {
          assert tail[i] == rows[i + 1] && tail[j] == rows[j + 1];
        }
        forall i | 0 <= i < |tail| ensures key(tail[i]) < bound {
          assert tail[i] == rows[i + 1];
        }
      }
      WhereKeepsKeysIncreasing(tail, key, bound, p);
      if p(rows[0]) {
        var rest := Where(tail, p);
        var r := [rows[0]] + rest;
        assert r == Where(rows, p);
        forall i, j | 0 <= i < j < |r| ensures key(r[i]) < key(r[j]) {
          if i == 0 {
            assert r[j] == rest[j - 1] && rest[j - 1] in tail;
            var k :| 0 <= k < |tail| && tail[k] == rest[j - 1];
            assert rows[k + 1] == r[j];
          } else {
            assert r[i] == rest[i - 1] && r[j] == rest[j - 1];
          }
        }
        forall i | 0 <= i < |r| ensures key(r[i]) < bound {
          if i > 0 {
            assert r[i] == rest[i - 1];
          }
        }
      }
    }
  }

  /** Two filters that agree on every row select the same rows. */
  lemma {:induction false} WhereSame<T>(rows: seq<T>, p: T -> bool, q: T -> bool)
    requires forall x :: x in rows ==> p(x) == q(x)
    ensures Where(rows, p) == Where(rows, q)
  {
    if rows != [] {
      assert p(rows[0]) == q(rows[0]);
      WhereSame(rows[1..], p, q);
    }
  }

  /** Filtering twice is filtering once by the conjunction of both filters. */
  lemma {:induction false} WhereTwice<T>(rows: seq<T>, p: T -> bool, q: T -> bool, both: T -> bool)
    requires forall x :: x in rows ==> both(x) == (p(x) && q(x))
    ensures Where(Where(rows, p), q) == Where(rows, both)
  {
    if rows != [] {
      assert both(rows[0]) == (p(rows[0]) && q(rows[0]));
      WhereTwice(rows[1..], p, q, both);
      if p(rows[0]) {
        assert ([rows[0]] + Where(rows[1..], p))[1..] == Where(rows[1..], p);
      }
    }
  }
}
