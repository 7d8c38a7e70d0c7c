/**
 * Relational algebra over in-memory tables: a table is a sequence of rows in
 * storage order. SELECT ... WHERE is `Filter`, DELETE ... WHERE is
 * `DeleteWhere`, UPDATE ... WHERE is `UpdateWhere`, `.first()` is `Find`,
 * LIMIT/OFFSET is `Window`, and the partial-update records sent by clients
 * are built from `Patch` fields.
 */
module Relational {

  datatype Option<T> = None | Some(value: T)

  /** The failures a service call reports: a missing row (HTTP 404), and a
      primary-key or unique constraint rejected at commit time. */
  datatype Error = NotFound | Conflict

  datatype Result<T> = Ok(value: T) | Err(error: Error)

  /** The result of a call that returns no row. */
  datatype Outcome = Done | Fail(error: Error)

  /** One field of a partial-update request: left unset by the client (and so
      excluded from the update), or set to a new value. */
  datatype Patch<T> = Unset | Set(value: T)

  /** The value a field has after the `setattr` loop has run over the set fields. */
  function Apply<T>(p: Patch<T>, current: T): T
  {
    match p
    case Unset => current
    case Set(v) => v
  }

  /** Applying the same partial update twice is the same as applying it once. */
  lemma ApplyIdempotent<T>(p: Patch<T>, current: T)
    ensures Apply(p, Apply(p, current)) == Apply(p, current)
  {
  }

  function Not<T>(p: T -> bool): T -> bool
  {
    x => !p(x)
  }

  /** SELECT * WHERE p, in storage order. */
  function Filter<T(!new)>(s: seq<T>, p: T -> bool): (r: seq<T>)
    ensures |r| <= |s|
    ensures forall x :: x in r <==> x in s && p(x)
  {
    if s == [] then []
    else (if p(s[0]) then [s[0]] else []) + Filter(s[1..], p)
  }

  lemma {:induction false} FilterAppend<T(!new)>(s: seq<T>, t: seq<T>, p: T -> bool)
    ensures Filter(s + t, p) == Filter(s, p) + Filter(t, p)
  {
    if s == [] {
      assert s + t == t;
    } else {
      assert (s + t)[1..] == s[1..] + t;
      FilterAppend(s[1..], t, p);
    }
  }

  /** Rows on which the two conditions agree are selected by both. */
  lemma {:induction false} FilterSameOn<T(!new)>(s: seq<T>, p: T -> bool, q: T -> bool)
    requires forall x :: x in s ==> p(x) == q(x)
    ensures Filter(s, p) == Filter(s, q)
  {
    if s != [] {
      assert forall x :: x in s[1..] ==> x in s;
      FilterSameOn(s[1..], p, q);
    }
  }

  /** DELETE WHERE p: the rows kept, in storage order. */
  function DeleteWhere<T(!new)>(s: seq<T>, p: T -> bool): (r: seq<T>)
    ensures |r| <= |s|
    ensures forall x :: x in r <==> x in s && !p(x)
  {
    Filter(s, Not(p))
  }

  /** UPDATE SET f WHERE p: every matching row is rewritten, every other row is kept. */
  function UpdateWhere<T>(s: seq<T>, p: T -> bool, f: T -> T): (r: seq<T>)
    ensures |r| == |s|
    ensures forall i :: 0 <= i < |s| ==> r[i] == if p(s[i]) then f(s[i]) else s[i]
  {
    seq(|s|, i requires 0 <= i < |s| => if p(s[i]) then f(s[i]) else s[i])
  }

  /** `.first()`: the index of the first row satisfying p, or -1 when there is none. */
  function Find<T>(s: seq<T>, p: T -> bool): (i: int)
    ensures -1 <= i < |s|
    ensures 0 <= i ==> p(s[i]) && forall j :: 0 <= j < i ==> !p(s[j])
    ensures i == -1 <==> forall x :: x in s ==> !p(x)
  {
    if s == [] then -1
    else if p(s[0]) then 0
    else
      var k := Find(s[1..], p);
      if k == -1 then -1 else k + 1
  }

  /** OFFSET offset LIMIT limit: SQL skips `offset` rows first, then keeps at most `limit`. */
  function Window<T>(s: seq<T>, offset: nat, limit: nat): (r: seq<T>)
    ensures |r| <= limit
    ensures |r| == if offset >= |s| then 0 else Min(limit, |s| - offset)
    ensures forall i :: 0 <= i < |r| ==> r[i] == s[offset + i]
  {
    if offset >= |s| then [] else s[offset..offset + Min(limit, |s| - offset)]
  }

  /** Consecutive pages read back to back give the longer page: paging by
      OFFSET/LIMIT loses and repeats no row. */
  lemma ConsecutivePages<T>(s: seq<T>, offset: nat, first: nat, second: nat)
    ensures Window(s, offset, first) + Window(s, offset + first, second) == Window(s, offset, first + second)
  {
    var a, b, c := Window(s, offset, first), Window(s, offset + first, second), Window(s, offset, first + second);
    assert |a + b| == |c|;
    forall i | 0 <= i < |c| ensures (a + b)[i] == c[i] {
      if i >= |a| {
        assert (a + b)[i] == b[i - |a|];
      }
    }
  }

  function Min(a: int, b: int): int
  {
    if a <= b then a else b
  }

  /** No two rows of s share a key: the primary-key or unique constraint on `key`. */
  ghost predicate UniqueBy<T, K>(s: seq<T>, key: T -> K)
  {
    forall i, j :: 0 <= i < j < |s| ==> key(s[i]) != key(s[j])
  }

  lemma {:induction false} FilterKeepsUnique<T(!new), K>(s: seq<T>, p: T -> bool, key: T -> K)
    requires UniqueBy(s, key)
    ensures UniqueBy(Filter(s, p), key)
  {
    if s != [] {
      var tail := s[1..];
      assert UniqueBy(tail, key) by {
        forall i, j | 0 <= i < j < |tail| ensures key(tail[i]) != key(tail[j]) {
          assert tail[i] == s[i + 1] && tail[j] == s[j + 1];
        }
      }
      FilterKeepsUnique(tail, p, key);
      var rest := Filter(tail, p);
      if p(s[0]) {
        var r := [s[0]] + rest;
        assert r == Filter(s, p);
        forall i, j | 0 <= i < j < |r| ensures key(r[i]) != key(r[j]) {
          if i == 0 {
            assert r[j] in tail;
            var k :| 0 <= k < |tail| && tail[k] == r[j];
            assert s[k + 1] == r[j];
          } else {
            assert r[i] == rest[i - 1] && r[j] == rest[j - 1];
          }
        }
      } else {
        assert rest == Filter(s, p);
      }
    }
  }

  lemma DeleteWhereKeepsUnique<T(!new), K>(s: seq<T>, p: T -> bool, key: T -> K)
    requires UniqueBy(s, key)
    ensures UniqueBy(DeleteWhere(s, p), key)
  {
    FilterKeepsUnique(s, Not(p), key);
  }

  /** Deleting by a condition that exactly one row meets removes exactly one row. */
  lemma {:induction false} DeleteWhereRemovesOne<T(!new)>(s: seq<T>, p: T -> bool, i: nat)
    requires i < |s| && p(s[i])
    requires forall j :: 0 <= j < |s| && j != i ==> !p(s[j])
    ensures |DeleteWhere(s, p)| == |s| - 1
    ensures DeleteWhere(s, p) == s[..i] + s[i + 1..]
  {
    if i == 0 {
      assert forall x :: x in s[1..] ==> Not(p)(x);
      FilterKeepsAll(s[1..], Not(p));
    } else {
      DeleteWhereRemovesOne(s[1..], p, i - 1);
      assert s[1..][..i - 1] == s[1..i];
      assert s[1..][i..] == s[i + 1..];
      assert s[..i] == [s[0]] + s[1..i];
    }
  }

  /** Under a unique key, a condition that pins the key of row i holds of no other row. */
  lemma OnlyMatch<T, K>(s: seq<T>, key: T -> K, p: T -> bool, i: nat)
    requires UniqueBy(s, key) && i < |s| && p(s[i])
    requires forall x :: p(x) ==> key(x) == key(s[i])
    ensures forall j :: 0 <= j < |s| && j != i ==> !p(s[j])
  {
    forall j | 0 <= j < |s| && j != i ensures !p(s[j]) {
      if j < i { assert key(s[j]) != key(s[i]); }
      else { assert key(s[i]) != key(s[j]); }
    }
  }

  /** Deleting by a unique key removes exactly the matched row. */
  lemma DeleteByKey<T(!new), K>(s: seq<T>, key: T -> K, p: T -> bool, i: nat)
    requires UniqueBy(s, key) && i < |s| && p(s[i])
    requires forall x :: p(x) ==> key(x) == key(s[i])
    ensures |DeleteWhere(s, p)| == |s| - 1
    ensures DeleteWhere(s, p) == s[..i] + s[i + 1..]
  {
    OnlyMatch(s, key, p, i);
    DeleteWhereRemovesOne(s, p, i);
  }

  /** Updating by a unique key rewrites exactly the matched row. */
  lemma UpdateByKey<T, K>(s: seq<T>, key: T -> K, p: T -> bool, f: T -> T, i: nat)
    requires UniqueBy(s, key) && i < |s| && p(s[i])
    requires forall x :: p(x) ==> key(x) == key(s[i])
    ensures UpdateWhere(s, p, f) == s[i := f(s[i])]
  {
    OnlyMatch(s, key, p, i);
  }

  /** Rewriting one row without changing its key keeps the key unique. */
  lemma ReplaceKeepsUnique<T, K>(s: seq<T>, key: T -> K, i: nat, x: T)
    requires UniqueBy(s, key) && i < |s| && key(x) == key(s[i])
    ensures UniqueBy(s[i := x], key)
  {
    var t := s[i := x];
    forall a, b | 0 <= a < b < |t| ensures key(t[a]) != key(t[b]) {
      assert key(t[a]) == key(s[a]) && key(t[b]) == key(s[b]);
    }
  }

  /** Appending a row whose key is new keeps the key unique. */
  lemma AppendKeepsUnique<T, K>(s: seq<T>, key: T -> K, x: T)
    requires UniqueBy(s, key)
    requires forall y :: y in s ==> key(y) != key(x)
    ensures UniqueBy(s + [x], key)
  {
    var t := s + [x];
    forall a, b | 0 <= a < b < |t| ensures key(t[a]) != key(t[b]) {
      assert t[a] == s[a] && s[a] in s;
      if b < |s| { assert t[b] == s[b]; }
    }
  }

  lemma {:induction false} FilterKeepsAll<T(!new)>(s: seq<T>, p: T -> bool)
    requires forall x :: x in s ==> p(x)
    ensures Filter(s, p) == s
  {
    if s != [] {
      assert forall x :: x in s[1..] ==> x in s;
      FilterKeepsAll(s[1..], p);
    }
  }

  /** A condition no row meets deletes nothing. */
  lemma DeleteWhereNone<T(!new)>(s: seq<T>, p: T -> bool)
    requires forall x :: x in s ==> !p(x)
    ensures DeleteWhere(s, p) == s
  {
    assert forall x :: x in s ==> Not(p)(x);
    FilterKeepsAll(s, Not(p));
  }
}
