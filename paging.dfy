/** The pagination arithmetic of the two listing handlers, and the
    order-preserving selection that stands for a filtered query. */
module Paging {
  import opened Values

  /** `.skip((page - 1) * limit)`: never negative from the first page on
      under a non-negative limit. */
  function Skip(page: int, limit: int): (s: int)
    ensures page >= 1 && limit >= 0 ==> s >= 0
  {
    if page >= 1 && limit >= 0 then
      MulLe(0, page - 1, limit);
      (page - 1) * limit
    else
      (page - 1) * limit
  }

  /** With a positive limit the skip is negative exactly for pages below one. */
  lemma SkipSign(page: int, limit: int)
    requires limit >= 1
    ensures Skip(page, limit) < 0 <==> page < 1
  {
    if page >= 1 {
      MulLe(0, page - 1, limit);
    } else {
      assert (page - 1) * limit == -((1 - page) * limit);
      MulLe(1, 1 - page, limit);
    }
  }

  /** `Math.ceil(total / limit)` for a positive limit: the least number of
      pages of `limit` items that hold `total` items. */
  function PageCount(total: nat, limit: int): (pages: nat)
    requires limit >= 1
    ensures pages * limit >= total
    ensures total > 0 ==> (pages - 1) * limit < total
    ensures total == 0 ==> pages == 0
  {
    (total + limit - 1) / limit
  }

  /** `Math.ceil(total / limit)` for any integer limit. Division by zero
      gives a value that is not a finite number (`None`); otherwise the
      integer `c` with `c - 1 < total / limit <= c`. */
  function CeilDiv(total: nat, limit: int): (c: Option<int>)
    ensures c.None? <==> limit == 0
    ensures limit > 0 ==> (c.value - 1) * limit < total <= c.value * limit
    ensures limit < 0 ==> c.value * limit <= total < (c.value - 1) * limit
  {
    if limit == 0 then None
    else if limit > 0 then Some(PageCount(total, limit))
    else
      var q := total / -limit;
      assert q * -limit <= total < (q + 1) * -limit;
      Some(-q)
  }

  /** How many documents `.limit(limit)` lets through: zero means no limit,
      a negative limit is taken by its absolute value. */
  function Take(limit: int, available: nat): (n: nat)
    ensures limit == 0 ==> n == available
    ensures limit != 0 ==> n > 0 && (n == limit || n == -limit)
  {
    if limit == 0 then available else if limit > 0 then limit else -limit
  }

  /** The skip is negative exactly when the page is below one under a
      positive limit, or above one under a negative limit. */
  lemma SkipNegative(page: int, limit: int)
    ensures Skip(page, limit) < 0 <==> (page < 1 && limit > 0) || (page > 1 && limit < 0)
  {
    if limit > 0 {
      SkipSign(page, limit);
    } else if limit < 0 {
      SkipSign(2 - page, -limit);
      assert Skip(2 - page, -limit) == Skip(page, limit);
    }
  }

  function Min(a: int, b: int): int {
    if a <= b then a else b
  }

  /** `.skip(skip).limit(limit)` on a result list: at most `limit` items,
      the ones from position `skip` on. */
  function Window<T>(s: seq<T>, skip: nat, limit: nat): (r: seq<T>)
    ensures |r| == if skip >= |s| then 0 else Min(limit, |s| - skip)
    ensures |r| <= limit
    ensures forall k :: 0 <= k < |r| ==> r[k] == s[skip + k]
  {
    if skip >= |s| then [] else s[skip..skip + Min(limit, |s| - skip)]
  }

  /** For a page number of at least one, the page has items exactly when
      its number does not exceed the page count. */
  lemma PageHasItems(total: nat, page: int, limit: int)
    requires limit >= 1 && page >= 1
    ensures Skip(page, limit) < total <==> page <= PageCount(total, limit)
  {
    var pages := PageCount(total, limit);
    if page <= pages {
      MulLe(page - 1, pages - 1, limit);
    } else {
      MulLe(pages, page - 1, limit);
    }
  }

  lemma MulLe(a: int, b: int, c: int)
    requires 0 <= a <= b && c >= 0
    ensures a * c <= b * c
  {}

  /** The elements of `s` that satisfy `keep`, in the order of `s`. */
  function Filter<T(!new)>(s: seq<T>, keep: T -> bool): (r: seq<T>)
    ensures |r| <= |s|
    ensures forall x :: x in r <==> x in s && keep(x)
  {
    if s == [] then []
    else (if keep(s[0]) then [s[0]] else []) + Filter(s[1..], keep)
  }

  /** Filtering keeps the relative order: the selection from a
      concatenation is the selection from the front followed by the
      selection from the back. */
  lemma {:induction false} FilterAppend<T(!new)>(a: seq<T>, b: seq<T>, keep: T -> bool)
    ensures Filter(a + b, keep) == Filter(a, keep) + Filter(b, keep)
  {
    if a == [] {
      assert a + b == b;
    } else {
      assert (a + b)[1..] == a[1..] + b;
      FilterAppend(a[1..], b, keep);
    }
  }

  /** An element kept by the selection comes from a position of the input
      and keeps its place relative to every other kept element. */
  lemma {:induction false} FilterOrder<T(!new)>(s: seq<T>, keep: T -> bool, i: int, j: int)
    requires 0 <= i < j < |s| && keep(s[i]) && keep(s[j])
    ensures exists p, q :: 0 <= p < q < |Filter(s, keep)| && Filter(s, keep)[p] == s[i] && Filter(s, keep)[q] == s[j]
  {
    var a, b, c := s[..i], s[i + 1..j], s[j + 1..];
    assert s == a + ([s[i]] + (b + ([s[j]] + c)));
    FilterAppend(a, [s[i]] + (b + ([s[j]] + c)), keep);
    FilterAppend([s[i]], b + ([s[j]] + c), keep);
    FilterAppend(b, [s[j]] + c, keep);
    FilterAppend([s[j]], c, keep);
    FilterKept(s[i], keep);
    FilterKept(s[j], keep);
    var fa, fb, fc := Filter(a, keep), Filter(b, keep), Filter(c, keep);
    assert Filter(s, keep) == fa + ([s[i]] + (fb + ([s[j]] + fc)));
    assert Filter(s, keep)[|fa|] == s[i];
    assert Filter(s, keep)[|fa| + 1 + |fb|] == s[j];
  }

  /** No element occurs twice. */
  predicate Distinct<T(==)>(s: seq<T>) {
    forall i, j :: 0 <= i < j < |s| ==> s[i] != s[j]
  }

  /** A selection from an input without repeats has no repeats. */
  lemma {:induction false} FilterDistinct<T(!new)>(s: seq<T>, keep: T -> bool)
    requires Distinct(s)
    ensures Distinct(Filter(s, keep))
  {
    if s != [] {
      var rest := s[1..];
      assert Distinct(rest) by {
        forall i, j | 0 <= i < j < |rest| ensures rest[i] != rest[j] {
          assert rest[i] == s[i + 1] && rest[j] == s[j + 1];
        }
      }
      FilterDistinct(rest, keep);
      assert s[0] !in rest by {
        forall k | 0 <= k < |rest| ensures rest[k] != s[0] {
          assert rest[k] == s[k + 1];
        }
      }
      var f, r := Filter(rest, keep), Filter(s, keep);
      if keep(s[0]) {
        assert r == [s[0]] + f && s[0] !in f;
        forall i, j | 0 <= i < j < |r| ensures r[i] != r[j] {
          assert r[j] == f[j - 1];
          if i > 0 {
            assert r[i] == f[i - 1];
          }
        }
      } else {
        assert r == f;
      }
    }
  }

  /** A sequence without repeats has as many elements as its set. */
  lemma {:induction false} DistinctCardinality<T>(s: seq<T>)
    requires Distinct(s)
    ensures |set x | x in s| == |s|
  {
    if s != [] {
      var rest := s[1..];
      assert Distinct(rest) by {
        forall i, j | 0 <= i < j < |rest| ensures rest[i] != rest[j] {
          assert rest[i] == s[i + 1] && rest[j] == s[j + 1];
        }
      }
      DistinctCardinality(rest);
      assert s[0] !in rest by {
        forall k | 0 <= k < |rest| ensures rest[k] != s[0] {
          assert rest[k] == s[k + 1];
        }
      }
      assert (set x | x in s) == {s[0]} + (set x | x in rest) by {
        assert s == [s[0]] + rest;
      }
    }
  }

  /** A one-element input whose element is kept is its own selection. */
  lemma FilterKept<T(!new)>(x: T, keep: T -> bool)
    requires keep(x)
    ensures Filter([x], keep) == [x]
  {
    assert [x][1..] == [];
  }
}
