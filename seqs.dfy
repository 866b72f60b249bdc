/**
 * Array operations the page builder is built from: `filter`, `find`,
 * `findIndex`, and the store's "replace the record with this id, or push it"
 * upsert, over records identified by a string id.
 */
module Seqs {
  import opened Wrappers

  /** `s.filter(keep)`. */
  function Filter<T>(s: seq<T>, keep: T -> bool): (r: seq<T>)
    ensures |r| <= |s|
    ensures forall i :: 0 <= i < |r| ==> keep(r[i])
  {
    if s == [] then []
    else if keep(s[0]) then [s[0]] + Filter(s[1..], keep)
    else Filter(s[1..], keep)
  }

  /** `a` is `b` with some elements dropped, the rest in their original order. */
  ghost predicate IsSubsequence<T>(a: seq<T>, b: seq<T>)
    decreases |b|
  {
    a == [] || (b != [] && ((a[0] == b[0] && IsSubsequence(a[1..], b[1..])) || IsSubsequence(a, b[1..])))
  }

  /** Filtering keeps every kept element as often as it occurs, and nothing else. */
  lemma {:induction false} FilterCount<T>(s: seq<T>, keep: T -> bool)
    ensures forall x :: multiset(Filter(s, keep))[x] == if keep(x) then multiset(s)[x] else 0
    ensures forall x :: x in Filter(s, keep) <==> x in s && keep(x)
  {
    if s != [] {
      FilterCount(s[1..], keep);
      assert s == [s[0]] + s[1..];
    }
  }

  /** Filtering preserves the relative order of what it keeps. */
  lemma {:induction false} FilterIsSubsequence<T>(s: seq<T>, keep: T -> bool)
    ensures IsSubsequence(Filter(s, keep), s)
  {
    if s != [] {
      FilterIsSubsequence(s[1..], keep);
      if keep(s[0]) {
        assert Filter(s, keep)[1..] == Filter(s[1..], keep);
      }
    }
  }

  /** Two predicates that agree on the elements select the same elements. */
  lemma {:induction false} FilterCongruent<T>(s: seq<T>, k1: T -> bool, k2: T -> bool)
    requires forall i :: 0 <= i < |s| ==> k1(s[i]) == k2(s[i])
    ensures Filter(s, k1) == Filter(s, k2)
  {
    if s != [] {
      FilterCongruent(s[1..], k1, k2);
    }
  }

  /** A filter that keeps every element is the identity. */
  lemma {:induction false} FilterKeepsAll<T>(s: seq<T>, keep: T -> bool)
    requires forall i :: 0 <= i < |s| ==> keep(s[i])
    ensures Filter(s, keep) == s
  {
    if s != [] {
      FilterKeepsAll(s[1..], keep);
    }
  }

  /** A filter that keeps no element yields nothing. */
  lemma {:induction false} FilterKeepsNone<T>(s: seq<T>, keep: T -> bool)
    requires forall i :: 0 <= i < |s| ==> !keep(s[i])
    ensures Filter(s, keep) == []
  {
    if s != [] {
      FilterKeepsNone(s[1..], keep);
    }
  }

  /** Filtering a concatenation filters each part. */
  lemma {:induction false} FilterAppend<T>(a: seq<T>, b: seq<T>, keep: T -> bool)
    ensures Filter(a + b, keep) == Filter(a, keep) + Filter(b, keep)
  {
    if a != [] {
      FilterAppend(a[1..], b, keep);
      assert (a + b)[1..] == a[1..] + b;
    } else {
      assert a + b == b;
    }
  }

  /** Filtering with a narrower predicate after a wider one is filtering with the narrower one. */
  lemma {:induction false} FilterNarrower<T>(s: seq<T>, wide: T -> bool, narrow: T -> bool)
    requires forall i :: 0 <= i < |s| && narrow(s[i]) ==> wide(s[i])
    ensures Filter(Filter(s, wide), narrow) == Filter(s, narrow)
  {
    if s != [] {
      FilterNarrower(s[1..], wide, narrow);
      if wide(s[0]) {
        assert Filter(s, wide) == [s[0]] + Filter(s[1..], wide);
        assert ([s[0]] + Filter(s[1..], wide))[1..] == Filter(s[1..], wide);
      }
    }
  }

  /** A kept last element stays last. */
  lemma {:induction false} FilterKeepsLast<T>(s: seq<T>, keep: T -> bool)
    requires s != [] && keep(s[|s| - 1])
    ensures Filter(s, keep) != [] && Filter(s, keep)[|Filter(s, keep)| - 1] == s[|s| - 1]
  {
    if |s| > 1 {
      FilterKeepsLast(s[1..], keep);
    }
  }

  /** `s.findIndex(matches)`: the first index whose element matches, or -1. */
  function IndexWhere<T>(s: seq<T>, matches: T -> bool): (r: int)
    ensures -1 <= r < |s|
    ensures r == -1 <==> forall k :: 0 <= k < |s| ==> !matches(s[k])
    ensures 0 <= r ==> matches(s[r]) && forall k :: 0 <= k < r ==> !matches(s[k])
  {
    if s == [] then -1
    else if matches(s[0]) then 0
    else
      var r := IndexWhere(s[1..], matches);
      if r < 0 then -1 else r + 1
  }

  /** Predicates that agree element by element find the same index. */
  lemma {:induction false} IndexWhereCongruent<T>(s: seq<T>, t: seq<T>, m1: T -> bool, m2: T -> bool)
    requires |s| == |t|
    requires forall k :: 0 <= k < |s| ==> m1(s[k]) == m2(t[k])
    ensures IndexWhere(s, m1) == IndexWhere(t, m2)
  {
    if s != [] {
      IndexWhereCongruent(s[1..], t[1..], m1, m2);
    }
  }

  /** `s.find(matches)`: the first matching element, if any. */
  function FindWhere<T>(s: seq<T>, matches: T -> bool): (r: Option<T>)
    ensures r.None? <==> forall k :: 0 <= k < |s| ==> !matches(s[k])
    ensures r.Some? ==> r.value in s && matches(r.value)
    ensures r.Some? ==> r.value == s[IndexWhere(s, matches)]
  {
    var i := IndexWhere(s, matches);
    if i < 0 then None else Some(s[i])
  }

  /** Some record of `s` carries `id`. */
  predicate HasId<T>(s: seq<T>, idOf: T -> string, id: string) {
    exists k :: 0 <= k < |s| && idOf(s[k]) == id
  }

  /** No two records of `s` share an id. */
  ghost predicate UniqueIds<T>(s: seq<T>, idOf: T -> string) {
    forall i, j :: 0 <= i < j < |s| ==> idOf(s[i]) != idOf(s[j])
  }

  /** `s.findIndex(x => x.id === id)`. */
  function IndexOfId<T>(s: seq<T>, idOf: T -> string, id: string): (r: int)
    ensures -1 <= r < |s|
    ensures r == -1 <==> !HasId(s, idOf, id)
    ensures 0 <= r ==> idOf(s[r]) == id && forall k :: 0 <= k < r ==> idOf(s[k]) != id
  {
    IndexWhere(s, (x: T) => idOf(x) == id)
  }

  /** `s.find(x => x.id === id) || null`. */
  function FindById<T>(s: seq<T>, idOf: T -> string, id: string): (r: Option<T>)
    ensures r.None? <==> !HasId(s, idOf, id)
    ensures r.Some? ==> r.value in s && idOf(r.value) == id
    ensures r.Some? ==> r.value == s[IndexOfId(s, idOf, id)]
  {
    FindWhere(s, (x: T) => idOf(x) == id)
  }

  /**
   * The store's save: when a record with `x`'s id exists, the first one is
   * overwritten in place by `stamped` (`x` with a fresh `updatedAt`);
   * otherwise `x` is pushed at the end.
   */
  function Upserted<T>(s: seq<T>, x: T, stamped: T, idOf: T -> string): (r: seq<T>)
    ensures |r| == if HasId(s, idOf, idOf(x)) then |s| else |s| + 1
    ensures forall k :: 0 <= k < |s| && k != IndexOfId(s, idOf, idOf(x)) ==> r[k] == s[k]
    ensures HasId(s, idOf, idOf(x)) ==> r[IndexOfId(s, idOf, idOf(x))] == stamped
    ensures !HasId(s, idOf, idOf(x)) ==> r[|s|] == x
  {
    var i := IndexOfId(s, idOf, idOf(x));
    if i >= 0 then s[i := stamped] else s + [x]
  }

  /** Saving then looking the id up finds the saved record. */
  lemma {:induction false} FindAfterUpsert<T>(s: seq<T>, x: T, stamped: T, idOf: T -> string)
    requires idOf(stamped) == idOf(x)
    ensures FindById(Upserted(s, x, stamped, idOf), idOf, idOf(x))
            == Some(if HasId(s, idOf, idOf(x)) then stamped else x)
  {
    var r := Upserted(s, x, stamped, idOf);
    var i := IndexOfId(s, idOf, idOf(x));
    if i >= 0 {
      assert IndexOfId(r, idOf, idOf(x)) == i by {
        assert idOf(r[i]) == idOf(x);
        assert forall k :: 0 <= k < i ==> r[k] == s[k];
      }
    } else {
      assert idOf(r[|s|]) == idOf(x);
      assert IndexOfId(r, idOf, idOf(x)) == |s| by {
        assert forall k :: 0 <= k < |s| ==> r[k] == s[k];
      }
    }
  }

  /** Saving a record leaves the lookup of every other id unchanged. */
  lemma {:induction false} UpsertKeepsOtherLookups<T>(s: seq<T>, x: T, stamped: T, idOf: T -> string, id: string)
    requires idOf(stamped) == idOf(x) && id != idOf(x)
    ensures FindById(Upserted(s, x, stamped, idOf), idOf, id) == FindById(s, idOf, id)
  {
    var r := Upserted(s, x, stamped, idOf);
    var i := IndexOfId(s, idOf, idOf(x));
    assert forall k :: 0 <= k < |s| ==> idOf(r[k]) == idOf(s[k]);
    var j := IndexOfId(s, idOf, id);
    if j >= 0 {
      assert idOf(r[j]) == id;
      assert IndexOfId(r, idOf, id) == j;
    } else {
      assert !HasId(r, idOf, id) by {
        if |r| > |s| { assert idOf(r[|s|]) == idOf(x); }
      }
    }
  }

  /** Saving keeps the ids of the collection distinct. */
  lemma {:induction false} UpsertKeepsIdsUnique<T>(s: seq<T>, x: T, stamped: T, idOf: T -> string)
    requires idOf(stamped) == idOf(x)
    requires UniqueIds(s, idOf)
    ensures UniqueIds(Upserted(s, x, stamped, idOf), idOf)
  {
    var r := Upserted(s, x, stamped, idOf);
    assert forall k :: 0 <= k < |s| ==> idOf(r[k]) == idOf(s[k]);
    if !HasId(s, idOf, idOf(x)) {
      assert idOf(r[|s|]) == idOf(x);
    }
  }

  /** `s.filter(x => x.id !== id)`: the store's delete. */
  function WithoutId<T>(s: seq<T>, idOf: T -> string, id: string): (r: seq<T>)
    ensures !HasId(r, idOf, id)
  {
    Filter(s, (x: T) => idOf(x) != id)
  }

  /** Deleting keeps every record with another id, in order, and nothing else. */
  lemma DeleteKeepsOthers<T>(s: seq<T>, idOf: T -> string, id: string)
    ensures forall x :: multiset(WithoutId(s, idOf, id))[x] == if idOf(x) != id then multiset(s)[x] else 0
    ensures IsSubsequence(WithoutId(s, idOf, id), s)
  {
    FilterCount(s, (x: T) => idOf(x) != id);
    FilterIsSubsequence(s, (x: T) => idOf(x) != id);
  }

  /** Deleting one id leaves the lookup of every other id unchanged. */
  lemma {:induction false} DeleteKeepsOtherLookups<T>(s: seq<T>, idOf: T -> string, id: string, other: string)
    requires other != id
    ensures FindById(WithoutId(s, idOf, id), idOf, other) == FindById(s, idOf, other)
  {
    if s != [] {
      DeleteKeepsOtherLookups(s[1..], idOf, id, other);
      var r := WithoutId(s, idOf, id);
      var keep := (x: T) => idOf(x) != id;
      if idOf(s[0]) == other {
        assert r[0] == s[0];
      } else if keep(s[0]) {
        assert r == [s[0]] + WithoutId(s[1..], idOf, id);
        assert IndexOfId(s, idOf, other) == (if IndexOfId(s[1..], idOf, other) < 0 then -1 else IndexOfId(s[1..], idOf, other) + 1);
        assert IndexOfId(r, idOf, other) == (if IndexOfId(r[1..], idOf, other) < 0 then -1 else IndexOfId(r[1..], idOf, other) + 1);
      } else {
        assert IndexOfId(s, idOf, other) == (if IndexOfId(s[1..], idOf, other) < 0 then -1 else IndexOfId(s[1..], idOf, other) + 1);
      }
    }
  }
}
