/** The LINQ operators the modelled code is built from, over finite sequences. */
module Linq {
  import opened Wrappers

  /** Enumerable.Where: the elements satisfying p, in their original order. */
  function Filter<T(!new)>(s: seq<T>, p: T -> bool): (r: seq<T>)
    ensures |r| <= |s|
    ensures forall x :: x in r <==> x in s && p(x)
  {
    if s == [] then [] else (if p(s[0]) then [s[0]] else []) + Filter(s[1..], p)
  }

  /** r is s with some elements left out and the others in their original order. */
  predicate Subsequence<T(==)>(r: seq<T>, s: seq<T>)
    decreases |s|
  {
    if r == [] then true
    else if s == [] then false
    else if r[0] == s[0] then Subsequence(r[1..], s[1..])
    else Subsequence(r, s[1..])
  }

  /** Where keeps the order of its input. */
  lemma {:induction false} FilterIsSubsequence<T(!new)>(s: seq<T>, p: T -> bool)
    ensures Subsequence(Filter(s, p), s)
  {
    if s != [] {
      FilterIsSubsequence(s[1..], p);
      var rest := Filter(s[1..], p);
      if p(s[0]) {
        assert Filter(s, p) == [s[0]] + rest;
        assert ([s[0]] + rest)[1..] == rest;
      } else {
        assert Filter(s, p) == rest;
        if rest != [] {
          assert rest[0] in rest;
        }
      }
    }
  }

  lemma {:induction false} FilterConcat<T(!new)>(a: seq<T>, b: seq<T>, p: T -> bool)
    ensures Filter(a + b, p) == Filter(a, p) + Filter(b, p)
  {
    if a == [] {
      assert a + b == b;
    } else {
      assert (a + b)[0] == a[0];
      assert (a + b)[1..] == a[1..] + b;
      FilterConcat(a[1..], b, p);
    }
  }

  /** Two successive Where filters keep what their conjunction keeps. */
  lemma {:induction false} FilterFilter<T(!new)>(s: seq<T>, p: T -> bool, q: T -> bool)
    ensures Filter(Filter(s, p), q) == Filter(s, x => p(x) && q(x))
  {
    if s != [] {
      FilterFilter(s[1..], p, q);
      var head := if p(s[0]) then [s[0]] else [];
      FilterConcat(head, Filter(s[1..], p), q);
      if p(s[0]) {
        assert head[1..] == [];
      }
    }
  }

  /** Filters by two predicates that agree everywhere are equal. */
  lemma {:induction false} FilterSamePredicate<T(!new)>(s: seq<T>, p: T -> bool, q: T -> bool)
    requires forall x :: p(x) == q(x)
    ensures Filter(s, p) == Filter(s, q)
  {
    if s != [] {
      FilterSamePredicate(s[1..], p, q);
    }
  }

  /** Two successive filters are one filter by any predicate equivalent to their conjunction. */
  lemma {:induction false} FilterFilterInto<T(!new)>(s: seq<T>, p: T -> bool, q: T -> bool, r: T -> bool)
    requires forall x :: r(x) == (p(x) && q(x))
    ensures Filter(Filter(s, p), q) == Filter(s, r)
  {
    if s != [] {
      FilterFilterInto(s[1..], p, q, r);
      var head := if p(s[0]) then [s[0]] else [];
      FilterConcat(head, Filter(s[1..], p), q);
      if p(s[0]) {
        assert head[1..] == [];
      }
    }
  }

  /** No two elements of s share a key. */
  predicate KeysDistinct<T, K(==)>(s: seq<T>, key: T -> K)
  {
    forall i, j :: 0 <= i < j < |s| ==> key(s[i]) != key(s[j])
  }

  /** Filtering keeps keys distinct. */
  lemma {:induction false} FilterKeepsKeysDistinct<T(!new), K>(s: seq<T>, p: T -> bool, key: T -> K)
    requires KeysDistinct(s, key)
    ensures KeysDistinct(Filter(s, p), key)
  {
    if s != [] {
      assert KeysDistinct(s[1..], key) by {
        forall i, j | 0 <= i < j < |s| - 1 ensures key(s[1..][i]) != key(s[1..][j]) {
          assert s[1..][i] == s[i + 1] && s[1..][j] == s[j + 1];
        }
      }
      FilterKeepsKeysDistinct(s[1..], p, key);
      var rest := Filter(s[1..], p);
      if p(s[0]) {
        forall j | 0 <= j < |rest| ensures key(s[0]) != key(rest[j]) {
          assert rest[j] in s[1..];
          var k :| 0 <= k < |s| - 1 && s[1..][k] == rest[j];
          assert s[k + 1] == rest[j];
        }
        assert Filter(s, p) == [s[0]] + rest;
        forall i, j | 0 <= i < j < |Filter(s, p)| ensures key(Filter(s, p)[i]) != key(Filter(s, p)[j]) {
          assert Filter(s, p)[j] == rest[j - 1];
          if i > 0 { assert Filter(s, p)[i] == rest[i - 1]; }
        }
      }
    }
  }

  /** Keys stay distinct in a concatenation when no key of the first part occurs in the second. */
  lemma KeysDistinctConcat<T, K>(a: seq<T>, b: seq<T>, key: T -> K)
    requires KeysDistinct(a, key) && KeysDistinct(b, key)
    requires forall i, j :: 0 <= i < |a| && 0 <= j < |b| ==> key(a[i]) != key(b[j])
    ensures KeysDistinct(a + b, key)
  {
    forall i, j | 0 <= i < j < |a + b| ensures key((a + b)[i]) != key((a + b)[j]) {
      if j < |a| {
        assert (a + b)[i] == a[i] && (a + b)[j] == a[j];
      } else if i < |a| {
        assert (a + b)[i] == a[i] && (a + b)[j] == b[j - |a|];
      } else {
        assert (a + b)[i] == b[i - |a|] && (a + b)[j] == b[j - |a|];
      }
    }
  }

  /** A sequence with distinct keys holds at most one element of each key. */
  lemma AtMostOneWithKey<T, K>(s: seq<T>, key: T -> K, k: K)
    requires KeysDistinct(s, key)
    requires forall i :: 0 <= i < |s| ==> key(s[i]) == k
    ensures |s| <= 1
  {
    if |s| > 1 {
      DistinctKeysDiffer(s, key, 0, 1);
      assert false;
    }
  }

  /** Two positions of a sequence with distinct keys have different keys. */
  lemma DistinctKeysDiffer<T, K>(s: seq<T>, key: T -> K, i: nat, j: nat)
    requires KeysDistinct(s, key) && i < j < |s|
    ensures key(s[i]) != key(s[j])
  {
  }

  /** Filtering keeps every element exactly when every element satisfies the predicate. */
  lemma {:induction false} FilterKeepsAll<T(!new)>(s: seq<T>, p: T -> bool)
    ensures |Filter(s, p)| == |s| <==> forall i :: 0 <= i < |s| ==> p(s[i])
    ensures (forall i :: 0 <= i < |s| ==> p(s[i])) ==> Filter(s, p) == s
  {
    if s != [] {
      FilterKeepsAll(s[1..], p);
      var rest := s[1..];
      assert s == [s[0]] + rest;
      EveryCons(s, p);
      assert Every(s, p) <==> forall i :: 0 <= i < |s| ==> p(s[i]);
      assert Every(rest, p) <==> forall i :: 0 <= i < |rest| ==> p(rest[i]);
    }
  }

  /** A filter that rejects everything yields the empty sequence. */
  /** Filter over a two-element sequence, spelled out. */
  lemma FilterPair<T(!new)>(a: T, b: T, p: T -> bool)
    ensures Filter([a, b], p) == (if p(a) then [a] else []) + (if p(b) then [b] else [])
  {
    assert [a, b][1..] == [b];
    assert [b][1..] == [];
  }

  lemma FilterNone<T(!new)>(s: seq<T>, p: T -> bool)
    requires forall x :: x in s ==> !p(x)
    ensures Filter(s, p) == []
  {
  }

  /** Enumerable.Select. */
  function Select<A, B>(s: seq<A>, f: A -> B): (r: seq<B>)
    ensures |r| == |s|
    ensures forall i :: 0 <= i < |s| ==> r[i] == f(s[i])
  {
    seq(|s|, i requires 0 <= i < |s| => f(s[i]))
  }

  /** Enumerable.FirstOrDefault with null for the default of a reference type. */
  function FirstOrDefault<T>(s: seq<T>): Option<T>
  {
    if s == [] then None else Some(s[0])
  }

  /** The first element satisfying p, if any. */
  function FindFirst<T(!new)>(s: seq<T>, p: T -> bool): (r: Option<T>)
    ensures r.None? <==> forall x :: x in s ==> !p(x)
    ensures r.Some? ==> r.value in s && p(r.value)
  {
    if s == [] then None else if p(s[0]) then Some(s[0]) else FindFirst(s[1..], p)
  }

  /** FindFirst picks the element at the lowest index that satisfies p. */
  lemma {:induction false} FindFirstIsFirst<T(!new)>(s: seq<T>, p: T -> bool)
    requires FindFirst(s, p).Some?
    ensures exists i :: 0 <= i < |s| && s[i] == FindFirst(s, p).value && p(s[i]) &&
                        forall j :: 0 <= j < i ==> !p(s[j])
  {
    if !p(s[0]) {
      FindFirstIsFirst(s[1..], p);
      var i :| 0 <= i < |s| - 1 && s[1..][i] == FindFirst(s[1..], p).value && p(s[1..][i]) &&
                forall j :: 0 <= j < i ==> !p(s[1..][j]);
      assert s[i + 1] == s[1..][i];
      forall j | 0 <= j < i + 1 ensures !p(s[j]) {
        if j > 0 { assert s[j] == s[1..][j - 1]; }
      }
    } else {
      assert s[0] == FindFirst(s, p).value;
    }
  }

  /** Where(p).FirstOrDefault() is the first element satisfying p. */
  lemma {:induction false} FirstOfFilter<T(!new)>(s: seq<T>, p: T -> bool)
    ensures FirstOrDefault(Filter(s, p)) == FindFirst(s, p)
  {
    if s != [] && !p(s[0]) {
      FirstOfFilter(s[1..], p);
    }
  }

  /** Enumerable.SingleOrDefault: null for none, the element for one, InvalidOperationException for more. */
  function SingleOrDefault<T>(s: seq<T>): (r: Result<Option<T>>)
    ensures r.Err? <==> |s| > 1
    ensures r == Ok(None) <==> s == []
    ensures r.Ok? && r.value.Some? ==> s == [r.value.value]
  {
    if |s| == 0 then Ok(None) else if |s| == 1 then Ok(Some(s[0])) else Err(InvalidOperation)
  }

  /** Enumerable.Single: InvalidOperationException unless there is exactly one element. */
  function Single<T>(s: seq<T>): (r: Result<T>)
    ensures r.Ok? <==> |s| == 1
    ensures r.Ok? ==> s == [r.value]
    ensures r.Err? ==> r.error == InvalidOperation
  {
    if |s| == 1 then Ok(s[0]) else Err(InvalidOperation)
  }

  /** Enumerable.Any(predicate). */
  predicate Any<T>(s: seq<T>, p: T -> bool)
  {
    exists i :: 0 <= i < |s| && p(s[i])
  }

  predicate NoDuplicates<T(==)>(s: seq<T>)
  {
    forall i, j :: 0 <= i < j < |s| ==> s[i] != s[j]
  }

  /** Enumerable.Distinct: the first occurrence of every element, in order. */
  function Distinct<T(==,!new)>(s: seq<T>): (r: seq<T>)
    ensures forall x :: x in r <==> x in s
    ensures NoDuplicates(r)
  {
    if s == [] then []
    else
      var r := Distinct(s[..|s| - 1]);
      var last := s[|s| - 1];
      assert forall x :: x in s <==> x in s[..|s| - 1] || x == last by {
        assert s == s[..|s| - 1] + [last];
      }
      if last in r then r else r + [last]
  }

  /** Enumerable.Union: the distinct elements of a followed by those of b. */
  function Union<T(==,!new)>(a: seq<T>, b: seq<T>): (r: seq<T>)
    ensures forall x :: x in r <==> x in a || x in b
    ensures NoDuplicates(r)
  {
    Distinct(a + b)
  }

  /** String.StartsWith for an ASCII prefix. */
  predicate StartsWith(s: string, prefix: string)
  {
    |prefix| <= |s| && s[..|prefix|] == prefix
  }

  /** Every element of s satisfies p. */
  predicate Every<T>(s: seq<T>, p: T -> bool)
  {
    forall i :: 0 <= i < |s| ==> p(s[i])
  }

  lemma EveryCons<T>(s: seq<T>, p: T -> bool)
    requires s != []
    ensures Every(s, p) <==> p(s[0]) && Every(s[1..], p)
  {
    forall i | 0 <= i < |s| - 1 ensures s[1..][i] == s[i + 1] { }
  }

  lemma EveryConcat<T>(a: seq<T>, b: seq<T>, p: T -> bool)
    requires Every(a, p) && Every(b, p)
    ensures Every(a + b, p)
  {
    forall i | 0 <= i < |a + b| ensures p((a + b)[i]) {
      if i < |a| { assert (a + b)[i] == a[i]; } else { assert (a + b)[i] == b[i - |a|]; }
    }
  }

  lemma EveryMember<T>(s: seq<T>, p: T -> bool, x: T)
    requires Every(s, p) && x in s
    ensures p(x)
  {
    var i :| 0 <= i < |s| && s[i] == x;
  }
}

/** Enumerable.OrderBy with an integer key. */
module Ordering {
  /** The keys of s never decrease. */
  predicate SortedBy<T>(s: seq<T>, key: T -> int)
  {
    forall i, j :: 0 <= i < j < |s| ==> key(s[i]) <= key(s[j])
  }

  /** Inserts x into a sorted sequence before the first element whose key is not smaller. */
  function InsertBy<T>(x: T, s: seq<T>, key: T -> int): (r: seq<T>)
    requires SortedBy(s, key)
    ensures SortedBy(r, key)
    ensures multiset(r) == multiset(s) + multiset{x}
    ensures |r| == |s| + 1
  {
    if s == [] then [x]
    else if key(x) <= key(s[0]) then [x] + s
    else
      var rest := InsertBy(x, s[1..], key);
      assert s == [s[0]] + s[1..];
      BoundKept(key(s[0]), s[1..], x, rest, key);
      ConsSorted(s[0], rest, key);
      [s[0]] + rest
  }

  /** A lower bound of the keys of s and of x bounds the keys of any permutation of s with x. */
  lemma BoundKept<T>(lo: int, s: seq<T>, x: T, r: seq<T>, key: T -> int)
    requires forall k :: 0 <= k < |s| ==> lo <= key(s[k])
    requires lo <= key(x)
    requires multiset(r) == multiset(s) + multiset{x}
    ensures forall k :: 0 <= k < |r| ==> lo <= key(r[k])
  {
    forall k | 0 <= k < |r| ensures lo <= key(r[k]) {
      assert r[k] in multiset(r);
      if r[k] != x {
        assert r[k] in multiset(s);
        var j :| 0 <= j < |s| && s[j] == r[k];
      }
    }
  }

  /** A sorted sequence stays sorted under a head whose key bounds all of its keys. */
  lemma ConsSorted<T>(h: T, s: seq<T>, key: T -> int)
    requires SortedBy(s, key)
    requires forall k :: 0 <= k < |s| ==> key(h) <= key(s[k])
    ensures SortedBy([h] + s, key)
  {
    var r := [h] + s;
    forall i, j | 0 <= i < j < |r| ensures key(r[i]) <= key(r[j]) {
      assert r[j] == s[j - 1];
      if i > 0 { assert r[i] == s[i - 1]; }
    }
  }

  /** Enumerable.OrderBy with an integer key: sorted by key, a permutation of s. */
  function OrderBy<T>(s: seq<T>, key: T -> int): (r: seq<T>)
    ensures SortedBy(r, key)
    ensures multiset(r) == multiset(s)
    ensures |r| == |s|
  {
    if s == [] then []
    else
      assert s == [s[0]] + s[1..];
      InsertBy(s[0], OrderBy(s[1..], key), key)
  }
}
