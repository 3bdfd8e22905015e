/** Sequence operations the pages build their queries from: `Array.filter`,
    `Array.slice(0, n)`, removal by index, and the stable `Array.sort` with an
    integer-difference comparator (modelled as a stable insertion sort by an
    integer key; a descending sort is an ascending sort by the negated key). */
module Seqs {

  /** `a` is `b` with some elements dropped and the rest kept in order. */
  predicate SubsequenceOf<T(==)>(a: seq<T>, b: seq<T>)
    decreases |b|
  {
    if a == [] then true
    else if b == [] then false
    else (a[0] == b[0] && SubsequenceOf(a[1..], b[1..])) || SubsequenceOf(a, b[1..])
  }

  lemma {:induction false} SubsequenceOfSelf<T>(s: seq<T>)
    ensures SubsequenceOf(s, s)
    decreases |s|
  {
    if s != [] {
      SubsequenceOfSelf(s[1..]);
    }
  }

  /** `Array.prototype.filter`: the elements satisfying `p`, in order. */
  function Filter<T(!new)>(s: seq<T>, p: T -> bool): (r: seq<T>)
    ensures |r| <= |s|
    ensures forall x :: multiset(r)[x] == if p(x) then multiset(s)[x] else 0
    ensures forall i :: 0 <= i < |r| ==> p(r[i])
    decreases |s|
  {
    if s == [] then []
    else
      var rest := Filter(s[1..], p);
      assert multiset(s) == multiset{s[0]} + multiset(s[1..]) by {
        assert s == [s[0]] + s[1..];
      }
      if p(s[0]) then [s[0]] + rest else rest
  }

  /** A filter that rejects nothing returns its input. */
  lemma {:induction false} FilterKeepsAll<T(!new)>(s: seq<T>, p: T -> bool)
    ensures (forall i :: 0 <= i < |s| ==> p(s[i])) ==> Filter(s, p) == s
    decreases |s|
  {
    if s != [] && forall i :: 0 <= i < |s| ==> p(s[i]) {
      var tail := s[1..];
      assert forall i :: 0 <= i < |tail| ==> p(tail[i]) by {
        forall i | 0 <= i < |tail|
          ensures p(tail[i])
        {
          assert tail[i] == s[i + 1];
        }
      }
      FilterKeepsAll(tail, p);
      assert p(s[0]);
      assert Filter(s, p) == [s[0]] + Filter(tail, p);
      assert [s[0]] + tail == s;
    }
  }

  /** What survives a filter: exactly the elements of `s` satisfying `p`. */
  lemma FilterMembers<T(!new)>(s: seq<T>, p: T -> bool)
    ensures forall x :: x in Filter(s, p) <==> x in s && p(x)
  {
    forall x
      ensures x in Filter(s, p) <==> x in s && p(x)
    {
      assert x in Filter(s, p) <==> multiset(Filter(s, p))[x] > 0;
      assert x in s <==> multiset(s)[x] > 0;
    }
  }

  /** A filter keeps the surviving elements in their original order. */
  lemma {:induction false} FilterIsSubsequence<T(!new)>(s: seq<T>, p: T -> bool)
    ensures SubsequenceOf(Filter(s, p), s)
    decreases |s|
  {
    if s != [] {
      FilterIsSubsequence(s[1..], p);
      var rest := Filter(s[1..], p);
      if p(s[0]) {
        assert ([s[0]] + rest)[1..] == rest;
      }
    }
  }

  lemma {:induction false} FilterAppend<T(!new)>(a: seq<T>, b: seq<T>, p: T -> bool)
    ensures Filter(a + b, p) == Filter(a, p) + Filter(b, p)
    decreases |a|
  {
    if a == [] {
      assert a + b == b;
    } else {
      var ab := a + b;
      assert ab[0] == a[0] && ab[1..] == a[1..] + b;
      FilterAppend(a[1..], b, p);
      var head: seq<T> := if p(a[0]) then [a[0]] else [];
      ConcatAssoc(head, Filter(a[1..], p), Filter(b, p));
    }
  }

  lemma ConcatAssoc<T>(x: seq<T>, y: seq<T>, z: seq<T>)
    ensures x + (y + z) == (x + y) + z
  {
  }

  /** Appending two filtered batches in turn appends the filter of both. */
  lemma FilterInBatches<T(!new)>(s: seq<T>, x: seq<T>, y: seq<T>, p: T -> bool)
    ensures (s + Filter(x, p)) + Filter(y, p) == s + Filter(x + y, p)
  {
    FilterAppend(x, y, p);
    ConcatAssoc(s, Filter(x, p), Filter(y, p));
  }

  /** Filtering by `p` and then by `q` is filtering by their conjunction `pq`. */
  lemma {:induction false} FilterFilter<T(!new)>(s: seq<T>, p: T -> bool, q: T -> bool, pq: T -> bool)
    requires forall x :: pq(x) == (p(x) && q(x))
    ensures Filter(Filter(s, p), q) == Filter(s, pq)
    decreases |s|
  {
    if s != [] {
      FilterFilter(s[1..], p, q, pq);
    }
  }

  /** A filter that keeps nothing of `s` yields the empty sequence. */
  lemma FilterNone<T(!new)>(s: seq<T>, p: T -> bool)
    requires forall k :: 0 <= k < |s| ==> !p(s[k])
    ensures Filter(s, p) == []
  {
    var r := Filter(s, p);
    if r != [] {
      assert false;
    }
  }

  /** Filters by predicates that agree everywhere agree. */
  lemma {:induction false} FilterExt<T(!new)>(s: seq<T>, p: T -> bool, q: T -> bool)
    requires forall x :: p(x) == q(x)
    ensures Filter(s, p) == Filter(s, q)
    decreases |s|
  {
    if s != [] {
      FilterExt(s[1..], p, q);
    }
  }

  /** `Array.filter(p).length`: how many elements satisfy `p`. */
  function Count<T>(s: seq<T>, p: T -> bool): (n: nat)
    ensures n <= |s|
    ensures n == |s| <==> forall i :: 0 <= i < |s| ==> p(s[i])
    ensures n == 0 <==> forall i :: 0 <= i < |s| ==> !p(s[i])
    decreases |s|
  {
    if s == [] then 0
    else (if p(s[0]) then 1 else 0) + Count(s[1..], p)
  }

  lemma {:induction false} CountIsFilterLength<T(!new)>(s: seq<T>, p: T -> bool)
    ensures Count(s, p) == |Filter(s, p)|
    decreases |s|
  {
    if s != [] {
      CountIsFilterLength(s[1..], p);
    }
  }

  /** Two predicates that never hold together count at most |s| between them. */
  lemma {:induction false} CountDisjoint<T>(s: seq<T>, p: T -> bool, q: T -> bool)
    requires forall i :: 0 <= i < |s| ==> !(p(s[i]) && q(s[i]))
    ensures Count(s, p) + Count(s, q) <= |s|
    decreases |s|
  {
    if s != [] {
      CountDisjoint(s[1..], p, q);
    }
  }

  /** `Array.prototype.slice(0, n)`. */
  function Take<T>(s: seq<T>, n: nat): (r: seq<T>)
    ensures |r| == if n < |s| then n else |s|
    ensures forall i :: 0 <= i < |r| ==> r[i] == s[i]
    ensures r == s[..|r|]
    ensures multiset(r) <= multiset(s)
  {
    if n < |s| then
      assert s == s[..n] + s[n..];
      s[..n]
    else s
  }

  /** `s.filter((_, i) => i !== index)`: drops the element at `index`, if any. */
  function RemoveAt<T>(s: seq<T>, index: int): (r: seq<T>)
    ensures 0 <= index < |s| ==> |r| == |s| - 1
    ensures 0 <= index < |s| ==> forall i :: 0 <= i < index ==> r[i] == s[i]
    ensures 0 <= index < |s| ==> forall i :: index <= i < |r| ==> r[i] == s[i + 1]
    ensures !(0 <= index < |s|) ==> r == s
  {
    if 0 <= index < |s| then s[..index] + s[index + 1..] else s
  }

  // ---------------------------------------------------------------------
  // Stable sort by an integer key

  ghost predicate SortedBy<T>(s: seq<T>, key: T -> int)
  {
    forall i, j :: 0 <= i < j < |s| ==> key(s[i]) <= key(s[j])
  }

  /** The elements whose key is `v`, in order: a sort is stable exactly when
      it keeps every such class unchanged. */
  function KeyClass<T>(s: seq<T>, key: T -> int, v: int): seq<T>
    decreases |s|
  {
    if s == [] then []
    else (if key(s[0]) == v then [s[0]] else []) + KeyClass(s[1..], key, v)
  }

  /** Places `x` before the first element whose key is not smaller. */
  function Insert<T>(x: T, t: seq<T>, key: T -> int): (r: seq<T>)
    ensures multiset(r) == multiset(t) + multiset{x}
    decreases |t|
  {
    if t == [] then [x]
    else if key(x) <= key(t[0]) then [x] + t
    else
      assert t == [t[0]] + t[1..];
      [t[0]] + Insert(x, t[1..], key)
  }

  /** A lower bound on the keys of `t` and of `x` bounds the keys after insertion. */
  lemma {:induction false} InsertLowerBound<T>(x: T, t: seq<T>, key: T -> int, b: int)
    requires key(x) >= b && forall k :: 0 <= k < |t| ==> key(t[k]) >= b
    ensures forall k :: 0 <= k < |Insert(x, t, key)| ==> key(Insert(x, t, key)[k]) >= b
    decreases |t|
  {
    if t != [] && key(x) > key(t[0]) {
      var tail := t[1..];
      assert forall k :: 0 <= k < |tail| ==> tail[k] == t[k + 1];
      InsertLowerBound(x, tail, key, b);
      assert Insert(x, t, key) == [t[0]] + Insert(x, tail, key);
    }
  }

  /** Inserting into a sorted sequence keeps it sorted. */
  lemma {:induction false} InsertSorted<T>(x: T, t: seq<T>, key: T -> int)
    requires SortedBy(t, key)
    ensures SortedBy(Insert(x, t, key), key)
    decreases |t|
  {
    if t != [] && key(x) > key(t[0]) {
      var tail := t[1..];
      assert forall k :: 0 <= k < |tail| ==> tail[k] == t[k + 1];
      var rest := Insert(x, tail, key);
      InsertSorted(x, tail, key);
      InsertLowerBound(x, tail, key, key(t[0]));
      assert Insert(x, t, key) == [t[0]] + rest;
    }
  }

  /** `Array.prototype.sort` with comparator `(a, b) => key(a) - key(b)`. */
  function SortBy<T>(s: seq<T>, key: T -> int): (r: seq<T>)
    ensures multiset(r) == multiset(s)
    ensures |r| == |s|
    ensures SortedBy(r, key)
    decreases |s|
  {
    if s == [] then []
    else
      assert s == [s[0]] + s[1..];
      var sorted := SortBy(s[1..], key);
      InsertSorted(s[0], sorted, key);
      Insert(s[0], sorted, key)
  }

  /** Sorting keeps every property that holds of each element. */
  lemma SortByKeeps<T>(s: seq<T>, key: T -> int, p: T -> bool)
    requires forall k :: 0 <= k < |s| ==> p(s[k])
    ensures forall k :: 0 <= k < |SortBy(s, key)| ==> p(SortBy(s, key)[k]) && SortBy(s, key)[k] in s
  {
    var r := SortBy(s, key);
    forall k | 0 <= k < |r|
      ensures p(r[k]) && r[k] in s
    {
      assert r[k] in multiset(r);
      assert r[k] in multiset(s);
    }
  }

  lemma KeyClassCons<T>(x: T, t: seq<T>, key: T -> int, v: int)
    ensures KeyClass([x] + t, key, v) == (if key(x) == v then [x] else []) + KeyClass(t, key, v)
  {
    assert ([x] + t)[1..] == t;
  }

  /** A filter that keeps every element with key `v` keeps that key's class
      as it was. */
  lemma {:induction false} KeyClassFilterKeeps<T(!new)>(s: seq<T>, p: T -> bool, key: T -> int, v: int)
    requires forall k :: 0 <= k < |s| && key(s[k]) == v ==> p(s[k])
    ensures KeyClass(Filter(s, p), key, v) == KeyClass(s, key, v)
    decreases |s|
  {
    if s != [] {
      var tail := s[1..];
      assert forall k :: 0 <= k < |tail| ==> tail[k] == s[k + 1];
      KeyClassFilterKeeps(tail, p, key, v);
      var rest := Filter(tail, p);
      assert KeyClass(s, key, v) == (if key(s[0]) == v then [s[0]] else []) + KeyClass(tail, key, v);
      if p(s[0]) {
        assert Filter(s, p) == [s[0]] + rest;
        KeyClassCons(s[0], rest, key, v);
      } else {
        assert Filter(s, p) == rest;
      }
    }
  }

  /** A filter that drops every element with key `v` leaves that key's
      class empty. */
  lemma {:induction false} KeyClassFilterDrops<T(!new)>(s: seq<T>, p: T -> bool, key: T -> int, v: int)
    requires forall k :: 0 <= k < |s| && key(s[k]) == v ==> !p(s[k])
    ensures KeyClass(Filter(s, p), key, v) == []
    decreases |s|
  {
    if s != [] {
      var tail := s[1..];
      assert forall k :: 0 <= k < |tail| ==> tail[k] == s[k + 1];
      KeyClassFilterDrops(tail, p, key, v);
      var rest := Filter(tail, p);
      if p(s[0]) {
        assert Filter(s, p) == [s[0]] + rest;
        KeyClassCons(s[0], rest, key, v);
      } else {
        assert Filter(s, p) == rest;
      }
    }
  }

  /** Two prefixes commute when one of them is empty. */
  lemma SwapEmptyPrefix<T>(a: seq<T>, b: seq<T>, c: seq<T>)
    requires a == [] || b == []
    ensures a + (b + c) == b + (a + c)
  {
    if a == [] {
      assert a + (b + c) == b + c && a + c == c;
    } else {
      assert b + (a + c) == a + c && b + c == c;
    }
  }

  lemma {:induction false} KeyClassInsert<T>(x: T, t: seq<T>, key: T -> int, v: int)
    ensures KeyClass(Insert(x, t, key), key, v)
         == (if key(x) == v then [x] else []) + KeyClass(t, key, v)
    decreases |t|
  {
    if t == [] || key(x) <= key(t[0]) {
      KeyClassCons(x, t, key, v);
    } else {
      var rest := Insert(x, t[1..], key);
      var cx: seq<T> := if key(x) == v then [x] else [];
      var c0: seq<T> := if key(t[0]) == v then [t[0]] else [];
      var tail := KeyClass(t[1..], key, v);
      assert KeyClass(Insert(x, t, key), key, v) == c0 + (cx + tail) by {
        assert Insert(x, t, key) == [t[0]] + rest;
        KeyClassCons(t[0], rest, key, v);
        KeyClassInsert(x, t[1..], key, v);
      }
      assert KeyClass(t, key, v) == c0 + tail by {
        KeyClassCons(t[0], t[1..], key, v);
        assert [t[0]] + t[1..] == t;
      }
      SwapEmptyPrefix(c0, cx, tail);
    }
  }

  /** Stability: equal keys keep their original relative order. */
  lemma {:induction false} SortByStable<T>(s: seq<T>, key: T -> int, v: int)
    ensures KeyClass(SortBy(s, key), key, v) == KeyClass(s, key, v)
    decreases |s|
  {
    if s != [] {
      KeyClassInsert(s[0], SortBy(s[1..], key), key, v);
      SortByStable(s[1..], key, v);
    }
  }

  lemma {:induction false} KeyClassMember<T>(s: seq<T>, key: T -> int, x: T)
    requires x in s
    ensures x in KeyClass(s, key, key(x))
    decreases |s|
  {
    if s[0] != x {
      KeyClassMember(s[1..], key, x);
    }
  }

  lemma {:induction false} KeyClassElements<T>(s: seq<T>, key: T -> int, v: int)
    ensures forall y :: y in KeyClass(s, key, v) ==> y in s && key(y) == v
    decreases |s|
  {
    if s != [] {
      KeyClassElements(s[1..], key, v);
    }
  }

  /** A sorted sequence has nothing with a key below its head's. */
  lemma SortedHeadIsMinimal<T>(s: seq<T>, key: T -> int, y: T)
    requires SortedBy(s, key) && s != [] && y in s
    ensures key(s[0]) <= key(y)
  {
  }

  lemma KeyClassTail<T>(a: seq<T>, b: seq<T>, key: T -> int, v: int)
    requires a != [] && b != [] && a[0] == b[0]
    requires KeyClass(a, key, v) == KeyClass(b, key, v)
    ensures KeyClass(a[1..], key, v) == KeyClass(b[1..], key, v)
  {
    var head: seq<T> := if key(a[0]) == v then [a[0]] else [];
    var ca, cb := KeyClass(a[1..], key, v), KeyClass(b[1..], key, v);
    assert head + ca == head + cb;
    assert ca == (head + ca)[|head|..];
    assert cb == (head + cb)[|head|..];
  }

  lemma KeyClassOfHead<T>(s: seq<T>, key: T -> int)
    requires s != []
    ensures KeyClass(s, key, key(s[0])) != []
  {
  }

  /** Two sorted sequences with the same key classes are equal: a stable sort
      has exactly one possible result. */
  lemma {:induction false} StableSortUnique<T>(a: seq<T>, b: seq<T>, key: T -> int)
    requires SortedBy(a, key) && SortedBy(b, key)
    requires forall v :: KeyClass(a, key, v) == KeyClass(b, key, v)
    ensures a == b
    decreases |a| + |b|
  {
    if a == [] && b == [] {
    } else if a == [] {
      KeyClassOfHead(b, key);
      assert false;
    } else if b == [] {
      KeyClassOfHead(a, key);
      assert false;
    } else {
      var ka, kb := key(a[0]), key(b[0]);
      KeyClassMember(a, key, a[0]);
      KeyClassElements(b, key, ka);
      SortedHeadIsMinimal(b, key, KeyClass(b, key, ka)[0]);
      KeyClassMember(b, key, b[0]);
      KeyClassElements(a, key, kb);
      SortedHeadIsMinimal(a, key, KeyClass(a, key, kb)[0]);
      assert ka == kb;
      assert KeyClass(a, key, ka)[0] == a[0];
      assert KeyClass(b, key, kb)[0] == b[0];
      assert a[0] == b[0];
      forall v
        ensures KeyClass(a[1..], key, v) == KeyClass(b[1..], key, v)
      {
        KeyClassTail(a, b, key, v);
      }
      StableSortUnique(a[1..], b[1..], key);
      assert a == [a[0]] + a[1..];
      assert b == [b[0]] + b[1..];
    }
  }

  /** Every sequence that is sorted and keeps the key classes of `s` is
      `SortBy(s, key)`: any stable sort by `key` returns the same result. */
  lemma StableSortIsSortBy<T>(s: seq<T>, r: seq<T>, key: T -> int)
    requires SortedBy(r, key)
    requires forall v :: KeyClass(r, key, v) == KeyClass(s, key, v)
    ensures r == SortBy(s, key)
  {
    var sorted := SortBy(s, key);
    forall v
      ensures KeyClass(r, key, v) == KeyClass(sorted, key, v)
    {
      SortByStable(s, key, v);
    }
    StableSortUnique(r, sorted, key);
  }

  /** The first `n` elements of a sorted sequence are its `n` smallest: an
      element left out has a key no smaller than any element kept. */
  lemma TakeOfSortedIsSmallest<T>(s: seq<T>, key: T -> int, n: nat, x: T)
    requires SortedBy(s, key) && x in s && x !in Take(s, n)
    ensures forall k :: 0 <= k < |Take(s, n)| ==> key(Take(s, n)[k]) <= key(x)
  {
    var j :| 0 <= j < |s| && s[j] == x;
    assert j >= |Take(s, n)|;
  }
}
