/** Sequence operations that the SQL engine and Python's `filter`/`map`
    perform for the modelled code: filtering, mapping, ordering by a key and
    the LIMIT/OFFSET window. */
module Seqs {
  import opened Common

  /** The index of the first element satisfying p: the row a `fetchone()`
      returns when the table is scanned in order. */
  function FirstIndex<T>(s: seq<T>, p: T -> bool): (r: Option<nat>)
    ensures r.Some? ==> r.value < |s| && p(s[r.value]) && forall j :: 0 <= j < r.value ==> !p(s[j])
    ensures r.None? ==> forall j :: 0 <= j < |s| ==> !p(s[j])
    decreases |s|
  {
    if |s| == 0 then None
    else if p(s[0]) then Some(0)
    else match FirstIndex(s[1..], p)
      case None => None
      case Some(i) => Some(i + 1)
  }

  /** Python's `list(filter(p, s))` and SQL's WHERE: the order-preserving
      subsequence of the elements that satisfy p. */
  function Filter<T>(s: seq<T>, p: T -> bool): (r: seq<T>)
    decreases |s|
  {
    if |s| == 0 then []
    else Filter(s[..|s| - 1], p) + (if p(s[|s| - 1]) then [s[|s| - 1]] else [])
  }

  lemma FilterSnoc<T>(s: seq<T>, x: T, p: T -> bool)
    ensures Filter(s + [x], p) == Filter(s, p) + (if p(x) then [x] else [])
  {
    assert (s + [x])[..|s|] == s;
  }

  lemma {:induction false} FilterMembership<T>(s: seq<T>, p: T -> bool, x: T)
    ensures x in Filter(s, p) <==> x in s && p(x)
    decreases |s|
  {
    if |s| > 0 {
      var init := s[..|s| - 1];
      FilterMembership(init, p, x);
      assert s == init + [s[|s| - 1]];
    }
  }

  lemma {:induction false} FilterAllSatisfy<T>(s: seq<T>, p: T -> bool)
    ensures forall i :: 0 <= i < |Filter(s, p)| ==> p(Filter(s, p)[i])
    decreases |s|
  {
    if |s| > 0 {
      FilterAllSatisfy(s[..|s| - 1], p);
    }
  }

  /** a is b with some elements deleted, the rest kept in order. */
  predicate IsSubsequence<T(==)>(a: seq<T>, b: seq<T>)
    decreases |b|
  {
    if |a| == 0 then true
    else if |b| == 0 then false
    else if a[|a| - 1] == b[|b| - 1] then IsSubsequence(a[..|a| - 1], b[..|b| - 1])
    else IsSubsequence(a, b[..|b| - 1])
  }

  /** Appending to the longer sequence keeps a subsequence a subsequence. */
  lemma {:induction false} SubsequenceSnocRight<T>(a: seq<T>, b: seq<T>, x: T)
    requires IsSubsequence(a, b)
    ensures IsSubsequence(a, b + [x])
    decreases |b|, 1
  {
    assert (b + [x])[..|b|] == b;
    if |a| > 0 && a[|a| - 1] == x {
      SubsequenceDropLast(a, b);
    }
  }

  lemma {:induction false} SubsequenceDropLast<T>(a: seq<T>, b: seq<T>)
    requires |a| > 0 && IsSubsequence(a, b)
    ensures IsSubsequence(a[..|a| - 1], b)
    decreases |b|, 0
  {
    var a', b' := a[..|a| - 1], b[..|b| - 1];
    assert b == b' + [b[|b| - 1]];
    if a[|a| - 1] != b[|b| - 1] {
      SubsequenceDropLast(a, b');
    }
    SubsequenceSnocRight(a', b', b[|b| - 1]);
  }

  /** Filtering keeps the surviving elements in their original order. */
  lemma {:induction false} FilterIsSubsequence<T>(s: seq<T>, p: T -> bool)
    ensures IsSubsequence(Filter(s, p), s)
    decreases |s|
  {
    if |s| > 0 {
      var init, x := s[..|s| - 1], s[|s| - 1];
      FilterIsSubsequence(init, p);
      assert s == init + [x];
      if p(x) {
        assert Filter(s, p) == Filter(init, p) + [x];
        assert (Filter(init, p) + [x])[..|Filter(init, p)|] == Filter(init, p);
      } else {
        assert Filter(s, p) == Filter(init, p);
        SubsequenceSnocRight(Filter(init, p), init, x);
      }
    }
  }

  /** Python's `list(map(f, s))`. */
  function MapSeq<T, U>(s: seq<T>, f: T -> U): (r: seq<U>)
    ensures |r| == |s|
    ensures forall i :: 0 <= i < |s| ==> r[i] == f(s[i])
  {
    seq(|s|, i requires 0 <= i < |s| => f(s[i]))
  }

  lemma MapSeqSnoc<T, U>(s: seq<T>, x: T, f: T -> U)
    ensures MapSeq(s + [x], f) == MapSeq(s, f) + [f(x)]
  {
  }

  lemma MapSeqAppend<T, U>(a: seq<T>, b: seq<T>, f: T -> U)
    ensures MapSeq(a + b, f) == MapSeq(a, f) + MapSeq(b, f)
  {
    var l, r := MapSeq(a + b, f), MapSeq(a, f) + MapSeq(b, f);
    assert |l| == |r|;
    forall i | 0 <= i < |l|
      ensures l[i] == r[i]
    {
      if i < |a| {
        assert (a + b)[i] == a[i];
      } else {
        assert (a + b)[i] == b[i - |a|];
      }
    }
  }

  lemma MapFilterSnoc<T, U>(s: seq<T>, x: T, p: T -> bool, f: T -> U)
    ensures MapSeq(Filter(s + [x], p), f) == MapSeq(Filter(s, p), f) + (if p(x) then [f(x)] else [])
  {
    FilterSnoc(s, x, p);
    var a := Filter(s, p);
    if p(x) {
      assert Filter(s + [x], p) == a + [x];
      MapSeqAppend(a, [x], f);
      assert MapSeq([x], f) == [f(x)];
    } else {
      assert Filter(s + [x], p) == a;
    }
  }

  /** What a filter-then-map pipeline (a bucket of projected rows) holds. */
  lemma MapFilterMembership<T, U>(s: seq<T>, p: T -> bool, f: T -> U, y: U)
    ensures y in MapSeq(Filter(s, p), f) <==> exists x :: x in s && p(x) && y == f(x)
  {
    var r := Filter(s, p);
    if y in MapSeq(r, f) {
      var i :| 0 <= i < |r| && MapSeq(r, f)[i] == y;
      FilterMembership(s, p, r[i]);
    }
    if exists x :: x in s && p(x) && y == f(x) {
      var x :| x in s && p(x) && y == f(x);
      FilterMembership(s, p, x);
      var i :| 0 <= i < |r| && r[i] == x;
      assert MapSeq(r, f)[i] == y;
    }
  }

  predicate SortedBy<T>(s: seq<T>, key: T -> int) {
    forall i, j :: 0 <= i < j < |s| ==> key(s[i]) <= key(s[j])
  }

  /** What an ORDER BY returns: the same rows, sorted by the key; the order
      among rows with equal keys is left open. */
  ghost predicate IsOrderingBy<T>(r: seq<T>, s: seq<T>, key: T -> int) {
    SortedBy(r, key) && multiset(r) == multiset(s)
  }

  function Insert<T>(x: T, s: seq<T>, key: T -> int): seq<T>
    decreases |s|
  {
    if |s| == 0 then [x]
    else if key(x) <= key(s[0]) then [x] + s
    else [s[0]] + Insert(x, s[1..], key)
  }

  lemma {:induction false} InsertPermutes<T>(x: T, s: seq<T>, key: T -> int)
    ensures multiset(Insert(x, s, key)) == multiset(s) + multiset{x}
    decreases |s|
  {
    if |s| > 0 && key(x) > key(s[0]) {
      InsertPermutes(x, s[1..], key);
      assert s == [s[0]] + s[1..];
    }
  }

  lemma {:induction false} InsertSorted<T>(x: T, s: seq<T>, key: T -> int)
    requires SortedBy(s, key)
    ensures SortedBy(Insert(x, s, key), key)
    ensures |Insert(x, s, key)| == |s| + 1
    ensures forall k :: 0 <= k < |Insert(x, s, key)| ==>
              key(Insert(x, s, key)[k]) == key(x) || exists j :: 0 <= j < |s| && key(Insert(x, s, key)[k]) == key(s[j])
    decreases |s|
  {
    if |s| > 0 && key(x) > key(s[0]) {
      InsertSorted(x, s[1..], key);
      var r := Insert(x, s[1..], key);
      forall k | 0 <= k < |r|
        ensures key(s[0]) <= key(r[k])
      {
        if key(r[k]) != key(x) {
          var j :| 0 <= j < |s[1..]| && key(r[k]) == key(s[1..][j]);
          assert s[1..][j] == s[j + 1];
        }
      }
      forall k | 0 < k < |r| + 1
        ensures key(Insert(x, s, key)[k]) == key(x) || exists j :: 0 <= j < |s| && key(Insert(x, s, key)[k]) == key(s[j])
      {
        assert Insert(x, s, key)[k] == r[k - 1];
        if key(r[k - 1]) != key(x) {
          var j :| 0 <= j < |s[1..]| && key(r[k - 1]) == key(s[1..][j]);
          assert s[1..][j] == s[j + 1];
        }
      }
    }
  }

  /** Insertion sort by key, ascending; rows with equal keys keep their order. */
  function SortBy<T>(s: seq<T>, key: T -> int): seq<T>
    decreases |s|
  {
    if |s| == 0 then [] else Insert(s[0], SortBy(s[1..], key), key)
  }

  lemma {:induction false} SortByOrders<T>(s: seq<T>, key: T -> int)
    ensures IsOrderingBy(SortBy(s, key), s, key)
    decreases |s|
  {
    if |s| > 0 {
      SortByOrders(s[1..], key);
      InsertSorted(s[0], SortBy(s[1..], key), key);
      InsertPermutes(s[0], SortBy(s[1..], key), key);
      assert s == [s[0]] + s[1..];
    }
  }

  /** `LIMIT limit OFFSET offset`. */
  function Page<T>(s: seq<T>, offset: nat, limit: nat): (r: seq<T>)
    ensures |r| == Common.Min(limit, if offset <= |s| then |s| - offset else 0)
    ensures forall i :: 0 <= i < |r| ==> offset + i < |s| && r[i] == s[offset + i]
  {
    var rest := if offset <= |s| then s[offset..] else [];
    if limit <= |rest| then rest[..limit] else rest
  }
}
