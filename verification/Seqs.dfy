/** Filtering and key-ordering of sequences. */
module Seqs {
  function Filter<T>(s: seq<T>, p: T -> bool): (r: seq<T>)
    ensures |r| <= |s|
  {
    if s == [] then []
    else (if p(s[0]) then [s[0]] else []) + Filter(s[1..], p)
  }

  lemma HeadTail<T>(s: seq<T>, t: seq<T>)
    requires s != []
    ensures s == [s[0]] + s[1..] && s + t == [s[0]] + (s[1..] + t)
  {}

  lemma Associative<T>(a: seq<T>, b: seq<T>, c: seq<T>)
    ensures (a + b) + c == a + (b + c)
  {}

  /** Keys strictly increase along s. */
  ghost predicate Increasing<T>(s: seq<T>, key: T -> int) {
    forall i, j | 0 <= i < j < |s| :: key(s[i]) < key(s[j])
  }

  lemma {:induction false} FilterMember<T>(s: seq<T>, p: T -> bool, x: T)
    ensures x in Filter(s, p) <==> x in s && p(x)
  {
    if s != [] {
      FilterMember(s[1..], p, x);
      assert s == [s[0]] + s[1..];
    }
  }

  lemma FilterMembers<T>(s: seq<T>, p: T -> bool)
    ensures forall x | x in s && p(x) :: x in Filter(s, p)
    ensures forall x | x in Filter(s, p) :: x in s && p(x)
  {
    forall x | x in s && p(x) ensures x in Filter(s, p) { FilterMember(s, p, x); }
    forall x | x in Filter(s, p) ensures x in s && p(x) { FilterMember(s, p, x); }
  }

  lemma FilterCons<T>(x: T, s: seq<T>, p: T -> bool)
    ensures Filter([x] + s, p) == (if p(x) then [x] else []) + Filter(s, p)
  {
    assert ([x] + s)[1..] == s;
  }

  lemma {:induction false} FilterAppend<T>(s: seq<T>, t: seq<T>, p: T -> bool)
    ensures Filter(s + t, p) == Filter(s, p) + Filter(t, p)
  {
    if s == [] {
      assert s + t == t;
    } else {
      hide Filter;
      FilterAppend(s[1..], t, p);
      FilterCons(s[0], s[1..], p);
      FilterCons(s[0], s[1..] + t, p);
      assert s == [s[0]] + s[1..] && s + t == [s[0]] + (s[1..] + t);
    }
  }

  lemma FilterSnoc<T>(s: seq<T>, x: T, p: T -> bool)
    ensures Filter(s + [x], p) == if p(x) then Filter(s, p) + [x] else Filter(s, p)
  {
    FilterAppend(s, [x], p);
    assert Filter([x], p) == if p(x) then [x] else [];
  }

  lemma {:induction false} FilterIncreasing<T>(s: seq<T>, p: T -> bool, key: T -> int)
    requires Increasing(s, key)
    ensures Increasing(Filter(s, p), key)
  {
    if s != [] {
      var rest := s[1..];
      FilterIncreasing(rest, p, key);
      FilterMembers(rest, p);
      forall x | x in rest ensures key(s[0]) < key(x) {}
    }
  }

  lemma {:induction false} FilterAll<T>(s: seq<T>, p: T -> bool)
    requires forall x | x in s :: p(x)
    ensures Filter(s, p) == s
  {
    if s != [] {
      FilterAll(s[1..], p);
      assert s == [s[0]] + s[1..];
    }
  }

  /** A strictly ordered sequence is determined by its elements. */
  lemma {:induction false} IncreasingUnique<T>(a: seq<T>, b: seq<T>, key: T -> int)
    requires Increasing(a, key) && Increasing(b, key)
    requires forall x | x in a :: x in b
    requires forall x | x in b :: x in a
    ensures a == b
  {
    assert a == [] <==> b == [] by {
      if a != [] { assert a[0] in b; }
      if b != [] { assert b[0] in a; }
    }
    if a != [] {
      assert a[0] in b && b[0] in a;
      assert key(a[0]) <= key(b[0]) <= key(a[0]);
      assert a[0] == b[0];
      assert a == [a[0]] + a[1..] && b == [b[0]] + b[1..];
      forall x | x in a[1..] ensures x in b[1..] {
        assert x in a && key(a[0]) < key(x);
        assert x in b;
      }
      forall x | x in b[1..] ensures x in a[1..] {
        assert x in b && key(b[0]) < key(x);
        assert x in a;
      }
      IncreasingUnique(a[1..], b[1..], key);
    }
  }

  /** x placed before the first element of a larger key. */
  function Insert<T>(s: seq<T>, x: T, key: T -> int): (r: seq<T>)
    ensures |r| == |s| + 1
  {
    if s == [] || key(x) < key(s[0]) then [x] + s
    else [s[0]] + Insert(s[1..], x, key)
  }

  lemma {:induction false} InsertMembers<T>(s: seq<T>, x: T, key: T -> int)
    ensures forall y | y in Insert(s, x, key) :: y == x || y in s
    ensures x in Insert(s, x, key)
    ensures forall y | y in s :: y in Insert(s, x, key)
  {
    if s != [] && key(x) >= key(s[0]) {
      InsertMembers(s[1..], x, key);
      assert s == [s[0]] + s[1..];
    }
  }

  lemma ConsIncreasing<T>(x: T, s: seq<T>, key: T -> int)
    requires Increasing(s, key)
    requires forall y | y in s :: key(x) < key(y)
    ensures Increasing([x] + s, key)
  {}

  lemma {:induction false} InsertIncreasing<T>(s: seq<T>, x: T, key: T -> int)
    requires Increasing(s, key)
    requires forall y | y in s :: key(y) != key(x)
    ensures Increasing(Insert(s, x, key), key)
  {
    if s == [] || key(x) < key(s[0]) {
      ConsIncreasing(x, s, key);
    } else {
      InsertIncreasing(s[1..], x, key);
      InsertMembers(s[1..], x, key);
      ConsIncreasing(s[0], Insert(s[1..], x, key), key);
    }
  }

  /** What sort.Slice does to elements whose keys differ: orders them by key. */
  method SortBy<T>(s: seq<T>, key: T -> int) returns (r: seq<T>)
    requires forall i, j | 0 <= i < j < |s| :: key(s[i]) != key(s[j])
    ensures Increasing(r, key) && |r| == |s|
    ensures forall x | x in s :: x in r
    ensures forall x | x in r :: x in s
  {
    r := [];
    for i := 0 to |s|
      invariant |r| == i
      invariant Increasing(r, key)
      invariant forall x | x in s[..i] :: x in r
      invariant forall x | x in r :: x in s[..i]
    {
      forall y | y in r ensures key(y) != key(s[i]) {
        assert y in s[..i];
      }
      InsertIncreasing(r, s[i], key);
      InsertMembers(r, s[i], key);
      assert s[..i + 1] == s[..i] + [s[i]];
      r := Insert(r, s[i], key);
    }
    assert s[..|s|] == s;
  }
}
