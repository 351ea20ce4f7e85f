/** The standard library's stable sort by a byte-string key, and why its result is unique. */
module Sorting {
  import opened Bytes

  predicate StrictlySorted<T(!new)>(s: seq<T>, key: T -> seq<byte>) {
    forall i, j :: 0 <= i < j < |s| ==> Less(key(s[i]), key(s[j]))
  }

  predicate DistinctKeys<T(!new)>(s: seq<T>, key: T -> seq<byte>) {
    forall i, j :: 0 <= i < j < |s| ==> key(s[i]) != key(s[j])
  }

  function Insert<T(!new)>(x: T, s: seq<T>, key: T -> seq<byte>): seq<T> {
    if s == [] || !Less(key(s[0]), key(x)) then [x] + s else [s[0]] + Insert(x, s[1..], key)
  }

  /** Stable insertion sort: the contract of `sort_by` and `sort_by_key`. */
  function SortBy<T(!new)>(s: seq<T>, key: T -> seq<byte>): seq<T> {
    if s == [] then [] else Insert(s[0], SortBy(s[1..], key), key)
  }

  lemma {:induction false} InsertPermutes<T(!new)>(x: T, s: seq<T>, key: T -> seq<byte>)
    ensures multiset(Insert(x, s, key)) == multiset(s) + multiset{x}
  {
    if s != [] && Less(key(s[0]), key(x)) {
      InsertPermutes(x, s[1..], key);
      assert s == [s[0]] + s[1..];
    }
  }

  lemma {:induction false} SortPermutes<T(!new)>(s: seq<T>, key: T -> seq<byte>)
    ensures multiset(SortBy(s, key)) == multiset(s)
    ensures forall y :: y in SortBy(s, key) <==> y in s
  {
    if s != [] {
      SortPermutes(s[1..], key);
      InsertPermutes(s[0], SortBy(s[1..], key), key);
      assert s == [s[0]] + s[1..];
    }
    forall y
      ensures y in SortBy(s, key) <==> y in s
    {
      assert y in multiset(SortBy(s, key)) <==> y in multiset(s);
    }
  }

  lemma ConsStrictlySorted<T(!new)>(x: T, s: seq<T>, key: T -> seq<byte>)
    requires StrictlySorted(s, key)
    requires forall y :: y in s ==> Less(key(x), key(y))
    ensures StrictlySorted([x] + s, key)
  {
  }

  lemma {:induction false} InsertSorts<T(!new)>(x: T, s: seq<T>, key: T -> seq<byte>)
    requires StrictlySorted(s, key)
    requires forall y :: y in s ==> key(y) != key(x)
    ensures StrictlySorted(Insert(x, s, key), key)
  {
    if s != [] {
      LessTrichotomy(key(s[0]), key(x));
      assert s[0] in s;
      if Less(key(s[0]), key(x)) {
        var rest := Insert(x, s[1..], key);
        InsertSorts(x, s[1..], key);
        InsertPermutes(x, s[1..], key);
        forall y | y in rest
          ensures Less(key(s[0]), key(y))
        {
          assert y in multiset(rest);
          if y != x {
            assert y in s[1..];
          }
        }
        ConsStrictlySorted(s[0], rest, key);
      } else {
        forall y | y in s
          ensures Less(key(x), key(y))
        {
          if y != s[0] {
            LessTransitive(key(x), key(s[0]), key(y));
          }
        }
        ConsStrictlySorted(x, s, key);
      }
    }
  }

  /** With distinct keys the sort is strictly ascending. */
  lemma {:induction false} SortSorts<T(!new)>(s: seq<T>, key: T -> seq<byte>)
    requires DistinctKeys(s, key)
    ensures StrictlySorted(SortBy(s, key), key)
  {
    if s != [] {
      SortSorts(s[1..], key);
      var tail := s[1..];
      SortPermutes(tail, key);
      forall y | y in SortBy(tail, key)
        ensures key(y) != key(s[0])
      {
        var j :| 0 <= j < |tail| && tail[j] == y;
        assert s[j + 1] == y;
      }
      InsertSorts(s[0], SortBy(s[1..], key), key);
    }
  }

  lemma TailMembers<T(!new)>(s: seq<T>, key: T -> seq<byte>)
    requires StrictlySorted(s, key) && s != []
    ensures forall x :: x in s[1..] <==> x in s && x != s[0]
  {
    LessTrichotomy(key(s[0]), key(s[0]));
    forall x | x in s[1..]
      ensures x != s[0]
    {
      var j :| 0 <= j < |s[1..]| && s[1..][j] == x;
      assert s[j + 1] == x;
    }
  }

  lemma HasElement<T(!new)>(s: seq<T>)
    requires s != []
    ensures exists x :: x in s
  {
    assert s[0] in s;
  }

  /** A strictly ascending listing is determined by its elements. */
  lemma {:induction false} StrictlySortedUnique<T(!new)>(a: seq<T>, b: seq<T>, key: T -> seq<byte>)
    requires StrictlySorted(a, key) && StrictlySorted(b, key)
    requires forall x :: x in a <==> x in b
    ensures a == b
  {
    if a == [] {
      if b != [] {
        HasElement(b);
      }
    } else {
      assert a[0] in b && b != [];
      assert b[0] in a;
      LessTrichotomy(key(a[0]), key(b[0]));
      TailMembers(a, key);
      TailMembers(b, key);
      StrictlySortedUnique(a[1..], b[1..], key);
      assert a == [a[0]] + a[1..] && b == [b[0]] + b[1..];
    }
  }
}
