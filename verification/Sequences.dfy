/** Facts about sequences. */
module Sequences {

  lemma ConcatAssociates<T>(a: seq<T>, b: seq<T>, c: seq<T>)
    ensures a + (b + c) == (a + b) + c
  {
  }

  lemma TakeNext<T>(start: seq<T>, added: seq<T>, i: nat, next: T)
    requires i < |added| && added[i] == next
    ensures (start + added[..i]) + [next] == start + added[..i + 1]
  {
  }

  lemma PrefixMember<T>(a: seq<T>, b: seq<T>, x: T)
    requires a <= b && x in a
    ensures x in b
  {
    var k :| 0 <= k < |a| && a[k] == x;
    assert b[k] == x;
  }

  lemma RemoveBoth<T>(a: seq<T>, b: seq<T>, i: nat)
    requires a != [] && i < |b| && a[0] == b[i] && multiset(a) == multiset(b)
    ensures multiset(a[1..]) == multiset(b[..i] + b[i + 1..])
  {
    assert a == [a[0]] + a[1..];
    assert b == b[..i] + [b[i]] + b[i + 1..];
    assert multiset(a[1..]) == multiset(a) - multiset{a[0]};
  }
}
