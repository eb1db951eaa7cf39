/** Facts about sequences as multisets, shared by the sorted structures. */
module Sequences {

  predicate NoRepeats<T(==)>(xs: seq<T>) {
    forall i, j | 0 <= i < j < |xs| :: xs[i] != xs[j]
  }

  lemma TailMultiset<T>(xs: seq<T>)
    requires xs != []
    ensures multiset(xs[1..]) == multiset(xs) - multiset{xs[0]}
  {
    assert xs == [xs[0]] + xs[1..];
  }

  lemma SameMembers<T>(a: seq<T>, b: seq<T>)
    requires multiset(a) == multiset(b)
    ensures forall x :: x in a <==> x in b
  {
    forall x ensures x in a <==> x in b { assert x in a <==> x in multiset(a); }
  }

  lemma SplicedMembers<T>(t: seq<T>, at: nat, x: T)
    requires at <= |t|
    ensures multiset(t[..at] + [x] + t[at..]) == multiset(t) + multiset{x}
    ensures forall y :: y in t[..at] + [x] + t[at..] <==> y in t || y == x
  {
    assert t == t[..at] + t[at..];
    SameMembers(t[..at] + [x] + t[at..], t + [x]);
  }

  lemma RepeatedTwice<T>(xs: seq<T>, i: nat, j: nat)
    requires i < j < |xs| && xs[i] == xs[j]
    ensures multiset(xs)[xs[i]] >= 2
  {
    assert xs == xs[..j] + [xs[j]] + xs[j + 1..];
    assert xs[..j][i] == xs[i] && xs[i] in xs[..j];
  }
}
