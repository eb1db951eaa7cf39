/** slices.Sort on strings: the lexicographic order and what a sort of distinct keys must yield. */
module StringOrder {
  import opened Sequences

  predicate Leq(a: string, b: string) {
    a == [] || (b != [] && (a[0] < b[0] || (a[0] == b[0] && Leq(a[1..], b[1..]))))
  }

  lemma {:induction false} LeqTotal(a: string, b: string)
    ensures Leq(a, b) || Leq(b, a)
    ensures Leq(a, b) && Leq(b, a) ==> a == b
  {
    if a != [] && b != [] && a[0] == b[0] {
      LeqTotal(a[1..], b[1..]);
      assert a == [a[0]] + a[1..] && b == [b[0]] + b[1..];
    }
  }

  lemma {:induction false} LeqTransitive(a: string, b: string, c: string)
    requires Leq(a, b) && Leq(b, c)
    ensures Leq(a, c)
  {
    if a != [] && a[0] == b[0] && b[0] == c[0] { LeqTransitive(a[1..], b[1..], c[1..]); }
  }

  predicate Sorted(xs: seq<string>) {
    forall i, j | 0 <= i < j < |xs| :: Leq(xs[i], xs[j])
  }

  function Insert(x: string, xs: seq<string>): seq<string> {
    if xs == [] || Leq(x, xs[0]) then [x] + xs else [xs[0]] + Insert(x, xs[1..])
  }

  /** slices.Sort. */
  function Sort(xs: seq<string>): seq<string> {
    if xs == [] then [] else Insert(xs[0], Sort(xs[1..]))
  }

  lemma {:induction false} InsertElements(x: string, xs: seq<string>)
    ensures multiset(Insert(x, xs)) == multiset(xs) + multiset{x}
    ensures forall y :: y in Insert(x, xs) <==> y == x || y in xs
  {
    if xs != [] && !Leq(x, xs[0]) {
      InsertElements(x, xs[1..]);
      assert xs == [xs[0]] + xs[1..];
    }
  }

  lemma BelowTail(x: string, xs: seq<string>)
    requires Sorted(xs) && forall y | y in xs :: Leq(x, y)
    ensures Sorted([x] + xs)
  {
    var s := [x] + xs;
    forall i, j | 0 <= i < j < |s| ensures Leq(s[i], s[j]) {
      if i == 0 { assert s[j] in xs; }
    }
  }

  lemma {:induction false} InsertSorts(x: string, xs: seq<string>)
    requires Sorted(xs)
    ensures Sorted(Insert(x, xs))
  {
    if xs == [] {
    } else if Leq(x, xs[0]) {
      forall y | y in xs ensures Leq(x, y) {
        var j :| 0 <= j < |xs| && xs[j] == y;
        LeqTotal(y, y);
        LeqTransitive(x, xs[0], y);
      }
      BelowTail(x, xs);
    } else {
      LeqTotal(x, xs[0]);
      InsertSorts(x, xs[1..]);
      InsertElements(x, xs[1..]);
      forall y | y in xs[1..] ensures Leq(xs[0], y) {
        var j :| 0 <= j < |xs[1..]| && xs[1..][j] == y;
        assert xs[j + 1] == y;
      }
      BelowTail(xs[0], Insert(x, xs[1..]));
    }
  }

  /** A sort is sorted and a permutation. */
  lemma {:induction false} SortSpec(xs: seq<string>)
    ensures Sorted(Sort(xs)) && multiset(Sort(xs)) == multiset(xs)
    ensures forall y :: y in Sort(xs) <==> y in xs
  {
    if xs != [] {
      SortSpec(xs[1..]);
      InsertSorts(xs[0], Sort(xs[1..]));
      InsertElements(xs[0], Sort(xs[1..]));
      assert xs == [xs[0]] + xs[1..];
    }
  }

  lemma {:induction false} InsertKeepsNoRepeats(x: string, xs: seq<string>)
    requires NoRepeats(xs) && x !in xs
    ensures NoRepeats(Insert(x, xs))
  {
    InsertElements(x, xs);
    if xs != [] && !Leq(x, xs[0]) {
      var rest := Insert(x, xs[1..]);
      InsertKeepsNoRepeats(x, xs[1..]);
      InsertElements(x, xs[1..]);
      assert xs[0] !in rest;
      assert forall j | 0 <= j < |rest| :: rest[j] in rest;
    }
  }

  /** Sorting hides the order the keys came in: lists of the same keys sort alike. */
  lemma SortIgnoresOrder(xs: seq<string>, ys: seq<string>)
    requires multiset(xs) == multiset(ys)
    ensures Sort(xs) == Sort(ys)
  {
    SortSpec(xs);
    SortSpec(ys);
    SortedUnique(Sort(xs), Sort(ys));
  }

  lemma SortedHeadsEqual(xs: seq<string>, ys: seq<string>)
    requires Sorted(xs) && Sorted(ys) && multiset(xs) == multiset(ys) && xs != [] && ys != []
    ensures xs[0] == ys[0]
  {
    assert xs[0] in multiset(ys) && ys[0] in multiset(xs);
    var i :| 0 <= i < |ys| && ys[i] == xs[0];
    var j :| 0 <= j < |xs| && xs[j] == ys[0];
    LeqTotal(xs[0], xs[0]);
    LeqTotal(ys[0], ys[0]);
    LeqTotal(xs[0], ys[0]);
    assert Leq(xs[0], xs[j]) && Leq(ys[0], ys[i]);
  }

  lemma {:induction false} SortedUnique(xs: seq<string>, ys: seq<string>)
    requires Sorted(xs) && Sorted(ys) && multiset(xs) == multiset(ys)
    ensures xs == ys
  {
    assert |xs| == |multiset(xs)| == |multiset(ys)| == |ys|;
    if xs != [] {
      SortedHeadsEqual(xs, ys);
      TailMultiset(xs);
      TailMultiset(ys);
      SortedUnique(xs[1..], ys[1..]);
      assert xs == [xs[0]] + xs[1..] && ys == [ys[0]] + ys[1..];
    }
  }

  /** Lists without repeats of the same keys are permutations of each other. */
  lemma {:induction false} SameKeysSameMultiset(xs: seq<string>, ys: seq<string>)
    requires NoRepeats(xs) && NoRepeats(ys) && forall k :: k in xs <==> k in ys
    ensures multiset(xs) == multiset(ys)
  {
    forall k ensures multiset(xs)[k] == multiset(ys)[k] {
      AtMostOnce(xs, k);
      AtMostOnce(ys, k);
      assert k in multiset(xs) <==> k in xs;
      assert k in multiset(ys) <==> k in ys;
    }
  }

  lemma {:induction false} AtMostOnce(xs: seq<string>, k: string)
    requires NoRepeats(xs)
    ensures multiset(xs)[k] <= 1
  {
    if xs != [] {
      AtMostOnce(xs[1..], k);
      assert xs == [xs[0]] + xs[1..];
      assert xs[0] !in xs[1..] by {
        assert forall i | 0 <= i < |xs[1..]| :: xs[1..][i] == xs[i + 1] != xs[0];
      }
    }
  }

  /** The order is the dictionary's: a comes first when it is a prefix of b or has the smaller character
      where they first differ. */
  lemma {:induction false} LeqIff(a: string, b: string)
    ensures Leq(a, b) <==> a <= b || exists i :: 0 <= i < |a| && i < |b| && a[..i] == b[..i] && a[i] < b[i]
  {
    if a != [] && b != [] && a[0] == b[0] {
      var a', b' := a[1..], b[1..];
      LeqIff(a', b');
      assert a == [a[0]] + a' && b == [b[0]] + b';
      assert a' <= b' <==> a <= b;
      if i :| 0 <= i < |a'| && i < |b'| && a'[..i] == b'[..i] && a'[i] < b'[i] {
        assert a[..i + 1] == [a[0]] + a'[..i] && b[..i + 1] == [b[0]] + b'[..i];
        assert a[i + 1] < b[i + 1];
      }
      if i :| 0 <= i < |a| && i < |b| && a[..i] == b[..i] && a[i] < b[i] {
        assert i > 0 && a'[..i - 1] == a[..i][1..] && b'[..i - 1] == b[..i][1..];
        assert a'[i - 1] < b'[i - 1];
      }
    } else if a != [] && b != [] && a[0] < b[0] {
      assert a[..0] == b[..0];
    }
  }
}
