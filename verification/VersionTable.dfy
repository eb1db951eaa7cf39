/** The sorted table of an endpoint's variants: insertion, binary search and the Match rule
    (http/version/endpoint.go), over any scheme whose Compare is a total order. */
module VersionTable {
  import opened Options
  import opened Sequences

  type HandlerId = nat

  /** A version format. parse is None where the source returns an error. */
  datatype Scheme<!V> = Scheme(parse: string -> Option<V>, compare: (V, V) -> int, format: V -> string)

  predicate Converse<V>(sc: Scheme<V>, a: V, b: V) {
    sc.compare(a, b) < 0 <==> sc.compare(b, a) > 0
  }

  predicate Transitive<V>(sc: Scheme<V>, a: V, b: V, c: V) {
    sc.compare(a, b) <= 0 && sc.compare(b, c) <= 0 ==> sc.compare(a, c) <= 0
  }

  /** Compare orders versions totally: older, equal and newer are what they say. */
  ghost predicate TotalOrder<V(!new)>(sc: Scheme<V>) {
    && (forall a, b :: Converse(sc, a, b))
    && (forall a, b, c :: Transitive(sc, a, b, c))
  }

  predicate Lt<V>(sc: Scheme<V>, a: V, b: V) { sc.compare(a, b) < 0 }

  predicate Le<V>(sc: Scheme<V>, a: V, b: V) { sc.compare(a, b) <= 0 }

  lemma LtLe<V(!new)>(sc: Scheme<V>, a: V, b: V, c: V)
    requires TotalOrder(sc) && ((Lt(sc, a, b) && Le(sc, b, c)) || (Le(sc, a, b) && Lt(sc, b, c)))
    ensures Lt(sc, a, c)
  {
    assert Converse(sc, a, b) && Converse(sc, b, c) && Converse(sc, c, a) && Converse(sc, a, c) && Converse(sc, b, a);
    assert Transitive(sc, b, c, a) && Transitive(sc, c, a, b);
  }

  lemma LtOrGe<V(!new)>(sc: Scheme<V>, a: V, b: V)
    requires TotalOrder(sc)
    ensures Lt(sc, a, b) <==> !Le(sc, b, a)
    ensures sc.compare(a, b) == 0 <==> sc.compare(b, a) == 0
    ensures Le(sc, a, a)
  {
    assert Converse(sc, a, b) && Converse(sc, b, a) && Converse(sc, a, a);
  }

  /** A nil handle is a Withdraw marker. */
  datatype Variant<V> = Variant(version: V, handle: Option<HandlerId>)

  type Table<V> = seq<Variant<V>>

  datatype Match = MatchCompatible | MatchExact

  ghost predicate Sorted<V>(sc: Scheme<V>, t: Table<V>) {
    forall i, j | 0 <= i < j < |t| :: Lt(sc, t[i].version, t[j].version)
  }

  // ---- searching ----

  /** at separates the variants older than v from the rest. */
  ghost predicate Splits<V>(sc: Scheme<V>, t: Table<V>, v: V, at: nat) {
    && at <= |t|
    && (forall i | 0 <= i < at :: Lt(sc, t[i].version, v))
    && (forall i | at <= i < |t| :: Le(sc, v, t[i].version))
  }

  /** Where a linear scan first meets a version not older than v. */
  function LowerBound<V>(sc: Scheme<V>, t: Table<V>, v: V): (at: nat)
    ensures at <= |t|
  {
    if t == [] || !Lt(sc, t[0].version, v) then 0 else LowerBound(sc, t[1..], v) + 1
  }

  lemma {:induction false} LowerBoundSplits<V(!new)>(sc: Scheme<V>, t: Table<V>, v: V)
    requires TotalOrder(sc) && Sorted(sc, t)
    ensures Splits(sc, t, v, LowerBound(sc, t, v))
  {
    if t != [] {
      if Lt(sc, t[0].version, v) {
        LowerBoundSplits(sc, t[1..], v);
      } else {
        LtOrGe(sc, t[0].version, v);
        forall i | 0 <= i < |t| ensures Le(sc, v, t[i].version) {
          if i > 0 { LtLe(sc, v, t[0].version, t[i].version); }
        }
      }
    }
  }

  lemma SplitsUnique<V(!new)>(sc: Scheme<V>, t: Table<V>, v: V, a: nat, b: nat)
    requires TotalOrder(sc) && Splits(sc, t, v, a) && Splits(sc, t, v, b)
    ensures a == b
  {
    if a < b { LtOrGe(sc, t[a].version, v); }
    if b < a { LtOrGe(sc, t[b].version, v); }
  }

  /** search: slices.BinarySearchFunc over the ascending variants. */
  method Search<V(!new)>(sc: Scheme<V>, t: Table<V>, v: V) returns (at: nat, found: bool)
    requires TotalOrder(sc) && Sorted(sc, t)
    ensures at == LowerBound(sc, t, v)
    ensures found <==> exists i :: 0 <= i < |t| && sc.compare(t[i].version, v) == 0
    ensures found ==> at < |t| && sc.compare(t[at].version, v) == 0
  {
    var i, j := 0, |t|;
    while i < j
      invariant 0 <= i <= j <= |t|
      invariant forall k | 0 <= k < i :: Lt(sc, t[k].version, v)
      invariant forall k | j <= k < |t| :: Le(sc, v, t[k].version)
    {
      var h := (i + j) / 2;
      LtOrGe(sc, t[h].version, v);
      if sc.compare(t[h].version, v) < 0 {
        forall k | i <= k < h ensures Lt(sc, t[k].version, v) { LtLe(sc, t[k].version, t[h].version, v); }
        i := h + 1;
      } else {
        forall k | h < k < j ensures Le(sc, v, t[k].version) { LtLe(sc, v, t[h].version, t[k].version); }
        j := h;
      }
    }
    at := i;
    found := at < |t| && sc.compare(t[at].version, v) == 0;
    LowerBoundSplits(sc, t, v);
    SplitsUnique(sc, t, v, at, LowerBound(sc, t, v));
    if k :| 0 <= k < |t| && sc.compare(t[k].version, v) == 0 {
      assert !Lt(sc, t[k].version, v) && at <= k;
      if at < k { LtLe(sc, v, t[at].version, t[k].version); LtOrGe(sc, v, t[k].version); }
    }
  }

  predicate Has<V>(sc: Scheme<V>, t: Table<V>, v: V) {
    exists i | 0 <= i < |t| :: sc.compare(t[i].version, v) == 0
  }

  // ---- registering ----

  /** insert; None is the duplicate-variant panic, which leaves the table as it was. */
  function Register<V>(sc: Scheme<V>, t: Table<V>, x: Variant<V>): Option<Table<V>> {
    if Has(sc, t, x.version) then None
    else
      var at := LowerBound(sc, t, x.version);
      Some(t[..at] + [x] + t[at..])
  }

  /** Splicing x in where it splits a table without its version leaves the table ascending. */
  lemma SplicedSorted<V(!new)>(sc: Scheme<V>, t: Table<V>, x: Variant<V>, at: nat)
    requires TotalOrder(sc) && Sorted(sc, t) && Splits(sc, t, x.version, at)
    requires forall i | 0 <= i < |t| :: sc.compare(t[i].version, x.version) != 0
    ensures Sorted(sc, t[..at] + [x] + t[at..])
  {
    var t' := t[..at] + [x] + t[at..];
    forall i | at <= i < |t| ensures Lt(sc, x.version, t[i].version) {
      LtOrGe(sc, x.version, t[i].version);
    }
    assert t'[at] == x;
    forall i | 0 <= i < |t'| && i != at ensures t'[i] == t[if i < at then i else i - 1] { }
  }

  lemma RegisterKeepsSorted<V(!new)>(sc: Scheme<V>, t: Table<V>, x: Variant<V>)
    requires TotalOrder(sc) && Sorted(sc, t) && Register(sc, t, x).Some?
    ensures Sorted(sc, Register(sc, t, x).value)
    ensures multiset(Register(sc, t, x).value) == multiset(t) + multiset{x}
    ensures forall y :: y in Register(sc, t, x).value <==> y in t || y == x
  {
    LowerBoundSplits(sc, t, x.version);
    SplicedSorted(sc, t, x, LowerBound(sc, t, x.version));
    SplicedMembers(t, LowerBound(sc, t, x.version), x);
  }

  /** Registrations in order; None as soon as one panics. */
  function RegisterAll<V>(sc: Scheme<V>, t: Table<V>, xs: seq<Variant<V>>): Option<Table<V>> {
    if xs == [] then Some(t)
    else
      var before := RegisterAll(sc, t, xs[..|xs| - 1]);
      if before.None? then None else Register(sc, before.value, xs[|xs| - 1])
  }

  ghost predicate Distinct<V>(sc: Scheme<V>, xs: seq<Variant<V>>) {
    forall i, j | 0 <= i < j < |xs| :: sc.compare(xs[i].version, xs[j].version) != 0
  }

  /** A wiring succeeds exactly when no two versions compare equal; the table it leaves is strictly
      ascending and holds exactly what was registered. */
  lemma {:induction false} RegisterAllSucceedsIffDistinct<V(!new)>(sc: Scheme<V>, xs: seq<Variant<V>>)
    requires TotalOrder(sc)
    ensures RegisterAll(sc, [], xs).Some? <==> Distinct(sc, xs)
    ensures RegisterAll(sc, [], xs).Some? ==> var t := RegisterAll(sc, [], xs).value;
                                              Sorted(sc, t) && multiset(t) == multiset(xs)
    decreases |xs|
  {
    if xs != [] {
      var front, x := xs[..|xs| - 1], xs[|xs| - 1];
      RegisterAllSucceedsIffDistinct(sc, front);
      assert xs == front + [x];
      DistinctGrows(sc, front, x);
      if RegisterAll(sc, [], front).Some? {
        var t := RegisterAll(sc, [], front).value;
        HasSameMembers(sc, t, front, x.version);
        if !Has(sc, t, x.version) { RegisterKeepsSorted(sc, t, x); }
      }
    }
  }

  lemma DistinctGrows<V>(sc: Scheme<V>, front: seq<Variant<V>>, x: Variant<V>)
    ensures Distinct(sc, front + [x]) <==> Distinct(sc, front) && !Has(sc, front, x.version)
  {
    var xs := front + [x];
    assert forall i | 0 <= i < |front| :: xs[i] == front[i];
    assert xs[|front|] == x;
    if Distinct(sc, xs) {
      forall i | 0 <= i < |front| ensures sc.compare(front[i].version, x.version) != 0 {
        assert sc.compare(xs[i].version, xs[|front|].version) != 0;
      }
    }
  }

  lemma HasSameMembers<V>(sc: Scheme<V>, t: Table<V>, u: Table<V>, v: V)
    requires multiset(t) == multiset(u)
    ensures Has(sc, t, v) <==> Has(sc, u, v)
  {
    SameMembers(t, u);
    if i :| 0 <= i < |t| && sc.compare(t[i].version, v) == 0 { assert t[i] in u; }
    if i :| 0 <= i < |u| && sc.compare(u[i].version, v) == 0 { assert u[i] in t; }
  }

  lemma SortedHeadsEqual<V(!new)>(sc: Scheme<V>, t: Table<V>, u: Table<V>)
    requires TotalOrder(sc) && Sorted(sc, t) && Sorted(sc, u) && multiset(t) == multiset(u) && t != []
    ensures u != [] && t[0] == u[0]
  {
    SameMembers(t, u);
    assert t[0] in u;
    var i :| 0 <= i < |u| && u[i] == t[0];
    assert u[0] in t;
    var j :| 0 <= j < |t| && t[j] == u[0];
    LtOrGe(sc, t[0].version, u[0].version);
  }

  lemma {:induction false} SortedTablesEqual<V(!new)>(sc: Scheme<V>, t: Table<V>, u: Table<V>)
    requires TotalOrder(sc) && Sorted(sc, t) && Sorted(sc, u) && multiset(t) == multiset(u)
    ensures t == u
  {
    if t == [] {
      assert |multiset(u)| == 0;
    } else {
      SortedHeadsEqual(sc, t, u);
      TailMultiset(t);
      TailMultiset(u);
      SortedTablesEqual(sc, t[1..], u[1..]);
      assert t == [t[0]] + t[1..] && u == [u[0]] + u[1..];
    }
  }

  lemma {:induction false} SortedHasNoRepeats<V(!new)>(sc: Scheme<V>, t: Table<V>, x: Variant<V>)
    requires TotalOrder(sc) && Sorted(sc, t)
    ensures multiset(t)[x] <= 1
  {
    if t != [] {
      SortedHasNoRepeats(sc, t[1..], x);
      assert t == [t[0]] + t[1..];
      if x == t[0] && x in t[1..] {
        var i :| 0 <= i < |t[1..]| && t[1..][i] == x;
        assert Lt(sc, t[0].version, t[i + 1].version);
        LtOrGe(sc, x.version, x.version);
      }
    }
  }

  /** The order of registration never matters: any permutation of the same registrations succeeds
      or panics alike, and leaves the same table. */
  lemma RegistrationOrderIrrelevant<V(!new)>(sc: Scheme<V>, xs: seq<Variant<V>>, ys: seq<Variant<V>>)
    requires TotalOrder(sc) && multiset(xs) == multiset(ys)
    ensures RegisterAll(sc, [], xs) == RegisterAll(sc, [], ys)
  {
    RegisterAllSucceedsIffDistinct(sc, xs);
    RegisterAllSucceedsIffDistinct(sc, ys);
    if RegisterAll(sc, [], xs).Some? { DistinctPermutes(sc, xs, RegisterAll(sc, [], xs).value, ys); }
    if RegisterAll(sc, [], ys).Some? { DistinctPermutes(sc, ys, RegisterAll(sc, [], ys).value, xs); }
    if RegisterAll(sc, [], xs).Some? {
      SortedTablesEqual(sc, RegisterAll(sc, [], xs).value, RegisterAll(sc, [], ys).value);
    }
  }

  lemma DistinctPermutes<V(!new)>(sc: Scheme<V>, xs: seq<Variant<V>>, t: Table<V>, ys: seq<Variant<V>>)
    requires TotalOrder(sc) && Sorted(sc, t) && multiset(t) == multiset(xs) == multiset(ys)
    ensures Distinct(sc, ys)
  {
    SameMembers(t, ys);
    forall i, j | 0 <= i < j < |ys| ensures sc.compare(ys[i].version, ys[j].version) != 0 {
      assert ys[i] in t && ys[j] in t;
      var a :| 0 <= a < |t| && t[a] == ys[i];
      var b :| 0 <= b < |t| && t[b] == ys[j];
      if a == b {
        RepeatedTwice(ys, i, j);
        SortedHasNoRepeats(sc, t, ys[i]);
      } else if a < b {
        assert Lt(sc, t[a].version, t[b].version);
      } else {
        LtOrGe(sc, t[b].version, t[a].version);
      }
    }
  }

  // ---- picking ----

  /** pick, over the linear scan. */
  function Pick<V>(sc: Scheme<V>, rule: Match, t: Table<V>, pin: V): Option<Variant<V>> {
    var at := LowerBound(sc, t, pin);
    if at < |t| && sc.compare(t[at].version, pin) == 0 then Some(t[at])
    else if rule == MatchExact || at == 0 then None
    else Some(t[at - 1])
  }

  /** The method of the source: the same through the binary search. */
  method PickBySearch<V(!new)>(sc: Scheme<V>, rule: Match, t: Table<V>, pin: V) returns (r: Option<Variant<V>>)
    requires TotalOrder(sc) && Sorted(sc, t)
    ensures r == Pick(sc, rule, t, pin)
  {
    var at, found := Search(sc, t, pin);
    if found {
      return Some(t[at]);
    }
    if rule == MatchExact || at == 0 {
      return None;
    }
    return Some(t[at - 1]);
  }

  /** x is the newest declared variant not newer than the pin. */
  ghost predicate NewestNotNewer<V>(sc: Scheme<V>, t: Table<V>, pin: V, x: Variant<V>) {
    && x in t && Le(sc, x.version, pin)
    && forall y | y in t && Le(sc, y.version, pin) :: Le(sc, y.version, x.version)
  }

  /** MatchCompatible serves the newest variant not newer than the pin, and refuses exactly the
      pins older than every variant; MatchExact serves exactly a variant at the pin. */
  lemma PickMeaning<V(!new)>(sc: Scheme<V>, rule: Match, t: Table<V>, pin: V, x: Variant<V>)
    requires TotalOrder(sc) && Sorted(sc, t)
    ensures rule == MatchCompatible ==> (Pick(sc, rule, t, pin) == Some(x) <==> NewestNotNewer(sc, t, pin, x))
    ensures rule == MatchCompatible
            ==> (Pick(sc, rule, t, pin) == None <==> forall y | y in t :: Lt(sc, pin, y.version))
    ensures rule == MatchExact ==> (Pick(sc, rule, t, pin) == Some(x) <==> x in t && sc.compare(x.version, pin) == 0)
    ensures rule == MatchExact ==> (Pick(sc, rule, t, pin) == None <==> !Has(sc, t, pin))
  {
    var at := LowerBound(sc, t, pin);
    LowerBoundSplits(sc, t, pin);
    forall i | 0 <= i < |t| ensures i < at ==> Lt(sc, t[i].version, pin) && !Lt(sc, pin, t[i].version)
                            ensures i > at ==> Lt(sc, pin, t[i].version) && !Le(sc, t[i].version, pin) {
      LtOrGe(sc, t[i].version, pin);
      LtOrGe(sc, pin, t[i].version);
      if i > at { LtLe(sc, pin, t[at].version, t[i].version); }
    }
    if at < |t| { LtOrGe(sc, t[at].version, pin); LtOrGe(sc, pin, t[at].version); }
    var r := Pick(sc, rule, t, pin);
    if r.Some? {
      var k := if at < |t| && sc.compare(t[at].version, pin) == 0 then at else at - 1;
      assert r.value == t[k] && r.value in t;
      NewestIsPicked(sc, t, pin, k, x);
    }
  }

  /** t[k] is not newer than the pin and all after it are: only it is the newest such. */
  lemma NewestIsPicked<V(!new)>(sc: Scheme<V>, t: Table<V>, pin: V, k: nat, x: Variant<V>)
    requires TotalOrder(sc) && Sorted(sc, t) && k < |t| && Le(sc, t[k].version, pin)
    requires forall i | k < i < |t| :: !Le(sc, t[i].version, pin)
    ensures NewestNotNewer(sc, t, pin, x) <==> x == t[k]
    ensures sc.compare(t[k].version, pin) != 0 ==> forall i | 0 <= i < |t| :: sc.compare(t[i].version, pin) != 0
    ensures x in t && sc.compare(x.version, pin) == 0 ==> x == t[k]
  {
    forall i | 0 <= i < |t| ensures i < k ==> Lt(sc, t[i].version, t[k].version) && !Le(sc, t[k].version, t[i].version)
                                              && Lt(sc, t[i].version, pin) {
      if i < k {
        LtOrGe(sc, t[i].version, t[k].version);
        LtLe(sc, t[i].version, t[k].version, pin);
      }
    }
    LtOrGe(sc, t[k].version, t[k].version);
  }

  // ---- pin stability ----

  /** Registering or withdrawing at w changes which variant a pin gets exactly for the pins from w
      up to, not including, the next declared version; under MatchExact, exactly for the pin w. */
  lemma PinStability<V(!new)>(sc: Scheme<V>, rule: Match, t: Table<V>, x: Variant<V>, pin: V)
    requires TotalOrder(sc) && Sorted(sc, t) && Register(sc, t, x).Some?
    ensures var t', w := Register(sc, t, x).value, x.version;
            rule == MatchCompatible ==>
              Pick(sc, rule, t', pin) ==
                if Le(sc, w, pin) && forall y | y in t && Lt(sc, w, y.version) :: Lt(sc, pin, y.version)
                then Some(x) else Pick(sc, rule, t, pin)
    ensures var t', w := Register(sc, t, x).value, x.version;
            rule == MatchExact ==>
              Pick(sc, rule, t', pin) == if sc.compare(w, pin) == 0 then Some(x) else Pick(sc, rule, t, pin)
  {
    var t', w := Register(sc, t, x).value, x.version;
    RegisterKeepsSorted(sc, t, x);
    PickMeaning(sc, rule, t', pin, x);
    PickMeaning(sc, rule, t, pin, x);
    var before := Pick(sc, rule, t, pin);
    if before.Some? {
      PickMeaning(sc, rule, t, pin, before.value);
      PickMeaning(sc, rule, t', pin, before.value);
    }
    forall y | y in t ensures Lt(sc, w, y.version) <==> !Le(sc, y.version, w)
                      ensures Lt(sc, pin, y.version) <==> !Le(sc, y.version, pin)
                      ensures Lt(sc, w, y.version) || Lt(sc, y.version, w) {
      LtOrGe(sc, w, y.version);
      LtOrGe(sc, pin, y.version);
      LtOrGe(sc, y.version, w);
      assert !Has(sc, t, w);
    }
    LtOrGe(sc, pin, w);
    LtOrGe(sc, w, w);
    if rule == MatchCompatible && before.Some? { NewerOf(sc, t, x, pin, before.value); }
    if rule == MatchExact { LtOrGe(sc, w, pin); }
  }

  lemma NewerOf<V(!new)>(sc: Scheme<V>, t: Table<V>, x: Variant<V>, pin: V, before: Variant<V>)
    requires TotalOrder(sc) && NewestNotNewer(sc, t, pin, before) && !Has(sc, t, x.version)
    requires forall y | y in t :: Lt(sc, pin, y.version) <==> !Le(sc, y.version, pin)
    ensures Le(sc, x.version, pin) && (forall y | y in t && Lt(sc, x.version, y.version) :: Lt(sc, pin, y.version))
            <==> Le(sc, x.version, pin) && Le(sc, before.version, x.version)
  {
    LtOrGe(sc, x.version, before.version);
    if Le(sc, before.version, x.version) {
      forall y | y in t && Lt(sc, x.version, y.version) ensures Lt(sc, pin, y.version) {
        LtLe(sc, before.version, x.version, y.version);
        LtOrGe(sc, before.version, y.version);
      }
    }
  }

  /** However an endpoint evolves, a client pinned to a version keeps its behaviour: registrations
      and withdrawals at later versions never change what an older pin gets, under either rule. */
  lemma {:induction false} OlderPinsKeepTheirVariant<V(!new)>(sc: Scheme<V>, rule: Match, t: Table<V>,
                                                       xs: seq<Variant<V>>, pin: V)
    requires TotalOrder(sc) && Sorted(sc, t) && RegisterAll(sc, t, xs).Some?
    requires forall i | 0 <= i < |xs| :: Lt(sc, pin, xs[i].version)
    ensures Sorted(sc, RegisterAll(sc, t, xs).value)
    ensures Pick(sc, rule, RegisterAll(sc, t, xs).value, pin) == Pick(sc, rule, t, pin)
    decreases |xs|
  {
    if xs != [] {
      var x := xs[|xs| - 1];
      var before := RegisterAll(sc, t, xs[..|xs| - 1]).value;
      OlderPinsKeepTheirVariant(sc, rule, t, xs[..|xs| - 1], pin);
      RegisterKeepsSorted(sc, before, x);
      PinStability(sc, rule, before, x, pin);
      LtOrGe(sc, pin, x.version);
    }
  }

  /** The pin gets a Withdraw marker. */
  predicate Gone<V>(sc: Scheme<V>, rule: Match, t: Table<V>, pin: V) {
    var r := Pick(sc, rule, t, pin);
    r.Some? && r.value.handle.None?
  }

  ghost predicate MarkedAt<V>(sc: Scheme<V>, t: Table<V>, pin: V) {
    exists y :: y in t && sc.compare(y.version, pin) == 0 && y.handle.None?
  }

  /** Under MatchCompatible no handler is registered past `from`; under MatchExact every version from it
      on has a marker of its own. */
  ghost predicate MarkedOnward<V(!new)>(sc: Scheme<V>, rule: Match, t: Table<V>, from: V) {
    match rule
    case MatchCompatible => forall y | y in t && Lt(sc, from, y.version) :: y.handle.None?
    case MatchExact => forall pin | Le(sc, from, pin) :: MarkedAt(sc, t, pin)
  }

  /** Past a marker MatchCompatible picks that marker or something later, and each later variant is
      what its own version gets. */
  lemma PastMarker<V(!new)>(sc: Scheme<V>, t: Table<V>, marker: Variant<V>, pin: V)
    requires TotalOrder(sc) && Sorted(sc, t) && marker in t && Le(sc, marker.version, pin)
    ensures var r := Pick(sc, MatchCompatible, t, pin);
            r.Some? && r.value in t && Le(sc, r.value.version, pin)
            && (r.value == marker || Lt(sc, marker.version, r.value.version))
  {
    var r := Pick(sc, MatchCompatible, t, pin);
    PickMeaning(sc, MatchCompatible, t, pin, marker);
    LtOrGe(sc, pin, marker.version);
    PickMeaning(sc, MatchCompatible, t, pin, r.value);
    LtOrGe(sc, marker.version, r.value.version);
    LtOrGe(sc, r.value.version, marker.version);
    LtOrGe(sc, marker.version, marker.version);
    PickMeaning(sc, MatchExact, t, marker.version, marker);
    PickMeaning(sc, MatchExact, t, marker.version, r.value);
  }

  lemma GoneExactly<V(!new)>(sc: Scheme<V>, t: Table<V>, pin: V)
    requires TotalOrder(sc) && Sorted(sc, t)
    ensures Gone(sc, MatchExact, t, pin) <==> MarkedAt(sc, t, pin)
  {
    var r := Pick(sc, MatchExact, t, pin);
    if r.Some? { PickMeaning(sc, MatchExact, t, pin, r.value); }
    if y :| y in t && sc.compare(y.version, pin) == 0 && y.handle.None? { PickMeaning(sc, MatchExact, t, pin, y); }
  }

  /** "Removed from this version onward", under either rule: every pin from a marker on is refused by a
      marker if and only if, under MatchCompatible, every later variant is a marker too, and under
      MatchExact, each of those pins has a marker at it. */
  lemma WithdrawnOnwardIff<V(!new)>(sc: Scheme<V>, rule: Match, t: Table<V>, marker: Variant<V>)
    requires TotalOrder(sc) && Sorted(sc, t) && marker in t && marker.handle.None?
    ensures (forall pin | Le(sc, marker.version, pin) :: Gone(sc, rule, t, pin))
            <==> MarkedOnward(sc, rule, t, marker.version)
  {
    match rule
    case MatchExact =>
      forall pin ensures Gone(sc, MatchExact, t, pin) <==> MarkedAt(sc, t, pin) { GoneExactly(sc, t, pin); }
    case MatchCompatible =>
      forall pin | Le(sc, marker.version, pin) && MarkedOnward(sc, rule, t, marker.version)
        ensures Gone(sc, rule, t, pin)
      {
        PastMarker(sc, t, marker, pin);
      }
      forall y | y in t && Lt(sc, marker.version, y.version)
        ensures Le(sc, marker.version, y.version) && Pick(sc, MatchCompatible, t, y.version) == Some(y)
      {
        LtOrGe(sc, y.version, y.version);
        PickMeaning(sc, MatchCompatible, t, y.version, y);
      }
  }
}
