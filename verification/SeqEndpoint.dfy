/** An endpoint over the Sequential scheme (http/version/version.go with http/version/endpoint.go): what a
    numbered pin is served, told by how versions are spelled. */
module SeqEndpoint {
  import opened Options
  import opened GoInts
  import opened VersionTable
  import opened Resolver
  import opened Endpoint
  import opened SeqScheme

  /** raw names an older version than raw'. */
  ghost predicate Older(raw: string, raw': string) { SpelledBelow(Canonical(raw), Canonical(raw')) }

  lemma OlderIsLess(a: int, raw: string)
    requires 0 <= a <= MAX_INT && Parse(raw).Some?
    ensures a < Parse(raw).value <==> Older(Format(a), raw)
    ensures Parse(raw).value < a <==> Older(raw, Format(a))
  {
    ParseFormat(a);
    CompareIsSpellingOrder(Format(a), raw);
  }

  lemma OlderFormats(a: int, b: int)
    requires 0 <= a <= MAX_INT && 0 <= b <= MAX_INT
    ensures a < b <==> Older(Format(a), Format(b))
  {
    ParseFormat(b);
    OlderIsLess(a, Format(b));
  }

  /** The reply speaks of variant x: its handler, or its marker. */
  predicate Answers(r: Reply<int>, x: Variant<int>) {
    if x.handle.Some? then r.Served? && r.handler == x.handle.value && r.served == Some(x.version)
    else r.Withdrawn? && r.at == Format(x.version)
  }

  lemma NewestNotAbove(c: Config<int>, t: Table<int>, v: int, unpinned: bool, r: Reply<int>)
    returns (x: Option<Variant<int>>)
    requires c.scheme == SEQUENTIAL && FollowsRule(c, MatchCompatible, t, v, unpinned, r)
    ensures x == None <==> r.Unsupported?
    ensures x == None ==> forall y | y in t :: v < y.version
    ensures x.Some? ==> x.value in t && Answers(r, x.value) && x.value.version <= v
    ensures r.Served? ==> r.requested == Some(v)
    ensures x.Some? ==> forall y | y in t && y.version <= v :: y.version <= x.value.version
  {
    x := None;
    if !r.Unsupported? {
      var y :| Owed(c.scheme, MatchCompatible, t, v, y) && Dated(c, y, v, false, false, unpinned, r);
      x := Some(y);
    }
  }

  /** A MatchCompatible pin is answered by the variant spelled newest among those not newer than it, and
      refused exactly when all are newer. */
  lemma CompatiblePin(c: Config<int>, t: Table<int>, overlay: Option<HandlerId>, offers: seq<Option<string>>,
                      raw: string, r: Reply<int>) returns (x: Option<Variant<int>>)
    requires c.scheme == SEQUENTIAL && t != [] && (forall y | y in t :: 0 <= y.version <= MAX_INT)
    requires FirstOffer(offers) == Some(raw) && !Literal(c, raw) && Parse(raw).Some?
    requires Decides(c, MatchCompatible, t, overlay, offers, r)
    ensures x == None <==> r.Unsupported?
    ensures x == None <==> forall y | y in t :: Older(raw, Format(y.version))
    ensures x.Some? ==> x.value in t && Answers(r, x.value) && !Older(raw, Format(x.value.version))
    ensures x.Some? ==> forall y | y in t && Older(Format(x.value.version), Format(y.version)) ::
                          Older(raw, Format(y.version))
  {
    var v := Parse(raw).value;
    assert Asked(c, offers) == Version(v);
    x := NewestNotAbove(c, t, v, false, r);
    forall y | y in t ensures v < y.version <==> Older(raw, Format(y.version)) { OlderIsLess(y.version, raw); }
    if x.Some? {
      forall y | y in t ensures x.value.version < y.version <==> Older(Format(x.value.version), Format(y.version)) {
        OlderFormats(x.value.version, y.version);
      }
    }
  }

  /** A latest pin is answered by the variant spelled newest of all. */
  lemma LatestPin(c: Config<int>, rule: Match, t: Table<int>, overlay: Option<HandlerId>, offers: seq<Option<string>>,
                  r: Reply<int>)
    requires c.scheme == SEQUENTIAL && t != [] && (forall x | x in t :: 0 <= x.version <= MAX_INT)
    requires Asked(c, offers) == Latest && Decides(c, rule, t, overlay, offers, r)
    ensures exists x :: x in t && Answers(r, x) && forall y | y in t :: !Older(Format(x.version), Format(y.version))
  {
    forall x, y | x in t && y in t
      ensures x.version < y.version <==> Older(Format(x.version), Format(y.version))
    {
      OlderFormats(x.version, y.version);
    }
    var x :| Newest(c.scheme, t, x) && Dated(c, x, x.version, true, false, FirstOffer(offers).None?, r);
    assert Answers(r, x);
  }

  /** Handlers at v1 and v2 and a pin of v3: MatchCompatible serves v2, MatchExact refuses it and offers both,
      in order. */
  lemma PinBeyondNewest(h1: HandlerId, h2: HandlerId, c: Config<int>, rule: Match, unpinned: bool, r: Reply<int>)
    requires c.scheme == SEQUENTIAL
    requires FollowsRule(c, rule, [Variant(1, Some(h1)), Variant(2, Some(h2))], 3, unpinned, r)
    ensures rule == MatchCompatible ==>
              r.Served? && r.handler == h2 && r.requested == Some(3) && r.served == Some(2)
    ensures rule == MatchExact ==> r == Unsupported("v3", ["v1", "v2"])
  {
    var t := [Variant(1, Some(h1)), Variant(2, Some(h2))];
    assert t[0] in t && t[1] in t;
    if rule == MatchCompatible {
      var x := NewestNotAbove(c, t, 3, unpinned, r);
    } else {
      BothSupported(h1, h2);
    }
  }

  lemma BothSupported(h1: HandlerId, h2: HandlerId)
    ensures Supported(SEQUENTIAL, [Variant(1, Some(h1)), Variant(2, Some(h2))]) == ["v1", "v2"] && Format(3) == "v3"
  {
    SmallFormats();
    var t := [Variant(1, Some(h1)), Variant(2, Some(h2))];
    assert t[..2] == t && t[..1] == [t[0]] && t[..1][..0] == [] && t[..2][..1] == t[..1];
    assert Supported(SEQUENTIAL, t[..1]) == Supported(SEQUENTIAL, []) + ["v1"];
    assert Supported(SEQUENTIAL, t) == Supported(SEQUENTIAL, t[..1]) + ["v2"];
  }

  lemma SmallFormats()
    ensures Format(1) == "v1" && Format(2) == "v2" && Format(3) == "v3"
  {
    assert Digits(0) == "";
    assert Digits(1) == Digits(0) + ['1'] && Digits(2) == Digits(0) + ['2'] && Digits(3) == Digits(0) + ['3'];
  }
}
