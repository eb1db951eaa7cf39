/** The wiring-time builder and the request-time resolution of versions (http/version/resolver.go).
    A request is what each configured source yields on it, in order. */
module Resolver {
  import opened Options
  import opened Sequences
  import opened GoStrings
  import opened VersionTable

  datatype Channel = LatestChannel | PreviewChannel

  datatype Config<!V> = Config(scheme: Scheme<V>, latest: seq<string>, preview: seq<string>, fallback: string,
                               statusHeader: string, warnHeader: string)

  /** What a resolution yields. Invalid carries the raw value; Missing is no version at all. */
  datatype Resolution<V> = Version(v: V) | Latest | Preview | Invalid(raw: string) | Missing

  predicate Literal<V>(c: Config<V>, raw: string) { raw in c.latest || raw in c.preview }

  predicate Resolvable<V>(c: Config<V>, raw: string) { Literal(c, raw) || c.scheme.parse(raw).Some? }

  /** What every wiring keeps: latest literals, preview literals and parseable strings are pairwise
      disjoint, literals are trimmed and unrepeated, and the fallback, if set, resolves. */
  ghost predicate WellWired<V(!new)>(c: Config<V>) {
    && NoRepeats(c.latest) && NoRepeats(c.preview)
    && (forall l | l in c.latest :: l !in c.preview)
    && (forall l :: Literal(c, l) ==> c.scheme.parse(l).None? && TrimSpace(l) == l && l != "")
    && (c.fallback != "" ==> Resolvable(c, c.fallback) && TrimSpace(c.fallback) != "")
  }

  /** resolveRaw. */
  function ResolveRaw<V>(c: Config<V>, raw: string): Resolution<V> {
    if raw in c.latest then Latest
    else if raw in c.preview then Preview
    else match c.scheme.parse(raw)
      case Some(v) => Version(v)
      case None => Invalid(raw)
  }

  /** The first source whose trimmed value is not empty decides. */
  function FirstOffer(offers: seq<Option<string>>): Option<string> {
    if offers == [] then None
    else if offers[0].Some? && TrimSpace(offers[0].value) != "" then Some(TrimSpace(offers[0].value))
    else FirstOffer(offers[1..])
  }

  predicate Usable(offer: Option<string>) { offer.Some? && TrimSpace(offer.value) != "" }

  /** The trimmed value of the first source, in the order configured, that has one. */
  lemma {:induction false} FirstOfferIff(offers: seq<Option<string>>, raw: string)
    ensures FirstOffer(offers) == Some(raw) <==>
              exists i :: 0 <= i < |offers| && Usable(offers[i]) && TrimSpace(offers[i].value) == raw
                          && forall j | 0 <= j < i :: !Usable(offers[j])
    ensures FirstOffer(offers) == None <==> forall i | 0 <= i < |offers| :: !Usable(offers[i])
  {
    if offers != [] && !Usable(offers[0]) {
      var rest := offers[1..];
      FirstOfferIff(rest, raw);
      assert forall i | 0 <= i < |rest| :: rest[i] == offers[i + 1];
      if i :| 0 <= i < |rest| && Usable(rest[i]) && TrimSpace(rest[i].value) == raw
              && forall j | 0 <= j < i :: !Usable(rest[j]) {
        assert Usable(offers[i + 1]) && forall j | 0 <= j < i + 1 :: !Usable(offers[j]);
      }
      if i :| 0 <= i < |offers| && Usable(offers[i]) && TrimSpace(offers[i].value) == raw
              && forall j | 0 <= j < i :: !Usable(offers[j]) {
        assert i > 0 && Usable(rest[i - 1]);
        assert forall j | 0 <= j < i - 1 :: rest[j] == offers[j + 1];
      }
    }
  }

  // ---- the order of the checks ----

  datatype Check = CheckLatest | CheckPreview | CheckParse

  function Answer<V>(c: Config<V>, check: Check, raw: string): Option<Resolution<V>> {
    match check
    case CheckLatest => if raw in c.latest then Some(Latest) else None
    case CheckPreview => if raw in c.preview then Some(Preview) else None
    case CheckParse => match c.scheme.parse(raw)
                       case Some(v) => Some(Version(v))
                       case None => None
  }

  function ResolveInOrder<V>(c: Config<V>, order: seq<Check>, raw: string): Resolution<V> {
    if order == [] then Invalid(raw)
    else match Answer(c, order[0], raw)
      case Some(r) => r
      case None => ResolveInOrder(c, order[1..], raw)
  }

  /** At most one check answers, so resolveRaw could make its checks in any order. */
  lemma {:induction false} CheckOrderIrrelevant<V(!new)>(c: Config<V>, order: seq<Check>, raw: string)
    requires WellWired(c)
    ensures ResolveInOrder(c, order, raw)
            == if exists k :: k in order && Answer(c, k, raw).Some? then ResolveRaw(c, raw) else Invalid(raw)
    ensures CheckLatest in order && CheckPreview in order && CheckParse in order ==>
              ResolveInOrder(c, order, raw) == ResolveRaw(c, raw)
  {
    if order != [] {
      CheckOrderIrrelevant(c, order[1..], raw);
      assert Literal(c, raw) ==> c.scheme.parse(raw).None?;
      assert order[0] in order;
    }
  }

  class Builder<V(!new)> {
    const scheme: Scheme<V>
    var latest: seq<string>
    var preview: seq<string>
    var fallback: string
    var statusHeader: string
    var warnHeader: string

    constructor (scheme: Scheme<V>)
      ensures this.scheme == scheme && fresh(this)
      ensures Cfg() == Config(scheme, [], [], "", "", "") && WellWired(Cfg())
    {
      this.scheme := scheme;
      latest, preview, fallback, statusHeader, warnHeader := [], [], "", "", "";
    }

    function Cfg(): Config<V>
      reads this
    {
      Config(scheme, latest, preview, fallback, statusHeader, warnHeader)
    }

    /** The literal passes every check of allowLiterals. */
    predicate MayEnable(l: string)
      reads this
    {
      TrimSpace(l) == l && l != "" && !Literal(Cfg(), l) && scheme.parse(l).None?
    }

    /** allowLiterals: enables the literals one by one and panics at the first bad one. What it had
        enabled before the panic stays enabled. */
    method AllowLiterals(channel: Channel, literals: seq<string>) returns (panicked: bool)
      requires WellWired(Cfg())
      modifies this
      ensures WellWired(Cfg())
      ensures fallback == old(fallback) && statusHeader == old(statusHeader) && warnHeader == old(warnHeader)
      ensures exists n :: 0 <= n <= |literals| && (panicked <==> n < |literals| || literals == [])
                          && latest == old(latest) + (if channel == LatestChannel then literals[..n] else [])
                          && preview == old(preview) + (if channel == PreviewChannel then literals[..n] else [])
                          && (n < |literals| ==> !MayEnable(literals[n]))
    {
      if literals == [] {
        assert literals[..0] == [];
        return true;
      }
      var n := 0;
      while n < |literals|
        invariant 0 <= n <= |literals| && WellWired(Cfg())
        invariant fallback == old(fallback) && statusHeader == old(statusHeader) && warnHeader == old(warnHeader)
        invariant latest == old(latest) + (if channel == LatestChannel then literals[..n] else [])
        invariant preview == old(preview) + (if channel == PreviewChannel then literals[..n] else [])
      {
        var l := literals[n];
        if !MayEnable(l) {
          return true;
        }
        ghost var before := Cfg();
        if channel == LatestChannel { latest := latest + [l]; } else { preview := preview + [l]; }
        EnabledKeepsWellWired(before, Cfg(), l);
        n := n + 1;
      }
      return false;
    }

    /** Fallback: checked now, so that it can never fail per request. */
    method Fallback(raw: string) returns (panicked: bool)
      requires WellWired(Cfg())
      modifies this
      ensures WellWired(Cfg())
      ensures panicked <==> TrimSpace(raw) == "" || old(fallback) != "" || !Resolvable(old(Cfg()), raw)
      ensures Cfg() == if panicked then old(Cfg()) else old(Cfg()).(fallback := raw)
    {
      if TrimSpace(raw) == "" || fallback != "" {
        return true;
      }
      if raw !in latest && raw !in preview && scheme.parse(raw).None? {
        return true;
      }
      ghost var before := Cfg();
      fallback := raw;
      FallbackKeepsWellWired(before, Cfg());
      return false;
    }

    /** StatusHeader and WarnUnpinned, each set once. */
    method SetHeader(status: bool, name: string) returns (panicked: bool)
      requires WellWired(Cfg())
      modifies this
      ensures WellWired(Cfg())
      ensures panicked <==> TrimSpace(name) == "" || (if status then old(statusHeader) else old(warnHeader)) != ""
      ensures Cfg() == if panicked then old(Cfg())
                       else if status then old(Cfg()).(statusHeader := name)
                       else old(Cfg()).(warnHeader := name)
    {
      if TrimSpace(name) == "" || (if status then statusHeader else warnHeader) != "" {
        return true;
      }
      ghost var before := Cfg();
      if status { statusHeader := name; } else { warnHeader := name; }
      HeadersKeepWellWired(before, Cfg());
      return false;
    }

    /** resolve: the first usable source decides, then the fallback. unpinned: no source did. */
    method Resolve(offers: seq<Option<string>>) returns (r: Resolution<V>, unpinned: bool)
      ensures unpinned <==> FirstOffer(offers).None?
      ensures r == if FirstOffer(offers).Some? then ResolveRaw(Cfg(), FirstOffer(offers).value)
                   else if fallback != "" then ResolveRaw(Cfg(), fallback)
                   else Missing
    {
      for i := 0 to |offers|
        invariant FirstOffer(offers) == FirstOffer(offers[i..])
      {
        if offers[i].None? {
          continue;
        }
        var raw := TrimSpace(offers[i].value);
        if raw == "" {
          continue;
        }
        return ResolveRaw(Cfg(), raw), false;
      }
      if fallback != "" {
        return ResolveRaw(Cfg(), fallback), true;
      }
      return Missing, true;
    }
  }

  lemma FallbackKeepsWellWired<V(!new)>(c: Config<V>, c': Config<V>)
    requires WellWired(c) && c' == c.(fallback := c'.fallback)
    requires Resolvable(c, c'.fallback) && TrimSpace(c'.fallback) != ""
    ensures WellWired(c')
  {
    assert forall x :: Literal(c', x) <==> Literal(c, x);
  }

  lemma HeadersKeepWellWired<V(!new)>(c: Config<V>, c': Config<V>)
    requires WellWired(c) && c' == c.(statusHeader := c'.statusHeader, warnHeader := c'.warnHeader)
    ensures WellWired(c')
  {
    assert forall x :: Literal(c', x) <==> Literal(c, x);
  }

  lemma EnabledKeepsWellWired<V(!new)>(c: Config<V>, c': Config<V>, l: string)
    requires WellWired(c) && TrimSpace(l) == l && l != "" && !Literal(c, l) && c.scheme.parse(l).None?
    requires c' == c.(latest := c.latest + [l]) || c' == c.(preview := c.preview + [l])
    ensures WellWired(c')
  {
    assert forall x :: Literal(c', x) <==> Literal(c, x) || x == l;
  }

  /** A request that carries no version is never told its version is invalid: in a well-wired
      resolver the fallback always has a meaning. */
  lemma FallbackNeverInvalid<V(!new)>(c: Config<V>)
    requires WellWired(c) && c.fallback != ""
    ensures !ResolveRaw(c, c.fallback).Invalid? && !ResolveRaw(c, c.fallback).Missing?
  {
  }

  /** A later wiring call never changes what a string already meant, except that an enabled literal
      stops being invalid. */
  lemma WiringOnlyAddsMeaning<V(!new)>(c: Config<V>, c': Config<V>, l: string, raw: string)
    requires WellWired(c) && TrimSpace(l) == l && l != "" && !Literal(c, l) && c.scheme.parse(l).None?
    requires c' == c.(latest := c.latest + [l]) || c' == c.(preview := c.preview + [l])
    ensures raw != l ==> ResolveRaw(c', raw) == ResolveRaw(c, raw)
    ensures ResolveRaw(c, l) == Invalid(l)
    ensures ResolveRaw(c', l) == if |c'.latest| > |c.latest| then Latest else Preview
  {
  }
}
