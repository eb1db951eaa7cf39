/** The versioned endpoint: its registration calls and Serve (http/version/endpoint.go). */
module Endpoint {
  import opened Options
  import opened VersionTable
  import opened Resolver

  /** A response, or the error Serve returns. Served carries the Resolved value put on the context
      (a zero V is None) and the headers set before the handler runs. */
  datatype Reply<V> =
    | Unconfigured
    | VersionMissing
    | VersionInvalid(raw: string)
    | Unsupported(asked: string, supported: seq<string>)
    | Withdrawn(at: string, channel: string)
    | Served(handler: HandlerId, requested: Option<V>, served: Option<V>, latest: bool, preview: bool,
             headers: map<string, string>)

  function ChannelName(latest: bool, preview: bool): string {
    if preview then "preview" else if latest then "latest" else "stable"
  }

  /** supported: the servable versions, oldest first, Withdraw markers left out. */
  function Supported<V>(sc: Scheme<V>, t: Table<V>): seq<string> {
    if t == [] then []
    else Supported(sc, t[..|t| - 1]) + if t[|t| - 1].handle.Some? then [sc.format(t[|t| - 1].version)] else []
  }

  lemma {:induction false} SupportedMeans<V>(sc: Scheme<V>, t: Table<V>, raw: string)
    ensures raw in Supported(sc, t) <==> exists i :: 0 <= i < |t| && t[i].handle.Some? && sc.format(t[i].version) == raw
  {
    if t != [] {
      SupportedMeans(sc, t[..|t| - 1], raw);
      if i :| 0 <= i < |t| && t[i].handle.Some? && sc.format(t[i].version) == raw {
        if i < |t| - 1 { assert t[..|t| - 1][i] == t[i]; }
      }
    }
  }

  /** The headers set on a successful dispatch; a status header of the same name wins. */
  function Headers<V>(c: Config<V>, unpinned: bool, latest: bool, preview: bool,
                      served: Option<V>): map<string, string> {
    var channel := ChannelName(latest, preview);
    var warn := if c.warnHeader != "" && unpinned
                then map[c.warnHeader := if served.Some? then c.scheme.format(served.value) else channel] else map[];
    if c.statusHeader == "" then warn
    else warn[c.statusHeader :=
                if served.Some? then channel + "; version=" + c.scheme.format(served.value) else channel]
  }

  /** What the request asked for, before any endpoint is consulted. */
  function Asked<V>(c: Config<V>, offers: seq<Option<string>>): Resolution<V> {
    var offer := FirstOffer(offers);
    if offer.Some? then ResolveRaw(c, offer.value)
    else if c.fallback != "" then ResolveRaw(c, c.fallback)
    else Missing
  }

  /** x is the newest declared variant. */
  ghost predicate Newest<V>(sc: Scheme<V>, t: Table<V>, x: Variant<V>) {
    x in t && forall y | y in t :: Le(sc, y.version, x.version)
  }

  /** A dated variant answers: a marker is 410, a handler serves. */
  ghost predicate Dated<V>(c: Config<V>, x: Variant<V>, requested: V, latest: bool, preview: bool, unpinned: bool,
                           r: Reply<V>) {
    match x.handle
    case None => r == Withdrawn(c.scheme.format(x.version), ChannelName(latest, preview))
    case Some(h) => r == Served(h, Some(requested), Some(x.version), latest, preview,
                                Headers(c, unpinned, latest, preview, Some(x.version)))
  }

  /** The variant the Match rule owes the pin v, said without the table's order. */
  ghost predicate Owed<V>(sc: Scheme<V>, rule: Match, t: Table<V>, v: V, x: Variant<V>) {
    match rule
    case MatchCompatible => NewestNotNewer(sc, t, v, x)
    case MatchExact => x in t && sc.compare(x.version, v) == 0
  }

  ghost predicate NothingOwed<V>(sc: Scheme<V>, rule: Match, t: Table<V>, v: V) {
    match rule
    case MatchCompatible => forall y | y in t :: Lt(sc, v, y.version)
    case MatchExact => forall y | y in t :: sc.compare(y.version, v) != 0
  }

  /** A latest pin, or a preview pin where no overlay is declared: the newest variant, whatever
      the Match rule. */
  ghost predicate FollowsNewest<V(!new)>(c: Config<V>, t: Table<V>, latest: bool, preview: bool, unpinned: bool,
                                  r: Reply<V>) {
    exists x :: Newest(c.scheme, t, x) && Dated(c, x, x.version, latest, preview, unpinned, r)
  }

  /** A concrete pin: the variant the rule owes it, or a refusal naming what would have worked. */
  ghost predicate FollowsRule<V(!new)>(c: Config<V>, rule: Match, t: Table<V>, v: V, unpinned: bool, r: Reply<V>) {
    || (NothingOwed(c.scheme, rule, t, v) && r == Unsupported(c.scheme.format(v), Supported(c.scheme, t)))
    || (exists x :: Owed(c.scheme, rule, t, v, x) && Dated(c, x, v, false, false, unpinned, r))
  }

  /** The decision table of Serve: the reply each request is owed. */
  ghost predicate Decides<V(!new)>(c: Config<V>, rule: Match, t: Table<V>, overlay: Option<HandlerId>,
                             offers: seq<Option<string>>, r: Reply<V>) {
    var unpinned := FirstOffer(offers).None?;
    if t == [] && overlay.None? then r == Unconfigured
    else match Asked(c, offers)
      case Missing => r == VersionMissing
      case Invalid(raw) => r == VersionInvalid(raw)
      case Preview =>
        if overlay.Some?
        then r == Served(overlay.value, None, None, false, true, Headers(c, unpinned, false, true, None))
        else FollowsNewest(c, t, false, true, unpinned, r)
      case Latest =>
        if t == [] then r == Unsupported("latest", [])
        else FollowsNewest(c, t, true, false, unpinned, r)
      case Version(v) => FollowsRule(c, rule, t, v, unpinned, r)
  }

  class Endpoint<V(!new)> {
    const resolver: Builder<V>
    const rule: Match
    var variants: Table<V>
    var preview: Option<HandlerId>

    ghost predicate Valid()
      reads this, resolver
    {
      TotalOrder(resolver.scheme) && Sorted(resolver.scheme, variants) && WellWired(resolver.Cfg())
    }

    constructor (resolver: Builder<V>, rule: Match)
      requires TotalOrder(resolver.scheme) && WellWired(resolver.Cfg())
      ensures this.resolver == resolver && this.rule == rule && Valid() && variants == [] && preview == None
    {
      this.resolver, this.rule := resolver, rule;
      variants, preview := [], None;
    }

    /** insert; an unparseable or duplicate version panics and changes nothing. */
    method Insert(raw: string, h: Option<HandlerId>) returns (panicked: bool)
      requires Valid()
      modifies this
      ensures Valid() && preview == old(preview)
      ensures var v := resolver.scheme.parse(raw);
              var t := if v.Some? then Register(resolver.scheme, old(variants), Variant(v.value, h)) else None;
              panicked == t.None? && variants == if t.Some? then t.value else old(variants)
    {
      var v := resolver.scheme.parse(raw);
      if v.None? {
        return true;
      }
      var at, found := Search(resolver.scheme, variants, v.value);
      if found {
        return true;
      }
      RegisterKeepsSorted(resolver.scheme, variants, Variant(v.value, h));
      variants := variants[..at] + [Variant(v.value, h)] + variants[at..];
      return false;
    }

    /** HandleFunc: a preview literal declares the overlay, anything else a dated variant. */
    method HandleFunc(raw: string, h: Option<HandlerId>) returns (panicked: bool)
      requires Valid()
      modifies this
      ensures Valid()
      ensures raw in resolver.preview ==>
                variants == old(variants) && panicked == old(preview).Some?
                && preview == (if panicked then old(preview) else h)
      ensures raw !in resolver.preview ==>
                var v := resolver.scheme.parse(raw);
                var t := if v.Some? then Register(resolver.scheme, old(variants), Variant(v.value, h)) else None;
                preview == old(preview) && panicked == t.None?
                && variants == (if t.Some? then t.value else old(variants))
    {
      if raw in resolver.preview {
        if preview.Some? {
          return true;
        }
        preview := h;
        return false;
      }
      panicked := Insert(raw, h);
    }

    /** Withdraw: a marker at a dated version; channel literals panic. */
    method Withdraw(raw: string) returns (panicked: bool)
      requires Valid()
      modifies this
      ensures Valid() && preview == old(preview)
      ensures Literal(resolver.Cfg(), raw) ==> panicked
      ensures var v := resolver.scheme.parse(raw);
              var t := if v.Some? then Register(resolver.scheme, old(variants), Variant(v.value, None)) else None;
              panicked == t.None? && variants == if t.Some? then t.value else old(variants)
    {
      if raw in resolver.preview || raw in resolver.latest {
        return true;
      }
      panicked := Insert(raw, None);
    }

    method SupportedVersions() returns (out: seq<string>)
      ensures out == Supported(resolver.scheme, variants)
    {
      out := [];
      for i := 0 to |variants|
        invariant out == Supported(resolver.scheme, variants[..i])
      {
        assert variants[..i + 1][..i] == variants[..i];
        if variants[i].handle.None? {
          continue;
        }
        out := out + [resolver.scheme.format(variants[i].version)];
      }
      assert variants[..|variants|] == variants;
    }

    /** Serve. */
    method Serve(offers: seq<Option<string>>) returns (r: Reply<V>)
      requires Valid()
      ensures Decides(resolver.Cfg(), rule, variants, preview, offers, r)
    {
      if |variants| == 0 && preview.None? {
        return Unconfigured;
      }
      var asked, unpinned := resolver.Resolve(offers);
      var latest, previewing := false, false;
      var requested: Option<V> := None;
      match asked {
        case Latest => latest := true;
        case Preview => previewing := true;
        case Missing => return VersionMissing;
        case Invalid(raw) => return VersionInvalid(raw);
        case Version(v) => requested := Some(v);
      }

      var handle: Option<HandlerId>;
      var served: Option<V> := None;      // None: the zero V of the overlay, which is not dated
      if previewing && preview.Some? {
        handle := preview;
      } else if latest || previewing {
        if |variants| == 0 {
          return Unsupported(ChannelName(latest, previewing), []);
        }
        var chosen := variants[|variants| - 1];
        LastIsNewest(resolver.scheme, variants);
        handle, served, requested := chosen.handle, Some(chosen.version), Some(chosen.version);
      } else {
        var chosen := PickBySearch(resolver.scheme, rule, variants, requested.value);
        PickIsOwed(resolver.scheme, rule, variants, requested.value);
        if chosen.None? {
          var supported := SupportedVersions();
          return Unsupported(resolver.scheme.format(requested.value), supported);
        }
        handle, served := chosen.value.handle, Some(chosen.value.version);
      }

      if served.Some? && handle.None? {
        return Withdrawn(resolver.scheme.format(served.value), ChannelName(latest, previewing));
      }

      var headers: map<string, string> := map[];
      if resolver.warnHeader != "" && unpinned {
        var value := ChannelName(latest, previewing);
        if served.Some? {
          value := resolver.scheme.format(served.value);
        }
        headers := headers[resolver.warnHeader := value];
      }
      if resolver.statusHeader != "" {
        var value := ChannelName(latest, previewing);
        if served.Some? {
          value := value + "; version=" + resolver.scheme.format(served.value);
        }
        headers := headers[resolver.statusHeader := value];
      }
      return Served(handle.value, requested, served, latest, previewing, headers);
    }
  }

  lemma LastIsNewest<V(!new)>(sc: Scheme<V>, t: Table<V>)
    requires TotalOrder(sc) && Sorted(sc, t) && t != []
    ensures Newest(sc, t, t[|t| - 1])
  {
    LtOrGe(sc, t[|t| - 1].version, t[|t| - 1].version);
    forall y | y in t ensures Le(sc, y.version, t[|t| - 1].version) {
      var i :| 0 <= i < |t| && t[i] == y;
      if i < |t| - 1 { assert Lt(sc, t[i].version, t[|t| - 1].version); }
    }
  }

  lemma PickIsOwed<V(!new)>(sc: Scheme<V>, rule: Match, t: Table<V>, v: V)
    requires TotalOrder(sc) && Sorted(sc, t)
    ensures forall x :: Pick(sc, rule, t, v) == Some(x) <==> Owed(sc, rule, t, v, x)
    ensures Pick(sc, rule, t, v) == None <==> NothingOwed(sc, rule, t, v)
  {
    forall x: Variant<V> ensures Pick(sc, rule, t, v) == Some(x) <==> Owed(sc, rule, t, v, x) {
      PickMeaning(sc, rule, t, v, x);
    }
    if t == [] {
    } else {
      PickMeaning(sc, rule, t, v, t[0]);
      assert Has(sc, t, v) <==> exists y :: y in t && sc.compare(y.version, v) == 0;
    }
  }

  lemma OneRuleReply<V(!new)>(c: Config<V>, rule: Match, t: Table<V>, v: V, unpinned: bool, r: Reply<V>, r': Reply<V>)
    requires TotalOrder(c.scheme) && Sorted(c.scheme, t)
    requires FollowsRule(c, rule, t, v, unpinned, r) && FollowsRule(c, rule, t, v, unpinned, r')
    ensures r == r'
  {
    PickIsOwed(c.scheme, rule, t, v);
  }

  lemma OneNewestReply<V(!new)>(c: Config<V>, t: Table<V>, latest: bool, preview: bool, unpinned: bool, r: Reply<V>,
                         r': Reply<V>)
    requires TotalOrder(c.scheme) && Sorted(c.scheme, t)
    requires FollowsNewest(c, t, latest, preview, unpinned, r) && FollowsNewest(c, t, latest, preview, unpinned, r')
    ensures r == r'
  {
    forall x, y | Newest(c.scheme, t, x) && Newest(c.scheme, t, y) ensures x == y { NewestUnique(c.scheme, t, x, y); }
  }

  /** The table leaves no choice: each request is owed one reply. */
  lemma OneReply<V(!new)>(c: Config<V>, rule: Match, t: Table<V>, overlay: Option<HandlerId>,
                          offers: seq<Option<string>>, r: Reply<V>, r': Reply<V>)
    requires TotalOrder(c.scheme) && Sorted(c.scheme, t)
    requires Decides(c, rule, t, overlay, offers, r) && Decides(c, rule, t, overlay, offers, r')
    ensures r == r'
  {
    var asked, unpinned := Asked(c, offers), FirstOffer(offers).None?;
    if t != [] || overlay.Some? {
      if asked.Version? { OneRuleReply(c, rule, t, asked.v, unpinned, r, r'); }
      if asked.Preview? && overlay.None? { OneNewestReply(c, t, false, true, unpinned, r, r'); }
      if asked.Latest? && t != [] { OneNewestReply(c, t, true, false, unpinned, r, r'); }
    }
  }

  lemma NewestUnique<V(!new)>(sc: Scheme<V>, t: Table<V>, x: Variant<V>, y: Variant<V>)
    requires TotalOrder(sc) && Sorted(sc, t) && Newest(sc, t, x) && Newest(sc, t, y)
    ensures x == y
  {
    var i :| 0 <= i < |t| && t[i] == x;
    var j :| 0 <= j < |t| && t[j] == y;
    LtOrGe(sc, x.version, y.version);
    LtOrGe(sc, y.version, x.version);
  }

  /** A preview pin is never told its version is unsupported, and a request that carries no version
      is never told its version is invalid. */
  lemma NeverOwed<V(!new)>(c: Config<V>, rule: Match, t: Table<V>, overlay: Option<HandlerId>,
                           offers: seq<Option<string>>, r: Reply<V>)
    requires WellWired(c) && Decides(c, rule, t, overlay, offers, r)
    ensures Asked(c, offers) == Preview ==> !r.Unsupported?
    ensures FirstOffer(offers).None? ==> !r.VersionInvalid?
    ensures r.VersionMissing? ==> FirstOffer(offers).None? && c.fallback == ""
  {
  }

  /** What a version_unsupported reply offers is worth pinning: under a scheme whose Format parses
      back to an equal version, a request that pins an offered version is served by that very
      variant, under either rule. */
  lemma OfferedVersionsAreServed<V(!new)>(c: Config<V>, rule: Match, t: Table<V>, overlay: Option<HandlerId>,
                                          offers: seq<Option<string>>, r: Reply<V>, x: Variant<V>)
    requires WellWired(c) && TotalOrder(c.scheme) && Sorted(c.scheme, t)
    requires x in t && x.handle.Some?
    requires var back := c.scheme.parse(c.scheme.format(x.version));
             back.Some? && c.scheme.compare(back.value, x.version) == 0
    requires FirstOffer(offers) == Some(c.scheme.format(x.version))
    requires Decides(c, rule, t, overlay, offers, r)
    ensures c.scheme.format(x.version) in Supported(c.scheme, t)
    ensures r.Served? && r.handler == x.handle.value && r.served == Some(x.version)
  {
    var sc, raw := c.scheme, c.scheme.format(x.version);
    var v := sc.parse(raw).value;
    SupportedMeans(sc, t, raw);
    var i :| 0 <= i < |t| && t[i] == x;
    assert Asked(c, offers) == Version(v) by { assert !Literal(c, raw); }
    PickIsOwed(sc, rule, t, v);
    LtOrGe(sc, v, x.version);
    PickMeaning(sc, MatchExact, t, v, x);
    forall y | y in t && Le(sc, y.version, v) ensures Le(sc, y.version, x.version) {
      LtOrGe(sc, x.version, y.version);
      if Lt(sc, x.version, y.version) { LtLe(sc, v, x.version, y.version); LtOrGe(sc, v, y.version); }
    }
    assert Owed(sc, rule, t, v, x);
  }

  // ---- withdrawal, as replies ----

  /** A concrete pin from a marker on: 410 exactly when pick gives it a marker, naming one at or past
      this one; 400 only under MatchExact, exactly where nothing is declared. */
  lemma PinPastMarkerReply<V(!new)>(c: Config<V>, rule: Match, t: Table<V>, v: V, unpinned: bool, r: Reply<V>,
                             marker: Variant<V>)
    requires TotalOrder(c.scheme) && Sorted(c.scheme, t) && marker in t && Le(c.scheme, marker.version, v)
    requires FollowsRule(c, rule, t, v, unpinned, r)
    ensures r.Withdrawn? <==> Gone(c.scheme, rule, t, v)
    ensures r.Withdrawn? ==> exists x :: x in t && x.handle.None? && Le(c.scheme, marker.version, x.version)
                                         && Le(c.scheme, x.version, v) && r.at == c.scheme.format(x.version)
    ensures r.Unsupported? <==> rule == MatchExact && !Has(c.scheme, t, v)
  {
    var sc, picked := c.scheme, Pick(c.scheme, rule, t, v);
    PickIsOwed(sc, rule, t, v);
    PickMeaning(sc, rule, t, v, marker);
    PastMarker(sc, t, marker, v);
    LtOrGe(sc, marker.version, marker.version);
    if picked.Some? {
      PickMeaning(sc, rule, t, v, picked.value);
      if rule == MatchExact { ExactIsNoOlder(sc, marker.version, v, picked.value.version); }
    }
  }

  /** So is every request that resolves to such a version. */
  lemma RequestPastMarkerReply<V(!new)>(c: Config<V>, rule: Match, t: Table<V>, overlay: Option<HandlerId>,
                                        offers: seq<Option<string>>, r: Reply<V>, marker: Variant<V>)
    requires TotalOrder(c.scheme) && Sorted(c.scheme, t) && marker in t && Decides(c, rule, t, overlay, offers, r)
    requires Asked(c, offers).Version? && Le(c.scheme, marker.version, Asked(c, offers).v)
    ensures r.Withdrawn? <==> Gone(c.scheme, rule, t, Asked(c, offers).v)
    ensures r.Unsupported? <==> rule == MatchExact && !Has(c.scheme, t, Asked(c, offers).v)
  {
    PinPastMarkerReply(c, rule, t, Asked(c, offers).v, FirstOffer(offers).None?, r, marker);
  }

  lemma ExactIsNoOlder<V(!new)>(sc: Scheme<V>, a: V, v: V, x: V)
    requires TotalOrder(sc) && Le(sc, a, v) && sc.compare(x, v) == 0
    ensures Le(sc, a, x)
  {
    LtOrGe(sc, x, v);
    LtOrGe(sc, x, a);
    if Lt(sc, x, a) { LtLe(sc, x, a, v); }
  }

  /** "Requests resolving at or past it get 410", under either rule: every concrete pin from a marker on
      is answered Withdrawn if and only if, under MatchCompatible, every later variant is a marker, and
      under MatchExact, each such pin has a marker at it. */
  lemma WithdrawnRepliesIff<V(!new)>(c: Config<V>, rule: Match, t: Table<V>, marker: Variant<V>)
    requires TotalOrder(c.scheme) && Sorted(c.scheme, t) && marker in t && marker.handle.None?
    ensures (forall v, unpinned, r | Le(c.scheme, marker.version, v) && FollowsRule(c, rule, t, v, unpinned, r) ::
               r.Withdrawn?)
            <==> MarkedOnward(c.scheme, rule, t, marker.version)
  {
    WithdrawnOnwardIff(c.scheme, rule, t, marker);
    forall v, unpinned, r | Le(c.scheme, marker.version, v) && FollowsRule(c, rule, t, v, unpinned, r)
      ensures r.Withdrawn? <==> Gone(c.scheme, rule, t, v)
    {
      PinPastMarkerReply(c, rule, t, v, unpinned, r, marker);
    }
    if !MarkedOnward(c.scheme, rule, t, marker.version) {
      var v :| Le(c.scheme, marker.version, v) && !Gone(c.scheme, rule, t, v);
      var r := SomeReply(c, rule, t, v, false);
    }
  }

  lemma SomeReply<V(!new)>(c: Config<V>, rule: Match, t: Table<V>, v: V, unpinned: bool) returns (r: Reply<V>)
    requires TotalOrder(c.scheme) && Sorted(c.scheme, t)
    ensures FollowsRule(c, rule, t, v, unpinned, r)
  {
    PickIsOwed(c.scheme, rule, t, v);
    match Pick(c.scheme, rule, t, v)
    case None => r := Unsupported(c.scheme.format(v), Supported(c.scheme, t));
    case Some(x) =>
      match x.handle {
        case None => r := Withdrawn(c.scheme.format(x.version), ChannelName(false, false));
        case Some(h) =>
          var headers := Headers(c, unpinned, false, false, Some(x.version));
          r := Served(h, Some(v), Some(x.version), false, false, headers);
      }
  }

  /** A latest pin, and a preview pin without an overlay, is told 410 exactly when the newest variant is a
      marker, whatever the rule. */
  lemma NewestPinReply<V(!new)>(c: Config<V>, rule: Match, t: Table<V>, overlay: Option<HandlerId>,
                                offers: seq<Option<string>>, r: Reply<V>)
    requires TotalOrder(c.scheme) && Sorted(c.scheme, t) && t != [] && Decides(c, rule, t, overlay, offers, r)
    requires Asked(c, offers) == Latest || (Asked(c, offers) == Preview && overlay == None)
    ensures r.Withdrawn? <==> t[|t| - 1].handle.None?
  {
    LastIsNewest(c.scheme, t);
    forall x | Newest(c.scheme, t, x) ensures x == t[|t| - 1] { NewestUnique(c.scheme, t, x, t[|t| - 1]); }
  }

  /** The one-marker endpoint: past the marker MatchCompatible answers 410 and MatchExact 400. */
  lemma LoneMarkerReplies<V(!new)>(c: Config<V>, marker: Variant<V>, v: V, unpinned: bool, r: Reply<V>, r': Reply<V>)
    requires TotalOrder(c.scheme) && marker.handle.None? && Lt(c.scheme, marker.version, v)
    requires FollowsRule(c, MatchCompatible, [marker], v, unpinned, r)
             && FollowsRule(c, MatchExact, [marker], v, unpinned, r')
    ensures r.Withdrawn? && r'.Unsupported?
  {
    WithdrawnOnwardIff(c.scheme, MatchCompatible, [marker], marker);
    LtOrGe(c.scheme, marker.version, marker.version);
    PinPastMarkerReply(c, MatchCompatible, [marker], v, unpinned, r, marker);
    PinPastMarkerReply(c, MatchExact, [marker], v, unpinned, r', marker);
  }

  lemma HeadersSay<V>(c: Config<V>, unpinned: bool, latest: bool, preview: bool, served: Option<V>)
    ensures var hs := Headers(c, unpinned, latest, preview, served);
            && (forall h | h in hs :: h != "" && (h == c.statusHeader || h == c.warnHeader))
            && (c.statusHeader != "" ==>
                  c.statusHeader in hs
                  && hs[c.statusHeader] == (if preview then "preview" else if latest then "latest" else "stable")
                                           + if served.Some? then "; version=" + c.scheme.format(served.value) else "")
            && (c.warnHeader != "" && c.warnHeader != c.statusHeader ==>
                  && (c.warnHeader in hs <==> unpinned)
                  && (unpinned && served.Some? ==> hs[c.warnHeader] == c.scheme.format(served.value))
                  && (unpinned && served.None? && preview ==> hs[c.warnHeader] == "preview"))
  {
  }

  lemma ServedShape<V(!new)>(c: Config<V>, rule: Match, t: Table<V>, overlay: Option<HandlerId>,
                             offers: seq<Option<string>>, r: Reply<V>)
    requires Decides(c, rule, t, overlay, offers, r) && r.Served?
    ensures r.latest <==> Asked(c, offers) == Latest
    ensures r.preview <==> Asked(c, offers) == Preview
    ensures r.served == None <==> Asked(c, offers) == Preview && overlay.Some?
    ensures r.headers == Headers(c, FirstOffer(offers).None?, r.latest, r.preview, r.served)
  {
  }

  /** What a served request finds on its context and in its headers: the channel it asked for, the version
      served unless it is the undated overlay, and the warning exactly when no source carried a version. */
  lemma ServedHeaders<V(!new)>(c: Config<V>, rule: Match, t: Table<V>, overlay: Option<HandlerId>,
                               offers: seq<Option<string>>, r: Reply<V>)
    requires Decides(c, rule, t, overlay, offers, r) && r.Served?
    ensures r.latest <==> Asked(c, offers) == Latest
    ensures r.preview <==> Asked(c, offers) == Preview
    ensures r.served == None <==> Asked(c, offers) == Preview && overlay.Some?
    ensures forall h | h in r.headers :: h != "" && (h == c.statusHeader || h == c.warnHeader)
    ensures c.statusHeader != "" ==>
              && c.statusHeader in r.headers
              && r.headers[c.statusHeader]
                 == (if Asked(c, offers) == Preview then "preview"
                     else if Asked(c, offers) == Latest then "latest" else "stable")
                    + if r.served.Some? then "; version=" + c.scheme.format(r.served.value) else ""
    ensures c.warnHeader != "" && c.warnHeader != c.statusHeader ==>
              && (c.warnHeader in r.headers <==> forall i | 0 <= i < |offers| :: !Usable(offers[i]))
              && (c.warnHeader in r.headers ==>
                    r.headers[c.warnHeader] == if r.served.Some? then c.scheme.format(r.served.value) else "preview")
  {
    FirstOfferIff(offers, "");
    ServedShape(c, rule, t, overlay, offers, r);
    HeadersSay(c, FirstOffer(offers).None?, r.latest, r.preview, r.served);
  }

  /** What a refused one is told: the channel it asked for and the marker's version, or what it pinned and
      what it could have. */
  lemma RefusalSays<V(!new)>(c: Config<V>, rule: Match, t: Table<V>, overlay: Option<HandlerId>,
                             offers: seq<Option<string>>, r: Reply<V>)
    requires Decides(c, rule, t, overlay, offers, r)
    ensures r.Withdrawn? ==>
              && r.channel == (if Asked(c, offers) == Preview then "preview"
                               else if Asked(c, offers) == Latest then "latest" else "stable")
              && exists x :: x in t && x.handle.None? && r.at == c.scheme.format(x.version)
    ensures r.Unsupported? ==>
              || (Asked(c, offers) == Latest && t == [] && r == Unsupported("latest", []))
              || (Asked(c, offers).Version?
                  && r == Unsupported(c.scheme.format(Asked(c, offers).v), Supported(c.scheme, t)))
  {
  }
}
