/** Router chains on the heap (http/http.go): Use, Group and HandleFunc over middleware slices that
    may share and outgrow their backing arrays. */
module Router {
  import opened GoSlices

  /** Middleware and base handlers by identity. A composed handler is the term of its composition,
      so two handlers are equal here only if every middleware makes them equal. */
  type Middleware = nat
  datatype Handler = Base(id: nat) | Wrap(mw: Middleware, next: Handler)

  /** The chain around h, first middleware outermost. */
  function Chained(chain: seq<Middleware>, h: Handler): Handler {
    if chain == [] then h else Wrap(chain[0], Chained(chain[1..], h))
  }

  /** The middleware a handler runs through, outermost first, and the base it ends in. */
  function Onion(h: Handler): (seq<Middleware>, Handler) {
    match h
    case Base(_) => ([], h)
    case Wrap(mw, next) => ([mw] + Onion(next).0, Onion(next).1)
  }

  /** A chained handler runs exactly its chain, in order, and then the base. */
  lemma {:induction false} ChainedRunsInOrder(chain: seq<Middleware>, id: nat)
    ensures Onion(Chained(chain, Base(id))) == (chain, Base(id))
  {
    if chain != [] {
      ChainedRunsInOrder(chain[1..], id);
      assert chain == [chain[0]] + chain[1..];
    }
  }

  /** Chaining composes. */
  lemma {:induction false} ChainedConcat(a: seq<Middleware>, b: seq<Middleware>, h: Handler)
    ensures Chained(a + b, h) == Chained(a, Chained(b, h))
  {
    if a == [] {
      assert a + b == b;
    } else {
      assert (a + b)[1..] == a[1..] + b;
      ChainedConcat(a[1..], b, h);
    }
  }

  datatype Route = Route(verb: string, path: string, handler: Handler, config: nat)

  class Mux {
    var routes: seq<Route>

    constructor ()
      ensures routes == []
    {
      routes := [];
    }
  }

  /** combineChain: the per-route slice itself when the group is empty, else a new array. */
  method CombineChain(group: Slice<Middleware>, perRoute: Slice<Middleware>) returns (chain: Slice<Middleware>)
    requires group.Valid() && perRoute.Valid()
    ensures chain.Valid() && chain.Elems() == group.Elems() + perRoute.Elems()
    ensures group.Len() == 0 ==> chain == perRoute
    ensures group.Len() > 0 ==> chain.Slice? && fresh(chain.arr)
  {
    if group.Len() == 0 {
      assert group.Elems() == [];
      return perRoute;
    }
    var first, second := group.Elems(), perRoute.Elems();
    chain := MakeEmpty(|first| + |second|);
    chain := Append(chain, first);
    assert chain.Elems() == first;
    chain := Append(chain, second);
  }

  /** applyMiddleware: from the last middleware to the first. */
  method ApplyMiddleware(h: Handler, mw: Slice<Middleware>) returns (wrapped: Handler)
    requires mw.Valid()
    ensures wrapped == Chained(mw.Elems(), h)
  {
    wrapped := h;
    var i := mw.Len();
    ghost var chain := mw.Elems();
    while i > 0
      invariant 0 <= i <= mw.Len() && wrapped == Chained(chain[i..], h)
    {
      i := i - 1;
      assert chain[i..][0] == mw.arr[mw.off + i] && chain[i..][1..] == chain[i + 1..];
      wrapped := Wrap(mw.arr[mw.off + i], wrapped);
    }
    assert chain[0..] == chain;
  }

  class Router {
    const mux: Mux
    const prefix: string
    const config: nat      // coercer, error writer, parser and logger: set once, inherited by groups
    var middleware: Slice<Middleware>

    constructor (mux: Mux, prefix: string, config: nat, middleware: Slice<Middleware>)
      ensures this.mux == mux && this.prefix == prefix && this.config == config && this.middleware == middleware
    {
      this.mux, this.prefix, this.config, this.middleware := mux, prefix, config, middleware;
    }

    predicate Valid()
      reads this
    {
      middleware.Valid()
    }

    function Chain(): seq<Middleware>
      requires Valid()
      reads this, if middleware.Slice? then {middleware.arr} else {}
    {
      middleware.Elems()
    }

    /** Use: an in-place append when the slice has room. */
    method Use(mw: seq<Middleware>)
      requires Valid()
      modifies this, if middleware.HasRoom(|mw|) then {middleware.arr} else {}
      ensures Valid() && Chain() == old(Chain()) + mw
      ensures middleware == old(middleware)
              || (middleware.Slice?
                 && (fresh(middleware.arr) || (old(middleware).Slice? && middleware.arr == old(middleware).arr)))
    {
      var appended := Append(middleware, mw);
      middleware := appended;
    }

    /** Group: a copy of the chain as it is now, in an array of its own. */
    method Group(prefix: string) returns (g: Router)
      requires Valid()
      ensures fresh(g) && g.Valid() && g.Chain() == Chain()
      ensures g.mux == mux && g.prefix == this.prefix + prefix && g.config == config
      ensures g.middleware.Slice? ==> fresh(g.middleware.arr)
    {
      var snapshot := Append(NilSlice, middleware.Elems());
      g := new Router(mux, this.prefix + prefix, config, snapshot);
    }

    /** HandleFunc: the chain is applied now, so the route keeps it. */
    method HandleFunc(verb: string, path: string, h: Handler, mw: Slice<Middleware>)
      requires Valid() && mw.Valid()
      modifies mux
      ensures mux.routes == old(mux.routes)
              + [Route(verb, prefix + path, old(Chained(Chain() + mw.Elems(), h)), config)]
    {
      var chain := CombineChain(middleware, mw);
      var wrapped := ApplyMiddleware(h, chain);
      mux.routes := mux.routes + [Route(verb, prefix + path, wrapped, config)];
    }
  }

  // ---- any wiring of routers and groups ----

  /** What a router says: its path prefix and its chain. */
  datatype Plan = Plan(prefix: string, chain: seq<Middleware>)

  /** Routers are numbered in the order they come to be; 0 is the root. */
  datatype Call =
    | CallUse(r: nat, mw: seq<Middleware>)
    | CallGroup(r: nat, prefix: string)
    | CallHandle(r: nat, verb: string, path: string, h: Handler, mw: seq<Middleware>)

  /** How many routers there are after the calls. */
  function Routers(calls: seq<Call>): (n: nat)
    ensures n >= 1
  {
    if calls == [] then 1
    else Routers(calls[..|calls| - 1]) + if calls[|calls| - 1].CallGroup? then 1 else 0
  }

  /** Each call names a router that exists when it is made. */
  predicate Named(calls: seq<Call>) {
    forall i | 0 <= i < |calls| :: calls[i].r < Routers(calls[..i])
  }

  /** Router r's chain as a value: what it inherited when it was grouped, then what it was itself
      given, in order. No call on any other router appears. */
  function ChainOf(root: seq<Middleware>, calls: seq<Call>, r: nat): seq<Middleware>
    requires Named(calls) && r < Routers(calls)
  {
    if calls == [] then root
    else
      var before, last := calls[..|calls| - 1], calls[|calls| - 1];
      NamedBefore(calls);
      match last
      case CallUse(q, mw) => ChainOf(root, before, r) + if q == r then mw else []
      case CallGroup(q, _) => ChainOf(root, before, if r == Routers(before) then q else r)
      case CallHandle(_, _, _, _, _) => ChainOf(root, before, r)
  }

  lemma NamedBefore(calls: seq<Call>)
    requires Named(calls) && calls != []
    ensures Named(calls[..|calls| - 1]) && calls[|calls| - 1].r < Routers(calls[..|calls| - 1])
  {
    var before := calls[..|calls| - 1];
    assert forall i | 0 <= i < |before| :: before[i] == calls[i] && before[..i] == calls[..i];
  }

  function PrefixOf(root: string, calls: seq<Call>, r: nat): string
    requires Named(calls) && r < Routers(calls)
  {
    if calls == [] then root
    else
      var before, last := calls[..|calls| - 1], calls[|calls| - 1];
      NamedBefore(calls);
      if last.CallGroup? && r == Routers(before) then PrefixOf(root, before, last.r) + last.prefix
      else PrefixOf(root, before, r)
  }

  /** The routes registered, each with the chain its router had at that call. */
  function RoutesOf(root: seq<Middleware>, prefix: string, config: nat, calls: seq<Call>): seq<Route>
    requires Named(calls)
  {
    if calls == [] then []
    else
      var before, last := calls[..|calls| - 1], calls[|calls| - 1];
      NamedBefore(calls);
      RoutesOf(root, prefix, config, before)
      + RoutesMade(Plan(PrefixOf(prefix, before, last.r), ChainOf(root, before, last.r)), config, last)
  }

  /** What one call registers, on a router with the given prefix and chain. */
  function RoutesMade(plan: Plan, config: nat, call: Call): seq<Route> {
    match call
    case CallHandle(_, verb, path, h, mw) => [Route(verb, plan.prefix + path, Chained(plan.chain + mw, h), config)]
    case CallUse(_, _) => []
    case CallGroup(_, _) => []
  }

  /** The middleware Used on router r itself, from call `from` on. */
  function OwnUses(calls: seq<Call>, from: nat, r: nat): seq<Middleware> {
    if |calls| <= from then []
    else
      var last := calls[|calls| - 1];
      OwnUses(calls[..|calls| - 1], from, r) + if last.CallUse? && last.r == r then last.mw else []
  }

  /** One more call adds to a router's chain what it Uses on that router. */
  lemma ChainGrows(root: seq<Middleware>, calls: seq<Call>, r: nat)
    requires Named(calls) && calls != [] && Named(calls[..|calls| - 1]) && r < Routers(calls[..|calls| - 1])
    ensures r < Routers(calls)
    ensures var last := calls[|calls| - 1];
            ChainOf(root, calls, r) == ChainOf(root, calls[..|calls| - 1], r)
            + if last.CallUse? && last.r == r then last.mw else []
  {
    assert ChainOf(root, calls[..|calls| - 1], r) + [] == ChainOf(root, calls[..|calls| - 1], r);
  }

  lemma GroupInherits(root: seq<Middleware>, calls: seq<Call>)
    requires Named(calls) && calls != [] && calls[|calls| - 1].CallGroup? && Named(calls[..|calls| - 1])
    requires calls[|calls| - 1].r < Routers(calls[..|calls| - 1])
    ensures ChainOf(root, calls, Routers(calls[..|calls| - 1]))
            == ChainOf(root, calls[..|calls| - 1], calls[|calls| - 1].r)
  {
  }

  lemma OwnUsesGrow(inherited: seq<Middleware>, calls: seq<Call>, from: nat, r: nat)
    requires from < |calls|
    ensures var last := calls[|calls| - 1];
            inherited + OwnUses(calls, from, r)
            == inherited + OwnUses(calls[..|calls| - 1], from, r) + if last.CallUse? && last.r == r then last.mw else []
  {
  }

  /** Isolation: whatever happens elsewhere, a group's chain is its parent's at the moment it was
      grouped, followed by what it was itself given since. */
  lemma {:induction false} GroupChainIsSnapshotPlusOwn(root: seq<Middleware>, calls: seq<Call>, birth: nat)
    requires Named(calls) && birth < |calls| && calls[birth].CallGroup?
    requires Named(calls[..birth]) && calls[birth].r < Routers(calls[..birth]) < Routers(calls)
    ensures ChainOf(root, calls, Routers(calls[..birth]))
            == ChainOf(root, calls[..birth], calls[birth].r) + OwnUses(calls, birth + 1, Routers(calls[..birth]))
    decreases |calls|
  {
    var r, before := Routers(calls[..birth]), calls[..|calls| - 1];
    NamedBefore(calls);
    if birth < |calls| - 1 {
      assert before[..birth] == calls[..birth];
      RoutersGrow(before, birth);
      GroupChainIsSnapshotPlusOwn(root, before, birth);
      ChainGrows(root, calls, r);
      OwnUsesGrow(ChainOf(root, calls[..birth], calls[birth].r), calls, birth + 1, r);
    } else {
      GroupInherits(root, calls);
      assert OwnUses(calls, birth + 1, r) == [];
    }
  }

  /** A group's route runs through what the group inherited when it was made, then what was Used on the
      group itself, then the route's own middleware, each around the next, and then the handler. */
  lemma GroupRouteIsLayered(root: seq<Middleware>, prefix: string, config: nat, calls: seq<Call>, birth: nat,
                            call: Call)
    requires Named(calls) && birth < |calls| && calls[birth].CallGroup?
    requires Named(calls[..birth]) && calls[birth].r < Routers(calls[..birth]) < Routers(calls)
    requires call.CallHandle? && call.r == Routers(calls[..birth])
    ensures RoutesMade(Plan(PrefixOf(prefix, calls, call.r), ChainOf(root, calls, call.r)), config, call)
            == [Route(call.verb, PrefixOf(prefix, calls, call.r) + call.path,
                      Chained(ChainOf(root, calls[..birth], calls[birth].r),
                              Chained(OwnUses(calls, birth + 1, call.r), Chained(call.mw, call.h))), config)]
  {
    var inherited, own := ChainOf(root, calls[..birth], calls[birth].r), OwnUses(calls, birth + 1, call.r);
    GroupChainIsSnapshotPlusOwn(root, calls, birth);
    assert inherited + own + call.mw == inherited + (own + call.mw);
    ChainedConcat(inherited, own + call.mw, call.h);
    ChainedConcat(own, call.mw, call.h);
  }

  lemma {:induction false} RoutersGrow(calls: seq<Call>, i: nat)
    requires i < |calls| && calls[i].CallGroup?
    ensures Routers(calls[..i]) < Routers(calls)
    decreases |calls|
  {
    if i < |calls| - 1 {
      assert calls[..|calls| - 1][..i] == calls[..i];
      RoutersGrow(calls[..|calls| - 1], i);
    }
  }

  /** No later call changes a registered route. */
  lemma {:induction false} RoutesNeverChange(root: seq<Middleware>, prefix: string, config: nat, calls: seq<Call>,
                                             n: nat)
    requires Named(calls) && n <= |calls| && Named(calls[..n])
    ensures RoutesOf(root, prefix, config, calls[..n]) <= RoutesOf(root, prefix, config, calls)
    decreases |calls|
  {
    if n < |calls| {
      NamedBefore(calls);
      assert calls[..|calls| - 1][..n] == calls[..n];
      RoutesNeverChange(root, prefix, config, calls[..|calls| - 1], n);
    } else {
      assert calls[..n] == calls;
    }
  }

  // ---- the heap refines the values ----

  /** What every router says after the calls, in order of creation. */
  function PlansOf(root: Plan, calls: seq<Call>): (plans: seq<Plan>)
    requires Named(calls)
    ensures |plans| == Routers(calls)
  {
    if calls == [] then [root]
    else
      var last := calls[|calls| - 1];
      NamedBefore(calls);
      AfterCall(PlansOf(root, calls[..|calls| - 1]), last)
  }

  function AfterCall(plans: seq<Plan>, call: Call): seq<Plan>
    requires call.r < |plans|
  {
    match call
    case CallUse(r, mw) => plans[r := Plan(plans[r].prefix, plans[r].chain + mw)]
    case CallGroup(r, prefix) => plans + [Plan(plans[r].prefix + prefix, plans[r].chain)]
    case CallHandle(_, _, _, _, _) => plans
  }

  lemma {:induction false} PlansAreOwnPaths(root: Plan, calls: seq<Call>, r: nat)
    requires Named(calls) && r < Routers(calls)
    ensures PlansOf(root, calls)[r] == Plan(PrefixOf(root.prefix, calls, r), ChainOf(root.chain, calls, r))
    decreases |calls|
  {
    if calls != [] {
      var before, last := calls[..|calls| - 1], calls[|calls| - 1];
      NamedBefore(calls);
      PlansAreOwnPaths(root, before, if last.CallGroup? && r == Routers(before) then last.r else r);
    }
  }

  lemma AllPlansAreOwnPaths(root: Plan, calls: seq<Call>)
    requires Named(calls)
    ensures forall r | 0 <= r < Routers(calls) ::
              PlansOf(root, calls)[r] == Plan(PrefixOf(root.prefix, calls, r), ChainOf(root.chain, calls, r))
  {
    forall r | 0 <= r < Routers(calls)
      ensures PlansOf(root, calls)[r] == Plan(PrefixOf(root.prefix, calls, r), ChainOf(root.chain, calls, r))
    {
      PlansAreOwnPaths(root, calls, r);
    }
  }

  /** The routers are distinct objects over distinct arrays, and each says what its plan says. */
  ghost predicate Follow(routers: seq<Router>, plans: seq<Plan>)
    reads routers, set r | r in routers && r.middleware.Slice? :: r.middleware.arr
  {
    && |routers| == |plans|
    && (forall i, j | 0 <= i < j < |routers| :: routers[i] != routers[j])
    && (forall i, j | 0 <= i < j < |routers| && routers[i].middleware.Slice? && routers[j].middleware.Slice? ::
          routers[i].middleware.arr != routers[j].middleware.arr)
    && (forall i | 0 <= i < |routers| :: routers[i].Valid() && plans[i] == Plan(routers[i].prefix, routers[i].Chain()))
  }

  /** Use on one router leaves every other as it was. */
  method UseOn(routers: seq<Router>, r: nat, mw: seq<Middleware>, ghost plans: seq<Plan>)
    requires r < |routers| && Follow(routers, plans)
    modifies routers[r], if routers[r].middleware.HasRoom(|mw|) then {routers[r].middleware.arr} else {}
    ensures Follow(routers, AfterCall(plans, CallUse(r, mw)))
    ensures routers[r].middleware == old(routers[r].middleware)
            || (routers[r].middleware.Slice?
                && (fresh(routers[r].middleware.arr)
                    || (old(routers[r].middleware).Slice?
                       && routers[r].middleware.arr == old(routers[r].middleware).arr)))
  {
    routers[r].Use(mw);
    forall i | 0 <= i < |routers| && i != r ensures routers[i].Chain() == old(routers[i].Chain()) {
      assert routers[i] != routers[r];
    }
  }

  method GroupOf(routers: seq<Router>, r: nat, prefix: string, ghost plans: seq<Plan>) returns (more: seq<Router>)
    requires r < |routers| && Follow(routers, plans)
    ensures Follow(more, AfterCall(plans, CallGroup(r, prefix)))
    ensures |more| == |routers| + 1 && more[..|routers|] == routers && fresh(more[|routers|])
    ensures more[|routers|].mux == routers[r].mux && more[|routers|].config == routers[r].config
    ensures more[|routers|].middleware.Slice? ==> fresh(more[|routers|].middleware.arr)
  {
    var g := routers[r].Group(prefix);
    more := routers + [g];
  }

  method HandleOn(routers: seq<Router>, call: Call, ghost plans: seq<Plan>)
    requires call.r < |routers| && Follow(routers, plans) && call.CallHandle?
    modifies routers[call.r].mux
    ensures Follow(routers, plans)
    ensures routers[call.r].mux.routes
            == old(routers[call.r].mux.routes) + RoutesMade(plans[call.r], routers[call.r].config, call)
  {
    var r := routers[call.r];
    var perRoute := Append(NilSlice, call.mw);
    assert perRoute.Elems() == call.mw;
    assert plans[call.r] == Plan(r.prefix, r.Chain());
    r.HandleFunc(call.verb, call.path, call.h, perRoute);
  }

  /** Any one call on any router of a wiring. */
  method Make(routers: seq<Router>, call: Call, ghost plans: seq<Plan>) returns (more: seq<Router>)
    requires call.r < |routers| && Follow(routers, plans)
    modifies routers[call.r], routers[call.r].mux,
             if routers[call.r].middleware.Slice? then {routers[call.r].middleware.arr} else {}
    ensures Follow(more, AfterCall(plans, call))
    ensures routers[call.r].mux.routes
            == old(routers[call.r].mux.routes) + RoutesMade(plans[call.r], routers[call.r].config, call)
    ensures routers <= more && forall i | |routers| <= i < |more| ::
              && fresh(more[i]) && more[i].mux == routers[call.r].mux && more[i].config == routers[call.r].config
              && (more[i].middleware.Slice? ==> fresh(more[i].middleware.arr))
    ensures routers[call.r].middleware.Slice? ==>
              || fresh(routers[call.r].middleware.arr)
              || (old(routers[call.r].middleware).Slice?
                 && routers[call.r].middleware.arr == old(routers[call.r].middleware).arr)
  {
    more := routers;
    if call.CallHandle? {
      HandleOn(routers, call, plans);
    } else {
      assert old(routers[call.r].mux.routes) + [] == old(routers[call.r].mux.routes);
      if call.CallUse? {
        UseOn(routers, call.r, call.mw, plans);
      } else {
        more := GroupOf(routers, call.r, call.prefix, plans);
      }
    }
  }

  /** The value functions, one call further. */
  lemma OneMoreCall(root: Plan, config: nat, calls: seq<Call>, n: nat)
    requires Named(calls) && n < |calls|
    ensures Named(calls[..n]) && Named(calls[..n + 1]) && calls[n].r < Routers(calls[..n])
    ensures PlansOf(root, calls[..n + 1]) == AfterCall(PlansOf(root, calls[..n]), calls[n])
    ensures RoutesOf(root.chain, root.prefix, config, calls[..n + 1])
            == RoutesOf(root.chain, root.prefix, config, calls[..n])
               + RoutesMade(PlansOf(root, calls[..n])[calls[n].r], config, calls[n])
  {
    var now, next := calls[..n], calls[..n + 1];
    assert next[..|next| - 1] == now && next[|next| - 1] == calls[n];
    NamedPrefix(calls, n);
    NamedPrefix(calls, n + 1);
    PlansAreOwnPaths(root, now, calls[n].r);
  }

  lemma NamedPrefix(calls: seq<Call>, n: nat)
    requires Named(calls) && n <= |calls|
    ensures Named(calls[..n])
  {
    assert forall i | 0 <= i < n :: calls[..n][i] == calls[i] && calls[..n][..i] == calls[..i];
  }

  /** The wiring stays within frame: its routers, the root's mux, and the arrays behind the chains. */
  ghost predicate Owned(root: Router, routers: seq<Router>, frame: set<object>)
    reads routers
  {
    && routers != [] && routers[0] == root && root.mux in frame
    && (forall i | 0 <= i < |routers| :: routers[i] in frame && routers[i].mux == root.mux
                                          && routers[i].config == root.config)
    && (forall i | 0 <= i < |routers| && routers[i].middleware.Slice? :: routers[i].middleware.arr in frame)
  }

  /** One call of a wiring, on its own objects and such as it allocates. */
  method WireStep(root: Router, routers: seq<Router>, call: Call, ghost plans: seq<Plan>, ghost frame: set<object>)
    returns (more: seq<Router>, ghost frame': set<object>)
    requires Owned(root, routers, frame) && Follow(routers, plans) && call.r < |routers|
    modifies frame
    ensures Owned(root, more, frame') && Follow(more, AfterCall(plans, call))
    ensures frame <= frame' && fresh(frame' - frame)
    ensures root.mux.routes == old(root.mux.routes) + RoutesMade(plans[call.r], root.config, call)
  {
    more := Make(routers, call, plans);
    frame' := frame + (set i | |routers| <= i < |more| :: more[i])
              + (set i | 0 <= i < |more| && more[i].middleware.Slice? :: more[i].middleware.arr);
  }

  /** The values before each call and after the last. */
  ghost predicate Course(calls: seq<Call>, config: nat, plans: seq<seq<Plan>>, routes: seq<seq<Route>>) {
    && |plans| == |routes| == |calls| + 1
    && forall n | 0 <= n < |calls| ::
         && calls[n].r < |plans[n]| && plans[n + 1] == AfterCall(plans[n], calls[n])
         && routes[n + 1] == routes[n] + RoutesMade(plans[n][calls[n].r], config, calls[n])
  }

  lemma CourseOf(root: Plan, config: nat, calls: seq<Call>) returns (plans: seq<seq<Plan>>, routes: seq<seq<Route>>)
    requires Named(calls)
    ensures Course(calls, config, plans, routes) && plans[0] == [root] && routes[0] == []
    ensures plans[|calls|] == PlansOf(root, calls)
    ensures routes[|calls|] == RoutesOf(root.chain, root.prefix, config, calls)
  {
    forall n | 0 <= n <= |calls| ensures Named(calls[..n]) { NamedPrefix(calls, n); }
    plans := seq(|calls| + 1, n requires 0 <= n <= |calls| && Named(calls[..n]) => PlansOf(root, calls[..n]));
    routes := seq(|calls| + 1, n requires 0 <= n <= |calls| && Named(calls[..n]) =>
                    RoutesOf(root.chain, root.prefix, config, calls[..n]));
    forall n | 0 <= n < |calls|
      ensures calls[n].r < |plans[n]| && plans[n + 1] == AfterCall(plans[n], calls[n])
      ensures routes[n + 1] == routes[n] + RoutesMade(plans[n][calls[n].r], config, calls[n])
    {
      OneMoreCall(root, config, calls, n);
    }
    assert calls[..|calls|] == calls && calls[..0] == [];
  }

  /** All the calls, keeping the heap in step with the values. */
  method WireAlong(root: Router, calls: seq<Call>, ghost plans: seq<seq<Plan>>, ghost routes: seq<seq<Route>>)
    returns (routers: seq<Router>)
    requires root.Valid() && Course(calls, root.config, plans, routes)
    requires plans[0] == [Plan(root.prefix, root.Chain())] && root.mux.routes == routes[0]
    modifies root, root.mux, if root.middleware.Slice? then {root.middleware.arr} else {}
    ensures Follow(routers, plans[|calls|]) && root.mux.routes == routes[|calls|]
  {
    routers := [root];
    ghost var given: set<object> := {root, root.mux} + if root.middleware.Slice? then {root.middleware.arr} else {};
    ghost var frame := given;
    for n := 0 to |calls|
      invariant Owned(root, routers, frame) && fresh(frame - given)
      invariant Follow(routers, plans[n]) && root.mux.routes == routes[n]
    {
      routers, frame := WireStep(root, routers, calls[n], plans[n], frame);
    }
  }

  /** The heap refines the values: after any calls on a router and its groups, each router's prefix
      and chain and the routes on the mux are the value functions above, however each slice grows. */
  method Wire(root: Router, calls: seq<Call>) returns (routers: seq<Router>)
    requires root.Valid() && Named(calls) && root.mux.routes == []
    modifies root, root.mux, if root.middleware.Slice? then {root.middleware.arr} else {}
    ensures |routers| == Routers(calls)
    ensures forall i | 0 <= i < |routers| ::
              && routers[i].Valid() && routers[i].Chain() == ChainOf(old(root.Chain()), calls, i)
              && routers[i].prefix == PrefixOf(root.prefix, calls, i)
    ensures root.mux.routes == RoutesOf(old(root.Chain()), root.prefix, root.config, calls)
  {
    ghost var plan := Plan(root.prefix, root.Chain());
    ghost var plans, routes := CourseOf(plan, root.config, calls);
    routers := WireAlong(root, calls, plans, routes);
    AllPlansAreOwnPaths(plan, calls);
  }
}
