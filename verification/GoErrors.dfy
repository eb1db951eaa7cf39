/** Go error values as finite trees, with the two library walks over them (errors.Is and
    errors.As). A nil error is None; an error has an identity (the pointer that errors.Is
    compares), what errors.As can find it to be, and the errors it wraps. */
module GoErrors {
  import opened Options

  datatype Kind =
    | Plain
    | PgError(code: string, constraint: string)
    | EventError(eventCode: string, event: string)
    | ReqError(reqCode: string)

  datatype Error = Error(id: nat, kind: Kind, causes: seq<Error>)

  /** The type a caller hands to errors.As. */
  datatype Target = PgTarget | EventTarget | ReqTarget

  predicate Matches(e: Error, t: Target) {
    match t
    case PgTarget => e.kind.PgError?
    case EventTarget => e.kind.EventError?
    case ReqTarget => e.kind.ReqError?
  }

  /** errors.Is against a comparable target. */
  predicate Is(e: Error, target: nat)
    decreases e, 1
  {
    e.id == target || IsAny(e.causes, target)
  }

  predicate IsAny(es: seq<Error>, target: nat)
    decreases es, 0
  {
    es != [] && (Is(es[0], target) || IsAny(es[1..], target))
  }

  /** errors.As: the first match, the error itself before its causes, causes left to right. */
  function As(e: Error, t: Target): Option<Error>
    decreases e, 1
  {
    if Matches(e, t) then Some(e) else AsAny(e.causes, t)
  }

  function AsAny(es: seq<Error>, t: Target): Option<Error>
    decreases es, 0
  {
    if es == [] then None
    else
      var first := As(es[0], t);
      if first.Some? then first else AsAny(es[1..], t)
  }

  // The declarative counterpart: the pre-order listing of the tree.

  function Walk(e: Error): seq<Error>
    decreases e, 1
  {
    [e] + WalkAll(e.causes)
  }

  function WalkAll(es: seq<Error>): seq<Error>
    decreases es, 0
  {
    if es == [] then [] else Walk(es[0]) + WalkAll(es[1..])
  }

  /** r is the first element of walk that t accepts, or None when there is none. */
  ghost predicate FirstMatch(walk: seq<Error>, t: Target, r: Option<Error>) {
    match r
    case None => forall i | 0 <= i < |walk| :: !Matches(walk[i], t)
    case Some(e) => exists i :: 0 <= i < |walk| && walk[i] == e && Matches(e, t)
                                && forall j | 0 <= j < i :: !Matches(walk[j], t)
  }

  lemma FirstMatchConcat(a: seq<Error>, b: seq<Error>, t: Target, ra: Option<Error>, rb: Option<Error>)
    requires FirstMatch(a, t, ra) && FirstMatch(b, t, rb)
    ensures FirstMatch(a + b, t, if ra.Some? then ra else rb)
  {
    if ra.Some? {
      var i :| 0 <= i < |a| && a[i] == ra.value && forall j | 0 <= j < i :: !Matches(a[j], t);
      assert (a + b)[i] == ra.value;
    } else if rb.Some? {
      var i :| 0 <= i < |b| && b[i] == rb.value && forall j | 0 <= j < i :: !Matches(b[j], t);
      assert (a + b)[|a| + i] == rb.value;
    }
  }

  /** errors.As answers with the first match of the pre-order listing. */
  lemma {:induction false} AsIsFirstInWalk(e: Error, t: Target)
    ensures FirstMatch(Walk(e), t, As(e, t))
    decreases e, 1
  {
    AsAnyIsFirstInWalk(e.causes, t);
    assert FirstMatch([e], t, if Matches(e, t) then Some(e) else None) by {
      assert [e][0] == e;
    }
    FirstMatchConcat([e], WalkAll(e.causes), t, if Matches(e, t) then Some(e) else None, AsAny(e.causes, t));
  }

  lemma {:induction false} AsAnyIsFirstInWalk(es: seq<Error>, t: Target)
    ensures FirstMatch(WalkAll(es), t, AsAny(es, t))
    decreases es, 0
  {
    if es != [] {
      AsIsFirstInWalk(es[0], t);
      AsAnyIsFirstInWalk(es[1..], t);
      FirstMatchConcat(Walk(es[0]), WalkAll(es[1..]), t, As(es[0], t), AsAny(es[1..], t));
    }
  }

  /** errors.Is holds exactly when the target's identity occurs somewhere in the listing. */
  lemma {:induction false} IsMeansInWalk(e: Error, target: nat)
    ensures Is(e, target) <==> exists x :: x in Walk(e) && x.id == target
    decreases e, 1
  {
    IsAnyMeansInWalk(e.causes, target);
    assert e in Walk(e);
  }

  lemma {:induction false} IsAnyMeansInWalk(es: seq<Error>, target: nat)
    ensures IsAny(es, target) <==> exists x :: x in WalkAll(es) && x.id == target
    decreases es, 0
  {
    if es != [] {
      IsMeansInWalk(es[0], target);
      IsAnyMeansInWalk(es[1..], target);
    }
  }

  /** errors.Join: nil when every error is nil, otherwise one node over the non-nil ones. */
  function Join(es: seq<Error>, node: nat): Option<Error> {
    if es == [] then None else Some(Error(node, Plain, es))
  }

  lemma {:induction false} IsAnyMember(es: seq<Error>, target: nat)
    ensures IsAny(es, target) <==> exists i :: 0 <= i < |es| && Is(es[i], target)
  {
    if es != [] {
      IsAnyMember(es[1..], target);
      if i :| 0 <= i < |es| && Is(es[i], target) {
        if i > 0 { assert es[1..][i - 1] == es[i]; }
      }
      if IsAny(es[1..], target) {
        var j :| 0 <= j < |es[1..]| && Is(es[1..][j], target);
        assert es[j + 1] == es[1..][j];
      }
    }
  }
}
