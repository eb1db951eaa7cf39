/** Decorating shared errors (http/reqerr.go): WithReasons and WithStatus on the heap. */
module ReqErrors {
  import opened GoSlices

  datatype Reason = Reason(code: string, meta: map<string, string>, reasons: seq<Reason>)

  /** Everything an error says: what it answers errors.Is for, its status and its wire body. */
  datatype View = View(code: string, meta: map<string, string>, causes: seq<nat>, status: int, reasons: seq<Reason>)

  class ReqError {
    var code: string
    var meta: map<string, string>
    var reasons: Slice<Reason>
    var status: int
    var causes: seq<nat>

    /** New. */
    constructor (code: string, meta: map<string, string>, causes: seq<nat>)
      ensures Valid() && Says() == View(code, meta, causes, 0, [])
      ensures this.code == code && this.meta == meta && this.causes == causes && reasons == NilSlice
    {
      this.code, this.meta, this.causes := code, meta, causes;
      reasons, status := NilSlice, 0;
    }

    predicate Valid()
      reads this
    {
      reasons.Valid()
    }

    function Says(): View
      requires Valid()
      reads this, if reasons.Slice? then {reasons.arr} else {}
    {
      View(code, meta, causes, status, reasons.Elems())
    }

    /** out := *e. */
    method Copy() returns (out: ReqError)
      requires Valid()
      ensures fresh(out) && out.Valid() && out.reasons == reasons && out.Says() == Says()
    {
      out := new ReqError(code, meta, causes);
      out.reasons, out.status := reasons, status;
    }

    method WithStatus(forced: int) returns (out: ReqError)
      requires Valid()
      ensures fresh(out) && out.Valid() && out.Says() == Says().(status := forced)
    {
      out := Copy();
      out.status := forced;
    }

    /** Appends to the clipped slice, so nothing that existed before the call is written to. */
    method WithReasons(more: seq<Reason>) returns (out: ReqError)
      requires Valid()
      ensures fresh(out) && out.Valid() && out.Says() == Says().(reasons := Says().reasons + more)
    {
      out := Copy();
      var appended := Append(reasons.Clip(), more);
      out.reasons := appended;
    }
  }

  /** A decoration of an earlier error: 0 is the shared sentinel, i the i-th error derived. */
  datatype Call = AddReasons(from: nat, more: seq<Reason>) | SetStatus(from: nat, forced: int)

  predicate WellOrdered(calls: seq<Call>) {
    forall i | 0 <= i < |calls| :: calls[i].from <= i
  }

  /** What error i says, read along its own derivation path from the sentinel: the path's reasons
      concatenated, and the last status the path forced. */
  function AlongPath(base: View, calls: seq<Call>, i: nat): View
    requires WellOrdered(calls) && i <= |calls|
  {
    if i == 0 then base
    else
      Decorated(AlongPath(base, calls, calls[i - 1].from), calls[i - 1])
  }

  function Decorated(v: View, call: Call): View {
    match call
    case AddReasons(_, more) => v.(reasons := v.reasons + more)
    case SetStatus(_, forced) => v.(status := forced)
  }

  method Decorate(parent: ReqError, call: Call) returns (out: ReqError)
    requires parent.Valid()
    ensures fresh(out) && out.Valid() && out.Says() == Decorated(parent.Says(), call)
  {
    match call {
      case AddReasons(_, more) => out := parent.WithReasons(more);
      case SetStatus(_, forced) => out := parent.WithStatus(forced);
    }
  }

  /** What all the errors of a program say, in the order they were made. */
  function Views(base: View, calls: seq<Call>): (vs: seq<View>)
    requires WellOrdered(calls)
    ensures |vs| == |calls| + 1
  {
    if calls == [] then [base]
    else
      var before := Views(base, calls[..|calls| - 1]);
      before + [Decorated(before[calls[|calls| - 1].from], calls[|calls| - 1])]
  }

  lemma {:induction false} ViewsStepwise(base: View, calls: seq<Call>)
    requires WellOrdered(calls)
    ensures Course(base, calls, Views(base, calls))
  {
    if calls != [] { ViewsStepwise(base, calls[..|calls| - 1]); }
  }

  lemma {:induction false} ViewsFollowPaths(base: View, calls: seq<Call>, i: nat)
    requires WellOrdered(calls) && i <= |calls|
    ensures Views(base, calls)[i] == AlongPath(base, calls, i)
    decreases |calls|, i
  {
    if calls != [] {
      var front := calls[..|calls| - 1];
      if i < |calls| {
        ViewsFollowPaths(base, front, i);
        PathsIgnoreLaterCalls(base, front, calls, i);
      } else {
        var from := calls[|calls| - 1].from;
        ViewsFollowPaths(base, front, from);
        PathsIgnoreLaterCalls(base, front, calls, from);
      }
    }
  }

  /** An error's path never runs through calls made after it. */
  lemma {:induction false} PathsIgnoreLaterCalls(base: View, calls: seq<Call>, more: seq<Call>, i: nat)
    requires WellOrdered(calls) && WellOrdered(more) && calls <= more && i <= |calls|
    ensures AlongPath(base, calls, i) == AlongPath(base, more, i)
  {
    if i > 0 { PathsIgnoreLaterCalls(base, calls, more, calls[i - 1].from); }
  }

  /** The errors so far, the sentinel among them, say what the views say. */
  ghost predicate Saying(errs: seq<ReqError>, views: seq<View>)
    reads errs, set e | e in errs && e.reasons.Slice? :: e.reasons.arr
  {
    |errs| <= |views| && forall i | 0 <= i < |errs| :: errs[i].Valid() && errs[i].Says() == views[i]
  }

  method DeriveOne(errs: seq<ReqError>, call: Call, ghost views: seq<View>) returns (more: seq<ReqError>)
    requires Saying(errs, views) && call.from < |errs| < |views|
    requires views[|errs|] == Decorated(views[call.from], call)
    ensures |more| == |errs| + 1 && errs <= more && fresh(more[|errs|]) && Saying(more, views)
  {
    var out := Decorate(errs[call.from], call);
    more := errs + [out];
  }

  /** The views, one decoration after the other. */
  ghost predicate Course(base: View, calls: seq<Call>, views: seq<View>) {
    && |views| == |calls| + 1 && views[0] == base
    && forall n | 0 <= n < |calls| :: calls[n].from <= n && views[n + 1] == Decorated(views[calls[n].from], calls[n])
  }

  method DeriveAlong(sentinel: ReqError, calls: seq<Call>, ghost views: seq<View>) returns (errs: seq<ReqError>)
    requires sentinel.Valid() && Course(sentinel.Says(), calls, views)
    ensures |errs| == |views| && errs[0] == sentinel && Saying(errs, views)
    ensures forall i | 1 <= i < |errs| :: fresh(errs[i])
  {
    errs := [sentinel];
    for n := 0 to |calls|
      invariant |errs| == n + 1 && errs[0] == sentinel && Saying(errs, views)
      invariant forall i | 1 <= i <= n :: fresh(errs[i])
    {
      errs := DeriveOne(errs, calls[n], views);
    }
  }

  /** Any program that decorates one shared sentinel, branching as it likes: every error says
      exactly what its own path makes it say, whatever spare capacity the sentinel's slice came
      with, and the program writes to nothing that existed before (it has no modifies clause). */
  method Derive(sentinel: ReqError, calls: seq<Call>) returns (errs: seq<ReqError>)
    requires sentinel.Valid() && WellOrdered(calls)
    ensures |errs| == |calls| + 1 && errs[0] == sentinel
    ensures forall i | 1 <= i < |errs| :: fresh(errs[i])
    ensures forall i | 0 <= i < |errs| :: errs[i].Valid() && errs[i].Says() == AlongPath(old(sentinel.Says()), calls, i)
  {
    ghost var base := sentinel.Says();
    ViewsStepwise(base, calls);
    errs := DeriveAlong(sentinel, calls, Views(base, calls));
    forall i | 0 <= i < |errs| ensures Views(base, calls)[i] == AlongPath(base, calls, i) {
      ViewsFollowPaths(base, calls, i);
    }
  }
}
