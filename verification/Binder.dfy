/** Binding a request to a struct (http/parser.go): the plan built from the tags, and the loops that
    write the fields and collect the reasons. Reflection, the string setters and json.Unmarshal are
    functions of the field's type, the value it holds and the text they are given. */
module Binder {
  import opened Options
  import opened Sequences
  import opened ReqErrors
  import GoStrings
  import Order = StringOrder

  /** The contents of a field, and a raw JSON value. */
  type Value = int
  type Json = int

  datatype Field = Field(exported: bool, isLenient: bool, path: string, query: string, json: string, kind: nat)

  datatype ReqType = EmptyReq | NotStruct | Struct(fields: seq<Field>)

  datatype JsonError = TypeMismatch(expected: string, got: string) | OtherError(message: string)

  datatype Outcome<E> = Outcome(value: Value, err: Option<E>)

  /** What the parser can do with a field's type: parse text into it, or unmarshal JSON into it. */
  datatype Types = Types(
    supported: nat -> bool,
    parse: (nat, Value, string) -> Outcome<string>,
    unmarshal: (nat, Value, Json) -> Outcome<JsonError>)

  datatype Body = NoBody | Malformed(message: string) | Object(keys: map<string, Json>)

  datatype Request = Request(pathValue: string -> string, query: string -> string, contentType: string, body: Body)

  datatype Tag = PathTag | QueryTag | JsonTag

  datatype Source = Skipped | LenientMark | From(tag: Tag, key: string)

  /** strings.Cut, the part before the separator. */
  function Before(s: string, sep: char): string {
    if s == [] || s[0] == sep then [] else [s[0]] + Before(s[1..], sep)
  }

  /** Where a field's value comes from: the first tag it carries, in this order. */
  function SourceOf(f: Field): Source {
    if !f.exported then Skipped
    else if f.isLenient then LenientMark
    else if f.path != "" then From(PathTag, f.path)
    else if f.query != "" then From(QueryTag, f.query)
    else if f.json != "" && f.json != "-" then From(JsonTag, Before(f.json, ','))
    else Skipped
  }

  // --- the same, said of the tags themselves ---

  predicate PathField(f: Field) { f.exported && !f.isLenient && f.path != "" }

  predicate QueryField(f: Field) { f.exported && !f.isLenient && f.path == "" && f.query != "" }

  /** key is what the json tag says before its first comma. */
  predicate BodyField(f: Field, key: string) {
    && f.exported && !f.isLenient && f.path == "" && f.query == "" && f.json != "" && f.json != "-"
    && ',' !in key && (f.json == key || key + "," <= f.json)
  }

  lemma {:induction false} BeforeCuts(s: string, sep: char, head: string)
    ensures head == Before(s, sep) <==> sep !in head && (s == head || head + [sep] <= s)
  {
    if s != [] && s[0] != sep && head != [] && head[0] == s[0] {
      BeforeCuts(s[1..], sep, head[1..]);
      assert s == [s[0]] + s[1..] && head == [s[0]] + head[1..];
      assert head + [sep] == [s[0]] + (head[1..] + [sep]);
      assert sep in head <==> sep in head[1..];
    } else if head == [] {
      assert head + [sep] == [sep];
    }
  }

  /** What each tag makes of a field, for every field. */
  lemma SourceByTags(f: Field, key: string)
    ensures SourceOf(f) == From(PathTag, key) <==> PathField(f) && key == f.path
    ensures SourceOf(f) == From(QueryTag, key) <==> QueryField(f) && key == f.query
    ensures SourceOf(f) == From(JsonTag, key) <==> BodyField(f, key)
    ensures SourceOf(f).LenientMark? <==> f.exported && f.isLenient
  {
    BeforeCuts(f.json, ',', key);
  }

  /** The plan of a struct, read off its tags: each list names its fields once, in their order. */
  ghost predicate PlannedByTags(fields: seq<Field>, paths: seq<FieldBind>, queries: seq<FieldBind>,
                                body: seq<FieldBind>) {
    && Ascending(paths) && Ascending(queries) && Ascending(body)
    && (forall b :: b in paths <==>
          b.idx < |fields| && PathField(fields[b.idx]) && b.key == fields[b.idx].path && b.kind == fields[b.idx].kind)
    && (forall b :: b in queries <==>
          b.idx < |fields| && QueryField(fields[b.idx]) && b.key == fields[b.idx].query && b.kind == fields[b.idx].kind)
    && (forall b :: b in body <==>
          b.idx < |fields| && BodyField(fields[b.idx], b.key) && b.kind == fields[b.idx].kind)
  }

  lemma PlannedBind(fields: seq<Field>, b: FieldBind)
    requires b.idx < |fields|
    ensures var f := fields[b.idx];
            && (b in Claims(fields, PathTag) <==> PathField(f) && b.key == f.path && b.kind == f.kind)
            && (b in Claims(fields, QueryTag) <==> QueryField(f) && b.key == f.query && b.kind == f.kind)
            && (b in Claims(fields, JsonTag) <==> BodyField(f, b.key) && b.kind == f.kind)
  {
    SourceByTags(fields[b.idx], b.key);
    ClaimsExact(fields, PathTag);
    ClaimsExact(fields, QueryTag);
    ClaimsExact(fields, JsonTag);
  }

  lemma PlanIsByTags(fields: seq<Field>)
    ensures PlannedByTags(fields, Claims(fields, PathTag), Claims(fields, QueryTag), Claims(fields, JsonTag))
  {
    ClaimsExact(fields, PathTag);
    ClaimsExact(fields, QueryTag);
    ClaimsExact(fields, JsonTag);
    forall b: FieldBind | b.idx < |fields|
      ensures var f := fields[b.idx];
              && (b in Claims(fields, PathTag) <==> PathField(f) && b.key == f.path && b.kind == f.kind)
              && (b in Claims(fields, QueryTag) <==> QueryField(f) && b.key == f.query && b.kind == f.kind)
              && (b in Claims(fields, JsonTag) <==> BodyField(f, b.key) && b.kind == f.kind)
    {
      PlannedBind(fields, b);
    }
  }

  /** The keys a body may have, and whether it may have others, off the tags. */
  lemma BodyKeysByTags(fields: seq<Field>, key: string)
    ensures Claimed(fields, key) <==> exists i :: 0 <= i < |fields| && BodyField(fields[i], key)
    ensures Lenient(fields) <==> exists i :: 0 <= i < |fields| && fields[i].exported && fields[i].isLenient
  {
    forall i | 0 <= i < |fields|
      ensures SourceOf(fields[i]) == From(JsonTag, key) <==> BodyField(fields[i], key)
      ensures SourceOf(fields[i]).LenientMark? <==> fields[i].exported && fields[i].isLenient
    {
      SourceByTags(fields[i], key);
    }
  }

  predicate Draws(f: Field, tag: Tag) {
    SourceOf(f).From? && SourceOf(f).tag == tag
  }

  datatype FieldBind = FieldBind(key: string, idx: nat, kind: nat)

  predicate InRange(binds: seq<FieldBind>, n: nat) {
    forall q | 0 <= q < |binds| :: binds[q].idx < n
  }

  /** The binds a list of fields makes under one tag, in field order. */
  function Claims(fields: seq<Field>, tag: Tag): (binds: seq<FieldBind>)
    ensures InRange(binds, |fields|)
  {
    if fields == [] then []
    else
      var n := |fields| - 1;
      var before := Claims(fields[..n], tag);
      match SourceOf(fields[n])
      case From(t, key) => if t == tag then before + [FieldBind(key, n, fields[n].kind)] else before
      case _ => before
  }

  predicate Ascending(binds: seq<FieldBind>) {
    forall p, q | 0 <= p < q < |binds| :: binds[p].idx < binds[q].idx
  }

  /** The bind of one field under one tag. */
  predicate Makes(fields: seq<Field>, tag: Tag, b: FieldBind) {
    b.idx < |fields| && SourceOf(fields[b.idx]) == From(tag, b.key) && fields[b.idx].kind == b.kind
  }

  /** Every field is claimed by exactly the tag it draws from, once. */
  lemma {:induction false} ClaimsExact(fields: seq<Field>, tag: Tag)
    ensures Ascending(Claims(fields, tag))
    ensures forall b :: b in Claims(fields, tag) <==> Makes(fields, tag, b)
  {
    if fields != [] {
      var n := |fields| - 1;
      ClaimsExact(fields[..n], tag);
      forall b ensures b in Claims(fields, tag) <==> Makes(fields, tag, b) {
        assert b in Claims(fields[..n], tag) <==> Makes(fields[..n], tag, b);
        assert b.idx < n ==> (Makes(fields, tag, b) <==> Makes(fields[..n], tag, b));
      }
      forall b | b in Claims(fields[..n], tag) ensures b.idx < n {
        assert Makes(fields[..n], tag, b);
      }
    }
  }

  ghost predicate Claimed(fields: seq<Field>, key: string) {
    exists i | 0 <= i < |fields| :: SourceOf(fields[i]) == From(JsonTag, key)
  }

  ghost predicate HasBody(fields: seq<Field>) {
    exists i | 0 <= i < |fields| :: Draws(fields[i], JsonTag)
  }

  ghost predicate Lenient(fields: seq<Field>) {
    exists i | 0 <= i < |fields| :: SourceOf(fields[i]).LenientMark?
  }

  predicate Unbindable(types: Types, f: Field) {
    (PathField(f) || QueryField(f)) && !types.supported(f.kind)
  }

  // --- what binding must do, field by field ---

  predicate MediaOk(contentType: string) {
    contentType == "" || GoStrings.TrimSpace(Before(contentType, ';')) == "application/json"
  }

  /** The text a path or query field is given; "" leaves the field alone. */
  function TextFor(req: Request, tag: Tag, key: string): string {
    if tag == PathTag then req.pathValue(key) else req.query(key)
  }

  ghost predicate ReadsBody(fields: seq<Field>, req: Request) {
    HasBody(fields) && MediaOk(req.contentType) && req.body.Object?
  }

  /** What field i holds after binding, by its own source alone. */
  ghost function Final(types: Types, fields: seq<Field>, req: Request, start: seq<Value>, i: nat): Value
    requires i < |fields| == |start|
  {
    match SourceOf(fields[i])
    case From(JsonTag, key) =>
      if ReadsBody(fields, req) && key in req.body.keys
      then types.unmarshal(fields[i].kind, start[i], req.body.keys[key]).value
      else start[i]
    case From(tag, key) =>
      if TextFor(req, tag, key) != ""
      then types.parse(fields[i].kind, start[i], TextFor(req, tag, key)).value
      else start[i]
    case _ => start[i]
  }

  /** Field i was given a value that its type refuses. */
  ghost predicate Fails(types: Types, fields: seq<Field>, req: Request, start: seq<Value>, i: nat)
    requires i < |fields| == |start|
  {
    match SourceOf(fields[i])
    case From(JsonTag, key) =>
      req.body.Object? && key in req.body.keys
      && types.unmarshal(fields[i].kind, start[i], req.body.keys[key]).err.Some?
    case From(tag, key) =>
      TextFor(req, tag, key) != "" && types.parse(fields[i].kind, start[i], TextFor(req, tag, key)).err.Some?
    case _ => false
  }

  // --- the reasons, in the order the loops find them ---

  function ParamReason(place: string, field: string, err: string): Reason {
    Reason("invalid", map["in" := place, "field" := field, "error" := err], [])
  }

  function BodyFieldReason(field: string, err: JsonError): Reason {
    match err
    case TypeMismatch(expected, got) =>
      Reason("invalid_type", map["in" := "body", "field" := field, "expected" := expected, "got" := got], [])
    case OtherError(message) => ParamReason("body", field, message)
  }

  function UnknownReason(key: string): Reason {
    Reason("unknown_field", map["in" := "body", "field" := key], [])
  }

  function MalformedReason(message: string): Reason {
    Reason("malformed", map["in" := "body", "error" := message], [])
  }

  function ParamOutcome(types: Types, b: FieldBind, text: string, held: Value): Outcome<string> {
    if text == "" then Outcome(held, None) else types.parse(b.kind, held, text)
  }

  function JsonOutcome(types: Types, b: FieldBind, raw: map<string, Json>, held: Value): Outcome<JsonError> {
    if b.key in raw then types.unmarshal(b.kind, held, raw[b.key]) else Outcome(held, None)
  }

  function ParamReasons(types: Types, binds: seq<FieldBind>, place: string, get: string -> string,
                        start: seq<Value>): seq<Reason>
    requires InRange(binds, |start|)
  {
    if binds == [] then []
    else
      var b := binds[|binds| - 1];
      var before := ParamReasons(types, binds[..|binds| - 1], place, get, start);
      match ParamOutcome(types, b, get(b.key), start[b.idx]).err
      case Some(err) => before + [ParamReason(place, b.key, err)]
      case None => before
  }

  function FieldReasons(types: Types, binds: seq<FieldBind>, raw: map<string, Json>, start: seq<Value>): seq<Reason>
    requires InRange(binds, |start|)
  {
    if binds == [] then []
    else
      var b := binds[|binds| - 1];
      var before := FieldReasons(types, binds[..|binds| - 1], raw, start);
      match JsonOutcome(types, b, raw, start[b.idx]).err
      case Some(err) => before + [BodyFieldReason(b.key, err)]
      case None => before
  }

  function UnknownReasons(keys: seq<string>): (rs: seq<Reason>)
    ensures |rs| == |keys| && forall i | 0 <= i < |keys| :: rs[i] == UnknownReason(keys[i])
  {
    seq(|keys|, i requires 0 <= i < |keys| => UnknownReason(keys[i]))
  }

  /** The keys of a set in sorted order. */
  ghost function SortedKeys(keys: set<string>): (s: seq<string>)
    ensures Order.Sorted(s) && NoRepeats(s) && forall k :: k in s <==> k in keys
  {
    if keys == {} then []
    else
      var k :| k in keys;
      var rest := SortedKeys(keys - {k});
      Order.InsertSorts(k, rest);
      Order.InsertElements(k, rest);
      Order.InsertKeepsNoRepeats(k, rest);
      Order.Insert(k, rest)
  }

  /** However a map is iterated, sorting the keys it yields gives one list. */
  lemma AnyOrderSortsAlike(listed: seq<string>, keys: set<string>)
    requires NoRepeats(listed) && forall k :: k in listed <==> k in keys
    ensures Order.Sort(listed) == SortedKeys(keys)
  {
    var s := SortedKeys(keys);
    Order.SameKeysSameMultiset(listed, s);
    Order.SortSpec(listed);
    Order.SortedUnique(Order.Sort(listed), s);
  }

  ghost function Unclaimed(fields: seq<Field>, raw: map<string, Json>): set<string> {
    set k | k in raw && !Claimed(fields, k)
  }

  ghost function BodyReasons(types: Types, fields: seq<Field>, body: Body, start: seq<Value>): seq<Reason>
    requires |fields| == |start|
  {
    match body
    case Malformed(message) => [MalformedReason(message)]
    case NoBody => []
    case Object(raw) =>
      FieldReasons(types, Claims(fields, JsonTag), raw, start)
      + (if Lenient(fields) then [] else UnknownReasons(SortedKeys(Unclaimed(fields, raw))))
  }

  /** Paths, then queries, then the body. */
  ghost function Reasons(types: Types, fields: seq<Field>, req: Request, start: seq<Value>): seq<Reason>
    requires |fields| == |start|
  {
    ParamReasons(types, Claims(fields, PathTag), "path", req.pathValue, start)
    + ParamReasons(types, Claims(fields, QueryTag), "query", req.query, start)
    + (if HasBody(fields) then BodyReasons(types, fields, req.body, start) else [])
  }

  datatype Verdict = Bound | UnsupportedMedia(contentType: string) | InvalidRequest(reasons: seq<Reason>)

  ghost function VerdictOf(types: Types, fields: seq<Field>, req: Request, start: seq<Value>): Verdict
    requires |fields| == |start|
  {
    if HasBody(fields) && !MediaOk(req.contentType) then UnsupportedMedia(req.contentType)
    else if Reasons(types, fields, req, start) == [] then Bound
    else InvalidRequest(Reasons(types, fields, req, start))
  }

  lemma {:induction false} ParamReasonsFrame(types: Types, binds: seq<FieldBind>, place: string, get: string -> string,
                                             a: seq<Value>, b: seq<Value>)
    requires |a| == |b| && InRange(binds, |a|) && forall q | 0 <= q < |binds| :: a[binds[q].idx] == b[binds[q].idx]
    ensures ParamReasons(types, binds, place, get, a) == ParamReasons(types, binds, place, get, b)
  {
    if binds != [] { ParamReasonsFrame(types, binds[..|binds| - 1], place, get, a, b); }
  }

  lemma {:induction false} FieldReasonsFrame(types: Types, binds: seq<FieldBind>, raw: map<string, Json>,
                                             a: seq<Value>, b: seq<Value>)
    requires |a| == |b| && InRange(binds, |a|) && forall q | 0 <= q < |binds| :: a[binds[q].idx] == b[binds[q].idx]
    ensures FieldReasons(types, binds, raw, a) == FieldReasons(types, binds, raw, b)
  {
    if binds != [] { FieldReasonsFrame(types, binds[..|binds| - 1], raw, a, b); }
  }

  lemma {:induction false} NoKeysNoFieldReasons(types: Types, binds: seq<FieldBind>, start: seq<Value>)
    requires InRange(binds, |start|)
    ensures FieldReasons(types, binds, map[], start) == []
  {
    if binds != [] { NoKeysNoFieldReasons(types, binds[..|binds| - 1], start); }
  }

  predicate Touches(binds: seq<FieldBind>, i: int) {
    exists q | 0 <= q < |binds| :: binds[q].idx == i
  }

  /** One pass over binds: the fields they touch hold what was parsed, the others what they held. */
  ghost predicate ParamPass(types: Types, binds: seq<FieldBind>, get: string -> string, before: seq<Value>,
                            after: seq<Value>)
    requires InRange(binds, |before|)
  {
    |after| == |before|
    && (forall b | b in binds :: after[b.idx] == ParamOutcome(types, b, get(b.key), before[b.idx]).value)
    && (forall i | 0 <= i < |before| && !Touches(binds, i) :: after[i] == before[i])
  }

  ghost predicate FieldPass(types: Types, binds: seq<FieldBind>, raw: map<string, Json>, before: seq<Value>,
                            after: seq<Value>)
    requires InRange(binds, |before|)
  {
    |after| == |before|
    && (forall b | b in binds :: after[b.idx] == JsonOutcome(types, b, raw, before[b.idx]).value)
    && (forall i | 0 <= i < |before| && !Touches(binds, i) :: after[i] == before[i])
  }

  lemma LaterUntouched(binds: seq<FieldBind>, q: nat)
    requires Ascending(binds) && q < |binds|
    ensures !Touches(binds[..q], binds[q].idx)
  {
  }

  lemma ParamPassGrows(types: Types, binds: seq<FieldBind>, get: string -> string, start: seq<Value>,
                       before: seq<Value>, after: seq<Value>, q: nat)
    requires Ascending(binds) && InRange(binds, |start|) && q < |binds|
    requires ParamPass(types, binds[..q], get, start, before)
    requires after == before[binds[q].idx :=
               ParamOutcome(types, binds[q], get(binds[q].key), start[binds[q].idx]).value]
    ensures ParamPass(types, binds[..q + 1], get, start, after)
  {
    LaterUntouched(binds, q);
    TouchesGrows(binds, q);
    forall b | b in binds[..q] ensures after[b.idx] == before[b.idx] {
      var p :| 0 <= p < q && binds[p] == b;
    }
    assert binds[..q + 1] == binds[..q] + [binds[q]];
  }

  lemma FieldPassGrows(types: Types, binds: seq<FieldBind>, raw: map<string, Json>, start: seq<Value>,
                       before: seq<Value>, after: seq<Value>, q: nat)
    requires Ascending(binds) && InRange(binds, |start|) && q < |binds|
    requires FieldPass(types, binds[..q], raw, start, before)
    requires after == before[binds[q].idx := JsonOutcome(types, binds[q], raw, start[binds[q].idx]).value]
    ensures FieldPass(types, binds[..q + 1], raw, start, after)
  {
    LaterUntouched(binds, q);
    TouchesGrows(binds, q);
    forall b | b in binds[..q] ensures after[b.idx] == before[b.idx] {
      var p :| 0 <= p < q && binds[p] == b;
    }
    assert binds[..q + 1] == binds[..q] + [binds[q]];
  }

  lemma NoKeysNoWrites(types: Types, binds: seq<FieldBind>, before: seq<Value>, after: seq<Value>)
    requires InRange(binds, |before|) && FieldPass(types, binds, map[], before, after)
    ensures after == before
  {
    forall i | 0 <= i < |before| ensures after[i] == before[i] {
      if Touches(binds, i) {
        var q :| 0 <= q < |binds| && binds[q].idx == i;
        assert binds[q] in binds;
      }
    }
  }

  lemma TouchesIff(fields: seq<Field>, tag: Tag, i: nat)
    requires i < |fields|
    ensures Touches(Claims(fields, tag), i) <==> Draws(fields[i], tag)
    ensures Draws(fields[i], tag) ==> FieldBind(SourceOf(fields[i]).key, i, fields[i].kind) in Claims(fields, tag)
  {
    ClaimsExact(fields, tag);
    var binds := Claims(fields, tag);
    if Draws(fields[i], tag) {
      var b := FieldBind(SourceOf(fields[i]).key, i, fields[i].kind);
      assert Makes(fields, tag, b);
      var q :| 0 <= q < |binds| && binds[q] == b;
    }
    if Touches(binds, i) {
      var q :| 0 <= q < |binds| && binds[q].idx == i;
      assert binds[q] in binds && Makes(fields, tag, binds[q]);
    }
  }

  /** The three passes, one after the other, leave every field as its own source says. */
  lemma PassesGiveFinal(types: Types, fields: seq<Field>, req: Request, s0: seq<Value>, s1: seq<Value>,
                        s2: seq<Value>, s3: seq<Value>, i: nat)
    requires |s0| == |s1| == |s2| == |s3| == |fields| && i < |fields|
    requires ParamPass(types, Claims(fields, PathTag), req.pathValue, s0, s1)
    requires ParamPass(types, Claims(fields, QueryTag), req.query, s1, s2)
    requires if ReadsBody(fields, req)
             then FieldPass(types, Claims(fields, JsonTag), req.body.keys, s2, s3) else s3 == s2
    ensures s3[i] == Final(types, fields, req, s0, i)
  {
    TouchesIff(fields, PathTag, i);
    TouchesIff(fields, QueryTag, i);
    TouchesIff(fields, JsonTag, i);
  }

  /** No pass disturbs what a later one starts from. */
  lemma PassKeepsOthers(types: Types, fields: seq<Field>, tag: Tag, get: string -> string, before: seq<Value>,
                        after: seq<Value>, other: Tag)
    requires |before| == |fields| && tag != other && ParamPass(types, Claims(fields, tag), get, before, after)
    ensures forall q | 0 <= q < |Claims(fields, other)| ::
              after[Claims(fields, other)[q].idx] == before[Claims(fields, other)[q].idx]
  {
    ClaimsExact(fields, other);
    var binds := Claims(fields, other);
    forall q | 0 <= q < |binds| ensures after[binds[q].idx] == before[binds[q].idx] {
      assert binds[q] in binds && Makes(fields, other, binds[q]);
      TouchesIff(fields, tag, binds[q].idx);
    }
  }

  lemma TouchesGrows(binds: seq<FieldBind>, q: nat)
    requires q < |binds|
    ensures forall i :: Touches(binds[..q + 1], i) <==> Touches(binds[..q], i) || i == binds[q].idx
  {
    forall i | Touches(binds[..q], i) || i == binds[q].idx ensures Touches(binds[..q + 1], i) {
      if i == binds[q].idx {
        assert binds[..q + 1][q].idx == i;
      } else {
        var p :| 0 <= p < q && binds[..q][p].idx == i;
        assert binds[..q + 1][p].idx == i;
      }
    }
    forall i | Touches(binds[..q + 1], i) ensures Touches(binds[..q], i) || i == binds[q].idx {
      var p :| 0 <= p < q + 1 && binds[..q + 1][p].idx == i;
      assert p < q ==> binds[..q][p].idx == i;
    }
  }

  /** What one more field does to the three facts about all fields. */
  lemma PlanGrows(front: seq<Field>, f: Field)
    ensures forall k :: Claimed(front + [f], k) <==> Claimed(front, k) || SourceOf(f) == From(JsonTag, k)
    ensures HasBody(front + [f]) <==> HasBody(front) || Draws(f, JsonTag)
    ensures Lenient(front + [f]) <==> Lenient(front) || SourceOf(f).LenientMark?
  {
    var all := front + [f];
    assert all[|front|] == f && forall i | 0 <= i < |front| :: all[i] == front[i];
    forall k ensures Claimed(all, k) <==> Claimed(front, k) || SourceOf(f) == From(JsonTag, k) { }
  }

  lemma FinalEverywhere(types: Types, fields: seq<Field>, req: Request, s0: seq<Value>, s1: seq<Value>,
                        s2: seq<Value>, s3: seq<Value>)
    requires |s0| == |s1| == |s2| == |s3| == |fields|
    requires ParamPass(types, Claims(fields, PathTag), req.pathValue, s0, s1)
    requires ParamPass(types, Claims(fields, QueryTag), req.query, s1, s2)
    requires if ReadsBody(fields, req)
             then FieldPass(types, Claims(fields, JsonTag), req.body.keys, s2, s3) else s3 == s2
    ensures forall i | 0 <= i < |fields| :: s3[i] == Final(types, fields, req, s0, i)
  {
    forall i | 0 <= i < |fields| ensures s3[i] == Final(types, fields, req, s0, i) {
      PassesGiveFinal(types, fields, req, s0, s1, s2, s3, i);
    }
  }

  /** The reasons found along the way are those the values at the start give. */
  lemma ReasonsFromStart(types: Types, fields: seq<Field>, req: Request, s0: seq<Value>, s1: seq<Value>, s2: seq<Value>)
    requires |s0| == |s1| == |s2| == |fields|
    requires ParamPass(types, Claims(fields, PathTag), req.pathValue, s0, s1)
    requires ParamPass(types, Claims(fields, QueryTag), req.query, s1, s2)
    ensures ParamReasons(types, Claims(fields, QueryTag), "query", req.query, s1)
            == ParamReasons(types, Claims(fields, QueryTag), "query", req.query, s0)
    ensures BodyReasons(types, fields, req.body, s2) == BodyReasons(types, fields, req.body, s0)
  {
    PassKeepsOthers(types, fields, PathTag, req.pathValue, s0, s1, QueryTag);
    ParamReasonsFrame(types, Claims(fields, QueryTag), "query", req.query, s0, s1);
    if req.body.Object? {
      PassKeepsOthers(types, fields, PathTag, req.pathValue, s0, s1, JsonTag);
      PassKeepsOthers(types, fields, QueryTag, req.query, s1, s2, JsonTag);
      FieldReasonsFrame(types, Claims(fields, JsonTag), req.body.keys, s0, s2);
    }
  }

  // --- the code ---

  class Binder {
    var paths: seq<FieldBind>
    var queries: seq<FieldBind>
    var body: seq<FieldBind>
    var knownBody: set<string>
    var hasBody: bool
    var lenient: bool
    const noop: bool

    constructor (noop: bool)
      ensures this.noop == noop && (noop || For([]))
    {
      paths, queries, body, knownBody, hasBody, lenient := [], [], [], {}, false, false;
      this.noop := noop;
    }

    /** The plan is the one for these fields. */
    ghost predicate For(fields: seq<Field>)
      reads this
    {
      !noop
      && paths == Claims(fields, PathTag) && queries == Claims(fields, QueryTag) && body == Claims(fields, JsonTag)
      && (forall k :: k in knownBody <==> Claimed(fields, k))
      && (hasBody <==> HasBody(fields)) && (lenient <==> Lenient(fields))
    }

    /** The same plan, told from the tags alone. */
    ghost predicate ByTags(fields: seq<Field>)
      reads this
    {
      && !noop && PlannedByTags(fields, paths, queries, body)
      && (forall k :: k in knownBody <==> exists i :: 0 <= i < |fields| && BodyField(fields[i], k))
      && (hasBody <==> body != [])
      && (lenient <==> exists i :: 0 <= i < |fields| && fields[i].exported && fields[i].isLenient)
    }

    lemma ForIsByTags(fields: seq<Field>)
      requires For(fields)
      ensures ByTags(fields)
    {
      PlanIsByTags(fields);
      forall k ensures Claimed(fields, k) <==> exists i :: 0 <= i < |fields| && BodyField(fields[i], k) {
        BodyKeysByTags(fields, k);
      }
      BodyKeysByTags(fields, "");
      ClaimsExact(fields, JsonTag);
      if i :| 0 <= i < |fields| && Draws(fields[i], JsonTag) {
        assert Makes(fields, JsonTag, FieldBind(SourceOf(fields[i]).key, i, fields[i].kind));
      }
      if body != [] { assert body[0] in body && Makes(fields, JsonTag, body[0]); }
    }

    /** One step of buildBinder's loop: the n-th field joins the plan. */
    method Plan(fields: seq<Field>, n: nat)
      requires n < |fields| && For(fields[..n])
      modifies this
      ensures For(fields[..n + 1])
    {
      var f := fields[n];
      ghost var front := fields[..n];
      ghost var all := fields[..n + 1];
      assert all[..n] == front;
      match SourceOf(f) {
        case Skipped =>
        case LenientMark => lenient := true;
        case From(PathTag, key) => paths := paths + [FieldBind(key, n, f.kind)];
        case From(QueryTag, key) => queries := queries + [FieldBind(key, n, f.kind)];
        case From(JsonTag, key) =>
          body := body + [FieldBind(key, n, f.kind)];
          knownBody := knownBody + {key};
          hasBody := true;
      }
      PlanGrows(front, f);
      assert all == front + [f];
    }

    /** The loop over r.PathValue, and the one over the query: absent values are skipped, a refused
        one leaves a reason. */
    method BindParams(binds: seq<FieldBind>, place: string, get: string -> string, types: Types, dst: array<Value>)
      returns (reasons: seq<Reason>)
      requires Ascending(binds) && InRange(binds, dst.Length)
      modifies dst
      ensures reasons == ParamReasons(types, binds, place, get, old(dst[..]))
      ensures ParamPass(types, binds, get, old(dst[..]), dst[..])
    {
      reasons := [];
      ghost var start := dst[..];
      for q := 0 to |binds|
        invariant reasons == ParamReasons(types, binds[..q], place, get, start)
        invariant ParamPass(types, binds[..q], get, start, dst[..])
      {
        var b := binds[q];
        ghost var before := dst[..];
        LaterUntouched(binds, q);
        assert binds[..q + 1][..q] == binds[..q];
        var text := get(b.key);
        if text != "" {
          var out := types.parse(b.kind, dst[b.idx], text);
          dst[b.idx] := out.value;
          match out.err {
            case Some(err) => reasons := reasons + [ParamReason(place, b.key, err)];
            case None =>
          }
        }
        ParamPassGrows(types, binds, get, start, before, dst[..], q);
      }
      assert binds[..|binds|] == binds;
    }

    /** unknownKeyReasons: the map is walked in any order, then the keys are sorted. */
    method UnknownKeyReasons(raw: map<string, Json>, ghost fields: seq<Field>) returns (reasons: seq<Reason>)
      requires For(fields)
      ensures reasons == UnknownReasons(SortedKeys(Unclaimed(fields, raw)))
    {
      var unknown := [];
      var todo := raw.Keys;
      while todo != {}
        invariant todo <= raw.Keys && NoRepeats(unknown)
        invariant forall k :: k in unknown <==> k in raw && k !in todo && k !in knownBody
      {
        var key :| key in todo;
        if key !in knownBody { unknown := unknown + [key]; }
        todo := todo - {key};
      }
      AnyOrderSortsAlike(unknown, Unclaimed(fields, raw));
      reasons := UnknownReasons(Order.Sort(unknown));
    }

    method BindBody(types: Types, req: Request, ghost fields: seq<Field>, dst: array<Value>)
      returns (reasons: seq<Reason>, unsupported: bool)
      requires For(fields) && hasBody && dst.Length == |fields|
      modifies dst
      ensures unsupported <==> !MediaOk(req.contentType)
      ensures !unsupported ==> reasons == BodyReasons(types, fields, req.body, old(dst[..]))
      ensures if ReadsBody(fields, req)
              then FieldPass(types, body, req.body.keys, old(dst[..]), dst[..]) else dst[..] == old(dst[..])
    {
      ClaimsExact(fields, JsonTag);
      reasons, unsupported := [], false;
      if req.contentType != "" {
        if GoStrings.TrimSpace(Before(req.contentType, ';')) != "application/json" {
          return [], true;
        }
      }
      var raw: map<string, Json> := map[];
      match req.body {
        case Malformed(message) => return [MalformedReason(message)], false;
        case NoBody =>
        case Object(keys) => raw := keys;
      }
      reasons := BindFields(types, raw, dst);
      if !lenient {
        var unknown := UnknownKeyReasons(raw, fields);
        reasons := reasons + unknown;
      }
      if req.body.NoBody? {
        NoKeysNoFieldReasons(types, body, old(dst[..]));
        NoKeysNoWrites(types, body, old(dst[..]), dst[..]);
      }
    }

    /** bindBody's loop over the fields. */
    method BindFields(types: Types, raw: map<string, Json>, dst: array<Value>) returns (reasons: seq<Reason>)
      requires Ascending(body) && InRange(body, dst.Length)
      modifies dst
      ensures reasons == FieldReasons(types, body, raw, old(dst[..]))
      ensures FieldPass(types, body, raw, old(dst[..]), dst[..])
    {
      reasons := [];
      ghost var start := dst[..];
      for q := 0 to |body|
        invariant reasons == FieldReasons(types, body[..q], raw, start)
        invariant FieldPass(types, body[..q], raw, start, dst[..])
      {
        var b := body[q];
        ghost var before := dst[..];
        LaterUntouched(body, q);
        assert body[..q + 1][..q] == body[..q];
        if b.key in raw {
          var out := types.unmarshal(b.kind, dst[b.idx], raw[b.key]);
          dst[b.idx] := out.value;
          match out.err {
            case Some(err) => reasons := reasons + [BodyFieldReason(b.key, err)];
            case None =>
          }
        }
        FieldPassGrows(types, body, raw, start, before, dst[..], q);
      }
      assert body[..|body|] == body;
    }

    /** bind. dst is the struct, one slot per field. */
    method Bind(types: Types, req: Request, ghost fields: seq<Field>, dst: array<Value>) returns (verdict: Verdict)
      requires noop || (For(fields) && dst.Length == |fields|)
      modifies dst
      ensures noop ==> verdict == Bound && dst[..] == old(dst[..])
      ensures !noop ==> verdict == VerdictOf(types, fields, req, old(dst[..]))
      ensures !noop ==> forall i | 0 <= i < |fields| :: dst[i] == Final(types, fields, req, old(dst[..]), i)
    {
      if noop { return Bound; }
      ghost var s0 := dst[..];
      ClaimsExact(fields, PathTag);
      ClaimsExact(fields, QueryTag);
      var reasons := BindParams(paths, "path", req.pathValue, types, dst);
      ghost var s1 := dst[..];
      var more := BindParams(queries, "query", req.query, types, dst);
      ghost var s2 := dst[..];
      ReasonsFromStart(types, fields, req, s0, s1, s2);
      reasons := reasons + more;
      if hasBody {
        var bodyReasons, unsupported := BindBody(types, req, fields, dst);
        FinalEverywhere(types, fields, req, s0, s1, s2, dst[..]);
        if unsupported { return UnsupportedMedia(req.contentType); }
        reasons := reasons + bodyReasons;
      } else {
        FinalEverywhere(types, fields, req, s0, s1, s2, dst[..]);
      }
      return if |reasons| > 0 then InvalidRequest(reasons) else Bound;
    }
  }

  datatype BuildResult = Built(binder: Binder) | NotAStruct | BadField(i: nat)

  /** buildBinder. */
  method Build(types: Types, t: ReqType) returns (r: BuildResult)
    ensures r.NotAStruct? <==> t.NotStruct?
    ensures r.Built? ==> fresh(r.binder) && (r.binder.noop <==> t.EmptyReq?)
    ensures t.EmptyReq? ==> r.Built?
    ensures t.Struct? && r.Built?
            ==> r.binder.For(t.fields) && forall i | 0 <= i < |t.fields| :: !Unbindable(types, t.fields[i])
    ensures t.Struct? && r.Built? ==> r.binder.ByTags(t.fields)
    ensures r.BadField? ==> t.Struct? && r.i < |t.fields| && Unbindable(types, t.fields[r.i])
                            && forall i | 0 <= i < r.i :: !Unbindable(types, t.fields[i])
  {
    if t.EmptyReq? {
      var empty := new Binder(true);
      return Built(empty);
    }
    if t.NotStruct? { return NotAStruct; }
    var b := new Binder(false);
    for n := 0 to |t.fields|
      invariant fresh(b) && b.For(t.fields[..n])
      invariant forall i | 0 <= i < n :: !Unbindable(types, t.fields[i])
    {
      if Unbindable(types, t.fields[n]) { return BadField(n); }
      b.Plan(t.fields, n);
    }
    assert t.fields[..|t.fields|] == t.fields;
    b.ForIsByTags(t.fields);
    r := Built(b);
  }

  // --- what follows for every request ---

  /** r is the reason field i's own value calls for. */
  ghost predicate Names(types: Types, fields: seq<Field>, req: Request, start: seq<Value>, i: nat, r: Reason)
    requires i < |fields| == |start|
  {
    match SourceOf(fields[i])
    case From(JsonTag, key) =>
      req.body.Object? && key in req.body.keys
      && var err := types.unmarshal(fields[i].kind, start[i], req.body.keys[key]).err;
         err.Some? && r == BodyFieldReason(key, err.value)
    case From(tag, key) =>
      TextFor(req, tag, key) != ""
      && var err := types.parse(fields[i].kind, start[i], TextFor(req, tag, key)).err;
         err.Some? && r == ParamReason(if tag == PathTag then "path" else "query", key, err.value)
    case _ => false
  }

  ghost predicate NamesByTag(types: Types, fields: seq<Field>, req: Request, start: seq<Value>, tag: Tag, r: Reason)
    requires |fields| == |start|
  {
    exists i | 0 <= i < |fields| :: Draws(fields[i], tag) && Names(types, fields, req, start, i, r)
  }

  /** r is a reason the body as a whole calls for. */
  ghost predicate BodyNames(fields: seq<Field>, body: Body, r: Reason) {
    match body
    case NoBody => false
    case Malformed(message) => r == MalformedReason(message)
    case Object(raw) => !Lenient(fields) && exists k :: k in raw && !Claimed(fields, k) && r == UnknownReason(k)
  }

  predicate ParamNames(types: Types, b: FieldBind, place: string, get: string -> string, start: seq<Value>, r: Reason) {
    b.idx < |start|
    && var err := ParamOutcome(types, b, get(b.key), start[b.idx]).err;
       err.Some? && r == ParamReason(place, b.key, err.value)
  }

  predicate FieldNames(types: Types, b: FieldBind, raw: map<string, Json>, start: seq<Value>, r: Reason) {
    b.idx < |start|
    && var err := JsonOutcome(types, b, raw, start[b.idx]).err;
       err.Some? && r == BodyFieldReason(b.key, err.value)
  }

  lemma {:induction false} ParamReasonsName(types: Types, binds: seq<FieldBind>, place: string,
                                            get: string -> string, start: seq<Value>, r: Reason)
    requires InRange(binds, |start|)
    ensures r in ParamReasons(types, binds, place, get, start)
            <==> exists b :: b in binds && ParamNames(types, b, place, get, start, r)
  {
    if binds != [] {
      var last := binds[|binds| - 1];
      ParamReasonsName(types, binds[..|binds| - 1], place, get, start, r);
      assert forall b :: b in binds <==> b in binds[..|binds| - 1] || b == last by {
        assert binds == binds[..|binds| - 1] + [last];
      }
      assert ParamNames(types, last, place, get, start, r) ==> last in binds;
    }
  }

  lemma {:induction false} FieldReasonsName(types: Types, binds: seq<FieldBind>, raw: map<string, Json>,
                                            start: seq<Value>, r: Reason)
    requires InRange(binds, |start|)
    ensures r in FieldReasons(types, binds, raw, start)
            <==> exists b :: b in binds && FieldNames(types, b, raw, start, r)
  {
    if binds != [] {
      var last := binds[|binds| - 1];
      FieldReasonsName(types, binds[..|binds| - 1], raw, start, r);
      assert forall b :: b in binds <==> b in binds[..|binds| - 1] || b == last by {
        assert binds == binds[..|binds| - 1] + [last];
      }
      assert FieldNames(types, last, raw, start, r) ==> last in binds;
    }
  }

  lemma PathsName(types: Types, fields: seq<Field>, req: Request, start: seq<Value>, r: Reason)
    requires |fields| == |start|
    ensures r in ParamReasons(types, Claims(fields, PathTag), "path", req.pathValue, start)
            <==> NamesByTag(types, fields, req, start, PathTag, r)
  {
    ParamReasonsName(types, Claims(fields, PathTag), "path", req.pathValue, start, r);
    ClaimedByTag(types, fields, req, start, PathTag, r);
    ClaimsExact(fields, PathTag);
    forall b | b in Claims(fields, PathTag)
      ensures ParamNames(types, b, "path", req.pathValue, start, r) <==> Names(types, fields, req, start, b.idx, r)
    {
      assert Makes(fields, PathTag, b);
    }
  }

  lemma QueriesName(types: Types, fields: seq<Field>, req: Request, start: seq<Value>, r: Reason)
    requires |fields| == |start|
    ensures r in ParamReasons(types, Claims(fields, QueryTag), "query", req.query, start)
            <==> NamesByTag(types, fields, req, start, QueryTag, r)
  {
    ParamReasonsName(types, Claims(fields, QueryTag), "query", req.query, start, r);
    ClaimedByTag(types, fields, req, start, QueryTag, r);
    ClaimsExact(fields, QueryTag);
    forall b | b in Claims(fields, QueryTag)
      ensures ParamNames(types, b, "query", req.query, start, r) <==> Names(types, fields, req, start, b.idx, r)
    {
      assert Makes(fields, QueryTag, b);
    }
  }

  lemma ClaimedByTag(types: Types, fields: seq<Field>, req: Request, start: seq<Value>, tag: Tag, r: Reason)
    requires |fields| == |start|
    ensures NamesByTag(types, fields, req, start, tag, r)
            <==> exists b :: b in Claims(fields, tag) && Names(types, fields, req, start, b.idx, r)
  {
    ClaimsExact(fields, tag);
    forall i | 0 <= i < |fields| && Draws(fields[i], tag) && Names(types, fields, req, start, i, r)
      ensures exists b :: b in Claims(fields, tag) && Names(types, fields, req, start, b.idx, r)
    {
      var b := FieldBind(SourceOf(fields[i]).key, i, fields[i].kind);
      assert Makes(fields, tag, b) && Names(types, fields, req, start, b.idx, r);
    }
    forall b | b in Claims(fields, tag) && Names(types, fields, req, start, b.idx, r)
      ensures NamesByTag(types, fields, req, start, tag, r)
    {
      assert Makes(fields, tag, b);
    }
  }

  lemma BodyReasonsName(types: Types, fields: seq<Field>, req: Request, start: seq<Value>, r: Reason)
    requires |fields| == |start|
    ensures r in BodyReasons(types, fields, req.body, start)
            <==> NamesByTag(types, fields, req, start, JsonTag, r) || BodyNames(fields, req.body, r)
  {
    if req.body.Object? {
      var raw := req.body.keys;
      FieldReasonsName(types, Claims(fields, JsonTag), raw, start, r);
      ClaimedByTag(types, fields, req, start, JsonTag, r);
      ClaimsExact(fields, JsonTag);
      UnknownsName(fields, raw, r);
    }
  }

  lemma UnknownsName(fields: seq<Field>, raw: map<string, Json>, r: Reason)
    ensures r in UnknownReasons(SortedKeys(Unclaimed(fields, raw)))
            <==> exists k :: k in raw && !Claimed(fields, k) && r == UnknownReason(k)
  {
    var keys := SortedKeys(Unclaimed(fields, raw));
    var rs := UnknownReasons(keys);
    if k :| k in raw && !Claimed(fields, k) && r == UnknownReason(k) {
      assert k in keys;
      var q :| 0 <= q < |keys| && keys[q] == k;
      assert rs[q] == r;
    }
    if r in rs {
      var q :| 0 <= q < |rs| && rs[q] == r;
      assert keys[q] in keys;
    }
  }

  /** The reasons are one for each field whose value is refused, one for the body when it is
      malformed, and one for each unclaimed key; nothing else is named. */
  lemma ReasonsNameExactly(types: Types, fields: seq<Field>, req: Request, start: seq<Value>, r: Reason)
    requires |fields| == |start|
    ensures r in Reasons(types, fields, req, start)
            <==> (exists i | 0 <= i < |fields| :: Names(types, fields, req, start, i, r))
                 || (HasBody(fields) && BodyNames(fields, req.body, r))
  {
    PathsName(types, fields, req, start, r);
    QueriesName(types, fields, req, start, r);
    BodyReasonsName(types, fields, req, start, r);
    forall i | 0 <= i < |fields| && Names(types, fields, req, start, i, r)
      ensures NamesByTag(types, fields, req, start, SourceOf(fields[i]).tag, r)
    {
    }
  }

  ghost predicate HasUnclaimed(fields: seq<Field>, raw: map<string, Json>) {
    exists k :: k in raw && !Claimed(fields, k)
  }

  /** The body alone is a ground for refusal. */
  ghost predicate BodyRefused(fields: seq<Field>, req: Request) {
    HasBody(fields)
    && (!MediaOk(req.contentType) || req.body.Malformed?
        || (req.body.Object? && !Lenient(fields) && HasUnclaimed(fields, req.body.keys)))
  }

  /** Binding fails exactly when some value that is present fails to parse, or the request has
      body fields and its body is not JSON, malformed, or (unless lenient) carries an unclaimed key. */
  lemma FailsIff(types: Types, fields: seq<Field>, req: Request, start: seq<Value>)
    requires |fields| == |start|
    ensures VerdictOf(types, fields, req, start) != Bound
            <==> (exists i | 0 <= i < |fields| :: Fails(types, fields, req, start, i)) || BodyRefused(fields, req)
  {
    var reasons := Reasons(types, fields, req, start);
    if reasons != [] {
      var r := reasons[0];
      assert r in reasons;
      ReasonsNameExactly(types, fields, req, start, r);
      if i :| 0 <= i < |fields| && Names(types, fields, req, start, i, r) {
        assert Fails(types, fields, req, start, i);
      }
    }
    forall i | 0 <= i < |fields| && Fails(types, fields, req, start, i) ensures reasons != [] {
      var r := FailureOf(types, fields, req, start, i);
      ReasonsNameExactly(types, fields, req, start, r);
    }
    if BodyRefused(fields, req) && MediaOk(req.contentType) {
      var r := BodyReasonOf(fields, req);
      ReasonsNameExactly(types, fields, req, start, r);
    }
  }

  lemma FailureOf(types: Types, fields: seq<Field>, req: Request, start: seq<Value>, i: nat) returns (r: Reason)
    requires i < |fields| == |start| && Fails(types, fields, req, start, i)
    ensures Names(types, fields, req, start, i, r)
  {
    match SourceOf(fields[i])
    case From(JsonTag, key) =>
      r := BodyFieldReason(key, types.unmarshal(fields[i].kind, start[i], req.body.keys[key]).err.value);
    case From(tag, key) =>
      var err := types.parse(fields[i].kind, start[i], TextFor(req, tag, key)).err.value;
      r := ParamReason(if tag == PathTag then "path" else "query", key, err);
  }

  lemma BodyReasonOf(fields: seq<Field>, req: Request) returns (r: Reason)
    requires BodyRefused(fields, req) && MediaOk(req.contentType)
    ensures BodyNames(fields, req.body, r)
  {
    if req.body.Malformed? {
      r := MalformedReason(req.body.message);
    } else {
      var k :| k in req.body.keys && !Claimed(fields, k);
      r := UnknownReason(k);
    }
  }

  /** "One response names every bad input" holds unless the content type is refused: a refused value
      of field i is named in the reply if and only if the reply is not a 415. */
  lemma FailureIsNamedIff(types: Types, fields: seq<Field>, req: Request, start: seq<Value>, i: nat, r: Reason)
    requires i < |fields| == |start| && Names(types, fields, req, start, i, r)
    ensures var v := VerdictOf(types, fields, req, start);
            (v.InvalidRequest? && r in v.reasons) <==> !HasBody(fields) || MediaOk(req.contentType)
  {
    ReasonsNameExactly(types, fields, req, start, r);
  }

  /** Whatever the body and its content type, a path- or query-bound field ends the same, and with
      no body fields so does the whole verdict. */
  lemma BodyCannotReach(types: Types, fields: seq<Field>, req: Request, contentType: string, body: Body,
                        start: seq<Value>, i: nat)
    requires i < |fields| == |start|
    ensures var other := req.(contentType := contentType, body := body);
            Draws(fields[i], JsonTag)
            || Final(types, fields, req, start, i) == Final(types, fields, other, start, i)
    ensures !HasBody(fields) ==>
              VerdictOf(types, fields, req, start)
              == VerdictOf(types, fields, req.(contentType := contentType, body := body), start)
  {
  }

  // --- the same, said of the tags and of the request ---

  /** A content type binds as JSON when it is absent, or application/json up to its parameters. */
  lemma MediaOkIff(contentType: string)
    ensures MediaOk(contentType) <==>
              contentType == ""
              || exists media: string :: ';' !in media && GoStrings.TrimSpace(media) == "application/json"
                                         && (contentType == media || media + ";" <= contentType)
  {
    BeforeCuts(contentType, ';', Before(contentType, ';'));
    if media: string :| ';' !in media && GoStrings.TrimSpace(media) == "application/json"
                        && (contentType == media || media + ";" <= contentType) {
      BeforeCuts(contentType, ';', media);
    }
  }

  /** Every field ends with what its own tag's value parses to, or as it was when it is given none. */
  lemma FinalByTags(types: Types, fields: seq<Field>, req: Request, start: seq<Value>, i: nat)
    requires i < |fields| == |start|
    ensures var f, v := fields[i], Final(types, fields, req, start, i);
            && (PathField(f) ==> v == if req.pathValue(f.path) == "" then start[i]
                                      else types.parse(f.kind, start[i], req.pathValue(f.path)).value)
            && (QueryField(f) ==> v == if req.query(f.query) == "" then start[i]
                                       else types.parse(f.kind, start[i], req.query(f.query)).value)
            && (forall key | BodyField(f, key) ::
                  v == if MediaOk(req.contentType) && req.body.Object? && key in req.body.keys
                       then types.unmarshal(f.kind, start[i], req.body.keys[key]).value else start[i])
            && (!PathField(f) && !QueryField(f) && !(exists key :: BodyField(f, key)) ==> v == start[i])
  {
    var f := fields[i];
    SourceByTags(f, f.path);
    SourceByTags(f, f.query);
    forall key ensures SourceOf(f) == From(JsonTag, key) <==> BodyField(f, key) { SourceByTags(f, key); }
    assert SourceOf(f).From? ==> Draws(f, SourceOf(f).tag);
    if SourceOf(f).From? { SourceByTags(f, SourceOf(f).key); }
  }

  /** So is a refusal: binding fails if and only if a tagged value that is present is refused, or the struct
      has a body field and the body is of another media type, malformed, or (not lenient) has a key that is
      no field's. */
  lemma FailsByTags(types: Types, fields: seq<Field>, req: Request, start: seq<Value>, i: nat)
    requires i < |fields| == |start|
    ensures Fails(types, fields, req, start, i) <==>
              var f := fields[i];
              || (PathField(f) && req.pathValue(f.path) != ""
                  && types.parse(f.kind, start[i], req.pathValue(f.path)).err.Some?)
              || (QueryField(f) && req.query(f.query) != ""
                  && types.parse(f.kind, start[i], req.query(f.query)).err.Some?)
              || (exists key :: BodyField(f, key) && req.body.Object? && key in req.body.keys
                                && types.unmarshal(f.kind, start[i], req.body.keys[key]).err.Some?)
  {
    var f := fields[i];
    SourceByTags(f, f.path);
    SourceByTags(f, f.query);
    forall key ensures SourceOf(f) == From(JsonTag, key) <==> BodyField(f, key) { SourceByTags(f, key); }
    if SourceOf(f).From? { SourceByTags(f, SourceOf(f).key); }
  }

  predicate In(r: Reason, place: string) { "in" in r.meta && r.meta["in"] == place }

  /** The reply lists path failures first, then query failures, then the body's. */
  lemma ReasonsInOrder(types: Types, fields: seq<Field>, req: Request, start: seq<Value>) returns (p: nat, q: nat)
    requires |fields| == |start|
    ensures var rs := Reasons(types, fields, req, start);
            && p <= q <= |rs|
            && (forall i | 0 <= i < p :: In(rs[i], "path")) && (forall i | p <= i < q :: In(rs[i], "query"))
            && (forall i | q <= i < |rs| :: In(rs[i], "body"))
  {
    var paths := ParamReasons(types, Claims(fields, PathTag), "path", req.pathValue, start);
    var queries := ParamReasons(types, Claims(fields, QueryTag), "query", req.query, start);
    var body := if HasBody(fields) then BodyReasons(types, fields, req.body, start) else [];
    p, q := |paths|, |paths| + |queries|;
    ParamPlace(types, Claims(fields, PathTag), "path", req.pathValue, start);
    ParamPlace(types, Claims(fields, QueryTag), "query", req.query, start);
    BodyPlace(types, fields, req.body, start);
    assert Reasons(types, fields, req, start) == paths + queries + body;
  }

  lemma {:induction false} ParamPlace(types: Types, binds: seq<FieldBind>, place: string, get: string -> string,
                                      start: seq<Value>)
    requires InRange(binds, |start|)
    ensures forall i | 0 <= i < |ParamReasons(types, binds, place, get, start)| ::
              In(ParamReasons(types, binds, place, get, start)[i], place)
  {
    if binds != [] { ParamPlace(types, binds[..|binds| - 1], place, get, start); }
  }

  lemma {:induction false} FieldPlace(types: Types, binds: seq<FieldBind>, raw: map<string, Json>, start: seq<Value>)
    requires InRange(binds, |start|)
    ensures forall i | 0 <= i < |FieldReasons(types, binds, raw, start)| ::
              In(FieldReasons(types, binds, raw, start)[i], "body")
  {
    if binds != [] { FieldPlace(types, binds[..|binds| - 1], raw, start); }
  }

  lemma BodyPlace(types: Types, fields: seq<Field>, body: Body, start: seq<Value>)
    requires |fields| == |start|
    ensures forall i | 0 <= i < |BodyReasons(types, fields, body, start)| ::
              In(BodyReasons(types, fields, body, start)[i], "body")
  {
    if body.Object? { FieldPlace(types, Claims(fields, JsonTag), body.keys, start); }
  }

  /** The reason field i's own value calls for, word for word. */
  ghost predicate CallsFor(types: Types, f: Field, req: Request, held: Value, r: Reason) {
    || (PathField(f) && req.pathValue(f.path) != ""
        && var err := types.parse(f.kind, held, req.pathValue(f.path)).err;
           err.Some? && r == Reason("invalid", map["in" := "path", "field" := f.path, "error" := err.value], []))
    || (QueryField(f) && req.query(f.query) != ""
        && var err := types.parse(f.kind, held, req.query(f.query)).err;
           err.Some? && r == Reason("invalid", map["in" := "query", "field" := f.query, "error" := err.value], []))
    || (exists key :: BodyField(f, key) && req.body.Object? && key in req.body.keys
                      && ReportsJson(types.unmarshal(f.kind, held, req.body.keys[key]).err, key, r))
  }

  predicate ReportsJson(err: Option<JsonError>, key: string, r: Reason) {
    match err
    case None => false
    case Some(TypeMismatch(want, got)) =>
      r == Reason("invalid_type", map["in" := "body", "field" := key, "expected" := want, "got" := got], [])
    case Some(OtherError(message)) =>
      r == Reason("invalid", map["in" := "body", "field" := key, "error" := message], [])
  }

  /** The reason a body as a whole calls for, word for word. */
  ghost predicate BodyCallsFor(fields: seq<Field>, body: Body, r: Reason) {
    match body
    case NoBody => false
    case Malformed(message) => r == Reason("malformed", map["in" := "body", "error" := message], [])
    case Object(raw) =>
      && (forall i | 0 <= i < |fields| :: !(fields[i].exported && fields[i].isLenient))
      && exists k :: k in raw && (forall i | 0 <= i < |fields| :: !BodyField(fields[i], k))
                     && r == Reason("unknown_field", map["in" := "body", "field" := k], [])
  }

  lemma NamesIsCallsFor(types: Types, fields: seq<Field>, req: Request, start: seq<Value>, i: nat, r: Reason)
    requires i < |fields| == |start|
    ensures Names(types, fields, req, start, i, r) <==> CallsFor(types, fields[i], req, start[i], r)
  {
    var f := fields[i];
    SourceByTags(f, f.path);
    SourceByTags(f, f.query);
    forall key ensures SourceOf(f) == From(JsonTag, key) <==> BodyField(f, key) { SourceByTags(f, key); }
    if SourceOf(f).From? { SourceByTags(f, SourceOf(f).key); }
  }

  lemma BodyNamesIsCallsFor(fields: seq<Field>, body: Body, r: Reason)
    ensures BodyNames(fields, body, r) <==> BodyCallsFor(fields, body, r)
  {
    BodyKeysByTags(fields, "");
    forall k ensures Claimed(fields, k) <==> exists i :: 0 <= i < |fields| && BodyField(fields[i], k) {
      BodyKeysByTags(fields, k);
    }
    if body.Object? {
      if k :| k in body.keys && !Claimed(fields, k) && r == UnknownReason(k) {
        assert forall i | 0 <= i < |fields| :: !BodyField(fields[i], k);
      }
    }
  }

  /** The reply's reasons, off the tags: exactly one for each tagged value that is refused, one for a malformed
      body, and one for each key no field has, unless the struct is lenient. */
  lemma ReasonsByTags(types: Types, fields: seq<Field>, req: Request, start: seq<Value>, r: Reason)
    requires |fields| == |start|
    ensures r in Reasons(types, fields, req, start) <==>
              || (exists i :: 0 <= i < |fields| && CallsFor(types, fields[i], req, start[i], r))
              || ((exists i, key :: 0 <= i < |fields| && BodyField(fields[i], key))
                  && BodyCallsFor(fields, req.body, r))
  {
    ReasonsNameExactly(types, fields, req, start, r);
    BodyNamesIsCallsFor(fields, req.body, r);
    forall i | 0 <= i < |fields|
      ensures Names(types, fields, req, start, i, r) <==> CallsFor(types, fields[i], req, start[i], r)
    {
      NamesIsCallsFor(types, fields, req, start, i, r);
    }
    HasBodyByTags(fields);
  }

  lemma HasBodyByTags(fields: seq<Field>)
    ensures HasBody(fields) <==> exists i, key :: 0 <= i < |fields| && BodyField(fields[i], key)
  {
    if i :| 0 <= i < |fields| && Draws(fields[i], JsonTag) { SourceByTags(fields[i], SourceOf(fields[i]).key); }
    if i, key :| 0 <= i < |fields| && BodyField(fields[i], key) { SourceByTags(fields[i], key); }
  }
}
