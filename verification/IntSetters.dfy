/** The integer setters (http/parser.go): text is parsed into 64 bits and then stored in a field that
    may be narrower, which reflect does by truncation. */
module IntSetters {
  import opened Options
  import opened GoInts
  import opened SeqScheme
  import B = Binder

  /** The widths of Go's integer types. */
  datatype Width = W8 | W16 | W32 | W64 {
    function Range(): (r: int)
      ensures r > 1
    {
      match this case W8 => 0x100 case W16 => 0x1_0000 case W32 => 0x1_0000_0000 case W64 => 0x1_0000_0000_0000_0000
    }
  }

  function Unsigned(s: string): string { if s != "" && (s[0] == '+' || s[0] == '-') then s[1..] else s }

  /** strconv.ParseInt(s, 10, 64). */
  function ParseInt(s: string): Option<int> {
    var digits := Unsigned(s);
    if digits == "" || !AllDigits(digits) then None
    else
      var n: int := Value(digits);
      var signed := if s[0] == '-' then -n else n;
      if IsInt(signed) then Some(signed) else None
  }

  /** strconv.ParseUint(s, 10, 64), which takes no sign. */
  function ParseUint(s: string): Option<int> {
    if s == "" || !AllDigits(s) || Value(s) >= W64.Range() then None else Some(Value(s))
  }

  /** reflect.Value.SetInt on a field of some width. */
  function StoreInt(w: Width, n: int): int {
    var m := n % w.Range();
    if m >= w.Range() / 2 then m - w.Range() else m
  }

  /** reflect.Value.SetUint. */
  function StoreUint(w: Width, n: int): int { n % w.Range() }

  function SetInt(w: Width, held: int, s: string): B.Outcome<string> {
    match ParseInt(s)
    case Some(n) => B.Outcome(StoreInt(w, n), None)
    case None => B.Outcome(held, Some("parse error"))
  }

  function SetUint(w: Width, held: int, s: string): B.Outcome<string> {
    match ParseUint(s)
    case Some(n) => B.Outcome(StoreUint(w, n), None)
    case None => B.Outcome(held, Some("parse error"))
  }

  predicate FitsInt(w: Width, n: int) { -(w.Range() / 2) <= n < w.Range() / 2 }

  predicate FitsUint(w: Width, n: int) { 0 <= n < w.Range() }

  /** Storing changes a number by a multiple of the field's range, into the range. */
  lemma StoreIntWraps(w: Width, n: int) returns (q: int)
    ensures StoreInt(w, n) == n + q * w.Range() && FitsInt(w, StoreInt(w, n))
  {
    q := -(n / w.Range()) - if n % w.Range() >= w.Range() / 2 then 1 else 0;
    match w case W8 => case W16 => case W32 => case W64 =>
  }

  lemma StoreIntExactIff(w: Width, n: int)
    ensures StoreInt(w, n) == n <==> FitsInt(w, n)
  {
    match w case W8 => case W16 => case W32 => case W64 =>
  }

  /** Text that is accepted is stored exactly if and only if its number fits the field; otherwise the
      field silently holds another number that agrees modulo its range. */
  lemma SetIntExactIff(w: Width, held: int, s: string) returns (q: int)
    requires ParseInt(s).Some?
    ensures SetInt(w, held, s).err == None
    ensures SetInt(w, held, s).value == ParseInt(s).value <==> FitsInt(w, ParseInt(s).value)
    ensures FitsInt(w, SetInt(w, held, s).value) && SetInt(w, held, s).value == ParseInt(s).value + q * w.Range()
  {
    q := StoreIntWraps(w, ParseInt(s).value);
    StoreIntExactIff(w, ParseInt(s).value);
  }

  /** Likewise for unsigned fields. */
  lemma SetUintExactIff(w: Width, held: int, s: string) returns (q: int)
    requires ParseUint(s).Some?
    ensures SetUint(w, held, s).err == None
    ensures SetUint(w, held, s).value == ParseUint(s).value <==> FitsUint(w, ParseUint(s).value)
    ensures FitsUint(w, SetUint(w, held, s).value) && SetUint(w, held, s).value == ParseUint(s).value + q * w.Range()
  {
    q := -(ParseUint(s).value / w.Range());
    match w case W8 => case W16 => case W32 => case W64 =>
  }

  /** A value too wide for its field is accepted and changed: 300 in an int8 becomes 44. */
  lemma WideValueIsTruncated(held: int)
    ensures SetInt(W8, held, "300") == B.Outcome(44, None)
  {
    assert "300"[..2] == "30" && "30"[..1] == "3" && "3"[..0] == "";
    assert Value("300") == 300;
  }

  /** Every number a field can hold arrives unchanged from its decimal form. */
  lemma IntRoundTrip(w: Width, held: int, n: int)
    requires FitsInt(w, n)
    ensures SetInt(w, held, Itoa(n)) == B.Outcome(n, None)
  {
    ItoaValue(if n < 0 then -n else n);
    StoreIntExactIff(w, n);
    assert n < 0 ==> Unsigned(Itoa(n)) == Itoa(-n);
    assert IsInt(n) by { match w case W8 => case W16 => case W32 => case W64 => }
  }

  lemma ItoaValue(n: nat)
    ensures Itoa(n) != "" && AllDigits(Itoa(n)) && Value(Itoa(n)) == n && Unsigned(Itoa(n)) == Itoa(n)
  {
    DigitsValue(n);
    if n == 0 { assert "0"[..0] == ""; }
  }

  lemma UintRoundTrip(w: Width, held: int, n: nat)
    requires FitsUint(w, n)
    ensures SetUint(w, held, Itoa(n)) == B.Outcome(n, None)
  {
    ItoaValue(n);
    assert n < TWO_64 by { match w case W8 => case W16 => case W32 => case W64 => }
    assert StoreUint(w, n) == n by { match w case W8 => case W16 => case W32 => case W64 => }
  }
}
