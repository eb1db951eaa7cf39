/** The Sequential scheme, "v1", "v2", ... (http/version/version.go), over 64-bit ints. */
module SeqScheme {
  import opened Options
  import opened GoInts
  import opened GoStrings
  import opened VersionTable

  predicate IsDigit(c: char) { '0' <= c <= '9' }

  predicate AllDigits(s: string) { forall i | 0 <= i < |s| :: IsDigit(s[i]) }

  /** unicode.ToLower, as far as it matters here: no character but V lowers to v, and none lowers to a
      digit. */
  function Lower(c: char): char {
    if 'A' <= c <= 'Z' then (c as int + 32) as char else c
  }

  function TrimPrefixV(s: string): string { if s != [] && s[0] == 'v' then s[1..] else s }

  function Digit(c: char): nat
    requires IsDigit(c)
  {
    c as int - '0' as int
  }

  /** What a string of digits denotes. */
  function Value(d: string): nat
    requires AllDigits(d)
  {
    if d == [] then 0 else Value(d[..|d| - 1]) * 10 + Digit(d[|d| - 1])
  }

  /** seqScheme.Parse; Atoi refuses what does not fit 64 bits. */
  function Parse(raw: string): Option<int> {
    var digits := TrimPrefixV(ToLower(Lower, raw));
    if digits == "" || !AllDigits(digits) || Value(digits) > MAX_INT then None else Some(Value(digits))
  }

  /** The decimal digits of n without leading zeros; none at all for 0. */
  function Digits(n: nat): (d: string)
    ensures AllDigits(d)
  {
    if n == 0 then "" else Digits(n / 10) + [('0' as int + n % 10) as char]
  }

  /** strconv.Itoa. */
  function Itoa(n: int): string {
    if n < 0 then "-" + Digits(-n) else if n == 0 then "0" else Digits(n)
  }

  function Format(v: int): string { "v" + Itoa(v) }

  const SEQUENTIAL: Scheme<int> :=
    Scheme(raw => Parse(raw), (a: int, b: int) => if a < b then -1 else if a > b then 1 else 0, v => Format(v))

  function StripZeros(d: string): string {
    if d != [] && d[0] == '0' then StripZeros(d[1..]) else d
  }

  /** raw without its optional v or V and without leading zeros. */
  function Canonical(raw: string): string {
    StripZeros(DropV(raw))
  }

  lemma {:induction false} DigitsValue(n: nat)
    ensures Value(Digits(n)) == n
    ensures n > 0 ==> Digits(n) != "" && Digits(n)[0] != '0'
  {
    if n > 0 {
      DigitsValue(n / 10);
      var last := ('0' as int + n % 10) as char;
      assert Digits(n)[..|Digits(n)| - 1] == Digits(n / 10);
    }
  }

  /** Digits gives back any digit string, up to its leading zeros. */
  lemma {:induction false} DigitsOfValue(d: string)
    requires AllDigits(d)
    ensures Digits(Value(d)) == StripZeros(d)
    decreases |d|
  {
    if d != [] {
      var front, last := d[..|d| - 1], d[|d| - 1];
      DigitsOfValue(front);
      StripZerosFront(front, last);
      assert d == front + [last];
      assert Value(d) / 10 == Value(front) && Value(d) % 10 == Digit(last);
      if Value(d) > 0 {
        if Value(front) == 0 { assert Digits(0) == ""; }
      } else {
        assert last == '0';
      }
    }
  }

  lemma {:induction false} StripZerosFront(front: string, last: char)
    ensures StripZeros(front + [last])
            == if StripZeros(front) == "" && last == '0' then "" else StripZeros(front) + [last]
  {
    if front == [] {
      assert front + [last] == [last] && [last][1..] == [];
    } else {
      assert (front + [last])[1..] == front[1..] + [last];
      if front[0] == '0' { StripZerosFront(front[1..], last); }
    }
  }

  function DropV(raw: string): string {
    if raw != [] && (raw[0] == 'v' || raw[0] == 'V') then raw[1..] else raw
  }

  /** Parse accepts exactly an optional v or V and then digits, at least one, that fit 64 bits. */
  lemma AcceptsIff(raw: string)
    ensures Parse(raw).Some? <==> DropV(raw) != "" && AllDigits(DropV(raw)) && Value(DropV(raw)) <= MAX_INT
    ensures Parse(raw).Some? ==> Parse(raw) == Some(Value(DropV(raw)))
  {
    var lowered, digits := TrimPrefixV(ToLower(Lower, raw)), DropV(raw);
    ToLowerAt(Lower, raw);
    assert |lowered| == |digits| && forall i | 0 <= i < |digits| :: lowered[i] == Lower(digits[i]);
    assert AllDigits(lowered) || AllDigits(digits) ==> lowered == digits by {
      forall i | 0 <= i < |digits| && (IsDigit(lowered[i]) || IsDigit(digits[i])) ensures lowered[i] == digits[i] { }
    }
  }

  lemma FormatIsLower(n: int)
    requires AllDigits(Itoa(n))
    ensures ToLower(Lower, Format(n)) == Format(n)
  {
    var f := Format(n);
    ToLowerAt(Lower, f);
    forall i | 0 <= i < |f| ensures ToLower(Lower, f)[i] == f[i] {
      if i > 0 { assert f[i] == Itoa(n)[i - 1]; }
    }
  }

  /** Every version from 0 to the largest int survives a Format/Parse round trip. */
  lemma ParseFormat(n: int)
    requires 0 <= n <= MAX_INT
    ensures Parse(Format(n)) == Some(n)
  {
    DigitsValue(n);
    var f := Format(n);
    if n == 0 {
      assert Value("0") == Value("") * 10 + 0 by { assert "0"[..0] == ""; }
    }
    assert AllDigits(Itoa(n)) && Value(Itoa(n)) == n;
    FormatIsLower(n);
    assert TrimPrefixV(f) == Itoa(n);
  }

  /** Two accepted strings name the same version exactly when they agree after dropping the v and
      the leading zeros. */
  lemma SameVersionIff(a: string, b: string)
    requires Parse(a).Some? && Parse(b).Some?
    ensures Parse(a) == Parse(b) <==> Canonical(a) == Canonical(b)
  {
    AcceptsIff(a);
    AcceptsIff(b);
    DigitsOfValue(DropV(a));
    DigitsOfValue(DropV(b));
    DigitsValue(Value(DropV(a)));
    DigitsValue(Value(DropV(b)));
  }

  /** What Parse accepts, Format renders canonically: a v, then the digits without leading zeros,
      with "v0" for zero. */
  lemma FormatParse(raw: string)
    requires Parse(raw).Some?
    ensures Format(Parse(raw).value) == "v" + if Canonical(raw) == "" then "0" else Canonical(raw)
  {
    AcceptsIff(raw);
    DigitsOfValue(DropV(raw));
    DigitsValue(Value(DropV(raw)));
  }

  /** The scheme meets the laws the endpoint relies on: a total order, and a Format that parses back
      to an equal version for every version Parse can yield. */
  lemma SequentialIsLawful(raw: string)
    ensures TotalOrder(SEQUENTIAL)
    ensures Parse(raw).Some? ==>
              var v := Parse(raw).value;
              var back := SEQUENTIAL.parse(SEQUENTIAL.format(v));
              back.Some? && SEQUENTIAL.compare(back.value, v) == 0
  {
    if Parse(raw).Some? { ParseFormat(Parse(raw).value); }
  }

  // ---- the order of versions, read off their spelling ----

  /** At the first digit where they differ, a has the smaller one. */
  ghost predicate DigitBelow(a: string, b: string) {
    exists i :: 0 <= i < |a| && i < |b| && a[..i] == b[..i] && a[i] < b[i]
  }

  /** a is spelled with fewer digits, or with as many and a smaller one where they first differ. */
  ghost predicate SpelledBelow(a: string, b: string) {
    |a| < |b| || (|a| == |b| && DigitBelow(a, b))
  }

  function Pow10(n: nat): nat { if n == 0 then 1 else Pow10(n - 1) * 10 }

  lemma {:induction false} Pow10Monotone(j: nat, k: nat)
    requires j <= k
    ensures 1 <= Pow10(j) <= Pow10(k)
    decreases k
  {
    if j < k { Pow10Monotone(j, k - 1); } else if j > 0 { Pow10Monotone(j - 1, j - 1); }
  }

  /** A number of n digits without leading zeros is at least 10^(n-1) and below 10^n. */
  lemma {:induction false} ValueBounds(d: string)
    requires AllDigits(d)
    ensures Value(d) < Pow10(|d|)
    ensures d != "" && d[0] != '0' ==> Value(d) >= Pow10(|d| - 1)
  {
    if d != "" { ValueBounds(d[..|d| - 1]); }
  }

  lemma {:induction false} SameLengthOrder(a: string, b: string)
    requires AllDigits(a) && AllDigits(b) && |a| == |b|
    ensures Value(a) < Value(b) <==> DigitBelow(a, b)
    ensures Value(a) == Value(b) <==> a == b
    decreases |a|
  {
    if a != "" {
      var n := |a| - 1;
      var a', b' := a[..n], b[..n];
      SameLengthOrder(a', b');
      SameLengthOrder(b', a');
      assert a == a' + [a[n]] && b == b' + [b[n]];
      if a' == b' {
        LastDecides(a, b, n);
      } else {
        FrontDecides(a, b, n);
      }
    }
  }

  lemma LastDecides(a: string, b: string, n: nat)
    requires |a| == |b| == n + 1 && a[..n] == b[..n]
    ensures DigitBelow(a, b) <==> a[n] < b[n]
  {
    if i :| 0 <= i < |a| && i < |b| && a[..i] == b[..i] && a[i] < b[i] {
      assert a[i] == if i < n then a[..n][i] else a[n];
      assert b[i] == if i < n then b[..n][i] else b[n];
    }
  }

  lemma FrontDecides(a: string, b: string, n: nat)
    requires |a| == |b| == n + 1 && a[..n] != b[..n]
    ensures DigitBelow(a, b) <==> DigitBelow(a[..n], b[..n])
  {
    var a', b' := a[..n], b[..n];
    if i :| 0 <= i < |a| && i < |b| && a[..i] == b[..i] && a[i] < b[i] {
      assert i < n && a'[..i] == a[..i] && b'[..i] == b[..i];
    }
    if i :| 0 <= i < |a'| && i < |b'| && a'[..i] == b'[..i] && a'[i] < b'[i] {
      assert a'[..i] == a[..i] && b'[..i] == b[..i];
    }
  }

  lemma ShorterIsSmaller(a: string, b: string)
    requires AllDigits(a) && AllDigits(b) && |a| < |b| && b[0] != '0'
    ensures Value(a) < Value(b)
  {
    ValueBounds(a);
    ValueBounds(b);
    Pow10Monotone(|a|, |b| - 1);
  }

  lemma SpellingOrder(a: string, b: string)
    requires AllDigits(a) && AllDigits(b) && (a != "" ==> a[0] != '0') && (b != "" ==> b[0] != '0')
    ensures Value(a) < Value(b) <==> SpelledBelow(a, b)
    ensures Value(a) == Value(b) <==> a == b
  {
    if |a| == |b| { SameLengthOrder(a, b); }
    else if |a| < |b| { ShorterIsSmaller(a, b); }
    else { ShorterIsSmaller(b, a); }
  }

  lemma CanonicalValue(raw: string)
    requires Parse(raw).Some?
    ensures AllDigits(Canonical(raw)) && Parse(raw) == Some(Value(Canonical(raw)))
    ensures Canonical(raw) != "" ==> Canonical(raw)[0] != '0'
  {
    AcceptsIff(raw);
    DigitsOfValue(DropV(raw));
    DigitsValue(Value(DropV(raw)));
  }

  /** Compare is the order of the numbers written: of two accepted strings the older version is the one
      that, without its v and leading zeros, is shorter, or as long with the smaller digit first. */
  lemma CompareIsSpellingOrder(a: string, b: string)
    requires Parse(a).Some? && Parse(b).Some?
    ensures var c := SEQUENTIAL.compare(Parse(a).value, Parse(b).value);
            && (c < 0 <==> SpelledBelow(Canonical(a), Canonical(b)))
            && (c == 0 <==> Canonical(a) == Canonical(b))
            && (c > 0 <==> SpelledBelow(Canonical(b), Canonical(a)))
  {
    CanonicalValue(a);
    CanonicalValue(b);
    SpellingOrder(Canonical(a), Canonical(b));
    SpellingOrder(Canonical(b), Canonical(a));
  }
}
