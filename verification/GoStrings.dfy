/** The string helpers the versioning and error packages lean on. */
module GoStrings {
  /** unicode.IsSpace. */
  predicate IsSpace(c: char) {
    var x := c as int;
    9 <= x <= 13 || x == 32 || x == 0x85 || x == 0xA0 || x == 0x1680 || 0x2000 <= x <= 0x200A
    || x == 0x2028 || x == 0x2029 || x == 0x202F || x == 0x205F || x == 0x3000
  }

  /** strings.ToLower: rune by rune, low being unicode.ToLower. */
  function ToLower(low: char -> char, s: string): string {
    if s == [] then [] else [low(s[0])] + ToLower(low, s[1..])
  }

  lemma {:induction false} ToLowerAt(low: char -> char, s: string)
    ensures |ToLower(low, s)| == |s| && forall i | 0 <= i < |s| :: ToLower(low, s)[i] == low(s[i])
  {
    if s != [] { ToLowerAt(low, s[1..]); }
  }

  function TrimLeft(s: string): string {
    if s != [] && IsSpace(s[0]) then TrimLeft(s[1..]) else s
  }

  function TrimRight(s: string): string {
    if s != [] && IsSpace(s[|s| - 1]) then TrimRight(s[..|s| - 1]) else s
  }

  /** strings.TrimSpace. */
  function TrimSpace(s: string): string { TrimRight(TrimLeft(s)) }

  lemma {:induction false} TrimRightTrims(s: string)
    ensures TrimRight(s) <= s
    ensures TrimRight(s) != [] ==> !IsSpace(TrimRight(s)[|TrimRight(s)| - 1])
    ensures forall i | |TrimRight(s)| <= i < |s| :: IsSpace(s[i])
  {
    if s != [] && IsSpace(s[|s| - 1]) { TrimRightTrims(s[..|s| - 1]); }
  }

  lemma {:induction false} TrimLeftTrims(s: string) returns (a: nat)
    ensures a <= |s| && TrimLeft(s) == s[a..]
    ensures forall i | 0 <= i < a :: IsSpace(s[i])
    ensures a < |s| ==> !IsSpace(s[a])
  {
    a := 0;
    if s != [] && IsSpace(s[0]) {
      a := TrimLeftTrims(s[1..]);
      assert s[1..][a..] == s[a + 1..];
      forall i | 0 <= i < a + 1 ensures IsSpace(s[i]) {
        if i > 0 { assert s[i] == s[1..][i - 1]; }
      }
      a := a + 1;
    }
  }

  /** Trimming removes exactly the outer white space. */
  lemma TrimSpaceTrims(s: string) returns (a: nat, b: nat)
    ensures a <= b <= |s| && TrimSpace(s) == s[a..b]
    ensures (forall i | 0 <= i < a :: IsSpace(s[i])) && (forall i | b <= i < |s| :: IsSpace(s[i]))
    ensures a < b ==> !IsSpace(s[a]) && !IsSpace(s[b - 1])
  {
    a := TrimLeftTrims(s);
    var l := s[a..];
    TrimRightTrims(l);
    b := a + |TrimRight(l)|;
    assert TrimRight(l) == l[..b - a] == s[a..b];
    forall i | b <= i < |s| ensures IsSpace(s[i]) { assert s[i] == l[i - a]; }
  }
}
