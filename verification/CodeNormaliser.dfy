/** codeFromMessage: an error message rewritten into an error code (http/oops/oops.go). */
module CodeNormaliser {
  import opened GoStrings

  predicate IsAlnum(c: char) { 'a' <= c <= 'z' || '0' <= c <= '9' }

  predicate InAlphabet(c: char) { IsAlnum(c) || c == '_' }

  /** What is used of unicode.ToLower: it leaves lower-case ASCII letters, digits, the underscore
      and white space alone. */
  ghost predicate Lowers(low: char -> char) {
    forall c :: InAlphabet(c) || IsSpace(c) ==> low(c) == c
  }

  /** strings.ReplaceAll of a space by an underscore. */
  function ReplaceSpaces(s: string): string {
    if s == [] then [] else [if s[0] == ' ' then '_' else s[0]] + ReplaceSpaces(s[1..])
  }

  /** [^a-z0-9_]+ replaced by nothing. */
  function Clean(s: string): string {
    if s == [] then [] else (if InAlphabet(s[0]) then [s[0]] else []) + Clean(s[1..])
  }

  /** _+ replaced by one underscore. */
  function Collapse(s: string): string {
    if |s| >= 2 && s[0] == '_' && s[1] == '_' then Collapse(s[1..])
    else if s == [] then []
    else [s[0]] + Collapse(s[1..])
  }

  /** ^_|_$ replaced by nothing. */
  function TrimEnds(s: string): string {
    var t := if s != [] && s[0] == '_' then s[1..] else s;
    if t != [] && t[|t| - 1] == '_' then t[..|t| - 1] else t
  }

  function CodeFromMessage(low: char -> char, msg: string): string {
    TrimEnds(Collapse(Clean(ReplaceSpaces(ToLower(low, TrimSpace(msg))))))
  }

  /** Words of letters and digits joined by single underscores: empty, or
      [a-z0-9]+(_[a-z0-9]+)*. */
  predicate IsCode(s: string) {
    && (forall i | 0 <= i < |s| :: InAlphabet(s[i]))
    && (forall i | 0 <= i < |s| - 1 :: !(s[i] == '_' && s[i + 1] == '_'))
    && (s != [] ==> s[0] != '_' && s[|s| - 1] != '_')
  }

  /** The letters and digits of s, in order. */
  function Alnums(s: string): string {
    if s == [] then [] else (if IsAlnum(s[0]) then [s[0]] else []) + Alnums(s[1..])
  }

  // ---- each stage ----

  lemma {:induction false} ReplaceKeepsAlnums(s: string)
    ensures Alnums(ReplaceSpaces(s)) == Alnums(s)
  {
    if s != [] {
      ReplaceKeepsAlnums(s[1..]);
      assert ReplaceSpaces(s)[1..] == ReplaceSpaces(s[1..]);
    }
  }

  lemma {:induction false} CleanSpec(s: string)
    ensures forall i | 0 <= i < |Clean(s)| :: InAlphabet(Clean(s)[i])
    ensures Alnums(Clean(s)) == Alnums(s)
  {
    if s != [] {
      CleanSpec(s[1..]);
      if InAlphabet(s[0]) { assert Clean(s)[1..] == Clean(s[1..]); }
      else { assert Clean(s) == Clean(s[1..]); }
    }
  }

  lemma {:induction false} CollapseSpec(s: string)
    requires forall i | 0 <= i < |s| :: InAlphabet(s[i])
    ensures var c := Collapse(s);
            && (forall i | 0 <= i < |c| :: InAlphabet(c[i]))
            && (forall i | 0 <= i < |c| - 1 :: !(c[i] == '_' && c[i + 1] == '_'))
            && Alnums(c) == Alnums(s)
            && (c == [] <==> s == []) && (s != [] ==> c[0] == s[0])
  {
    if |s| >= 2 && s[0] == '_' && s[1] == '_' {
      CollapseSpec(s[1..]);
    } else if s != [] {
      CollapseSpec(s[1..]);
      assert Collapse(s)[1..] == Collapse(s[1..]);
    }
  }

  lemma {:induction false} AlnumsConcat(a: string, b: string)
    ensures Alnums(a + b) == Alnums(a) + Alnums(b)
  {
    if a == [] {
      assert a + b == b;
    } else {
      var first := if IsAlnum(a[0]) then [a[0]] else [];
      assert (a + b)[1..] == a[1..] + b;
      AlnumsConcat(a[1..], b);
      assert first + (Alnums(a[1..]) + Alnums(b)) == first + Alnums(a[1..]) + Alnums(b);
    }
  }

  predicate SingleUnderscores(s: string) {
    && (forall i | 0 <= i < |s| :: InAlphabet(s[i]))
    && (forall i | 0 <= i < |s| - 1 :: !(s[i] == '_' && s[i + 1] == '_'))
  }

  lemma DropFirst(s: string)
    requires SingleUnderscores(s) && s != [] && s[0] == '_'
    ensures SingleUnderscores(s[1..]) && Alnums(s[1..]) == Alnums(s)
    ensures s[1..] != [] ==> s[1..][0] != '_'
  {
    if |s| > 1 { assert s[0 + 1] != '_'; }
  }

  lemma DropLast(s: string)
    requires SingleUnderscores(s) && s != [] && s[|s| - 1] == '_'
    ensures var t := s[..|s| - 1];
            SingleUnderscores(t) && Alnums(t) == Alnums(s) && (t != [] ==> t[|t| - 1] != '_')
  {
    var t := s[..|s| - 1];
    assert s == t + ['_'] && Alnums(['_']) == [] by { assert ['_'][1..] == []; }
    AlnumsConcat(t, ['_']);
    assert t != [] ==> t[|t| - 1] == s[|s| - 2] && s[|s| - 2 + 1] == '_';
  }

  lemma TrimEndsSpec(s: string)
    requires SingleUnderscores(s)
    ensures IsCode(TrimEnds(s)) && Alnums(TrimEnds(s)) == Alnums(s)
  {
    var t := if s != [] && s[0] == '_' then s[1..] else s;
    if t != s { DropFirst(s); }
    if t != [] && t[|t| - 1] == '_' { DropLast(t); }
  }

  lemma {:induction false} SpacesHaveNoAlnums(s: string)
    requires forall i | 0 <= i < |s| :: IsSpace(s[i])
    ensures Alnums(s) == []
  {
    if s != [] { SpacesHaveNoAlnums(s[1..]); }
  }

  lemma TrimKeepsLoweredAlnums(low: char -> char, msg: string)
    requires Lowers(low)
    ensures Alnums(ToLower(low, TrimSpace(msg))) == Alnums(ToLower(low, msg))
  {
    var a, b := TrimSpaceTrims(msg);
    var l := ToLower(low, msg);
    ToLowerAt(low, msg);
    ToLowerAt(low, TrimSpace(msg));
    assert ToLower(low, TrimSpace(msg)) == l[a..b];
    assert l == l[..a] + l[a..b] + l[b..];
    SpacesHaveNoAlnums(l[..a]);
    SpacesHaveNoAlnums(l[b..]);
    AlnumsConcat(l[..a] + l[a..b], l[b..]);
    AlnumsConcat(l[..a], l[a..b]);
  }

  // ---- the pipeline ----

  /** Any message becomes an empty string or a well-formed code, spelt with exactly the letters and
      digits of the lowered message, in order. */
  lemma CodeFromMessageSpec(low: char -> char, msg: string)
    requires Lowers(low)
    ensures IsCode(CodeFromMessage(low, msg))
    ensures Alnums(CodeFromMessage(low, msg)) == Alnums(ToLower(low, msg))
  {
    var lowered := ToLower(low, TrimSpace(msg));
    TrimKeepsLoweredAlnums(low, msg);
    ReplaceKeepsAlnums(lowered);
    CleanSpec(ReplaceSpaces(lowered));
    CollapseSpec(Clean(ReplaceSpaces(lowered)));
    TrimEndsSpec(Collapse(Clean(ReplaceSpaces(lowered))));
  }

  lemma {:induction false} StagesKeepAlphabet(low: char -> char, s: string)
    requires Lowers(low) && forall i | 0 <= i < |s| :: InAlphabet(s[i])
    ensures ToLower(low, s) == s && ReplaceSpaces(s) == s && Clean(s) == s
  {
    if s != [] {
      StagesKeepAlphabet(low, s[1..]);
      assert s == [s[0]] + s[1..];
    }
  }

  lemma {:induction false} CollapseKeepsSingles(s: string)
    requires forall i | 0 <= i < |s| - 1 :: !(s[i] == '_' && s[i + 1] == '_')
    ensures Collapse(s) == s
  {
    if s != [] {
      CollapseKeepsSingles(s[1..]);
      assert s == [s[0]] + s[1..];
    }
  }

  lemma NothingToTrim(s: string)
    requires forall i | 0 <= i < |s| :: InAlphabet(s[i])
    ensures TrimSpace(s) == s
  {
    if s != [] { assert !IsSpace(s[0]) && !IsSpace(s[|s| - 1]); }
  }

  /** A code is its own code, so the rewrite is idempotent. */
  lemma CodesAreFixed(low: char -> char, s: string)
    requires Lowers(low) && IsCode(s)
    ensures CodeFromMessage(low, s) == s
  {
    NothingToTrim(s);
    StagesKeepAlphabet(low, s);
    CollapseKeepsSingles(s);
    assert TrimEnds(s) == s;
    assert Collapse(Clean(ReplaceSpaces(ToLower(low, TrimSpace(s))))) == s;
  }

  lemma Idempotent(low: char -> char, msg: string)
    requires Lowers(low)
    ensures CodeFromMessage(low, CodeFromMessage(low, msg)) == CodeFromMessage(low, msg)
  {
    CodeFromMessageSpec(low, msg);
    CodesAreFixed(low, CodeFromMessage(low, msg));
  }

  /** No code at all comes out exactly when the message has no letter or digit. */
  lemma EmptyIffNothingToSpell(low: char -> char, msg: string)
    requires Lowers(low)
    ensures CodeFromMessage(low, msg) == "" <==> Alnums(ToLower(low, msg)) == ""
  {
    CodeFromMessageSpec(low, msg);
    var c := CodeFromMessage(low, msg);
    if c != [] { assert IsAlnum(c[0]) && Alnums(c)[0] == c[0]; }
  }

  // ---- where the underscores go ----

  predicate IsSeparator(c: char) { c == ' ' || c == '_' }

  /** For each separator, how many letters and digits, n included, stand before it. */
  function Breaks(s: string, n: nat): set<nat> {
    if s == [] then {}
    else (if IsSeparator(s[0]) then {n} else {}) + Breaks(s[1..], n + if IsAlnum(s[0]) then 1 else 0)
  }

  /** The breaks between letters or digits, told by how many of those stand before them. */
  function InnerBreaks(s: string): set<nat> {
    set n | n in Breaks(s, 0) && 0 < n < |Alnums(s)|
  }

  lemma {:induction false} BreaksIff(s: string, n: nat, m: nat)
    ensures m in Breaks(s, n) <==> exists k :: 0 <= k < |s| && IsSeparator(s[k]) && n + |Alnums(s[..k])| == m
  {
    if s != [] {
      var rest, n' := s[1..], n + if IsAlnum(s[0]) then 1 else 0;
      BreaksIff(rest, n', m);
      forall k | 0 <= k < |rest| ensures n' + |Alnums(rest[..k])| == n + |Alnums(s[..k + 1])| && rest[k] == s[k + 1] {
        assert s[..k + 1][1..] == rest[..k];
      }
      if IsSeparator(s[0]) && m == n { assert s[..0] == []; }
      if k :| 0 <= k < |rest| && IsSeparator(rest[k]) && n' + |Alnums(rest[..k])| == m {
        assert IsSeparator(s[k + 1]) && n + |Alnums(s[..k + 1])| == m;
      }
      if k :| 0 <= k < |s| && IsSeparator(s[k]) && n + |Alnums(s[..k])| == m {
        if k == 0 { assert s[..0] == []; } else { assert rest[k - 1] == s[k]; }
      }
    }
  }

  lemma {:induction false} BreaksRange(s: string, n: nat)
    ensures forall m | m in Breaks(s, n) :: n <= m <= n + |Alnums(s)|
  {
    if s != [] { BreaksRange(s[1..], n + if IsAlnum(s[0]) then 1 else 0); }
  }

  lemma {:induction false} BreaksConcat(a: string, b: string, n: nat)
    ensures Breaks(a + b, n) == Breaks(a, n) + Breaks(b, n + |Alnums(a)|)
  {
    if a == [] {
      assert a + b == b;
    } else {
      assert (a + b)[1..] == a[1..] + b;
      BreaksConcat(a[1..], b, n + if IsAlnum(a[0]) then 1 else 0);
    }
  }

  /** Separators at the ends are no inner breaks. */
  lemma OuterBreaks(a: string, m: string, b: string)
    requires Alnums(a) == [] && Alnums(b) == []
    ensures InnerBreaks(a + m + b) == InnerBreaks(m)
  {
    AlnumsConcat(a, m);
    AlnumsConcat(a + m, b);
    BreaksConcat(a, m, 0);
    BreaksConcat(a + m, b, 0);
    BreaksRange(a, 0);
    BreaksRange(b, |Alnums(a + m)|);
  }

  lemma {:induction false} ReplaceKeepsBreaks(s: string, n: nat)
    ensures Breaks(ReplaceSpaces(s), n) == Breaks(s, n)
    ensures ' ' !in ReplaceSpaces(s)
  {
    if s != [] { ReplaceKeepsBreaks(s[1..], n + if IsAlnum(s[0]) then 1 else 0); }
  }

  lemma {:induction false} CleanKeepsBreaks(s: string, n: nat)
    requires ' ' !in s
    ensures Breaks(Clean(s), n) == Breaks(s, n)
  {
    if s != [] {
      assert s == [s[0]] + s[1..];
      CleanKeepsBreaks(s[1..], n + if IsAlnum(s[0]) then 1 else 0);
      if InAlphabet(s[0]) { assert Clean(s)[1..] == Clean(s[1..]); }
      else { assert Clean(s) == Clean(s[1..]); }
    }
  }

  lemma {:induction false} CollapseKeepsBreaks(s: string, n: nat)
    ensures Breaks(Collapse(s), n) == Breaks(s, n)
  {
    if |s| >= 2 && s[0] == '_' && s[1] == '_' {
      CollapseKeepsBreaks(s[1..], n);
    } else if s != [] {
      CollapseKeepsBreaks(s[1..], n + if IsAlnum(s[0]) then 1 else 0);
      assert Collapse(s)[1..] == Collapse(s[1..]);
    }
  }

  lemma TrimEndsKeepsBreaks(s: string)
    ensures InnerBreaks(TrimEnds(s)) == InnerBreaks(s)
  {
    var t := if s != [] && s[0] == '_' then s[1..] else s;
    var head := s[..|s| - |t|];
    var u := TrimEnds(s);
    var tail := t[|u|..];
    assert ['_'][1..] == [];
    assert head == [] || head == ['_'];
    assert tail == [] || tail == ['_'];
    assert s == head + u + tail;
    OuterBreaks(head, u, tail);
  }

  lemma TrimSpaceKeepsBreaks(low: char -> char, msg: string)
    requires Lowers(low)
    ensures InnerBreaks(ToLower(low, TrimSpace(msg))) == InnerBreaks(ToLower(low, msg))
  {
    var a, b := TrimSpaceTrims(msg);
    var l := ToLower(low, msg);
    ToLowerAt(low, msg);
    ToLowerAt(low, TrimSpace(msg));
    assert ToLower(low, TrimSpace(msg)) == l[a..b];
    assert l == l[..a] + l[a..b] + l[b..];
    SpacesHaveNoAlnums(l[..a]);
    SpacesHaveNoAlnums(l[b..]);
    OuterBreaks(l[..a], l[a..b], l[b..]);
  }

  /** An underscore stands between two letters or digits of the code exactly when a space or an underscore
      stands between them in the lowered message. */
  lemma BreaksAreKept(low: char -> char, msg: string)
    requires Lowers(low)
    ensures InnerBreaks(CodeFromMessage(low, msg)) == InnerBreaks(ToLower(low, msg))
  {
    var l := ToLower(low, TrimSpace(msg));
    var r := ReplaceSpaces(l);
    TrimSpaceKeepsBreaks(low, msg);
    ReplaceKeepsAlnums(l);
    ReplaceKeepsBreaks(l, 0);
    CleanSpec(r);
    CleanKeepsBreaks(r, 0);
    CollapseSpec(Clean(r));
    CollapseKeepsBreaks(Clean(r), 0);
    TrimEndsSpec(Collapse(Clean(r)));
    TrimEndsKeepsBreaks(Collapse(Clean(r)));
  }

  /** Letters, digits and the places of the underscores make the code. */
  lemma {:induction false} SameBreaksSameCode(a: string, b: string, n: nat)
    requires SingleUnderscores(a) && SingleUnderscores(b) && Alnums(a) == Alnums(b) && Breaks(a, n) == Breaks(b, n)
    requires (a != [] ==> a[|a| - 1] != '_') && (b != [] ==> b[|b| - 1] != '_')
    ensures a == b
    decreases |a| + |b|
  {
    if a == [] || b == [] {
      if a != [] { EndsInAlnum(a); }
      if b != [] { EndsInAlnum(b); }
    } else if a[0] == '_' && b[0] == '_' {
      Skip(a, n);
      Skip(b, n);
      SameBreaksSameCode(a[1..], b[1..], n);
      assert a == ['_'] + a[1..] && b == ['_'] + b[1..];
    } else if a[0] == '_' {
      BreaksRange(b[1..], n + 1);
      assert false;
    } else if b[0] == '_' {
      BreaksRange(a[1..], n + 1);
      assert false;
    } else {
      assert Alnums(a)[0] == a[0] && Alnums(b)[0] == b[0];
      assert Alnums(a[1..]) == Alnums(a)[1..] && Alnums(b[1..]) == Alnums(b)[1..];
      SameBreaksSameCode(a[1..], b[1..], n + 1);
      assert a == [a[0]] + a[1..] && b == [b[0]] + b[1..];
    }
  }

  lemma {:induction false} EndsInAlnum(s: string)
    requires s != [] && IsAlnum(s[|s| - 1])
    ensures Alnums(s) != []
  {
    if |s| > 1 { EndsInAlnum(s[1..]); }
  }

  lemma Skip(s: string, n: nat)
    requires SingleUnderscores(s) && s != [] && s[0] == '_' && s[|s| - 1] != '_'
    ensures SingleUnderscores(s[1..]) && Alnums(s[1..]) == Alnums(s) && Breaks(s[1..], n) == Breaks(s, n) - {n}
  {
    assert s[0 + 1] != '_';
    BreaksRange(s[2..], n + 1);
    assert s[1..][1..] == s[2..];
  }

  /** The rewrite is the only one: a string is the message's code if and only if it is a well-formed code with
      the letters and digits of the lowered message, broken where those are. */
  lemma CodeIff(low: char -> char, msg: string, s: string)
    requires Lowers(low)
    ensures s == CodeFromMessage(low, msg) <==>
              IsCode(s) && Alnums(s) == Alnums(ToLower(low, msg)) && InnerBreaks(s) == InnerBreaks(ToLower(low, msg))
  {
    var c := CodeFromMessage(low, msg);
    CodeFromMessageSpec(low, msg);
    BreaksAreKept(low, msg);
    if IsCode(s) && Alnums(s) == Alnums(c) && InnerBreaks(s) == InnerBreaks(c) {
      CodeBreaks(s);
      CodeBreaks(c);
      SameBreaksSameCode(s, c, 0);
    }
  }

  /** A code has no other breaks. */
  lemma CodeBreaks(s: string)
    requires IsCode(s)
    ensures Breaks(s, 0) == InnerBreaks(s)
  {
    forall m | m in Breaks(s, 0) ensures 0 < m < |Alnums(s)| {
      BreaksIff(s, 0, m);
      var k :| 0 <= k < |s| && IsSeparator(s[k]) && |Alnums(s[..k])| == m;
      assert s[k] == '_' && 0 < k < |s| - 1;
      assert s[k - 1 + 1] == '_' && s[k + 1] != '_';
      EndsInAlnum(s[..k]);
      EndsInAlnum(s[k + 1..]);
      assert s == s[..k] + s[k..];
      AlnumsConcat(s[..k], s[k..]);
      assert s[k..][1..] == s[k + 1..];
    }
  }
}
