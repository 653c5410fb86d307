// String literals in generated code: quotedString escapes a string in six successive
// replacement passes; a reader of string literals gets the original string back.
module JsLiteral {
  import opened Wrappers

  // A JavaScript string is a sequence of 16-bit code units.
  type CodeUnit = c: int | 0 <= c < 0x1_0000
  type JsString = seq<CodeUnit>

  const QUOTE: CodeUnit := 34
  const BACKSLASH: CodeUnit := 92
  const LF: CodeUnit := 10
  const CR: CodeUnit := 13
  const LS: CodeUnit := 0x2028
  const PS: CodeUnit := 0x2029
  const LOWER_N: CodeUnit := 110
  const LOWER_R: CodeUnit := 114
  const LOWER_U: CodeUnit := 117
  const DIGIT_0: CodeUnit := 48
  const LS_ESCAPE: JsString := [BACKSLASH, LOWER_U, 50, 48, 50, 56]
  const PS_ESCAPE: JsString := [BACKSLASH, LOWER_U, 50, 48, 50, 57]

  // str.replace(/c/g, sub)
  function ReplaceAll(s: JsString, c: CodeUnit, sub: JsString): JsString {
    if |s| == 0 then []
    else (if s[0] == c then sub else [s[0]]) + ReplaceAll(s[1..], c, sub)
  }

  // The six passes of quotedString, in order.
  function Passes(s: JsString): JsString {
    ReplaceAll(
      ReplaceAll(
        ReplaceAll(
          ReplaceAll(
            ReplaceAll(
              ReplaceAll(s, BACKSLASH, [BACKSLASH, BACKSLASH]),
              QUOTE, [BACKSLASH, QUOTE]),
            LF, [BACKSLASH, LOWER_N]),
          CR, [BACKSLASH, LOWER_R]),
        LS, LS_ESCAPE),
      PS, PS_ESCAPE)
  }

  function QuotedString(s: JsString): JsString {
    [QUOTE] + Passes(s) + [QUOTE]
  }

  // The escape of a single code unit.
  function EscapeUnit(c: CodeUnit): JsString {
    if c == BACKSLASH then [BACKSLASH, BACKSLASH]
    else if c == QUOTE then [BACKSLASH, QUOTE]
    else if c == LF then [BACKSLASH, LOWER_N]
    else if c == CR then [BACKSLASH, LOWER_R]
    else if c == LS then LS_ESCAPE
    else if c == PS then PS_ESCAPE
    else [c]
  }

  // One simultaneous pass.
  function Escape(s: JsString): JsString {
    if |s| == 0 then [] else EscapeUnit(s[0]) + Escape(s[1..])
  }

  lemma {:induction false} ReplaceAllConcat(a: JsString, b: JsString, c: CodeUnit, sub: JsString)
    ensures ReplaceAll(a + b, c, sub) == ReplaceAll(a, c, sub) + ReplaceAll(b, c, sub)
  {
    if |a| == 0 {
      assert a + b == b;
    } else {
      ReplaceAllConcat(a[1..], b, c, sub);
      var ab := a + b;
      assert ab[1..] == a[1..] + b;
      ReplaceFirst(ab, c, sub);
      ReplaceFirst(a, c, sub);
      AppendAssociates(if a[0] == c then sub else [a[0]], ReplaceAll(a[1..], c, sub), ReplaceAll(b, c, sub));
    }
  }

  lemma ReplaceFirst(s: JsString, c: CodeUnit, sub: JsString)
    requires |s| > 0
    ensures ReplaceAll(s, c, sub) == (if s[0] == c then sub else [s[0]]) + ReplaceAll(s[1..], c, sub)
  {
  }

  lemma AppendAssociates(a: JsString, b: JsString, c: JsString)
    ensures (a + b) + c == a + (b + c)
  {
  }

  lemma {:induction false} ReplaceAllAbsent(s: JsString, c: CodeUnit, sub: JsString)
    requires c !in s
    ensures ReplaceAll(s, c, sub) == s
  {
    if |s| > 0 { ReplaceAllAbsent(s[1..], c, sub); }
  }

  lemma PassesConcat(a: JsString, b: JsString)
    ensures Passes(a + b) == Passes(a) + Passes(b)
  {
    ReplaceAllConcat(a, b, BACKSLASH, [BACKSLASH, BACKSLASH]);
    var a1, b1 := ReplaceAll(a, BACKSLASH, [BACKSLASH, BACKSLASH]), ReplaceAll(b, BACKSLASH, [BACKSLASH, BACKSLASH]);
    ReplaceAllConcat(a1, b1, QUOTE, [BACKSLASH, QUOTE]);
    var a2, b2 := ReplaceAll(a1, QUOTE, [BACKSLASH, QUOTE]), ReplaceAll(b1, QUOTE, [BACKSLASH, QUOTE]);
    ReplaceAllConcat(a2, b2, LF, [BACKSLASH, LOWER_N]);
    var a3, b3 := ReplaceAll(a2, LF, [BACKSLASH, LOWER_N]), ReplaceAll(b2, LF, [BACKSLASH, LOWER_N]);
    ReplaceAllConcat(a3, b3, CR, [BACKSLASH, LOWER_R]);
    var a4, b4 := ReplaceAll(a3, CR, [BACKSLASH, LOWER_R]), ReplaceAll(b3, CR, [BACKSLASH, LOWER_R]);
    ReplaceAllConcat(a4, b4, LS, LS_ESCAPE);
    ReplaceAllConcat(ReplaceAll(a4, LS, LS_ESCAPE), ReplaceAll(b4, LS, LS_ESCAPE), PS, PS_ESCAPE);
  }

  lemma ReplaceOne(x: CodeUnit, c: CodeUnit, sub: JsString)
    ensures ReplaceAll([x], c, sub) == if x == c then sub else [x]
  {
    assert [x][1..] == [];
  }

  // A single unit goes through the passes as it is escaped: no pass touches what an
  // earlier one produced.
  lemma PassesOfUnit(c: CodeUnit)
    ensures Passes([c]) == EscapeUnit(c)
  {
    var s1 := if c == BACKSLASH then [BACKSLASH, BACKSLASH] else [c];
    ReplaceOne(c, BACKSLASH, [BACKSLASH, BACKSLASH]);
    var s2 := if c == QUOTE then [BACKSLASH, QUOTE] else s1;
    if c == QUOTE {
      ReplaceOne(c, QUOTE, [BACKSLASH, QUOTE]);
    } else {
      ReplaceAllAbsent(s1, QUOTE, [BACKSLASH, QUOTE]);
    }
    var s3 := if c == LF then [BACKSLASH, LOWER_N] else s2;
    if c == LF { ReplaceOne(c, LF, [BACKSLASH, LOWER_N]); } else { ReplaceAllAbsent(s2, LF, [BACKSLASH, LOWER_N]); }
    var s4 := if c == CR then [BACKSLASH, LOWER_R] else s3;
    if c == CR { ReplaceOne(c, CR, [BACKSLASH, LOWER_R]); } else { ReplaceAllAbsent(s3, CR, [BACKSLASH, LOWER_R]); }
    var s5 := if c == LS then LS_ESCAPE else s4;
    if c == LS { ReplaceOne(c, LS, LS_ESCAPE); } else { ReplaceAllAbsent(s4, LS, LS_ESCAPE); }
    if c == PS { ReplaceOne(c, PS, PS_ESCAPE); } else { ReplaceAllAbsent(s5, PS, PS_ESCAPE); }
  }

  // The six passes are one simultaneous escape.
  lemma {:induction false} PassesAreEscape(s: JsString)
    ensures Passes(s) == Escape(s)
  {
    if |s| > 0 {
      PassesConcat([s[0]], s[1..]);
      assert [s[0]] + s[1..] == s;
      PassesOfUnit(s[0]);
      PassesAreEscape(s[1..]);
    }
  }

  // ---- reading a string literal, section 7.8.4 of ECMA-262 5th edition ----

  predicate IsLineTerminator(c: CodeUnit) { c == LF || c == CR || c == LS || c == PS }

  function HexValue(c: CodeUnit): Option<int> {
    if 48 <= c <= 57 then Some(c - 48)
    else if 65 <= c <= 70 then Some(c - 55)
    else if 97 <= c <= 102 then Some(c - 87)
    else None
  }

  function Hex(digits: JsString): Option<int> {
    if |digits| == 0 then Some(0)
    else match (Hex(digits[..|digits| - 1]), HexValue(digits[|digits| - 1]))
         case (Some(high), Some(low)) => Some(high * 16 + low)
         case (_, _) => None
  }

  // SingleEscapeCharacter: ' " \ b f n r t v; every other non-digit escapes to itself.
  function SingleEscape(c: CodeUnit): CodeUnit {
    if c == 98 then 8
    else if c == 102 then 12
    else if c == LOWER_N then LF
    else if c == LOWER_R then CR
    else if c == 116 then 9
    else if c == 118 then 11
    else c
  }

  // The characters of a double-quoted literal after its opening quote, up to and
  // including the closing quote, which must end the text.
  function ReadChars(text: JsString): Option<JsString>
    decreases |text|
  {
    if |text| == 0 then None
    else if text[0] == QUOTE then if |text| == 1 then Some([]) else None
    else if IsLineTerminator(text[0]) then None
    else if text[0] != BACKSLASH then Cons(text[0], ReadChars(text[1..]))
    else if |text| == 1 then None
    else var c := text[1];
         if c == LOWER_U then
           if |text| < 6 then None
           else match Hex(text[2..6])
                case Some(v) => if 0 <= v < 0x1_0000 then Cons(v, ReadChars(text[6..])) else None
                case None => None
         else if c == 120 then
           if |text| < 4 then None
           else match Hex(text[2..4])
                case Some(v) => if 0 <= v < 0x1_0000 then Cons(v, ReadChars(text[4..])) else None
                case None => None
         else if c == DIGIT_0 then
           if |text| > 2 && 48 <= text[2] <= 57 then None else Cons(0, ReadChars(text[2..]))
         else if 49 <= c <= 57 then None
         else if c == CR && |text| > 2 && text[2] == LF then ReadChars(text[3..])
         else if IsLineTerminator(c) then ReadChars(text[2..])
         else Cons(SingleEscape(c), ReadChars(text[2..]))
  }

  function Cons(c: CodeUnit, rest: Option<JsString>): Option<JsString> {
    match rest case None => None case Some(s) => Some([c] + s)
  }

  function ReadLiteral(text: JsString): Option<JsString> {
    if |text| > 0 && text[0] == QUOTE then ReadChars(text[1..]) else None
  }

  lemma HexOfSeparators()
    ensures Hex([50, 48, 50, 56]) == Some(LS) && Hex([50, 48, 50, 57]) == Some(PS)
  {
    assert Hex([50]) == Some(2) by { assert [50][..0] == []; }
    assert Hex([50, 48]) == Some(32) by { assert [50, 48][..1] == [50]; }
    assert Hex([50, 48, 50]) == Some(514) by { assert [50, 48, 50][..2] == [50, 48]; }
    assert [50, 48, 50, 56][..3] == [50, 48, 50];
    assert [50, 48, 50, 57][..3] == [50, 48, 50];
  }

  lemma ReadUnit(c: CodeUnit, rest: JsString)
    ensures ReadChars(EscapeUnit(c) + rest) == Cons(c, ReadChars(rest))
  {
    var e := EscapeUnit(c);
    var text := e + rest;
    assert text[|e|..] == rest;
    if c == LS || c == PS {
      HexOfSeparators();
      assert text[2..6] == e[2..];
    }
  }

  lemma {:induction false} ReadEscape(s: JsString)
    ensures ReadChars(Escape(s) + [QUOTE]) == Some(s)
  {
    if |s| == 0 {
      assert Escape(s) + [QUOTE] == [QUOTE];
    } else {
      ReadEscape(s[1..]);
      ReadUnit(s[0], Escape(s[1..]) + [QUOTE]);
      assert Escape(s) + [QUOTE] == EscapeUnit(s[0]) + (Escape(s[1..]) + [QUOTE]);
      assert [s[0]] + s[1..] == s;
    }
  }

  // Reading a printed literal gives the string back, for every string.
  lemma QuotedStringRoundTrip(s: JsString)
    ensures ReadLiteral(QuotedString(s)) == Some(s)
  {
    PassesAreEscape(s);
    ReadEscape(s);
    assert QuotedString(s)[1..] == Escape(s) + [QUOTE];
  }

  // So distinct strings have distinct literals.
  lemma QuotedStringIsInjective(s: JsString, t: JsString)
    requires QuotedString(s) == QuotedString(t)
    ensures s == t
  {
    QuotedStringRoundTrip(s);
    QuotedStringRoundTrip(t);
  }

  // How many backslashes stand right before position k.
  function Backslashes(t: JsString, k: nat): (n: nat)
    requires k <= |t|
    ensures n > 0 ==> k > 0 && t[k - 1] == BACKSLASH
  {
    if k > 0 && t[k - 1] == BACKSLASH then 1 + Backslashes(t, k - 1) else 0
  }

  lemma {:induction false} BackslashesInPrefix(t: JsString, u: JsString, k: nat)
    requires k <= |t|
    ensures Backslashes(t + u, k) == Backslashes(t, k)
  {
    if k > 0 { BackslashesInPrefix(t, u, k - 1); }
  }

  // After its opening quote: no raw line terminator, every quote behind an odd run of
  // backslashes, so escaped, and an even run at the end, so that the next unit is not.
  predicate Inside(t: JsString) {
    && |t| > 0
    && (forall k :: 0 <= k < |t| ==> !IsLineTerminator(t[k]))
    && (forall k :: 0 < k < |t| && t[k] == QUOTE ==> Backslashes(t, k) % 2 == 1)
    && Backslashes(t, |t|) % 2 == 0
  }

  lemma InsideOneMore(t: JsString, c: CodeUnit)
    requires Inside(t)
    ensures Inside(t + EscapeUnit(c))
  {
    var e := EscapeUnit(c);
    var u := t + e;
    BackslashesInPrefix(t, e, |t|);
    forall k | 0 < k < |u| && u[k] == QUOTE ensures Backslashes(u, k) % 2 == 1 {
      if k < |t| {
        BackslashesInPrefix(t, e, k);
      } else {
        assert u[k] == e[k - |t|];
        assert k == |t| + 1 && u[k - 1] == BACKSLASH;
      }
    }
    if c == BACKSLASH {
      assert u[|t|] == BACKSLASH && u[|t| + 1] == BACKSLASH;
      assert Backslashes(u, |t| + 2) == 2 + Backslashes(u, |t|);
    } else {
      assert u[|u| - 1] == e[|e| - 1];
    }
  }

  lemma {:induction false} InsideAll(t: JsString, s: JsString)
    requires Inside(t)
    ensures Inside(t + Escape(s))
    decreases |s|
  {
    if |s| == 0 {
      assert t + Escape(s) == t;
    } else {
      var head, tail := EscapeUnit(s[0]), Escape(s[1..]);
      InsideOneMore(t, s[0]);
      InsideAll(t + head, s[1..]);
      AppendAssociates(t, head, tail);
    }
  }

  // A literal holds no raw line terminator; every quote inside it is behind an odd run of
  // backslashes, so it is escaped; and the closing quote is behind an even one, so it is
  // not: the literal ends there and nowhere before.
  lemma LiteralIsOneToken(s: JsString)
    ensures forall k :: 0 <= k < |QuotedString(s)| ==> !IsLineTerminator(QuotedString(s)[k])
    ensures forall k :: 0 < k < |QuotedString(s)| - 1 && QuotedString(s)[k] == QUOTE
              ==> Backslashes(QuotedString(s), k) % 2 == 1
    ensures |QuotedString(s)| >= 2 && Backslashes(QuotedString(s), |QuotedString(s)| - 1) % 2 == 0
  {
    PassesAreEscape(s);
    assert Backslashes([QUOTE], 1) == 0;
    InsideAll([QUOTE], s);
    var t, q := [QUOTE] + Escape(s), QuotedString(s);
    assert q == t + [QUOTE];
    forall k: nat | k <= |t| ensures Backslashes(q, k) == Backslashes(t, k) {
      BackslashesInPrefix(t, [QUOTE], k);
    }
    assert forall k :: 0 <= k < |t| ==> q[k] == t[k];
  }

  lemma EscapeFirst(c: CodeUnit, rest: JsString)
    ensures Escape([c] + rest) == EscapeUnit(c) + Escape(rest)
  {
    assert ([c] + rest)[1..] == rest;
  }

  lemma KnownSeparators()
    ensures Escape([0x2028, 0x2029, 97]) == [92, 117, 50, 48, 50, 56, 92, 117, 50, 48, 50, 57, 97]
  {
    EscapeFirst(97, []);
    EscapeFirst(0x2029, [97]);
    EscapeFirst(0x2028, [0x2029, 97]);
    assert [97] + [] == [97] && [0x2029] + [97] == [0x2029, 97];
    assert [0x2028] + [0x2029, 97] == [0x2028, 0x2029, 97];
  }

  lemma KnownTerminators(rest: JsString)
    ensures Escape([10, 13] + rest) == [92, 110, 92, 114] + Escape(rest)
  {
    EscapeFirst(13, rest);
    EscapeFirst(10, [13] + rest);
    assert [10] + ([13] + rest) == [10, 13] + rest;
    assert [92, 110] + ([92, 114] + Escape(rest)) == [92, 110, 92, 114] + Escape(rest);
  }

  lemma KnownEscapes(rest: JsString)
    ensures Escape([92, 34] + rest) == [92, 92, 92, 34] + Escape(rest)
  {
    EscapeFirst(34, rest);
    EscapeFirst(92, [34] + rest);
    assert [92] + ([34] + rest) == [92, 34] + rest;
    assert [92, 92] + ([92, 34] + Escape(rest)) == [92, 92, 92, 34] + Escape(rest);
  }

  // Backslash, quote, the four line terminators and a letter, code by code.
  lemma KnownLiteral()
    ensures QuotedString([92, 34, 10, 13, 0x2028, 0x2029, 97])
         == [34, 92, 92, 92, 34, 92, 110, 92, 114, 92, 117, 50, 48, 50, 56, 92, 117, 50, 48, 50, 57, 97, 34]
  {
    var s: JsString := [92, 34, 10, 13, 0x2028, 0x2029, 97];
    var separators: JsString := [0x2028, 0x2029, 97];
    assert s == [92, 34] + ([10, 13] + separators);
    PassesAreEscape(s);
    KnownEscapes([10, 13] + separators);
    KnownTerminators(separators);
    KnownSeparators();
  }
}
