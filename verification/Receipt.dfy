// Pop receipts: "index:version:tag" in unpadded Base64, and the parser that reads them
// back.
module Division {
  lemma Quotient(n: nat, d: nat, x: nat, r: nat)
    requires d > 0 && n == x * d + r && r < d
    ensures n / d == x
  {
    var q := n / d;
    assert n == q * d + n % d;
    if q < x {
      Times(q + 1, x, d);
    } else if q > x {
      Times(x + 1, q, d);
    }
  }

  lemma Times(a: nat, b: nat, d: nat)
    requires a <= b
    ensures a * d <= b * d
  {
  }
}

module Base64 {
  import opened Wrappers
  import opened Division

  type Byte = b: int | 0 <= b < 256

  // The alphabet of section 4 of RFC 4648.
  function CharOf(d: int): char
    requires 0 <= d < 64
  {
    if d < 26 then 'A' + d as char
    else if d < 52 then 'a' + (d - 26) as char
    else if d < 62 then '0' + (d - 52) as char
    else if d == 62 then '+' else '/'
  }

  function DigitOf(c: char): Option<int> {
    if 'A' <= c <= 'Z' then Some(c as int - 'A' as int)
    else if 'a' <= c <= 'z' then Some(c as int - 'a' as int + 26)
    else if '0' <= c <= '9' then Some(c as int - '0' as int + 52)
    else if c == '+' then Some(62)
    else if c == '/' then Some(63)
    else None
  }

  predicate InAlphabet(c: char) { DigitOf(c).Some? }

  lemma DigitOfChar(d: int)
    requires 0 <= d < 64
    ensures DigitOf(CharOf(d)) == Some(d)
  {
  }

  // Encoder without padding, section 3.2 of RFC 4648.
  function Encode(bytes: seq<Byte>): string {
    if |bytes| == 0 then ""
    else if |bytes| == 1 then [CharOf(bytes[0] / 4), CharOf(bytes[0] % 4 * 16)]
    else if |bytes| == 2 then
      [CharOf(bytes[0] / 4), CharOf(bytes[0] % 4 * 16 + bytes[1] / 16), CharOf(bytes[1] % 16 * 4)]
    else
      [CharOf(bytes[0] / 4), CharOf(bytes[0] % 4 * 16 + bytes[1] / 16),
       CharOf(bytes[1] % 16 * 4 + bytes[2] / 64), CharOf(bytes[2] % 64)]
      + Encode(bytes[3..])
  }

  function Digit(c: char): int
    requires InAlphabet(c)
  {
    DigitOf(c).value
  }

  // The decoder takes a last group with or without its padding.
  function Decode(text: string): Option<seq<Byte>> {
    if |text| == 0 then Some([])
    else if |text| == 2 && InAlphabet(text[0]) && InAlphabet(text[1]) then
      Some([First(text[0], text[1])])
    else if |text| == 3 && InAlphabet(text[0]) && InAlphabet(text[1]) && InAlphabet(text[2]) then
      Some([First(text[0], text[1]), Second(text[1], text[2])])
    else if |text| == 4 && text[2..] == "==" then Decode(text[..2])
    else if |text| == 4 && text[3] == '=' then Decode(text[..3])
    else if |text| >= 4 && InAlphabet(text[0]) && InAlphabet(text[1]) && InAlphabet(text[2]) && InAlphabet(text[3]) then
      match Decode(text[4..])
      case None => None
      case Some(rest) =>
        Some([First(text[0], text[1]), Second(text[1], text[2]), Third(text[2], text[3])] + rest)
    else None
  }

  function First(a: char, b: char): Byte
    requires InAlphabet(a) && InAlphabet(b)
  {
    Digit(a) * 4 + Digit(b) / 16
  }

  function Second(b: char, c: char): Byte
    requires InAlphabet(b) && InAlphabet(c)
  {
    Digit(b) % 16 * 16 + Digit(c) / 4
  }

  function Third(c: char, d: char): Byte
    requires InAlphabet(c) && InAlphabet(d)
  {
    Digit(c) % 4 * 64 + Digit(d)
  }

  predicate AllInAlphabet(text: string) { forall k :: 0 <= k < |text| ==> InAlphabet(text[k]) }

  lemma OneByte(a: Byte)
    ensures Decode(Encode([a])) == Some([a]) && AllInAlphabet(Encode([a]))
  {
    DigitOfChar(a / 4);
    DigitOfChar(a % 4 * 16);
  }

  lemma TwoBytes(a: Byte, b: Byte)
    ensures Decode(Encode([a, b])) == Some([a, b]) && AllInAlphabet(Encode([a, b]))
  {
    DigitOfChar(a / 4);
    DigitOfChar(a % 4 * 16 + b / 16);
    DigitOfChar(b % 16 * 4);
  }

  // A full group of four characters for three bytes.
  function Group(a: Byte, b: Byte, c: Byte): string {
    [CharOf(a / 4), CharOf(a % 4 * 16 + b / 16), CharOf(b % 16 * 4 + c / 64), CharOf(c % 64)]
  }

  lemma ThreeBytes(a: Byte, b: Byte, c: Byte)
    ensures AllInAlphabet(Group(a, b, c))
    ensures var g := Group(a, b, c); First(g[0], g[1]) == a && Second(g[1], g[2]) == b && Third(g[2], g[3]) == c
  {
    DigitOfChar(a / 4);
    DigitOfChar(a % 4 * 16 + b / 16);
    DigitOfChar(b % 16 * 4 + c / 64);
    DigitOfChar(c % 64);
  }

  lemma DecodeGroup(a: Byte, b: Byte, c: Byte, rest: string)
    requires Decode(rest).Some?
    ensures Decode(Group(a, b, c) + rest) == Some([a, b, c] + Decode(rest).value)
  {
    ThreeBytes(a, b, c);
    var text := Group(a, b, c) + rest;
    assert text[4..] == rest;
    assert text[3] != '=';
    assert text[2..] != "==" by { assert text[2..][0] == text[2] && text[2] != '='; }
  }

  lemma RoundTripGroup(a: Byte, b: Byte, c: Byte, rest: seq<Byte>)
    requires Decode(Encode(rest)) == Some(rest) && AllInAlphabet(Encode(rest))
    ensures Decode(Encode([a, b, c] + rest)) == Some([a, b, c] + rest) && AllInAlphabet(Encode([a, b, c] + rest))
  {
    var bytes := [a, b, c] + rest;
    assert bytes[3..] == rest;
    assert Encode(bytes) == Group(a, b, c) + Encode(rest);
    ThreeBytes(a, b, c);
    DecodeGroup(a, b, c, Encode(rest));
  }

  // ---- the standard's reading: groups of 24 bits, cut into four digits of the alphabet ----

  // The ASCII codes of table 1 of RFC 4648.
  function CodeOf(d: int): int {
    if d < 26 then 65 + d else if d < 52 then 71 + d else if d < 62 then d - 4 else if d == 62 then 43 else 47
  }

  // Beyond the end there are zero bits.
  function ByteAt(bytes: seq<Byte>, i: nat): Byte { if i < |bytes| then bytes[i] else 0 }

  function GroupAt(bytes: seq<Byte>, g: nat): nat {
    ByteAt(bytes, 3 * g) * 0x10000 + ByteAt(bytes, 3 * g + 1) * 0x100 + ByteAt(bytes, 3 * g + 2)
  }

  // The j-th of the four digits of a group, highest first.
  function Sextet(n: nat, j: nat): nat {
    if j == 0 then n / 0x40000 % 64
    else if j == 1 then n / 0x1000 % 64
    else if j == 2 then n / 0x40 % 64
    else n % 64
  }

  lemma CharOfIs(d: int)
    requires 0 <= d < 64
    ensures CharOf(d) as int == CodeOf(d)
  {
  }

  // Cutting a number at a digit.
  lemma Cut(n: nat, d: nat, high: nat, low: nat)
    requires d > 0 && n == high * d + low && low < d
    ensures n / d == high && n % d == low
  {
    Quotient(n, d, high, low);
  }

  lemma GroupDigits(a: Byte, b: Byte, c: Byte)
    ensures var n := a * 0x10000 + b * 0x100 + c;
      && Sextet(n, 0) == a / 4 && Sextet(n, 1) == a % 4 * 16 + b / 16
      && Sextet(n, 2) == b % 16 * 4 + c / 64 && Sextet(n, 3) == c % 64
  {
    var n: nat := a * 0x10000 + b * 0x100 + c;
    Cut(n, 0x40000, a / 4, a % 4 * 0x10000 + b * 0x100 + c);
    Cut(n, 0x1000, a * 16 + b / 16, b % 16 * 0x100 + c);
    Cut(n, 0x40, a * 0x400 + b * 4 + c / 64, c % 64);
    Cut(a * 16 + b / 16, 64, a / 4, a % 4 * 16 + b / 16);
    Cut(a * 0x400 + b * 4 + c / 64, 64, a * 16 + b / 16, b % 16 * 4 + c / 64);
  }

  // Every character of an encoding is the digit of its 6 bits, and there are as many as
  // the bytes need.
  lemma {:induction false} EncodedAt(bytes: seq<Byte>, m: nat)
    ensures |Encode(bytes)| == (4 * |bytes| + 2) / 3
    ensures m < |Encode(bytes)| ==> Encode(bytes)[m] as int == CodeOf(Sextet(GroupAt(bytes, m / 4), m % 4))
  {
    if |bytes| > 2 {
      EncodedAt(bytes[3..], if m >= 4 then m - 4 else 0);
      if m >= 4 { assert GroupAt(bytes, m / 4) == GroupAt(bytes[3..], (m - 4) / 4); }
    }
    if m < |Encode(bytes)| && m < 4 { FirstGroupAt(bytes, m); }
  }

  lemma {:induction false} FirstGroupAt(bytes: seq<Byte>, m: nat)
    requires m < 4 && m < |Encode(bytes)|
    ensures Encode(bytes)[m] as int == CodeOf(Sextet(GroupAt(bytes, 0), m))
  {
    var a, b, c := ByteAt(bytes, 0), ByteAt(bytes, 1), ByteAt(bytes, 2);
    GroupDigits(a, b, c);
    CharOfIs(a / 4);
    CharOfIs(a % 4 * 16 + b / 16);
    CharOfIs(b % 16 * 4 + c / 64);
    CharOfIs(c % 64);
  }

  // Decoding what was encoded returns the bytes, and the encoding stays in the alphabet.
  lemma {:induction false} RoundTrip(bytes: seq<Byte>)
    ensures Decode(Encode(bytes)) == Some(bytes) && AllInAlphabet(Encode(bytes))
  {
    if |bytes| == 1 {
      OneByte(bytes[0]);
      assert bytes == [bytes[0]];
    } else if |bytes| == 2 {
      TwoBytes(bytes[0], bytes[1]);
      assert bytes == [bytes[0], bytes[1]];
    } else if |bytes| > 2 {
      RoundTrip(bytes[3..]);
      assert bytes == [bytes[0], bytes[1], bytes[2]] + bytes[3..];
      RoundTripGroup(bytes[0], bytes[1], bytes[2], bytes[3..]);
    }
  }
}

module Decimal {
  import opened Wrappers
  import opened Division

  function DigitChar(d: int): char
    requires 0 <= d < 10
  {
    '0' + d as char
  }

  function PrintNat(n: nat): string {
    if n < 10 then [DigitChar(n)] else PrintNat(n / 10) + [DigitChar(n % 10)]
  }

  // Long.toString and Integer.toString
  function Print(n: int): string {
    if n < 0 then "-" + PrintNat(-n) else PrintNat(n)
  }

  function ParseNat(text: string): Option<int> {
    if |text| == 0 || !('0' <= text[|text| - 1] <= '9') then None
    else var last := text[|text| - 1] as int - '0' as int;
         if |text| == 1 then Some(last)
         else match ParseNat(text[..|text| - 1])
              case None => None
              case Some(high) => Some(high * 10 + last)
  }

  // Long.parseLong and Integer.parseInt: a sign is allowed, a value out of range is not.
  function Parse(text: string, min: int, max: int): Option<int> {
    var sign := |text| > 0 && (text[0] == '-' || text[0] == '+');
    match ParseNat(if sign then text[1..] else text)
    case None => None
    case Some(n) =>
      var value := if sign && text[0] == '-' then -n else n;
      if min <= value <= max then Some(value) else None
  }

  predicate Digits(text: string) { forall k :: 0 <= k < |text| ==> '0' <= text[k] <= '9' }

  lemma {:induction false} ParsePrintNat(n: nat)
    ensures ParseNat(PrintNat(n)) == Some(n)
    ensures Digits(PrintNat(n)) && |PrintNat(n)| >= 1
  {
    if n >= 10 {
      ParsePrintNat(n / 10);
      assert PrintNat(n)[..|PrintNat(n)| - 1] == PrintNat(n / 10);
    }
  }

  function Pow10(k: nat): nat { if k == 0 then 1 else 10 * Pow10(k - 1) }

  lemma Pow10Positive(k: nat)
    ensures Pow10(k) > 0
  {
  }

  lemma DropLastDigit(n: nat, k: nat)
    requires k > 0
    ensures Pow10(k) > 0 && Pow10(k - 1) > 0 && n / 10 / Pow10(k - 1) == n / Pow10(k)
  {
    Pow10Positive(k - 1);
    TenTimes(n, Pow10(k - 1));
  }

  lemma TenTimes(n: nat, d: nat)
    requires d > 0
    ensures n / 10 / d == n / (10 * d)
  {
    var q := n / 10;
    var x, r := q / d, q % d;
    Split(q, d);
    Regroup(x, d);
    Quotient(n, 10 * d, x, 10 * r + n % 10);
  }

  lemma Split(q: nat, d: nat)
    requires d > 0
    ensures q == q / d * d + q % d && q % d < d
  {
  }

  lemma Regroup(x: nat, d: nat)
    ensures x * (10 * d) == 10 * (x * d)
  {
  }

  lemma LastDigit(n: nat)
    requires n >= 10
    ensures var t := PrintNat(n);
      |t| > 1 && t[..|t| - 1] == PrintNat(n / 10) && t[|t| - 1] as int - '0' as int == n % 10
  {
    ParsePrintNat(n / 10);
  }

  // The k-th digit from the end is that of 10 to the k.
  lemma {:induction false} PrintedDigit(n: nat, k: nat)
    ensures Pow10(k) > 0
    ensures k < |PrintNat(n)| ==> PrintNat(n)[|PrintNat(n)| - 1 - k] as int - '0' as int == n / Pow10(k) % 10
    decreases n
  {
    Pow10Positive(k);
    var t := PrintNat(n);
    if n >= 10 {
      LastDigit(n);
      if k > 0 {
        PrintedDigit(n / 10, k - 1);
        DropLastDigit(n, k);
        if k < |t| { assert t[|t| - 1 - k] == PrintNat(n / 10)[|t| - 1 - k]; }
      }
    }
  }

  // No leading zero.
  lemma {:induction false} FirstDigit(n: nat)
    ensures |PrintNat(n)| > 0 && (PrintNat(n)[0] == '0' <==> n == 0)
  {
    if n >= 10 {
      FirstDigit(n / 10);
      LastDigit(n);
      assert PrintNat(n)[0] == PrintNat(n / 10)[0];
    }
  }

  lemma ParsePrint(n: int, min: int, max: int)
    requires min <= n <= max
    ensures Parse(Print(n), min, max) == Some(n)
    ensures |Print(n)| >= 1 && ':' !in Print(n)
  {
    ParsePrintNat(if n < 0 then -n else n);
    if n < 0 {
      assert Print(n)[1..] == PrintNat(-n);
    }
  }

  // A number out of range does not parse.
  lemma ParsePrintIff(n: int, min: int, max: int)
    ensures Parse(Print(n), min, max).Some? <==> min <= n <= max
    ensures |Print(n)| >= 1 && ':' !in Print(n)
  {
    ParsePrint(n, n, n);
    ParsePrintNat(if n < 0 then -n else n);
    if n < 0 { assert Print(n)[1..] == PrintNat(-n); }
  }
}

module PopReceipt {
  import opened Wrappers
  import opened Base64
  import Decimal

  const LONG_MIN: int := -0x8000_0000_0000_0000
  const LONG_MAX: int := 0x7fff_ffff_ffff_ffff
  const INT_MIN: int := -0x8000_0000
  const INT_MAX: int := 0x7fff_ffff

  type Long = n: int | LONG_MIN <= n <= LONG_MAX
  type Int = n: int | INT_MIN <= n <= INT_MAX

  // messageIndex, messageVersion and messageTag; the tag may be null.
  datatype Receipt = Receipt(index: Long, version: Int, tag: Option<string>)

  // The platform's charset, as String.getBytes and new String use it.
  datatype Charset = Charset(encode: string -> seq<Byte>, decode: seq<Byte> -> string)

  function Text(r: Receipt): string {
    Decimal.Print(r.index) + ":" + Decimal.Print(r.version) + ":"
    + match r.tag case None => "null" case Some(tag) => tag
  }

  function Print(cs: Charset, r: Receipt): string {
    Base64.Encode(cs.encode(Text(r)))
  }

  // ---- String.split(":"): pieces between colons, trailing empty pieces dropped ----

  function Pieces(text: string): seq<string> {
    if |text| == 0 then [""]
    else var rest := Pieces(text[1..]);
         if text[0] == ':' then [""] + rest
         else [[text[0]] + rest[0]] + rest[1..]
  }

  function DropTrailingEmpty(pieces: seq<string>): seq<string> {
    if |pieces| > 0 && pieces[|pieces| - 1] == "" then DropTrailingEmpty(pieces[..|pieces| - 1]) else pieces
  }

  function Split(text: string): seq<string> {
    if ':' in text then DropTrailingEmpty(Pieces(text)) else [text]
  }

  // ---- StringUtils.trimToEmpty: characters up to the space are dropped at both ends ----

  function TrimStart(s: string): string {
    if |s| > 0 && s[0] <= ' ' then TrimStart(s[1..]) else s
  }

  function TrimEnd(s: string): string {
    if |s| > 0 && s[|s| - 1] <= ' ' then TrimEnd(s[..|s| - 1]) else s
  }

  function Trim(s: string): string { TrimEnd(TrimStart(s)) }

  predicate Trimmed(s: string) { |s| == 0 || (s[0] > ' ' && s[|s| - 1] > ' ') }

  // parsePopReceipt; None is the exception of a malformed receipt.
  function ParseText(text: string): Option<Receipt> {
    var components := Split(text);
    if |components| < 3 then None
    else match (Decimal.Parse(components[0], LONG_MIN, LONG_MAX), Decimal.Parse(components[1], INT_MIN, INT_MAX))
         case (Some(index), Some(version)) => Some(Receipt(index, version, Some(Trim(components[2]))))
         case (_, _) => None
  }

  function Parse(cs: Charset, printed: string): Option<Receipt> {
    match Base64.Decode(printed)
    case None => None
    case Some(bytes) => ParseText(cs.decode(bytes))
  }

  // ---- splitting what was joined ----

  lemma {:induction false} PiecesNonEmpty(text: string)
    ensures |Pieces(text)| >= 1
  {
    if |text| > 0 { PiecesNonEmpty(text[1..]); }
  }

  lemma {:induction false} PiecesOfJoin(a: string, b: string)
    requires ':' !in a
    ensures Pieces(a + ":" + b) == [a] + Pieces(b)
  {
    var text := a + ":" + b;
    if |a| == 0 {
      assert text[1..] == b;
    } else {
      PiecesOfJoin(a[1..], b);
      assert text[1..] == a[1..] + ":" + b;
      assert [a[0]] + a[1..] == a;
    }
  }

  // The first piece of a tag: everything up to its first colon.
  function Head(tag: string): string { PiecesNonEmpty(tag); Pieces(tag)[0] }

  lemma {:induction false} HeadIsPrefix(tag: string)
    ensures |Head(tag)| <= |tag| && ':' !in Head(tag) && (|Head(tag)| == |tag| ==> Head(tag) == tag)
    ensures Head(tag) == tag <==> ':' !in tag
  {
    if |tag| > 0 {
      HeadIsPrefix(tag[1..]);
      PiecesNonEmpty(tag[1..]);
      if tag[0] != ':' {
        assert Head(tag) == [tag[0]] + Head(tag[1..]);
        assert tag == [tag[0]] + tag[1..];
        if Head(tag) == tag { assert Head(tag[1..]) == tag[1..]; }
      }
    }
  }

  // Dropping trailing empty pieces keeps at least everything up to a non-empty one.
  lemma {:induction false} DropKeeps(pieces: seq<string>, n: nat)
    requires n < |pieces| && pieces[n] != ""
    ensures |DropTrailingEmpty(pieces)| > n
    decreases |pieces|
  {
    if pieces[|pieces| - 1] == "" { DropKeeps(pieces[..|pieces| - 1], n); }
  }

  lemma {:induction false} DropIsPrefix(pieces: seq<string>)
    ensures |DropTrailingEmpty(pieces)| <= |pieces|
    ensures DropTrailingEmpty(pieces) == pieces[..|DropTrailingEmpty(pieces)|]
    decreases |pieces|
  {
    if |pieces| > 0 && pieces[|pieces| - 1] == "" { DropIsPrefix(pieces[..|pieces| - 1]); }
  }

  // ---- trimming ----

  lemma {:induction false} TrimStartLength(s: string)
    ensures |TrimStart(s)| <= |s| && (|TrimStart(s)| == |s| ==> TrimStart(s) == s)
    ensures (TrimStart(s) == s <==> |s| == 0 || s[0] > ' ')
  {
    if |s| > 0 && s[0] <= ' ' { TrimStartLength(s[1..]); }
  }

  lemma {:induction false} TrimEndLength(s: string)
    ensures |TrimEnd(s)| <= |s| && (|TrimEnd(s)| == |s| ==> TrimEnd(s) == s)
    ensures (TrimEnd(s) == s <==> |s| == 0 || s[|s| - 1] > ' ')
  {
    if |s| > 0 && s[|s| - 1] <= ' ' { TrimEndLength(s[..|s| - 1]); }
  }

  lemma TrimIsIdentity(s: string)
    ensures |Trim(s)| <= |s|
    ensures Trim(s) == s <==> Trimmed(s)
  {
    TrimStartLength(s);
    TrimEndLength(TrimStart(s));
  }

  // ---- the round trip ----

  // What a tag must look like to survive the text form.
  predicate Plain(tag: Option<string>) {
    tag.Some? && |tag.value| > 0 && ':' !in tag.value && Trimmed(tag.value)
  }

  lemma PiecesOfText(r: Receipt, tag: string)
    requires tag == match r.tag case None => "null" case Some(t) => t
    ensures Pieces(Text(r)) == [Decimal.Print(r.index), Decimal.Print(r.version)] + Pieces(tag)
  {
    var a, b := Decimal.Print(r.index), Decimal.Print(r.version);
    Decimal.ParsePrint(r.index, LONG_MIN, LONG_MAX);
    Decimal.ParsePrint(r.version, INT_MIN, INT_MAX);
    assert Text(r) == a + ":" + (b + ":" + tag);
    PiecesOfJoin(a, b + ":" + tag);
    PiecesOfJoin(b, tag);
    assert [a] + ([b] + Pieces(tag)) == [a, b] + Pieces(tag);
  }

  // What the parser makes of any printed receipt: the tag up to its first colon, trimmed;
  // a tag with nothing after its colons before it loses the component altogether.
  lemma ParseOfText(r: Receipt)
    ensures var tag := match r.tag case None => "null" case Some(t) => t;
      && (|Head(tag)| > 0 ==> ParseText(Text(r)) == Some(Receipt(r.index, r.version, Some(Trim(Head(tag))))))
      && (ParseText(Text(r)).Some? ==> ParseText(Text(r)).value.tag == Some(Trim(Head(tag))))
  {
    var tag := match r.tag case None => "null" case Some(t) => t;
    Decimal.ParsePrint(r.index, LONG_MIN, LONG_MAX);
    Decimal.ParsePrint(r.version, INT_MIN, INT_MAX);
    PiecesOfText(r, tag);
    PiecesNonEmpty(tag);
    var text := Text(r);
    var pieces := Pieces(text);
    assert text[|Decimal.Print(r.index)|] == ':';
    DropIsPrefix(pieces);
    if |Head(tag)| > 0 { DropKeeps(pieces, 2); }
  }

  lemma TagSurvives(tag: string)
    ensures Trim(Head(tag)) == tag <==> ':' !in tag && Trimmed(tag)
  {
    HeadIsPrefix(tag);
    TrimIsIdentity(Head(tag));
  }

  lemma PlainSurvives(r: Receipt)
    requires Plain(r.tag)
    ensures ParseText(Text(r)) == Some(r)
  {
    ParseOfText(r);
    TagSurvives(r.tag.value);
    HeadIsPrefix(r.tag.value);
  }

  lemma OnlyPlainSurvives(r: Receipt)
    requires ParseText(Text(r)) == Some(r)
    ensures Plain(r.tag)
  {
    ParseOfText(r);
    assert r.tag.Some?;
    TagSurvives(r.tag.value);
    if r.tag == Some("") { EmptyTagIsMalformed(r); }
  }

  // The text form round trips exactly the receipts whose tag is present, non-empty,
  // trimmed and free of colons.
  lemma TextRoundTrip(r: Receipt)
    ensures ParseText(Text(r)) == Some(r) <==> Plain(r.tag)
  {
    if Plain(r.tag) {
      PlainSurvives(r);
    } else if ParseText(Text(r)) == Some(r) {
      OnlyPlainSurvives(r);
    }
  }

  lemma EmptyTagIsMalformed(r: Receipt)
    requires r.tag == Some("")
    ensures ParseText(Text(r)) == None
  {
    var a, b := Decimal.Print(r.index), Decimal.Print(r.version);
    Decimal.ParsePrint(r.index, LONG_MIN, LONG_MAX);
    Decimal.ParsePrint(r.version, INT_MIN, INT_MAX);
    var text := Text(r);
    assert text == a + ":" + (b + ":" + "");
    PiecesOfJoin(a, b + ":" + "");
    PiecesOfJoin(b, "");
    assert Pieces(text) == [a, b, ""];
    assert [a, b, ""][..2] == [a, b];
    assert DropTrailingEmpty([a, b, ""]) == DropTrailingEmpty([a, b]);
  }

  // The printed receipt, through the charset and Base64.
  lemma RoundTrip(cs: Charset, r: Receipt)
    requires cs.decode(cs.encode(Text(r))) == Text(r)
    ensures Parse(cs, Print(cs, r)) == Some(r) <==> Plain(r.tag)
  {
    Base64.RoundTrip(cs.encode(Text(r)));
    TextRoundTrip(r);
  }

  // Hence printing is injective on those receipts.
  lemma PrintIsInjective(cs: Charset, r: Receipt, q: Receipt)
    requires cs.decode(cs.encode(Text(r))) == Text(r) && cs.decode(cs.encode(Text(q))) == Text(q)
    requires Plain(r.tag) && Plain(q.tag) && Print(cs, r) == Print(cs, q)
    ensures r == q
  {
    RoundTrip(cs, r);
    RoundTrip(cs, q);
  }

  // MessageTag.random: four bytes in unpadded Base64.
  function RandomTag(bytes: seq<Byte>): string
    requires |bytes| == 4
  {
    Trim(Base64.Encode(bytes))
  }

  // Every tag putMessage draws survives the receipt.
  lemma RandomTagIsPlain(bytes: seq<Byte>)
    requires |bytes| == 4
    ensures Plain(Some(RandomTag(bytes))) && |RandomTag(bytes)| == 6
  {
    Base64.RoundTrip(bytes);
    var tag := Base64.Encode(bytes);
    assert |Base64.Encode(bytes[3..])| == 2;
    TrimIsIdentity(tag);
    assert InAlphabet(tag[0]) && InAlphabet(tag[|tag| - 1]);
    assert forall k :: 0 <= k < |tag| ==> InAlphabet(tag[k]) && tag[k] != ':';
  }

  // The text parses exactly if the index fits into 64 bits and the version into 32.
  lemma ParsesIffInRange(index: int, version: int)
    ensures ParseText(Decimal.Print(index) + ":" + Decimal.Print(version) + ":abc").Some?
       <==> -9223372036854775808 <= index <= 9223372036854775807 && -2147483648 <= version <= 2147483647
  {
    var a, b := Decimal.Print(index), Decimal.Print(version);
    var text := a + ":" + b + ":abc";
    Decimal.ParsePrintIff(index, LONG_MIN, LONG_MAX);
    Decimal.ParsePrintIff(version, INT_MIN, INT_MAX);
    assert text == a + ":" + (b + ":" + "abc");
    PiecesOfJoin(a, b + ":" + "abc");
    PiecesOfJoin(b, "abc");
    assert ':' !in "abc";
    PiecesOfPlain("abc");
    assert Pieces(text) == [a, b, "abc"];
    assert text[|a|] == ':';
    assert Split(text) == [a, b, "abc"];
  }

  lemma {:induction false} PiecesOfPlain(text: string)
    requires ':' !in text
    ensures Pieces(text) == [text]
  {
    if |text| > 0 {
      PiecesOfPlain(text[1..]);
      assert [text[0]] + text[1..] == text;
    }
  }

  // ---- a known receipt ----

  ghost predicate Ascii(cs: Charset) {
    forall text: string ::
      |cs.encode(text)| == |text|
      && forall k :: 0 <= k < |text| && text[k] < '\U{0080}' ==> cs.encode(text)[k] == text[k] as int
  }

  lemma KnownText()
    ensures Text(Receipt(12, 3, Some("abc"))) == "12:3:abc"
  {
    assert Decimal.PrintNat(1) == "1" && Decimal.Print(12) == "12" && Decimal.Print(3) == "3";
  }

  lemma KnownBytes()
    ensures Base64.Encode([49, 50, 58, 51, 58, 97, 98, 99]) == "MTI6MzphYmM"
  {
    var bytes: seq<Byte> := [49, 50, 58, 51, 58, 97, 98, 99];
    assert bytes[3..] == [51, 58, 97, 98, 99] && bytes[3..][3..] == [98, 99];
    assert Base64.Encode([98, 99]) == "YmM";
    assert Base64.Encode([51, 58, 97, 98, 99]) == "Mzph" + "YmM";
  }

  // Index 12, version 3 and tag "abc" print as the Base64 of "12:3:abc".
  lemma KnownReceipt(cs: Charset)
    requires Ascii(cs)
    ensures Text(Receipt(12, 3, Some("abc"))) == "12:3:abc"
    ensures Print(cs, Receipt(12, 3, Some("abc"))) == "MTI6MzphYmM"
  {
    KnownText();
    KnownBytes();
    KnownCodes(cs);
  }

  lemma KnownCodes(cs: Charset)
    requires Ascii(cs)
    ensures cs.encode("12:3:abc") == [49, 50, 58, 51, 58, 97, 98, 99]
  {
    var text := "12:3:abc";
    assert text[0] == '1' && text[1] == '2' && text[2] == ':' && text[3] == '3';
  }
}
