/**
  Decimal and hexadecimal printing with their parsers, and splitting text at a delimiter.
  A `string` stands for the UTF-8 bytes of the source's text, one `char` a byte: a delimiter in
  ASCII never occurs inside the encoding of another character, so nothing here depends on more.
 */
module TextCodec {
  import opened Words
  import opened Wrappers

  function Digit(d: nat): (c: char)
    requires d < 10
    ensures IsDigit(c) && DigitValue(c) == d
  {
    ('0' as int + d) as char
  }

  predicate IsDigit(c: char) {
    '0' <= c <= '9'
  }

  function DigitValue(c: char): nat
    requires IsDigit(c)
  {
    c as int - '0' as int
  }

  predicate AllDigits(s: string) {
    forall i :: 0 <= i < |s| ==> IsDigit(s[i])
  }

  /** What `{}` prints for an unsigned integer. */
  function Decimal(n: nat): string {
    if n < 10 then [Digit(n)] else Decimal(n / 10) + [Digit(n % 10)]
  }

  function ParseDecimal(s: string): nat
    requires AllDigits(s)
  {
    if s == [] then 0 else 10 * ParseDecimal(s[..|s| - 1]) + DigitValue(s[|s| - 1])
  }

  /** Printing and parsing decimals are inverse, and the printed form is non-empty digits. */
  lemma {:induction false} DecimalRoundTrip(n: nat)
    ensures Decimal(n) != [] && AllDigits(Decimal(n))
    ensures ParseDecimal(Decimal(n)) == n
  {
    var s := Decimal(n);
    if n >= 10 {
      DecimalRoundTrip(n / 10);
      assert s[..|s| - 1] == Decimal(n / 10);
    } else {
      assert s[..|s| - 1] == [];
    }
  }

  /** Canonical decimals: digits parse to a number that prints back, unless padded with zeros. */
  lemma {:induction false} ParseThenPrint(s: string)
    requires Canonical(s)
    ensures Decimal(ParseDecimal(s)) == s
    ensures |s| > 1 ==> ParseDecimal(s) >= 10
  {
    var init, last := s[..|s| - 1], s[|s| - 1];
    if |s| > 1 {
      ParseThenPrint(init);
      if |init| == 1 { assert init[..0] == []; }
      assert (10 * ParseDecimal(init) + DigitValue(last)) / 10 == ParseDecimal(init);
      assert init + [last] == s;
      assert Digit(DigitValue(last)) == last;
    } else {
      assert init == [];
      assert s == [last];
    }
  }

  function HexDigit(d: nat): char
    requires d < 16
  {
    if d < 10 then ('0' as int + d) as char else ('a' as int + d - 10) as char
  }

  /** What `{:x}` prints for a digest: two lower-case hexadecimal digits a byte. */
  function Hex(bytes: seq<byte>): (s: string)
    ensures |s| == 2 * |bytes|
  {
    if bytes == [] then [] else [HexDigit(bytes[0] / 16), HexDigit(bytes[0] % 16)] + Hex(bytes[1..])
  }

  /** The value of a lower-case hexadecimal digit. */
  function HexValue(c: char): Option<nat> {
    if '0' <= c <= '9' then Some(c as int - '0' as int)
    else if 'a' <= c <= 'f' then Some(10 + (c as int - 'a' as int))
    else None
  }

  /** Reading bytes back, most significant digit first. */
  function ParseHex(s: string): Option<seq<byte>> {
    if s == "" then Some([])
    else if |s| == 1 then None
    else
      var high :- HexValue(s[0]);
      var low :- HexValue(s[1]);
      var rest :- ParseHex(s[2..]);
      Some([16 * high + low] + rest)
  }

  lemma HexDigitIff(c: char, d: nat)
    requires d < 16
    ensures HexValue(c) == Some(d) <==> c == HexDigit(d)
  {}

  lemma HexValueBelow16(c: char)
    requires HexValue(c).Some?
    ensures HexValue(c).value < 16
  {}

  lemma {:induction false} ParsedIsPrinted(s: string)
    requires ParseHex(s).Some?
    ensures Hex(ParseHex(s).value) == s
  {
    hide HexValue, HexDigit;
    if s != "" {
      var high, low, rest := HexValue(s[0]).value, HexValue(s[1]).value, ParseHex(s[2..]).value;
      HexValueBelow16(s[0]);
      HexValueBelow16(s[1]);
      HexDigitIff(s[0], high);
      HexDigitIff(s[1], low);
      ParsedIsPrinted(s[2..]);
      var bytes := ParseHex(s).value;
      assert bytes == [16 * high + low] + rest && bytes[1..] == rest;
      assert bytes[0] / 16 == high && bytes[0] % 16 == low;
      assert s == [s[0], s[1]] + s[2..];
    }
  }

  lemma {:induction false} PrintedParses(bytes: seq<byte>)
    ensures ParseHex(Hex(bytes)) == Some(bytes)
  {
    hide HexValue, HexDigit;
    if bytes != [] {
      var s := Hex(bytes);
      PrintedParses(bytes[1..]);
      HexDigitIff(s[0], bytes[0] / 16);
      HexDigitIff(s[1], bytes[0] % 16);
      assert s[2..] == Hex(bytes[1..]);
      assert [16 * (bytes[0] / 16) + bytes[0] % 16] + bytes[1..] == bytes;
    }
  }

  /** Reading hexadecimal back accepts exactly what printing produces. */
  lemma HexIff(s: string, bytes: seq<byte>)
    ensures ParseHex(s) == Some(bytes) <==> s == Hex(bytes)
  {
    PrintedParses(bytes);
    if ParseHex(s) == Some(bytes) { ParsedIsPrinted(s); }
  }

  /** Index of the first `c`, or the length if there is none. */
  function First(s: string, c: char): (i: nat)
    ensures i <= |s| && (i < |s| ==> s[i] == c)
    ensures forall j :: 0 <= j < i ==> s[j] != c
  {
    if s == [] || s[0] == c then 0
    else 1 + First(s[1..], c)
  }

  /** Index of the last `c`, or the length if there is none. */
  function Last(s: string, c: char): (i: nat)
    ensures i <= |s| && (i < |s| ==> s[i] == c)
    ensures forall j :: 0 <= j < |s| && (i < j || i == |s|) ==> s[j] != c
  {
    if s == [] then 0
    else if s[|s| - 1] == c then |s| - 1
    else
      var i := Last(s[..|s| - 1], c);
      if i < |s| - 1 then i else |s|
  }

  lemma FirstOfSplit(a: string, c: char, b: string)
    requires c !in a
    ensures First(a + [c] + b, c) == |a|
    ensures (a + [c] + b)[..|a|] == a && (a + [c] + b)[|a| + 1..] == b
  {
    hide First;
    var s := a + [c] + b;
    assert s[|a|] == c;
    assert forall j :: 0 <= j < |a| ==> s[j] == a[j];
  }

  lemma LastOfSplit(a: string, c: char, b: string)
    requires c !in b
    ensures Last(a + [c] + b, c) == |a|
    ensures (a + [c] + b)[..|a|] == a && (a + [c] + b)[|a| + 1..] == b
  {
    hide Last;
    var s := a + [c] + b;
    assert s[|a|] == c;
    assert s[..|a|] == a && s[|a| + 1..] == b;
    forall j | |a| < j < |s|
      ensures s[j] != c
    {
      assert s[j] == s[|a| + 1..][j - |a| - 1];
    }
  }

  /** `s` without the label it starts with. */
  function Strip(tag: string, s: string): Option<string> {
    if tag <= s then Some(s[|tag|..]) else None
  }

  lemma StripIff(tag: string, s: string, rest: string)
    ensures Strip(tag, s) == Some(rest) <==> s == tag + rest
  {}

  predicate Canonical(s: string) {
    s != [] && AllDigits(s) && (|s| == 1 || s[0] != '0')
  }

  /** The number a field prints, if it is printed the way `{}` prints one. */
  function Number(s: string): Option<nat> {
    if Canonical(s) then Some(ParseDecimal(s)) else None
  }

  /** Reading a number back accepts exactly what printing produces. */
  lemma NumberIffDecimal(s: string, n: nat)
    ensures Number(s) == Some(n) <==> s == Decimal(n)
  {
    DecimalRoundTrip(n);
    DecimalCanonical(n);
    if Canonical(s) { ParseThenPrint(s); }
  }

  lemma {:induction false} DecimalCanonical(n: nat)
    ensures Canonical(Decimal(n))
    ensures n > 0 ==> Decimal(n)[0] != '0'
  {
    DecimalRoundTrip(n);
    if n >= 10 { DecimalCanonical(n / 10); }
  }

  /** A labelled field up to the first `c`, and what follows it. */
  function TakeField(tag: string, c: char, s: string): Option<(string, string)> {
    var rest :- Strip(tag, s);
    var i := First(rest, c);
    if i < |rest| then Some((rest[..i], rest[i + 1..])) else None
  }

  /** A labelled field up to the last `c`, and what follows it. */
  function TakeWideField(tag: string, c: char, s: string): Option<(string, string)> {
    var rest :- Strip(tag, s);
    var i := Last(rest, c);
    if i < |rest| then Some((rest[..i], rest[i + 1..])) else None
  }

  lemma TakeFieldIff(tag: string, c: char, s: string, a: string, b: string)
    ensures TakeField(tag, c, s) == Some((a, b)) <==> s == tag + (a + [c] + b) && c !in a
  {
    if TakeField(tag, c, s) == Some((a, b)) {
      var rest := s[|tag|..];
      var i := First(rest, c);
      assert rest == rest[..i] + [c] + rest[i + 1..];
    }
    if s == tag + (a + [c] + b) && c !in a {
      StripIff(tag, s, a + [c] + b);
      FirstOfSplit(a, c, b);
    }
  }

  lemma TakeWideFieldIff(tag: string, c: char, s: string, a: string, b: string)
    ensures TakeWideField(tag, c, s) == Some((a, b)) <==> s == tag + (a + [c] + b) && c !in b
  {
    if TakeWideField(tag, c, s) == Some((a, b)) {
      var rest := s[|tag|..];
      var i := Last(rest, c);
      assert rest == rest[..i] + [c] + rest[i + 1..];
    }
    if s == tag + (a + [c] + b) && c !in b {
      StripIff(tag, s, a + [c] + b);
      LastOfSplit(a, c, b);
    }
  }

  /** Text printed field by field from the end reads the same from the start. */
  lemma JoinField(before: string, value: string, tag: string, rest: string)
    ensures before + (value + "|" + (tag + rest)) == before + value + ("|" + tag) + rest
  {}
}
