/** `str::trim`: text without the Unicode white space around it. Here a `char` is one Unicode scalar value. */
module Trimming {

  /** The property White_Space of the Unicode standard. */
  predicate IsWhiteSpace(c: char) {
    var n := c as int;
    || 0x9 <= n <= 0xD || n == 0x20 || n == 0x85 || n == 0xA0 || n == 0x1680
    || 0x2000 <= n <= 0x200A || n == 0x2028 || n == 0x2029 || n == 0x202F || n == 0x205F || n == 0x3000
  }

  /** The 25 code points one by one. */
  lemma WhiteSpaceListed(c: char)
    ensures IsWhiteSpace(c) <==>
            c as int in {0x9, 0xA, 0xB, 0xC, 0xD, 0x20, 0x85, 0xA0, 0x1680,
                         0x2000, 0x2001, 0x2002, 0x2003, 0x2004, 0x2005, 0x2006, 0x2007, 0x2008, 0x2009, 0x200A,
                         0x2028, 0x2029, 0x202F, 0x205F, 0x3000}
  {}

  predicate AllWhiteSpace(s: string) {
    forall i :: 0 <= i < |s| ==> IsWhiteSpace(s[i])
  }

  function TrimStart(s: string): string {
    if s != "" && IsWhiteSpace(s[0]) then TrimStart(s[1..]) else s
  }

  function TrimEnd(s: string): string {
    if s != "" && IsWhiteSpace(s[|s| - 1]) then TrimEnd(s[..|s| - 1]) else s
  }

  function Trim(s: string): string {
    TrimEnd(TrimStart(s))
  }

  /** Neither end of the text is white space. */
  predicate Trimmed(s: string) {
    s == "" || (!IsWhiteSpace(s[0]) && !IsWhiteSpace(s[|s| - 1]))
  }

  lemma {:induction false} TrimStartDrops(before: string, rest: string)
    requires AllWhiteSpace(before) && (rest == "" || !IsWhiteSpace(rest[0]))
    ensures TrimStart(before + rest) == rest
  {
    hide IsWhiteSpace;
    if before == "" {
      assert before + rest == rest;
    } else {
      assert (before + rest)[1..] == before[1..] + rest;
      TrimStartDrops(before[1..], rest);
    }
  }

  lemma {:induction false} TrimEndDrops(rest: string, after: string)
    requires AllWhiteSpace(after) && (rest == "" || !IsWhiteSpace(rest[|rest| - 1]))
    ensures TrimEnd(rest + after) == rest
  {
    hide IsWhiteSpace;
    if after == "" {
      assert rest + after == rest;
    } else {
      var n := |after| - 1;
      assert (rest + after)[..|rest + after| - 1] == rest + after[..n];
      TrimEndDrops(rest, after[..n]);
    }
  }

  /** Trimming leaves the one part of the text that is trimmed and has only white space around it. */
  lemma TrimIs(before: string, text: string, after: string)
    requires AllWhiteSpace(before) && AllWhiteSpace(after) && Trimmed(text)
    ensures Trim(before + text + after) == text
  {
    hide TrimStart, TrimEnd, IsWhiteSpace;
    if text == "" {
      TrimStartDrops(before + after, "");
      assert before + text + after == (before + after) + "";
      TrimEndDrops("", "");
      assert "" + "" == "";
    } else {
      TrimStartDrops(before, text + after);
      assert before + text + after == before + (text + after);
      TrimEndDrops(text, after);
    }
  }

  lemma {:induction false} TrimStartSplits(s: string) returns (before: string)
    ensures s == before + TrimStart(s) && AllWhiteSpace(before)
    ensures TrimStart(s) != "" ==> !IsWhiteSpace(TrimStart(s)[0])
  {
    hide IsWhiteSpace;
    before := "";
    if s != "" && IsWhiteSpace(s[0]) {
      var rest := TrimStartSplits(s[1..]);
      before := [s[0]] + rest;
      assert s == [s[0]] + s[1..];
    }
  }

  lemma {:induction false} TrimEndSplits(s: string) returns (after: string)
    ensures s == TrimEnd(s) + after && AllWhiteSpace(after)
    ensures TrimEnd(s) != "" ==> !IsWhiteSpace(TrimEnd(s)[|TrimEnd(s)| - 1])
  {
    hide IsWhiteSpace;
    after := "";
    if s != "" && IsWhiteSpace(s[|s| - 1]) {
      var rest := TrimEndSplits(s[..|s| - 1]);
      after := rest + [s[|s| - 1]];
      assert s == s[..|s| - 1] + [s[|s| - 1]];
    }
  }

  /** Every text has such a part. */
  lemma TrimSplits(s: string) returns (before: string, after: string)
    ensures s == before + Trim(s) + after
    ensures AllWhiteSpace(before) && AllWhiteSpace(after) && Trimmed(Trim(s))
  {
    hide IsWhiteSpace, AllWhiteSpace, TrimStart, TrimEnd;
    before := TrimStartSplits(s);
    var t := TrimStart(s);
    after := TrimEndSplits(t);
    var r := TrimEnd(t);
    if r != "" { assert r[0] == t[0]; }
  }
}
