/** The gateway's execution log entry, and the decoder that shows it can be read back uniquely. */
module ExecutionLog {
  import opened Words
  import opened Wrappers
  import opened TextCodec

  type Digest = d: seq<byte> | |d| == 32 witness seq(32, _ => 0)

  datatype ExecutionRecord = ExecutionRecord(frameId: nat, model: string, action: string, tokens: nat)

  const FRAME: string := "FRAME:"
  const MODEL: string := "MODEL:"
  const ACTION: string := "ACTION:"
  const TOKENS: string := "TOKENS:"

  // The entry's text, from each field to the end.

  function FromTokens(r: ExecutionRecord): string {
    TOKENS + Decimal(r.tokens)
  }

  function FromAction(r: ExecutionRecord): string {
    ACTION + (r.action + "|" + FromTokens(r))
  }

  function FromModel(r: ExecutionRecord): string {
    MODEL + (r.model + "|" + FromAction(r))
  }

  function Body(r: ExecutionRecord): string {
    FRAME + (Decimal(r.frameId) + "|" + FromModel(r))
  }

  function HashField(hash: Digest): (s: string)
    ensures |s| == 70
  {
    "|HASH:" + Hex(hash)
  }

  /** `generate_execution_log`; `sha256` may be any function to 32 bytes. */
  function GenerateExecutionLog(r: ExecutionRecord, sha256: string -> Digest): string {
    Body(r) + HashField(sha256(Body(r)))
  }

  // ---- The decoder (specification) ---------------------------------------------------------

  function DecodeBody(s: string): Option<ExecutionRecord> {
    var (frame, rest1) :- TakeField(FRAME, '|', s);
    var (model, rest2) :- TakeField(MODEL, '|', rest1);
    var (action, rest3) :- TakeWideField(ACTION, '|', rest2);
    var tokens :- Strip(TOKENS, rest3);
    var frameId :- Number(frame);
    var count :- Number(tokens);
    Some(ExecutionRecord(frameId, model, action, count))
  }

  /** The digest a hash field spells out. */
  function ReadHash(s: string): Option<seq<byte>> {
    var digits :- Strip("|HASH:", s);
    ParseHex(digits)
  }

  /** Accepts an entry only if its last field spells the digest of everything before it. */
  function Decode(s: string, sha256: string -> Digest): Option<ExecutionRecord> {
    if |s| < 70 then None
    else
      var body := s[..|s| - 70];
      if ReadHash(s[|s| - 70..]) == Some(sha256(body)) then DecodeBody(body) else None
  }

  lemma HashFieldIff(s: string, hash: Digest)
    ensures ReadHash(s) == Some(hash) <==> s == HashField(hash)
  {
    hide Hex, ParseHex;
    if s == HashField(hash) {
      StripIff("|HASH:", s, Hex(hash));
      HexIff(Hex(hash), hash);
    } else if ReadHash(s) == Some(hash) {
      var digits := Strip("|HASH:", s).value;
      StripIff("|HASH:", s, digits);
      HexIff(digits, hash);
    }
  }

  /** The printed digits determine the digest. */
  lemma HashFieldInjective(h1: Digest, h2: Digest)
    requires HashField(h1) == HashField(h2)
    ensures h1 == h2
  {
    HashFieldIff(HashField(h1), h1);
    HashFieldIff(HashField(h1), h2);
  }

  lemma NoBarInTokens(tokens: string)
    requires AllDigits(tokens)
    ensures '|' !in TOKENS + tokens
  {}

  lemma PrintedBodyDecodes(r: ExecutionRecord)
    requires '|' !in r.model
    ensures DecodeBody(Body(r)) == Some(r)
  {
    var frame, tokens := Decimal(r.frameId), Decimal(r.tokens);
    DecimalRoundTrip(r.frameId);
    DecimalRoundTrip(r.tokens);
    NoBarInTokens(tokens);
    TakeFieldIff(FRAME, '|', Body(r), frame, FromModel(r));
    TakeFieldIff(MODEL, '|', FromModel(r), r.model, FromAction(r));
    TakeWideFieldIff(ACTION, '|', FromAction(r), r.action, FromTokens(r));
    StripIff(TOKENS, FromTokens(r), tokens);
    NumberIffDecimal(frame, r.frameId);
    NumberIffDecimal(tokens, r.tokens);
  }

  lemma DecodedTailPrints(rest2: string, action: string, rest3: string, r: ExecutionRecord)
    requires TakeWideField(ACTION, '|', rest2) == Some((action, rest3))
    requires Strip(TOKENS, rest3).Some? && Number(Strip(TOKENS, rest3).value) == Some(r.tokens)
    requires action == r.action
    ensures rest2 == FromAction(r)
  {
    TakeWideFieldIff(ACTION, '|', rest2, action, rest3);
    StripIff(TOKENS, rest3, Strip(TOKENS, rest3).value);
    NumberIffDecimal(Strip(TOKENS, rest3).value, r.tokens);
  }

  lemma DecodedBodyPrints(s: string, r: ExecutionRecord)
    requires DecodeBody(s) == Some(r)
    ensures s == Body(r) && '|' !in r.model
  {
    var (frame, rest1) := TakeField(FRAME, '|', s).value;
    var (model, rest2) := TakeField(MODEL, '|', rest1).value;
    var (action, rest3) := TakeWideField(ACTION, '|', rest2).value;
    DecodedTailPrints(rest2, action, rest3, r);
    TakeFieldIff(FRAME, '|', s, frame, rest1);
    TakeFieldIff(MODEL, '|', rest1, model, rest2);
    NumberIffDecimal(frame, r.frameId);
  }

  lemma SplitHash(body: string, hash: string)
    requires |hash| == 70
    ensures var s := body + hash; s[..|s| - 70] == body && s[|s| - 70..] == hash
  {}

  lemma DecodedEntryWasGenerated(s: string, r: ExecutionRecord, sha256: string -> Digest)
    requires Decode(s, sha256) == Some(r)
    ensures s == GenerateExecutionLog(r, sha256) && '|' !in r.model
  {
    hide ReadHash, HashField, DecodeBody;
    var body, hash := s[..|s| - 70], s[|s| - 70..];
    assert s == body + hash;
    HashFieldIff(hash, sha256(body));
    DecodedBodyPrints(body, r);
  }

  /**
    The decoder is the exact inverse of the printer on records whose model name has no '|': it
    recovers all four fields, and it accepts nothing that was not printed from such a record with
    the matching digest. The action text is unrestricted.
   */
  lemma DecodeIffGenerated(s: string, r: ExecutionRecord, sha256: string -> Digest)
    ensures Decode(s, sha256) == Some(r) <==> s == GenerateExecutionLog(r, sha256) && '|' !in r.model
  {
    if Decode(s, sha256) == Some(r) {
      DecodedEntryWasGenerated(s, r, sha256);
    }
    if s == GenerateExecutionLog(r, sha256) && '|' !in r.model {
      SplitHash(Body(r), HashField(sha256(Body(r))));
      HashFieldIff(HashField(sha256(Body(r))), sha256(Body(r)));
      PrintedBodyDecodes(r);
    }
  }

  /** The text of an entry, written out. */
  lemma EntryText(r: ExecutionRecord, sha256: string -> Digest)
    ensures var text := "FRAME:" + Decimal(r.frameId) + "|MODEL:" + r.model + "|ACTION:" + r.action
                        + "|TOKENS:" + Decimal(r.tokens);
            GenerateExecutionLog(r, sha256) == text + "|HASH:" + Hex(sha256(text))
  {
    hide Decimal, Hex;
    assert "|" + MODEL == "|MODEL:" && "|" + ACTION == "|ACTION:" && "|" + TOKENS == "|TOKENS:";
    var action := r.action + "|" + (TOKENS + Decimal(r.tokens));
    var model := r.model + "|" + (ACTION + action);
    var first := "FRAME:" + Decimal(r.frameId) + "|MODEL:";
    JoinField(FRAME, Decimal(r.frameId), MODEL, model);
    JoinField(first, r.model, ACTION, action);
    JoinField(first + r.model + "|ACTION:", r.action, TOKENS, Decimal(r.tokens));
    var text := first + r.model + "|ACTION:" + r.action + "|TOKENS:" + Decimal(r.tokens);
    assert Body(r) == text;
    JoinHash(text, Hex(sha256(text)));
  }

  lemma JoinHash(text: string, digits: string)
    ensures text + ("|HASH:" + digits) == text + "|HASH:" + digits
  {}

  /** Among records whose model names have no '|', no two print the same entry. */
  lemma LogEntriesUnique(r1: ExecutionRecord, r2: ExecutionRecord, sha256: string -> Digest)
    requires '|' !in r1.model && '|' !in r2.model
    requires GenerateExecutionLog(r1, sha256) == GenerateExecutionLog(r2, sha256)
    ensures r1 == r2
  {
    var s := GenerateExecutionLog(r1, sha256);
    DecodeIffGenerated(s, r1, sha256);
    DecodeIffGenerated(s, r2, sha256);
  }

  // ---- Which entries are ambiguous -----------------------------------------------------------

  const SEPARATOR: string := "|ACTION:"

  predicate FoundAt(pattern: string, s: string, k: nat) {
    k + |pattern| <= |s| && s[k..k + |pattern|] == pattern
  }

  ghost predicate Occurs(pattern: string, s: string) {
    exists k: nat :: FoundAt(pattern, s, k)
  }

  /** Everything between the model label and the token count. */
  function Middle(model: string, action: string): string {
    model + SEPARATOR + action
  }

  lemma FromModelIs(r: ExecutionRecord)
    ensures FromModel(r) == MODEL + (Middle(r.model, r.action) + "|" + FromTokens(r))
  {
    assert "|" + ACTION == SEPARATOR;
    assert r.model + "|" + FromAction(r) == r.model + ("|" + ACTION) + r.action + "|" + FromTokens(r);
  }

  lemma DecimalHasNoBar(n: nat)
    ensures '|' !in Decimal(n)
  {
    DecimalRoundTrip(n);
  }

  lemma SameBodySameParts(r1: ExecutionRecord, r2: ExecutionRecord)
    requires Body(r1) == Body(r2)
    ensures r1.frameId == r2.frameId && r1.tokens == r2.tokens
    ensures Middle(r1.model, r1.action) == Middle(r2.model, r2.action)
  {
    hide Middle, FromModel, Decimal, TakeField, TakeWideField;
    forall r | r == r1 || r == r2
      ensures TakeField(FRAME, '|', Body(r)) == Some((Decimal(r.frameId), FromModel(r)))
      ensures TakeWideField(MODEL, '|', FromModel(r)) == Some((Middle(r.model, r.action), FromTokens(r)))
    {
      DecimalHasNoBar(r.frameId);
      DecimalRoundTrip(r.tokens);
      NoBarInTokens(Decimal(r.tokens));
      FromModelIs(r);
      TakeFieldIff(FRAME, '|', Body(r), Decimal(r.frameId), FromModel(r));
      TakeWideFieldIff(MODEL, '|', FromModel(r), Middle(r.model, r.action), FromTokens(r));
    }
    NumberIffDecimal(Decimal(r1.frameId), r1.frameId);
    NumberIffDecimal(Decimal(r2.frameId), r2.frameId);
    assert Decimal(r1.tokens) == FromTokens(r1)[|TOKENS|..] && Decimal(r2.tokens) == FromTokens(r2)[|TOKENS|..];
    NumberIffDecimal(Decimal(r1.tokens), r1.tokens);
    NumberIffDecimal(Decimal(r2.tokens), r2.tokens);
  }

  /** Two ways to split one text: the separators do not overlap, so each split's own text holds the other's. */
  lemma TwoSplits(m1: string, a1: string, m2: string, a2: string)
    requires Middle(m1, a1) == Middle(m2, a2) && |m1| < |m2|
    ensures Occurs(SEPARATOR, a1) && Occurs(SEPARATOR, m2)
  {
    var s := Middle(m1, a1);
    var n := |SEPARATOR|;
    assert s[|m1|..|m1| + n] == SEPARATOR && s[|m2|..|m2| + n] == SEPARATOR;
    forall k | |m1| < k < |m1| + n
      ensures s[k] != '|'
    {
      assert s[k] == s[|m1|..|m1| + n][k - |m1|];
    }
    assert s[|m2|] == s[|m2|..|m2| + n][0] == '|';
    var k := |m2| - |m1| - n;
    assert a1[k..k + n] == s[|m2|..|m2| + n];
    assert FoundAt(SEPARATOR, a1, k);
    assert m2[|m1|..|m1| + n] == s[|m1|..|m1| + n];
    assert FoundAt(SEPARATOR, m2, |m1|);
  }

  lemma SameLengthSplit(m1: string, a1: string, m2: string, a2: string)
    requires Middle(m1, a1) == Middle(m2, a2) && |m1| == |m2|
    ensures m1 == m2 && a1 == a2
  {
    var s := Middle(m1, a1);
    assert m1 == s[..|m1|] == m2;
    assert a1 == s[|m1| + |SEPARATOR|..] == a2;
  }

  lemma SameEntrySameBody(r1: ExecutionRecord, r2: ExecutionRecord, sha256: string -> Digest)
    requires GenerateExecutionLog(r1, sha256) == GenerateExecutionLog(r2, sha256)
    ensures Body(r1) == Body(r2)
  {
    hide Body, HashField;
    SplitHash(Body(r1), HashField(sha256(Body(r1))));
    SplitHash(Body(r2), HashField(sha256(Body(r2))));
  }

  lemma SameMiddleSameBody(r1: ExecutionRecord, r2: ExecutionRecord)
    requires r1.frameId == r2.frameId && r1.tokens == r2.tokens
    requires Middle(r1.model, r1.action) == Middle(r2.model, r2.action)
    ensures Body(r1) == Body(r2)
  {
    hide Middle, FromModel, Decimal;
    FromModelIs(r1);
    FromModelIs(r2);
  }

  lemma Regroup(x: string, y: string, z: string)
    ensures Middle(x, Middle(y, z)) == Middle(Middle(x, y), z)
  {}

  lemma SplitAround(pattern: string, s: string) returns (x: string, y: string)
    requires Occurs(pattern, s)
    ensures s == x + pattern + y
  {
    var k: nat :| FoundAt(pattern, s, k);
    x, y := s[..k], s[k + |pattern|..];
  }

  /** The record that a separator inside the model, or inside the action, makes this one's entry stand for too. */
  lemma Twin(r: ExecutionRecord) returns (twin: ExecutionRecord)
    requires Occurs(SEPARATOR, r.model) || Occurs(SEPARATOR, r.action)
    ensures twin != r && Body(twin) == Body(r)
  {
    hide Body, Occurs;
    if Occurs(SEPARATOR, r.model) {
      var x, y := SplitAround(SEPARATOR, r.model);
      twin := r.(model := x, action := Middle(y, r.action));
      Regroup(x, y, r.action);
    } else {
      var x, y := SplitAround(SEPARATOR, r.action);
      twin := r.(model := Middle(r.model, x), action := y);
      Regroup(r.model, x, y);
    }
    SameMiddleSameBody(twin, r);
  }

  /**
    Two records print the same entry exactly if they have the same frame id and token count, and
    their models and actions read the same once joined by the separator.
   */
  lemma SameEntryIff(r1: ExecutionRecord, r2: ExecutionRecord, sha256: string -> Digest)
    ensures GenerateExecutionLog(r1, sha256) == GenerateExecutionLog(r2, sha256) <==>
            && r1.frameId == r2.frameId && r1.tokens == r2.tokens
            && Middle(r1.model, r1.action) == Middle(r2.model, r2.action)
  {
    hide Body, Middle;
    if GenerateExecutionLog(r1, sha256) == GenerateExecutionLog(r2, sha256) {
      SameEntrySameBody(r1, r2, sha256);
      SameBodySameParts(r1, r2);
    } else if r1.frameId == r2.frameId && r1.tokens == r2.tokens {
      if Middle(r1.model, r1.action) == Middle(r2.model, r2.action) { SameMiddleSameBody(r1, r2); }
    }
  }

  /**
    An entry fails to determine its record exactly if the text "|ACTION:" occurs in the model name or
    in the action; '|' alone does no harm.
   */
  lemma AmbiguousIffSeparatorInside(r: ExecutionRecord, sha256: string -> Digest)
    ensures (exists other :: other != r && GenerateExecutionLog(other, sha256) == GenerateExecutionLog(r, sha256))
            <==> Occurs(SEPARATOR, r.model) || Occurs(SEPARATOR, r.action)
  {
    hide Body, HashField, Occurs;
    if Occurs(SEPARATOR, r.model) || Occurs(SEPARATOR, r.action) {
      var twin := Twin(r);
      assert GenerateExecutionLog(twin, sha256) == GenerateExecutionLog(r, sha256);
    }
    forall other | other != r && GenerateExecutionLog(other, sha256) == GenerateExecutionLog(r, sha256)
      ensures Occurs(SEPARATOR, r.model) || Occurs(SEPARATOR, r.action)
    {
      DifferentSplit(other, r, sha256);
    }
  }

  lemma DifferentSplit(other: ExecutionRecord, r: ExecutionRecord, sha256: string -> Digest)
    requires other != r && GenerateExecutionLog(other, sha256) == GenerateExecutionLog(r, sha256)
    ensures Occurs(SEPARATOR, r.model) || Occurs(SEPARATOR, r.action)
  {
    hide GenerateExecutionLog, Occurs;
    SameEntryIff(other, r, sha256);
    if |other.model| < |r.model| {
      TwoSplits(other.model, other.action, r.model, r.action);
    } else if |r.model| < |other.model| {
      TwoSplits(r.model, r.action, other.model, other.action);
    } else {
      SameLengthSplit(other.model, other.action, r.model, r.action);
    }
  }

  /** Such records exist: these two are different and print alike, and the second has no '|' in its model. */
  lemma TwoRecordsOneEntry(frameId: nat, tokens: nat, sha256: string -> Digest)
    ensures var r1 := ExecutionRecord(frameId, "a|ACTION:b", "c", tokens);
            var r2 := ExecutionRecord(frameId, "a", "b|ACTION:c", tokens);
            r1 != r2 && GenerateExecutionLog(r1, sha256) == GenerateExecutionLog(r2, sha256)
  {
    var r1 := ExecutionRecord(frameId, "a|ACTION:b", "c", tokens);
    var r2 := ExecutionRecord(frameId, "a", "b|ACTION:c", tokens);
    assert Middle(r1.model, r1.action) == Middle(r2.model, r2.action);
    SameEntryIff(r1, r2, sha256);
  }
}
