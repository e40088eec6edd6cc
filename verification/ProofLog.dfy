/** The exported proof log: one line a proof, and the decoder that reads the list back. */
module ProofLog {
  import opened Wrappers
  import opened TextCodec

  /** The fields of a proof that are exported. */
  datatype ProofEntry = ProofEntry(proofId: string, policyId: string, vkHash: string, timestamp: nat)

  const PROOF: string := "PROOF:"
  const POLICY: string := "POLICY:"
  const VK_HASH: string := "VK_HASH:"
  const TS: string := "TS:"

  // One line's text, from each field to the end, followed by `rest`.

  function FromTimestamp(p: ProofEntry, rest: string): string {
    TS + (Decimal(p.timestamp) + "\n" + rest)
  }

  function FromVkHash(p: ProofEntry, rest: string): string {
    VK_HASH + (p.vkHash + "|" + FromTimestamp(p, rest))
  }

  function FromPolicy(p: ProofEntry, rest: string): string {
    POLICY + (p.policyId + "|" + FromVkHash(p, rest))
  }

  function Line(p: ProofEntry, rest: string): string {
    PROOF + (p.proofId + "|" + FromPolicy(p, rest))
  }

  function Export(proofs: seq<ProofEntry>): string {
    if proofs == [] then "" else Line(proofs[0], Export(proofs[1..]))
  }

  /** The text of a line does not depend on what follows it. */
  lemma LinePrecedesRest(p: ProofEntry, rest: string)
    ensures Line(p, rest) == Line(p, "") + rest
  {
    assert FromTimestamp(p, rest) == FromTimestamp(p, "") + rest;
    assert FromVkHash(p, rest) == FromVkHash(p, "") + rest;
    assert FromPolicy(p, rest) == FromPolicy(p, "") + rest;
  }

  /** The text of a line, written out, and its place before the rest of the log. */
  lemma LineText(p: ProofEntry, rest: string)
    ensures Line(p, rest) == "PROOF:" + p.proofId + "|POLICY:" + p.policyId + "|VK_HASH:" + p.vkHash
                             + "|TS:" + Decimal(p.timestamp) + "\n" + rest
  {
    hide Decimal;
    assert "|" + POLICY == "|POLICY:" && "|" + VK_HASH == "|VK_HASH:" && "|" + TS == "|TS:";
    var stamp := Decimal(p.timestamp) + "\n" + rest;
    var hash := p.vkHash + "|" + (TS + stamp);
    var policy := p.policyId + "|" + (VK_HASH + hash);
    var first := "PROOF:" + p.proofId + "|POLICY:";
    var second := first + p.policyId + "|VK_HASH:";
    JoinField(PROOF, p.proofId, POLICY, policy);
    JoinField(first, p.policyId, VK_HASH, hash);
    JoinField(second, p.vkHash, TS, stamp);
    Regroup(second + p.vkHash + "|TS:", Decimal(p.timestamp), rest);
  }

  lemma Regroup(a: string, b: string, c: string)
    ensures a + (b + "\n" + c) == a + b + "\n" + c
  {}

  /** Appending one line at the end is exporting one more proof. */
  lemma {:induction false} ExportAppend(proofs: seq<ProofEntry>, p: ProofEntry)
    ensures Export(proofs + [p]) == Export(proofs) + Line(p, "")
  {
    if proofs == [] {
      assert proofs + [p] == [p];
      assert Export([p]) == Line(p, Export([]));
    } else {
      var rest := Export(proofs[1..]);
      assert (proofs + [p])[1..] == proofs[1..] + [p] && (proofs + [p])[0] == proofs[0];
      ExportAppend(proofs[1..], p);
      LineBeforeConcat(proofs[0], rest, Line(p, ""));
    }
  }

  lemma LineBeforeConcat(p: ProofEntry, a: string, b: string)
    ensures Line(p, a + b) == Line(p, a) + b
  {
    var start := Line(p, "");
    LinePrecedesRest(p, a + b);
    LinePrecedesRest(p, a);
    assert start + (a + b) == (start + a) + b;
  }

  // ---- The decoder (specification) ---------------------------------------------------------

  function DecodeLine(s: string): Option<(ProofEntry, string)> {
    var (proofId, rest1) :- TakeField(PROOF, '|', s);
    var (policyId, rest2) :- TakeField(POLICY, '|', rest1);
    var (vkHash, rest3) :- TakeField(VK_HASH, '|', rest2);
    var (ts, rest) :- TakeField(TS, '\n', rest3);
    var timestamp :- Number(ts);
    Some((ProofEntry(proofId, policyId, vkHash, timestamp), rest))
  }

  predicate BarFree(p: ProofEntry) {
    '|' !in p.proofId && '|' !in p.policyId && '|' !in p.vkHash
  }

  lemma DecodedTailPrints(rest2: string, rest3: string, rest: string, p: ProofEntry)
    requires TakeField(VK_HASH, '|', rest2) == Some((p.vkHash, rest3))
    requires TakeField(TS, '\n', rest3).Some? && TakeField(TS, '\n', rest3).value.1 == rest
    requires Number(TakeField(TS, '\n', rest3).value.0) == Some(p.timestamp)
    ensures rest2 == FromVkHash(p, rest) && '|' !in p.vkHash
  {
    var ts := TakeField(TS, '\n', rest3).value.0;
    TakeFieldIff(VK_HASH, '|', rest2, p.vkHash, rest3);
    TakeFieldIff(TS, '\n', rest3, ts, rest);
    NumberIffDecimal(ts, p.timestamp);
  }

  lemma DecodedLinePrints(s: string, p: ProofEntry, rest: string)
    requires DecodeLine(s) == Some((p, rest))
    ensures s == Line(p, rest) && BarFree(p)
  {
    var (proofId, rest1) := TakeField(PROOF, '|', s).value;
    var (policyId, rest2) := TakeField(POLICY, '|', rest1).value;
    var (vkHash, rest3) := TakeField(VK_HASH, '|', rest2).value;
    DecodedTailPrints(rest2, rest3, rest, p);
    TakeFieldIff(PROOF, '|', s, proofId, rest1);
    TakeFieldIff(POLICY, '|', rest1, policyId, rest2);
  }

  lemma PrintedLineDecodes(p: ProofEntry, rest: string)
    requires BarFree(p)
    ensures DecodeLine(Line(p, rest)) == Some((p, rest))
  {
    var ts := Decimal(p.timestamp);
    DecimalRoundTrip(p.timestamp);
    assert '\n' !in ts;
    TakeFieldIff(PROOF, '|', Line(p, rest), p.proofId, FromPolicy(p, rest));
    TakeFieldIff(POLICY, '|', FromPolicy(p, rest), p.policyId, FromVkHash(p, rest));
    TakeFieldIff(VK_HASH, '|', FromVkHash(p, rest), p.vkHash, FromTimestamp(p, rest));
    TakeFieldIff(TS, '\n', FromTimestamp(p, rest), ts, rest);
    NumberIffDecimal(ts, p.timestamp);
  }

  lemma LineShrinks(s: string)
    requires DecodeLine(s).Some?
    ensures |DecodeLine(s).value.1| < |s|
  {
    var (p, rest) := DecodeLine(s).value;
    DecodedLinePrints(s, p, rest);
    LinePrecedesRest(p, rest);
    assert |Line(p, "")| > 0;
  }

  function DecodeLog(s: string): Option<seq<ProofEntry>>
    decreases |s|
  {
    if s == "" then Some([])
    else
      var (p, rest) :- DecodeLine(s);
      LineShrinks(s);
      var more :- DecodeLog(rest);
      Some([p] + more)
  }

  lemma {:induction false} ExportedLogDecodes(proofs: seq<ProofEntry>)
    requires forall p | p in proofs :: BarFree(p)
    ensures DecodeLog(Export(proofs)) == Some(proofs)
  {
    if proofs != [] {
      var rest := Export(proofs[1..]);
      PrintedLineDecodes(proofs[0], rest);
      ExportedLogDecodes(proofs[1..]);
      assert [proofs[0]] + proofs[1..] == proofs;
    }
  }

  lemma {:induction false} DecodedLogWasExported(s: string, proofs: seq<ProofEntry>)
    requires DecodeLog(s) == Some(proofs)
    ensures s == Export(proofs) && forall p | p in proofs :: BarFree(p)
    decreases |s|
  {
    if s != "" {
      var (p, rest) := DecodeLine(s).value;
      LineShrinks(s);
      var more := DecodeLog(rest).value;
      DecodedLinePrints(s, p, rest);
      DecodedLogWasExported(rest, more);
      assert proofs == [p] + more;
      assert proofs[0] == p && proofs[1..] == more;
    }
  }

  /** The decoder is the exact inverse of the export on proofs whose ids and key hash have no '|'. */
  lemma DecodeLogIffExported(s: string, proofs: seq<ProofEntry>)
    ensures DecodeLog(s) == Some(proofs) <==> s == Export(proofs) && forall p | p in proofs :: BarFree(p)
  {
    if DecodeLog(s) == Some(proofs) { DecodedLogWasExported(s, proofs); }
    if s == Export(proofs) && forall p | p in proofs :: BarFree(p) { ExportedLogDecodes(proofs); }
  }
}
