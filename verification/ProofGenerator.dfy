/** The proof generator: a registry of policies and setup keys that gates every proof. */
module ProofGenerator {
  import opened Words
  import opened Wrappers
  import opened Policy
  import opened PolicyLaws
  import opened TextCodec
  import opened ProofLog

  datatype SafetyPolicy = SafetyPolicy(id: string, description: string, constraints: seq<Constraint>)

  /** One call of register_policy; `vkHash` is absent when the circuit setup failed. */
  datatype Registration = Registration(policy: SafetyPolicy, vkHash: Option<string>)

  datatype ZkProof = ZkProof(entry: ProofEntry, proofBytes: seq<byte>, publicInputs: seq<string>)

  /** The policy registered last under `id`. */
  function LatestPolicy(history: seq<Registration>, id: string): Option<SafetyPolicy> {
    if history == [] then None
    else
      var last := history[|history| - 1];
      if last.policy.id == id then Some(last.policy) else LatestPolicy(history[..|history| - 1], id)
  }

  /** The key hash of the last successful setup under `id`; a later failed setup leaves it in place. */
  function LatestKey(history: seq<Registration>, id: string): Option<string> {
    if history == [] then None
    else
      var last := history[|history| - 1];
      if last.policy.id == id && last.vkHash.Some? then last.vkHash
      else LatestKey(history[..|history| - 1], id)
  }

  /** When a proof under `id` is issued: the latest policy evaluates to true and some setup succeeded. */
  predicate MayIssue(history: seq<Registration>, id: string, data: Metrics) {
    && LatestPolicy(history, id).Some?
    && CheckConstraint(And(LatestPolicy(history, id).value.constraints), data) == Ok(true)
    && LatestKey(history, id).Some?
  }

  class ZkProofGenerator {
    var policies: map<string, SafetyPolicy>
    var setupKeys: map<string, string>
    var proofCount: nat
    ghost var history: seq<Registration>

    ghost predicate Valid()
      reads this
    {
      && (forall id :: id in policies <==> LatestPolicy(history, id).Some?)
      && (forall id :: id in policies ==> policies[id] == LatestPolicy(history, id).value)
      && (forall id :: id in setupKeys <==> LatestKey(history, id).Some?)
      && (forall id :: id in setupKeys ==> setupKeys[id] == LatestKey(history, id).value)
      && proofCount == 0
    }

    constructor ()
      ensures Valid() && history == []
    {
      policies, setupKeys, proofCount := map[], map[], 0;
      history := [];
    }

    method RegisterPolicy(policy: SafetyPolicy, setup: Option<string>)
      requires Valid()
      modifies this
      ensures Valid() && history == old(history) + [Registration(policy, setup)]
    {
      if setup.Some? {
        setupKeys := setupKeys[policy.id := setup.value];
      }
      policies := policies[policy.id := policy];
      ghost var before := history;
      history := history + [Registration(policy, setup)];
      assert history[..|history| - 1] == before;
    }

    /** The early-return loop over a policy's constraints decides exactly their conjunction. */
    method VerifyConstraints(constraints: seq<Constraint>, data: Metrics) returns (r: Outcome)
      ensures r == CheckConstraint(And(constraints), data)
    {
      for i := 0 to |constraints|
        invariant CheckAll(constraints, data) == CheckAll(constraints[i..], data)
      {
        var satisfied := CheckConstraint(constraints[i], data);
        if satisfied.Err? { return satisfied; }
        if !satisfied.value { return Ok(false); }
        assert constraints[i..][1..] == constraints[i + 1..];
      }
      return Ok(true);
    }

    /**
      After any run of registrations, a proof is issued only under the latest policy of that id,
      only if its whole conjunction evaluates to true, and only if some setup under that id has
      succeeded. The other outcomes say which check failed first.
     */
    method GenerateProof(policyId: string, data: Metrics, traceHash: string, proofBytes: seq<byte>, now: nat)
      returns (r: Result<ZkProof, ZkError>)
      requires Valid()
      ensures r.Ok? <==> MayIssue(history, policyId, data)
      ensures r.Ok? ==> r.value == ZkProof(
                ProofEntry("zk-proof-1", policyId, LatestKey(history, policyId).value, now), proofBytes, [traceHash])
      ensures LatestPolicy(history, policyId).None? ==> r == Err(PolicyNotFound(policyId))
      ensures LatestPolicy(history, policyId).Some? ==>
                var outcome := CheckConstraint(And(LatestPolicy(history, policyId).value.constraints), data);
                && (outcome.Err? ==> r == Err(outcome.error))
                && (outcome == Ok(false) ==> r == Err(ConstraintViolation))
                && (outcome == Ok(true) && LatestKey(history, policyId).None? ==> r == Err(PolicyNotFound(policyId)))
    {
      if policyId !in policies {
        return Err(PolicyNotFound(policyId));
      }
      var satisfied := VerifyConstraints(policies[policyId].constraints, data);
      if satisfied.Err? {
        return Err(satisfied.error);
      }
      if !satisfied.value {
        return Err(ConstraintViolation);
      }
      if policyId !in setupKeys {
        return Err(PolicyNotFound(policyId));
      }
      var proofId := "zk-proof-" + Decimal(proofCount + 1);
      return Ok(ZkProof(ProofEntry(proofId, policyId, setupKeys[policyId], now), proofBytes, [traceHash]));
    }

    method ExportExecutionLog(proofs: seq<ZkProof>) returns (log: string)
      ensures log == Export(Entries(proofs))
    {
      hide Line;
      log := "";
      for i := 0 to |proofs|
        invariant log == Export(Entries(proofs[..i]))
      {
        log := log + Line(proofs[i].entry, "");
        ExportAppend(Entries(proofs[..i]), proofs[i].entry);
        assert Entries(proofs[..i + 1]) == Entries(proofs[..i]) + [proofs[i].entry];
      }
      assert proofs[..|proofs|] == proofs;
    }
  }

  function Entries(proofs: seq<ZkProof>): (entries: seq<ProofEntry>)
    ensures |entries| == |proofs|
  {
    seq(|proofs|, (i: nat) requires i < |proofs| => proofs[i].entry)
  }

  /** Registration `p` is the last one under `id`. */
  ghost predicate IsLatest(history: seq<Registration>, id: string, p: nat) {
    && p < |history| && history[p].policy.id == id
    && forall j :: p < j < |history| ==> history[j].policy.id != id
  }

  /** Registration `k` is the last one under `id` whose setup succeeded. */
  ghost predicate IsLatestSetup(history: seq<Registration>, id: string, k: nat) {
    && k < |history| && history[k].policy.id == id && history[k].vkHash.Some?
    && forall j :: k < j < |history| && history[j].policy.id == id ==> history[j].vkHash.None?
  }

  /** The policy under an id is that of the last registration under it. */
  lemma {:induction false} LatestPolicyIsLast(history: seq<Registration>, id: string, p: nat)
    requires IsLatest(history, id, p)
    ensures LatestPolicy(history, id) == Some(history[p].policy)
  {
    if p < |history| - 1 {
      LatestPolicyIsLast(history[..|history| - 1], id, p);
    }
  }

  lemma {:induction false} SomeLatest(history: seq<Registration>, id: string) returns (p: nat)
    requires LatestPolicy(history, id).Some?
    ensures IsLatest(history, id, p)
  {
    p := |history| - 1;
    if history[p].policy.id != id {
      p := SomeLatest(history[..p], id);
    }
  }

  /** The key under an id is that of the last successful setup under it. */
  lemma {:induction false} LatestKeyIsLastSetup(history: seq<Registration>, id: string, k: nat)
    requires IsLatestSetup(history, id, k)
    ensures LatestKey(history, id) == history[k].vkHash
  {
    if k < |history| - 1 {
      LatestKeyIsLastSetup(history[..|history| - 1], id, k);
    }
  }

  lemma {:induction false} SomeLatestSetup(history: seq<Registration>, id: string) returns (k: nat)
    requires LatestKey(history, id).Some?
    ensures IsLatestSetup(history, id, k)
  {
    k := |history| - 1;
    if history[k].policy.id != id || history[k].vkHash.None? {
      k := SomeLatestSetup(history[..k], id);
    }
  }

  /**
    Whose key a proof is made with: for every history and id, the key comes from the registration
    of the policy it stands for exactly if that registration's setup succeeded, and otherwise from
    an earlier one.
   */
  lemma KeyBelongsToPolicyIff(history: seq<Registration>, id: string) returns (p: nat, k: nat)
    requires LatestPolicy(history, id).Some? && LatestKey(history, id).Some?
    ensures IsLatest(history, id, p) && LatestPolicy(history, id) == Some(history[p].policy)
    ensures IsLatestSetup(history, id, k) && LatestKey(history, id) == history[k].vkHash
    ensures k <= p && (k == p <==> history[p].vkHash.Some?)
  {
    p := SomeLatest(history, id);
    k := SomeLatestSetup(history, id);
    LatestPolicyIsLast(history, id, p);
    LatestKeyIsLastSetup(history, id, k);
  }

  /** It can be an earlier one: a policy whose own setup failed, with a proof issued under the key of another. */
  lemma FailedSetupKeepsOldKey(earlier: SafetyPolicy, policy: SafetyPolicy, key: string, data: Metrics)
    requires policy.id == earlier.id && CheckConstraint(And(policy.constraints), data) == Ok(true)
    ensures var history := [Registration(earlier, Some(key)), Registration(policy, None)];
            && MayIssue(history, policy.id, data)
            && LatestPolicy(history, policy.id) == Some(policy) && LatestKey(history, policy.id) == Some(key)
  {
    var history := [Registration(earlier, Some(key)), Registration(policy, None)];
    assert history[..1] == [Registration(earlier, Some(key))];
  }

  lemma {:induction false} EachConstraintTrue(cs: seq<Constraint>, data: Metrics)
    requires CheckAll(cs, data) == Ok(true)
    ensures forall c | c in cs :: CheckConstraint(c, data) == Ok(true)
  {
    if cs != [] {
      EachConstraintTrue(cs[1..], data);
      assert cs == [cs[0]] + cs[1..];
    }
  }

  /**
    What an issued proof says, after any run of registrations: every constraint of the policy
    registered last under the id holds by the answers of its leaves, those of ranges and strict
    thresholds hold in exact arithmetic, and the key is that policy's own exactly if its setup succeeded.
   */
  lemma IssuedProofMeansStrictPolicyHolds(history: seq<Registration>, id: string, data: Metrics)
    returns (p: nat, k: nat)
    requires MayIssue(history, id, data)
    ensures IsLatest(history, id, p) && IsLatestSetup(history, id, k)
    ensures LatestKey(history, id) == history[k].vkHash && (k == p <==> history[p].vkHash.Some?)
    ensures forall c | c in history[p].policy.constraints ::
              && Holds(c, (leaf: Leaf) => Answer(leaf, data))
              && (OnlyOperators(c, STRICT) ==> Holds(c, (leaf: Leaf) => ExactLeaf(leaf, data)))
  {
    hide OnlyOperators, Holds, ExactLeaf, Answer;
    p, k := KeyBelongsToPolicyIff(history, id);
    var constraints := history[p].policy.constraints;
    EachConstraintTrue(constraints, data);
    forall c | c in constraints
      ensures Holds(c, (leaf: Leaf) => Answer(leaf, data))
      ensures OnlyOperators(c, STRICT) ==> Holds(c, (leaf: Leaf) => ExactLeaf(leaf, data))
    {
      VerdictMeaning(c, data);
      if OnlyOperators(c, STRICT) { StrictPolicyNeverOverAccepts(c, data); }
    }
  }
}
