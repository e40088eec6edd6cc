/** Laws of whole policies: flattening keeps the outcome, and what a verdict means in exact arithmetic. */
module PolicyLaws {
  import opened Wrappers
  import opened Words
  import opened F64
  import opened CastCompare
  import opened Policy

  // ---- Flattening And inside And, and Or inside Or ----------------------------------------

  function Flatten(c: Constraint): Constraint
    decreases c, 1
  {
    match c
    case And(conditions) => And(SpliceAnd(conditions))
    case Or(conditions) => Or(SpliceOr(conditions))
    case _ => c
  }

  function SpliceAnd(cs: seq<Constraint>): seq<Constraint>
    decreases cs, 0
  {
    if cs == [] then []
    else
      var head := Flatten(cs[0]);
      (if head.And? then head.conditions else [head]) + SpliceAnd(cs[1..])
  }

  function SpliceOr(cs: seq<Constraint>): seq<Constraint>
    decreases cs, 0
  {
    if cs == [] then []
    else
      var head := Flatten(cs[0]);
      (if head.Or? then head.conditions else [head]) + SpliceOr(cs[1..])
  }

  /** And and Or alternate all the way down. */
  predicate Flat(c: Constraint)
    decreases c
  {
    match c
    case And(conditions) => forall k | k in conditions :: !k.And? && Flat(k)
    case Or(conditions) => forall k | k in conditions :: !k.Or? && Flat(k)
    case _ => true
  }

  lemma {:induction false} FlattenIsFlat(c: Constraint)
    ensures Flat(Flatten(c))
    decreases c, 1
  {
    match c
    case And(conditions) => SpliceIsFlat(conditions);
    case Or(conditions) => SpliceIsFlat(conditions);
    case _ =>
  }

  lemma {:induction false} SpliceIsFlat(cs: seq<Constraint>)
    ensures Flat(And(SpliceAnd(cs))) && Flat(Or(SpliceOr(cs)))
    decreases cs, 0
  {
    if cs != [] {
      FlattenIsFlat(cs[0]);
      SpliceIsFlat(cs[1..]);
    }
  }

  lemma {:induction false} CompileAllSplits(a: seq<Constraint>, b: seq<Constraint>, yes: Tree, no: Tree)
    ensures CompileAll(a + b, yes, no) == CompileAll(a, CompileAll(b, yes, no), no)
  {
    if a == [] {
      assert a + b == b;
    } else {
      assert (a + b)[1..] == a[1..] + b;
      CompileAllSplits(a[1..], b, yes, no);
    }
  }

  lemma {:induction false} CompileAnySplits(a: seq<Constraint>, b: seq<Constraint>, yes: Tree, no: Tree)
    ensures CompileAny(a + b, yes, no) == CompileAny(a, yes, CompileAny(b, yes, no))
  {
    if a == [] {
      assert a + b == b;
    } else {
      assert (a + b)[1..] == a[1..] + b;
      CompileAnySplits(a[1..], b, yes, no);
    }
  }

  lemma {:induction false} FlattenKeepsCompile(c: Constraint, yes: Tree, no: Tree)
    ensures Compile(Flatten(c), yes, no) == Compile(c, yes, no)
    decreases c, 1
  {
    match c
    case And(conditions) => SpliceKeepsCompile(conditions, yes, no);
    case Or(conditions) => SpliceKeepsCompile(conditions, yes, no);
    case _ =>
  }

  lemma {:induction false} SpliceKeepsCompile(cs: seq<Constraint>, yes: Tree, no: Tree)
    ensures CompileAll(SpliceAnd(cs), yes, no) == CompileAll(cs, yes, no)
    ensures CompileAny(SpliceOr(cs), yes, no) == CompileAny(cs, yes, no)
    decreases cs, 0
  {
    if cs != [] {
      var head := Flatten(cs[0]);
      var andPart := if head.And? then head.conditions else [head];
      var orPart := if head.Or? then head.conditions else [head];
      SpliceKeepsCompile(cs[1..], yes, no);
      FlattenKeepsCompile(cs[0], CompileAll(cs[1..], yes, no), no);
      FlattenKeepsCompile(cs[0], yes, CompileAny(cs[1..], yes, no));
      CompileAllSplits(andPart, SpliceAnd(cs[1..]), yes, no);
      CompileAnySplits(orPart, SpliceOr(cs[1..]), yes, no);
      assert CompileAll([head], CompileAll(cs[1..], yes, no), no) == Compile(head, CompileAll(cs[1..], yes, no), no);
      assert CompileAny([head], yes, CompileAny(cs[1..], yes, no)) == Compile(head, yes, CompileAny(cs[1..], yes, no));
    }
  }

  /**
    Flattening a policy changes nothing observable: verdict, error, and which leaves are asked in
    which order stay the same on every data map.
   */
  lemma FlattenPreservesOutcome(c: Constraint, data: Metrics)
    ensures Flat(Flatten(c))
    ensures CheckConstraint(Flatten(c), data) == CheckConstraint(c, data)
    ensures Consulted(Flatten(c), data) == Consulted(c, data)
  {
    FlattenIsFlat(c);
    FlattenKeepsCompile(c, Verdict(true), Verdict(false));
    EvaluatorIsWalk(c, data);
    EvaluatorIsWalk(Flatten(c), data);
  }

  // ---- What a leaf answers --------------------------------------------------------------------

  /** The answer of a leaf: the exact comparison, except where rounding or the epsilon decides. */
  predicate Answer(leaf: Leaf, data: Metrics) {
    leaf.field in data &&
    var v := data[leaf.field];
    var x := Round53(v);
    match leaf
    case Range(_, min, max) => min <= v && v <= max
    case Threshold(_, operator, t) =>
      || (operator == ">" && Gt(v, t) && !Eq(x, t))
      || (operator == ">=" && (Ge(v, t) || Eq(x, t)))
      || (operator == "<" && Lt(v, t) && !Eq(x, t))
      || (operator == "<=" && (Le(v, t) || Eq(x, t)))
      || (operator == "==" && (Eq(x, t) || (Abs(x) <= 1 && NearReal(x, t))))
  }

  /**
    Every threshold on every metric: an absent field first, then an operator that is none of the
    five, and otherwise the answer, for each operator in terms of the exact order of the metric and
    the threshold and of the rounded metric meeting the threshold.
   */
  lemma ThresholdOutcome(field: string, operator: string, t: f64, data: Metrics)
    ensures CheckConstraint(Threshold(field, operator, t), data) ==
            if field !in data then Err(MissingField(field))
            else if operator !in {">", ">=", "<", "<=", "=="} then Err(InvalidOperator(operator))
            else Ok(Answer(Threshold(field, operator, t), data))
  {
    hide NearReal, WithinEpsilon, Round53;
    if field in data {
      var v := data[field];
      CastComparisons(v, t);
      EqualityOperator(v, t);
      NearIsReal(Round53(v), t);
      OneOrder(v, t);
      OneOrder(Round53(v), t);
    }
  }

  /** At most one of the three relations holds. */
  lemma OneOrder(x: int, t: f64)
    ensures !(Gt(x, t) && Eq(x, t)) && !(Lt(x, t) && Eq(x, t)) && !(Gt(x, t) && Lt(x, t))
  {}

  lemma RangeOutcome(field: string, min: i64, max: i64, data: Metrics)
    ensures CheckConstraint(Range(field, min, max), data) ==
            if field !in data then Err(MissingField(field)) else Ok(Answer(Range(field, min, max), data))
  {}

  /** Metrics at 2^53 + 1 on a threshold of 2^53, and small ones, as the evaluator decides them. */
  lemma OutcomesAtTwo53(field: string)
    ensures var data: Metrics := map[field := TWO53 + 1]; var t: f64 := Finite(1, 53);
            && CheckConstraint(Threshold(field, ">", t), data) == Ok(false)
            && CheckConstraint(Threshold(field, ">=", t), data) == Ok(true)
            && CheckConstraint(Threshold(field, "<", t), data) == Ok(false)
            && CheckConstraint(Threshold(field, "<=", t), data) == Ok(true)
            && CheckConstraint(Threshold(field, "==", t), data) == Ok(true)
    ensures var data: Metrics := map[field := 0 - TWO53 - 1]; var t: f64 := Finite(-1, 53);
            && CheckConstraint(Threshold(field, "<", t), data) == Ok(false)
            && CheckConstraint(Threshold(field, ">=", t), data) == Ok(true)
            && CheckConstraint(Threshold(field, "==", t), data) == Ok(true)
  {
    StrictComparisonCanReject();
    LaxComparisonCanAccept();
    EqualityCanAccept();
    CastMovesMetric();
    PowersOfTwo();
    hide Round53, WithinEpsilon, Pow2;
    EqualityOperator(0 - TWO53 - 1, Finite(-1, 53));
  }

  /** The meaning of a verdict, whatever the operators: And and Or over the answers of the leaves. */
  lemma VerdictMeaning(c: Constraint, data: Metrics)
    requires CheckConstraint(c, data).Ok?
    ensures CheckConstraint(c, data).value == Holds(c, (leaf: Leaf) => Answer(leaf, data))
  {
    hide Answer, CheckLeaf;
    var answers := (leaf: Leaf) => Answer(leaf, data);
    forall leaf: Leaf | CheckLeaf(leaf, data).Ok?
      ensures CheckLeaf(leaf, data).value == answers(leaf)
    {
      LeafOutcome(leaf, data);
    }
    VerdictIsSound(c, data, answers);
  }

  lemma LeafOutcome(leaf: Leaf, data: Metrics)
    requires CheckLeaf(leaf, data).Ok?
    ensures CheckLeaf(leaf, data).value == Answer(leaf, data)
  {
    hide Answer;
    assert CheckConstraint(leaf, data) == CheckLeaf(leaf, data);
    match leaf
    case Range(field, min, max) => RangeOutcome(field, min, max, data);
    case Threshold(field, operator, t) => ThresholdOutcome(field, operator, t, data);
  }

  // ---- Verdicts in exact arithmetic ---------------------------------------------------------

  /** The leaf as its author reads it: no rounding, `==` meaning equal. */
  predicate ExactLeaf(leaf: Leaf, data: Metrics) {
    leaf.field in data &&
    var actual := data[leaf.field];
    match leaf
    case Range(_, min, max) => min <= actual <= max
    case Threshold(_, operator, value) =>
      || (operator == ">" && Gt(actual, value))
      || (operator == ">=" && Ge(actual, value))
      || (operator == "<" && Lt(actual, value))
      || (operator == "<=" && Le(actual, value))
      || (operator == "==" && Eq(actual, value))
  }

  /** Every threshold of the policy uses one of these operators. */
  predicate OnlyOperators(c: Constraint, operators: set<string>) {
    forall leaf | leaf in Leaves(c) && leaf.Threshold? :: leaf.operator in operators
  }

  lemma {:induction false} LeavesOfMember(cs: seq<Constraint>, k: Constraint)
    requires k in cs
    ensures forall leaf | leaf in Leaves(k) :: leaf in LeavesOf(cs)
  {
    if k != cs[0] { LeavesOfMember(cs[1..], k); }
  }

  /** And/Or meaning is monotone in the leaves. */
  lemma {:induction false} HoldsMonotone(c: Constraint, p: Leaf -> bool, q: Leaf -> bool)
    requires Holds(c, p) && forall leaf | leaf in Leaves(c) :: p(leaf) ==> q(leaf)
    ensures Holds(c, q)
    decreases c
  {
    match c
    case And(conditions) =>
      forall k | k in conditions
        ensures Holds(k, q)
      {
        LeavesOfMember(conditions, k);
        HoldsMonotone(k, p, q);
      }
    case Or(conditions) =>
      var k :| k in conditions && Holds(k, p);
      LeavesOfMember(conditions, k);
      HoldsMonotone(k, p, q);
    case _ =>
      assert c in Leaves(c);
  }

  const STRICT: set<string> := {">", "<"}
  const LAX: set<string> := {">=", "<=", "=="}

  /** A policy of ranges and strict thresholds never accepts what exact arithmetic rejects. */
  lemma StrictPolicyNeverOverAccepts(c: Constraint, data: Metrics)
    requires OnlyOperators(c, STRICT) && CheckConstraint(c, data) == Ok(true)
    ensures Holds(c, (leaf: Leaf) => ExactLeaf(leaf, data))
  {
    hide CheckConstraint, Leaves, Round53, Gt, Lt, Eq;
    VerdictMeaning(c, data);
    HoldsMonotone(c, (leaf: Leaf) => Answer(leaf, data), (leaf: Leaf) => ExactLeaf(leaf, data));
  }

  /** What equals the threshold exactly still meets it after rounding. */
  lemma EqualStaysEqual(v: i64, t: f64)
    ensures Eq(v, t) ==> Eq(Round53(v), t)
  {
    hide Round53;
    CastComparisons(v, t);
    OneOrder(Round53(v), t);
  }

  /** A policy of ranges, non-strict thresholds and `==` never rejects what exact arithmetic accepts. */
  lemma LaxPolicyNeverOverRejects(c: Constraint, data: Metrics)
    requires OnlyOperators(c, LAX) && CheckConstraint(c, data) == Ok(false)
    ensures !Holds(c, (leaf: Leaf) => ExactLeaf(leaf, data))
  {
    hide CheckConstraint, Leaves, Round53, Gt, Lt, Eq, NearReal;
    var answers, exact := (leaf: Leaf) => Answer(leaf, data), (leaf: Leaf) => ExactLeaf(leaf, data);
    VerdictMeaning(c, data);
    forall leaf | leaf in Leaves(c)
      ensures exact(leaf) ==> answers(leaf)
    {
      if leaf.Threshold? && leaf.field in data { EqualStaysEqual(data[leaf.field], leaf.value); }
    }
    if Holds(c, exact) { HoldsMonotone(c, exact, answers); }
  }

  /** A metric of -1, 0 or 1 that `==` takes for a different number, closer than 2^-52. */
  predicate NearMiss(leaf: Leaf, data: Metrics) {
    && leaf.Threshold? && leaf.operator == "==" && leaf.field in data
    && Abs(data[leaf.field]) <= 1 && NearReal(data[leaf.field], leaf.value) && !Eq(data[leaf.field], leaf.value)
  }

  /** With every metric at most 2^53 in size, a policy is decided exactly unless a leaf is a near miss. */
  lemma SmallMetricsDecidedExactly(c: Constraint, data: Metrics)
    requires CheckConstraint(c, data).Ok? && forall f :: f in data ==> Abs(data[f]) <= TWO53
    requires forall leaf | leaf in Leaves(c) :: !NearMiss(leaf, data)
    ensures CheckConstraint(c, data).value == Holds(c, (leaf: Leaf) => ExactLeaf(leaf, data))
  {
    hide CheckConstraint, Leaves, Round53, Gt, Lt, Eq, NearReal;
    var answers, exact := (leaf: Leaf) => Answer(leaf, data), (leaf: Leaf) => ExactLeaf(leaf, data);
    VerdictMeaning(c, data);
    forall leaf | leaf in Leaves(c)
      ensures answers(leaf) == exact(leaf)
    {
      if leaf.Threshold? && leaf.field in data {
        RoundExactBelowTwo53(data[leaf.field]);
        OneOrder(data[leaf.field], leaf.value);
        assert !NearMiss(leaf, data);
      }
    }
    if Holds(c, exact) {
      HoldsMonotone(c, exact, answers);
    } else if Holds(c, answers) {
      HoldsMonotone(c, answers, exact);
    }
  }
}
