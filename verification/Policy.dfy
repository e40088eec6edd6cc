/**
  The recursive policy evaluator: ranges and thresholds over named i64 metrics, combined by And
  and Or with short-circuiting, and failing on a missing field or an unknown operator.
 */
module Policy {
  import opened Wrappers
  import opened Words
  import opened F64
  import opened CastCompare

  datatype Constraint =
    | Range(field: string, min: i64, max: i64)
    | Threshold(field: string, operator: string, value: f64)
    | And(conditions: seq<Constraint>)
    | Or(conditions: seq<Constraint>)

  datatype ZkError =
    | PolicyNotFound(id: string)
    | MissingField(name: string)
    | InvalidOperator(op: string)
    | ConstraintViolation

  type Outcome = Result<bool, ZkError>

  type Metrics = map<string, i64>

  predicate IsLeaf(c: Constraint) {
    c.Range? || c.Threshold?
  }

  type Leaf = c: Constraint | IsLeaf(c) witness Range("", 0, 0)

  function CheckLeaf(leaf: Leaf, data: Metrics): Outcome {
    if leaf.field !in data then
      Err(MissingField(leaf.field))
    else
      var actual := data[leaf.field];
      match leaf
      case Range(_, min, max) => Ok(min <= actual <= max)
      case Threshold(_, operator, value) =>
        if operator == ">" then Ok(Gt(Round53(actual), value))
        else if operator == ">=" then Ok(Ge(Round53(actual), value))
        else if operator == "<" then Ok(Lt(Round53(actual), value))
        else if operator == "<=" then Ok(Le(Round53(actual), value))
        else if operator == "==" then Ok(WithinEpsilon(Round53(actual), value))
        else Err(InvalidOperator(operator))
  }

  function CheckConstraint(c: Constraint, data: Metrics): Outcome
    decreases c, 1
  {
    match c
    case And(conditions) => CheckAll(conditions, data)
    case Or(conditions) => CheckAny(conditions, data)
    case _ => CheckLeaf(c, data)
  }

  function CheckAll(cs: seq<Constraint>, data: Metrics): Outcome
    decreases cs, 0
  {
    if cs == [] then Ok(true)
    else
      var head := CheckConstraint(cs[0], data);
      if head == Ok(true) then CheckAll(cs[1..], data) else head
  }

  function CheckAny(cs: seq<Constraint>, data: Metrics): Outcome
    decreases cs, 0
  {
    if cs == [] then Ok(false)
    else
      var head := CheckConstraint(cs[0], data);
      if head == Ok(false) then CheckAny(cs[1..], data) else head
  }

  // ---- Order of evaluation: the constraint as a decision tree over its leaves ---------------

  /** Ask one leaf, continue left or right; no And or Or is left. */
  datatype Tree = Verdict(value: bool) | Ask(leaf: Leaf, yes: Tree, no: Tree)

  /** Where evaluation goes next when `c` comes out true (`yes`) or false (`no`). */
  function Compile(c: Constraint, yes: Tree, no: Tree): Tree
    decreases c, 1
  {
    match c
    case And(conditions) => CompileAll(conditions, yes, no)
    case Or(conditions) => CompileAny(conditions, yes, no)
    case _ => Ask(c, yes, no)
  }

  function CompileAll(cs: seq<Constraint>, yes: Tree, no: Tree): Tree
    decreases cs, 0
  {
    if cs == [] then yes else Compile(cs[0], CompileAll(cs[1..], yes, no), no)
  }

  function CompileAny(cs: seq<Constraint>, yes: Tree, no: Tree): Tree
    decreases cs, 0
  {
    if cs == [] then no else Compile(cs[0], yes, CompileAny(cs[1..], yes, no))
  }

  function TreeOf(c: Constraint): Tree {
    Compile(c, Verdict(true), Verdict(false))
  }

  function Walk(t: Tree, data: Metrics): Outcome {
    match t
    case Verdict(value) => Ok(value)
    case Ask(leaf, yes, no) =>
      var answer := CheckLeaf(leaf, data);
      if answer.Err? then answer else Walk(if answer.value then yes else no, data)
  }

  /** The leaves consulted, in order. */
  function Path(t: Tree, data: Metrics): seq<Leaf> {
    match t
    case Verdict(_) => []
    case Ask(leaf, yes, no) =>
      var answer := CheckLeaf(leaf, data);
      [leaf] + if answer.Err? then [] else Path(if answer.value then yes else no, data)
  }

  function Consulted(c: Constraint, data: Metrics): seq<Leaf> {
    Path(TreeOf(c), data)
  }

  /** What a compiled constraint does: report its error, or go on at the branch its answer picks. */
  function Continue(outcome: Outcome, yes: Tree, no: Tree, data: Metrics): Outcome {
    if outcome.Err? then outcome else Walk(if outcome.value then yes else no, data)
  }

  lemma {:induction false} CompileCorrect(c: Constraint, yes: Tree, no: Tree, data: Metrics)
    ensures Walk(Compile(c, yes, no), data) == Continue(CheckConstraint(c, data), yes, no, data)
    decreases c, 1
  {
    match c
    case And(conditions) => CompileAllCorrect(conditions, yes, no, data);
    case Or(conditions) => CompileAnyCorrect(conditions, yes, no, data);
    case _ =>
  }

  lemma {:induction false} CompileAllCorrect(cs: seq<Constraint>, yes: Tree, no: Tree, data: Metrics)
    ensures Walk(CompileAll(cs, yes, no), data) == Continue(CheckAll(cs, data), yes, no, data)
    decreases cs, 0
  {
    if cs != [] {
      CompileCorrect(cs[0], CompileAll(cs[1..], yes, no), no, data);
      CompileAllCorrect(cs[1..], yes, no, data);
    }
  }

  lemma {:induction false} CompileAnyCorrect(cs: seq<Constraint>, yes: Tree, no: Tree, data: Metrics)
    ensures Walk(CompileAny(cs, yes, no), data) == Continue(CheckAny(cs, data), yes, no, data)
    decreases cs, 0
  {
    if cs != [] {
      CompileCorrect(cs[0], yes, CompileAny(cs[1..], yes, no), data);
      CompileAnyCorrect(cs[1..], yes, no, data);
    }
  }

  /** The evaluator is the walk of the decision tree: same verdict, same error, for every input. */
  lemma EvaluatorIsWalk(c: Constraint, data: Metrics)
    ensures CheckConstraint(c, data) == Walk(TreeOf(c), data)
  {
    CompileCorrect(c, Verdict(true), Verdict(false), data);
  }

  lemma {:induction false} WalkStopsAtFirstError(t: Tree, data: Metrics)
    ensures var p := Path(t, data); var r := Walk(t, data);
            && (forall i :: 0 <= i < |p| - 1 ==> CheckLeaf(p[i], data).Ok?)
            && (r.Err? <==> p != [] && CheckLeaf(p[|p| - 1], data).Err?)
            && (r.Err? ==> r == CheckLeaf(p[|p| - 1], data))
  {
    if t.Ask? {
      var answer := CheckLeaf(t.leaf, data);
      if answer.Ok? {
        var next := if answer.value then t.yes else t.no;
        WalkStopsAtFirstError(next, data);
        assert Path(t, data) == [t.leaf] + Path(next, data);
      }
    }
  }

  /** A leaf without an answer: its field is absent, or its operator is none of the five. */
  predicate Unanswerable(leaf: Leaf, data: Metrics) {
    leaf.field !in data || (leaf.Threshold? && leaf.operator !in {">", ">=", "<", "<=", "=="})
  }

  lemma ErrsIffUnanswerable(leaf: Leaf, data: Metrics)
    ensures CheckLeaf(leaf, data).Err? <==> Unanswerable(leaf, data)
    ensures Unanswerable(leaf, data) ==>
              CheckLeaf(leaf, data) == Err(if leaf.field !in data then MissingField(leaf.field)
                                           else InvalidOperator(leaf.operator))
  {}

  /**
    An error is that of the last leaf consulted, and no earlier one is unanswerable; without an
    unanswerable leaf among those consulted there is a verdict. Which error it is follows: an
    absent field, and only with the field present an unknown operator.
   */
  lemma ErrorIsFirstConsulted(c: Constraint, data: Metrics)
    ensures var p := Consulted(c, data); var r := CheckConstraint(c, data);
            && (forall i :: 0 <= i < |p| - 1 ==> !Unanswerable(p[i], data))
            && (r.Err? <==> p != [] && Unanswerable(p[|p| - 1], data))
            && (r.Err? ==>
                  var last: Constraint := p[|p| - 1];
                  r.error == if last.field !in data then MissingField(last.field)
                             else InvalidOperator(last.operator))
  {
    hide CheckLeaf, Unanswerable;
    var p := Consulted(c, data);
    EvaluatorIsWalk(c, data);
    WalkStopsAtFirstError(TreeOf(c), data);
    forall i | 0 <= i < |p|
      ensures CheckLeaf(p[i], data).Err? <==> Unanswerable(p[i], data)
    {
      ErrsIffUnanswerable(p[i], data);
    }
    if p != [] { ErrsIffUnanswerable(p[|p| - 1], data); }
  }

  /** Two data maps give the same view of a list of leaves. */
  ghost predicate AgreeOn(leaves: seq<Leaf>, d1: Metrics, d2: Metrics) {
    forall i :: 0 <= i < |leaves| ==>
      var f := leaves[i].field;
      (f in d1 <==> f in d2) && (f in d1 ==> d1[f] == d2[f])
  }

  lemma {:induction false} WalkDependsOnPath(t: Tree, d1: Metrics, d2: Metrics)
    requires AgreeOn(Path(t, d1), d1, d2)
    ensures Walk(t, d1) == Walk(t, d2) && Path(t, d1) == Path(t, d2)
  {
    if t.Ask? {
      assert Path(t, d1)[0] == t.leaf;
      var answer := CheckLeaf(t.leaf, d1);
      if answer.Ok? {
        var next := if answer.value then t.yes else t.no;
        assert Path(t, d1)[1..] == Path(next, d1);
        forall i | 0 <= i < |Path(next, d1)|
          ensures var f := Path(next, d1)[i].field; (f in d1 <==> f in d2) && (f in d1 ==> d1[f] == d2[f])
        {
          assert Path(next, d1)[i] == Path(t, d1)[i + 1];
        }
        WalkDependsOnPath(next, d1, d2);
      }
    }
  }

  /** Leaves behind a decided And or Or are never consulted: only the consulted fields matter. */
  lemma OutcomeDependsOnConsulted(c: Constraint, d1: Metrics, d2: Metrics)
    requires AgreeOn(Consulted(c, d1), d1, d2)
    ensures CheckConstraint(c, d1) == CheckConstraint(c, d2)
    ensures Consulted(c, d1) == Consulted(c, d2)
  {
    EvaluatorIsWalk(c, d1);
    EvaluatorIsWalk(c, d2);
    WalkDependsOnPath(TreeOf(c), d1, d2);
  }

  /** Adding fields to the data never changes a verdict. */
  lemma VerdictStableUnderExtension(c: Constraint, data: Metrics, more: Metrics)
    requires CheckConstraint(c, data).Ok?
    requires forall f :: f in data ==> f in more && more[f] == data[f]
    ensures CheckConstraint(c, more) == CheckConstraint(c, data)
  {
    ErrorIsFirstConsulted(c, data);
    var p := Consulted(c, data);
    forall i | 0 <= i < |p|
      ensures p[i].field in data
    {
      assert CheckLeaf(p[i], data).Ok?;
    }
    OutcomeDependsOnConsulted(c, data, more);
  }

  // ---- Left-to-right order of the written leaves ---------------------------------------------

  /** The leaves as written, left to right. */
  function Leaves(c: Constraint): seq<Leaf>
    decreases c, 1
  {
    match c
    case And(conditions) => LeavesOf(conditions)
    case Or(conditions) => LeavesOf(conditions)
    case _ => [c]
  }

  function LeavesOf(cs: seq<Constraint>): seq<Leaf>
    decreases cs, 0
  {
    if cs == [] then [] else Leaves(cs[0]) + LeavesOf(cs[1..])
  }

  predicate Subsequence<T(==)>(a: seq<T>, b: seq<T>) {
    if a == [] then true
    else if b == [] then false
    else if a[0] == b[0] then Subsequence(a[1..], b[1..])
    else Subsequence(a, b[1..])
  }

  lemma {:induction false} SubsequenceSkips<T>(a: seq<T>, b: seq<T>, x: T)
    requires Subsequence(a, b)
    ensures Subsequence(a, [x] + b)
    decreases |a| + |b|, 1
  {
    assert ([x] + b)[1..] == b;
    if a != [] && a[0] == x {
      SubsequenceTail(a, b);
    }
  }

  lemma {:induction false} SubsequenceTail<T>(a: seq<T>, b: seq<T>)
    requires Subsequence(a, b) && a != []
    ensures Subsequence(a[1..], b)
    decreases |a| + |b|, 0
  {
    if a[0] != b[0] {
      SubsequenceTail(a, b[1..]);
    }
    SubsequenceSkips(a[1..], b[1..], b[0]);
    assert [b[0]] + b[1..] == b;
  }

  /** On every branch the tree asks leaves at increasing positions of `order`. */
  ghost predicate AsksInOrder(t: Tree, order: seq<Leaf>)
    decreases t
  {
    match t
    case Verdict(_) => true
    case Ask(leaf, yes, no) =>
      exists i :: 0 <= i < |order| && order[i] == leaf
                  && AsksInOrder(yes, order[i + 1..]) && AsksInOrder(no, order[i + 1..])
  }

  lemma {:induction false} AsksInLongerOrder(t: Tree, prefix: seq<Leaf>, order: seq<Leaf>)
    requires AsksInOrder(t, order)
    ensures AsksInOrder(t, prefix + order)
  {
    if t.Ask? {
      var i :| 0 <= i < |order| && order[i] == t.leaf
               && AsksInOrder(t.yes, order[i + 1..]) && AsksInOrder(t.no, order[i + 1..]);
      var j := |prefix| + i;
      assert (prefix + order)[j] == t.leaf;
      assert (prefix + order)[j + 1..] == order[i + 1..];
    }
  }

  lemma {:induction false} CompileAsksInOrder(c: Constraint, yes: Tree, no: Tree, rest: seq<Leaf>)
    requires AsksInOrder(yes, rest) && AsksInOrder(no, rest)
    ensures AsksInOrder(Compile(c, yes, no), Leaves(c) + rest)
    decreases c, 1
  {
    match c
    case And(conditions) => CompileGroupAsksInOrder(conditions, yes, no, rest);
    case Or(conditions) => CompileGroupAsksInOrder(conditions, yes, no, rest);
    case _ =>
      assert ([c] + rest)[1..] == rest;
      assert ([c] + rest)[0] == c;
  }

  lemma {:induction false} CompileGroupAsksInOrder(cs: seq<Constraint>, yes: Tree, no: Tree, rest: seq<Leaf>)
    requires AsksInOrder(yes, rest) && AsksInOrder(no, rest)
    ensures AsksInOrder(CompileAll(cs, yes, no), LeavesOf(cs) + rest)
    ensures AsksInOrder(CompileAny(cs, yes, no), LeavesOf(cs) + rest)
    decreases cs, 0
  {
    if cs == [] {
      assert LeavesOf(cs) + rest == rest;
    } else {
      var tail := LeavesOf(cs[1..]) + rest;
      CompileGroupAsksInOrder(cs[1..], yes, no, rest);
      AsksInLongerOrder(yes, LeavesOf(cs[1..]), rest);
      AsksInLongerOrder(no, LeavesOf(cs[1..]), rest);
      CompileAsksInOrder(cs[0], CompileAll(cs[1..], yes, no), no, tail);
      CompileAsksInOrder(cs[0], yes, CompileAny(cs[1..], yes, no), tail);
      assert Leaves(cs[0]) + tail == LeavesOf(cs) + rest;
    }
  }

  lemma {:induction false} PathIsSubsequence(t: Tree, order: seq<Leaf>, data: Metrics)
    requires AsksInOrder(t, order)
    ensures Subsequence(Path(t, data), order)
    decreases t
  {
    if t.Ask? {
      var i :| 0 <= i < |order| && order[i] == t.leaf
               && AsksInOrder(t.yes, order[i + 1..]) && AsksInOrder(t.no, order[i + 1..]);
      PathIsSubsequence(t.yes, order[i + 1..], data);
      PathIsSubsequence(t.no, order[i + 1..], data);
      var p := Path(t, data);
      assert Subsequence(p[1..], order[i + 1..]);
      assert order[i..][1..] == order[i + 1..];
      assert Subsequence(p, order[i..]);
      SubsequenceDrop(p, order, i);
    }
  }

  lemma {:induction false} SubsequenceDrop<T>(a: seq<T>, b: seq<T>, i: nat)
    requires i <= |b| && Subsequence(a, b[i..])
    ensures Subsequence(a, b)
    decreases i
  {
    if i == 0 {
      assert b[0..] == b;
    } else {
      SubsequenceSkips(a, b[i..], b[i - 1]);
      assert [b[i - 1]] + b[i..] == b[i - 1..];
      SubsequenceDrop(a, b, i - 1);
    }
  }

  /** Leaves are consulted left to right, each at most once per occurrence. */
  lemma ConsultedLeftToRight(c: Constraint, data: Metrics)
    ensures Subsequence(Consulted(c, data), Leaves(c))
  {
    CompileAsksInOrder(c, Verdict(true), Verdict(false), []);
    assert Leaves(c) + [] == Leaves(c);
    PathIsSubsequence(TreeOf(c), Leaves(c), data);
  }

  // ---- Soundness ---------------------------------------------------------------------------

  /** Ordinary two-valued meaning, given the truth of each leaf. */
  ghost predicate Holds(c: Constraint, truth: Leaf -> bool)
    decreases c
  {
    match c
    case And(conditions) => forall k | k in conditions :: Holds(k, truth)
    case Or(conditions) => exists k | k in conditions :: Holds(k, truth)
    case _ => truth(c)
  }

  /** `truth` follows every leaf that evaluates; leaves that err may be either. */
  ghost predicate Respects(truth: Leaf -> bool, data: Metrics) {
    forall leaf: Leaf :: CheckLeaf(leaf, data).Ok? ==> CheckLeaf(leaf, data).value == truth(leaf)
  }

  /**
    A verdict is the two-valued meaning under every reading of the leaves that cannot be
    evaluated; no well-formedness of policy or data is assumed.
   */
  lemma {:induction false} VerdictIsSound(c: Constraint, data: Metrics, truth: Leaf -> bool)
    requires Respects(truth, data) && CheckConstraint(c, data).Ok?
    ensures CheckConstraint(c, data).value == Holds(c, truth)
    decreases c, 1
  {
    match c
    case And(conditions) => AllIsSound(conditions, data, truth);
    case Or(conditions) => AnyIsSound(conditions, data, truth);
    case _ =>
  }

  lemma {:induction false} AllIsSound(cs: seq<Constraint>, data: Metrics, truth: Leaf -> bool)
    requires Respects(truth, data) && CheckAll(cs, data).Ok?
    ensures CheckAll(cs, data).value == forall k | k in cs :: Holds(k, truth)
    decreases cs, 0
  {
    if cs != [] {
      VerdictIsSound(cs[0], data, truth);
      if CheckConstraint(cs[0], data).value {
        AllIsSound(cs[1..], data, truth);
        assert forall k :: k in cs <==> k == cs[0] || k in cs[1..];
      }
    }
  }

  lemma {:induction false} AnyIsSound(cs: seq<Constraint>, data: Metrics, truth: Leaf -> bool)
    requires Respects(truth, data) && CheckAny(cs, data).Ok?
    ensures CheckAny(cs, data).value == exists k | k in cs :: Holds(k, truth)
    decreases cs, 0
  {
    if cs != [] {
      VerdictIsSound(cs[0], data, truth);
      if !CheckConstraint(cs[0], data).value {
        AnyIsSound(cs[1..], data, truth);
        assert forall k :: k in cs <==> k == cs[0] || k in cs[1..];
      }
    }
  }
}
