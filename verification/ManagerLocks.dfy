/**
  The transport manager's locking, step by step: one mutex around the session list, one around
  each session. Any number of threads run any mix of calls; each call is a sequence of lock
  acquisitions and releases, and a thread wanting a held lock waits.
 */
module ManagerLocks {

  datatype Lock = ListLock | SessionLock(session: nat)

  /** Where a thread stands in its call. */
  datatype Phase =
    | Idle
    | OpenStart(session: nat)   // establish or accept: about to lock the list
    | OpenPushing(session: nat) // list locked, about to push and unlock
    | OpenLogging(session: nat) // about to lock the new session to log its id
    | OpenLogged(session: nat)  // session locked, about to unlock
    | FrameStart(session: nat)  // encrypt_frame or decrypt_frame: about to lock the session
    | FrameBusy(session: nat)   // session locked, about to unlock
    | SweepStart                // cleanup_expired: about to lock the list
    | Sweep(todo: seq<nat>)     // list locked, about to lock the next session or finish
    | Sweeping(todo: seq<nat>)  // list and first session locked, about to unlock the session
    | CountStart                // session_count: about to lock the list
    | Counting                  // list locked, about to unlock

  /** All threads, the sessions in the list, and whether opening a session logs its id. */
  datatype State = State(threads: seq<Phase>, sessions: seq<nat>, logging: bool)

  function Holds(p: Phase): set<Lock> {
    match p
    case OpenPushing(_) => {ListLock}
    case OpenLogged(s) => {SessionLock(s)}
    case FrameBusy(s) => {SessionLock(s)}
    case Sweep(_) => {ListLock}
    case Sweeping(todo) => if todo == [] then {ListLock} else {ListLock, SessionLock(todo[0])}
    case Counting => {ListLock}
    case _ => {}
  }

  /** The lock the thread's next step acquires, if any. */
  function Wants(p: Phase): set<Lock> {
    match p
    case OpenStart(_) => {ListLock}
    case OpenLogging(s) => {SessionLock(s)}
    case FrameStart(s) => {SessionLock(s)}
    case SweepStart => {ListLock}
    case Sweep(todo) => if todo == [] then {} else {SessionLock(todo[0])}
    case CountStart => {ListLock}
    case _ => {}
  }

  predicate Free(st: State, l: Lock) {
    forall u :: 0 <= u < |st.threads| ==> l !in Holds(st.threads[u])
  }

  /** Thread `t` has a step to take, and the lock it needs is free. */
  predicate CanStep(st: State, t: nat) {
    t < |st.threads| && !st.threads[t].Idle? && forall l | l in Wants(st.threads[t]) :: Free(st, l)
  }

  /** What comes after `p`; `sessions` is the list as seen at that moment. */
  function After(p: Phase, sessions: seq<nat>, logging: bool): Phase {
    match p
    case Idle => Idle
    case OpenStart(s) => OpenPushing(s)
    case OpenPushing(s) => if logging then OpenLogging(s) else Idle
    case OpenLogging(s) => OpenLogged(s)
    case OpenLogged(_) => Idle
    case FrameStart(s) => FrameBusy(s)
    case FrameBusy(_) => Idle
    case SweepStart => Sweep(sessions)
    case Sweep(todo) => if todo == [] then Idle else Sweeping(todo)
    case Sweeping(todo) => if todo == [] then Idle else Sweep(todo[1..])
    case CountStart => Counting
    case Counting => Idle
  }

  /** The members of `sessions` in `keep`, in order. */
  function KeepOnly(sessions: seq<nat>, keep: set<nat>): (kept: seq<nat>)
    ensures |kept| <= |sessions|
  {
    if sessions == [] then []
    else (if sessions[0] in keep then [sessions[0]] else []) + KeepOnly(sessions[1..], keep)
  }

  /** The list after the step: a push when an opening leaves it, only some sessions when a sweep ends. */
  ghost predicate ListAfter(p: Phase, before: seq<nat>, after: seq<nat>) {
    match p
    case OpenPushing(s) => after == before + [s]
    case Sweep(todo) => if todo == [] then exists keep :: after == KeepOnly(before, keep) else after == before
    case _ => after == before
  }

  ghost predicate Step(st: State, st': State, t: nat) {
    && CanStep(st, t)
    && st'.threads == st.threads[t := After(st.threads[t], st.sessions, st.logging)]
    && st'.logging == st.logging
    && ListAfter(st.threads[t], st.sessions, st'.sessions)
  }

  /** An idle thread begins a call. */
  predicate IsStart(p: Phase) {
    p.OpenStart? || p.FrameStart? || p.SweepStart? || p.CountStart?
  }

  ghost predicate Begin(st: State, st': State, t: nat) {
    && t < |st.threads| && st.threads[t].Idle?
    && exists p :: IsStart(p) && st' == st.(threads := st.threads[t := p])
  }

  predicate AllIdle(st: State) {
    forall t :: 0 <= t < |st.threads| ==> st.threads[t].Idle?
  }

  // ---- Mutual exclusion ------------------------------------------------------------------------

  /** No lock is held by two threads. */
  ghost predicate Exclusive(st: State) {
    forall t, u, l :: 0 <= t < u < |st.threads| && l in Holds(st.threads[t]) ==> l !in Holds(st.threads[u])
  }

  predicate InSweep(p: Phase) {
    p.Sweep? || p.Sweeping?
  }

  /**
    What a sweep has left to visit is the rest of the very list it will prune: nothing is pushed
    or dropped behind its back.
   */
  predicate Sane(st: State) {
    forall t :: 0 <= t < |st.threads| && InSweep(st.threads[t]) ==>
      var todo := st.threads[t].todo;
      && (st.threads[t].Sweeping? ==> todo != [])
      && |todo| <= |st.sessions| && todo == st.sessions[|st.sessions| - |todo|..]
  }

  lemma HoldsAfter(p: Phase, sessions: seq<nat>, logging: bool)
    ensures Holds(After(p, sessions, logging)) <= Holds(p) + Wants(p)
  {}

  lemma StepKeepsExclusive(st: State, st': State, t: nat)
    requires Exclusive(st) && Sane(st) && Step(st, st', t)
    ensures Exclusive(st') && Sane(st')
  {
    HoldsAfter(st.threads[t], st.sessions, st.logging);
    forall u, v, l | 0 <= u < v < |st'.threads| && l in Holds(st'.threads[u])
      ensures l !in Holds(st'.threads[v])
    {
      if l in Wants(st.threads[t]) { assert Free(st, l); }
    }
    forall u | 0 <= u < |st'.threads| && InSweep(st'.threads[u])
      ensures var todo := st'.threads[u].todo;
              && (st'.threads[u].Sweeping? ==> todo != [])
              && |todo| <= |st'.sessions| && todo == st'.sessions[|st'.sessions| - |todo|..]
    {
      if u != t {
        assert ListLock in Holds(st.threads[u]);
        OnlyListHolderChangesList(st, st', t, u);
      }
    }
  }

  /** While one thread holds the list lock, a step of another leaves the list alone. */
  lemma OnlyListHolderChangesList(st: State, st': State, t: nat, u: nat)
    requires Exclusive(st) && Step(st, st', t) && u < |st.threads| && u != t
    requires ListLock in Holds(st.threads[u])
    ensures st'.sessions == st.sessions
  {
    assert ListLock !in Holds(st.threads[t]);
  }

  lemma BeginKeepsExclusive(st: State, st': State, t: nat)
    requires Exclusive(st) && Sane(st) && Begin(st, st', t)
    ensures Exclusive(st') && Sane(st')
  {}

  ghost predicate Reachable(trace: seq<State>) {
    && trace != []
    && AllIdle(trace[0]) && trace[0].sessions == []
    && forall i :: 0 <= i < |trace| - 1 ==> Next(trace[i], trace[i + 1])
  }

  ghost predicate Next(st: State, st': State) {
    exists t :: Step(st, st', t) || Begin(st, st', t)
  }

  /** Over every run, at most one thread holds any lock, and a sweep examines exactly the list it prunes. */
  lemma {:induction false} MutualExclusion(trace: seq<State>, i: nat)
    requires Reachable(trace) && i < |trace|
    ensures Exclusive(trace[i]) && Sane(trace[i])
  {
    if i > 0 {
      MutualExclusion(trace, i - 1);
      assert Next(trace[i - 1], trace[i - 1 + 1]);
      var t :| Step(trace[i - 1], trace[i], t) || Begin(trace[i - 1], trace[i], t);
      if Step(trace[i - 1], trace[i], t) {
        StepKeepsExclusive(trace[i - 1], trace[i], t);
      } else {
        BeginKeepsExclusive(trace[i - 1], trace[i], t);
      }
    }
  }

  /** Inside the session: encrypting or decrypting on it, reading its id, or checking whether it expired. */
  predicate InSession(p: Phase, s: nat) {
    p == FrameBusy(s) || p == OpenLogged(s) || (p.Sweeping? && p.todo != [] && p.todo[0] == s)
  }

  /** Inside the list: pushing onto it, pruning it, or counting it. */
  predicate InList(p: Phase) {
    p.OpenPushing? || p.Sweep? || p.Sweeping? || p.Counting?
  }

  /** Over every run, no two threads are inside the same session, and no two inside the list. */
  lemma CriticalSections(trace: seq<State>, i: nat, t: nat, u: nat)
    requires Reachable(trace) && i < |trace| && t < u < |trace[i].threads|
    ensures forall s :: !(InSession(trace[i].threads[t], s) && InSession(trace[i].threads[u], s))
    ensures !(InList(trace[i].threads[t]) && InList(trace[i].threads[u]))
  {
    MutualExclusion(trace, i);
    var p, q := trace[i].threads[t], trace[i].threads[u];
    assert forall s: nat :: InSession(p, s) ==> SessionLock(s) in Holds(p);
    assert forall s: nat :: InSession(q, s) ==> SessionLock(s) in Holds(q);
    assert InList(p) ==> ListLock in Holds(p);
  }

  // ---- What is listed ----------------------------------------------------------------------------

  /** Thread `t` leaves the push of session `s` in the step from position `i`. */
  ghost predicate PushedAt(trace: seq<State>, i: nat, t: nat, s: nat) {
    && i + 1 < |trace| && t < |trace[i].threads| && t < |trace[i + 1].threads|
    && trace[i].threads[t] == OpenPushing(s) && trace[i + 1].threads[t] != OpenPushing(s)
  }

  /** Some cleanup finishes in the step from position `i`. */
  ghost predicate SweptAt(trace: seq<State>, i: nat) {
    && i + 1 < |trace| && |trace[i + 1].threads| == |trace[i].threads|
    && exists t :: 0 <= t < |trace[i].threads| && trace[i].threads[t].Sweep? && trace[i + 1].threads[t].Idle?
  }

  lemma {:induction false} KeepOnlyKeeps(sessions: seq<nat>, keep: set<nat>, s: nat)
    ensures s in KeepOnly(sessions, keep) <==> s in sessions && s in keep
  {
    if sessions != [] { KeepOnlyKeeps(sessions[1..], keep, s); }
  }

  /** One step: what is pushed joins the list, nothing else does, and only a finished cleanup removes. */
  lemma NextListed(st: State, st': State, s: nat)
    requires Next(st, st')
    ensures |st'.threads| == |st.threads|
    ensures (exists t :: 0 <= t < |st.threads| && st.threads[t] == OpenPushing(s) && st'.threads[t] != OpenPushing(s))
            ==> s in st'.sessions
    ensures s in st'.sessions && s !in st.sessions ==>
              exists t :: 0 <= t < |st.threads| && st.threads[t] == OpenPushing(s) && st'.threads[t] != OpenPushing(s)
    ensures s in st.sessions && s !in st'.sessions ==>
              exists t :: 0 <= t < |st.threads| && st.threads[t].Sweep? && st'.threads[t].Idle?
  {
    var t: nat :| Step(st, st', t) || Begin(st, st', t);
    if Step(st, st', t) {
      var p, p' := st.threads[t], st'.threads[t];
      if p == Sweep([]) {
        var keep :| st'.sessions == KeepOnly(st.sessions, keep);
        KeepOnlyKeeps(st.sessions, keep, s);
        assert p'.Idle?;
      } else if p.OpenPushing? {
        assert st'.sessions == st.sessions + [p.session];
        assert p' != p;
      }
    }
  }

  /** A session that was opened stays listed until some cleanup finishes. */
  lemma {:induction false} OpenedStaysListed(trace: seq<State>, i: nat, t: nat, s: nat, k: nat)
    requires Reachable(trace) && PushedAt(trace, i, t, s) && i < k < |trace|
    requires forall j: nat :: i < j < k ==> !SweptAt(trace, j)
    ensures s in trace[k].sessions
    decreases k
  {
    assert Next(trace[k - 1], trace[k - 1 + 1]);
    NextListed(trace[k - 1], trace[k], s);
    if i < k - 1 {
      OpenedStaysListed(trace, i, t, s, k - 1);
      assert !SweptAt(trace, k - 1);
    }
  }

  /** Whatever is listed was opened before. */
  lemma {:induction false} ListedWasOpened(trace: seq<State>, k: nat, s: nat) returns (i: nat, t: nat)
    requires Reachable(trace) && k < |trace| && s in trace[k].sessions
    ensures i < k && PushedAt(trace, i, t, s)
    decreases k
  {
    assert Next(trace[k - 1], trace[k - 1 + 1]);
    NextListed(trace[k - 1], trace[k], s);
    if s in trace[k - 1].sessions {
      i, t := ListedWasOpened(trace, k - 1, s);
    } else {
      i := k - 1;
      var u :| 0 <= u < |trace[i].threads| && trace[i].threads[u] == OpenPushing(s)
               && trace[k].threads[u] != OpenPushing(s);
      t := u;
    }
  }

  // ---- What each call does with the locks ------------------------------------------------------

  datatype LockOp = Acquire(lock: Lock) | Release(lock: Lock)

  /** Lock and unlock each session in turn. */
  function Visits(todo: seq<nat>): seq<LockOp> {
    if todo == [] then [] else Around(SessionLock(todo[0])) + Visits(todo[1..])
  }

  function Around(l: Lock): seq<LockOp> {
    [Acquire(l), Release(l)]
  }

  /** The lock operations a call has still to make, in order. */
  function Program(p: Phase, sessions: seq<nat>, logging: bool): seq<LockOp> {
    match p
    case Idle => []
    case OpenStart(s) => Around(ListLock) + if logging then Around(SessionLock(s)) else []
    case OpenPushing(s) => [Release(ListLock)] + if logging then Around(SessionLock(s)) else []
    case OpenLogging(s) => Around(SessionLock(s))
    case OpenLogged(s) => [Release(SessionLock(s))]
    case FrameStart(s) => Around(SessionLock(s))
    case FrameBusy(s) => [Release(SessionLock(s))]
    case SweepStart => [Acquire(ListLock)] + Visits(sessions) + [Release(ListLock)]
    case Sweep(todo) => Visits(todo) + [Release(ListLock)]
    case Sweeping(todo) =>
      (if todo == [] then [] else [Release(SessionLock(todo[0]))] + Visits(todo[1..])) + [Release(ListLock)]
    case CountStart => Around(ListLock)
    case Counting => [Release(ListLock)]
  }

  /** Going from `p` to `p'` makes exactly this lock operation. */
  predicate Performs(p: Phase, p': Phase, op: LockOp) {
    match op
    case Acquire(l) => l !in Holds(p) && Holds(p') == Holds(p) + {l}
    case Release(l) => l in Holds(p) && Holds(p') == Holds(p) - {l}
  }

  lemma PhasePerforms(p: Phase, sessions: seq<nat>, logging: bool)
    requires !p.Idle? && (p.Sweeping? ==> p.todo != [])
    ensures Program(p, sessions, logging) != []
    ensures Performs(p, After(p, sessions, logging), Program(p, sessions, logging)[0])
  {
    hide Visits;
    if p.Sweep? && p.todo != [] {
      VisitsNext(p.todo);
      assert Program(p, sessions, logging)[0] == Acquire(SessionLock(p.todo[0]));
    } else if p.Sweep? {
      VisitsNothing();
    }
  }

  lemma VisitsNext(todo: seq<nat>)
    requires todo != []
    ensures Visits(todo) == [Acquire(SessionLock(todo[0])), Release(SessionLock(todo[0]))] + Visits(todo[1..])
  {}

  lemma VisitsNothing()
    ensures Visits([]) == []
  {}

  lemma PhaseLeaves(p: Phase, sessions: seq<nat>, logging: bool, sessions': seq<nat>)
    requires !p.Idle? && (p.Sweeping? ==> p.todo != []) && Program(p, sessions, logging) != []
    ensures Program(After(p, sessions, logging), sessions', logging) == Program(p, sessions, logging)[1..]
  {
    hide Visits;
    VisitsNothing();
    match p
    case Sweep(todo) =>
      if todo != [] {
        VisitsNext(todo);
        assert Program(p, sessions, logging)[1..]
            == [Release(SessionLock(todo[0]))] + Visits(todo[1..]) + [Release(ListLock)];
      }
    case Sweeping(todo) =>
      assert Program(p, sessions, logging)[1..] == Visits(todo[1..]) + [Release(ListLock)];
    case SweepStart =>
      assert Program(p, sessions, logging)[1..] == Visits(sessions) + [Release(ListLock)];
    case _ =>
  }

  /** Every step performs the next lock operation of its call and leaves the rest of them to do. */
  lemma StepFollowsProgram(st: State, st': State, t: nat)
    requires Sane(st) && Step(st, st', t)
    ensures var p, p' := st.threads[t], st'.threads[t];
            var program := Program(p, st.sessions, st.logging);
            && program != [] && Performs(p, p', program[0])
            && Program(p', st'.sessions, st'.logging) == program[1..]
  {
    hide Program, Performs, After;
    PhasePerforms(st.threads[t], st.sessions, st.logging);
    PhaseLeaves(st.threads[t], st.sessions, st.logging, st'.sessions);
  }

  // ---- Deadlock freedom ------------------------------------------------------------------------

  /** Whoever holds a session lock needs no further lock to move on. */
  lemma SessionHolderCanStep(st: State, u: nat, s: nat)
    requires u < |st.threads| && SessionLock(s) in Holds(st.threads[u])
    ensures CanStep(st, u)
  {}

  /** Locks nest only list-then-session, so some unfinished thread can always move. */
  lemma DeadlockFree(st: State) returns (t: nat)
    requires !AllIdle(st)
    ensures CanStep(st, t)
  {
    var busy :| 0 <= busy < |st.threads| && !st.threads[busy].Idle?;
    if h, s: nat :| 0 <= h < |st.threads| && SessionLock(s) in Holds(st.threads[h]) {
      SessionHolderCanStep(st, h, s);
      t := h;
    } else if h :| 0 <= h < |st.threads| && ListLock in Holds(st.threads[h]) {
      t := h;
      assert forall l | l in Wants(st.threads[h]) :: l.SessionLock?;
    } else {
      t := busy;
      forall l | l in Wants(st.threads[busy])
        ensures Free(st, l)
      {
        if l.SessionLock? { assert l == SessionLock(l.session); }
      }
    }
  }

  // ---- Every call finishes -----------------------------------------------------------------------

  /** How many sessions may still join the list. */
  function Pending(threads: seq<Phase>): nat {
    if threads == [] then 0
    else Pending(threads[1..]) + if threads[0].OpenStart? || threads[0].OpenPushing? then 1 else 0
  }

  /** Steps a call may still take when at most `n` sessions can ever be listed. */
  function Weight(p: Phase, n: nat): nat {
    match p
    case Idle => 0
    case OpenStart(_) => 4
    case OpenPushing(_) => 3
    case OpenLogging(_) => 2
    case OpenLogged(_) => 1
    case FrameStart(_) => 2
    case FrameBusy(_) => 1
    case SweepStart => 2 * n + 2
    case Sweep(todo) => 2 * |todo| + 1
    case Sweeping(todo) => 2 * |todo|
    case CountStart => 2
    case Counting => 1
  }

  function TotalWeight(threads: seq<Phase>, n: nat): nat {
    if threads == [] then 0 else Weight(threads[0], n) + TotalWeight(threads[1..], n)
  }

  function Work(st: State): nat {
    TotalWeight(st.threads, |st.sessions| + Pending(st.threads))
  }

  lemma {:induction false} PendingUpdate(threads: seq<Phase>, t: nat, p: Phase)
    requires t < |threads|
    ensures Pending(threads[t := p]) + (if threads[t].OpenStart? || threads[t].OpenPushing? then 1 else 0)
            == Pending(threads) + (if p.OpenStart? || p.OpenPushing? then 1 else 0)
  {
    if t == 0 {
      assert threads[0 := p][1..] == threads[1..];
    } else {
      assert threads[t := p][1..] == threads[1..][t - 1 := p];
      PendingUpdate(threads[1..], t - 1, p);
    }
  }

  lemma {:induction false} TotalUpdate(threads: seq<Phase>, t: nat, p: Phase, n: nat)
    requires t < |threads|
    ensures TotalWeight(threads[t := p], n) + Weight(threads[t], n) == TotalWeight(threads, n) + Weight(p, n)
  {
    if t == 0 {
      assert threads[0 := p][1..] == threads[1..];
    } else {
      assert threads[t := p][1..] == threads[1..][t - 1 := p];
      TotalUpdate(threads[1..], t - 1, p, n);
    }
  }

  lemma {:induction false} TotalMonotone(threads: seq<Phase>, m: nat, n: nat)
    requires m <= n
    ensures TotalWeight(threads, m) <= TotalWeight(threads, n)
  {
    if threads != [] { TotalMonotone(threads[1..], m, n); }
  }

  /** Every step of a call uses up work, whichever thread is scheduled. */
  lemma StepDecreasesWork(st: State, st': State, t: nat)
    requires Sane(st) && Step(st, st', t)
    ensures Work(st') < Work(st)
  {
    hide Pending, TotalWeight;
    var p := st.threads[t];
    var p' := After(p, st.sessions, st.logging);
    var n, n' := |st.sessions| + Pending(st.threads), |st'.sessions| + Pending(st'.threads);
    PendingUpdate(st.threads, t, p');
    assert n' <= n;
    TotalUpdate(st.threads, t, p', n);
    TotalMonotone(st'.threads, n', n);
    assert Weight(p', n) < Weight(p, n);
  }

  /** Some thread has a step to take. */
  ghost predicate CanGoOn(st: State) {
    exists t: nat :: CanStep(st, t)
  }

  /** The calls under way, scheduled in any order, without new ones beginning. */
  ghost predicate Schedule(run: seq<State>) {
    run != [] && forall i :: 0 <= i < |run| - 1 ==> SomeStep(run[i], run[i + 1])
  }

  ghost predicate SomeStep(st: State, st': State) {
    exists t :: Step(st, st', t)
  }

  lemma {:induction false} ScheduleBound(run: seq<State>, i: nat)
    requires Schedule(run) && Exclusive(run[0]) && Sane(run[0]) && i < |run|
    ensures Exclusive(run[i]) && Sane(run[i]) && Work(run[i]) + i <= Work(run[0])
  {
    if i > 0 {
      ScheduleBound(run, i - 1);
      assert SomeStep(run[i - 1], run[i - 1 + 1]);
      var t :| Step(run[i - 1], run[i], t);
      StepKeepsExclusive(run[i - 1], run[i], t);
      StepDecreasesWork(run[i - 1], run[i], t);
    }
  }

  /**
    Every schedule of the calls under way is finite, and one that cannot be extended has finished
    every call: no thread is left waiting.
   */
  lemma AllCallsFinish(run: seq<State>)
    requires Schedule(run) && Exclusive(run[0]) && Sane(run[0])
    ensures |run| <= Work(run[0]) + 1
    ensures AllIdle(run[|run| - 1]) || CanGoOn(run[|run| - 1])
  {
    ScheduleBound(run, |run| - 1);
    if !AllIdle(run[|run| - 1]) {
      var t := DeadlockFree(run[|run| - 1]);
    }
  }
}
