/** When a session was last active, read off the run, and which sessions a cleanup therefore keeps. */
module PqcActivity {
  import opened Words
  import opened Wrappers
  import opened Octets
  import opened HybridKems
  import opened PqcSessions
  import opened PqcManagers
  import opened PqcNetwork
  import opened PqcProgress
  import opened PqcReplay

  /** The step opens session `k`, or something is sent or accepted on it. */
  predicate Touches(w: World, w': World, k: nat) {
    && k < |w'.endpoints|
    && (|| k >= |w.endpoints|
        || w'.endpoints[k].sent != w.endpoints[k].sent
        || w'.endpoints[k].received != w.endpoints[k].received)
  }

  /** Step number `a` of the run opens session `k` or uses it successfully. */
  ghost predicate Uses(actions: seq<Action>, a: nat, k: nat) {
    a < |actions| && Touches(Exec(actions[..a]), Exec(actions[..a + 1]), k)
  }

  ghost predicate LastUse(actions: seq<Action>, a: nat, k: nat) {
    Uses(actions, a, k) && forall b: nat :: a < b ==> !Uses(actions, b, k)
  }

  lemma StepActivity(w: World, a: Action, k: nat)
    requires k < |Step(w, a).endpoints|
    ensures Touches(w, Step(w, a), k) ==> Step(w, a).endpoints[k].state.lastActivity == a.now
    ensures !Touches(w, Step(w, a), k) ==>
              k < |w.endpoints| && Step(w, a).endpoints[k].state.lastActivity == w.endpoints[k].state.lastActivity
  {
    hide DirectionKey, NonceBytes, FrameAad;
  }

  lemma UsesInPrefix(init: seq<Action>, last: Action, a: nat, k: nat)
    requires a < |init|
    ensures Uses(init + [last], a, k) == Uses(init, a, k)
  {
    var actions := init + [last];
    assert actions[..a] == init[..a] && actions[..a + 1] == init[..a + 1];
  }

  lemma UsesAtEnd(init: seq<Action>, last: Action, k: nat)
    ensures Uses(init + [last], |init|, k) == Touches(Exec(init), Step(Exec(init), last), k)
  {
    hide Exec, Step, Touches;
    var actions := init + [last];
    ExecAppend(init, last);
    assert actions[..|init|] == init && actions[..|init| + 1] == actions;
  }

  /** In every run the recorded time of every session is that of the step that opened or last used it. */
  lemma {:induction false} ActivityIsLastUse(actions: seq<Action>, k: nat) returns (a: nat)
    requires k < |Exec(actions).endpoints|
    ensures LastUse(actions, a, k)
    ensures Exec(actions).endpoints[k].state.lastActivity == actions[a].now
  {
    hide Step, Touches, Uses;
    var init, last := actions[..|actions| - 1], actions[|actions| - 1];
    assert actions == init + [last];
    StepActivity(Exec(init), last, k);
    UsesAtEnd(init, last, k);
    if Uses(actions, |init|, k) {
      a := |init|;
    } else {
      a := ActivityIsLastUse(init, k);
      assert Uses(init, a, k);
      UsesWithin(init, a, k);
      UsesInPrefix(init, last, a, k);
    }
    forall b: nat | a < b
      ensures !Uses(actions, b, k)
    {
      if Uses(actions, b, k) { UsesWithin(actions, b, k); }
      if b < |init| { UsesInPrefix(init, last, b, k); }
    }
  }

  lemma UsesWithin(actions: seq<Action>, a: nat, k: nat)
    requires Uses(actions, a, k)
    ensures a < |actions|
  {}

  /** A cleanup keeps a session exactly if the step that opened or last used it lies within the timeout. */
  lemma CleanupKeepsUsed(sessions: seq<PqcSession>, sent: seq<seq<Message>>, received: seq<seq<Message>>,
                         actions: seq<Action>, k: nat, now: nat, timeout: nat) returns (a: nat)
    requires Mirrors(sessions, sent, received, Exec(actions)) && k < |sessions|
    ensures LastUse(actions, a, k)
    ensures sessions[k] in Retained(sessions, now, timeout) <==> now <= actions[a].now + timeout
  {
    hide Exec, Retained, LastUse;
    a := ActivityIsLastUse(actions, k);
    assert sessions[k].State().lastActivity == sessions[k].lastActivity;
    KeptIffActive(sessions, sessions[k], now, timeout);
  }

  /** The clock does not run backwards over the run. */
  predicate ClockRuns(actions: seq<Action>) {
    forall a, b :: 0 <= a < b < |actions| ==> actions[a].now <= actions[b].now
  }

  /** With such a clock: exactly if some use of it, or its opening, lies within the timeout. */
  lemma CleanupKeepsRecent(sessions: seq<PqcSession>, sent: seq<seq<Message>>, received: seq<seq<Message>>,
                           actions: seq<Action>, k: nat, now: nat, timeout: nat)
    requires Mirrors(sessions, sent, received, Exec(actions)) && k < |sessions| && ClockRuns(actions)
    ensures sessions[k] in Retained(sessions, now, timeout) <==>
            exists a: nat :: Uses(actions, a, k) && now <= actions[a].now + timeout
  {
    hide Exec, Retained, Mirrors, Uses;
    var last := CleanupKeepsUsed(sessions, sent, received, actions, k, now, timeout);
    UsesWithin(actions, last, k);
    forall a: nat | Uses(actions, a, k)
      ensures a < |actions| && actions[a].now <= actions[last].now
    {
      UsesWithin(actions, a, k);
    }
  }
}
