/**
  Exactly when the initiator's direction of a session is safe from a given point on: when no other
  session came out of the same exchange.
 */
module PqcExactSafety {
  import opened Words
  import opened Wrappers
  import opened Octets
  import opened HybridKems
  import opened PqcSessions
  import opened PqcNetwork
  import opened PqcChannel
  import opened PqcProgress

  /** An acceptance of the exchange that `o` came out of. */
  predicate Repeats(a: Action, o: Origin) {
    a.Accept? && SameExchange(Accepted(a.owner, a.encapsulation), o)
  }

  /** The run goes on without anyone accepting that exchange again. */
  ghost predicate NoFurtherAccept(more: seq<Action>, o: Origin) {
    forall a | a in more :: !Repeats(a, o)
  }

  /** From here on, whatever happens, the initiator accepts only a prefix of what responder `j` sends. */
  ghost predicate SafeFromHere(hidden: Secrets, actions: seq<Action>, i: nat, j: nat)
    requires Paired(hidden, Exec(actions), i, j)
  {
    forall more :: IsRun(hidden, actions + more) && NoFurtherAccept(more, Exec(actions).endpoints[j].origin) ==>
      PrefixHolds(Exec(actions + more), i, j)
  }

  predicate PrefixHolds(w: World, i: nat, j: nat) {
    i < |w.endpoints| && j < |w.endpoints| && w.endpoints[i].received <= w.endpoints[j].sent
  }

  // ---- A sole acceptor stays safe ----------------------------------------------------------------

  /** Without a further acceptance, the sessions present keep their origins and no new one copies `j`. */
  lemma {:induction false} ContinuationKeepsSole(actions: seq<Action>, more: seq<Action>, j: nat)
    requires j < |Exec(actions).endpoints| && SoleAcceptor(Exec(actions), j)
    requires NoFurtherAccept(more, Exec(actions).endpoints[j].origin)
    ensures j < |Exec(actions + more).endpoints| && SoleAcceptor(Exec(actions + more), j)
    ensures Exec(actions + more).endpoints[j].origin == Exec(actions).endpoints[j].origin
  {
    hide Exec, Step, SameExchange;
    if more == [] {
      assert actions + more == actions;
    } else {
      var init, last := more[..|more| - 1], more[|more| - 1];
      assert more == init + [last];
      ContinuationKeepsSole(actions, init, j);
      assert actions + more == (actions + init) + [last];
      ExecAppend(actions + init, last);
      StepOrigins(Exec(actions + init), last);
      InitiatorsAcceptNothing(Exec(actions + more), j);
      assert !Repeats(last, Exec(actions).endpoints[j].origin);
    }
  }

  lemma InitiatorsAcceptNothing(w: World, j: nat)
    requires j < |w.endpoints|
    ensures forall k :: 0 <= k < |w.endpoints| && w.endpoints[k].origin.Established? ==>
              !SameExchange(w.endpoints[k].origin, w.endpoints[j].origin)
  {
    hide DhOf;
  }

  // ---- A second acceptor breaks it ----------------------------------------------------------------

  lemma SendGoesOut(hidden: Secrets, w: World, k: nat, m: Message)
    requires Inv(hidden, w) && k < |w.endpoints| && |w.endpoints[k].sent| < LIMIT && |m.payload| <= MAX_PLAINTEXT
    ensures var w' := Step(w, Send(k, m, 0));
            && |w'.endpoints| == |w.endpoints|
            && (forall n :: 0 <= n < |w.endpoints| && n != k ==> w'.endpoints[n] == w.endpoints[n])
            && w'.endpoints[k].origin == w.endpoints[k].origin
            && w'.endpoints[k].sent == w.endpoints[k].sent + [m]
            && w'.endpoints[k].received == w.endpoints[k].received
            && w'.endpoints[k].state.sendKey == w.endpoints[k].state.sendKey
            && w'.endpoints[k].state.recvKey == w.endpoints[k].state.recvKey
  {
    hide DirectionKey, Authentic, NonceBytes, FrameAad;
    assert EndpointOk(w.endpoints[k], w.draws);
  }

  /** A short message other than `m`. */
  function Other(m: Message): (other: Message)
    ensures other != m && other.payload == []
  {
    Message(if m.frameId == 0 then 1 else 0, [])
  }

  function Distance(a: nat, b: nat): nat {
    if a < b then b - a else a - b
  }

  /** Sends and deliveries only. */
  predicate Traffic(a: Action) {
    a.Send? || a.Deliver?
  }

  /** `i` opens what `k` seals, `j` is another session, and both counters have room. */
  ghost predicate Confusable(w: World, i: nat, j: nat, k: nat) {
    && Hears(w, k, i) && j < |w.endpoints| && j != i && j != k
    && |w.endpoints[k].sent| < LIMIT && |w.endpoints[i].received| < LIMIT
  }

  /** What the second session says at the next number so that it differs from anything `j` said there. */
  function Substitute(w: World, i: nat, j: nat): (m: Message)
    requires i < |w.endpoints| && j < |w.endpoints|
    ensures m.payload == []
  {
    var n := |w.endpoints[i].received|;
    if n < |w.endpoints[j].sent| then Other(w.endpoints[j].sent[n]) else Message(0, [])
  }

  lemma SaidSubstitute(hidden: Secrets, w: World, i: nat, j: nat, k: nat)
    requires Inv(hidden, w) && Confusable(w, i, j, k)
    requires |w.endpoints[i].received| == |w.endpoints[k].sent|
    ensures var w' := Step(w, Send(k, Substitute(w, i, j), 0));
            && Hears(w', k, i) && |w'.endpoints| == |w.endpoints|
            && w'.endpoints[i] == w.endpoints[i] && w'.endpoints[j] == w.endpoints[j]
            && |w'.endpoints[k].sent| == |w.endpoints[i].received| + 1
            && w'.endpoints[k].sent[|w.endpoints[i].received|] == Substitute(w, i, j)
  {
    hide Step, Inv, Substitute;
    SendGoesOut(hidden, w, k, Substitute(w, i, j));
  }

  lemma TakenSubstitute(hidden: Secrets, w: World, i: nat, j: nat, k: nat)
    requires Inv(hidden, w) && Hears(w, k, i) && j < |w.endpoints| && j != i
    requires |w.endpoints[k].sent| == |w.endpoints[i].received| + 1
    requires w.endpoints[k].sent[|w.endpoints[i].received|] == Substitute(w, i, j)
    ensures Permitted(hidden, w, NextFrame(w, k, i, 0)) && !PrefixHolds(Step(w, NextFrame(w, k, i, 0)), i, j)
  {
    hide Step, Inv, Permitted;
    NextFrameAccepted(hidden, w, k, i, 0);
    var w' := Step(w, NextFrame(w, k, i, 0));
    var n := |w.endpoints[i].received|;
    assert w'.endpoints[j] == w.endpoints[j];
    assert w'.endpoints[i].received[n] == Substitute(w, i, j);
  }

  /** The second session says something else at the next number, and the initiator takes it. */
  lemma SubstituteNext(hidden: Secrets, actions: seq<Action>, i: nat, j: nat, k: nat) returns (more: seq<Action>)
    requires IsRun(hidden, actions) && Confusable(Exec(actions), i, j, k)
    requires |Exec(actions).endpoints[i].received| == |Exec(actions).endpoints[k].sent|
    ensures IsRun(hidden, actions + more) && forall a | a in more :: Traffic(a)
    ensures !PrefixHolds(Exec(actions + more), i, j)
  {
    hide Step, Inv, Exec, PrefixHolds, Substitute, Other, IsRun;
    var w := Exec(actions);
    var say := Send(k, Substitute(w, i, j), 0);
    RunKeepsInv(hidden, actions);
    SaidSubstitute(hidden, w, i, j, k);
    ExecAppend(actions, say);
    RunAppend(hidden, actions, say);
    var w1 := Exec(actions + [say]);
    SameSubstitute(w, w1, i, j);
    RunKeepsInv(hidden, actions + [say]);
    TakenSubstitute(hidden, w1, i, j, k);
    var take := NextFrame(w1, k, i, 0);
    ExecAppend(actions + [say], take);
    RunAppend(hidden, actions + [say], take);
    more := [say, take];
    assert actions + more == (actions + [say]) + [take];
  }

  lemma SameSubstitute(w: World, w': World, i: nat, j: nat)
    requires i < |w.endpoints| == |w'.endpoints| && j < |w.endpoints|
    requires w.endpoints[i] == w'.endpoints[i] && w.endpoints[j] == w'.endpoints[j]
    ensures Substitute(w, i, j) == Substitute(w', i, j)
  {}

  /** With a second acceptor that has room to send, some sends and deliveries alone break the prefix. */
  lemma {:induction false} SecondAcceptorBreaks(hidden: Secrets, actions: seq<Action>, i: nat, j: nat, k: nat)
    returns (more: seq<Action>)
    requires IsRun(hidden, actions) && Confusable(Exec(actions), i, j, k)
    ensures IsRun(hidden, actions + more) && forall a | a in more :: Traffic(a)
    ensures !PrefixHolds(Exec(actions + more), i, j)
    decreases Distance(|Exec(actions).endpoints[i].received|, |Exec(actions).endpoints[k].sent|)
  {
    hide Step, Inv, Exec, PrefixHolds, IsRun, Permitted;
    var w := Exec(actions);
    if |w.endpoints[i].received| == |w.endpoints[k].sent| {
      more := SubstituteNext(hidden, actions, i, j, k);
    } else {
      RunKeepsInv(hidden, actions);
      var a;
      if |w.endpoints[i].received| < |w.endpoints[k].sent| {
        a := NextFrame(w, k, i, 0);
        NextFrameAccepted(hidden, w, k, i, 0);
      } else {
        a := Send(k, Message(0, []), 0);
        SendGoesOut(hidden, w, k, Message(0, []));
      }
      ExecAppend(actions, a);
      RunAppend(hidden, actions, a);
      var rest := SecondAcceptorBreaks(hidden, actions + [a], i, j, k);
      more := [a] + rest;
      assert actions + more == (actions + [a]) + rest;
    }
  }

  lemma TrafficAcceptsNothing(more: seq<Action>, o: Origin)
    requires forall a | a in more :: Traffic(a)
    ensures NoFurtherAccept(more, o)
  {
    hide SameExchange;
  }

  /** The counters of the initiator and of every acceptor of the exchange still have room. */
  ghost predicate HasRoom(w: World, i: nat, j: nat)
    requires i < |w.endpoints| && j < |w.endpoints|
  {
    && |w.endpoints[i].received| < LIMIT
    && forall k :: 0 <= k < |w.endpoints| && SameExchange(w.endpoints[k].origin, w.endpoints[j].origin) ==>
         |w.endpoints[k].sent| < LIMIT
  }

  /**
    At any point of any run: if the exchange is not accepted again, everything the initiator will
    ever accept is a prefix of what `j` sends if and only if `j` is its only acceptor so far.
   */
  lemma SafeIffSoleAcceptor(hidden: Secrets, actions: seq<Action>, i: nat, j: nat)
    requires IsRun(hidden, actions) && Paired(hidden, Exec(actions), i, j) && HasRoom(Exec(actions), i, j)
    ensures SafeFromHere(hidden, actions, i, j) <==> SoleAcceptor(Exec(actions), j)
  {
    hide Exec, Step, Inv, IsRun, PrefixHolds, Guarded, SameExchange, Paired;
    var w := Exec(actions);
    PairedRoles(hidden, w, i, j);
    if SoleAcceptor(w, j) {
      forall more | IsRun(hidden, actions + more) && NoFurtherAccept(more, w.endpoints[j].origin)
        ensures PrefixHolds(Exec(actions + more), i, j)
      {
        SoleStaysSafe(hidden, actions, more, i, j);
      }
    } else {
      var k :| 0 <= k < |w.endpoints| && k != j && SameExchange(w.endpoints[k].origin, w.endpoints[j].origin);
      RunKeepsInv(hidden, actions);
      PairedKeysMirror(hidden, w, i, j);
      SendKeyOwner(hidden, w, k, j);
      InitiatorsAcceptNothing(w, j);
      var more := SecondAcceptorBreaks(hidden, actions, i, j, k);
      TrafficAcceptsNothing(more, w.endpoints[j].origin);
    }
  }

  lemma SoleStaysSafe(hidden: Secrets, actions: seq<Action>, more: seq<Action>, i: nat, j: nat)
    requires Paired(hidden, Exec(actions), i, j) && SoleAcceptor(Exec(actions), j)
    requires IsRun(hidden, actions + more) && NoFurtherAccept(more, Exec(actions).endpoints[j].origin)
    ensures PrefixHolds(Exec(actions + more), i, j)
  {
    hide Exec, IsRun, Paired, SoleAcceptor, NoFurtherAccept, PrefixHolds;
    PairedRoles(hidden, Exec(actions), i, j);
    ContinuationKeepsSole(actions, more, j);
    RunGrows(actions, more);
    PairedStays(hidden, Exec(actions), Exec(actions + more), i, j);
    InitiatorAcceptsPrefix(hidden, actions + more, i, j);
    PrefixStated(Exec(actions + more), i, j);
  }

  lemma PrefixStated(w: World, i: nat, j: nat)
    requires i < |w.endpoints| && j < |w.endpoints| && w.endpoints[i].received <= w.endpoints[j].sent
    ensures PrefixHolds(w, i, j)
  {}
}
