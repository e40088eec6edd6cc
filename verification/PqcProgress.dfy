/** Progress of the channel under attack, what a missing frame blocks, and what a replayed encapsulation breaks. */
module PqcProgress {
  import opened Words
  import opened Wrappers
  import opened Octets
  import opened HybridKems
  import opened PqcSessions
  import opened PqcNetwork
  import opened PqcChannel

  lemma ExecAppend(actions: seq<Action>, a: Action)
    ensures Exec(actions + [a]) == Step(Exec(actions), a)
  {
    assert (actions + [a])[..|actions|] == actions;
  }

  lemma RunAppend(hidden: Secrets, actions: seq<Action>, a: Action)
    requires IsRun(hidden, actions) && Permitted(hidden, Exec(actions), a)
    ensures IsRun(hidden, actions + [a])
  {
    assert (actions + [a])[..|actions|] == actions;
  }

  // ---- Catching up -----------------------------------------------------------------------------

  /** `r` opens with the key `s` seals under. */
  ghost predicate Hears(w: World, s: nat, r: nat) {
    && s < |w.endpoints| && r < |w.endpoints| && s != r
    && w.endpoints[s].state.sendKey == w.endpoints[r].state.recvKey
  }

  /** `r` opens with the key `s` seals under, and has accepted a prefix of what `s` sent. */
  ghost predicate Follows(w: World, s: nat, r: nat) {
    Hears(w, s, r) && w.endpoints[r].received <= w.endpoints[s].sent
  }

  /** The frame `r` lacks next, as `s` sent it. */
  function NextFrame(w: World, s: nat, r: nat, now: u64): Action
    requires s < |w.endpoints| && r < |w.endpoints|
    requires |w.endpoints[r].received| < |w.endpoints[s].sent|
  {
    var k := |w.endpoints[r].received|;
    Deliver(r, EncryptedFrame(w.endpoints[s].sent[k].frameId, SealedFrame(w.endpoints[s], k)), now)
  }

  lemma NextFrameAccepted(hidden: Secrets, w: World, s: nat, r: nat, now: u64)
    requires Inv(hidden, w) && Hears(w, s, r) && |w.endpoints[r].received| < |w.endpoints[s].sent|
    ensures var a := NextFrame(w, s, r, now); var w' := Step(w, a);
            && Permitted(hidden, w, a)
            && |w'.endpoints| == |w.endpoints|
            && (forall k :: 0 <= k < |w.endpoints| && k != r ==> w'.endpoints[k] == w.endpoints[k])
            && w'.endpoints[r].origin == w.endpoints[r].origin
            && w'.endpoints[r].received == w.endpoints[r].received + [w.endpoints[s].sent[|w.endpoints[r].received|]]
            && w'.endpoints[r].state.recvKey == w.endpoints[r].state.recvKey
            && (Follows(w, s, r) ==> Follows(w', s, r))
  {
    hide DirectionKey, Guarded, Authentic, NonceBytes, FrameAad;
    assert EndpointOk(w.endpoints[s], w.draws) && EndpointOk(w.endpoints[r], w.draws);
    var k := |w.endpoints[r].received|;
    assert OnWire(w, SealedFrame(w.endpoints[s], k));
  }

  /**
    Whatever the adversary has done so far, handing the receiver the frames it lacks, in order,
    completes the stream: nothing sent to a session can make it lose step.
   */
  lemma {:induction false} CatchUp(hidden: Secrets, actions: seq<Action>, s: nat, r: nat, now: u64)
    returns (more: seq<Action>)
    requires IsRun(hidden, actions) && Follows(Exec(actions), s, r)
    ensures IsRun(hidden, actions + more)
    ensures forall a | a in more :: a.Deliver? && a.session == r
    ensures var w, w' := Exec(actions), Exec(actions + more);
            && |w'.endpoints| == |w.endpoints|
            && w'.endpoints[s] == w.endpoints[s]
            && w'.endpoints[r].received == w.endpoints[s].sent
    decreases |Exec(actions).endpoints[s].sent| - |Exec(actions).endpoints[r].received|
  {
    hide Step, Inv, Permitted, Exec;
    var w := Exec(actions);
    if |w.endpoints[r].received| == |w.endpoints[s].sent| {
      more := [];
      assert actions + more == actions;
    } else {
      var a := NextFrame(w, s, r, now);
      RunKeepsInv(hidden, actions);
      NextFrameAccepted(hidden, w, s, r, now);
      ExecAppend(actions, a);
      RunAppend(hidden, actions, a);
      var rest := CatchUp(hidden, actions + [a], s, r, now);
      more := [a] + rest;
      assert actions + more == (actions + [a]) + rest;
    }
  }

  /** Both streams of a pair can always be completed, as long as the responder is the sole acceptor. */
  lemma PairCanCatchUp(hidden: Secrets, actions: seq<Action>, i: nat, j: nat, now: u64)
    returns (more: seq<Action>)
    requires IsRun(hidden, actions) && Paired(hidden, Exec(actions), i, j) && SoleAcceptor(Exec(actions), j)
    ensures IsRun(hidden, actions + more)
    ensures var w, w' := Exec(actions), Exec(actions + more);
            && |w'.endpoints| == |w.endpoints|
            && w'.endpoints[j].received == w'.endpoints[i].sent == w.endpoints[i].sent
            && w'.endpoints[i].received == w'.endpoints[j].sent == w.endpoints[j].sent
  {
    hide Step, Exec, IsRun, Paired, SoleAcceptor, DirectionKey, SharedKey, EndpointOk, Guarded;
    var w := Exec(actions);
    PairedRoles(hidden, w, i, j);
    ResponderAcceptsPrefix(hidden, actions, i, j);
    InitiatorAcceptsPrefix(hidden, actions, i, j);
    RunKeepsInv(hidden, actions);
    PairedKeysMirror(hidden, w, i, j);
    var first := CatchUp(hidden, actions, i, j, now);
    var mid := Exec(actions + first);
    DeliveriesKeepSending(actions, first, j);
    var second := CatchUp(hidden, actions + first, j, i, now);
    DeliveriesKeepSending(actions + first, second, i);
    more := first + second;
    assert actions + more == (actions + first) + second;
  }

  /** Delivering frames changes no session's keys and nothing it has sent. */
  lemma {:induction false} DeliveriesKeepSending(actions: seq<Action>, more: seq<Action>, r: nat)
    requires forall a | a in more :: a.Deliver? && a.session == r
    ensures var w, w' := Exec(actions), Exec(actions + more);
            && |w'.endpoints| == |w.endpoints|
            && forall k :: 0 <= k < |w.endpoints| ==>
                 && w'.endpoints[k].sent == w.endpoints[k].sent
                 && w'.endpoints[k].state.sendKey == w.endpoints[k].state.sendKey
                 && w'.endpoints[k].state.recvKey == w.endpoints[k].state.recvKey
  {
    hide Exec, Step;
    if more == [] {
      assert actions + more == actions;
    } else {
      var init, last := more[..|more| - 1], more[|more| - 1];
      DeliveriesKeepSending(actions, init, r);
      assert actions + more == (actions + init) + [last];
      ExecAppend(actions + init, last);
      DeliveryKeepsSending(Exec(actions + init), last);
    }
  }

  lemma DeliveryKeepsSending(w: World, a: Action)
    requires a.Deliver?
    ensures var w' := Step(w, a);
            && |w'.endpoints| == |w.endpoints|
            && forall k :: 0 <= k < |w.endpoints| ==>
                 && w'.endpoints[k].sent == w.endpoints[k].sent
                 && w'.endpoints[k].state.sendKey == w.endpoints[k].state.sendKey
                 && w'.endpoints[k].state.recvKey == w.endpoints[k].state.recvKey
  {
    hide NonceBytes, FrameAad;
  }

  // ---- A missing frame ---------------------------------------------------------------------------

  /** Sessions keep their origins and keys, and only add to what they have sent and accepted. */
  ghost predicate Grows(w: World, w': World) {
    && |w.endpoints| <= |w'.endpoints|
    && forall k :: 0 <= k < |w.endpoints| ==>
         && w'.endpoints[k].origin == w.endpoints[k].origin
         && w'.endpoints[k].state.sendKey == w.endpoints[k].state.sendKey
         && w'.endpoints[k].state.recvKey == w.endpoints[k].state.recvKey
         && w.endpoints[k].sent <= w'.endpoints[k].sent
         && w.endpoints[k].received <= w'.endpoints[k].received
  }

  lemma StepGrows(w: World, a: Action)
    ensures Grows(w, Step(w, a))
  {
    hide SharedOf, DirectionKey, NonceBytes, FrameAad;
  }

  lemma {:induction false} RunGrows(actions: seq<Action>, more: seq<Action>)
    ensures Grows(Exec(actions), Exec(actions + more))
  {
    hide Exec, Step;
    if more == [] {
      assert actions + more == actions;
    } else {
      var init, last := more[..|more| - 1], more[|more| - 1];
      RunGrows(actions, init);
      assert actions + more == (actions + init) + [last];
      ExecAppend(actions + init, last);
      StepGrows(Exec(actions + init), last);
    }
  }

  lemma PairedStays(hidden: Secrets, w: World, w': World, i: nat, j: nat)
    requires Paired(hidden, w, i, j) && Grows(w, w')
    ensures Paired(hidden, w', i, j)
  {
    hide DhOf, Intact;
  }

  /** The step hands session `r` frame number `n` of session `s`, which `s` has sent, under its own frame id. */
  predicate Brings(w: World, s: nat, r: nat, n: nat, a: Action) {
    && a.Deliver? && a.session == r
    && s < |w.endpoints| && n < |w.endpoints[s].sent|
    && a.frame == EncryptedFrame(w.endpoints[s].sent[n].frameId, SealedFrame(w.endpoints[s], n))
  }

  /** `s` alone seals under the key `r` opens with, which the adversary cannot. */
  ghost predicate SoleSource(hidden: Secrets, w: World, s: nat, r: nat) {
    Hears(w, s, r) && Guarded(hidden, w.endpoints[r].state.recvKey) && OnlySealer(w, r, s)
  }

  lemma SoleSourceBefore(hidden: Secrets, w: World, w': World, s: nat, r: nat)
    requires Grows(w, w') && SoleSource(hidden, w', s, r) && s < |w.endpoints| && r < |w.endpoints|
    ensures SoleSource(hidden, w, s, r)
  {
    hide Guarded;
    assert forall k :: 0 <= k < |w.endpoints| ==> w'.endpoints[k].state.sendKey == w.endpoints[k].state.sendKey;
  }

  /** Whatever opens is the next frame of the one source. */
  lemma OpenedIsNext(hidden: Secrets, w: World, s: nat, r: nat, f: EncryptedFrame, now: u64)
    requires Inv(hidden, w) && SoleSource(hidden, w, s, r) && CanProduce(hidden, w, f.ciphertext)
    requires FrameDecrypted(w.endpoints[r].state, f, now).1.Ok?
    ensures Brings(w, s, r, |w.endpoints[r].received|, Deliver(r, f, now))
  {
    hide DirectionKey, Guarded, NonceBytes, FrameAad, CanProduce, Authentic;
    OpenedIsGenuine(hidden, w, r, f, now);
    var p := w.endpoints[r];
    var m := Message(f.frameId, FrameDecrypted(p.state, f, now).1.value);
    var k: nat :| k < |w.endpoints| && SentAs(w.endpoints[k], p.state.recvKey, |p.received|, m);
    assert k == s;
    assert EndpointOk(p, w.draws);
    var c := f.ciphertext;
    assert c == Sealed(c.key, c.nonce, c.aad, c.plaintext);
  }

  /** One step: `r` accepts something, and then one thing, exactly if it is handed the next frame. */
  lemma StepMovesIff(hidden: Secrets, w: World, a: Action, s: nat, r: nat)
    requires Inv(hidden, w) && SoleSource(hidden, w, s, r) && Permitted(hidden, w, a)
    ensures var n := |w.endpoints[r].received|; var w' := Step(w, a);
            r < |w'.endpoints| && |w'.endpoints[r].received| == if Brings(w, s, r, n, a) then n + 1 else n
  {
    hide DirectionKey, SharedOf, Guarded, NonceBytes, FrameAad, CanProduce, Inv, Brings, OnlySealer;
    var n := |w.endpoints[r].received|;
    if a.Deliver? && a.session == r {
      if FrameDecrypted(w.endpoints[r].state, a.frame, a.now).1.Ok? {
        OpenedIsNext(hidden, w, s, r, a.frame, a.now);
      }
      if Brings(w, s, r, n, a) { BroughtIsAccepted(hidden, w, s, r, a); }
    } else {
      OnlyDeliveriesBring(w, s, r, n, a);
    }
  }

  lemma OnlyDeliveriesBring(w: World, s: nat, r: nat, n: nat, a: Action)
    ensures Brings(w, s, r, n, a) ==> a.Deliver? && a.session == r
  {}

  lemma BroughtIsAccepted(hidden: Secrets, w: World, s: nat, r: nat, a: Action)
    requires Inv(hidden, w) && Hears(w, s, r) && Brings(w, s, r, |w.endpoints[r].received|, a)
    ensures |Step(w, a).endpoints| == |w.endpoints|
    ensures |Step(w, a).endpoints[r].received| == |w.endpoints[r].received| + 1
  {
    hide Inv, Step, FrameAad, NonceBytes;
    NextFrameAccepted(hidden, w, s, r, a.now);
    assert a == NextFrame(w, s, r, a.now);
  }

  /** At some step of `more`, `r` was handed frame number `n` of `s`. */
  ghost predicate Brought(actions: seq<Action>, more: seq<Action>, s: nat, r: nat, n: nat) {
    exists k :: 0 <= k < |more| && Brings(Exec(actions + more[..k]), s, r, n, more[k])
  }

  lemma BroughtGrows(actions: seq<Action>, init: seq<Action>, last: Action, s: nat, r: nat, n: nat)
    ensures Brought(actions, init + [last], s, r, n) <==>
            Brought(actions, init, s, r, n) || Brings(Exec(actions + init), s, r, n, last)
  {
    hide Exec, Brings;
    var more := init + [last];
    assert more[..|init|] == init && more[|init|] == last;
    assert forall k :: 0 <= k < |init| ==> more[..k] == init[..k] && more[k] == init[k];
  }

  /** Over any continuation: `r` gets past the frame it awaits exactly if it is handed that frame. */
  lemma {:induction false} MovesIffBrought(hidden: Secrets, actions: seq<Action>, more: seq<Action>, s: nat, r: nat)
    requires IsRun(hidden, actions + more) && SoleSource(hidden, Exec(actions + more), s, r)
    requires s < |Exec(actions).endpoints| && r < |Exec(actions).endpoints|
    ensures var w, w' := Exec(actions), Exec(actions + more);
            && r < |w'.endpoints| && w.endpoints[r].received <= w'.endpoints[r].received
            && (w'.endpoints[r].received != w.endpoints[r].received <==>
                Brought(actions, more, s, r, |w.endpoints[r].received|))
  {
    hide Exec, Step, Inv, Brings, SoleSource, Permitted, Brought;
    var n := |Exec(actions).endpoints[r].received|;
    RunGrows(actions, more);
    if more == [] {
      assert actions + more == actions;
      assert !Brought(actions, more, s, r, n) by { NothingBrought(actions, s, r, n); }
    } else {
      var init, last := more[..|more| - 1], more[|more| - 1];
      var run := actions + init;
      assert actions + more == run + [last] && more == init + [last];
      RunPrefix(hidden, run, last);
      ExecAppend(run, last);
      StepGrows(Exec(run), last);
      RunGrows(actions, init);
      SoleSourceBefore(hidden, Exec(run), Exec(run + [last]), s, r);
      MovesIffBrought(hidden, actions, init, s, r);
      RunKeepsInv(hidden, run);
      StepMovesIff(hidden, Exec(run), last, s, r);
      BroughtGrows(actions, init, last, s, r, n);
    }
  }

  lemma NothingBrought(actions: seq<Action>, s: nat, r: nat, n: nat)
    ensures !Brought(actions, [], s, r, n)
  {}

  lemma RunPrefix(hidden: Secrets, run: seq<Action>, last: Action)
    requires IsRun(hidden, run + [last])
    ensures IsRun(hidden, run) && Permitted(hidden, Exec(run), last)
  {
    assert (run + [last])[..|run|] == run;
  }

  /**
    A missing frame blocks: in every continuation of every run, the responder's stream moves past
    frame number n, which it awaits, exactly if the initiator has sent that frame and it is handed
    over under its own frame id.
   */
  lemma MissingFrameBlocks(hidden: Secrets, actions: seq<Action>, more: seq<Action>, i: nat, j: nat)
    requires IsRun(hidden, actions + more) && Paired(hidden, Exec(actions), i, j)
    ensures var w, w' := Exec(actions), Exec(actions + more);
            && j < |w'.endpoints|
            && (w'.endpoints[j].received != w.endpoints[j].received <==>
                Brought(actions, more, i, j, |w.endpoints[j].received|))
  {
    hide Exec, Step, Inv, IsRun, Paired, Guarded, Brought, OnlySealer;
    var w, w' := Exec(actions), Exec(actions + more);
    PairedRoles(hidden, w, i, j);
    RunGrows(actions, more);
    PairedStays(hidden, w, w', i, j);
    RunKeepsInv(hidden, actions + more);
    PairedKeysMirror(hidden, w', i, j);
    OnlyInitiatorSeals(hidden, w', i, j);
    MovesIffBrought(hidden, actions, more, i, j);
  }

  /** The same for the initiator, as long as its peer stays the sole acceptor. */
  lemma MissingAnswerBlocks(hidden: Secrets, actions: seq<Action>, more: seq<Action>, i: nat, j: nat)
    requires IsRun(hidden, actions + more) && Paired(hidden, Exec(actions), i, j)
    requires j < |Exec(actions + more).endpoints| && SoleAcceptor(Exec(actions + more), j)
    ensures var w, w' := Exec(actions), Exec(actions + more);
            && i < |w'.endpoints|
            && (w'.endpoints[i].received != w.endpoints[i].received <==>
                Brought(actions, more, j, i, |w.endpoints[i].received|))
  {
    hide Exec, Step, Inv, IsRun, Paired, Guarded, Brought, OnlySealer, SoleAcceptor;
    var w, w' := Exec(actions), Exec(actions + more);
    PairedRoles(hidden, w, i, j);
    RunGrows(actions, more);
    PairedStays(hidden, w, w', i, j);
    RunKeepsInv(hidden, actions + more);
    PairedKeysMirror(hidden, w', i, j);
    OnlyResponderSeals(hidden, w', i, j);
    MovesIffBrought(hidden, actions, more, j, i);
  }

  // ---- A replayed encapsulation ---------------------------------------------------------------------

  /** What `p` sends `q` with draw 0, its X25519 key in encoding `form`; form 0 is what `p` wrote. */
  function FirstEncapsulation(q: nat, form: nat): HybridEncapsulation {
    HybridEncapsulation(OfScalar(Ephemeral(0), form), Encapsulated(q, Drawn(0)))
  }

  /** `p` establishes to `q`, `q` is handed the encapsulation and then an encoding of it, and answers on both. */
  function ReplayActions(p: nat, q: nat, form: nat, a1: Message, b1: Message): seq<Action> {
    [Establish(p, KemOf(q).PublicKey(), 0, 0),
     Accept(q, FirstEncapsulation(q, 0), 1, 0), Accept(q, FirstEncapsulation(q, form), 2, 0),
     Send(1, a1, 0), Send(2, b1, 0)]
  }

  function ReplayKey(q: nat): (key: seq<Octet>)
    ensures |key| == 32
  {
    SharedKey(X25519(Ephemeral(0), X25519Public(Static(q))), Agreed(q, Drawn(0)))
  }

  function ReplayWorld(p: nat, q: nat, form: nat, a1: Message, b1: Message): World {
    var o := Established(p, KemOf(q).PublicKey(), Ephemeral(0), Drawn(0));
    var s, r := DirectionKey(ReplayKey(q), SEND), DirectionKey(ReplayKey(q), RECV);
    World([Endpoint(o, SessionState(0, s, r, 0, 0, 0), [], []),
           Endpoint(Accepted(q, FirstEncapsulation(q, 0)), SessionState(1, r, s, 1, 0, 0), [a1], []),
           Endpoint(Accepted(q, FirstEncapsulation(q, form)), SessionState(2, r, s, 1, 0, 0), [b1], [])], 1)
  }

  lemma ReplayKeys(p: nat, q: nat, form: nat)
    ensures var o := Established(p, KemOf(q).PublicKey(), Ephemeral(0), Drawn(0));
            var b := Accepted(q, FirstEncapsulation(q, form));
            && SharedOf(o).Ok? && SharedOf(o).value == ReplayKey(q)
            && SharedOf(b).Ok? && SharedOf(b).value == ReplayKey(q)
            && DhOf(o) == DhOf(b)
  {
    hide SharedKey;
    assert {Ephemeral(0), Static(q)} == {Static(q), Ephemeral(0)};
    assert X25519(Ephemeral(0), X25519Public(Static(q))) == X25519(Static(q), OfScalar(Ephemeral(0), form));
    var o := Established(p, KemOf(q).PublicKey(), Ephemeral(0), Drawn(0));
    assert HybridKem.Encapsulation(o.remote, o.ephemeral, o.coins).Ok?;
  }

  lemma ReplayReaches(p: nat, q: nat, form: nat, a1: Message, b1: Message)
    requires |a1.payload| <= MAX_PLAINTEXT && |b1.payload| <= MAX_PLAINTEXT
    ensures Exec(ReplayActions(p, q, form, a1, b1)) == ReplayWorld(p, q, form, a1, b1)
  {
    hide SharedOf, SharedKey, DirectionKey, X25519, NonceBytes, FrameAad, Exec, ReplayKey, FirstEncapsulation, DhOf;
    var all := ReplayActions(p, q, form, a1, b1);
    ReplayKeys(p, q, 0);
    ReplayKeys(p, q, form);
    var w := ReplayWorld(p, q, form, a1, b1);
    var e0, e1, e2 := w.endpoints[0], w.endpoints[1], w.endpoints[2];
    var f1 := e1.(state := e1.state.(sendNonce := 0), sent := []);
    var f2 := e2.(state := e2.state.(sendNonce := 0), sent := []);
    assert f1.sent + [a1] == e1.sent && f2.sent + [b1] == e2.sent;
    ExecNothing();
    ExecAppend([], all[0]);
    assert [] + [all[0]] == all[..1];
    assert Exec(all[..1]).endpoints == [e0];
    ExecAppend(all[..1], all[1]);
    assert all[..1] + [all[1]] == all[..2];
    assert Exec(all[..2]).endpoints == [e0, f1];
    ExecAppend(all[..2], all[2]);
    assert all[..2] + [all[2]] == all[..3];
    assert Exec(all[..3]).endpoints == [e0, f1, f2];
    ExecAppend(all[..3], all[3]);
    assert all[..3] + [all[3]] == all[..4];
    assert Exec(all[..4]).endpoints == [e0, e1, f2];
    ExecAppend(all[..4], all[4]);
    assert all[..4] + [all[4]] == all;
    assert Exec(all).endpoints == w.endpoints;
  }

  lemma ExecNothing()
    ensures Exec([]) == World([], 0)
  {}

  lemma {:induction false} NoDeliveryIsRun(hidden: Secrets, actions: seq<Action>)
    requires forall a | a in actions :: !a.Deliver?
    ensures IsRun(hidden, actions)
  {
    if actions != [] { NoDeliveryIsRun(hidden, actions[..|actions| - 1]); }
  }

  /** The weaker guard, which compares whole encapsulations byte by byte. */
  ghost predicate NoEqualEncapsulation(actions: seq<Action>) {
    forall a, b :: 0 <= a < b < |actions| && actions[a].Accept? && actions[b].Accept? ==>
      actions[a].owner != actions[b].owner || actions[a].encapsulation != actions[b].encapsulation
  }

  /**
    The guard is needed, and on the ciphertext: accepting an encapsulation and then the same one, or
    the same with its X25519 key encoded differently, makes two sessions seal different messages
    under one key and one nonce, for every pair of principals and of first messages. A caller who
    only refuses equal encapsulations lets the second kind through.
   */
  lemma ReplayReusesNonce(hidden: Secrets, p: nat, q: nat, form: nat, a1: Message, b1: Message)
    requires |a1.payload| <= MAX_PLAINTEXT && |b1.payload| <= MAX_PLAINTEXT
    ensures var run := ReplayActions(p, q, form, a1, b1);
            && IsRun(hidden, run) && NonceReused(Exec(run))
            && !NoReplay(run) && (NoEqualEncapsulation(run) <==> form != 0)
  {
    hide NonceBytes, DirectionKey, SharedKey, Exec;
    var run := ReplayActions(p, q, form, a1, b1);
    NoDeliveryIsRun(hidden, run);
    ReplayReaches(p, q, form, a1, b1);
    assert SameKeyAndNonce(ReplayWorld(p, q, form, a1, b1), 1, 0, 2, 0);
    assert run[1].Accept? && run[2].Accept?;
    assert run[1].encapsulation == run[2].encapsulation <==> form == 0;
  }

  /** After such a replay the initiator takes the second session's frame for the first one's. */
  lemma ReplayConfusesInitiator(hidden: Secrets, p: nat, q: nat, form: nat, a1: Message, b1: Message)
    requires |a1.payload| <= MAX_PLAINTEXT && |b1.payload| <= MAX_PLAINTEXT && a1 != b1
    requires q in hidden.dh || q in hidden.kem
    ensures var w := ReplayWorld(p, q, form, a1, b1);
            var d := NextFrame(w, 2, 0, 0); var run := ReplayActions(p, q, form, a1, b1) + [d];
            && IsRun(hidden, run)
            && Paired(hidden, Exec(run), 0, 1)
            && Exec(run).endpoints[0].received == [b1] && Exec(run).endpoints[1].sent == [a1]
  {
    hide NonceBytes, DirectionKey, SharedKey, Exec, IsRun, FrameAad, X25519, DhOf;
    var w := ReplayWorld(p, q, form, a1, b1);
    var d := NextFrame(w, 2, 0, 0);
    var actions := ReplayActions(p, q, form, a1, b1);
    NoDeliveryIsRun(hidden, actions);
    ReplayReaches(p, q, form, a1, b1);
    RunKeepsInv(hidden, actions);
    NextFrameAccepted(hidden, w, 2, 0, 0);
    ExecAppend(actions, d);
    RunAppend(hidden, actions, d);
    ReplayKeys(p, q, 0);
  }

  // ---- An exchange of the adversary's own -------------------------------------------------------------

  function StrangerEncapsulation(q: nat): HybridEncapsulation {
    HybridEncapsulation(X25519Public(Foreign(0)), Encapsulated(q, Chosen(0)))
  }

  function StrangerKey(q: nat): (key: seq<Octet>)
    ensures |key| == 32
  {
    SharedKey(X25519(Static(q), X25519Public(Foreign(0))), Agreed(q, Chosen(0)))
  }

  /** Someone unknown encapsulates to `q` and seals a frame under the key that gives. */
  function StrangerActions(q: nat, m: Message): seq<Action> {
    var c := Sealed(DirectionKey(StrangerKey(q), SEND), NonceBytes(0), FrameAad(m.frameId), m.payload);
    [Accept(q, StrangerEncapsulation(q), 0, 0), Deliver(0, EncryptedFrame(m.frameId, c), 0)]
  }

  lemma StrangerIsNotHidden(hidden: Secrets, q: nat, dh: seq<Octet>, secret: KemSecret, tag: Label)
    requires |dh| == 32 && DirectionKey(StrangerKey(q), SEND) == DirectionKey(SharedKey(dh, secret), tag)
    ensures !KemHidden(hidden, secret) && !DhHidden(hidden, dh)
  {
    hide DirectionKey, SharedKey, X25519;
    var own := X25519(Static(q), X25519Public(Foreign(0)));
    DirectionKeyInjective(StrangerKey(q), SEND, SharedKey(dh, secret), tag);
    SharedKeyInjective(own, Agreed(q, Chosen(0)), dh, secret);
    forall n: nat, p: nat
      ensures own != X25519(Ephemeral(n), X25519Public(Static(p)))
    {
      ForeignNotHonest(q, n, p);
    }
  }

  lemma ForeignNotHonest(q: nat, n: nat, p: nat)
    ensures X25519(Static(q), X25519Public(Foreign(0))) != X25519(Ephemeral(n), X25519Public(Static(p)))
  {
    assert Foreign(0) in {Static(q), Foreign(0)} && Foreign(0) !in {Ephemeral(n), Static(p)};
    var a, b := X25519(Static(q), X25519Public(Foreign(0))), X25519(Ephemeral(n), X25519Public(Static(p)));
    assert a[0] == DhOctet({Static(q), Foreign(0)}, 0) && b[0] == DhOctet({Ephemeral(n), Static(p)}, 0);
  }

  /**
    Nothing tells an acceptor who it talks to: with every secret hidden, it accepts from a stranger
    any message, which no session ever sent.
   */
  lemma StrangerIsHeard(hidden: Secrets, q: nat, m: Message)
    ensures var run := StrangerActions(q, m);
            && IsRun(hidden, run) && |Exec(run).endpoints| == 1
            && Exec(run).endpoints[0].received == [m] && Exec(run).endpoints[0].sent == []
  {
    hide DirectionKey, SharedKey, X25519, NonceBytes, FrameAad, StrangerKey, IsRun, KemHidden, DhHidden, Exec;
    var run := StrangerActions(q, m);
    var o := Accepted(q, StrangerEncapsulation(q));
    assert SharedOf(o).Ok? && SharedOf(o).value == StrangerKey(q) by { StrangerShares(q); }
    forall dh: seq<Octet>, secret: KemSecret, tag: Label
      | |dh| == 32 && DirectionKey(StrangerKey(q), SEND) == DirectionKey(SharedKey(dh, secret), tag)
      ensures !KemHidden(hidden, secret) && !DhHidden(hidden, dh)
    {
      StrangerIsNotHidden(hidden, q, dh, secret, tag);
    }
    ExecNothing();
    ExecAppend([], run[0]);
    assert [] + [run[0]] == run[..1];
    var w := Exec(run[..1]);
    assert w.endpoints == [Endpoint(o, ResponderSession(0, StrangerKey(q), 0), [], [])];
    NoDeliveryIsRun(hidden, run[..1]);
    ExecAppend(run[..1], run[1]);
    RunAppend(hidden, run[..1], run[1]);
    assert run[..1] + [run[1]] == run;
    assert [] + [m] == [m];
  }

  lemma StrangerShares(q: nat)
    ensures SharedOf(Accepted(q, StrangerEncapsulation(q))).Ok?
    ensures SharedOf(Accepted(q, StrangerEncapsulation(q))).value == StrangerKey(q)
  {
    hide SharedKey, X25519;
  }
}
