/** The steps of the network carried out by transport managers on their session objects. */
module PqcReplay {
  import opened Words
  import opened Wrappers
  import opened Octets
  import opened HybridKems
  import opened PqcSessions
  import opened PqcManagers
  import opened PqcNetwork

  /** The session objects are in the states of the endpoints, and the logs are what these sent and accepted. */
  predicate Mirrors(sessions: seq<PqcSession>, sent: seq<seq<Message>>, received: seq<seq<Message>>, w: World)
    reads sessions
  {
    && |sessions| == |sent| == |received| == |w.endpoints|
    && forall k :: 0 <= k < |sessions| ==>
         && sessions[k].State() == w.endpoints[k].state
         && sent[k] == w.endpoints[k].sent
         && received[k] == w.endpoints[k].received
  }

  predicate Distinct(sessions: seq<PqcSession>) {
    forall i, j :: 0 <= i < j < |sessions| ==> sessions[i] != sessions[j]
  }

  /** What a call returned, noted down if it succeeded. */
  method ReplaySend(manager: PqcTransportManager, sent: seq<seq<Message>>, ghost received: seq<seq<Message>>,
                    ghost w: World, k: nat, m: Message, now: u64)
    returns (sent': seq<seq<Message>>)
    requires Mirrors(manager.sessions, sent, received, w) && Distinct(manager.sessions) && k < |manager.sessions|
    modifies manager.sessions[k]
    ensures Mirrors(manager.sessions, sent', received, Step(w, Send(k, m, now)))
  {
    hide NonceBytes, FrameAad;
    var r := manager.EncryptFrame(manager.sessions[k], m, now);
    sent' := if r.Ok? then sent[k := sent[k] + [m]] else sent;
  }

  method ReplayDeliver(manager: PqcTransportManager, ghost sent: seq<seq<Message>>,
                       received: seq<seq<Message>>, ghost w: World, k: nat, f: EncryptedFrame, now: u64)
    returns (received': seq<seq<Message>>)
    requires Mirrors(manager.sessions, sent, received, w) && Distinct(manager.sessions) && k < |manager.sessions|
    modifies manager.sessions[k]
    ensures Mirrors(manager.sessions, sent, received', Step(w, Deliver(k, f, now)))
  {
    hide NonceBytes, FrameAad;
    var r := manager.DecryptFrame(manager.sessions[k], f, now);
    received' := if r.Ok? then received[k := received[k] + [Message(f.frameId, r.value)]] else received;
  }

  /** Opening a session adds one object, in the state of the new endpoint. */
  method ReplayEstablish(manager: PqcTransportManager, ghost sent: seq<seq<Message>>,
                         ghost received: seq<seq<Message>>, ghost w: World, draws: nat,
                         owner: nat, remote: HybridPublicKey, sessionId: u64, now: u64)
    returns (added: bool)
    requires Mirrors(manager.sessions, sent, received, w) && Distinct(manager.sessions) && draws == w.draws
    modifies manager
    ensures forall s :: s in manager.sessions ==> s in old(manager.sessions) || fresh(s)
    ensures Mirrors(manager.sessions, if added then sent + [[]] else sent, if added then received + [[]] else received,
                    Step(w, Establish(owner, remote, sessionId, now)))
    ensures Distinct(manager.sessions)
  {
    hide DirectionKey;
    var r := manager.EstablishSession(remote, Ephemeral(draws), Drawn(draws), sessionId, now);
    added := r.Ok?;
  }

  method ReplayAccept(manager: PqcTransportManager, ghost sent: seq<seq<Message>>,
                      ghost received: seq<seq<Message>>, ghost w: World,
                      owner: nat, encapsulation: HybridEncapsulation, sessionId: u64, now: u64)
    returns (added: bool)
    requires Mirrors(manager.sessions, sent, received, w) && Distinct(manager.sessions)
    modifies manager
    ensures forall s :: s in manager.sessions ==> s in old(manager.sessions) || fresh(s)
    ensures Mirrors(manager.sessions, if added then sent + [[]] else sent, if added then received + [[]] else received,
                    Step(w, Accept(owner, encapsulation, sessionId, now)))
    ensures Distinct(manager.sessions)
  {
    hide DirectionKey;
    var r := manager.AcceptSession(KemOf(owner), encapsulation, sessionId, now);
    added := r.Ok?;
  }

  /**
    Any run: a manager that carries out the calls of a run, for whatever principals, ends with its
    session objects in the states the run computes, having sent and accepted what the run says.
   */
  method Replay(actions: seq<Action>, timeoutSecs: nat)
    returns (manager: PqcTransportManager, sent: seq<seq<Message>>, received: seq<seq<Message>>)
    ensures Mirrors(manager.sessions, sent, received, Exec(actions)) && Distinct(manager.sessions)
  {
    hide Step, SharedOf, Mirrors;
    manager := new PqcTransportManager(timeoutSecs);
    sent, received := [], [];
    var draws := 0;
    NothingMirrored();
    for i := 0 to |actions|
      invariant fresh(manager) && forall s :: s in manager.sessions ==> fresh(s)
      invariant Mirrors(manager.sessions, sent, received, Exec(actions[..i])) && Distinct(manager.sessions)
      invariant draws == Exec(actions[..i]).draws
    {
      ghost var w := Exec(actions[..i]);
      assert actions[..i + 1][..i] == actions[..i];
      var a := actions[i];
      DrawsOf(w, a);
      match a {
        case Establish(owner, remote, sessionId, now) =>
          var added := ReplayEstablish(manager, sent, received, w, draws, owner, remote, sessionId, now);
          draws := draws + 1;
          if added { sent, received := sent + [[]], received + [[]]; }
        case Accept(owner, encapsulation, sessionId, now) =>
          var added := ReplayAccept(manager, sent, received, w, owner, encapsulation, sessionId, now);
          if added { sent, received := sent + [[]], received + [[]]; }
        case Send(k, m, now) =>
          MirroredCount(manager.sessions, sent, received, w);
          if k < |manager.sessions| {
            assert manager.sessions[k] in manager.sessions;
            sent := ReplaySend(manager, sent, received, w, k, m, now);
          }
        case Deliver(k, f, now) =>
          MirroredCount(manager.sessions, sent, received, w);
          if k < |manager.sessions| {
            assert manager.sessions[k] in manager.sessions;
            received := ReplayDeliver(manager, sent, received, w, k, f, now);
          }
      }
    }
    assert actions[..|actions|] == actions;
  }

  lemma NothingMirrored()
    ensures Mirrors([], [], [], Exec([]))
  {}

  lemma DrawsOf(w: World, a: Action)
    ensures Step(w, a).draws == if a.Establish? then w.draws + 1 else w.draws
    ensures a.Send? && a.session >= |w.endpoints| ==> Step(w, a) == w
    ensures a.Deliver? && a.session >= |w.endpoints| ==> Step(w, a) == w
  {
    hide SharedOf, FrameEncrypted, FrameDecrypted;
  }

  lemma MirroredCount(sessions: seq<PqcSession>, sent: seq<seq<Message>>, received: seq<seq<Message>>, w: World)
    requires Mirrors(sessions, sent, received, w)
    ensures |sessions| == |sent| == |received| == |w.endpoints|
  {}
}
