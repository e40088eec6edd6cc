/**
  Any number of honest sessions over a network the adversary controls.

  An honest party establishes sessions to any public key, accepts any encapsulation it is handed,
  and sends and receives frames on its sessions. The adversary decides every step: it may drop,
  reorder, duplicate, reflect and relabel frames, replay and re-encode encapsulations, run its own
  key exchanges, and forge ciphertexts under any key it can know. It may hold some principals'
  X25519 secrets and some principals' ML-KEM seeds, all of either kind if the kind is broken. It
  cannot seal under a key one of whose two secrets it has no way to know.
 */
module PqcNetwork {
  import opened Words
  import opened Wrappers
  import opened Octets
  import opened HybridKems
  import opened PqcSessions

  /** How a session came about; principals are numbered, and own the KEM of their number. */
  datatype Origin =
    | Established(owner: nat, remote: HybridPublicKey, ephemeral: Scalar, coins: Coins)
    | Accepted(owner: nat, encapsulation: HybridEncapsulation)

  /** A session, with what was sent on it and what it has accepted so far. */
  datatype Endpoint = Endpoint(origin: Origin, state: SessionState, sent: seq<Message>, received: seq<Message>)

  /** `draws` counts the randomness honest parties have used. */
  datatype World = World(endpoints: seq<Endpoint>, draws: nat)

  datatype Action =
    | Establish(owner: nat, remote: HybridPublicKey, sessionId: u64, now: u64)
    | Accept(owner: nat, encapsulation: HybridEncapsulation, sessionId: u64, now: u64)
    | Send(session: nat, message: Message, now: u64)
    | Deliver(session: nat, frame: EncryptedFrame, now: u64)

  /** The principals whose X25519 secret, and those whose ML-KEM seed, the adversary does not hold. */
  datatype Secrets = Secrets(dh: set<nat>, kem: set<nat>)

  function KemOf(principal: nat): HybridKem {
    HybridKem(Static(principal), principal)
  }

  /** The shared key an origin leads to, if the key exchange succeeds. */
  function SharedOf(o: Origin): Result<seq<Octet>, PqcError> {
    match o
    case Established(_, remote, ephemeral, coins) =>
      (match HybridKem.Encapsulation(remote, ephemeral, coins)
       case Err(e) => Err(e)
       case Ok((_, key)) => Ok(key))
    case Accepted(owner, encapsulation) => KemOf(owner).Decapsulation(encapsulation)
  }

  /** The label of the key a session sends under. */
  function SendLabel(o: Origin): Label {
    if o.Established? then SEND else RECV
  }

  function RecvLabel(o: Origin): Label {
    if o.Established? then RECV else SEND
  }

  function OpenSession(w: World, o: Origin, sessionId: u64, now: u64): World {
    match SharedOf(o)
    case Err(_) => w
    case Ok(key) =>
      var s := if o.Established? then InitiatorSession(sessionId, key, now) else ResponderSession(sessionId, key, now);
      w.(endpoints := w.endpoints + [Endpoint(o, s, [], [])])
  }

  function Step(w: World, a: Action): World {
    match a
    case Establish(owner, remote, sessionId, now) =>
      var o := Established(owner, remote, Ephemeral(w.draws), Drawn(w.draws));
      OpenSession(w, o, sessionId, now).(draws := w.draws + 1)
    case Accept(owner, encapsulation, sessionId, now) =>
      OpenSession(w, Accepted(owner, encapsulation), sessionId, now)
    case Send(i, m, now) =>
      if i >= |w.endpoints| then w
      else
        var p := w.endpoints[i];
        var (s, r) := FrameEncrypted(p.state, m, now);
        var sent := if r.Ok? then p.sent + [m] else p.sent;
        w.(endpoints := w.endpoints[i := p.(state := s, sent := sent)])
    case Deliver(i, f, now) =>
      if i >= |w.endpoints| then w
      else
        var p := w.endpoints[i];
        var (s, r) := FrameDecrypted(p.state, f, now);
        var received := if r.Ok? then p.received + [Message(f.frameId, r.value)] else p.received;
        w.(endpoints := w.endpoints[i := p.(state := s, received := received)])
  }

  // ---- What the adversary can put on the wire ---------------------------------------------

  /** Frame number `t` of a session, as it went out. */
  function SealedFrame(p: Endpoint, t: nat): Ciphertext
    requires t < |p.sent|
  {
    Sealed(p.state.sendKey, NonceBytes(t), FrameAad(p.sent[t].frameId), p.sent[t].payload)
  }

  ghost predicate OnWire(w: World, c: Ciphertext) {
    exists s: nat, t: nat :: s < |w.endpoints| && t < |w.endpoints[s].sent| && c == SealedFrame(w.endpoints[s], t)
  }

  /** An honest draw, encapsulated to a key whose seed is hidden. */
  predicate KemHidden(hidden: Secrets, secret: KemSecret) {
    secret.Agreed? && secret.seed in hidden.kem && secret.coins.Drawn?
  }

  /** X25519 between an honest ephemeral scalar and a hidden static one. */
  ghost predicate DhHidden(hidden: Secrets, dh: seq<Octet>) {
    exists n: nat, p: nat :: p in hidden.dh && dh == X25519(Ephemeral(n), X25519Public(Static(p)))
  }

  /** AES keys made from two secrets of which at least one is hidden. */
  ghost predicate Guarded(hidden: Secrets, key: seq<Octet>) {
    exists dh: seq<Octet>, secret: KemSecret, tag: Label ::
      && |dh| == 32 && key == DirectionKey(SharedKey(dh, secret), tag)
      && (KemHidden(hidden, secret) || DhHidden(hidden, dh))
  }

  ghost predicate CanProduce(hidden: Secrets, w: World, c: Ciphertext) {
    OnWire(w, c) || c.Junk? || !Guarded(hidden, c.key)
  }

  ghost predicate Permitted(hidden: Secrets, w: World, a: Action) {
    a.Deliver? ==> CanProduce(hidden, w, a.frame.ciphertext)
  }

  function Exec(actions: seq<Action>): World {
    if actions == [] then World([], 0) else Step(Exec(actions[..|actions| - 1]), actions[|actions| - 1])
  }

  /** A run: every delivered frame is one the adversary can produce at that point. */
  ghost predicate IsRun(hidden: Secrets, actions: seq<Action>) {
    actions != [] ==>
      && IsRun(hidden, actions[..|actions| - 1])
      && Permitted(hidden, Exec(actions[..|actions| - 1]), actions[|actions| - 1])
  }

  /** The frame a successful send hands out is the one that counts as on the wire from then on. */
  lemma SentIsOnWire(hidden: Secrets, w: World, i: nat, m: Message, now: u64)
    requires Inv(hidden, w) && i < |w.endpoints| && FrameEncrypted(w.endpoints[i].state, m, now).1.Ok?
    ensures var w' := Step(w, Send(i, m, now)); var n := |w.endpoints[i].sent|;
            && i < |w'.endpoints| && n < |w'.endpoints[i].sent|
            && FrameEncrypted(w.endpoints[i].state, m, now).1
               == Ok(EncryptedFrame(m.frameId, SealedFrame(w'.endpoints[i], n)))
  {
    hide DirectionKey, Authentic, NonceBytes, FrameAad;
    assert EndpointOk(w.endpoints[i], w.draws);
  }

  // ---- Invariants ----------------------------------------------------------------------------

  predicate DrawnBefore(o: Origin, draws: nat)
    requires o.Established?
  {
    o.coins.Drawn? && o.coins.draw < draws && o.ephemeral == Ephemeral(o.coins.draw)
  }

  ghost predicate EndpointOk(p: Endpoint, draws: nat) {
    && SharedOf(p.origin).Ok?
    && p.state.sendKey == DirectionKey(SharedOf(p.origin).value, SendLabel(p.origin))
    && p.state.recvKey == DirectionKey(SharedOf(p.origin).value, RecvLabel(p.origin))
    && p.state.sendNonce == |p.sent| <= LIMIT
    && p.state.recvNonce == |p.received| <= LIMIT
    && (p.origin.Established? ==> DrawnBefore(p.origin, draws))
  }

  /** Message `t` accepted by `p` was sent as number `t` by a session sealing under the key `p` opens with. */
  ghost predicate Vouched(w: World, p: Endpoint, t: nat)
    requires t < |p.received|
  {
    exists s: nat :: s < |w.endpoints| && SentAs(w.endpoints[s], p.state.recvKey, t, p.received[t])
  }

  predicate SentAs(s: Endpoint, key: seq<Octet>, t: nat, m: Message) {
    s.state.sendKey == key && t < |s.sent| && s.sent[t] == m
  }

  /** Honest initiators never draw the same randomness twice. */
  ghost predicate FreshDraws(w: World) {
    forall i, j :: 0 <= i < j < |w.endpoints| ==>
      var o1, o2 := w.endpoints[i].origin, w.endpoints[j].origin;
      o1.Established? && o2.Established? ==> o1.coins != o2.coins
  }

  /** Everything accepted under a guarded key was sent, in that position. */
  ghost predicate Authentic(hidden: Secrets, w: World, p: Endpoint) {
    Guarded(hidden, p.state.recvKey) ==> forall t: nat :: t < |p.received| ==> Vouched(w, p, t)
  }

  ghost predicate Inv(hidden: Secrets, w: World) {
    && (forall i :: 0 <= i < |w.endpoints| ==> EndpointOk(w.endpoints[i], w.draws))
    && FreshDraws(w)
    && (forall i :: 0 <= i < |w.endpoints| ==> Authentic(hidden, w, w.endpoints[i]))
  }

  /** A session that has only sent more vouches for whatever it vouched for. */
  ghost predicate Extends(w: World, w': World) {
    && |w.endpoints| <= |w'.endpoints|
    && forall i :: 0 <= i < |w.endpoints| ==>
         && w.endpoints[i].state.sendKey == w'.endpoints[i].state.sendKey
         && w.endpoints[i].sent <= w'.endpoints[i].sent
  }

  lemma VouchedStays(w: World, w': World, p: Endpoint, t: nat)
    requires Extends(w, w') && t < |p.received| && Vouched(w, p, t)
    ensures Vouched(w', p, t)
  {
    var s: nat :| s < |w.endpoints| && SentAs(w.endpoints[s], p.state.recvKey, t, p.received[t]);
    assert SentAs(w'.endpoints[s], p.state.recvKey, t, p.received[t]);
  }

  /** An endpoint that accepted nothing new stays authentic. */
  lemma AuthenticStays(hidden: Secrets, w: World, w': World, p: Endpoint, p': Endpoint)
    requires Extends(w, w') && Authentic(hidden, w, p)
    requires p'.received == p.received && p'.state.recvKey == p.state.recvKey
    ensures Authentic(hidden, w', p')
  {
    hide Guarded;
    if Guarded(hidden, p.state.recvKey) {
      forall t: nat | t < |p'.received|
        ensures Vouched(w', p', t)
      {
        VouchedStays(w, w', p, t);
        var s: nat :| s < |w'.endpoints| && SentAs(w'.endpoints[s], p.state.recvKey, t, p.received[t]);
        assert SentAs(w'.endpoints[s], p'.state.recvKey, t, p'.received[t]);
      }
    }
  }

  lemma OpenKeepsInv(hidden: Secrets, w: World, o: Origin, sessionId: u64, now: u64, w': World)
    requires Inv(hidden, w)
    requires o.Established? ==> o.coins == Drawn(w.draws) && o.ephemeral == Ephemeral(w.draws)
    requires w' == OpenSession(w, o, sessionId, now).(draws := if o.Established? then w.draws + 1 else w.draws)
    ensures Inv(hidden, w')
  {
    hide DirectionKey, Guarded, Authentic;
    assert Extends(w, w');
    forall i | 0 <= i < |w'.endpoints|
      ensures EndpointOk(w'.endpoints[i], w'.draws) && Authentic(hidden, w', w'.endpoints[i])
    {
      if i < |w.endpoints| {
        assert EndpointOk(w.endpoints[i], w.draws);
        AuthenticStays(hidden, w, w', w.endpoints[i], w'.endpoints[i]);
      } else {
        NewIsAuthentic(hidden, w', w'.endpoints[i]);
      }
    }
    forall i, j | 0 <= i < j < |w'.endpoints|
                  && w'.endpoints[i].origin.Established? && w'.endpoints[j].origin.Established?
      ensures w'.endpoints[i].origin.coins != w'.endpoints[j].origin.coins
    {
      assert EndpointOk(w.endpoints[i], w.draws);
    }
  }

  lemma NewIsAuthentic(hidden: Secrets, w: World, p: Endpoint)
    requires p.received == []
    ensures Authentic(hidden, w, p)
  {}

  lemma SendKeepsInv(hidden: Secrets, w: World, i: nat, m: Message, now: u64)
    requires Inv(hidden, w) && i < |w.endpoints|
    ensures Inv(hidden, Step(w, Send(i, m, now)))
  {
    hide DirectionKey, Guarded, Authentic;
    var w' := Step(w, Send(i, m, now));
    assert Extends(w, w');
    forall k | 0 <= k < |w'.endpoints|
      ensures EndpointOk(w'.endpoints[k], w'.draws) && Authentic(hidden, w', w'.endpoints[k])
    {
      assert EndpointOk(w.endpoints[k], w.draws);
      AuthenticStays(hidden, w, w', w.endpoints[k], w'.endpoints[k]);
    }
  }

  /** A frame that opens under a guarded key is a genuine one: the right number, id and payload. */
  lemma OpenedIsGenuine(hidden: Secrets, w: World, i: nat, f: EncryptedFrame, now: u64)
    requires Inv(hidden, w) && i < |w.endpoints| && CanProduce(hidden, w, f.ciphertext)
    requires Guarded(hidden, w.endpoints[i].state.recvKey)
    requires FrameDecrypted(w.endpoints[i].state, f, now).1.Ok?
    ensures var p := w.endpoints[i];
            exists s: nat :: s < |w.endpoints|
              && SentAs(w.endpoints[s], p.state.recvKey, |p.received|,
                        Message(f.frameId, FrameDecrypted(p.state, f, now).1.value))
  {
    hide DirectionKey, Guarded, NonceBytes, FrameAad;
    var p := w.endpoints[i];
    var c := f.ciphertext;
    assert EndpointOk(p, w.draws);
    var s: nat, t: nat :| s < |w.endpoints| && t < |w.endpoints[s].sent| && c == SealedFrame(w.endpoints[s], t);
    assert EndpointOk(w.endpoints[s], w.draws);
    NonceInjective(t, p.state.recvNonce);
    FrameAadInjective(w.endpoints[s].sent[t].frameId, f.frameId);
    assert SentAs(w.endpoints[s], p.state.recvKey, |p.received|, Message(f.frameId, c.plaintext));
  }

  lemma ReceiverStaysAuthentic(hidden: Secrets, w: World, w': World, i: nat, f: EncryptedFrame, now: u64)
    requires Inv(hidden, w) && i < |w.endpoints| && CanProduce(hidden, w, f.ciphertext)
    requires w' == Step(w, Deliver(i, f, now)) && Extends(w, w')
    ensures Authentic(hidden, w', w'.endpoints[i])
  {
    hide DirectionKey, Guarded, NonceBytes, FrameAad, CanProduce;
    var p, p' := w.endpoints[i], w'.endpoints[i];
    var r := FrameDecrypted(p.state, f, now).1;
    AuthenticStays(hidden, w, w', p, p.(state := p'.state));
    if Guarded(hidden, p'.state.recvKey) && r.Ok? {
      OpenedIsGenuine(hidden, w, i, f, now);
      var m := Message(f.frameId, r.value);
      var s: nat :| s < |w.endpoints| && SentAs(w.endpoints[s], p.state.recvKey, |p.received|, m);
      assert SentAs(w'.endpoints[s], p'.state.recvKey, |p.received|, m);
      forall t: nat | t < |p'.received|
        ensures Vouched(w', p', t)
      {
        if t < |p.received| {
          assert Vouched(w', p.(state := p'.state), t);
          var s': nat :| s' < |w'.endpoints| && SentAs(w'.endpoints[s'], p'.state.recvKey, t, p.received[t]);
          assert SentAs(w'.endpoints[s'], p'.state.recvKey, t, p'.received[t]);
        }
      }
    }
  }

  lemma DeliverKeepsInv(hidden: Secrets, w: World, i: nat, f: EncryptedFrame, now: u64)
    requires Inv(hidden, w) && i < |w.endpoints| && CanProduce(hidden, w, f.ciphertext)
    ensures Inv(hidden, Step(w, Deliver(i, f, now)))
  {
    hide DirectionKey, Guarded, NonceBytes, FrameAad, CanProduce, Authentic;
    var w' := Step(w, Deliver(i, f, now));
    assert Extends(w, w');
    ReceiverStaysAuthentic(hidden, w, w', i, f, now);
    forall k | 0 <= k < |w'.endpoints|
      ensures EndpointOk(w'.endpoints[k], w'.draws) && Authentic(hidden, w', w'.endpoints[k])
    {
      assert EndpointOk(w.endpoints[k], w.draws);
      if k != i { AuthenticStays(hidden, w, w', w.endpoints[k], w'.endpoints[k]); }
    }
  }

  lemma {:induction false} RunKeepsInv(hidden: Secrets, actions: seq<Action>)
    requires IsRun(hidden, actions)
    ensures Inv(hidden, Exec(actions))
  {
    if actions != [] {
      var w := Exec(actions[..|actions| - 1]);
      var a := actions[|actions| - 1];
      RunKeepsInv(hidden, actions[..|actions| - 1]);
      match a
      case Establish(owner, remote, sessionId, now) =>
        var o := Established(owner, remote, Ephemeral(w.draws), Drawn(w.draws));
        OpenKeepsInv(hidden, w, o, sessionId, now, Step(w, a));
      case Accept(owner, encapsulation, sessionId, now) =>
        OpenKeepsInv(hidden, w, Accepted(owner, encapsulation), sessionId, now, Step(w, a));
      case Send(i, m, now) =>
        if i < |w.endpoints| { SendKeepsInv(hidden, w, i, m, now); }
      case Deliver(i, f, now) =>
        if i < |w.endpoints| { DeliverKeepsInv(hidden, w, i, f, now); }
    }
  }
}
