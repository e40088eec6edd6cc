/** What holds over every run of the network: channel safety, nonce uniqueness, and progress. */
module PqcChannel {
  import opened Words
  import opened Wrappers
  import opened Octets
  import opened HybridKems
  import opened PqcSessions
  import opened PqcNetwork

  /** What an initiator sends to its peer. */
  function EncapsulationOf(o: Origin): HybridEncapsulation
    requires o.Established? && SharedOf(o).Ok?
  {
    HybridKem.Encapsulation(o.remote, o.ephemeral, o.coins).value.0
  }

  /** The secrets a shared key was made of, read back from an origin. */
  function DhOf(o: Origin): (dh: seq<Octet>)
    ensures |dh| == 32
  {
    match o
    case Established(_, remote, ephemeral, _) => X25519(ephemeral, remote.x25519)
    case Accepted(owner, e) => X25519(Static(owner), e.ephemeral)
  }

  function SecretOf(o: Origin): KemSecret
    requires SharedOf(o).Ok?
  {
    match o
    case Established(_, remote, _, coins) => MlKemEncapsulate(remote.mlkem, coins).value.1
    case Accepted(owner, e) => MlKemDecapsulate(owner, e.ciphertext).value
  }

  /** A public key one of whose two halves has a hidden secret. */
  predicate Intact(hidden: Secrets, key: HybridPublicKey) {
    || (key.mlkem.ValidKey? && key.mlkem.seed in hidden.kem)
    || (key.x25519.OfScalar? && key.x25519.scalar.Static? && key.x25519.scalar.principal in hidden.dh)
  }

  /**
    `i` is a session established to a public key with a hidden half, and `j` one that accepted, with
    that key's ML-KEM seed, the ciphertext `i` sent, next to an X25519 key that leads to the same
    secret, however it was encoded on the way.
   */
  ghost predicate Paired(hidden: Secrets, w: World, i: nat, j: nat) {
    && i < |w.endpoints| && j < |w.endpoints|
    && var a, b := w.endpoints[i].origin, w.endpoints[j].origin;
    && a.Established? && b.Accepted?
    && Intact(hidden, a.remote)
    && a.remote.mlkem == ValidKey(b.owner)
    && b.encapsulation.ciphertext == Encapsulated(b.owner, a.coins)
    && DhOf(a) == DhOf(b)
  }

  /** The same principal accepted the same ciphertext, with X25519 keys it cannot tell apart. */
  predicate SameExchange(a: Origin, b: Origin) {
    && a.Accepted? && b.Accepted? && a.owner == b.owner
    && a.encapsulation.ciphertext == b.encapsulation.ciphertext
    && DhOf(a) == DhOf(b)
  }

  /** No other session came out of the same exchange at the same principal. */
  ghost predicate SoleAcceptor(w: World, j: nat)
    requires j < |w.endpoints|
  {
    forall k :: 0 <= k < |w.endpoints| && k != j ==> !SameExchange(w.endpoints[k].origin, w.endpoints[j].origin)
  }

  // ---- Keys and who holds them ---------------------------------------------------------------

  lemma SharedOfIs(o: Origin)
    requires SharedOf(o).Ok?
    ensures SharedOf(o).value == SharedKey(DhOf(o), SecretOf(o)) && |SharedOf(o).value| == 32
  {}

  /** Equal AES keys mean the same role and the same exchanged secrets. */
  lemma SameSendKey(p: Endpoint, q: Endpoint, draws: nat)
    requires EndpointOk(p, draws) && EndpointOk(q, draws) && p.state.sendKey == q.state.sendKey
    ensures p.origin.Established? == q.origin.Established?
    ensures DhOf(p.origin) == DhOf(q.origin) && SecretOf(p.origin) == SecretOf(q.origin)
  {
    hide DirectionKey, SharedKey, SharedOf, DhOf, SecretOf;
    SharedOfIs(p.origin);
    SharedOfIs(q.origin);
    DirectionKeyInjective(SharedOf(p.origin).value, SendLabel(p.origin), SharedOf(q.origin).value, SendLabel(q.origin));
    SharedKeyInjective(DhOf(p.origin), SecretOf(p.origin), DhOf(q.origin), SecretOf(q.origin));
  }

  /** Two initiators with equal secrets used the same draw. */
  lemma InitiatorSecret(a: Origin, b: Origin)
    requires a.Established? && b.Established? && SharedOf(a).Ok? && SharedOf(b).Ok? && SecretOf(a) == SecretOf(b)
    ensures a.coins == b.coins
  {}

  /** Two acceptances with equal ML-KEM secrets are of one ciphertext by one principal. */
  lemma AcceptorSecret(a: Origin, b: Origin)
    requires a.Accepted? && b.Accepted? && SharedOf(a).Ok? && SharedOf(b).Ok? && SecretOf(a) == SecretOf(b)
    ensures a.owner == b.owner && a.encapsulation.ciphertext == b.encapsulation.ciphertext
  {}

  lemma SameExchangeSameKey(a: Origin, b: Origin)
    requires SameExchange(a, b) && SharedOf(a).Ok?
    ensures SharedOf(b) == SharedOf(a)
  {
    hide SharedKey, X25519;
  }

  /** Sessions seal under the same key exactly if they are one session or acceptances of one exchange. */
  lemma SendKeyOwner(hidden: Secrets, w: World, s: nat, t: nat)
    requires Inv(hidden, w) && s < |w.endpoints| && t < |w.endpoints|
    ensures w.endpoints[s].state.sendKey == w.endpoints[t].state.sendKey <==>
            s == t || SameExchange(w.endpoints[s].origin, w.endpoints[t].origin)
  {
    hide DirectionKey, SharedOf, DhOf, SecretOf, Authentic;
    var a, b := w.endpoints[s].origin, w.endpoints[t].origin;
    assert EndpointOk(w.endpoints[s], w.draws) && EndpointOk(w.endpoints[t], w.draws);
    if w.endpoints[s].state.sendKey == w.endpoints[t].state.sendKey {
      SameSendKey(w.endpoints[s], w.endpoints[t], w.draws);
      if a.Established? {
        InitiatorSecret(a, b);
      } else {
        AcceptorSecret(a, b);
      }
    }
    if SameExchange(a, b) { SameExchangeSameKey(a, b); }
  }

  /** What is delivered as it was sent, to the principal it was meant for, makes a pair. */
  lemma DeliveredIsPaired(hidden: Secrets, w: World, i: nat, j: nat)
    requires Inv(hidden, w) && i < |w.endpoints| && j < |w.endpoints|
    requires var a, b := w.endpoints[i].origin, w.endpoints[j].origin;
             && a.Established? && b.Accepted? && (b.owner in hidden.dh || b.owner in hidden.kem)
             && a.remote == KemOf(b.owner).PublicKey() && b.encapsulation == EncapsulationOf(a)
    ensures Paired(hidden, w, i, j)
  {
    hide SharedOf, Authentic, DirectionKey;
    assert EndpointOk(w.endpoints[i], w.draws);
    var a, b := w.endpoints[i].origin, w.endpoints[j].origin;
    assert {a.ephemeral, Static(b.owner)} == {Static(b.owner), a.ephemeral};
  }

  /** Pairs are exactly the sessions that derived the same key from a public key with a hidden half. */
  lemma PairedIffSameKey(hidden: Secrets, w: World, i: nat, j: nat)
    requires Inv(hidden, w) && i < |w.endpoints| && j < |w.endpoints|
    requires var a, b := w.endpoints[i].origin, w.endpoints[j].origin;
             a.Established? && b.Accepted? && Intact(hidden, a.remote)
    ensures Paired(hidden, w, i, j) <==> SharedOf(w.endpoints[i].origin) == SharedOf(w.endpoints[j].origin)
  {
    hide SharedKey, X25519, Authentic, DirectionKey;
    var a, b := w.endpoints[i].origin, w.endpoints[j].origin;
    assert EndpointOk(w.endpoints[i], w.draws) && EndpointOk(w.endpoints[j], w.draws);
    SharedOfIs(a);
    SharedOfIs(b);
    if SharedOf(a) == SharedOf(b) {
      SharedKeyInjective(DhOf(a), SecretOf(a), DhOf(b), SecretOf(b));
    }
  }

  /** At least one of the two secrets behind a pair's key is hidden. */
  lemma PairedIsHidden(hidden: Secrets, w: World, i: nat, j: nat)
    requires Paired(hidden, w, i, j) && DrawnBefore(w.endpoints[i].origin, w.draws)
    ensures var a := w.endpoints[i].origin;
            SharedOf(a).Ok? && (KemHidden(hidden, SecretOf(a)) || DhHidden(hidden, DhOf(a)))
  {
    hide SharedKey;
    var a := w.endpoints[i].origin;
    if a.remote.mlkem.seed !in hidden.kem {
      var p := a.remote.x25519.scalar.principal;
      assert DhOf(a) == X25519(Ephemeral(a.coins.draw), X25519Public(Static(p)));
    }
  }

  /** The two ends of a pair hold mirrored keys, and the adversary can seal under neither. */
  lemma PairedKeysMirror(hidden: Secrets, w: World, i: nat, j: nat)
    requires Inv(hidden, w) && Paired(hidden, w, i, j)
    ensures w.endpoints[i].state.sendKey == w.endpoints[j].state.recvKey
    ensures w.endpoints[j].state.sendKey == w.endpoints[i].state.recvKey
    ensures Guarded(hidden, w.endpoints[i].state.recvKey) && Guarded(hidden, w.endpoints[j].state.recvKey)
  {
    hide DirectionKey, SharedKey, Authentic, SharedOf, DhOf, Paired, KemHidden, DhHidden;
    PairedRoles(hidden, w, i, j);
    var p, q := w.endpoints[i], w.endpoints[j];
    assert EndpointOk(p, w.draws) && EndpointOk(q, w.draws);
    PairedIffSameKey(hidden, w, i, j);
    PairedIsHidden(hidden, w, i, j);
    SharedOfIs(p.origin);
    var key := SharedKey(DhOf(p.origin), SecretOf(p.origin));
    assert p.state.recvKey == DirectionKey(key, RECV);
    assert q.state.recvKey == DirectionKey(key, SEND);
  }

  lemma PairedRoles(hidden: Secrets, w: World, i: nat, j: nat)
    requires Paired(hidden, w, i, j)
    ensures i < |w.endpoints| && j < |w.endpoints| && i != j
    ensures w.endpoints[i].origin.Established? && w.endpoints[j].origin.Accepted?
    ensures Intact(hidden, w.endpoints[i].origin.remote)
  {}

  // ---- Channel safety ------------------------------------------------------------------------

  /** Nobody but `s` seals under the key `r` opens with. */
  ghost predicate OnlySealer(w: World, r: nat, s: nat)
    requires r < |w.endpoints|
  {
    forall k :: 0 <= k < |w.endpoints| && k != s ==> w.endpoints[k].state.sendKey != w.endpoints[r].state.recvKey
  }

  lemma VouchedPrefix(hidden: Secrets, w: World, r: nat, s: nat)
    requires Inv(hidden, w) && r < |w.endpoints| && s < |w.endpoints|
    requires Guarded(hidden, w.endpoints[r].state.recvKey)
    requires OnlySealer(w, r, s)
    ensures w.endpoints[r].received <= w.endpoints[s].sent
  {
    hide Guarded, EndpointOk;
    var p, q := w.endpoints[r], w.endpoints[s];
    assert Authentic(hidden, w, p);
    forall t: nat | t < |p.received|
      ensures SentAs(q, p.state.recvKey, t, p.received[t])
    {
      assert Vouched(w, p, t);
    }
    if p.received != [] {
      assert SentAs(q, p.state.recvKey, |p.received| - 1, p.received[|p.received| - 1]);
    }
  }

  lemma OnlyInitiatorSeals(hidden: Secrets, w: World, i: nat, j: nat)
    requires Inv(hidden, w) && Paired(hidden, w, i, j)
    ensures OnlySealer(w, j, i)
  {
    hide Inv, Guarded, DhOf;
    PairedKeysMirror(hidden, w, i, j);
    forall k | 0 <= k < |w.endpoints| && w.endpoints[k].state.sendKey == w.endpoints[j].state.recvKey
      ensures k == i
    {
      SendKeyOwner(hidden, w, i, k);
    }
  }

  lemma OnlyResponderSeals(hidden: Secrets, w: World, i: nat, j: nat)
    requires Inv(hidden, w) && Paired(hidden, w, i, j) && SoleAcceptor(w, j)
    ensures OnlySealer(w, i, j)
  {
    hide Inv, Guarded, DhOf;
    PairedKeysMirror(hidden, w, i, j);
    forall k | 0 <= k < |w.endpoints| && w.endpoints[k].state.sendKey == w.endpoints[i].state.recvKey
      ensures k == j
    {
      SendKeyOwner(hidden, w, k, j);
    }
  }

  /**
    Initiator to responder, in every run whatever the adversary does: the (frame id, payload)
    pairs the responder has accepted are a prefix of those the initiator sent.
   */
  lemma ResponderAcceptsPrefix(hidden: Secrets, actions: seq<Action>, i: nat, j: nat)
    requires IsRun(hidden, actions) && Paired(hidden, Exec(actions), i, j)
    ensures var w := Exec(actions); w.endpoints[j].received <= w.endpoints[i].sent
  {
    hide Guarded, EndpointOk, DirectionKey;
    var w := Exec(actions);
    RunKeepsInv(hidden, actions);
    PairedKeysMirror(hidden, w, i, j);
    OnlyInitiatorSeals(hidden, w, i, j);
    VouchedPrefix(hidden, w, j, i);
  }

  /** Responder to initiator: the same, provided the exchange was accepted only once. */
  lemma InitiatorAcceptsPrefix(hidden: Secrets, actions: seq<Action>, i: nat, j: nat)
    requires IsRun(hidden, actions) && Paired(hidden, Exec(actions), i, j) && SoleAcceptor(Exec(actions), j)
    ensures var w := Exec(actions); w.endpoints[i].received <= w.endpoints[j].sent
  {
    hide Guarded, EndpointOk, DirectionKey;
    var w := Exec(actions);
    RunKeepsInv(hidden, actions);
    PairedKeysMirror(hidden, w, i, j);
    OnlyResponderSeals(hidden, w, i, j);
    VouchedPrefix(hidden, w, i, j);
  }

  /** A session never accepts its own frames back, under any frame id. */
  lemma ReflectionRejected(hidden: Secrets, actions: seq<Action>, i: nat, t: nat, frameId: u64, now: u64)
    requires IsRun(hidden, actions) && i < |Exec(actions).endpoints| && t < |Exec(actions).endpoints[i].sent|
    ensures var p := Exec(actions).endpoints[i];
            FrameDecrypted(p.state, EncryptedFrame(frameId, SealedFrame(p, t)), now).1.Err?
  {
    hide DirectionKey, SharedOf, Authentic;
    RunKeepsInv(hidden, actions);
    var p := Exec(actions).endpoints[i];
    assert EndpointOk(p, Exec(actions).draws);
    SharedOfIs(p.origin);
    if p.state.sendKey == p.state.recvKey {
      var shared := SharedOf(p.origin).value;
      DirectionKeyInjective(shared, SendLabel(p.origin), shared, RecvLabel(p.origin));
    }
  }

  // ---- Nonce uniqueness -----------------------------------------------------------------------

  /** Two different encryptions, anywhere, used the same AES key with the same nonce. */
  ghost predicate NonceReused(w: World) {
    exists s1: nat, t1: nat, s2: nat, t2: nat ::
      && SameKeyAndNonce(w, s1, t1, s2, t2)
      && (s1, t1) != (s2, t2)
  }

  predicate SameKeyAndNonce(w: World, s1: nat, t1: nat, s2: nat, t2: nat) {
    && s1 < |w.endpoints| && t1 < |w.endpoints[s1].sent|
    && s2 < |w.endpoints| && t2 < |w.endpoints[s2].sent|
    && w.endpoints[s1].state.sendKey == w.endpoints[s2].state.sendKey
    && NonceBytes(t1) == NonceBytes(t2)
  }

  /** One principal accepted one exchange twice and sent on both sessions. */
  ghost predicate ReplayUsed(w: World) {
    exists j: nat, k: nat :: ReplayPair(w, j, k)
  }

  predicate ReplayPair(w: World, j: nat, k: nat) {
    && j < k < |w.endpoints|
    && SameExchange(w.endpoints[j].origin, w.endpoints[k].origin)
    && w.endpoints[j].sent != [] && w.endpoints[k].sent != []
  }

  lemma ReplayReuses(hidden: Secrets, w: World, j: nat, k: nat)
    requires Inv(hidden, w) && ReplayPair(w, j, k)
    ensures SameKeyAndNonce(w, j, 0, k, 0)
  {
    hide SameExchange, Inv, NonceBytes;
    SendKeyOwner(hidden, w, j, k);
  }

  lemma ReuseIsReplay(hidden: Secrets, w: World, s1: nat, t1: nat, s2: nat, t2: nat)
    requires Inv(hidden, w) && SameKeyAndNonce(w, s1, t1, s2, t2) && (s1, t1) != (s2, t2)
    ensures ReplayPair(w, if s1 < s2 then s1 else s2, if s1 < s2 then s2 else s1)
  {
    hide DirectionKey, SharedOf, Authentic, NonceBytes, DhOf;
    assert EndpointOk(w.endpoints[s1], w.draws) && EndpointOk(w.endpoints[s2], w.draws);
    SendKeyOwner(hidden, w, s1, s2);
    NonceInjective(t1, t2);
  }

  /**
    Across all sessions, both endpoints and both directions: a (key, nonce) pair is ever used
    twice exactly when one principal accepted the same ciphertext twice, with X25519 keys that give
    it the same secret, and sent on both sessions.
   */
  lemma NonceReusedIffReplayUsed(hidden: Secrets, actions: seq<Action>)
    requires IsRun(hidden, actions)
    ensures NonceReused(Exec(actions)) <==> ReplayUsed(Exec(actions))
  {
    hide SameKeyAndNonce, ReplayPair, Inv;
    var w := Exec(actions);
    RunKeepsInv(hidden, actions);
    if NonceReused(w) {
      var s1: nat, t1: nat, s2: nat, t2: nat :| SameKeyAndNonce(w, s1, t1, s2, t2) && (s1, t1) != (s2, t2);
      ReuseIsReplay(hidden, w, s1, t1, s2, t2);
    }
    if ReplayUsed(w) {
      var j: nat, k: nat :| ReplayPair(w, j, k);
      ReplayReuses(hidden, w, j, k);
      assert j != k by { ReplayPairOrdered(w, j, k); }
    }
  }

  lemma ReplayPairOrdered(w: World, j: nat, k: nat)
    requires ReplayPair(w, j, k)
    ensures j < k
  {}

  /** The caller's guard: no principal accepts an ML-KEM ciphertext it has accepted before. */
  ghost predicate NoReplay(actions: seq<Action>) {
    forall a, b :: 0 <= a < b < |actions| && actions[a].Accept? && actions[b].Accept? ==>
      actions[a].owner != actions[b].owner || actions[a].encapsulation.ciphertext != actions[b].encapsulation.ciphertext
  }

  predicate SameCiphertext(a: Origin, b: Origin) {
    a.Accepted? && b.Accepted? && a.owner == b.owner && a.encapsulation.ciphertext == b.encapsulation.ciphertext
  }

  /** Every accepted session goes back to an Accept step, different sessions to different ones. */
  ghost predicate AcceptedBy(actions: seq<Action>, o: Origin) {
    exists a :: 0 <= a < |actions| && actions[a].Accept?
                && o == Accepted(actions[a].owner, actions[a].encapsulation)
  }

  ghost predicate Accounted(actions: seq<Action>, es: seq<Endpoint>) {
    && (forall k :: 0 <= k < |es| && es[k].origin.Accepted? ==> AcceptedBy(actions, es[k].origin))
    && (forall j, k :: 0 <= j < k < |es| ==> !SameCiphertext(es[j].origin, es[k].origin))
  }

  /** A step appends at most one endpoint, whose origin it determines, and changes no other's origin. */
  lemma StepOrigins(w: World, a: Action)
    ensures var es, es' := w.endpoints, Step(w, a).endpoints;
            && |es| <= |es'| <= |es| + 1
            && (forall k :: 0 <= k < |es| ==> es'[k].origin == es[k].origin)
            && (|es'| > |es| ==>
                  if a.Accept? then es'[|es|].origin == Accepted(a.owner, a.encapsulation)
                  else es'[|es|].origin.Established?)
  {
    hide SharedOf, DirectionKey, FrameEncrypted, FrameDecrypted;
  }

  lemma AcceptedByEarlier(before: seq<Action>, last: Action, o: Origin)
    requires AcceptedBy(before, o) && NoReplay(before + [last])
    ensures AcceptedBy(before + [last], o)
    ensures last.Accept? ==> !SameCiphertext(o, Accepted(last.owner, last.encapsulation))
  {
    var actions := before + [last];
    var a :| 0 <= a < |before| && before[a].Accept? && o == Accepted(before[a].owner, before[a].encapsulation);
    assert actions[a] == before[a] && actions[|before|] == last;
  }

  lemma AccountedStep(before: seq<Action>, last: Action, es: seq<Endpoint>, es': seq<Endpoint>)
    requires NoReplay(before + [last]) && Accounted(before, es)
    requires |es| <= |es'| <= |es| + 1 && forall k :: 0 <= k < |es| ==> es'[k].origin == es[k].origin
    requires |es'| > |es| ==>
               if last.Accept? then es'[|es|].origin == Accepted(last.owner, last.encapsulation)
               else es'[|es|].origin.Established?
    ensures Accounted(before + [last], es')
  {
    var actions := before + [last];
    assert actions[|before|] == last;
    forall k | 0 <= k < |es| && es'[k].origin.Accepted?
      ensures AcceptedBy(actions, es'[k].origin)
      ensures last.Accept? ==> !SameCiphertext(es'[k].origin, Accepted(last.owner, last.encapsulation))
    {
      assert AcceptedBy(before, es[k].origin);
      AcceptedByEarlier(before, last, es[k].origin);
    }
  }

  lemma NothingToAccount()
    ensures Accounted([], [])
  {}

  lemma {:induction false} OriginsDistinct(actions: seq<Action>)
    requires NoReplay(actions)
    ensures Accounted(actions, Exec(actions).endpoints)
  {
    hide Step, Accounted;
    if actions == [] {
      NothingToAccount();
    } else {
      var before := actions[..|actions| - 1];
      var last := actions[|actions| - 1];
      assert before + [last] == actions;
      OriginsDistinct(before);
      StepOrigins(Exec(before), last);
      AccountedStep(before, last, Exec(before).endpoints, Exec(actions).endpoints);
    }
  }

  /** With that guard no nonce is ever reused, and every acceptor is the sole one. */
  lemma NoReplayIsSafe(hidden: Secrets, actions: seq<Action>)
    requires IsRun(hidden, actions) && NoReplay(actions)
    ensures !NonceReused(Exec(actions))
    ensures forall j: nat :: j < |Exec(actions).endpoints| && Exec(actions).endpoints[j].origin.Accepted? ==>
              SoleAcceptor(Exec(actions), j)
  {
    hide Exec, IsRun, DhOf, NonceReused;
    var es := Exec(actions).endpoints;
    OriginsDistinct(actions);
    NonceReusedIffReplayUsed(hidden, actions);
    forall j, k | 0 <= j < |es| && 0 <= k < |es| && j != k
      ensures !SameExchange(es[j].origin, es[k].origin)
    {
      assert !SameCiphertext(es[if j < k then j else k].origin, es[if j < k then k else j].origin);
    }
  }

  /** Channel safety, both directions at once, under the guard. */
  lemma ChannelSafety(hidden: Secrets, actions: seq<Action>, i: nat, j: nat)
    requires IsRun(hidden, actions) && NoReplay(actions) && Paired(hidden, Exec(actions), i, j)
    ensures var w := Exec(actions);
            && i != j
            && w.endpoints[j].received <= w.endpoints[i].sent
            && w.endpoints[i].received <= w.endpoints[j].sent
  {
    NoReplayIsSafe(hidden, actions);
    ResponderAcceptsPrefix(hidden, actions, i, j);
    InitiatorAcceptsPrefix(hidden, actions, i, j);
  }
}
