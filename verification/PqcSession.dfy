/** One AES-256-GCM session: two directional keys and two implicit nonce counters. */
module PqcSessions {
  import opened Words
  import opened Wrappers
  import opened Octets
  import opened HybridKems

  /** An AEAD ciphertext as a term, or bytes that open under no key. */
  datatype Ciphertext =
    | Sealed(key: seq<Octet>, nonce: seq<Octet>, aad: seq<Octet>, plaintext: seq<byte>)
    | Junk(id: nat)

  /** The longest plaintext the cipher accepts. */
  const MAX_PLAINTEXT: nat := 0x10_0000_0000

  function Seal(key: seq<Octet>, nonce: seq<Octet>, aad: seq<Octet>, plaintext: seq<byte>): Option<Ciphertext> {
    if |plaintext| <= MAX_PLAINTEXT then Some(Sealed(key, nonce, aad, plaintext)) else None
  }

  /** Opening succeeds on what was sealed under the same key, nonce and associated data, and on nothing else. */
  function Open(key: seq<Octet>, nonce: seq<Octet>, aad: seq<Octet>, c: Ciphertext): Option<seq<byte>> {
    if c.Sealed? && c.key == key && c.nonce == nonce && c.aad == aad then Some(c.plaintext) else None
  }

  datatype SessionState = SessionState(
    sessionId: u64,
    sendKey: seq<Octet>,
    recvKey: seq<Octet>,
    sendNonce: nat,
    recvNonce: nat,
    lastActivity: u64)

  function NewSession(sessionId: u64, sendKey: seq<Octet>, recvKey: seq<Octet>, now: u64): SessionState {
    SessionState(sessionId, sendKey, recvKey, 0, 0, now)
  }

  /** The initiator sends under SEND and receives under RECV. */
  function InitiatorSession(sessionId: u64, shared: seq<Octet>, now: u64): SessionState {
    NewSession(sessionId, DirectionKey(shared, SEND), DirectionKey(shared, RECV), now)
  }

  /** The responder has the directions swapped. */
  function ResponderSession(sessionId: u64, shared: seq<Octet>, now: u64): SessionState {
    NewSession(sessionId, DirectionKey(shared, RECV), DirectionKey(shared, SEND), now)
  }

  /**
    The initiator seals under the key hashed with "SEND" and opens with that hashed with "RECV",
    the responder the other way round; both start at number 0.
   */
  lemma SessionKeys(sessionId: u64, shared: seq<Octet>, now: u64)
    returns (send: seq<Octet>, recv: seq<Octet>)
    requires |shared| == 32
    ensures |send| == |recv| == 64 && send[..32] == recv[..32] == shared
    ensures send[32..36] == Ascii("SEND") && recv[32..36] == Ascii("RECV")
    ensures forall i :: 36 <= i < 64 ==> send[i] == recv[i] == Plain(0)
    ensures InitiatorSession(sessionId, shared, now) == SessionState(sessionId, Sha256(send), Sha256(recv), 0, 0, now)
    ensures ResponderSession(sessionId, shared, now) == SessionState(sessionId, Sha256(recv), Sha256(send), 0, 0, now)
  {
    hide DirectionKey, Ascii;
    send := DirectionKeyMaterial(shared, SEND);
    recv := DirectionKeyMaterial(shared, RECV);
  }

  function Encrypted(s: SessionState, plaintext: seq<byte>, aad: seq<Octet>, now: u64)
    : (SessionState, Result<Ciphertext, PqcError>)
  {
    if s.sendNonce >= LIMIT then (s, Err(NonceExhausted(s.sessionId)))
    else
      match Seal(s.sendKey, NonceBytes(s.sendNonce), aad, plaintext)
      case None => (s, Err(EncryptionFailed))
      case Some(c) => (s.(sendNonce := s.sendNonce + 1, lastActivity := now), Ok(c))
  }

  function Decrypted(s: SessionState, c: Ciphertext, aad: seq<Octet>, now: u64)
    : (SessionState, Result<seq<byte>, PqcError>)
  {
    if s.recvNonce >= LIMIT then (s, Err(NonceExhausted(s.sessionId)))
    else
      match Open(s.recvKey, NonceBytes(s.recvNonce), aad, c)
      case None => (s, Err(DecryptionFailed))
      case Some(plaintext) => (s.(recvNonce := s.recvNonce + 1, lastActivity := now), Ok(plaintext))
  }

  class PqcSession {
    const sessionId: u64
    const sendKey: seq<Octet>
    const recvKey: seq<Octet>
    var sendNonce: nat
    var recvNonce: nat
    var lastActivity: u64

    function State(): SessionState
      reads this
    {
      SessionState(sessionId, sendKey, recvKey, sendNonce, recvNonce, lastActivity)
    }

    constructor (sessionId: u64, sendKey: seq<Octet>, recvKey: seq<Octet>, now: u64)
      ensures State() == NewSession(sessionId, sendKey, recvKey, now)
      ensures this.sessionId == sessionId && this.sendKey == sendKey && this.recvKey == recvKey
      ensures sendNonce == recvNonce == 0 && lastActivity == now
    {
      this.sessionId, this.sendKey, this.recvKey := sessionId, sendKey, recvKey;
      sendNonce, recvNonce, lastActivity := 0, 0, now;
    }

    /** Exhausted first, then refused by the cipher; only a success moves the counter and the activity time. */
    method Encrypt(plaintext: seq<byte>, aad: seq<Octet>, now: u64) returns (r: Result<Ciphertext, PqcError>)
      modifies this
      ensures (State(), r) == Encrypted(old(State()), plaintext, aad, now)
      ensures r.Ok? <==> old(sendNonce) < 0x1_0000_0000_0000_0000 && |plaintext| <= 0x10_0000_0000
      ensures r.Ok? ==> r.value == Sealed(sendKey, NonceBytes(old(sendNonce)), aad, plaintext)
      ensures sendNonce == old(sendNonce) + (if r.Ok? then 1 else 0) && recvNonce == old(recvNonce)
      ensures lastActivity == if r.Ok? then now else old(lastActivity)
      ensures r.Err? ==> r.error == if old(sendNonce) >= 0x1_0000_0000_0000_0000 then NonceExhausted(sessionId)
                                    else EncryptionFailed
    {
      if sendNonce >= LIMIT {
        return Err(NonceExhausted(sessionId));
      }
      var sealed := Seal(sendKey, NonceBytes(sendNonce), aad, plaintext);
      if sealed.None? {
        return Err(EncryptionFailed);
      }
      sendNonce := sendNonce + 1;
      lastActivity := now;
      return Ok(sealed.value);
    }

    /** Opens exactly what the peer sealed under the number the session stands at; failing changes nothing. */
    method Decrypt(c: Ciphertext, aad: seq<Octet>, now: u64) returns (r: Result<seq<byte>, PqcError>)
      modifies this
      ensures (State(), r) == Decrypted(old(State()), c, aad, now)
      ensures r.Ok? <==> old(recvNonce) < 0x1_0000_0000_0000_0000
                         && exists p :: c == Sealed(recvKey, NonceBytes(old(recvNonce)), aad, p)
      ensures r.Ok? ==> c == Sealed(recvKey, NonceBytes(old(recvNonce)), aad, r.value)
      ensures recvNonce == old(recvNonce) + (if r.Ok? then 1 else 0) && sendNonce == old(sendNonce)
      ensures lastActivity == if r.Ok? then now else old(lastActivity)
      ensures r.Err? ==> r.error == if old(recvNonce) >= 0x1_0000_0000_0000_0000 then NonceExhausted(sessionId)
                                    else DecryptionFailed
    {
      if recvNonce >= LIMIT {
        return Err(NonceExhausted(sessionId));
      }
      var plain := Open(recvKey, NonceBytes(recvNonce), aad, c);
      if plain.None? {
        return Err(DecryptionFailed);
      }
      recvNonce := recvNonce + 1;
      lastActivity := now;
      return Ok(plain.value);
    }
  }

  // ---- Frames ------------------------------------------------------------------------------

  datatype Message = Message(frameId: u64, payload: seq<byte>)

  /** An encrypted frame; its nonce and tag fields are always zero in the source and carry nothing. */
  datatype EncryptedFrame = EncryptedFrame(frameId: u64, ciphertext: Ciphertext)

  function FrameEncrypted(s: SessionState, m: Message, now: u64): (SessionState, Result<EncryptedFrame, PqcError>) {
    var (t, r) := Encrypted(s, m.payload, FrameAad(m.frameId), now);
    (t, match r case Err(e) => Err(e) case Ok(c) => Ok(EncryptedFrame(m.frameId, c)))
  }

  function FrameDecrypted(s: SessionState, f: EncryptedFrame, now: u64): (SessionState, Result<seq<byte>, PqcError>) {
    Decrypted(s, f.ciphertext, FrameAad(f.frameId), now)
  }

  // ---- One direction of a channel ------------------------------------------------------------

  /** Sending a list of messages, at whatever times: the final state and the frames; failed sends give none. */
  function SendAll(s: SessionState, messages: seq<Message>, clock: nat -> u64): (SessionState, seq<EncryptedFrame>)
    decreases |messages|
  {
    if messages == [] then (s, [])
    else
      var (t, r) := FrameEncrypted(s, messages[0], clock(|messages|));
      var (u, rest) := SendAll(t, messages[1..], clock);
      (u, (if r.Ok? then [r.value] else []) + rest)
  }

  /** Handing over a list of frames, at whatever times: the final state and the messages accepted. */
  function ReceiveAll(s: SessionState, frames: seq<EncryptedFrame>, clock: nat -> u64): (SessionState, seq<Message>)
    decreases |frames|
  {
    if frames == [] then (s, [])
    else
      var (t, r) := FrameDecrypted(s, frames[0], clock(|frames|));
      var (u, rest) := ReceiveAll(t, frames[1..], clock);
      (u, (if r.Ok? then [Message(frames[0].frameId, r.value)] else []) + rest)
  }

  /** `b` receives what `a` sends, and both counters stand at the same number. */
  predicate InStep(a: SessionState, b: SessionState) {
    b.recvKey == a.sendKey && b.recvNonce == a.sendNonce
  }

  lemma TransferStep(a: SessionState, b: SessionState, m: Message, sentAt: u64, receivedAt: u64)
    requires InStep(a, b) && a.sendNonce < LIMIT && |m.payload| <= MAX_PLAINTEXT
    ensures var (t, r) := FrameEncrypted(a, m, sentAt);
            && r.Ok? && r.value.frameId == m.frameId
            && t.sendNonce == a.sendNonce + 1
            && var (u, plain) := FrameDecrypted(b, r.value, receivedAt);
            && plain.Ok? && Message(r.value.frameId, plain.value) == m
            && InStep(t, u)
  {
    hide NonceBytes, FrameAad;
  }

  /**
    Frames handed over in order all decrypt to what was sent, and both counters advance together
    by the number of messages, up to 2^64 of them in all.
   */
  lemma {:induction false} InOrderTransfer(a: SessionState, b: SessionState, messages: seq<Message>,
                                           sendClock: nat -> u64, recvClock: nat -> u64)
    requires InStep(a, b) && a.sendNonce + |messages| <= LIMIT
    requires forall m | m in messages :: |m.payload| <= MAX_PLAINTEXT
    ensures var (a', frames) := SendAll(a, messages, sendClock);
            var (b', accepted) := ReceiveAll(b, frames, recvClock);
            && accepted == messages
            && InStep(a', b') && a'.sendNonce == a.sendNonce + |messages|
    decreases |messages|
  {
    hide FrameEncrypted, FrameDecrypted, InStep;
    if messages == [] {
      assert SendAll(a, messages, sendClock) == (a, []) && ReceiveAll(b, [], recvClock) == (b, []);
    } else {
      var m := messages[0];
      var (t, r) := FrameEncrypted(a, m, sendClock(|messages|));
      TransferStep(a, b, m, sendClock(|messages|), recvClock(|messages|));
      var u := FrameDecrypted(b, r.value, recvClock(|messages|)).0;
      InOrderTransfer(t, u, messages[1..], sendClock, recvClock);
      SendCount(a, messages, sendClock);
      var rest := SendAll(t, messages[1..], sendClock).1;
      var frames := SendAll(a, messages, sendClock).1;
      assert frames == [r.value] + rest && frames[1..] == rest;
      assert messages == [m] + messages[1..];
    }
  }

  /** After 2^64 messages in a direction every further call fails and changes nothing. */
  lemma {:induction false} SenderExhausted(s: SessionState, messages: seq<Message>, clock: nat -> u64)
    requires s.sendNonce >= LIMIT
    ensures SendAll(s, messages, clock) == (s, [])
    decreases |messages|
  {
    if messages != [] {
      SenderExhausted(s, messages[1..], clock);
      assert SendAll(s, messages, clock).1 == [];
    }
  }

  lemma {:induction false} ReceiverExhausted(s: SessionState, frames: seq<EncryptedFrame>, clock: nat -> u64)
    requires s.recvNonce >= LIMIT
    ensures ReceiveAll(s, frames, clock) == (s, [])
    decreases |frames|
  {
    if frames != [] {
      ReceiverExhausted(s, frames[1..], clock);
      assert ReceiveAll(s, frames, clock).1 == [];
    }
  }

  /** Frame `k` of a list of sends carries number `sendNonce + k`. */
  lemma {:induction false} SentFrameAt(s: SessionState, messages: seq<Message>, clock: nat -> u64, k: nat)
    requires s.sendNonce + |messages| <= LIMIT && k < |messages|
    requires forall m | m in messages :: |m.payload| <= MAX_PLAINTEXT
    ensures var (_, frames) := SendAll(s, messages, clock);
            && |frames| == |messages|
            && frames[k] == EncryptedFrame(messages[k].frameId,
                 Sealed(s.sendKey, NonceBytes(s.sendNonce + k), FrameAad(messages[k].frameId), messages[k].payload))
    decreases |messages|
  {
    hide NonceBytes, FrameAad;
    var t := FrameEncrypted(s, messages[0], clock(|messages|)).0;
    if |messages| > 1 {
      SentFrameAt(t, messages[1..], clock, if k > 0 then k - 1 else 0);
    } else {
      assert messages[1..] == [];
    }
  }

  /** The ciphertext of a sent frame, but not the awaited frame under its own frame id. */
  ghost predicate OutOfTurn(frames: seq<EncryptedFrame>, f: EncryptedFrame) {
    exists k :: 0 <= k < |frames| && f.ciphertext == frames[k].ciphertext && (k > 0 || f.frameId != frames[0].frameId)
  }

  /**
    A missing frame blocks: of the frames a sender in step has made, any selection in any order,
    repeated and relabelled at will, changes nothing as long as the first of them is left out.
   */
  lemma {:induction false} GapBlocks(a: SessionState, b: SessionState, messages: seq<Message>, sendClock: nat -> u64,
                                     picked: seq<EncryptedFrame>, clock: nat -> u64)
    requires InStep(a, b) && a.sendNonce + |messages| <= LIMIT
    requires forall m | m in messages :: |m.payload| <= MAX_PLAINTEXT
    requires forall f | f in picked :: OutOfTurn(SendAll(a, messages, sendClock).1, f)
    ensures ReceiveAll(b, picked, clock) == (b, [])
    decreases |picked|
  {
    if picked != [] {
      OutOfTurnFails(a, b, messages, sendClock, picked[0], clock(|picked|));
      GapBlocks(a, b, messages, sendClock, picked[1..], clock);
      assert ReceiveAll(b, picked, clock).1 == [];
    }
  }

  lemma OutOfTurnFails(a: SessionState, b: SessionState, messages: seq<Message>, sendClock: nat -> u64,
                       f: EncryptedFrame, now: u64)
    requires InStep(a, b) && a.sendNonce + |messages| <= LIMIT
    requires forall m | m in messages :: |m.payload| <= MAX_PLAINTEXT
    requires OutOfTurn(SendAll(a, messages, sendClock).1, f)
    ensures FrameDecrypted(b, f, now).0 == b && FrameDecrypted(b, f, now).1.Err?
  {
    hide NonceBytes, FrameAad, SendAll;
    SendCount(a, messages, sendClock);
    var frames := SendAll(a, messages, sendClock).1;
    var k :| 0 <= k < |frames| && f.ciphertext == frames[k].ciphertext && (k > 0 || f.frameId != frames[0].frameId);
    SentFrameAt(a, messages, sendClock, k);
    if NonceBytes(b.recvNonce) == NonceBytes(a.sendNonce + k) {
      NonceInjective(b.recvNonce, a.sendNonce + k);
    }
    if FrameAad(f.frameId) == FrameAad(messages[k].frameId) {
      FrameAadInjective(f.frameId, messages[k].frameId);
    }
  }

  lemma {:induction false} SendCount(s: SessionState, messages: seq<Message>, clock: nat -> u64)
    requires s.sendNonce + |messages| <= LIMIT && forall m | m in messages :: |m.payload| <= MAX_PLAINTEXT
    ensures |SendAll(s, messages, clock).1| == |messages|
  {
    if messages != [] { SentFrameAt(s, messages, clock, 0); }
  }
}
