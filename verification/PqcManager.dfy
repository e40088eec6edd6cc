/** The transport manager: the list of sessions it opened, frame encryption, and expiry. */
module PqcManagers {
  import opened Words
  import opened Wrappers
  import opened Octets
  import opened HybridKems
  import opened PqcSessions

  function SaturatingSub(a: nat, b: nat): nat {
    if a >= b then a - b else 0
  }

  predicate IsExpired(lastActivity: nat, now: nat, timeout: nat) {
    SaturatingSub(now, lastActivity) > timeout
  }

  /** The sessions that are not expired at `now`, in order. */
  function Retained(sessions: seq<PqcSession>, now: nat, timeout: nat): (kept: seq<PqcSession>)
    reads sessions
    ensures |kept| <= |sessions|
    ensures forall s :: s in kept ==> s in sessions
  {
    if sessions == [] then []
    else
      var init, last := sessions[..|sessions| - 1], sessions[|sessions| - 1];
      Retained(init, now, timeout) + if IsExpired(last.lastActivity, now, timeout) then [] else [last]
  }

  class PqcTransportManager {
    var sessions: seq<PqcSession>
    const sessionTimeoutNanos: nat

    constructor (sessionTimeoutSecs: nat)
      ensures sessions == [] && sessionTimeoutNanos == sessionTimeoutSecs * 1_000_000_000
    {
      sessions := [];
      sessionTimeoutNanos := sessionTimeoutSecs * 1_000_000_000;
    }

    /** Sender side: on success one new session joins the list; a bad key changes nothing. */
    method EstablishSession(remote: HybridPublicKey, ephemeral: Scalar, coins: Coins, sessionId: u64, now: u64)
      returns (r: Result<(PqcSession, HybridEncapsulation), PqcError>)
      modifies this
      ensures var sent := HybridKem.Encapsulation(remote, ephemeral, coins);
              match sent
              case Err(e) => r == Err(e) && sessions == old(sessions)
              case Ok((encapsulation, key)) =>
                && r.Ok? && r.value.1 == encapsulation && fresh(r.value.0)
                && r.value.0.State() == InitiatorSession(sessionId, key, now)
                && sessions == old(sessions) + [r.value.0]
    {
      var exchanged := HybridKem.EncapsulateToPeer(remote, ephemeral, coins);
      if exchanged.Err? {
        return Err(exchanged.error);
      }
      var (encapsulation, key) := exchanged.value;
      var sendKey := DeriveDirectionKey(key, SEND);
      var recvKey := DeriveDirectionKey(key, RECV);
      var session := new PqcSession(sessionId, sendKey, recvKey, now);
      sessions := sessions + [session];
      return Ok((session, encapsulation));
    }

    /** Receiver side: the same keys with the directions swapped. */
    method AcceptSession(local: HybridKem, encapsulation: HybridEncapsulation, sessionId: u64, now: u64)
      returns (r: Result<PqcSession, PqcError>)
      modifies this
      ensures match local.Decapsulation(encapsulation)
              case Err(e) => r == Err(e) && sessions == old(sessions)
              case Ok(key) =>
                && r.Ok? && fresh(r.value)
                && r.value.State() == ResponderSession(sessionId, key, now)
                && sessions == old(sessions) + [r.value]
    {
      var exchanged := local.DecapsulateFromPeer(encapsulation);
      if exchanged.Err? {
        return Err(exchanged.error);
      }
      var recvKey := DeriveDirectionKey(exchanged.value, SEND);
      var sendKey := DeriveDirectionKey(exchanged.value, RECV);
      var session := new PqcSession(sessionId, sendKey, recvKey, now);
      sessions := sessions + [session];
      return Ok(session);
    }

    method EncryptFrame(session: PqcSession, m: Message, now: u64) returns (r: Result<EncryptedFrame, PqcError>)
      modifies session
      ensures (session.State(), r) == FrameEncrypted(old(session.State()), m, now)
    {
      var sealed := session.Encrypt(m.payload, FrameAad(m.frameId), now);
      if sealed.Err? {
        return Err(sealed.error);
      }
      return Ok(EncryptedFrame(m.frameId, sealed.value));
    }

    method DecryptFrame(session: PqcSession, f: EncryptedFrame, now: u64) returns (r: Result<seq<byte>, PqcError>)
      modifies session
      ensures (session.State(), r) == FrameDecrypted(old(session.State()), f, now)
    {
      r := session.Decrypt(f.ciphertext, FrameAad(f.frameId), now);
    }

    /** Prunes the list in place; sessions handed out earlier are not touched. */
    method CleanupExpired(now: u64) returns (removed: nat)
      modifies this
      ensures sessions == Retained(old(sessions), now, sessionTimeoutNanos)
      ensures removed == |old(sessions)| - |sessions|
    {
      var kept: seq<PqcSession> := [];
      for i := 0 to |sessions|
        invariant kept == Retained(sessions[..i], now, sessionTimeoutNanos)
      {
        assert sessions[..i + 1][..i] == sessions[..i];
        if !IsExpired(sessions[i].lastActivity, now, sessionTimeoutNanos) {
          kept := kept + [sessions[i]];
        }
      }
      assert sessions[..|sessions|] == sessions;
      removed := |sessions| - |kept|;
      sessions := kept;
    }
  }

  /** Once expired at some time, a session without traffic is expired at every later time. */
  lemma ExpiryMonotone(lastActivity: nat, t1: nat, t2: nat, timeout: nat)
    requires t1 <= t2 && IsExpired(lastActivity, t1, timeout)
    ensures IsExpired(lastActivity, t2, timeout)
  {}

  function Max(a: nat, b: nat): nat {
    if a >= b then a else b
  }

  lemma {:induction false} RetainedConcat(a: seq<PqcSession>, b: seq<PqcSession>, now: nat, timeout: nat)
    ensures Retained(a + b, now, timeout) == Retained(a, now, timeout) + Retained(b, now, timeout)
  {
    if b == [] {
      assert a + b == a;
    } else {
      var init := b[..|b| - 1];
      assert (a + b)[..|a + b| - 1] == a + init;
      RetainedConcat(a, init, now, timeout);
    }
  }

  /**
    Expiry is confluent: with no traffic in between, cleaning at t1 and then at t2, in either
    order of the two times, leaves the ordered list that one cleaning at the later time leaves,
    and the removed counts add up.
   */
  lemma {:induction false} CleanupConfluent(sessions: seq<PqcSession>, t1: nat, t2: nat, timeout: nat)
    ensures Retained(Retained(sessions, t1, timeout), t2, timeout) == Retained(sessions, Max(t1, t2), timeout)
    ensures (|sessions| - |Retained(sessions, t1, timeout)|)
            + (|Retained(sessions, t1, timeout)| - |Retained(Retained(sessions, t1, timeout), t2, timeout)|)
            == |sessions| - |Retained(sessions, Max(t1, t2), timeout)|
  {
    if sessions != [] {
      var init, last := sessions[..|sessions| - 1], sessions[|sessions| - 1];
      CleanupConfluent(init, t1, t2, timeout);
      RetainedConcat(Retained(init, t1, timeout), [last], t2, timeout);
      assert Retained([last], t2, timeout) == if IsExpired(last.lastActivity, t2, timeout) then [] else [last];
      if IsExpired(last.lastActivity, t1, timeout) {
        ExpiryMonotone(last.lastActivity, t1, Max(t1, t2), timeout);
        assert Retained(init, t1, timeout) + [] == Retained(init, t1, timeout);
      } else if IsExpired(last.lastActivity, t2, timeout) {
        ExpiryMonotone(last.lastActivity, t2, Max(t1, t2), timeout);
      }
    }
  }

  /** A session is kept exactly if it was listed and has been active within the timeout; a clock set back drops none. */
  lemma {:induction false} KeptIffActive(sessions: seq<PqcSession>, s: PqcSession, now: nat, timeout: nat)
    ensures s in Retained(sessions, now, timeout) <==> s in sessions && now <= s.lastActivity + timeout
  {
    if sessions != [] {
      var init, last := sessions[..|sessions| - 1], sessions[|sessions| - 1];
      KeptIffActive(init, s, now, timeout);
      assert sessions == init + [last];
    }
  }
}
