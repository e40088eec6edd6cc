/**
  The bytes that keys, nonces and associated data are made of.

  Cryptographic outputs are symbolic: byte `i` of a digest is the term `DigestOctet(input, i)`, so
  SHA-256 is injective by construction while digests remain 32-octet strings that code can copy
  into buffers. Integers and labels are laid out as concrete bytes.
 */
module Octets {
  import opened Words
  import opened Wrappers

  /** X25519 scalars: a principal's static one, a session's ephemeral one, or anything an outsider picks. */
  datatype Scalar = Static(principal: nat) | Ephemeral(draw: nat) | Foreign(id: nat)

  /**
    A public X25519 key as the 32 bytes received. X25519 does not tell all byte strings apart: bit 255
    is masked and values from 2^255 - 19 up are reduced (section 5 of RFC 7748), a clamped scalar
    cancels any component of low order, and a key of low order gives zeros whatever the secret.
    `form` numbers the byte strings that mean the same: 0 is the one key generation writes, 1 the
    same with bit 255 set, and so on.
   */
  datatype X25519Key = OfScalar(scalar: Scalar, form: nat) | LowOrder(form: nat)

  /** Randomness of one ML-KEM encapsulation: drawn by an honest party, or picked by an outsider. */
  datatype Coins = Drawn(draw: nat) | Chosen(id: nat)

  /** A ciphertext made by encapsulating to a key, other bytes of the right length, or of the wrong length. */
  datatype KemCiphertext =
    | Encapsulated(seed: nat, coins: Coins)
    | Garbled(id: nat)
    | WrongLength(id: nat)

  /** What decapsulation yields: the agreed secret, or the implicit-rejection value. */
  datatype KemSecret = Agreed(seed: nat, coins: Coins) | Rejected(seed: nat, ciphertext: KemCiphertext)

  datatype Octet =
    | Plain(value: byte)
    | DigestOctet(input: seq<Octet>, index: nat)
    | DhOctet(scalars: set<Scalar>, index: nat)
    | KemOctet(secret: KemSecret, index: nat)

  // ---- Primitives -------------------------------------------------------------------------

  function Sha256(input: seq<Octet>): (d: seq<Octet>)
    ensures |d| == 32
  {
    seq(32, (i: nat) => DigestOctet(input, i))
  }

  /** The public key that key generation writes for a scalar. */
  function X25519Public(secret: Scalar): X25519Key {
    OfScalar(secret, 0)
  }

  /** X25519 of a scalar and a received key, the same from either side (section 6.1 of RFC 7748). */
  function X25519(secret: Scalar, peer: X25519Key): (shared: seq<Octet>)
    ensures |shared| == 32
  {
    match peer
    case OfScalar(scalar, _) => seq(32, (i: nat) => DhOctet({secret, scalar}, i))
    case LowOrder(_) => seq(32, (i: nat) => Plain(0))
  }

  function KemBytes(secret: KemSecret): (shared: seq<Octet>)
    ensures |shared| == 32
  {
    seq(32, (i: nat) => KemOctet(secret, i))
  }

  lemma Sha256Injective(a: seq<Octet>, b: seq<Octet>)
    requires Sha256(a) == Sha256(b)
    ensures a == b
  {
    assert Sha256(a)[0] == DigestOctet(a, 0) && Sha256(b)[0] == DigestOctet(b, 0);
  }

  /** Two byte strings that X25519 treats alike. */
  predicate Alike(k1: X25519Key, k2: X25519Key) {
    (k1.LowOrder? && k2.LowOrder?) || (k1.OfScalar? && k2.OfScalar? && k1.scalar == k2.scalar)
  }

  /** A shared secret determines the received key up to its encoding, and no further. */
  lemma SameSharedIffAlike(secret: Scalar, k1: X25519Key, k2: X25519Key)
    ensures X25519(secret, k1) == X25519(secret, k2) <==> Alike(k1, k2)
  {
    var d1, d2 := X25519(secret, k1)[0], X25519(secret, k2)[0];
    if d1 == d2 && k1.OfScalar? && k2.OfScalar? {
      assert k1.scalar in {secret, k2.scalar} && k2.scalar in {secret, k1.scalar};
    }
  }

  lemma KemBytesInjective(a: KemSecret, b: KemSecret)
    requires KemBytes(a) == KemBytes(b)
    ensures a == b
  {
    assert KemBytes(a)[0] == KemOctet(a, 0) && KemBytes(b)[0] == KemOctet(b, 0);
  }

  // ---- Integers and labels as bytes --------------------------------------------------------

  /** `n.to_le_bytes()` of a `k`-byte integer. */
  function LeBytes(n: nat, k: nat): (bytes: seq<Octet>)
    ensures |bytes| == k
  {
    if k == 0 then [] else [Plain(n % 256)] + LeBytes(n / 256, k - 1)
  }

  function Pow256(k: nat): (p: nat)
    ensures p > 0
  {
    if k == 0 then 1 else 256 * Pow256(k - 1)
  }

  lemma {:induction false} LeBytesInjective(a: nat, b: nat, k: nat)
    requires a < Pow256(k) && b < Pow256(k) && LeBytes(a, k) == LeBytes(b, k)
    ensures a == b
  {
    if k > 0 {
      assert LeBytes(a, k)[0] == Plain(a % 256) && LeBytes(b, k)[0] == Plain(b % 256);
      assert LeBytes(a, k)[1..] == LeBytes(a / 256, k - 1);
      assert LeBytes(b, k)[1..] == LeBytes(b / 256, k - 1);
      LeBytesInjective(a / 256, b / 256, k - 1);
    }
  }

  lemma {:induction false} LeBytesTruncate(n: nat, k: nat, j: nat)
    requires j <= k
    ensures LeBytes(n, k)[..j] == LeBytes(n, j)
  {
    if j > 0 {
      LeBytesTruncate(n / 256, k - 1, j - 1);
      assert LeBytes(n, k)[..j] == [Plain(n % 256)] + LeBytes(n / 256, k - 1)[..j - 1];
    }
  }

  /** Plain bytes read as a number, least significant first; no other octet counts. */
  function LeValue(bytes: seq<Octet>): Option<nat> {
    if bytes == [] then Some(0)
    else
      var rest :- LeValue(bytes[1..]);
      if bytes[0].Plain? then Some(bytes[0].value + 256 * rest) else None
  }

  lemma {:induction false} LeBytesReadBack(n: nat, k: nat)
    requires n < Pow256(k)
    ensures LeValue(LeBytes(n, k)) == Some(n)
  {
    if k > 0 {
      LeBytesReadBack(n / 256, k - 1);
      assert LeBytes(n, k)[1..] == LeBytes(n / 256, k - 1);
    }
  }

  const LIMIT: nat := 0x1_0000_0000_0000_0000

  /** The 12-byte AES-GCM nonce: the low bytes of the u128 counter. */
  function NonceBytes(counter: nat): (nonce: seq<Octet>)
    ensures |nonce| == 12
  {
    LeBytes(counter, 16)[0..12]
  }

  /** Below 2^64 the twelve bytes of a nonce, read least significant first, are the counter. */
  lemma NonceReadBack(counter: nat)
    requires counter < 0x1_0000_0000_0000_0000
    ensures LeValue(NonceBytes(counter)) == Some(counter)
  {
    LeBytesTruncate(counter, 16, 12);
    assert LeBytes(counter, 16)[0..12] == LeBytes(counter, 16)[..12];
    Pow256Of12();
    LeBytesReadBack(counter, 12);
  }

  /** Dropping the top four bytes loses nothing below the counter's limit of 2^64. */
  lemma NonceInjective(a: nat, b: nat)
    requires a < LIMIT && b < LIMIT && NonceBytes(a) == NonceBytes(b)
    ensures a == b
  {
    LeBytesTruncate(a, 16, 12);
    LeBytesTruncate(b, 16, 12);
    assert LeBytes(a, 16)[0..12] == LeBytes(a, 16)[..12];
    assert LeBytes(b, 16)[0..12] == LeBytes(b, 16)[..12];
    Pow256Of12();
    LeBytesInjective(a, b, 12);
  }

  lemma Pow256Of12()
    ensures Pow256(12) > LIMIT
    ensures Pow256(8) == LIMIT
  {}

  /** `frame_id.to_le_bytes()`, the associated data of a frame. */
  function FrameAad(frameId: u64): seq<Octet> {
    LeBytes(frameId, 8)
  }

  /** The eight bytes of associated data, read least significant first, are the frame id. */
  lemma FrameAadReadBack(frameId: u64)
    ensures |FrameAad(frameId)| == 8 && LeValue(FrameAad(frameId)) == Some(frameId)
  {
    Pow256Of12();
    LeBytesReadBack(frameId, 8);
  }

  lemma FrameAadInjective(a: u64, b: u64)
    requires FrameAad(a) == FrameAad(b)
    ensures a == b
  {
    Pow256Of12();
    LeBytesInjective(a, b, 8);
  }

  datatype Label = SEND | RECV

  function LabelBytes(tag: Label): (bytes: seq<Octet>)
    ensures |bytes| == 4
  {
    match tag
    case SEND => [Plain(0x53), Plain(0x45), Plain(0x4E), Plain(0x44)]
    case RECV => [Plain(0x52), Plain(0x45), Plain(0x43), Plain(0x56)]
  }

  /** ASCII text as bytes. */
  function Ascii(s: string): (bytes: seq<Octet>)
    requires forall i :: 0 <= i < |s| ==> s[i] as int < 128
    ensures |bytes| == |s|
  {
    seq(|s|, (i: nat) requires i < |s| && s[i] as int < 128 => Plain(s[i] as int))
  }

  lemma LabelText()
    ensures LabelBytes(SEND) == Ascii("SEND") && LabelBytes(RECV) == Ascii("RECV")
  {}
}
