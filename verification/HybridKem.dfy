/** Hybrid key exchange: X25519 and ML-KEM-768 combined through SHA-256, and the directional keys. */
module HybridKems {
  import opened Words
  import opened Wrappers
  import opened Octets

  datatype PqcError =
    | InvalidMlKemKey
    | EncryptionFailed
    | DecryptionFailed
    | NonceExhausted(sessionId: u64)

  datatype KemPublicKey = ValidKey(seed: nat) | InvalidKey(id: nat)

  datatype HybridPublicKey = HybridPublicKey(x25519: X25519Key, mlkem: KemPublicKey)

  datatype HybridEncapsulation = HybridEncapsulation(ephemeral: X25519Key, ciphertext: KemCiphertext)

  /** ML-KEM encapsulation to a key, with given randomness (section 7.2 of FIPS 203). */
  function MlKemEncapsulate(key: KemPublicKey, coins: Coins): Result<(KemCiphertext, KemSecret), PqcError> {
    if key.ValidKey? then Ok((Encapsulated(key.seed, coins), Agreed(key.seed, coins)))
    else Err(InvalidMlKemKey)
  }

  /** ML-KEM decapsulation; foreign ciphertexts are rejected implicitly (section 7.3 of FIPS 203). */
  function MlKemDecapsulate(seed: nat, ciphertext: KemCiphertext): Result<KemSecret, PqcError> {
    match ciphertext
    case WrongLength(_) => Err(InvalidMlKemKey)
    case Garbled(_) => Ok(Rejected(seed, ciphertext))
    case Encapsulated(s, coins) => Ok(if s == seed then Agreed(s, coins) else Rejected(seed, ciphertext))
  }

  /** The final key of both sides: the digest of the two 32-byte secrets, X25519 first. */
  function SharedKey(dh: seq<Octet>, kem: KemSecret): (key: seq<Octet>)
    ensures |key| == 32
  {
    Sha256(dh + KemBytes(kem))
  }

  lemma SharedKeyInjective(dh1: seq<Octet>, kem1: KemSecret, dh2: seq<Octet>, kem2: KemSecret)
    requires |dh1| == 32 && |dh2| == 32 && SharedKey(dh1, kem1) == SharedKey(dh2, kem2)
    ensures dh1 == dh2 && kem1 == kem2
  {
    Sha256Injective(dh1 + KemBytes(kem1), dh2 + KemBytes(kem2));
    assert dh1 == (dh1 + KemBytes(kem1))[..32] && dh2 == (dh2 + KemBytes(kem2))[..32];
    assert KemBytes(kem1) == (dh1 + KemBytes(kem1))[32..] && KemBytes(kem2) == (dh2 + KemBytes(kem2))[32..];
    KemBytesInjective(kem1, kem2);
  }

  /** 64 bytes of key material: shared key, label, zeros. */
  function KeyMaterial(shared: seq<Octet>, tag: Label): (material: seq<Octet>) {
    shared + LabelBytes(tag) + seq(28, (i: nat) => Plain(0))
  }

  function DirectionKey(shared: seq<Octet>, tag: Label): (key: seq<Octet>)
    ensures |key| == 32
  {
    Sha256(KeyMaterial(shared, tag))
  }

  /** Different shared keys or different directions give different AES keys. */
  lemma DirectionKeyInjective(s1: seq<Octet>, t1: Label, s2: seq<Octet>, t2: Label)
    requires |s1| == 32 && |s2| == 32 && DirectionKey(s1, t1) == DirectionKey(s2, t2)
    ensures s1 == s2 && t1 == t2
  {
    var m1, m2 := KeyMaterial(s1, t1), KeyMaterial(s2, t2);
    Sha256Injective(m1, m2);
    assert s1 == m1[..32] && s2 == m2[..32];
    assert m1[32] == LabelBytes(t1)[0] && m2[32] == LabelBytes(t2)[0];
  }

  /** What is hashed into a shared key: 32 bytes of X25519 secret, then 32 of ML-KEM secret. */
  lemma SharedKeyMaterial(dh: seq<Octet>, kem: KemSecret) returns (material: seq<Octet>)
    requires |dh| == 32
    ensures SharedKey(dh, kem) == Sha256(material)
    ensures |material| == 64 && material[..32] == dh && material[32..] == KemBytes(kem)
  {
    material := dh + KemBytes(kem);
  }

  /** What is hashed into a directional key: the shared key, four letters, zeros up to 64 bytes. */
  lemma DirectionKeyMaterial(shared: seq<Octet>, tag: Label) returns (material: seq<Octet>)
    requires |shared| == 32
    ensures DirectionKey(shared, tag) == Sha256(material)
    ensures |material| == 64 && material[..32] == shared
    ensures material[32..36] == Ascii(if tag == SEND then "SEND" else "RECV")
    ensures forall i :: 36 <= i < 64 ==> material[i] == Plain(0)
  {
    LabelText();
    hide LabelBytes, Ascii;
    material := KeyMaterial(shared, tag);
    assert material[32..36] == LabelBytes(tag);
  }

  /** `dst[lo..lo + |src|].copy_from_slice(src)`. */
  method CopyFromSlice(dst: array<Octet>, lo: nat, src: seq<Octet>)
    requires lo + |src| <= dst.Length
    modifies dst
    ensures dst[..] == old(dst[..lo]) + src + old(dst[lo + |src|..])
  {
    ghost var before := dst[..];
    for i := 0 to |src|
      invariant forall k :: 0 <= k < dst.Length ==> dst[k] == if lo <= k < lo + i then src[k - lo] else before[k]
    {
      dst[lo + i] := src[i];
    }
    assert before[..lo] == old(dst[..lo]) && before[lo + |src|..] == old(dst[lo + |src|..]);
  }

  /** The 64-byte buffer of the two secrets, hashed. */
  method CombineSecrets(x25519Shared: seq<Octet>, mlkemShared: KemSecret) returns (key: seq<Octet>)
    requires |x25519Shared| == 32
    ensures key == SharedKey(x25519Shared, mlkemShared)
  {
    var combined := new Octet[64](_ => Plain(0));
    CopyFromSlice(combined, 0, x25519Shared);
    CopyFromSlice(combined, 32, KemBytes(mlkemShared));
    assert combined[..] == x25519Shared + KemBytes(mlkemShared);
    key := Sha256(combined[..]);
  }

  /** The 64-byte zeroed buffer of shared key and label, hashed. */
  method DeriveDirectionKey(shared: seq<Octet>, tag: Label) returns (key: seq<Octet>)
    requires |shared| == 32
    ensures key == DirectionKey(shared, tag)
  {
    var material := new Octet[64](_ => Plain(0));
    hide LabelBytes;
    CopyFromSlice(material, 0, shared);
    assert material[..] == shared + seq(32, (i: nat) => Plain(0));
    CopyFromSlice(material, 32, LabelBytes(tag));
    assert material[..] == shared + LabelBytes(tag) + seq(28, (i: nat) => Plain(0));
    key := Sha256(material[..]);
  }

  datatype HybridKem = HybridKem(x25519Secret: Scalar, mlkemSeed: nat) {

    function PublicKey(): HybridPublicKey {
      HybridPublicKey(X25519Public(x25519Secret), ValidKey(mlkemSeed))
    }

    /** Sender side: what is sent to the peer, and the key kept. */
    static function Encapsulation(remote: HybridPublicKey, ephemeral: Scalar, coins: Coins)
      : Result<(HybridEncapsulation, seq<Octet>), PqcError>
    {
      match MlKemEncapsulate(remote.mlkem, coins)
      case Err(e) => Err(e)
      case Ok((ciphertext, secret)) =>
        var shared := SharedKey(X25519(ephemeral, remote.x25519), secret);
        Ok((HybridEncapsulation(X25519Public(ephemeral), ciphertext), shared))
    }

    /** Receiver side. */
    function Decapsulation(e: HybridEncapsulation): Result<seq<Octet>, PqcError> {
      match MlKemDecapsulate(mlkemSeed, e.ciphertext)
      case Err(error) => Err(error)
      case Ok(secret) => Ok(SharedKey(X25519(x25519Secret, e.ephemeral), secret))
    }

    static method EncapsulateToPeer(remote: HybridPublicKey, ephemeral: Scalar, coins: Coins)
      returns (r: Result<(HybridEncapsulation, seq<Octet>), PqcError>)
      ensures r == Encapsulation(remote, ephemeral, coins)
    {
      var x25519Shared := X25519(ephemeral, remote.x25519);
      var mlkem := MlKemEncapsulate(remote.mlkem, coins);
      if mlkem.Err? {
        return Err(mlkem.error);
      }
      var key := CombineSecrets(x25519Shared, mlkem.value.1);
      return Ok((HybridEncapsulation(X25519Public(ephemeral), mlkem.value.0), key));
    }

    method DecapsulateFromPeer(e: HybridEncapsulation) returns (r: Result<seq<Octet>, PqcError>)
      ensures r == Decapsulation(e)
    {
      var x25519Shared := X25519(x25519Secret, e.ephemeral);
      var mlkem := MlKemDecapsulate(mlkemSeed, e.ciphertext);
      if mlkem.Err? {
        return Err(mlkem.error);
      }
      var key := CombineSecrets(x25519Shared, mlkem.value);
      return Ok(key);
    }
  }

  /** When a key exchange fails and with what: an invalid ML-KEM key, or a ciphertext of the wrong length. */
  lemma ExchangeFailsIff(remote: HybridPublicKey, ephemeral: Scalar, coins: Coins, local: HybridKem,
                         e: HybridEncapsulation)
    ensures HybridKem.Encapsulation(remote, ephemeral, coins).Err? <==> remote.mlkem.InvalidKey?
    ensures local.Decapsulation(e).Err? <==> e.ciphertext.WrongLength?
    ensures var sent := HybridKem.Encapsulation(remote, ephemeral, coins);
            && (sent.Err? ==> sent.error == InvalidMlKemKey)
            && (sent.Ok? ==>
                  sent.value.0 == HybridEncapsulation(X25519Public(ephemeral), Encapsulated(remote.mlkem.seed, coins)))
    ensures local.Decapsulation(e).Err? ==> local.Decapsulation(e).error == InvalidMlKemKey
  {
    hide SharedKey, X25519;
  }

  /** Key agreement: the holder of the key encapsulated to derives the sender's key. */
  lemma BothSidesAgree(receiver: HybridKem, ephemeral: Scalar, coins: Coins)
    ensures var sent := HybridKem.Encapsulation(receiver.PublicKey(), ephemeral, coins);
            sent.Ok? && receiver.Decapsulation(sent.value.0) == Ok(sent.value.1)
  {
    assert {ephemeral, receiver.x25519Secret} == {receiver.x25519Secret, ephemeral};
  }
}
