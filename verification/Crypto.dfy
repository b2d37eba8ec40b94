/**
  * Symbolic cryptography. An octet is either a clear byte or a byte made by a named operation,
  * so a ciphertext opens, and a signature verifies, exactly when it was made for that key and input.
  * Everything numeric about the primitives is left open: it is supplied by a `Suite`.
  */
module Crypto {
  import opened Bytes

  /** A 32-byte key, digest or secret. */
  type Key = s: seq<byte> | |s| == 32 witness seq(32, _ => 0)

  datatype Octet = Clear(value: byte) | Made(origin: Origin)

  /** Which operation made an octet, and the octet's place in that operation's result. */
  datatype Origin =
    | AeadByte(key: Key, nonce: seq<byte>, plain: seq<byte>, index: nat)
    | SignatureByte(signer: Key, message: seq<Octet>, index: nat)
    | BoxByte(recipient: Key, ephemeral: Key, content: seq<Octet>, index: nat)

  const TAG_LENGTH: nat := 16
  const SIGNATURE_LENGTH: nat := 64
  const BOX_OVERHEAD: nat := 48
  /** The longest AEAD plaintext, P_MAX of RFC 8439 section 2.8. */
  const PLAINTEXT_LIMIT: nat := 274877906880

  /** The parts of the cryptographic libraries the model leaves uninterpreted. */
  datatype Suite = Suite(
    show: Origin -> byte,
    hash: seq<byte> -> Key,
    ed25519Public: Key -> Key,
    x25519Public: Key -> Key,
    diffieHellman: (Key, Key) -> Key,
    isVerifyingKey: Key -> bool)

  function Clears(s: seq<byte>): (o: seq<Octet>)
    ensures |o| == |s|
  {
    seq(|s|, i requires 0 <= i < |s| => Clear(s[i]))
  }

  /** The numeric value an octet shows to a reader that does not interpret it. */
  function Value(suite: Suite, o: Octet): byte {
    match o
    case Clear(b) => b
    case Made(origin) => suite.show(origin)
  }

  function Values(suite: Suite, o: seq<Octet>): (s: seq<byte>)
    ensures |s| == |o|
  {
    seq(|o|, i requires 0 <= i < |o| => Value(suite, o[i]))
  }

  lemma ValuesOfClears(suite: Suite, s: seq<byte>)
    ensures Values(suite, Clears(s)) == s
  {
  }

  function Seal(key: Key, nonce: seq<byte>, plain: seq<byte>): (c: seq<Octet>)
    ensures |c| == |plain| + TAG_LENGTH
  {
    seq(|plain| + TAG_LENGTH, i requires 0 <= i < |plain| + TAG_LENGTH => Made(AeadByte(key, nonce, plain, i)))
  }

  function Open(key: Key, nonce: seq<byte>, c: seq<Octet>): Option<seq<byte>> {
    if c != [] && c[0].Made? && c[0].origin.AeadByte? && c == Seal(key, nonce, c[0].origin.plain)
    then Some(c[0].origin.plain)
    else None
  }

  /** Opening succeeds on, and only on, what was sealed under the same key and nonce. */
  lemma OpensIffSealed(key: Key, nonce: seq<byte>, c: seq<Octet>, plain: seq<byte>)
    ensures Open(key, nonce, c) == Some(plain) <==> c == Seal(key, nonce, plain)
  {
    assert Seal(key, nonce, plain)[0] == Made(AeadByte(key, nonce, plain, 0));
  }

  lemma OpenOtherNonce(key: Key, nonce: seq<byte>, other: seq<byte>, plain: seq<byte>)
    requires nonce != other
    ensures Open(key, nonce, Seal(key, other, plain)) == None
  {
    var c := Seal(key, other, plain);
    assert c[0] == Made(AeadByte(key, other, plain, 0));
    assert Seal(key, nonce, plain)[0] == Made(AeadByte(key, nonce, plain, 0));
  }

  lemma OpenTruncated(key: Key, nonce: seq<byte>, plain: seq<byte>, n: nat)
    requires n < |plain| + TAG_LENGTH
    ensures Open(key, nonce, Seal(key, nonce, plain)[..n]) == None
  {
    var c := Seal(key, nonce, plain)[..n];
    if c != [] {
      assert c[0] == Made(AeadByte(key, nonce, plain, 0));
    }
  }

  /** A signature is identified by the verifying key it checks under. */
  function Sign(signer: Key, message: seq<Octet>): (s: seq<Octet>)
    ensures |s| == SIGNATURE_LENGTH
  {
    seq(SIGNATURE_LENGTH, i requires 0 <= i < SIGNATURE_LENGTH => Made(SignatureByte(signer, message, i)))
  }

  predicate Verifies(signer: Key, message: seq<Octet>, signature: seq<Octet>) {
    signature == Sign(signer, message)
  }

  lemma VerifiesIffSame(signer: Key, message: seq<Octet>, other: Key, signed: seq<Octet>)
    ensures Verifies(signer, message, Sign(other, signed)) <==> signer == other && message == signed
  {
    assert Sign(signer, message)[0] == Made(SignatureByte(signer, message, 0));
    assert Sign(other, signed)[0] == Made(SignatureByte(other, signed, 0));
  }

  /** The NaCl sealed box of the handshake. */
  function SealedBox(recipient: Key, ephemeral: Key, content: seq<Octet>): (c: seq<Octet>)
    ensures |c| == |content| + BOX_OVERHEAD
  {
    seq(|content| + BOX_OVERHEAD,
        i requires 0 <= i < |content| + BOX_OVERHEAD => Made(BoxByte(recipient, ephemeral, content, i)))
  }

  /** create_nonce: the counter's eight bytes and four zero bytes. */
  function CreateNonce(counter: u64): (n: seq<byte>)
    ensures |n| == 12
  {
    LittleEndian(counter, 8) + [0, 0, 0, 0]
  }

  lemma CreateNonceInjective(a: u64, b: u64)
    ensures CreateNonce(a) == CreateNonce(b) <==> a == b
    ensures U64(CreateNonce(a)[..8]) == a && CreateNonce(a)[8..] == [0, 0, 0, 0]
  {
    U64RoundTrip(a);
    U64RoundTrip(b);
    assert CreateNonce(a)[..8] == LittleEndian(a, 8);
    assert CreateNonce(b)[..8] == LittleEndian(b, 8);
  }

  function Ascii(s: string): (b: seq<byte>)
    ensures |b| == |s|
  {
    seq(|s|, i requires 0 <= i < |s| => s[i] as int % 256)
  }

  const VERSION: string := "v0.4.1-beta"

  /** What initialize_session_nonce_static hashes. */
  function NonceInput(headerKey: Word): seq<byte> {
    Ascii("datum_nonce_init") + headerKey + Ascii(VERSION)
  }

  /** initialize_session_nonce_static: the first eight bytes of the digest. */
  function InitialNonce(suite: Suite, headerKey: Word): u64 {
    U64(suite.hash(NonceInput(headerKey))[..8])
  }

  /** What derive_key_from_shared_secret_static hashes. */
  function DerivationInput(secret: Key, direction: string): seq<byte> {
    var s: seq<byte> := secret;
    s + Ascii(direction) + Ascii("datum_v0.4.1")
  }

  /** derive_key_from_shared_secret_static. */
  function DeriveKey(suite: Suite, secret: Key, direction: string): Key {
    suite.hash(DerivationInput(secret, direction))
  }

  /** The hashed inputs byte for byte, and which bytes of the digest make the nonce. */
  lemma HashInputsSpelled(suite: Suite, k: Word, secret: Key)
    ensures var input := [100, 97, 116, 117, 109, 95, 110, 111, 110, 99, 101, 95, 105, 110, 105, 116] + k
                         + [118, 48, 46, 52, 46, 49, 45, 98, 101, 116, 97];
            LittleEndian(InitialNonce(suite, k), 8) == suite.hash(input)[..8]
    ensures var s: seq<byte> := secret;
            var version := [100, 97, 116, 117, 109, 95, 118, 48, 46, 52, 46, 49];
            && DeriveKey(suite, secret, "send") == suite.hash(s + [115, 101, 110, 100] + version)
            && DeriveKey(suite, secret, "recv") == suite.hash(s + [114, 101, 99, 118] + version)
  {
    hide LittleEndian, U64;
    assert Ascii("datum_nonce_init") == [100, 97, 116, 117, 109, 95, 110, 111, 110, 99, 101, 95, 105, 110, 105, 116];
    assert Ascii(VERSION) == [118, 48, 46, 52, 46, 49, 45, 98, 101, 116, 97];
    U64Reencodes(suite.hash(NonceInput(k))[..8]);
    assert Ascii("send") == [115, 101, 110, 100] && Ascii("recv") == [114, 101, 99, 118];
    assert Ascii("datum_v0.4.1") == [100, 97, 116, 117, 109, 95, 118, 48, 46, 52, 46, 49];
  }

  /** Different header keys, and the two directions, never feed the hash the same input. */
  lemma HashInputsDiffer(j: Word, k: Word, secret: Key)
    ensures NonceInput(j) == NonceInput(k) <==> j == k
    ensures DerivationInput(secret, "send") != DerivationInput(secret, "recv")
  {
    assert NonceInput(j)[16..20] == j && NonceInput(k)[16..20] == k;
    assert DerivationInput(secret, "send")[32] == 's' as int && DerivationInput(secret, "recv")[32] == 'r' as int;
  }
}
