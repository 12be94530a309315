/**
 Ideal authenticated encryption. The library's primitives are parameters; everything proved
 about sealed packets assumes `Ideal`, which is shown to be satisfiable.
 */
module Secretbox {
  import opened Octets

  const NONCE_BYTES := 24
  const MAC_BYTES := 16
  const KEY_BYTES := 32

  datatype Crypto = Crypto(
    seal: (Bytes, Bytes, Bytes) -> Bytes,          // key, nonce, plaintext
    open: (Bytes, Bytes, Bytes) -> Option<Bytes>,  // key, nonce, ciphertext
    publicKey: Bytes -> Bytes,                     // of a secret key
    shared: (Bytes, Bytes) -> Option<Bytes>)       // key of a box: their public, our secret

  type Nonce = n: Bytes | |n| == NONCE_BYTES witness seq(NONCE_BYTES, _ => 0)

  ghost predicate Ideal(c: Crypto) {
    && (forall k, n, m :: |c.seal(k, n, m)| == |m| + MAC_BYTES)
    && (forall k, n, m :: c.open(k, n, c.seal(k, n, m)) == Some(m))
    && (forall k, n, x :: c.open(k, n, x).Some? ==> c.seal(k, n, c.open(k, n, x).value) == x)
    && (forall a, b :: c.shared(c.publicKey(a), b) == c.shared(c.publicKey(b), a))
  }

  // The assumptions are consistent.
  lemma IdealIsSatisfiable() returns (c: Crypto)
    ensures Ideal(c)
  {
    c := Crypto(
      (k, n, m) => Zeros(MAC_BYTES) + m,
      (k, n, x) => if |x| >= MAC_BYTES && x[..MAC_BYTES] == Zeros(MAC_BYTES) then Some(x[MAC_BYTES..]) else None,
      sk => sk,
      (pk, sk) => Some([]));
    forall k: Bytes, n: Bytes, m: Bytes ensures c.open(k, n, c.seal(k, n, m)) == Some(m) {
      assert (Zeros(MAC_BYTES) + m)[..MAC_BYTES] == Zeros(MAC_BYTES);
      assert (Zeros(MAC_BYTES) + m)[MAC_BYTES..] == m;
    }
    forall k: Bytes, n: Bytes, x: Bytes | c.open(k, n, x).Some?
      ensures c.seal(k, n, c.open(k, n, x).value) == x
    {
      assert Zeros(MAC_BYTES) + x[MAC_BYTES..] == x;
    }
  }

  // A sealed packet: the nonce, then the ciphertext.
  function SealPacket(c: Crypto, key: Bytes, nonce: Nonce, m: Bytes): Bytes {
    nonce + c.seal(key, nonce, m)
  }

  // Splitting a packet at the nonce and opening the rest.
  function OpenPacket(c: Crypto, key: Bytes, p: Bytes): Option<Bytes> {
    if |p| < NONCE_BYTES then None else c.open(key, p[..NONCE_BYTES], p[NONCE_BYTES..])
  }

  lemma SealedOpens(c: Crypto, key: Bytes, nonce: Nonce, m: Bytes)
    requires Ideal(c)
    ensures OpenPacket(c, key, SealPacket(c, key, nonce, m)) == Some(m)
    ensures |SealPacket(c, key, nonce, m)| == NONCE_BYTES + MAC_BYTES + |m|
  {
    var p := SealPacket(c, key, nonce, m);
    assert p[..NONCE_BYTES] == nonce && p[NONCE_BYTES..] == c.seal(key, nonce, m);
  }

  // On the wire the nonce comes first, then what is sealed under it.
  lemma NonceComesFirst(c: Crypto, key: Bytes, p: Bytes, m: Bytes)
    requires Ideal(c)
    ensures OpenPacket(c, key, p) == Some(m) <==> |p| >= 24 && p[24..] == c.seal(key, p[..24], m)
  {
  }

  // A packet opens to a plaintext exactly when it was sealed from it under some nonce.
  lemma OpensExactly(c: Crypto, key: Bytes, p: Bytes, m: Bytes)
    requires Ideal(c)
    ensures OpenPacket(c, key, p) == Some(m) <==> exists nonce: Nonce :: p == SealPacket(c, key, nonce, m)
    ensures OpenPacket(c, key, p) == Some(m) ==> |p| == NONCE_BYTES + MAC_BYTES + |m|
  {
    if OpenPacket(c, key, p) == Some(m) {
      var nonce: Nonce := p[..NONCE_BYTES];
      assert p == SealPacket(c, key, nonce, m);
    }
    if nonce: Nonce :| p == SealPacket(c, key, nonce, m) {
      SealedOpens(c, key, nonce, m);
    }
  }
}
