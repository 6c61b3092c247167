/** The cryptographic operations of udap/crypto_libsodium.cpp over abstract
    primitives: xchacha20 is xor with a key stream, generichash is an arbitrary
    keyed function, and the curve is known only through the agreement of
    section 6.1 of RFC 7748. */
module Crypto {
  import opened Bytes

  // ----- xor ------------------------------------------------------------------

  function XorBits(a: nat, b: nat, k: nat): (r: nat)
  {
    if k == 0 then 0 else (if a % 2 == b % 2 then 0 else 1) + 2 * XorBits(a / 2, b / 2, k - 1)
  }

  function Pow2(k: nat): (p: nat)
    ensures p > 0
  {
    if k == 0 then 1 else 2 * Pow2(k - 1)
  }

  lemma XorBitsSplit(a: nat, b: nat, k: nat)
    requires k > 0
    ensures XorBits(a, b, k) % 2 == (if a % 2 == b % 2 then 0 else 1)
    ensures XorBits(a, b, k) / 2 == XorBits(a / 2, b / 2, k - 1)
  {
  }

  lemma {:induction false} XorBitsBound(a: nat, b: nat, k: nat)
    ensures XorBits(a, b, k) == XorBits(b, a, k) < Pow2(k)
  {
    if k > 0 {
      XorBitsBound(a / 2, b / 2, k - 1);
    }
  }

  lemma {:induction false} XorBitsUndo(a: nat, b: nat, k: nat)
    requires a < Pow2(k)
    ensures XorBits(XorBits(a, b, k), b, k) == a
  {
    if k > 0 {
      XorTwice(a, b, b, k);
      XorBitsUndo(a / 2, b / 2, k - 1);
    }
  }

  lemma {:induction false} XorBitsExchange(a: nat, b: nat, c: nat, k: nat)
    ensures XorBits(XorBits(a, b, k), c, k) == XorBits(XorBits(a, c, k), b, k)
  {
    if k > 0 {
      XorBitsExchange(a / 2, b / 2, c / 2, k - 1);
      XorTwice(a, b, c, k);
      XorTwice(a, c, b, k);
    }
  }

  /** The lowest bit and the rest of two nested xors. */
  lemma XorTwice(a: nat, b: nat, c: nat, k: nat)
    requires k > 0
    ensures XorBits(XorBits(a, b, k), c, k)
         == (if (a % 2 == b % 2) == (c % 2 == 0) then 0 else 1) + 2 * XorBits(XorBits(a / 2, b / 2, k - 1), c / 2, k - 1)
  {
    XorBitsSplit(a, b, k);
  }

  const BYTE_BITS: nat := 8

  function Xor(a: byte, b: byte): (r: byte)
  {
    XorBitsBound(a as nat, b as nat, BYTE_BITS);
    assert Pow2(8) == 256;
    XorBits(a as nat, b as nat, BYTE_BITS) as byte
  }

  lemma XorLaws(a: byte, b: byte, c: byte)
    ensures Xor(a, b) == Xor(b, a)
    ensures Xor(Xor(a, b), b) == a
    ensures Xor(Xor(a, b), c) == Xor(Xor(a, c), b)
  {
    assert Pow2(8) == 256;
    XorBitsBound(a as nat, b as nat, BYTE_BITS);
    XorBitsUndo(a as nat, b as nat, BYTE_BITS);
    XorBitsExchange(a as nat, b as nat, c as nat, BYTE_BITS);
  }

  function XorBytes(x: bytes, k: bytes): (r: bytes)
    requires |x| == |k|
    ensures |r| == |x|
  {
    seq(|x|, i requires 0 <= i < |x| => Xor(x[i], k[i]))
  }

  lemma XorBytesLaws(x: bytes, k: bytes, l: bytes)
    requires |x| == |k| == |l|
    ensures XorBytes(XorBytes(x, k), k) == x
    ensures XorBytes(XorBytes(x, k), l) == XorBytes(XorBytes(x, l), k)
  {
    forall i | 0 <= i < |x|
      ensures Xor(Xor(x[i], k[i]), k[i]) == x[i]
      ensures Xor(Xor(x[i], k[i]), l[i]) == Xor(Xor(x[i], l[i]), k[i])
    {
      XorLaws(x[i], k[i], l[i]);
    }
  }

  // ----- primitives -----------------------------------------------------------

  /** `keystream(key, nonce, n)` is the first n bytes of the xchacha20 stream,
      `generichash(key, msg)` the 32-byte hash (unkeyed when key is empty),
      `scalarmult(sec, pub)` the curve25519 product or None where libsodium
      refuses it, and `base(sec)` the public half of a secret. */
  datatype Primitives = Primitives(
    keystream: (bytes, bytes, nat) -> bytes,
    generichash: (bytes, bytes) -> bytes,
    scalarmult: (bytes, bytes) -> Option<bytes>,
    base: bytes -> bytes)

  const KEY: nat := 32
  const NONCE: nat := 24

  /** Outputs have the sizes libsodium gives them. */
  ghost predicate Sized(c: Primitives)
  {
    && (forall k, n, len: nat :: |c.keystream(k, n, len)| == len)
    && (forall k, m :: |c.generichash(k, m)| == KEY)
  }

  /** Section 6.1 of RFC 7748: both parties compute the same product. */
  ghost predicate Agreement(c: Primitives)
  {
    forall a, b :: c.scalarmult(a, c.base(b)) == c.scalarmult(b, c.base(a))
  }

  /** A secret key as enckeygen lays it out: 32 secret bytes, then the public key. */
  ghost predicate IsSecretKey(c: Primitives, sk: bytes)
  {
    |sk| == 2 * KEY && sk[KEY..] == c.base(sk[..KEY])
  }

  function ToPublic(sk: bytes): (pk: bytes)
    requires |sk| == 2 * KEY
    ensures |pk| == KEY
  {
    sk[KEY..]
  }

  /** What xchacha20 leaves in the buffer: it reads 24 bytes at the nonce pointer. */
  function Crypt(c: Primitives, buf: bytes, key: bytes, nonce: bytes): (r: bytes)
    requires Sized(c) && |nonce| >= NONCE
    ensures |r| == |buf|
  {
    XorBytes(buf, c.keystream(key, nonce[..NONCE], |buf|))
  }

  function ShortHash(c: Primitives, msg: bytes): (h: bytes)
  {
    c.generichash([], msg)
  }

  function Hmac(c: Primitives, msg: bytes, secret: bytes): (h: bytes)
  {
    c.generichash(secret, msg)
  }

  function Dh(c: Primitives, clientPk: bytes, serverPk: bytes, themPub: bytes, usSec: bytes): (r: Option<bytes>)
  {
    match c.scalarmult(usSec, themPub)
    case None => None
    case Some(shared) => Some(c.generichash([], clientPk + serverPk + shared))
  }

  function DhClient(c: Primitives, pk: bytes, sk: bytes, n: bytes): (r: Option<bytes>)
    requires |sk| == 2 * KEY
  {
    match Dh(c, ToPublic(sk), pk, pk, sk[..KEY])
    case None => None
    case Some(secret) => Some(c.generichash(secret, n))
  }

  function DhServer(c: Primitives, pk: bytes, sk: bytes, n: bytes): (r: Option<bytes>)
    requires |sk| == 2 * KEY
  {
    match Dh(c, pk, ToPublic(sk), pk, sk[..KEY])
    case None => None
    case Some(secret) => Some(c.generichash(secret, n))
  }

  // ----- laws -----------------------------------------------------------------

  /** The client's key with the server's public half is the server's key with the
      client's: the two orders of the public keys in `dh` line up. Both are the hash of
      the nonce under the hash of client key, server key and product. */
  lemma DhAgrees(c: Primitives, client: bytes, server: bytes, n: bytes)
    requires Agreement(c) && IsSecretKey(c, client) && IsSecretKey(c, server)
    ensures DhClient(c, ToPublic(server), client, n) == DhServer(c, ToPublic(client), server, n)
    ensures DhClient(c, ToPublic(server), client, n) ==
            match c.scalarmult(client[..32], server[32..])
            case None => None
            case Some(product) => Some(c.generichash(c.generichash([], client[32..] + server[32..] + product), n))
  {
    var a, b := client[..KEY], server[..KEY];
    assert c.scalarmult(a, c.base(b)) == c.scalarmult(b, c.base(a));
    assert ToPublic(client) == c.base(a) && ToPublic(server) == c.base(b);
  }

  /** A layer taken twice is no layer, and two layers may be taken in either order. */
  lemma LayersCommute(c: Primitives, buf: bytes, k: bytes, n: bytes, k2: bytes, n2: bytes)
    requires Sized(c) && |n| >= NONCE && |n2| >= NONCE
    ensures Crypt(c, Crypt(c, buf, k, n), k, n) == buf
    ensures Crypt(c, Crypt(c, buf, k, n), k2, n2) == Crypt(c, Crypt(c, buf, k2, n2), k, n)
  {
    XorBytesLaws(buf, c.keystream(k, n[..NONCE], |buf|), c.keystream(k2, n2[..NONCE], |buf|));
  }

  // ----- regions of a byte array -------------------------------------------------

  /** `s` with `data` written over it at offset `at`. */
  function Put(s: bytes, at: nat, data: bytes): (r: bytes)
    requires at + |data| <= |s|
    ensures |r| == |s|
  {
    s[..at] + data + s[at + |data|..]
  }

  lemma PutRegion(s: bytes, at: nat, data: bytes)
    requires at + |data| <= |s|
    ensures Put(s, at, data)[at..at + |data|] == data
  {
  }

  lemma PutElsewhere(s: bytes, at: nat, data: bytes, lo: nat, hi: nat)
    requires at + |data| <= |s| && lo <= hi <= |s| && (hi <= at || at + |data| <= lo)
    ensures Put(s, at, data)[lo..hi] == s[lo..hi]
  {
  }

  /** The in-place cipher over `a[lo..hi]`. */
  method XChaCha20(c: Primitives, a: array<byte>, lo: nat, hi: nat, key: bytes, nonce: bytes)
    requires Sized(c) && lo <= hi <= a.Length && |nonce| >= NONCE
    modifies a
    ensures a[..] == Put(old(a[..]), lo, Crypt(c, old(a[..])[lo..hi], key, nonce))
  {
    ghost var was := a[..];
    var ks := c.keystream(key, nonce[..NONCE], hi - lo);
    var i := lo;
    while i < hi
      invariant lo <= i <= hi
      invariant forall j :: lo <= j < i ==> a[j] == Xor(was[j], ks[j - lo])
      invariant forall j :: 0 <= j < lo || i <= j < a.Length ==> a[j] == was[j]
    {
      a[i] := Xor(a[i], ks[i - lo]);
      i := i + 1;
    }
    assert a[lo..hi] == Crypt(c, was[lo..hi], key, nonce);
    assert a[..] == a[..lo] + a[lo..hi] + a[hi..];
  }

  /** The in-place cipher over a whole buffer. */
  method XChaCha20All(c: Primitives, a: array<byte>, key: bytes, nonce: bytes)
    requires Sized(c) && |nonce| >= NONCE
    modifies a
    ensures a[..] == Crypt(c, old(a[..]), key, nonce)
  {
    ghost var was := a[..];
    XChaCha20(c, a, 0, a.Length, key, nonce);
    assert was[0..a.Length] == was;
  }

  /** memcpy of a byte string to offset `at`. */
  method CopyTo(a: array<byte>, at: nat, data: bytes)
    requires at + |data| <= a.Length
    modifies a
    ensures a[..] == Put(old(a[..]), at, data)
  {
    forall i | 0 <= i < |data| {
      a[at + i] := data[i];
    }
    assert a[at..at + |data|] == data;
    assert a[..] == a[..at] + a[at..at + |data|] + a[at + |data|..];
  }
}
