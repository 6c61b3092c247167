/** Encrypted frames (udap/encrypted_frame.cpp): `hmac | nonce | public key | body`
    in one byte array, sealed and opened where it lies. */
module EncryptedFrame {
  import opened Bytes
  import opened Crypto

  const OVERHEAD: nat := 96

  /** A new frame around a body of `sz` bytes, filled by Randomize; `noise` is what
      the random generator yields. */
  function RandomFrame(noise: nat -> byte, sz: nat): (f: bytes)
    ensures |f| == sz + OVERHEAD
  {
    seq(sz + OVERHEAD, i requires i >= 0 => noise(i))
  }

  /** A frame made with an ephemeral key for the owner of `otherPk`; None when the
      key exchange is refused. */
  function Sealed(c: Primitives, sk: bytes, otherPk: bytes, nonce: bytes, body: bytes): (f: Option<bytes>)
    requires Sized(c) && |sk| == 2 * KEY && |nonce| == 32
    ensures f.Some? ==> |f.value| == OVERHEAD + |body|
  {
    match DhClient(c, otherPk, sk, nonce)
    case None => None
    case Some(shared) =>
      var x := nonce + ToPublic(sk) + Crypt(c, body, shared, nonce);
      Some(Hmac(c, x, shared) + x)
  }

  /** The body of a frame that is ours and authentic. */
  function Opened(c: Primitives, sk: bytes, f: bytes): (body: Option<bytes>)
    requires Sized(c) && |sk| == 2 * KEY
    ensures body.Some? ==> |f| == OVERHEAD + |body.value|
  {
    if |f| <= OVERHEAD then None
    else match DhServer(c, f[64..96], sk, f[32..64])
         case None => None
         case Some(shared) =>
           if Hmac(c, f[32..], shared) != f[..32] then None
           else Some(Crypt(c, f[96..], shared, f[32..64]))
  }

  /** The owner of the public key opens what was sealed for it, and sees the body. */
  lemma OpenedSealed(c: Primitives, a: bytes, b: bytes, nonce: bytes, body: bytes)
    requires Sized(c) && Agreement(c) && IsSecretKey(c, a) && IsSecretKey(c, b) && |nonce| == 32 && |body| > 0
    ensures var f := Sealed(c, a, ToPublic(b), nonce, body);
            f.Some? ==> Opened(c, b, f.value) == Some(body)
  {
    DhAgrees(c, a, b, nonce);
    match DhClient(c, ToPublic(b), a, nonce)
    case None =>
    case Some(shared) =>
      var x := nonce + ToPublic(a) + Crypt(c, body, shared, nonce);
      var f := Hmac(c, x, shared) + x;
      assert f[32..] == x && f[..32] == Hmac(c, x, shared);
      assert f[32..64] == nonce && f[64..96] == ToPublic(a) && f[96..] == Crypt(c, body, shared, nonce);
      LayersCommute(c, body, shared, nonce, shared, nonce);
  }

  /** EncryptInPlace; `nonce` is what randbytes yields. */
  method EncryptInPlace(c: Primitives, data: array<byte>, sk: bytes, otherPk: bytes, nonce: bytes) returns (ok: bool)
    requires Sized(c) && |sk| == 2 * KEY && |nonce| == 32 && data.Length >= OVERHEAD
    modifies data
    ensures ok == Sealed(c, sk, otherPk, nonce, old(data[..])[96..]).Some?
    ensures ok ==> Some(data[..]) == Sealed(c, sk, otherPk, nonce, old(data[..])[96..])
    ensures !ok ==> data[..] == old(data[..])[..32] + nonce + ToPublic(sk) + old(data[..])[96..]
  {
    ghost var w := data[..];
    CopyTo(data, 64, ToPublic(sk));
    CopyTo(data, 32, nonce);
    HeaderLaid(w, nonce, ToPublic(sk));
    ghost var w1 := data[..];
    var shared := DhClient(c, otherPk, sk, nonce);
    if shared.None? {
      return false;
    }
    XChaCha20(c, data, 96, data.Length, shared.value, nonce);
    ghost var w2 := data[..];
    ghost var x := Crypt(c, w[96..], shared.value, nonce);
    BodyLaid(w, nonce, ToPublic(sk), x);
    var h := Hmac(c, data[32..], shared.value);
    assert data[32..] == w2[32..];
    CopyTo(data, 0, h);
    assert data[..] == h + w2[32..];
    return true;
  }

  lemma HeaderLaid(w: bytes, nonce: bytes, pk: bytes)
    requires |w| >= OVERHEAD && |nonce| == |pk| == 32
    ensures Put(Put(w, 64, pk), 32, nonce) == w[..32] + nonce + pk + w[96..]
    ensures (w[..32] + nonce + pk + w[96..])[96..|w|] == w[96..]
  {
    var w0 := Put(w, 64, pk);
    assert w0[..32] == w[..32] && w0[64..] == pk + w[96..];
  }

  lemma BodyLaid(w: bytes, nonce: bytes, pk: bytes, body: bytes)
    requires |w| == OVERHEAD + |body| && |nonce| == |pk| == 32
    ensures Put(w[..32] + nonce + pk + w[96..], 96, body)[32..] == nonce + pk + body
  {
    var w1 := w[..32] + nonce + pk + w[96..];
    assert w1[32..96] == nonce + pk;
    assert Put(w1, 96, body) == w1[..96] + body;
  }

  /** DecryptInPlace: a frame that is not accepted is left alone. */
  method DecryptInPlace(c: Primitives, data: array<byte>, sk: bytes) returns (ok: bool)
    requires Sized(c) && |sk| == 2 * KEY
    modifies data
    ensures ok == Opened(c, sk, old(data[..])).Some?
    ensures data.Length <= 96 ==> !ok
    ensures data.Length > 96 ==>
              var shared := DhServer(c, old(data[64..96]), sk, old(data[32..64]));
              ok <==> shared.Some? && c.generichash(shared.value, old(data[32..])) == old(data[..32])
    ensures data[..] == if ok then old(data[..])[..96] + Opened(c, sk, old(data[..])).value else old(data[..])
  {
    if data.Length <= OVERHEAD {
      return false;
    }
    ghost var f := data[..];
    assert data[32..64] == f[32..64] && data[64..96] == f[64..96] && data[32..] == f[32..] && data[..32] == f[..32];
    var shared := DhServer(c, data[64..96], sk, data[32..64]);
    if shared.None? {
      return false;
    }
    var digest := Hmac(c, data[32..], shared.value);
    if digest != data[..32] {
      return false;
    }
    assert f[96..data.Length] == f[96..];
    XChaCha20(c, data, 96, data.Length, shared.value, data[32..64]);
    return true;
  }
}
