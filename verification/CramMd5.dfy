/**
  hmac_md5 of cram.c.
 */
module CramMd5 {
  import opened Md5
  import opened Md5Context
  import opened Octets

  /** x ^ y on bytes. */
  function XorByte(x: Byte, y: Byte): Byte {
    ((x as bv8) ^ (y as bv8)) as Byte
  }

  function XorAll(b: Bytes, y: Byte): (x: Bytes)
    ensures |x| == |b|
  {
    seq(|b|, i requires 0 <= i < |b| => XorByte(b[i], y))
  }

  /** Section 2 of RFC 2104 with MD5: B = 64, L = 16. */
  function Hmac(key: Bytes, text: Bytes): (d: Bytes)
    ensures |d| == 16
  {
    var k := if |key| > 64 then Digest(key) else key;
    var padded := k + Zeros(64 - |k|);
    Digest(XorAll(padded, 0x5c) + Digest(XorAll(padded, 0x36) + text))
  }

  /** Zero bytes at the end of a short key make no difference. */
  lemma ZerosAtEnd(key: Bytes, n: nat, text: Bytes)
    requires |key| + n <= 64
    ensures Hmac(key + Zeros(n), text) == Hmac(key, text)
  {
    hide Digest, XorAll;
    assert key + Zeros(n) + Zeros(64 - |key + Zeros(n)|) == key + Zeros(64 - |key|);
  }

  /** A key longer than a block is replaced by its digest. */
  lemma LongKey(key: Bytes, text: Bytes)
    requires |key| > 64
    ensures Hmac(key, text) == Hmac(Digest(key), text)
  {
    hide Digest, XorAll;
  }

  /** With the empty key the pads are seen as they are: the byte 0x36 inside and 0x5C outside, 64 times each. */
  lemma EmptyKey(text: Bytes)
    ensures Hmac([], text) == Digest(seq(64, _ => 0x5c) + Digest(seq(64, _ => 0x36) + text))
  {
    hide Digest;
    assert [] + Zeros(64) == Zeros(64);
    ZerosWith(0x36);
    ZerosWith(0x5c);
  }

  lemma ZerosWith(y: Byte)
    ensures XorAll(Zeros(64), y) == seq(64, _ => y)
  {
    ZeroWith(y);
  }

  lemma ZeroWith(y: Byte)
    ensures XorByte(0, y) == y
  {
  }

  /** memset to zero, memcpy of the key, then the xor loop. */
  method MakePad(key: Bytes, y: Byte) returns (pad: array<Byte>)
    requires |key| <= 64
    ensures fresh(pad) && pad.Length == 64 && pad[..] == XorAll(key + Zeros(64 - |key|), y)
  {
    pad := new Byte[64](_ => 0);
    forall i | 0 <= i < |key| {
      pad[i] := key[i];
    }
    ghost var padded := key + Zeros(64 - |key|);
    for i := 0 to 64
      invariant forall j | 0 <= j < 64 :: pad[j] == if j < i then XorByte(padded[j], y) else padded[j]
    {
      pad[i] := XorByte(pad[i], y);
    }
  }

  /** Init, one Update with each piece, Final. */
  method HashPieces(ctx: MD5Context, first: Bytes, second: Bytes, digest: array<Byte>)
    requires ctx.Shaped() && digest.Length == 16 && digest != ctx.input
    requires |first| < 0x1_0000_0000 && |second| < 0x1_0000_0000
    modifies ctx, ctx.buf, ctx.input, digest
    ensures digest[..] == Digest(first + second)
  {
    hide *;
    ctx.MD5Init();
    ctx.MD5Update(first);
    ctx.MD5Update(second);
    assert [] + first + second == first + second;
    ctx.MD5Final(digest);
  }

  method HashWhole(ctx: MD5Context, m: Bytes, digest: array<Byte>)
    requires ctx.Shaped() && digest.Length == 16 && digest != ctx.input && |m| < 0x1_0000_0000
    modifies ctx, ctx.buf, ctx.input, digest
    ensures digest[..] == Digest(m)
  {
    hide *;
    ctx.MD5Init();
    ctx.MD5Update(m);
    assert [] + m == m;
    ctx.MD5Final(digest);
  }

  /** The response is left alone unless there is room for exactly one digest. */
  method HmacMd5(password: Bytes, challenge: Bytes, response: array<Byte>)
    requires |password| < 0x1_0000_0000 && |challenge| < 0x1_0000_0000
    modifies response
    ensures response[..] == if response.Length == 16 then Hmac(password, challenge) else old(response[..])
  {
    hide Digest, XorAll, Zeros;
    if response.Length != 16 {
      return;
    }
    var ctx := new MD5Context();
    var key := password;
    if |key| > 64 {
      var hashed := new Byte[16](_ => 0);
      HashWhole(ctx, key, hashed);
      key := hashed[..];
    }
    var ipad := MakePad(key, 0x36);
    var opad := MakePad(key, 0x5c);
    HashPieces(ctx, ipad[..], challenge, response);
    HashPieces(ctx, opad[..], response[..], response);
  }
}
