/** Sealing in the fallback mode: a keystream from HMAC blocks, an HMAC tag over the associated data, nonce and
    ciphertext, and every field stored as unpadded URL-safe base64. HMAC is an arbitrary function with 32-byte
    results, and a payload is its JSON text. */
module SealedPayload {
  import opened Prelude
  import opened Base64

  type Mac = (seq<Byte>, seq<Byte>) -> seq<Byte>

  ghost predicate IsMac(mac: Mac) { forall key, message :: |mac(key, message)| == 32 }

  // --- bytes -------------------------------------------------------------------------------------------------

  // The lowest `bits` bits of `a ^ b`.
  function XorBits(a: nat, b: nat, bits: nat): (r: nat)
    ensures r < Power2(bits)
  {
    if bits == 0 then 0 else (if a % 2 == b % 2 then 0 else 1) + 2 * XorBits(a / 2, b / 2, bits - 1)
  }

  function Power2(n: nat): nat { if n == 0 then 1 else 2 * Power2(n - 1) }

  lemma {:induction false} XorTwice(a: nat, b: nat, bits: nat)
    requires a < Power2(bits)
    ensures XorBits(XorBits(a, b, bits), b, bits) == a
  {
    if bits > 0 {
      var x := XorBits(a, b, bits);
      assert x / 2 == XorBits(a / 2, b / 2, bits - 1);
      XorTwice(a / 2, b / 2, bits - 1);
    }
  }

  predicate Bit(a: nat, k: nat) { if k == 0 then a % 2 == 1 else Bit(a / 2, k - 1) }

  // Bit by bit: a bit of the result is set exactly where the operands differ.
  lemma {:induction false} XorBitwise(a: nat, b: nat, bits: nat, k: nat)
    requires k < bits
    ensures Bit(XorBits(a, b, bits), k) <==> Bit(a, k) != Bit(b, k)
  {
    var x := XorBits(a, b, bits);
    assert x / 2 == XorBits(a / 2, b / 2, bits - 1);
    if k > 0 { XorBitwise(a / 2, b / 2, bits - 1, k - 1); }
  }

  lemma ByteRange()
    ensures Power2(8) == 256
  {
    assert Power2(4) == 16;
    assert Power2(6) == 64;
  }

  function Xor(a: Byte, b: Byte): Byte {
    ByteRange();
    XorBits(a, b, 8)
  }

  // `bytes(a ^ b for a, b in zip(x, y))`
  function XorAll(x: seq<Byte>, y: seq<Byte>): (r: seq<Byte>)
    requires |x| == |y|
    ensures |r| == |x| && forall i :: 0 <= i < |r| ==> r[i] == Xor(x[i], y[i])
  {
    if x == [] then [] else [Xor(x[0], y[0])] + XorAll(x[1..], y[1..])
  }

  lemma XorAllTwice(x: seq<Byte>, y: seq<Byte>)
    requires |x| == |y|
    ensures XorAll(XorAll(x, y), y) == x
  {
    ByteRange();
    hide XorBits;
    forall i | 0 <= i < |x| ensures XorAll(XorAll(x, y), y)[i] == x[i] { XorTwice(x[i], y[i], 8); }
  }

  // `counter.to_bytes(size, "big")`
  function BigEndian(n: nat, size: nat): (r: seq<Byte>)
    ensures |r| == size
  {
    if size == 0 then [] else BigEndian(n / 256, size - 1) + [n % 256]
  }

  function Power256(n: nat): nat { if n == 0 then 1 else 256 * Power256(n - 1) }

  // Counters that fit their field have different representations, so no HMAC block is computed twice.
  lemma {:induction false} BigEndianInjective(n: nat, m: nat, size: nat)
    requires n < Power256(size) && m < Power256(size) && BigEndian(n, size) == BigEndian(m, size)
    ensures n == m
  {
    if size > 0 {
      assert BigEndian(n, size)[..size - 1] == BigEndian(n / 256, size - 1);
      assert BigEndian(m, size)[..size - 1] == BigEndian(m / 256, size - 1);
      assert BigEndian(n, size)[size - 1] == n % 256 && BigEndian(m, size)[size - 1] == m % 256;
      BigEndianInjective(n / 256, m / 256, size - 1);
    }
  }

  // The number big-endian bytes denote.
  function FromBigEndian(bytes: seq<Byte>): nat {
    if bytes == [] then 0 else 256 * FromBigEndian(bytes[..|bytes| - 1]) + bytes[|bytes| - 1]
  }

  lemma {:induction false} BigEndianDenotes(n: nat, size: nat)
    requires n < Power256(size)
    ensures FromBigEndian(BigEndian(n, size)) == n
  {
    if size > 0 {
      assert BigEndian(n, size)[..size - 1] == BigEndian(n / 256, size - 1);
      BigEndianDenotes(n / 256, size - 1);
    }
  }

  // --- the keystream -------------------------------------------------------------------------------------------

  function BlockInput(nonce: seq<Byte>, counter: nat): seq<Byte> { nonce + BigEndian(counter, 8) }

  function Block(mac: Mac, key: seq<Byte>, nonce: seq<Byte>, counter: nat): seq<Byte> { mac(key, BlockInput(nonce, counter)) }

  // No block is computed from the same input twice, for as many blocks as eight bytes can count.
  lemma BlockInputsDiffer(nonce: seq<Byte>, i: nat, j: nat)
    requires i < Power256(8) && j < Power256(8) && i != j
    ensures BlockInput(nonce, i) != BlockInput(nonce, j)
  {
    if BlockInput(nonce, i) == BlockInput(nonce, j) {
      assert BlockInput(nonce, i)[|nonce|..] == BlockInput(nonce, j)[|nonce|..];
      BigEndianInjective(i, j, 8);
    }
  }

  // Byte i of the stream is byte i mod 32 of block i div 32.
  ghost predicate IsKeystream(mac: Mac, key: seq<Byte>, nonce: seq<Byte>, stream: seq<Byte>)
    requires IsMac(mac)
  {
    forall i :: 0 <= i < |stream| ==> stream[i] == Block(mac, key, nonce, i / 32)[i % 32]
  }

  lemma KeystreamIsUnique(mac: Mac, key: seq<Byte>, nonce: seq<Byte>, a: seq<Byte>, b: seq<Byte>)
    requires IsMac(mac) && |a| == |b| && IsKeystream(mac, key, nonce, a) && IsKeystream(mac, key, nonce, b)
    ensures a == b
  {
    hide Block;
  }

  // The loop that extends the stream block by block and cuts it off: exactly n bytes.
  method FallbackKeystream(mac: Mac, key: seq<Byte>, nonce: seq<Byte>, n: nat) returns (stream: seq<Byte>)
    requires IsMac(mac)
    ensures |stream| == n && IsKeystream(mac, key, nonce, stream)
  {
    hide BigEndian;
    stream := [];
    var counter := 0;
    while |stream| < n
      invariant |stream| == 32 * counter && IsKeystream(mac, key, nonce, stream)
      decreases n - |stream|
    {
      var block := mac(key, nonce + BigEndian(counter, 8));
      forall i | 32 * counter <= i < 32 * counter + 32 ensures i / 32 == counter && i % 32 == i - 32 * counter {}
      stream := stream + block;
      counter := counter + 1;
    }
    stream := stream[..n];
  }

  ghost function Keystream(mac: Mac, key: seq<Byte>, nonce: seq<Byte>, n: nat): (stream: seq<Byte>)
    requires IsMac(mac)
    ensures |stream| == n && IsKeystream(mac, key, nonce, stream)
  {
    seq(n, i requires 0 <= i < n => Block(mac, key, nonce, i / 32)[i % 32])
  }

  // --- seal and open -------------------------------------------------------------------------------------------

  datatype Sealed = Sealed(alg: string, nonce: string, ciphertext: string, tag: Option<string>, aad: Option<string>)

  datatype OpenError = MissingTag | BadEncoding | AuthenticationFailed

  const FALLBACK := "KGW-HMAC-XOR-fallback"

  const LEGACY_TEXT := "kgw-modelkeyguard-v1"

  // The associated data of payloads sealed before it was stored with them: "kgw-modelkeyguard-v1".
  const LEGACY_AAD: seq<Byte> := [107, 103, 119, 45, 109, 111, 100, 101, 108, 107, 101, 121, 103, 117, 97, 114, 100, 45, 118, 49]

  ghost function Ciphertext(mac: Mac, key: seq<Byte>, nonce: seq<Byte>, plain: seq<Byte>): seq<Byte>
    requires IsMac(mac)
  {
    XorAll(plain, Keystream(mac, key, nonce, |plain|))
  }

  method Seal(mac: Mac, key: seq<Byte>, nonce: seq<Byte>, aad: seq<Byte>, plain: seq<Byte>) returns (sealed: Sealed)
    requires IsMac(mac)
    ensures var ciphertext := Ciphertext(mac, key, nonce, plain);
            sealed == Sealed("KGW-HMAC-XOR-fallback", EncodeUnpadded(nonce), EncodeUnpadded(ciphertext),
                             Some(EncodeUnpadded(mac(key, aad + nonce + ciphertext))), Some(EncodeUnpadded(aad)))
  {
    hide EncodeUnpadded, BigEndian;
    var stream := FallbackKeystream(mac, key, nonce, |plain|);
    KeystreamIsUnique(mac, key, nonce, stream, Keystream(mac, key, nonce, |plain|));
    var ciphertext := XorAll(plain, stream);
    var tag := mac(key, aad + nonce + ciphertext);
    sealed := Sealed(FALLBACK, EncodeUnpadded(nonce), EncodeUnpadded(ciphertext), Some(EncodeUnpadded(tag)), Some(EncodeUnpadded(aad)));
  }

  ghost function Opened(mac: Mac, key: seq<Byte>, sealed: Sealed): Result<seq<Byte>, OpenError>
    requires IsMac(mac)
  {
    var nonce := DecodeUnpadded(sealed.nonce);
    var aad := DecodeUnpadded(if sealed.aad.Some? then sealed.aad.value else EncodeUnpadded(LEGACY_AAD));
    var ciphertext := DecodeUnpadded(sealed.ciphertext);
    if nonce.None? || aad.None? || ciphertext.None? then Err(BadEncoding)
    else if sealed.tag.None? then Err(MissingTag)
    else if DecodeUnpadded(sealed.tag.value).None? then Err(BadEncoding)
    else if DecodeUnpadded(sealed.tag.value).value != mac(key, aad.value + nonce.value + ciphertext.value) then Err(AuthenticationFailed)
    else Ok(Ciphertext(mac, key, nonce.value, ciphertext.value))
  }

  method Open(mac: Mac, key: seq<Byte>, sealed: Sealed) returns (plain: Result<seq<Byte>, OpenError>)
    requires IsMac(mac)
    ensures plain == Opened(mac, key, sealed)
  {
    hide EncodeUnpadded, DecodeUnpadded, BigEndian;
    var nonce := DecodeUnpadded(sealed.nonce);
    if nonce.None? { return Err(BadEncoding); }
    var aad := DecodeUnpadded(if sealed.aad.Some? then sealed.aad.value else EncodeUnpadded(LEGACY_AAD));
    if aad.None? { return Err(BadEncoding); }
    var ciphertext := DecodeUnpadded(sealed.ciphertext);
    if ciphertext.None? { return Err(BadEncoding); }
    if sealed.tag.None? { return Err(MissingTag); }
    var tag := DecodeUnpadded(sealed.tag.value);
    if tag.None? { return Err(BadEncoding); }
    var expected := mac(key, aad.value + nonce.value + ciphertext.value);
    if tag.value != expected { return Err(AuthenticationFailed); }
    var stream := FallbackKeystream(mac, key, nonce.value, |ciphertext.value|);
    KeystreamIsUnique(mac, key, nonce.value, stream, Keystream(mac, key, nonce.value, |ciphertext.value|));
    return Ok(XorAll(ciphertext.value, stream));
  }

  // Opening what was sealed gives the payload back, for every payload, key, nonce and associated data; with
  // another tag function or another key in between, exactly if the tags happen to agree.
  method SealThenOpen(mac: Mac, key: seq<Byte>, nonce: seq<Byte>, aad: seq<Byte>, plain: seq<Byte>, openKey: seq<Byte>)
    returns (answer: Result<seq<Byte>, OpenError>)
    requires IsMac(mac)
    ensures openKey == key ==> answer == Ok(plain)
    ensures var message := aad + nonce + Ciphertext(mac, key, nonce, plain);
            answer.Err? <==> mac(openKey, message) != mac(key, message)
    ensures answer.Err? ==> answer == Err(AuthenticationFailed)
  {
    hide EncodeUnpadded, DecodeUnpadded, XorAll;
    ghost var ciphertext := Ciphertext(mac, key, nonce, plain);
    DecodeEncodeUnpadded(nonce);
    DecodeEncodeUnpadded(aad);
    DecodeEncodeUnpadded(ciphertext);
    DecodeEncodeUnpadded(mac(key, aad + nonce + ciphertext));
    XorAllTwice(plain, Keystream(mac, key, nonce, |plain|));
    hide Keystream;
    var sealed := Seal(mac, key, nonce, aad, plain);
    answer := Open(mac, openKey, sealed);
  }

  // The associated data taken for payloads without any is that text in ASCII.
  lemma LegacyIsText()
    ensures |LEGACY_AAD| == |LEGACY_TEXT| && forall i :: 0 <= i < |LEGACY_AAD| ==> LEGACY_AAD[i] == LEGACY_TEXT[i] as int
  {
  }

  // A payload sealed under the old associated data, from before that was stored with it, still opens.
  lemma OldPayloadsOpen(mac: Mac, key: seq<Byte>, nonce: seq<Byte>, plain: seq<Byte>)
    requires IsMac(mac)
    ensures var ciphertext := Ciphertext(mac, key, nonce, plain);
            var tag := mac(key, LEGACY_AAD + nonce + ciphertext);
            Opened(mac, key, Sealed(FALLBACK, EncodeUnpadded(nonce), EncodeUnpadded(ciphertext), Some(EncodeUnpadded(tag)), None)) == Ok(plain)
  {
    hide EncodeUnpadded, DecodeUnpadded, XorAll;
    var ciphertext := Ciphertext(mac, key, nonce, plain);
    DecodeEncodeUnpadded(nonce);
    DecodeEncodeUnpadded(LEGACY_AAD);
    DecodeEncodeUnpadded(ciphertext);
    DecodeEncodeUnpadded(mac(key, LEGACY_AAD + nonce + ciphertext));
    XorAllTwice(plain, Keystream(mac, key, nonce, |plain|));
  }

  // Without a tag nothing opens, and a payload opens only if its tag is the one over what is stored.
  lemma OnlyTaggedPayloadsOpen(mac: Mac, key: seq<Byte>, sealed: Sealed)
    requires IsMac(mac) && sealed.aad.Some? && Opened(mac, key, sealed).Ok?
    ensures sealed.tag.Some?
    ensures var parts := (DecodeUnpadded(sealed.aad.value), DecodeUnpadded(sealed.nonce), DecodeUnpadded(sealed.ciphertext));
            && parts.0.Some? && parts.1.Some? && parts.2.Some?
            && DecodeUnpadded(sealed.tag.value) == Some(mac(key, parts.0.value + parts.1.value + parts.2.value))
  {
    hide EncodeUnpadded, DecodeUnpadded;
  }

  // A payload without its tag is refused as such, whoever sealed it.
  lemma MissingTagRefused(mac: Mac, key: seq<Byte>, nonce: seq<Byte>, aad: seq<Byte>, ciphertext: seq<Byte>, alg: string)
    requires IsMac(mac)
    ensures Opened(mac, key, Sealed(alg, EncodeUnpadded(nonce), EncodeUnpadded(ciphertext), None, Some(EncodeUnpadded(aad)))) == Err(MissingTag)
  {
    hide EncodeUnpadded, DecodeUnpadded;
    DecodeEncodeUnpadded(nonce);
    DecodeEncodeUnpadded(aad);
    DecodeEncodeUnpadded(ciphertext);
  }
}
