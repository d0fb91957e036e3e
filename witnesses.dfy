/**
 * The laws the model assumes of its opaque collaborators (VarIntLaws,
 * InvVectLaws, WireLaws, CryptoLaws) can all hold at once, together with
 * the hypotheses of the round-trip lemmas. The lemmas below prove it on
 * simple stand-ins: a fixed-width little-endian varint, a 32-byte inventory
 * codec, a length-prefixed Bitmessage codec, "encryption" that prepends the
 * key, and a constant signer. They model no part of the program; they only
 * show that the lemmas that assume the laws are not vacuous.
 */
module LawWitnesses {
  import opened Encoding
  import opened Objects
  import opened Inventory
  import opened BroadcastCipher
  import opened BroadcastProofs

  // ---- Fixed-width little-endian numbers (a varint stand-in) ----

  function Pow256(k: nat): (r: nat)
    ensures r > 0
  {
    if k == 0 then 1 else 256 * Pow256(k - 1)
  }

  /** The k low base-256 digits of n, least significant first. */
  function LittleEndian(n: nat, k: nat): (s: Bytes)
    ensures |s| == k
  {
    if k == 0 then [] else [(n % 256) as Byte] + LittleEndian(n / 256, k - 1)
  }

  function FromLittleEndian(s: Bytes): nat
  {
    if s == [] then 0 else s[0] as nat + 256 * FromLittleEndian(s[1..])
  }

  lemma {:induction false} LittleEndianRoundTrip(n: nat, k: nat)
    requires n < Pow256(k)
    ensures FromLittleEndian(LittleEndian(n, k)) == n
  {
    if k > 0 {
      assert n / 256 < Pow256(k - 1);
      LittleEndianRoundTrip(n / 256, k - 1);
      assert LittleEndian(n, k)[1..] == LittleEndian(n / 256, k - 1);
    }
  }

  lemma {:induction false} FromLittleEndianBound(s: Bytes)
    ensures FromLittleEndian(s) < Pow256(|s|)
  {
    if s != [] {
      FromLittleEndianBound(s[1..]);
      assert FromLittleEndian(s[1..]) + 1 <= Pow256(|s| - 1);
      assert 256 * (FromLittleEndian(s[1..]) + 1) <= 256 * Pow256(|s| - 1);
    }
  }

  lemma EightDigits()
    ensures Pow256(8) == MaxUint64 + 1
  {
    assert Pow256(4) == 0x1_0000_0000 by {
      assert Pow256(2) == 0x1_0000;
    }
  }

  function ReadFixed(s: Bytes): Result<(nat, Bytes)>
  {
    if |s| < 8 then Err(EOF) else Ok((FromLittleEndian(s[..8]), s[8..]))
  }

  function VarIntWitness(): Codec<nat>
  {
    Codec(n => LittleEndian(n, 8), ReadFixed)
  }

  lemma VarIntLawsHold()
    ensures VarIntLaws(VarIntWitness())
  {
    var c := VarIntWitness();
    EightDigits();
    forall n: nat, rest: Bytes | IsUint64(n)
      ensures c.read(c.write(n) + rest) == Ok((n, rest))
    {
      var s := LittleEndian(n, 8) + rest;
      assert s[..8] == LittleEndian(n, 8) && s[8..] == rest;
      LittleEndianRoundTrip(n, 8);
    }
    forall s: Bytes | c.read(s).Ok?
      ensures IsUint64(c.read(s).value.0)
    {
      FromLittleEndianBound(s[..8]);
    }
  }

  // ---- A codec for inventory vectors ----

  function ReadHash(s: Bytes): Result<(InvVect, Bytes)>
  {
    if |s| < 32 then Err(EOF) else Ok((InvVect(s[..32]), s[32..]))
  }

  function InvVectWitness(): Codec<InvVect>
  {
    Codec((v: InvVect) => v.hash, ReadHash)
  }

  lemma InvVectLawsHold()
    ensures InvVectLaws(InvVectWitness())
  {
    var c := InvVectWitness();
    forall v, rest: Bytes | AnyInvVect(v)
      ensures c.read(c.write(v) + rest) == Ok((v, rest))
    {
      assert (v.hash + rest)[..32] == v.hash;
    }
  }

  // ---- Unary numbers and length-prefixed fields ----

  function Unary(n: nat): Bytes
  {
    if n == 0 then [0] else [1] + Unary(n - 1)
  }

  /** A unary number from the front of s, and what follows it. */
  function ReadUnary(s: Bytes): (r: Option<(nat, Bytes)>)
    ensures r.Some? ==> IsProperSuffix(r.value.1, s)
  {
    if s == [] then None
    else if s[0] == 0 then Some((0, s[1..]))
    else match ReadUnary(s[1..])
      case None => None
      case Some((n, rest)) => Some((n + 1, rest))
  }

  lemma {:induction false} UnaryRoundTrip(n: nat, rest: Bytes)
    ensures ReadUnary(Unary(n) + rest) == Some((n, rest))
  {
    var s := Unary(n) + rest;
    if n > 0 {
      UnaryRoundTrip(n - 1, rest);
      assert s == [1] + (Unary(n - 1) + rest);
      assert s[0] == 1 && s[1..] == Unary(n - 1) + rest;
    } else {
      assert s == [0] + rest;
      assert s[0] == 0 && s[1..] == rest;
    }
  }

  function Field(b: Bytes): Bytes
  {
    Unary(|b|) + b
  }

  function ReadField(s: Bytes): (r: Option<(Bytes, Bytes)>)
    ensures r.Some? ==> IsProperSuffix(r.value.1, s)
  {
    match ReadUnary(s)
    case None => None
    case Some((n, rest)) => if |rest| < n then None else Some((rest[..n], rest[n..]))
  }

  lemma FieldRoundTrip(b: Bytes, rest: Bytes)
    ensures ReadField(Field(b) + rest) == Some((b, rest))
  {
    assert Field(b) + rest == Unary(|b|) + (b + rest);
    UnaryRoundTrip(|b|, b + rest);
    assert (b + rest)[..|b|] == b && (b + rest)[|b|..] == rest;
  }

  lemma SuffixTransitive(a: Bytes, b: Bytes, c: Bytes)
    requires IsProperSuffix(b, a) && IsProperSuffix(c, b)
    ensures IsProperSuffix(c, a)
  {
    assert a[|a| - |b|..][|b| - |c|..] == a[|a| - |c|..];
  }

  // ---- A codec for broadcast messages ----

  function WriteMessage(m: Bitmessage): Bytes
  {
    Field(m.signingKey) + (Field(m.encryptionKey) + (Unary(m.behavior) +
      (Unary(m.pow.nonceTrialsPerByte) + (Unary(m.pow.extraBytes) + Field(m.content)))))
  }

  /** Reads the fields in WriteMessage's order, one stage per field; a broadcast has no destination. */
  function ReadMessage(s: Bytes): (r: Result<(Bitmessage, Bytes)>)
    ensures r.Ok? ==> IsProperSuffix(r.value.1, s)
  {
    match ReadField(s)
    case None => Err(EOF)
    case Some((sk, s1)) =>
      var r := ReadEncryptionKey(sk, s1);
      if r.Ok? then SuffixTransitive(s, s1, r.value.1); r else r
  }

  function ReadEncryptionKey(sk: Bytes, s: Bytes): (r: Result<(Bitmessage, Bytes)>)
    ensures r.Ok? ==> IsProperSuffix(r.value.1, s)
  {
    match ReadField(s)
    case None => Err(EOF)
    case Some((ek, s1)) =>
      var r := ReadBehavior(sk, ek, s1);
      if r.Ok? then SuffixTransitive(s, s1, r.value.1); r else r
  }

  function ReadBehavior(sk: Bytes, ek: Bytes, s: Bytes): (r: Result<(Bitmessage, Bytes)>)
    ensures r.Ok? ==> IsProperSuffix(r.value.1, s)
  {
    match ReadUnary(s)
    case None => Err(EOF)
    case Some((behavior, s1)) =>
      var r := ReadPow(sk, ek, behavior, s1);
      if r.Ok? then SuffixTransitive(s, s1, r.value.1); r else r
  }

  function ReadPow(sk: Bytes, ek: Bytes, behavior: nat, s: Bytes): (r: Result<(Bitmessage, Bytes)>)
    ensures r.Ok? ==> IsProperSuffix(r.value.1, s)
  {
    match ReadUnary(s)
    case None => Err(EOF)
    case Some((trials, s1)) =>
      var r := ReadExtraBytes(sk, ek, behavior, trials, s1);
      if r.Ok? then SuffixTransitive(s, s1, r.value.1); r else r
  }

  function ReadExtraBytes(sk: Bytes, ek: Bytes, behavior: nat, trials: nat, s: Bytes)
    : (r: Result<(Bitmessage, Bytes)>)
    ensures r.Ok? ==> IsProperSuffix(r.value.1, s)
  {
    match ReadUnary(s)
    case None => Err(EOF)
    case Some((extra, s1)) =>
      var r := ReadContent(sk, ek, behavior, Pow(trials, extra), s1);
      if r.Ok? then SuffixTransitive(s, s1, r.value.1); r else r
  }

  function ReadContent(sk: Bytes, ek: Bytes, behavior: nat, pow: Pow, s: Bytes)
    : (r: Result<(Bitmessage, Bytes)>)
    ensures r.Ok? ==> IsProperSuffix(r.value.1, s)
  {
    match ReadField(s)
    case None => Err(EOF)
    case Some((content, s1)) => Ok((Bitmessage(sk, ek, behavior, pow, None, content), s1))
  }

  lemma MessageRoundTrip(m: Bitmessage, rest: Bytes)
    requires IsBroadcastData(m)
    ensures ReadMessage(WriteMessage(m) + rest) == Ok((m, rest))
  {
    var t5 := Field(m.content) + rest;
    var t4 := Unary(m.pow.extraBytes) + t5;
    var t3 := Unary(m.pow.nonceTrialsPerByte) + t4;
    var t2 := Unary(m.behavior) + t3;
    var t1 := Field(m.encryptionKey) + t2;
    WrittenMessageSplits(m, rest);
    FieldRoundTrip(m.content, rest);
    assert ReadContent(m.signingKey, m.encryptionKey, m.behavior, m.pow, t5) == Ok((m, rest));
    UnaryRoundTrip(m.pow.extraBytes, t5);
    assert ReadExtraBytes(m.signingKey, m.encryptionKey, m.behavior, m.pow.nonceTrialsPerByte, t4)
           == Ok((m, rest));
    UnaryRoundTrip(m.pow.nonceTrialsPerByte, t4);
    assert ReadPow(m.signingKey, m.encryptionKey, m.behavior, t3) == Ok((m, rest));
    UnaryRoundTrip(m.behavior, t3);
    assert ReadBehavior(m.signingKey, m.encryptionKey, t2) == Ok((m, rest));
    FieldRoundTrip(m.encryptionKey, t2);
    assert ReadEncryptionKey(m.signingKey, t1) == Ok((m, rest));
    FieldRoundTrip(m.signingKey, t1);
  }

  /** The trailing bytes can be attached to the last field of a written message. */
  lemma WrittenMessageSplits(m: Bitmessage, rest: Bytes)
    ensures WriteMessage(m) + rest ==
      Field(m.signingKey) + (Field(m.encryptionKey) + (Unary(m.behavior) +
        (Unary(m.pow.nonceTrialsPerByte) + (Unary(m.pow.extraBytes) + (Field(m.content) + rest)))))
  {
    var a := Unary(m.pow.extraBytes);
    var b := Unary(m.pow.nonceTrialsPerByte);
    var c := Unary(m.behavior);
    var d := Field(m.encryptionKey);
    var e := Field(m.signingKey);
    var f := Field(m.content);
    assert (a + f) + rest == a + (f + rest);
    assert (b + (a + f)) + rest == b + ((a + f) + rest);
    assert (c + (b + (a + f))) + rest == c + ((b + (a + f)) + rest);
    assert (d + (c + (b + (a + f)))) + rest == d + ((c + (b + (a + f))) + rest);
    assert (e + (d + (c + (b + (a + f))))) + rest == e + ((d + (c + (b + (a + f)))) + rest);
  }

  // ---- Stand-in cryptography and identities ----

  function Sign(k: PrivateKey, h: Bytes): Result<Signature>
  {
    Ok(Signature(0, 0))
  }

  function Serialize(sig: Signature): Bytes
  {
    Unary(sig.r) + Unary(sig.s)
  }

  function ParseSignature(b: Bytes): Option<Signature>
  {
    match ReadUnary(b)
    case None => None
    case Some((r, b1)) =>
      match ReadUnary(b1)
      case None => None
      case Some((s, b2)) => if b2 == [] then Some(Signature(r, s)) else None
  }

  /** Prepends the key, so that only the matching key strips it off again. */
  function Encrypt(k: PublicKey, m: Bytes): Result<Bytes>
  {
    Ok(k.point + m)
  }

  function Decrypt(k: PrivateKey, c: Bytes): Result<Bytes>
  {
    if |k.scalar| <= |c| && c[..|k.scalar|] == k.scalar then Ok(c[|k.scalar|..]) else Err(InvalidMAC)
  }

  /** Every key pair regenerates an address with no ripe hash. */
  function PublicAddress(sk: PublicKey, ek: PublicKey, behavior: nat, pow: Pow, version: nat, stream: nat)
    : Result<Address>
  {
    Ok(Address(version, stream, []))
  }

  function ZeroTag(a: Address): Sha
  {
    seq(32, _ => 0)
  }

  function Witness(): Primitives
  {
    Primitives(
      VarIntWitness(),
      Codec(WriteMessage, ReadMessage),
      h => [],
      b => b,
      b => b,
      Sign,
      Serialize,
      ParseSignature,
      (sig, h, k) => true,
      (k: PrivateKey) => PublicKey(k.scalar),
      Encrypt,
      Decrypt,
      b => Ok(PublicKey(b)),
      PublicAddress,
      a => "",
      ZeroTag,
      a => PrivateKey([]),
      a => PrivateKey([1]))
  }

  lemma WireLawsHold()
    ensures WireLaws(Witness())
  {
    var p := Witness();
    VarIntLawsHold();
    forall m, rest | IsBroadcastData(m)
      ensures p.bitmessage.read(p.bitmessage.write(m) + rest) == Ok((m, rest))
    {
      MessageRoundTrip(m, rest);
    }
  }

  lemma CryptoLawsHold()
    ensures CryptoLaws(Witness())
  {
    var p := Witness();
    forall k, m | p.encrypt(p.publicKey(k), m).Ok?
      ensures p.decrypt(k, p.encrypt(p.publicKey(k), m).value) == Ok(m)
    {
      assert (k.scalar + m)[..|k.scalar|] == k.scalar && (k.scalar + m)[|k.scalar|..] == m;
    }
    forall sig
      ensures p.parseSignature(p.serialize(sig)) == Some(sig)
    {
      UnaryRoundTrip(sig.r, Unary(sig.s));
      UnaryRoundTrip(sig.s, []);
      assert Unary(sig.s) + [] == Unary(sig.s);
    }
    assert |Serialize(Signature(0, 0))| == 2;
  }

  /**
   * An identity whose broadcast carries its own signing key: every law holds,
   * the sender's keys regenerate its address, and both kinds of broadcast
   * are created -- so TaglessRoundTrip and TaggedRoundTrip apply to it.
   */
  lemma RoundTripHypothesesHold(expiration: int, data: Bitmessage, private: PrivateIdentity)
    requires data.signingKey == private.signingKey.scalar && data.destination.None?
    ensures var p := Witness();
            && WireLaws(p) && CryptoLaws(p) && SenderKeys(p, data, private)
            && CreatedTagless(p, expiration, data, private).Ok?
            && CreatedTagged(p, expiration, data, p.tag(private.address), private).Ok?
  {
    WireLawsHold();
    CryptoLawsHold();
  }
}
