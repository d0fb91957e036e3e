/**
 * Properties of the broadcast cipher: the decrypted-payload layout and its
 * round trip, the signature-length bound, the signed-bytes layout, the order
 * in which the opening checks fire, and that a broadcast created for an
 * address opens under that address.
 */
module BroadcastProofs {
  import opened Encoding
  import opened Objects
  import opened BroadcastCipher

  /** Decoding the encryption plaintext restores the message and the signature. */
  lemma DecryptedRoundTrip(p: Primitives, data: Bitmessage, signature: Bytes, rest: Bytes)
    requires WireLaws(p)
    requires data.destination.None? && |signature| <= SignatureMaxLength
    ensures ParseDecrypted(p, EncryptionPlaintext(p, data, signature) + rest)
            == Ok(Decrypted(data, signature, rest))
  {
    var afterPayload := p.varInt.write(|signature|) + (signature + rest);
    assert EncryptionPlaintext(p, data, signature) + rest == p.bitmessage.write(data) + afterPayload;
    assert IsBroadcastData(data);
    assert p.bitmessage.read(p.bitmessage.write(data) + afterPayload) == Ok((data, afterPayload));
    assert IsUint64(|signature|);
    assert p.varInt.read(afterPayload) == Ok((|signature|, signature + rest));
    assert (signature + rest)[..|signature|] == signature;
    assert (signature + rest)[|signature|..] == rest;
  }

  /**
   * A declared signature length above SignatureMaxLength is refused, however
   * many bytes follow it.
   */
  lemma OversizedSignatureRejected(p: Primitives, data: Bitmessage, sigLength: nat, tail: Bytes)
    requires WireLaws(p)
    requires data.destination.None? && SignatureMaxLength < sigLength <= MaxUint64
    ensures ParseDecrypted(p, p.bitmessage.write(data) + p.varInt.write(sigLength) + tail)
            == Err(MessageError(Operation.DecodeFromDecrypted))
  {
    var afterPayload := p.varInt.write(sigLength) + tail;
    assert p.bitmessage.write(data) + p.varInt.write(sigLength) + tail
        == p.bitmessage.write(data) + afterPayload;
    assert IsBroadcastData(data);
    assert p.bitmessage.read(p.bitmessage.write(data) + afterPayload) == Ok((data, afterPayload));
    assert IsUint64(sigLength);
    assert p.varInt.read(afterPayload) == Ok((sigLength, tail));
  }

  /**
   * Fewer bytes after the length prefix than it declares: io.ReadFull fails,
   * with io.EOF when nothing is left and io.ErrUnexpectedEOF otherwise.
   */
  lemma ShortSignatureRejected(p: Primitives, data: Bitmessage, sigLength: nat, tail: Bytes)
    requires WireLaws(p)
    requires data.destination.None? && sigLength <= SignatureMaxLength && |tail| < sigLength
    ensures ParseDecrypted(p, p.bitmessage.write(data) + p.varInt.write(sigLength) + tail)
            == Err(if tail == [] then EOF else UnexpectedEOF)
  {
    var afterPayload := p.varInt.write(sigLength) + tail;
    assert p.bitmessage.write(data) + p.varInt.write(sigLength) + tail
        == p.bitmessage.write(data) + afterPayload;
    assert IsBroadcastData(data);
    assert p.bitmessage.read(p.bitmessage.write(data) + afterPayload) == Ok((data, afterPayload));
    assert IsUint64(sigLength);
    assert p.varInt.read(afterPayload) == Ok((sigLength, tail));
  }

  /** The encryption plaintext cut anywhere inside the signature does not decode. */
  lemma TruncatedPlaintextRejected(p: Primitives, data: Bitmessage, signature: Bytes, cut: nat)
    requires WireLaws(p)
    requires data.destination.None? && |signature| <= SignatureMaxLength
    requires |EncryptionPlaintext(p, data, signature)| - |signature| <= cut < |EncryptionPlaintext(p, data, signature)|
    ensures ParseDecrypted(p, EncryptionPlaintext(p, data, signature)[..cut]).Err?
  {
    var prefix := p.bitmessage.write(data) + p.varInt.write(|signature|);
    var k := cut - |prefix|;
    assert EncryptionPlaintext(p, data, signature)[..cut] == prefix + signature[..k];
    ShortSignatureRejected(p, data, |signature|, signature[..k]);
  }

  /**
   * The signed bytes are the header's signable form, then the tag (tagged
   * broadcasts only), then the Bitmessage payload.
   */
  lemma SigningBytesLayout(p: Primitives, i: IncompleteBroadcast, data: Bitmessage)
    ensures var h := p.headerForSigning(IncompleteHeader(i));
            var t := if i.IncompleteTagged? then i.tag else [];
            var b := SigningBytes(p, i, data);
            && |b| == |h| + |t| + |p.bitmessage.write(data)|
            && b[..|h|] == h
            && b[|h|..|h| + |t|] == t
            && b[|h| + |t|..] == p.bitmessage.write(data)
  {
    var h := p.headerForSigning(IncompleteHeader(i));
    var t := if i.IncompleteTagged? then i.tag else [];
    assert SigningBytes(p, i, data) == h + t + p.bitmessage.write(data);
  }

  /** The receiver recomputes, from the wire object, exactly the bytes the sender signed. */
  lemma SignerAndVerifierAgree(p: Primitives, i: IncompleteBroadcast, address: Address,
                               private: PrivateIdentity, data: Bitmessage)
    requires Sealed(p, i, address, private, data).Ok?
    ensures ObjectSigningBytes(p, Sealed(p, i, address, private, data).value.msg, data)
            == SigningBytes(p, i, data)
  {
  }

  /** With a destination, creation fails whatever the signing and encryption primitives do. */
  lemma CreateRejectsDestinationFirst(p: Primitives, q: Primitives, expiration: int, data: Bitmessage,
                                      tag: Sha, private: PrivateIdentity)
    requires data.destination.Some?
    ensures CreatedTagless(p, expiration, data, private) == CreatedTagless(q, expiration, data, private)
            == Err(DestinationPresent)
    ensures CreatedTagged(p, expiration, data, tag, private) == CreatedTagged(q, expiration, data, tag, private)
            == Err(DestinationPresent)
  {
  }

  /** A tag that is not the address's tag is refused whatever decryption would have done. */
  lemma TagCheckedBeforeDecryption(p: Primitives, o: BroadcastObject, address: Address,
                                   decrypt: (PrivateKey, Bytes) -> Result<Bytes>)
    requires o.TaggedObject? && o.tag != p.tag(address)
    ensures OpenedTagged(p.(decrypt := decrypt), o, address) == Err(InvalidIdentity)
  {
  }

  /**
   * The anti-spoofing check comes before the signature check: keys that do
   * not regenerate the decrypting address are refused whatever the signature
   * and however signatures would verify.
   */
  lemma AddressCheckedBeforeSignature(p: Primitives, o: BroadcastObject, data: Bitmessage, signature: Bytes,
                                      address: Address, verify: (Signature, Bytes, PublicKey) -> bool)
    requires KeysRegenerateOther(p, data, address)
    ensures Verification(p.(verify := verify), o, data, signature, address) == Fail(ForwardingAttack)
  {
  }

  /**
   * Once the keys regenerate the decrypting address, verification passes
   * exactly when the signature parses and verifies over SHA-256 or over
   * SHA-1 of the signing bytes; otherwise it fails with InvalidSignature.
   */
  lemma VerificationDecidedBySignature(p: Primitives, o: BroadcastObject, data: Bitmessage, signature: Bytes,
                                       address: Address)
    requires KeysRegenerate(p, data, address)
    ensures var signKey := p.toBtcec(data.signingKey).value;
            var b := ObjectSigningBytes(p, o, data);
            Verification(p, o, data, signature, address) == Pass
            <==> p.parseSignature(signature).Some?
                 && (p.verify(p.parseSignature(signature).value, p.sha256(b), signKey)
                     || p.verify(p.parseSignature(signature).value, p.sha1(b), signKey))
    ensures Verification(p, o, data, signature, address) == Pass
            || Verification(p, o, data, signature, address) == Fail(InvalidSignature)
  {
  }

  /** A signature made over the SHA-1 hash still verifies when the SHA-256 check fails. */
  lemma LegacyHashAccepted(p: Primitives, o: BroadcastObject, data: Bitmessage, sig: Signature,
                           address: Address)
    requires KeysRegenerate(p, data, address)
    requires !p.verify(sig, p.sha256(ObjectSigningBytes(p, o, data)), p.toBtcec(data.signingKey).value)
    requires p.verify(sig, p.sha1(ObjectSigningBytes(p, o, data)), p.toBtcec(data.signingKey).value)
    requires p.parseSignature(p.serialize(sig)) == Some(sig)
    ensures Verification(p, o, data, p.serialize(sig), address) == Pass
  {
    VerificationDecidedBySignature(p, o, data, p.serialize(sig), address);
  }

  /** The sender's message carries its signing key, and its keys regenerate the sender's address. */
  predicate SenderKeys(p: Primitives, data: Bitmessage, private: PrivateIdentity)
  {
    && p.toBtcec(data.signingKey) == Ok(p.publicKey(private.signingKey))
    && KeysRegenerate(p, data, private.address)
  }

  /** Opening with the sender's address what sealing made: the message and signature come back. */
  lemma {:induction false} SealedOpens(p: Primitives, i: IncompleteBroadcast, private: PrivateIdentity,
                                       data: Bitmessage)
    requires WireLaws(p) && CryptoLaws(p) && SenderKeys(p, data, private)
    requires data.destination.None?
    requires Sealed(p, i, private.address, private, data).Ok?
    ensures var s := Sealed(p, i, private.address, private, data).value;
            Opened(p, s.msg, BroadcastKey(p, i, private.address), private.address)
            == Ok(Opening(data, s.signature))
  {
    var address := private.address;
    var s := Sealed(p, i, address, private, data).value;
    var key := BroadcastKey(p, i, address);
    var plaintext := EncryptionPlaintext(p, data, s.signature);
    var sig :| p.sign(private.signingKey, p.sha256(SigningBytes(p, i, data))) == Ok(sig)
               && p.serialize(sig) == s.signature;
    // Decryption with the broadcast key gives back the plaintext.
    assert Encrypted(p, i, address, plaintext) == Ok(s.msg);
    assert p.encrypt(p.publicKey(key), plaintext) == Ok(s.msg.encrypted);
    assert p.decrypt(key, s.msg.encrypted) == Ok(plaintext);
    // The plaintext decodes to the message and the signature.
    assert |s.signature| <= SignatureMaxLength;
    DecryptedRoundTrip(p, data, s.signature, []);
    assert plaintext + [] == plaintext;
    // The signature verifies over SHA-256 of the bytes the sender signed.
    assert ObjectSigningBytes(p, s.msg, data) == SigningBytes(p, i, data);
    assert p.parseSignature(s.signature) == Some(sig);
    assert p.verify(sig, p.sha256(SigningBytes(p, i, data)), p.publicKey(private.signingKey));
    assert Verification(p, s.msg, data, s.signature, address) == Pass;
  }

  /** A tagless broadcast created by an identity opens under that identity's address. */
  lemma TaglessRoundTrip(p: Primitives, expiration: int, data: Bitmessage, private: PrivateIdentity)
    requires WireLaws(p) && CryptoLaws(p) && SenderKeys(p, data, private)
    requires CreatedTagless(p, expiration, data, private).Ok?
    ensures var s := CreatedTagless(p, expiration, data, private).value;
            s.msg.TaglessObject? && OpenedTagless(p, s.msg, private.address) == Ok(Opening(data, s.signature))
  {
    SealedOpens(p, IncompleteTagless(expiration, private.address.stream), private, data);
  }

  /**
   * A tagged broadcast created by an identity with its address's tag opens
   * under that address.
   */
  lemma TaggedRoundTrip(p: Primitives, expiration: int, data: Bitmessage, private: PrivateIdentity)
    requires WireLaws(p) && CryptoLaws(p) && SenderKeys(p, data, private)
    requires CreatedTagged(p, expiration, data, p.tag(private.address), private).Ok?
    ensures var s := CreatedTagged(p, expiration, data, p.tag(private.address), private).value;
            s.msg.TaggedObject? && OpenedTagged(p, s.msg, private.address) == Ok(Opening(data, s.signature))
  {
    SealedOpens(p, IncompleteTagged(expiration, private.address.stream, p.tag(private.address)), private, data);
  }
}
