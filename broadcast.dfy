/**
 * The broadcast cipher (cipher/broadcast.go): how a Bitmessage is signed and
 * encrypted into a tagless (version 4) or tagged (version 5) broadcast, and
 * how a received broadcast is decrypted, decoded and verified.
 *
 * The functions give the byte layouts and the decisions; the class Broadcast
 * and the methods after it do the same work step by step, on the fields the
 * source updates, and are proved to agree with the functions.
 */
module BroadcastCipher {
  import opened Encoding
  import opened Objects

  /** incompleteTaglessBroadcast / incompleteTaggedBroadcast: a broadcast before encryption. */
  datatype IncompleteBroadcast =
    | IncompleteTagless(expiration: int, streamNumber: nat)
    | IncompleteTagged(expiration: int, streamNumber: nat, tag: Sha)

  /** The header an incomplete broadcast signs: nonce 0, type broadcast, its version. */
  function IncompleteHeader(i: IncompleteBroadcast): ObjectHeader
  {
    match i
    case IncompleteTagless(e, s) => ObjectHeader(0, e, ObjectTypeBroadcast, TaglessBroadcastVersion, s)
    case IncompleteTagged(e, s, _) => ObjectHeader(0, e, ObjectTypeBroadcast, TaggedBroadcastVersion, s)
  }

  /**
   * incomplete*.Encode: the header's signable form, then the tag (tagged form
   * only). It is what the finished object presents for signing, whatever the
   * ciphertext turns out to be.
   */
  function IncompleteEncoding(p: Primitives, i: IncompleteBroadcast): (r: Bytes)
    ensures i.IncompleteTagless? ==>
      forall c :: r == ObjectEncodeForSigning(p, NewTaglessObject(i.expiration, i.streamNumber, c))
    ensures i.IncompleteTagged? ==>
      forall c :: r == ObjectEncodeForSigning(p, NewTaggedObject(i.expiration, i.streamNumber, i.tag, c))
  {
    match i
    case IncompleteTagless(_, _) => p.headerForSigning(IncompleteHeader(i))
    case IncompleteTagged(_, _, tag) => p.headerForSigning(IncompleteHeader(i)) + tag
  }

  /** broadcastEncodeForSigning: the bytes that are hashed and signed when creating. */
  function SigningBytes(p: Primitives, i: IncompleteBroadcast, data: Bitmessage): Bytes
  {
    IncompleteEncoding(p, i) + p.bitmessage.write(data)
  }

  /** Broadcast.encodeForSigning: the bytes that are hashed when verifying a received object. */
  function ObjectSigningBytes(p: Primitives, o: BroadcastObject, data: Bitmessage): (r: Bytes)
    // whatever incomplete broadcast the object was encrypted from, these are the bytes its sender signed
    ensures forall i: IncompleteBroadcast, a: Address, pt: Bytes {:trigger Encrypted(p, i, a, pt)} ::
              Encrypted(p, i, a, pt) == Ok(o) ==> r == SigningBytes(p, i, data)
  {
    ObjectEncodeForSigning(p, o) + p.bitmessage.write(data)
  }

  /** Broadcast.encodeForEncryption: the payload, the signature length as a varint, the signature. */
  function EncryptionPlaintext(p: Primitives, data: Bitmessage, signature: Bytes): Bytes
  {
    p.bitmessage.write(data) + p.varInt.write(|signature|) + signature
  }

  /** What decodeFromDecrypted recovers, and what is left of the stream after it. */
  datatype Decrypted = Decrypted(data: Bitmessage, signature: Bytes, rest: Bytes)

  /** io.ReadFull's error when fewer bytes are left than asked for. */
  function ShortReadError(available: Bytes): Error
  {
    if available == [] then EOF else UnexpectedEOF
  }

  /** Broadcast.decodeFromDecrypted */
  function ParseDecrypted(p: Primitives, r: Bytes): (res: Result<Decrypted>)
    ensures res.Ok? ==> |res.value.signature| <= SignatureMaxLength
    ensures res.Ok? ==> p.bitmessage.read(r).Ok? && res.value.data == p.bitmessage.read(r).value.0
  {
    match p.bitmessage.read(r)
    case Err(e) => Err(e)
    case Ok((data, r1)) =>
      match p.varInt.read(r1)
      case Err(e) => Err(e)
      case Ok((sigLength, r2)) =>
        if sigLength > SignatureMaxLength then Err(MessageError(Operation.DecodeFromDecrypted))
        else if |r2| < sigLength then Err(ShortReadError(r2))
        else Ok(Decrypted(data, r2[..sigLength], r2[sigLength..]))
  }

  /** incomplete*.Encrypt: encrypt to the version's broadcast key and wrap the ciphertext. */
  function Encrypted(p: Primitives, i: IncompleteBroadcast, address: Address, plaintext: Bytes)
    : (r: Result<BroadcastObject>)
    ensures r.Ok? ==> r.value.header == IncompleteHeader(i)
    ensures r.Ok? ==> ObjectEncodeForSigning(p, r.value) == IncompleteEncoding(p, i)
    ensures r.Ok? ==> r.value.TaggedObject? == i.IncompleteTagged?
    ensures r.Ok? && i.IncompleteTagged? ==> r.value.tag == i.tag
    ensures r.Ok? ==> p.encrypt(p.publicKey(BroadcastKey(p, i, address)), plaintext) == Ok(r.value.encrypted)
    ensures r.Err? ==> p.encrypt(p.publicKey(BroadcastKey(p, i, address)), plaintext) == Err(r.error)
  {
    match p.encrypt(p.publicKey(BroadcastKey(p, i, address)), plaintext)
    case Err(e) => Err(e)
    case Ok(encrypted) =>
      match i
      case IncompleteTagless(e, s) => Ok(NewTaglessObject(e, s, encrypted))
      case IncompleteTagged(e, s, tag) => Ok(NewTaggedObject(e, s, tag, encrypted))
  }

  /** The broadcast key of an address for the incomplete broadcast's version. */
  function BroadcastKey(p: Primitives, i: IncompleteBroadcast, address: Address): PrivateKey
  {
    if i.IncompleteTagged? then p.v5BroadcastKey(address) else p.v4BroadcastKey(address)
  }

  /** A finished broadcast: the wire object and the signature it carries. */
  datatype Sealing = Sealing(msg: BroadcastObject, signature: Bytes)

  /** signAndEncrypt: sign SHA-256 of the signing bytes, then encrypt payload and signature. */
  function Sealed(p: Primitives, i: IncompleteBroadcast, address: Address, private: PrivateIdentity,
                  data: Bitmessage): (r: Result<Sealing>)
    ensures r.Ok? ==> Encrypted(p, i, address, EncryptionPlaintext(p, data, r.value.signature))
                        == Ok(r.value.msg)
    ensures r.Ok? ==> exists sig :: p.sign(private.signingKey, p.sha256(SigningBytes(p, i, data))) == Ok(sig)
                                    && p.serialize(sig) == r.value.signature
    ensures r.Err? ==> r.error.SigningFailed? || r.error.EncryptionFailed?
    // a signing error is wrapped as SigningFailed, and nothing is encrypted
    ensures var sig := p.sign(private.signingKey, p.sha256(SigningBytes(p, i, data)));
            sig.Err? ==> r == Err(SigningFailed(sig.error))
    // after a good signature, an encryption error is wrapped as EncryptionFailed; otherwise sealing succeeds
    ensures var sig := p.sign(private.signingKey, p.sha256(SigningBytes(p, i, data)));
            sig.Ok? ==>
              var e := Encrypted(p, i, address, EncryptionPlaintext(p, data, p.serialize(sig.value)));
              (e.Err? ==> r == Err(EncryptionFailed(e.error))) && (e.Ok? ==> r.Ok?)
  {
    var hash := p.sha256(SigningBytes(p, i, data));
    match p.sign(private.signingKey, hash)
    case Err(e) => Err(SigningFailed(e))
    case Ok(sig) =>
      var signature := p.serialize(sig);
      match Encrypted(p, i, address, EncryptionPlaintext(p, data, signature))
      case Err(e) => Err(EncryptionFailed(e))
      case Ok(o) => Ok(Sealing(o, signature))
  }

  /**
   * identity.NewPublic(signKey, encKey, ...).Address(): the address that the
   * keys inside the message generate, for the decrypting address's version
   * and stream.
   */
  function RegeneratedAddress(p: Primitives, data: Bitmessage, address: Address): Result<Address>
  {
    match p.toBtcec(data.signingKey)
    case Err(e) => Err(e)
    case Ok(signKey) =>
      match p.toBtcec(data.encryptionKey)
      case Err(e) => Err(e)
      case Ok(encKey) => p.publicAddress(signKey, encKey, data.behavior, data.pow, address.version, address.stream)
  }

  /** The keys in data regenerate an address whose string is address's. */
  predicate KeysRegenerate(p: Primitives, data: Bitmessage, address: Address)
  {
    var generated := RegeneratedAddress(p, data, address);
    generated.Ok? && p.addressString(generated.value) == p.addressString(address)
  }

  /** The keys in data regenerate an address whose string differs from address's. */
  predicate KeysRegenerateOther(p: Primitives, data: Bitmessage, address: Address)
  {
    var generated := RegeneratedAddress(p, data, address);
    generated.Ok? && p.addressString(generated.value) != p.addressString(address)
  }

  /**
   * Broadcast.verify: the keys inside the message must regenerate the
   * decrypting address (checked first), and the signature must verify over
   * SHA-256 of the signing bytes or, failing that, over SHA-1.
   */
  function Verification(p: Primitives, o: BroadcastObject, data: Bitmessage, signature: Bytes,
                        address: Address): (v: Outcome)
    ensures v.Pass? ==> p.parseSignature(signature).Some?
    ensures v.Pass? ==> p.toBtcec(data.signingKey).Ok? && p.toBtcec(data.encryptionKey).Ok?
    // anti-spoofing: a verified message's keys regenerate the decrypting address
    ensures v.Pass? ==> KeysRegenerate(p, data, address)
    // and its signature verifies under its signing key over SHA-256 or SHA-1 of the signed bytes
    ensures v.Pass? ==>
      var sig := p.parseSignature(signature).value;
      var signKey := p.toBtcec(data.signingKey).value;
      var b := ObjectSigningBytes(p, o, data);
      p.verify(sig, p.sha256(b), signKey) || p.verify(sig, p.sha1(b), signKey)
  {
    match p.toBtcec(data.signingKey)
    case Err(e) => Fail(e)
    case Ok(signKey) =>
      match p.toBtcec(data.encryptionKey)
      case Err(e) => Fail(e)
      case Ok(encKey) =>
        match p.publicAddress(signKey, encKey, data.behavior, data.pow, address.version, address.stream)
        case Err(e) => Fail(e)
        case Ok(generated) =>
          if p.addressString(address) != p.addressString(generated) then Fail(ForwardingAttack)
          else
            var b := ObjectSigningBytes(p, o, data);
            match p.parseSignature(signature)
            case None => Fail(InvalidSignature)
            case Some(sig) =>
              if !p.verify(sig, p.sha256(b), signKey) && !p.verify(sig, p.sha1(b), signKey)
              then Fail(InvalidSignature)
              else Pass
  }

  /** An opened broadcast: the decoded message and its verified signature. */
  datatype Opening = Opening(data: Bitmessage, signature: Bytes)

  /** newBroadcast: decrypt with key, decode, verify against address. */
  function Opened(p: Primitives, o: BroadcastObject, key: PrivateKey, address: Address): (r: Result<Opening>)
    ensures p.decrypt(key, o.encrypted) == Err(InvalidMAC) ==> r == Err(InvalidIdentity)
    ensures p.decrypt(key, o.encrypted).Err? && p.decrypt(key, o.encrypted).error != InvalidMAC ==>
              r == Err(p.decrypt(key, o.encrypted).error)
    ensures r.Ok? ==> p.decrypt(key, o.encrypted).Ok?
                      && ParseDecrypted(p, p.decrypt(key, o.encrypted).value).Ok?
                      && Verification(p, o, r.value.data, r.value.signature, address) == Pass
    // what is returned is what the plaintext decodes to
    ensures r.Ok? ==> p.decrypt(key, o.encrypted).Ok?
                      && ParseDecrypted(p, p.decrypt(key, o.encrypted).value).Ok?
                      && var d := ParseDecrypted(p, p.decrypt(key, o.encrypted).value).value;
                         r.value == Opening(d.data, d.signature)
    // a decoding error is returned unchanged; once decoded, success is decided by verification
    ensures p.decrypt(key, o.encrypted).Ok? ==>
              var d := ParseDecrypted(p, p.decrypt(key, o.encrypted).value);
              && (d.Err? ==> r == Err(d.error))
              && (d.Ok? ==> (r.Ok? <==> Verification(p, o, d.value.data, d.value.signature, address) == Pass))
              && (d.Ok? && Verification(p, o, d.value.data, d.value.signature, address).Fail? ==>
                    r == Err(Verification(p, o, d.value.data, d.value.signature, address).error))
  {
    match p.decrypt(key, o.encrypted)
    case Err(e) => if e == InvalidMAC then Err(InvalidIdentity) else Err(e)
    case Ok(dec) =>
      match ParseDecrypted(p, dec)
      case Err(e) => Err(e)
      case Ok(d) =>
        match Verification(p, o, d.data, d.signature, address)
        case Fail(e) => Err(e)
        case Pass => Ok(Opening(d.data, d.signature))
  }

  /** NewTaglessBroadcast: open with the address's version-4 broadcast key. */
  function OpenedTagless(p: Primitives, o: BroadcastObject, address: Address): (r: Result<Opening>)
    requires o.TaglessObject?
    ensures p.decrypt(p.v4BroadcastKey(address), o.encrypted) == Err(InvalidMAC) ==> r == Err(InvalidIdentity)
    ensures var dec := p.decrypt(p.v4BroadcastKey(address), o.encrypted);
            dec.Err? && dec.error != InvalidMAC ==> r == Err(dec.error)
    ensures r.Ok? ==> p.decrypt(p.v4BroadcastKey(address), o.encrypted).Ok?
                      && Verification(p, o, r.value.data, r.value.signature, address) == Pass
    // what is returned is what the plaintext decrypted with the V4 key decodes to
    ensures r.Ok? ==> p.decrypt(p.v4BroadcastKey(address), o.encrypted).Ok?
                      && ParseDecrypted(p, p.decrypt(p.v4BroadcastKey(address), o.encrypted).value).Ok?
                      && var d := ParseDecrypted(p, p.decrypt(p.v4BroadcastKey(address), o.encrypted).value).value;
                         r.value == Opening(d.data, d.signature)
    ensures var dec := p.decrypt(p.v4BroadcastKey(address), o.encrypted);
            dec.Ok? && ParseDecrypted(p, dec.value).Ok? ==>
              var d := ParseDecrypted(p, dec.value).value;
              (r.Ok? <==> Verification(p, o, d.data, d.signature, address) == Pass)
  {
    Opened(p, o, p.v4BroadcastKey(address), address)
  }

  /** NewTaggedBroadcast: the tag must be the address's tag before anything is decrypted. */
  function OpenedTagged(p: Primitives, o: BroadcastObject, address: Address): (r: Result<Opening>)
    requires o.TaggedObject?
    ensures o.tag != p.tag(address) ==> r == Err(InvalidIdentity)
    ensures o.tag == p.tag(address) ==> r == Opened(p, o, p.v5BroadcastKey(address), address)
  {
    if o.tag != p.tag(address) then Err(InvalidIdentity)
    else Opened(p, o, p.v5BroadcastKey(address), address)
  }

  /** CreateTaglessBroadcast */
  function CreatedTagless(p: Primitives, expiration: int, data: Bitmessage, private: PrivateIdentity)
    : (r: Result<Sealing>)
    ensures data.destination.Some? ==> r == Err(DestinationPresent)
    ensures r.Ok? ==> r.value.msg.TaglessObject?
  {
    var address := private.address;
    if data.destination.Some? then Err(DestinationPresent)
    else Sealed(p, IncompleteTagless(expiration, address.stream), address, private, data)
  }

  /** CreateTaggedBroadcast */
  function CreatedTagged(p: Primitives, expiration: int, data: Bitmessage, tag: Sha,
                         private: PrivateIdentity): (r: Result<Sealing>)
    ensures data.destination.Some? ==> r == Err(DestinationPresent)
    ensures r.Ok? ==> r.value.msg.TaggedObject? && r.value.msg.tag == tag
  {
    var address := private.address;
    if data.destination.Some? then Err(DestinationPresent)
    else Sealed(p, IncompleteTagged(expiration, address.stream, tag), address, private, data)
  }

  /** A broadcast being created or opened; the pipeline fills its fields in turn. */
  class Broadcast {
    var msg: Option<BroadcastObject>
    var data: Option<Bitmessage>
    var signature: Bytes

    /** Broadcast{} */
    constructor Empty()
      ensures msg == None && data == None && signature == []
    {
      msg, data, signature := None, None, [];
    }

    /** Broadcast{data: data} */
    constructor OfData(d: Bitmessage)
      ensures msg == None && data == Some(d) && signature == []
    {
      msg, data, signature := None, Some(d), [];
    }

    /** encodeForEncryption: writes the payload and the length-prefixed signature to w. */
    method EncodeForEncryption(p: Primitives, w: Buffer)
      requires data.Some?
      modifies w
      ensures w.content == old(w.content) + EncryptionPlaintext(p, data.value, signature)
    {
      w.Write(p.bitmessage.write(data.value));
      w.Write(p.varInt.write(|signature|));
      w.Write(signature);
    }

    /** decodeFromDecrypted: reads data and signature from the decrypted stream r. */
    method DecodeFromDecrypted(p: Primitives, r: Bytes) returns (o: Outcome)
      modifies this
      ensures msg == old(msg)
      ensures ParseDecrypted(p, r).Ok? ==>
        o == Pass && data == Some(ParseDecrypted(p, r).value.data)
        && signature == ParseDecrypted(p, r).value.signature
      ensures ParseDecrypted(p, r).Err? ==> o == Fail(ParseDecrypted(p, r).error)
    {
      data := Some(Bitmessage([], [], 0, Pow(0, 0), None, []));
      var payload := p.bitmessage.read(r);
      if payload.Err? {
        return Fail(payload.error);
      }
      data := Some(payload.value.0);
      var length := p.varInt.read(payload.value.1);
      if length.Err? {
        return Fail(length.error);
      }
      var sigLength := length.value.0;
      var s := length.value.1;
      if sigLength > SignatureMaxLength {
        return Fail(MessageError(Operation.DecodeFromDecrypted));
      }
      if |s| < sigLength {
        // io.ReadFull has copied what there was into the new signature buffer.
        signature := s + seq(sigLength - |s|, _ => 0);
        return Fail(ShortReadError(s));
      }
      signature := s[..sigLength];
      return Pass;
    }

    /** signAndEncrypt: signs the data with private's key, then encrypts to address. */
    method SignAndEncrypt(p: Primitives, i: IncompleteBroadcast, address: Address, private: PrivateIdentity)
      returns (o: Outcome)
      requires data.Some?
      modifies this
      ensures data == old(data)
      ensures Sealed(p, i, address, private, data.value).Ok? ==>
        o == Pass && msg == Some(Sealed(p, i, address, private, data.value).value.msg)
        && signature == Sealed(p, i, address, private, data.value).value.signature
      ensures Sealed(p, i, address, private, data.value).Err? ==>
        o == Fail(Sealed(p, i, address, private, data.value).error)
      // a signing failure leaves the broadcast as it was
      ensures o.Fail? && o.error.SigningFailed? ==> msg == old(msg) && signature == old(signature)
      // an encryption failure leaves the new signature set and no object
      ensures o.Fail? && o.error.EncryptionFailed? ==>
        && msg == None
        && p.sign(private.signingKey, p.sha256(SigningBytes(p, i, data.value))).Ok?
        && signature == p.serialize(p.sign(private.signingKey, p.sha256(SigningBytes(p, i, data.value))).value)
    {
      var b := new Buffer();
      BroadcastEncodeForSigning(p, b, i, data.value);
      assert b.content == SigningBytes(p, i, data.value);
      var hash := p.sha256(b.content);
      b.Reset();
      var sig := p.sign(private.signingKey, hash);
      if sig.Err? {
        return Fail(SigningFailed(sig.error));
      }
      signature := p.serialize(sig.value);
      EncodeForEncryption(p, b);
      assert b.content == EncryptionPlaintext(p, data.value, signature);
      var encrypted := Encrypted(p, i, address, b.content);
      if encrypted.Err? {
        msg := None;
        return Fail(EncryptionFailed(encrypted.error));
      }
      msg := Some(encrypted.value);
      return Pass;
    }
  }

  /** broadcastEncodeForSigning, writing to w. */
  method BroadcastEncodeForSigning(p: Primitives, w: Buffer, i: IncompleteBroadcast, data: Bitmessage)
    modifies w
    ensures w.content == old(w.content) + SigningBytes(p, i, data)
  {
    w.Write(IncompleteEncoding(p, i));
    w.Write(p.bitmessage.write(data));
  }

  /** CreateTaglessBroadcast */
  method CreateTaglessBroadcast(p: Primitives, expiration: int, data: Bitmessage, private: PrivateIdentity)
    returns (r: Result<Broadcast>)
    ensures CreatedTagless(p, expiration, data, private).Ok? ==>
      r.Ok? && fresh(r.value) && r.value.data == Some(data)
      && r.value.msg == Some(CreatedTagless(p, expiration, data, private).value.msg)
      && r.value.signature == CreatedTagless(p, expiration, data, private).value.signature
    ensures CreatedTagless(p, expiration, data, private).Err? ==>
      r == Err(CreatedTagless(p, expiration, data, private).error)
  {
    var address := private.address;
    if data.destination.Some? {
      return Err(DestinationPresent);
    }
    var broadcast := new Broadcast.OfData(data);
    var o := broadcast.SignAndEncrypt(p, IncompleteTagless(expiration, address.stream), address, private);
    if o.Fail? {
      return Err(o.error);
    }
    return Ok(broadcast);
  }

  /** CreateTaggedBroadcast */
  method CreateTaggedBroadcast(p: Primitives, expiration: int, data: Bitmessage, tag: Sha,
                               private: PrivateIdentity)
    returns (r: Result<Broadcast>)
    ensures CreatedTagged(p, expiration, data, tag, private).Ok? ==>
      r.Ok? && fresh(r.value) && r.value.data == Some(data)
      && r.value.msg == Some(CreatedTagged(p, expiration, data, tag, private).value.msg)
      && r.value.signature == CreatedTagged(p, expiration, data, tag, private).value.signature
    ensures CreatedTagged(p, expiration, data, tag, private).Err? ==>
      r == Err(CreatedTagged(p, expiration, data, tag, private).error)
  {
    var address := private.address;
    if data.destination.Some? {
      return Err(DestinationPresent);
    }
    var broadcast := new Broadcast.OfData(data);
    var o := broadcast.SignAndEncrypt(p, IncompleteTagged(expiration, address.stream, tag), address, private);
    if o.Fail? {
      return Err(o.error);
    }
    return Ok(broadcast);
  }

  /** newBroadcast */
  method NewBroadcast(p: Primitives, o: BroadcastObject, key: PrivateKey, address: Address)
    returns (r: Result<Broadcast>)
    ensures Opened(p, o, key, address).Ok? ==>
      r.Ok? && fresh(r.value) && r.value.msg == Some(o)
      && r.value.data == Some(Opened(p, o, key, address).value.data)
      && r.value.signature == Opened(p, o, key, address).value.signature
    ensures Opened(p, o, key, address).Err? ==> r == Err(Opened(p, o, key, address).error)
  {
    var dec := p.decrypt(key, o.encrypted);
    if dec.Err? {
      if dec.error == InvalidMAC {
        return Err(InvalidIdentity);
      }
      return Err(dec.error);
    }
    var broadcast := new Broadcast.Empty();
    var decoded := broadcast.DecodeFromDecrypted(p, dec.value);
    if decoded.Fail? {
      return Err(decoded.error);
    }
    broadcast.msg := Some(o);
    var verified := Verification(p, o, broadcast.data.value, broadcast.signature, address);
    if verified.Fail? {
      return Err(verified.error);
    }
    return Ok(broadcast);
  }

  /** NewTaglessBroadcast */
  method NewTaglessBroadcast(p: Primitives, o: BroadcastObject, address: Address)
    returns (r: Result<Broadcast>)
    requires o.TaglessObject?
    ensures OpenedTagless(p, o, address).Ok? ==>
      r.Ok? && fresh(r.value) && r.value.msg == Some(o)
      && r.value.data == Some(OpenedTagless(p, o, address).value.data)
      && r.value.signature == OpenedTagless(p, o, address).value.signature
    ensures OpenedTagless(p, o, address).Err? ==> r == Err(OpenedTagless(p, o, address).error)
  {
    r := NewBroadcast(p, o, p.v4BroadcastKey(address), address);
  }

  /** NewTaggedBroadcast */
  method NewTaggedBroadcast(p: Primitives, o: BroadcastObject, address: Address)
    returns (r: Result<Broadcast>)
    requires o.TaggedObject?
    ensures OpenedTagged(p, o, address).Ok? ==>
      r.Ok? && fresh(r.value) && r.value.msg == Some(o)
      && r.value.data == Some(OpenedTagged(p, o, address).value.data)
      && r.value.signature == OpenedTagged(p, o, address).value.signature
    ensures OpenedTagged(p, o, address).Err? ==> r == Err(OpenedTagged(p, o, address).error)
  {
    if o.tag != p.tag(address) {
      return Err(InvalidIdentity);
    }
    r := NewBroadcast(p, o, p.v5BroadcastKey(address), address);
  }
}
