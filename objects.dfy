/**
 * The values the broadcast cipher works on -- the decrypted message, the
 * object header, the wire-form broadcast, keys and addresses -- and the
 * record of opaque operations it calls: the Bitmessage and varint codecs,
 * the header codec, ECDSA, ECIES, SHA-256, SHA-1 and address derivation.
 */
module Objects {
  import opened Encoding

  /** wire.ObjectTypeBroadcast */
  const ObjectTypeBroadcast: nat := 3
  /** obj.TaglessBroadcastVersion */
  const TaglessBroadcastVersion: nat := 4
  /** obj.TaggedBroadcastVersion */
  const TaggedBroadcastVersion: nat := 5
  /** obj.SignatureMaxLength: the longest DER-encoded ECDSA signature. */
  const SignatureMaxLength: nat := 72

  /** Proof-of-work parameters the sender commits to. */
  datatype Pow = Pow(nonceTrialsPerByte: nat, extraBytes: nat)

  /** An address: version, stream number and the RIPEMD-160 hash of the keys. */
  datatype Address = Address(version: nat, stream: nat, ripe: Bytes)

  /**
   * The decrypted message. `destination` is the recipient's ripe hash and is
   * absent on broadcasts; `content` stands for the remaining fields, which
   * the cipher only passes through its codec.
   */
  datatype Bitmessage = Bitmessage(
    signingKey: Bytes,
    encryptionKey: Bytes,
    behavior: nat,
    pow: Pow,
    destination: Option<Bytes>,
    content: Bytes)

  /** wire.ObjectHeader; `expiration` is a time.Time, kept opaque. */
  datatype ObjectHeader = ObjectHeader(
    nonce: nat,
    expiration: int,
    objectType: nat,
    version: nat,
    stream: nat)

  /** obj.Broadcast in its two forms, as sent on the network. */
  datatype BroadcastObject =
    | TaglessObject(header: ObjectHeader, encrypted: Bytes)
    | TaggedObject(header: ObjectHeader, tag: Sha, encrypted: Bytes)

  datatype PublicKey = PublicKey(point: Bytes)
  datatype PrivateKey = PrivateKey(scalar: Bytes)
  datatype Signature = Signature(r: nat, s: nat)

  /** The part of identity.Private the broadcast cipher uses. */
  datatype PrivateIdentity = PrivateIdentity(signingKey: PrivateKey, address: Address)

  /** The operations the cipher calls but that are not part of this model. */
  datatype Primitives = Primitives(
    varInt: Codec<nat>,                     // bmutil.WriteVarInt / ReadVarInt
    bitmessage: Codec<Bitmessage>,          // Bitmessage.encodeBroadcast / decodeBroadcast
    headerForSigning: ObjectHeader -> Bytes,// ObjectHeader.EncodeForSigning
    sha256: Bytes -> Bytes,
    sha1: Bytes -> Bytes,
    sign: (PrivateKey, Bytes) -> Result<Signature>,
    serialize: Signature -> Bytes,          // Signature.Serialize (DER)
    parseSignature: Bytes -> Option<Signature>,
    verify: (Signature, Bytes, PublicKey) -> bool,
    publicKey: PrivateKey -> PublicKey,     // PrivateKey.PubKey
    encrypt: (PublicKey, Bytes) -> Result<Bytes>,
    decrypt: (PrivateKey, Bytes) -> Result<Bytes>,
    toBtcec: Bytes -> Result<PublicKey>,    // wire.PubKey.ToBtcec
    publicAddress: (PublicKey, PublicKey, nat, Pow, nat, nat) -> Result<Address>, // identity.NewPublic(...).Address()
    addressString: Address -> string,       // Address.String
    tag: Address -> Sha,                    // bmutil.Tag
    v4BroadcastKey: Address -> PrivateKey,  // bmutil.V4BroadcastDecryptionKey
    v5BroadcastKey: Address -> PrivateKey)  // bmutil.V5BroadcastDecryptionKey

  /** obj.NewTaglessBroadcast(0, expiration, stream, encrypted) */
  function NewTaglessObject(expiration: int, stream: nat, encrypted: Bytes): BroadcastObject
  {
    TaglessObject(ObjectHeader(0, expiration, ObjectTypeBroadcast, TaglessBroadcastVersion, stream), encrypted)
  }

  /** obj.NewTaggedBroadcast(0, expiration, stream, tag, encrypted) */
  function NewTaggedObject(expiration: int, stream: nat, tag: Sha, encrypted: Bytes): BroadcastObject
  {
    TaggedObject(ObjectHeader(0, expiration, ObjectTypeBroadcast, TaggedBroadcastVersion, stream), tag, encrypted)
  }

  /** obj.Broadcast.EncodeForSigning: the header's signable form, then the tag when there is one. */
  function ObjectEncodeForSigning(p: Primitives, o: BroadcastObject): Bytes
  {
    match o
    case TaglessObject(h, _) => p.headerForSigning(h)
    case TaggedObject(h, tag, _) => p.headerForSigning(h) + tag
  }

  predicate IsBroadcastData(m: Bitmessage)
  {
    m.destination.None?
  }

  /** The laws assumed of the two codecs: round trips (a broadcast carries no destination) and progress. */
  ghost predicate WireLaws(p: Primitives)
  {
    && VarIntLaws(p.varInt)
    && RoundTrips(p.bitmessage, IsBroadcastData)
    && ConsumesInput(p.bitmessage)
  }

  /**
   * The laws assumed of the cryptography: ECIES decryption inverts encryption
   * under the matching key, a signature verifies under the signer's public
   * key, a serialized signature parses back, and a signature that signing
   * produces serializes within SignatureMaxLength.
   */
  ghost predicate CryptoLaws(p: Primitives)
  {
    && (forall k, m :: p.encrypt(p.publicKey(k), m).Ok? ==>
          p.decrypt(k, p.encrypt(p.publicKey(k), m).value) == Ok(m))
    && (forall k, h :: p.sign(k, h).Ok? ==> p.verify(p.sign(k, h).value, h, p.publicKey(k)))
    && (forall s :: p.parseSignature(p.serialize(s)) == Some(s))
    && (forall k, h :: p.sign(k, h).Ok? ==> |p.serialize(p.sign(k, h).value)| <= SignatureMaxLength)
  }
}
