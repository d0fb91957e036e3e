# Bitmessage broadcast cipher and inventory message, in Dafny

This project models two pieces of the Go library bmutil:

- **The broadcast cipher** (`cipher/broadcast.go`). It turns a `Bitmessage` into an
  encrypted, signed broadcast object: a tagless version-4 object or a tagged version-5
  object. It also opens a received object again: it decrypts it, decodes it, checks that
  the embedded keys regenerate the decrypting address (the anti-spoofing check), and
  verifies the signature over SHA-256, falling back to SHA-1.
- **The inventory message** (`wire/msginv.go`). `MsgInv` holds at most `MaxInvPerMsg`
  (50000) inventory vectors. It has an appending operation with a capacity check and a
  codec: a varint count followed by the vectors.

## How the model is built

- Module `Encoding` (`encoding.dfy`) holds the common pieces. Bytes are a
  `newtype Byte`. A Go error is a value of `Error`, and a Go "value or error" result
  is `Result<T>`. An operation that returns only an error gives an `Outcome`.
  `Buffer` models `bytes.Buffer`, whose writes never fail.
- Some collaborators are not part of this model:
  - the varint codec, the Bitmessage broadcast codec, the object-header codec and the
    inventory-vector codec;
  - ECDSA, ECIES, SHA-256 and SHA-1;
  - address derivation, `Address.String`, `Tag` and the V4/V5 broadcast keys.

  Each of them is a function-typed field of a record. Codecs are in `Encoding.Codec`;
  the rest are in `Objects.Primitives`. Every operation takes this record as a
  parameter.
- What the model assumes of these collaborators is written as ghost predicates:
  - `RoundTrips`: decoding what was encoded returns the value and the remaining bytes.
  - `ConsumesInput`: every successful read consumes at least one byte.
  - Length bounds on the encoders.
  - `CryptoLaws`: decryption inverts encryption under the matching key, a signature
    verifies under the signer's public key, a serialized signature parses back, and a
    signature that signing produces serializes to at most `SignatureMaxLength` bytes.

  A lemma that relies on a law says so in its `requires`. Module `LawWitnesses`
  (`witnesses.dfy`) gives concrete stand-ins for every collaborator (a fixed-width varint,
  a 32-byte vector codec, a length-prefixed message codec, encryption that prepends the
  key, a constant signer) and proves that they satisfy all the laws at once, and
  the hypotheses of the broadcast round-trip lemmas too. So the lemmas that assume the
  laws are not vacuous.
- A hash (`hash.Sha`: an inventory vector's hash, a broadcast tag) is the subset type
  `Encoding.Sha` of 32-byte sequences.
- A stream being read is a `Bytes` parameter. A stream being written is a `Buffer`.
- The pure parts of the source are functions (`incomplete*.Encode`, `verify`,
  `decodeFromDecrypted`'s layout, the checks in `Create*`/`New*`). The parts that update
  state step by step are methods:
  - class `BroadcastCipher.Broadcast`, whose fields are `msg`, `data` and `signature`;
  - class `Inventory.MsgInv`, whose fields are `invList` and `allocHint`, the capacity hint;
  - the `Create*`/`New*` entry points, which allocate a `Broadcast`.

  Each method is proved to produce the state that its specification function describes.

Constants that the modelled files use but do not define:

- `SignatureMaxLength = 72`: the longest DER-encoded secp256k1 signature.
- `MaxVarIntSize = 9`.
- `maxInvVectPayload = 32`: one hash.
- `ObjectTypeBroadcast = 3`, and broadcast versions 4 (tagless) and 5 (tagged).

The files defining them (the `obj` package, `bmutil`'s varint file, `wire/invvect.go`)
are not part of this model. The inventory bound 50000 is the one stated in the comment
at `wire/msginv.go:30`. The `obj` package is also where the object form's
`EncodeForSigning` lives. The model takes that function to be the header's signable form
followed by the tag, for tagged objects. This is the same layout the `incomplete*`
wrappers write in `broadcast.go`.

Three behaviours of the code that are easy to miss:

- When the regenerated address differs from the decrypting one, `verify` returns its
  own formatted error ("possible surreptitious forwarding attack"), not
  `ErrInvalidIdentity`. The model calls this error `ForwardingAttack`.
- Signing and encryption errors in `signAndEncrypt` are wrapped, as "signing failed: …"
  and "encryption failed: …". They are not returned unchanged. The model uses
  `SigningFailed(cause)` and `EncryptionFailed(cause)`.
- A broadcast with a destination comes back from `Create*` as an ordinary error value,
  `DestinationPresent`. It does not panic.

## Model

| member | source | states |
|---|---|---|
| `BroadcastCipher.IncompleteEncoding` | cipher/broadcast.go:35-80 | the bytes an incomplete broadcast writes for signing are exactly what the finished object (built with nonce 0, object type broadcast, the form's version and, for version 5, the tag) presents for signing, whatever its ciphertext |
| `BroadcastProofs.SigningBytesLayout` | cipher/broadcast.go:35-104 | the signed bytes are the header's signable form, then the tag (tagged form only), then the Bitmessage payload, at exactly those offsets |
| `BroadcastCipher.BroadcastEncodeForSigning` | cipher/broadcast.go:93-104 | appends the signed bytes to the buffer |
| `BroadcastCipher.Encrypted` | cipher/broadcast.go:35-90 | encrypts to the public key of the V4 or V5 broadcast key of the address. On success the object's header is the incomplete form's header, the object has the matching form (with the same tag when tagged) and carries the ciphertext, and its signable form is the incomplete form's encoding. An encryption error is passed on |
| `BroadcastCipher.ObjectSigningBytes` | cipher/broadcast.go:124-139 | for an object encrypted from any incomplete broadcast, the bytes the receiver hashes are exactly the bytes that broadcast's sender signed |
| `BroadcastProofs.SignerAndVerifierAgree` | cipher/broadcast.go:124-139 | the bytes that the receiver recomputes from the sealed object and the data are exactly the bytes that the sender signed |
| `BroadcastCipher.Broadcast.EncodeForEncryption` | cipher/broadcast.go:142-156 | appends the payload encoding, then the varint of the signature length, then the signature, in that order |
| `BroadcastCipher.ParseDecrypted` | cipher/broadcast.go:159-179 | a decoded signature is never longer than SignatureMaxLength, and the decoded message is what the Bitmessage decoder read |
| `BroadcastProofs.DecryptedRoundTrip` | cipher/broadcast.go:142-179 | for a broadcast message and a signature of at most SignatureMaxLength bytes, decoding the encryption plaintext (plus any trailing bytes) restores the message, the signature and the trailing bytes |
| `BroadcastProofs.OversizedSignatureRejected` | cipher/broadcast.go:166-175 | a declared length above SignatureMaxLength fails with the DecodeFromDecrypted message error, whatever bytes follow |
| `BroadcastProofs.ShortSignatureRejected` | cipher/broadcast.go:176-178 | if fewer bytes remain than the declared length, decoding fails with EOF when none remain and with UnexpectedEOF otherwise |
| `BroadcastProofs.TruncatedPlaintextRejected` | cipher/broadcast.go:142-178 | cutting the encryption plaintext anywhere inside the signature makes decoding fail |
| `BroadcastCipher.Broadcast.DecodeFromDecrypted` | cipher/broadcast.go:159-179 | sets data and signature to what ParseDecrypted yields and passes, or fails with ParseDecrypted's error; msg is unchanged |
| `BroadcastCipher.Sealed` | cipher/broadcast.go:181-218 | a sealed object is the encryption of payload plus the serialized signature, and that signature is the signing key's signature over SHA-256 of the signed bytes. A signing error comes back as SigningFailed of that error, with nothing encrypted. After a good signature, an encryption error comes back as EncryptionFailed of that error, and otherwise sealing succeeds |
| `BroadcastCipher.Broadcast.SignAndEncrypt` | cipher/broadcast.go:181-218 | after writing, hashing, resetting and rewriting one buffer, msg and signature hold the sealing and data is unchanged. Otherwise the method returns the sealing's error: after a signing error msg and signature are as before, and after an encryption error the new signature is kept and msg is cleared |
| `BroadcastCipher.Verification` | cipher/broadcast.go:220-277 | verification passes only if both embedded keys parse, the address they regenerate has the decrypting address's string (the anti-spoofing check), and the signature parses and verifies under the embedded signing key over SHA-256 or SHA-1 of the signed bytes |
| `BroadcastProofs.AddressCheckedBeforeSignature` | cipher/broadcast.go:226-252 | if the embedded keys regenerate an address whose string differs from the decrypting address, the result is ForwardingAttack. This holds for every signature and every signature-verification function |
| `BroadcastProofs.VerificationDecidedBySignature` | cipher/broadcast.go:254-276 | once the address check passes, verification passes if and only if the signature parses and verifies over SHA-256 or over SHA-1 of the signed bytes. In every other case it is InvalidSignature |
| `BroadcastProofs.LegacyHashAccepted` | cipher/broadcast.go:262-275 | a signature that fails under SHA-256 but verifies under SHA-1 is accepted |
| `BroadcastCipher.CreatedTagless` | cipher/broadcast.go:281-300 | a message with a destination is refused with DestinationPresent. A created object is tagless |
| `BroadcastCipher.CreatedTagged` | cipher/broadcast.go:304-323 | a message with a destination is refused with DestinationPresent. A created object is tagged with the given tag |
| `BroadcastProofs.CreateRejectsDestinationFirst` | cipher/broadcast.go:286-311 | with a destination, both creation functions give the same error under any two sets of primitives, so nothing is signed or encrypted |
| `BroadcastCipher.Broadcast.OfData` | cipher/broadcast.go:290-292 | a new broadcast holds only the data |
| `BroadcastCipher.CreateTaglessBroadcast` | cipher/broadcast.go:281-300 | returns a fresh broadcast whose fields are CreatedTagless's result, or CreatedTagless's error |
| `BroadcastCipher.CreateTaggedBroadcast` | cipher/broadcast.go:304-323 | returns a fresh broadcast whose fields are CreatedTagged's result, or CreatedTagged's error |
| `BroadcastCipher.Opened` | cipher/broadcast.go:325-351 | an InvalidMAC decryption error becomes InvalidIdentity, and every other decryption error is returned unchanged. A decoding error is returned unchanged. Once the plaintext decodes, opening succeeds if and only if verification passes, and a verification error is returned unchanged. What it returns is exactly the decoded message and signature |
| `BroadcastCipher.Broadcast.Empty` | cipher/broadcast.go:334 | a new broadcast has no object, no data and an empty signature |
| `BroadcastCipher.NewBroadcast` | cipher/broadcast.go:325-351 | returns a fresh broadcast holding the received object and the opened data and signature, or Opened's error |
| `BroadcastCipher.OpenedTagless` | cipher/broadcast.go:355-362 | opening uses the address's V4 broadcast key. An InvalidMAC under that key becomes InvalidIdentity, and every other decryption error is returned unchanged. Once the plaintext decodes, success is decided by verification, and what is returned is exactly the decoded message and signature |
| `BroadcastCipher.NewTaglessBroadcast` | cipher/broadcast.go:355-362 | matches opening with the address's V4 broadcast key |
| `BroadcastCipher.OpenedTagged` | cipher/broadcast.go:366-377 | a tag different from the address's tag gives InvalidIdentity. An equal tag opens with the V5 broadcast key |
| `BroadcastProofs.TagCheckedBeforeDecryption` | cipher/broadcast.go:366-371 | a tag mismatch gives InvalidIdentity whatever decryption function is used |
| `BroadcastCipher.NewTaggedBroadcast` | cipher/broadcast.go:366-377 | matches OpenedTagged: the tag check comes first, then opening with the V5 key |
| `BroadcastProofs.SealedOpens` | cipher/broadcast.go:181-351 | under the wire and crypto laws, and with keys that regenerate the sender's address, opening a sealed object with the same broadcast key and address gives back the message and the signature |
| `BroadcastProofs.TaglessRoundTrip` | cipher/broadcast.go:281-362 | a tagless broadcast created by an identity opens under that identity's address, giving back the message and the signature |
| `BroadcastProofs.TaggedRoundTrip` | cipher/broadcast.go:304-377 | a tagged broadcast created with the address's tag opens under that address, giving back the message and the signature |
| `Inventory.MsgInv.AddInvVect` | wire/msginv.go:39-48 | when the list is full (length + 1 > MaxInvPerMsg) it fails and leaves the list unchanged. Otherwise it appends the vector at the end |
| `Inventory.ReadVectors` | wire/msginv.go:64-74 | reads at most n vectors, and exactly n when every read succeeds |
| `Inventory.Decoded` | wire/msginv.go:52-75 | a count above MaxInvPerMsg is refused and the list is left in place. A replaced list has at most count vectors and at most MaxInvPerMsg, and exactly count after success |
| `Inventory.MsgInv.Decode` | wire/msginv.go:52-75 | the list and result are as Decoded says, including the partial list after a failed read |
| `Inventory.MsgInv.ReadInto` | wire/msginv.go:65-72 | the read loop appends to the list exactly the vectors ReadVectors reads and returns its result. The AddInvVect error that the loop ignores is proved unreachable while the list stays within MaxInvPerMsg |
| `Inventory.DecodeRejectsOversizedCount` | wire/msginv.go:58-62 | a count above MaxInvPerMsg is refused before any vector is read, whatever follows it |
| `Inventory.ReadVectorsConsumes` | wire/msginv.go:65-72 | n successful vector reads consume at least n bytes |
| `Inventory.DecodeNeedsInput` | wire/msginv.go:52-74 | a successful Decode of count vectors needs more than count bytes of input |
| `Inventory.VectorsEncodingSnoc` | wire/msginv.go:92-97 | writing one more vector appends exactly its encoding |
| `Inventory.WriteVectors` | wire/msginv.go:92-97 | the write loop appends each vector's encoding in list order, which is VectorsEncoding |
| `Inventory.Encoded` | wire/msginv.go:79-100 | encoding succeeds if and only if the list has at most MaxInvPerMsg vectors, refuses otherwise with the MsgInv.Encode message error, and on success starts with the varint count |
| `Inventory.MsgInv.Encode` | wire/msginv.go:79-100 | a list above MaxInvPerMsg fails and writes nothing. Otherwise it writes the varint count, then each vector in list order |
| `Inventory.VectorsRoundTrip` | wire/msginv.go:64-97 | reading back the written vectors restores the list and leaves the following bytes |
| `Inventory.EncodeDecodeRoundTrip` | wire/msginv.go:52-100 | Decode(Encode(m)) replaces the list with m's list, and the rest of the stream is untouched |
| `Inventory.VectorsEncodingLength` | wire/msginv.go:92-97 | the encoded vectors take at most maxInvVectPayload bytes each |
| `Inventory.MaxPayloadLength` | wire/msginv.go:108-113 | the largest payload is 1600009 bytes: a 9-byte varint and 50000 vectors of 32 bytes |
| `Inventory.EncodingWithinMaxPayload` | wire/msginv.go:108-113 | whatever Encode writes is at most MaxPayloadLength = MaxVarIntSize + MaxInvPerMsg * maxInvVectPayload bytes |
| `Inventory.MsgInv.constructor` | wire/msginv.go:117-121 | NewMsgInv gives an empty list with the default capacity hint of 1000 |
| `Inventory.ClampSizeHint` | wire/msginv.go:133-137 | the hint is limited to MaxInvPerMsg. It is never raised, and it is kept when it is within the bound |
| `Inventory.MsgInv.WithSizeHint` | wire/msginv.go:133-142 | NewMsgInvSizeHint gives an empty list whose capacity hint is the clamped hint |

## Left out

- Writer failures. Every write goes to an unbounded buffer, and `bytes.Buffer` never fails. So the model does not cover errors from a fixed-capacity writer, or the partial output that such a writer leaves behind.
- The internals of the collaborators: the varint codec, the Bitmessage broadcast codec, the object-header codec, the inventory-vector codec, ECIES, ECDSA, the hash functions and address derivation. Each is an opaque function, and only the laws listed above are assumed.
- The timing guarantee of `subtle.ConstantTimeCompare`. The tag check is plain byte-sequence equality.
- `time.Time`. An expiration is an opaque integer.
- The `panic("msg is nil")` guards in `encodeForSigning` and `verify`. The model's `Verification` takes the object as a value, so it can never be missing.
- Pointers. `InvList` holds `*InvVect`, and a `Broadcast` shares its `*Bitmessage` with the caller. Both are modelled as values, so aliasing is not captured.
- The accessors `Broadcast.Object` and `Broadcast.Bitmessage`, and `MsgInv.Command`. They only return a field or a constant.
- Slice capacity. `allocHint` records the capacity requested at allocation; growth by `append` is not modelled.
- BroadcastCipher.Broadcast.DecodeFromDecrypted: after a failure, the contract says nothing about `data` and `signature`. The body reproduces what the source leaves behind: a zero-valued `data` before the payload is decoded, and a zero-padded, partly filled signature after a short read. The Bitmessage decoder is opaque, so the partial state of a message whose payload decoding failed is not modelled.
- The rest of `identity.Private` (the decryption key, proof-of-work parameters, key generation). The cipher uses only the signing key and the address.
