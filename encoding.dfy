/**
 * Byte streams, errors, and the opaque codecs that the broadcast cipher and
 * the inventory message delegate to (bmutil's variable-length integers, the
 * Bitmessage payload codec, the inventory-vector codec).
 *
 * A codec is a pair of plain functions. Nothing is known about a codec except
 * the laws stated below, and every lemma that relies on one says so in its
 * `requires`.
 */
module Encoding {

  newtype Byte = b: int | 0 <= b < 256

  type Bytes = seq<Byte>

  /** hash.Sha: a 32-byte hash (an inventory vector's hash, a broadcast tag). */
  type Sha = h: Bytes | |h| == 32 witness seq(32, _ => 0)

  /** The largest value of Go's `uint64`. */
  const MaxUint64: nat := 0xFFFF_FFFF_FFFF_FFFF

  /** bmutil.MaxVarIntSize: the widest encoding of a variable-length integer, in bytes. */
  const MaxVarIntSize: nat := 9

  datatype Option<+T> = None | Some(value: T)

  /** The operation a wire.MessageError names. */
  datatype Operation =
    | MsgInvAddInvVect              // "MsgInv.AddInvVect"
    | MsgInvDecode                  // "MsgInv.Decode"
    | MsgInvEncode                  // "MsgInv.Encode"
    | DecodeFromDecrypted           // "DecodeFromDecrypted"

  /** Every error the modelled code can return or pass on. */
  datatype Error =
    | EOF                           // io.EOF: the reader had no byte left
    | UnexpectedEOF                 // io.ErrUnexpectedEOF: the reader ran dry part-way
    | MessageError(op: Operation)   // wire.NewMessageError(op, ...)
    | Opaque(code: nat)             // an error made by a collaborator that is not modelled
    | InvalidMAC                    // btcec.ErrInvalidMAC from decryption
    | SigningFailed(cause: Error)   // fmt.Errorf("signing failed: %v", cause)
    | EncryptionFailed(cause: Error)// fmt.Errorf("encryption failed: %v", cause)
    | DestinationPresent            // "Broadcasts do not have a destination."
    | InvalidIdentity               // cipher.ErrInvalidIdentity
    | InvalidSignature              // cipher.ErrInvalidSignature
    | ForwardingAttack              // regenerated address differs from the decrypting one

  datatype Result<+T> = Ok(value: T) | Err(error: Error)

  /** The outcome of an operation that returns only a Go `error`. */
  datatype Outcome = Pass | Fail(error: Error)

  /**
   * A wire codec: `write` is what the encoder puts on the stream, `read`
   * decodes a value from the front of a stream and returns what is left.
   */
  datatype Codec<!T> = Codec(write: T -> Bytes, read: Bytes -> Result<(T, Bytes)>)

  /** Decoding what was encoded gives the value back and leaves whatever followed it. */
  ghost predicate RoundTrips<T(!new)>(c: Codec<T>, inDomain: T -> bool)
  {
    forall x, rest :: inDomain(x) ==> c.read(c.write(x) + rest) == Ok((x, rest))
  }

  /** A successful read consumes at least one byte from the front of the stream. */
  ghost predicate ConsumesInput<T>(c: Codec<T>)
  {
    forall s :: c.read(s).Ok? ==> IsProperSuffix(c.read(s).value.1, s)
  }

  predicate IsProperSuffix(rest: Bytes, s: Bytes)
  {
    |rest| < |s| && rest == s[|s| - |rest|..]
  }

  predicate IsUint64(n: nat)
  {
    n <= MaxUint64
  }

  /** The laws assumed of bmutil.WriteVarInt / bmutil.ReadVarInt. */
  ghost predicate VarIntLaws(c: Codec<nat>)
  {
    && RoundTrips(c, IsUint64)
    && ConsumesInput(c)
    && (forall n :: IsUint64(n) ==> |c.write(n)| <= MaxVarIntSize)
    && (forall s :: c.read(s).Ok? ==> IsUint64(c.read(s).value.0))
  }

  /** A bytes.Buffer: writing to it never fails. */
  class Buffer {
    var content: Bytes

    constructor ()
      ensures content == []
    {
      content := [];
    }

    method Write(p: Bytes)
      modifies this
      ensures content == old(content) + p
    {
      content := content + p;
    }

    method Reset()
      modifies this
      ensures content == []
    {
      content := [];
    }
  }
}
