/**
 * The inventory message of the wire protocol (wire/msginv.go): a list of
 * inventory vectors bounded by MaxInvPerMsg, with its codec.
 *
 * The inventory-vector codec (readInvVect / writeInvVect) and the varint
 * codec are opaque; the lemmas at the end state what follows from their laws.
 */
module Inventory {
  import opened Encoding

  /** The most inventory vectors one message may carry. */
  const MaxInvPerMsg: nat := 50000

  /** The encoded size of one inventory vector: a 32-byte hash. */
  const MaxInvVectPayload: nat := 32

  /** The capacity NewMsgInv reserves for the list. */
  const DefaultInvListAlloc: nat := 1000

  /** An inventory vector: the 32-byte hash of an object a peer knows. */
  datatype InvVect = InvVect(hash: Sha)

  /** The laws assumed of writeInvVect / readInvVect. */
  ghost predicate InvVectLaws(c: Codec<InvVect>)
  {
    && RoundTrips(c, AnyInvVect)
    && ConsumesInput(c)
    && (forall v :: |c.write(v)| <= MaxInvVectPayload)
  }

  /** Every vector is in the codec's domain (RoundTrips takes a domain predicate). */
  predicate AnyInvVect(v: InvVect)
  {
    true
  }

  /** MsgInv.MaxPayloadLength: the count prefix plus the largest list. */
  function MaxPayloadLength(): (r: nat)
    ensures r == 1_600_009
  {
    MaxVarIntSize + MaxInvPerMsg * MaxInvVectPayload
  }

  /** NewMsgInvSizeHint's limit on the requested capacity. */
  function ClampSizeHint(sizeHint: nat): (hint: nat)
    ensures hint <= MaxInvPerMsg && hint <= sizeHint
    ensures sizeHint <= MaxInvPerMsg ==> hint == sizeHint
    ensures sizeHint > MaxInvPerMsg ==> hint == MaxInvPerMsg
  {
    if sizeHint > MaxInvPerMsg then MaxInvPerMsg else sizeHint
  }

  /** The vectors written one after another, in list order. */
  function VectorsEncoding(c: Codec<InvVect>, vs: seq<InvVect>): Bytes
  {
    if vs == [] then [] else c.write(vs[0]) + VectorsEncoding(c, vs[1..])
  }

  /** What MsgInv.Encode puts on the stream, or why it refuses. */
  function Encoded(vi: Codec<nat>, c: Codec<InvVect>, vs: seq<InvVect>): (r: Result<Bytes>)
    ensures r.Ok? <==> |vs| <= MaxInvPerMsg
    ensures r.Err? ==> r.error == MessageError(MsgInvEncode)
    ensures r.Ok? ==> |vi.write(|vs|)| <= |r.value| && r.value[..|vi.write(|vs|)|] == vi.write(|vs|)
  {
    if |vs| > MaxInvPerMsg then Err(MessageError(MsgInvEncode))
    else Ok(vi.write(|vs|) + VectorsEncoding(c, vs))
  }

  /** The vectors read so far, and either the rest of the stream or the read error. */
  datatype ReadOutcome = ReadOutcome(vects: seq<InvVect>, result: Result<Bytes>)

  function Prepend(vs: seq<InvVect>, o: ReadOutcome): ReadOutcome
  {
    ReadOutcome(vs + o.vects, o.result)
  }

  /**
   * readInvVect: one vector from the front of s. Naming the codec's read as a
   * function keeps the verification conditions of the read loop small.
   */
  function ReadVect(c: Codec<InvVect>, s: Bytes): Result<(InvVect, Bytes)>
  {
    c.read(s)
  }

  /** Reads up to n vectors from the front of s, stopping at the first failed read. */
  function ReadVectors(c: Codec<InvVect>, s: Bytes, n: nat): (o: ReadOutcome)
    ensures |o.vects| <= n
    ensures o.result.Ok? ==> |o.vects| == n
    decreases n
  {
    if n == 0 then ReadOutcome([], Ok(s))
    else match ReadVect(c, s)
      case Err(e) => ReadOutcome([], Err(e))
      case Ok((v, s')) => Prepend([v], ReadVectors(c, s', n - 1))
  }

  /**
   * What MsgInv.Decode does to the list: Kept when it fails before replacing
   * the list (varint error, count above MaxInvPerMsg); Replaced when it
   * allocated a new list for `count` vectors, holding those read before the
   * loop ended.
   */
  datatype DecodeOutcome =
    | Kept(error: Error)
    | Replaced(count: nat, vects: seq<InvVect>, result: Result<Bytes>)

  function Decoded(vi: Codec<nat>, c: Codec<InvVect>, s: Bytes): (d: DecodeOutcome)
    ensures d.Replaced? ==> d.count <= MaxInvPerMsg && |d.vects| <= d.count
    ensures d.Replaced? && d.result.Ok? ==> |d.vects| == d.count
    ensures vi.read(s).Ok? && vi.read(s).value.0 > MaxInvPerMsg ==> d == Kept(MessageError(MsgInvDecode))
    ensures d.Replaced? ==> vi.read(s).Ok? && d.count == vi.read(s).value.0
  {
    match vi.read(s)
    case Err(e) => Kept(e)
    case Ok((count, s')) =>
      if count > MaxInvPerMsg then Kept(MessageError(MsgInvDecode))
      else
        var o := ReadVectors(c, s', count);
        Replaced(count, o.vects, o.result)
  }

  /** MsgInv: a list of inventory vectors that the methods change in place. */
  class MsgInv {
    var invList: seq<InvVect>
    /** The capacity requested when invList was last allocated (a hint only). */
    var allocHint: nat

    /** NewMsgInv */
    constructor ()
      ensures invList == [] && allocHint == DefaultInvListAlloc
    {
      invList := [];
      allocHint := DefaultInvListAlloc;
    }

    /** NewMsgInvSizeHint */
    constructor WithSizeHint(sizeHint: nat)
      ensures invList == [] && allocHint == ClampSizeHint(sizeHint)
      ensures allocHint <= MaxInvPerMsg
    {
      invList := [];
      allocHint := ClampSizeHint(sizeHint);
    }

    method AddInvVect(iv: InvVect) returns (o: Outcome)
      modifies this
      ensures o.Pass? <==> |old(invList)| + 1 <= MaxInvPerMsg
      ensures o.Fail? ==> o.error == MessageError(MsgInvAddInvVect) && invList == old(invList)
      ensures o.Pass? ==> invList == old(invList) + [iv]
      ensures allocHint == old(allocHint)
    {
      if |invList| + 1 > MaxInvPerMsg {
        return Fail(MessageError(MsgInvAddInvVect));
      }
      invList := invList + [iv];
      return Pass;
    }

    /** Decodes from the stream r; on success returns what is left of it. */
    method Decode(vi: Codec<nat>, c: Codec<InvVect>, r: Bytes) returns (res: Result<Bytes>)
      modifies this
      ensures Decoded(vi, c, r).Kept? ==>
        res == Err(Decoded(vi, c, r).error) && invList == old(invList) && allocHint == old(allocHint)
      ensures Decoded(vi, c, r).Replaced? ==>
        res == Decoded(vi, c, r).result && invList == Decoded(vi, c, r).vects
        && allocHint == Decoded(vi, c, r).count
    {
      var head := vi.read(r);
      if head.Err? {
        return Err(head.error);
      }
      var count := head.value.0;
      if count > MaxInvPerMsg {
        return Err(MessageError(MsgInvDecode));
      }
      invList := [];
      allocHint := count;
      res := ReadInto(c, head.value.1, count);
    }

    /** The loop of MsgInv.Decode: reads up to count vectors and appends each to the list. */
    method ReadInto(c: Codec<InvVect>, r: Bytes, count: nat) returns (res: Result<Bytes>)
      requires |invList| + count <= MaxInvPerMsg
      modifies this
      ensures invList == old(invList) + ReadVectors(c, r, count).vects
      ensures res == ReadVectors(c, r, count).result
      ensures allocHint == old(allocHint)
    {
      ghost var base := invList;
      ghost var target := ReadVectors(c, r, count);
      ghost var got: seq<InvVect> := [];
      var s := r;
      var left := count;
      assert got + target.vects == target.vects;
      while left > 0
        invariant |invList| + left <= MaxInvPerMsg
        invariant invList == base + got && allocHint == old(allocHint)
        invariant target.vects == got + ReadVectors(c, s, left).vects
        invariant target.result == ReadVectors(c, s, left).result
      {
        var next := ReadVect(c, s);
        if next.Err? {
          ReadStops(c, s, left, target, got);
          return Err(next.error);
        }
        var iv := next.value.0;
        ReadAdvances(c, s, left, target, got);
        Associate(base, got, iv);
        s := next.value.1;
        var added := AddInvVect(iv);
        // The error MsgInv.Decode ignores here cannot happen: count <= MaxInvPerMsg.
        assert added.Pass?;
        got := got + [iv];
        left := left - 1;
      }
      assert got + [] == got;
      return Ok(s);
    }

    /** Encodes the list to w; writes nothing when the list is too long. */
    method Encode(vi: Codec<nat>, c: Codec<InvVect>, w: Buffer) returns (o: Outcome)
      modifies w
      ensures Encoded(vi, c, invList).Err? ==>
        o == Fail(Encoded(vi, c, invList).error) && w.content == old(w.content)
      ensures Encoded(vi, c, invList).Ok? ==>
        o == Pass && w.content == old(w.content) + Encoded(vi, c, invList).value
    {
      var count := |invList|;
      if count > MaxInvPerMsg {
        return Fail(MessageError(MsgInvEncode));
      }
      w.Write(vi.write(count));
      WriteVectors(c, invList, w);
      return Pass;
    }
  }

  /** The loop of MsgInv.Encode: writes each vector of the list, in order. */
  method WriteVectors(c: Codec<InvVect>, vs: seq<InvVect>, w: Buffer)
    modifies w
    ensures w.content == old(w.content) + VectorsEncoding(c, vs)
  {
    var i := 0;
    while i < |vs|
      invariant 0 <= i <= |vs|
      invariant w.content == old(w.content) + VectorsEncoding(c, vs[..i])
    {
      VectorsEncodingSnoc(c, vs[..i + 1]);
      assert vs[..i + 1][..i] == vs[..i];
      w.Write(c.write(vs[i]));
      i := i + 1;
    }
    assert vs[..|vs|] == vs;
  }

  /** A failed read ends ReadVectors with what was read before it. */
  lemma ReadStops(c: Codec<InvVect>, s: Bytes, n: nat, target: ReadOutcome, got: seq<InvVect>)
    requires n > 0 && ReadVect(c, s).Err?
    requires target.vects == got + ReadVectors(c, s, n).vects
    requires target.result == ReadVectors(c, s, n).result
    ensures target.vects == got && target.result == Err(ReadVect(c, s).error)
  {
    assert got + [] == got;
  }

  /** A successful read moves one vector from the unread part to the read part. */
  lemma ReadAdvances(c: Codec<InvVect>, s: Bytes, n: nat, target: ReadOutcome, got: seq<InvVect>)
    requires n > 0 && ReadVect(c, s).Ok?
    requires target.vects == got + ReadVectors(c, s, n).vects
    requires target.result == ReadVectors(c, s, n).result
    ensures target.vects == (got + [ReadVect(c, s).value.0]) + ReadVectors(c, ReadVect(c, s).value.1, n - 1).vects
    ensures target.result == ReadVectors(c, ReadVect(c, s).value.1, n - 1).result
  {
    var rest := ReadVectors(c, ReadVect(c, s).value.1, n - 1).vects;
    assert ReadVectors(c, s, n).vects == [ReadVect(c, s).value.0] + rest;
    assert got + ([ReadVect(c, s).value.0] + rest) == (got + [ReadVect(c, s).value.0]) + rest;
  }

  /**
   * Appending to the read part of the list, seen from the whole list (a step
   * of ReadInto's loop, kept out of the loop so its proof stays small).
   */
  lemma Associate(a: seq<InvVect>, b: seq<InvVect>, v: InvVect)
    ensures (a + b) + [v] == a + (b + [v])
  {
  }

  /** Encoding one more vector appends its bytes at the end. */
  lemma {:induction false} VectorsEncodingSnoc(c: Codec<InvVect>, vs: seq<InvVect>)
    requires vs != []
    ensures VectorsEncoding(c, vs) == VectorsEncoding(c, vs[..|vs| - 1]) + c.write(vs[|vs| - 1])
  {
    if |vs| > 1 {
      VectorsEncodingSnoc(c, vs[1..]);
      assert vs[1..][..|vs| - 2] == vs[..|vs| - 1][1..];
    } else {
      assert vs[..0] == [];
    }
  }

  /** Reading back the vectors that were written restores the list and leaves what followed. */
  lemma {:induction false} VectorsRoundTrip(c: Codec<InvVect>, vs: seq<InvVect>, rest: Bytes)
    requires RoundTrips(c, AnyInvVect)
    ensures ReadVectors(c, VectorsEncoding(c, vs) + rest, |vs|) == ReadOutcome(vs, Ok(rest))
  {
    if vs != [] {
      var tail := VectorsEncoding(c, vs[1..]) + rest;
      assert VectorsEncoding(c, vs) + rest == c.write(vs[0]) + tail;
      assert AnyInvVect(vs[0]);
      assert c.read(c.write(vs[0]) + tail) == Ok((vs[0], tail));
      VectorsRoundTrip(c, vs[1..], rest);
      assert ReadVectors(c, c.write(vs[0]) + tail, |vs|)
          == Prepend([vs[0]], ReadVectors(c, tail, |vs[1..]|));
      assert [vs[0]] + vs[1..] == vs;
    } else {
      assert VectorsEncoding(c, vs) + rest == rest;
    }
  }

  /** Decode(Encode(m)) gives back the same list, whatever follows it on the stream. */
  lemma EncodeDecodeRoundTrip(vi: Codec<nat>, c: Codec<InvVect>, vs: seq<InvVect>, rest: Bytes)
    requires VarIntLaws(vi) && RoundTrips(c, AnyInvVect)
    requires Encoded(vi, c, vs).Ok?
    ensures Decoded(vi, c, Encoded(vi, c, vs).value + rest) == Replaced(|vs|, vs, Ok(rest))
  {
    var body := VectorsEncoding(c, vs) + rest;
    assert Encoded(vi, c, vs).value + rest == vi.write(|vs|) + body;
    assert IsUint64(|vs|);
    assert vi.read(vi.write(|vs|) + body) == Ok((|vs|, body));
    VectorsRoundTrip(c, vs, rest);
  }

  /** Every vector read takes at least one byte, so n vectors need at least n bytes. */
  lemma {:induction false} ReadVectorsConsumes(c: Codec<InvVect>, s: Bytes, n: nat)
    requires ConsumesInput(c)
    ensures ReadVectors(c, s, n).result.Ok? ==>
      |ReadVectors(c, s, n).result.value| + n <= |s|
  {
    if n > 0 && c.read(s).Ok? {
      var s' := c.read(s).value.1;
      assert IsProperSuffix(s', s);
      ReadVectorsConsumes(c, s', n - 1);
    }
  }

  /** A successful Decode has read at least one byte per vector after the count. */
  lemma DecodeNeedsInput(vi: Codec<nat>, c: Codec<InvVect>, s: Bytes)
    requires VarIntLaws(vi) && ConsumesInput(c)
    ensures Decoded(vi, c, s).Replaced? && Decoded(vi, c, s).result.Ok? ==>
      Decoded(vi, c, s).count < |s|
  {
    if vi.read(s).Ok? {
      var s' := vi.read(s).value.1;
      assert IsProperSuffix(s', s);
      ReadVectorsConsumes(c, s', vi.read(s).value.0);
    }
  }

  /** A count above MaxInvPerMsg is refused before any vector is read, whatever follows. */
  lemma DecodeRejectsOversizedCount(vi: Codec<nat>, c: Codec<InvVect>, count: nat, tail: Bytes)
    requires VarIntLaws(vi)
    requires MaxInvPerMsg < count <= MaxUint64
    ensures Decoded(vi, c, vi.write(count) + tail) == Kept(MessageError(MsgInvDecode))
  {
    assert IsUint64(count);
    assert vi.read(vi.write(count) + tail) == Ok((count, tail));
  }

  /** The vectors of a list take at most MaxInvVectPayload bytes each. */
  lemma {:induction false} VectorsEncodingLength(c: Codec<InvVect>, vs: seq<InvVect>)
    requires InvVectLaws(c)
    ensures |VectorsEncoding(c, vs)| <= |vs| * MaxInvVectPayload
  {
    if vs != [] {
      VectorsEncodingLength(c, vs[1..]);
    }
  }

  /** What Encode writes never exceeds MaxPayloadLength. */
  lemma EncodingWithinMaxPayload(vi: Codec<nat>, c: Codec<InvVect>, vs: seq<InvVect>)
    requires VarIntLaws(vi) && InvVectLaws(c)
    ensures Encoded(vi, c, vs).Ok? ==> |Encoded(vi, c, vs).value| <= MaxPayloadLength()
  {
    if |vs| <= MaxInvPerMsg {
      assert IsUint64(|vs|);
      VectorsEncodingLength(c, vs);
      assert |vs| * MaxInvVectPayload <= MaxInvPerMsg * MaxInvVectPayload;
    }
  }
}
