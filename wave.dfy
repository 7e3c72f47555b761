/**
 * The RIFF/WAVE payload locator inside `test_audio`: it reads the 12-byte
 * outer header and, for a WAVE buffer, walks 8-byte subchunk headers until it
 * meets "data", accumulating the byte offset at which the audio is sliced.
 *
 * The reader is a position `pos` into the buffer. Subchunk sizes are decoded
 * as signed little-endian 32-bit integers, as the source's struct field is.
 */
module Wave {

  newtype byte = b: int | 0 <= b < 256

  /** Size of the outer RIFF header: identifier, size, format tag. */
  const HeaderSize: int := 12
  /** Size of a subchunk header: identifier and size. */
  const SubChunkHeaderSize: int := 8

  /** A four-byte chunk identifier or format tag. */
  datatype FourCC = FourCC(b0: byte, b1: byte, b2: byte, b3: byte)

  const DATA: FourCC := FourCC(0x64, 0x61, 0x74, 0x61)  // "data"
  const TXTS: FourCC := FourCC(0x74, 0x78, 0x74, 0x73)  // "txts"
  const WAVE: FourCC := FourCC(0x57, 0x41, 0x56, 0x45)  // "WAVE"
  /** What a header the reader could not fill holds: its zero value. */
  const ZERO_ID: FourCC := FourCC(0, 0, 0, 0)

  /** How the walk ends. */
  datatype WalkResult =
    | Stopped(offset: int)   // the loop ended; audio starts at `offset`
    | NegativeTxts           // a "txts" chunk declared a negative size: allocating its buffer panics
    | Unbounded              // still walking after |data| rounds (see NegativeSizeRepeats)

  function Min(a: int, b: int): int { if a <= b then a else b }

  function FourCCAt(data: seq<byte>, p: nat): FourCC
    requires p + 4 <= |data|
  {
    FourCC(data[p], data[p + 1], data[p + 2], data[p + 3])
  }

  function FourCCBytes(id: FourCC): (b: seq<byte>)
    ensures |b| == 4
  {
    [id.b0, id.b1, id.b2, id.b3]
  }

  /** Signed (two's complement) little-endian value of four bytes: Go's int32. */
  function Int32LE(b0: byte, b1: byte, b2: byte, b3: byte): (k: int)
    ensures -0x8000_0000 <= k < 0x8000_0000
    ensures k < 0 <==> b3 >= 0x80
  {
    var u := b0 as int + 0x100 * b1 as int + 0x1_0000 * b2 as int + 0x100_0000 * b3 as int;
    if u >= 0x8000_0000 then u - 0x1_0000_0000 else u
  }

  function Int32At(data: seq<byte>, p: nat): int
    requires p + 4 <= |data|
  {
    Int32LE(data[p], data[p + 1], data[p + 2], data[p + 3])
  }

  /** Four little-endian bytes of a non-negative int32. */
  function Int32Bytes(k: int): (b: seq<byte>)
    requires 0 <= k < 0x8000_0000
    ensures |b| == 4
  {
    [(k % 0x100) as byte, (k / 0x100 % 0x100) as byte,
     (k / 0x1_0000 % 0x100) as byte, (k / 0x100_0000) as byte]
  }

  lemma Int32RoundTrip(k: int)
    requires 0 <= k < 0x8000_0000
    ensures var b := Int32Bytes(k); Int32LE(b[0], b[1], b[2], b[3]) == k
  {
    var q1, q2, q3 := k / 0x100, k / 0x1_0000, k / 0x100_0000;
    assert k == k % 0x100 + 0x100 * q1;
    assert q1 == q1 % 0x100 + 0x100 * (q1 / 0x100);
    assert q1 / 0x100 == q2;
    assert q2 == q2 % 0x100 + 0x100 * (q2 / 0x100);
    assert q2 / 0x100 == q3;
  }

  /** True when the outer header holds the "WAVE" format tag. */
  predicate IsWave(data: seq<byte>)
  {
    |data| >= HeaderSize && FourCCAt(data, 8) == WAVE
  }

  /**
   * Where the reader stands after passing the body of a chunk with the given
   * identifier and declared size, starting at `pos`. A "txts" body is read
   * into a buffer, so the reader stops at the end of the data; any other body
   * is skipped by a relative seek, which may pass the end and which is
   * refused (the position is kept) when it would go before the start.
   */
  function SkipBody(data: seq<byte>, pos: nat, id: FourCC, size: int): nat
    requires id == TXTS ==> size >= 0
  {
    if id == TXTS then (if pos < |data| then Min(pos + size, |data|) else pos)
    else if pos + size >= 0 then pos + size
    else pos
  }

  /**
   * The walk from the head of the loop: `id` and `size` are the current
   * subchunk's identifier and size, `pos` the reader position, `offset` the
   * accumulated offset; `fuel` bounds the number of rounds.
   */
  function WalkFrom(data: seq<byte>, pos: nat, offset: int, id: FourCC, size: int, fuel: nat): WalkResult
    decreases fuel, 0
  {
    if id == DATA then Stopped(offset)
    else if fuel == 0 then Unbounded
    else if id == TXTS && size < 0 then NegativeTxts
    else ReadNext(data, SkipBody(data, pos, id, size), offset + size, fuel - 1)
  }

  /**
   * The second half of a round: try to read a subchunk header at `pos`; when
   * the buffer is exhausted the loop breaks with the offset accumulated so
   * far, otherwise the header's 8 bytes are added and the next round starts.
   */
  function ReadNext(data: seq<byte>, pos: nat, offset: int, fuel: nat): WalkResult
    decreases fuel, 1
  {
    if pos + SubChunkHeaderSize <= |data| then
      WalkFrom(data, pos + 8, offset + 8, FourCCAt(data, pos), Int32At(data, pos + 4), fuel)
    else
      Stopped(offset)
  }

  /**
   * What the locator computes for a whole buffer. A buffer shorter than the
   * outer header leaves the header zeroed, so it is never WAVE; a non-WAVE
   * buffer keeps offset 12. A WAVE buffer starts the walk with the outer
   * identifier as the current identifier and a zero size.
   */
  function PayloadWalk(data: seq<byte>): WalkResult
  {
    if !IsWave(data) then Stopped(HeaderSize)
    else WalkFrom(data, HeaderSize, HeaderSize, FourCCAt(data, 0), 0, |data|)
  }

  /** The chunk walk as the source runs it: a loop over a reader position. */
  method LocatePayload(data: seq<byte>) returns (r: WalkResult)
    ensures r == PayloadWalk(data)
  {
    var headerId := ZERO_ID;
    var format := ZERO_ID;
    var pos: nat := |data|;
    if |data| >= HeaderSize {
      headerId, format, pos := FourCCAt(data, 0), FourCCAt(data, 8), HeaderSize;
    }
    var offset := HeaderSize;
    if format == WAVE {
      var chunkSize := 0;
      var rounds: nat := 0;
      while headerId != DATA
        invariant rounds <= |data|
        invariant WalkFrom(data, pos, offset, headerId, chunkSize, |data| - rounds) == PayloadWalk(data)
        decreases |data| - rounds
      {
        if rounds == |data| {
          return Unbounded;
        }
        rounds := rounds + 1;
        offset := offset + chunkSize;
        if headerId == TXTS {
          if chunkSize < 0 {
            return NegativeTxts;
          }
          if pos < |data| {
            pos := Min(pos + chunkSize, |data|);
          }
        } else if pos + chunkSize >= 0 {
          pos := pos + chunkSize;
        }
        if pos + SubChunkHeaderSize > |data| {
          return Stopped(offset);
        }
        headerId := FourCCAt(data, pos);
        chunkSize := Int32At(data, pos + 4);
        pos := pos + SubChunkHeaderSize;
        offset := offset + SubChunkHeaderSize;
      }
    }
    r := Stopped(offset);
  }

  // ---------------------------------------------------------------------
  // A reference layout: a WAVE buffer written as a list of subchunks.

  /** A subchunk whose declared size is the length of its body. */
  datatype SubChunk = SubChunk(id: FourCC, body: seq<byte>)

  /** Subchunks that the walk skips: not "data", sizes that fit an int32. */
  predicate Skippable(cs: seq<SubChunk>)
  {
    forall i :: 0 <= i < |cs| ==> cs[i].id != DATA && |cs[i].body| < 0x8000_0000
  }

  function EncodeSubChunk(c: SubChunk): (b: seq<byte>)
    requires |c.body| < 0x8000_0000
  {
    FourCCBytes(c.id) + Int32Bytes(|c.body|) + c.body
  }

  function EncodeSubChunks(cs: seq<SubChunk>): seq<byte>
    requires Skippable(cs)
  {
    if cs == [] then [] else EncodeSubChunk(cs[0]) + EncodeSubChunks(cs[1..])
  }

  /** The bytes the walk skips over for these subchunks: Σ (8 + Ki). */
  function SkippedLength(cs: seq<SubChunk>): nat
  {
    if cs == [] then 0 else SubChunkHeaderSize + |cs[0].body| + SkippedLength(cs[1..])
  }

  lemma SkippableTail(cs: seq<SubChunk>)
    requires Skippable(cs) && cs != []
    ensures Skippable(cs[1..])
  {
    forall i | 0 <= i < |cs[1..]| ensures cs[1..][i].id != DATA && |cs[1..][i].body| < 0x8000_0000 {
      assert cs[1..][i] == cs[i + 1];
    }
  }

  lemma {:induction false} EncodedLength(cs: seq<SubChunk>)
    requires Skippable(cs)
    ensures |EncodeSubChunks(cs)| == SkippedLength(cs) >= 8 * |cs|
  {
    if cs != [] {
      SkippableTail(cs);
      EncodedLength(cs[1..]);
    }
  }

  /**
   * The subchunks `cs` lie one after the other from `p`: each header holds
   * the identifier and the length of the body that follows it.
   */
  predicate LaidOut(data: seq<byte>, p: nat, cs: seq<SubChunk>)
    decreases |cs|
  {
    cs == [] ||
    (&& p + 8 + |cs[0].body| <= |data|
     && FourCCAt(data, p) == cs[0].id
     && Int32At(data, p + 4) == |cs[0].body|
     && LaidOut(data, p + 8 + |cs[0].body|, cs[1..]))
  }

  /** The fields the walk reads from an encoded subchunk at `p`. */
  lemma ChunkAt(data: seq<byte>, p: nat, c: SubChunk, tail: seq<byte>)
    requires |c.body| < 0x8000_0000 && p <= |data| && data[p..] == EncodeSubChunk(c) + tail
    ensures p + 8 + |c.body| <= |data|
    ensures FourCCAt(data, p) == c.id
    ensures Int32At(data, p + 4) == |c.body|
    ensures data[p + 8 + |c.body|..] == tail
  {
    var k := |c.body|;
    var e := Int32Bytes(k);
    assert forall i :: 0 <= i < 4 ==> data[p + i] == data[p..][i] == FourCCBytes(c.id)[i];
    assert forall i :: 0 <= i < 4 ==> data[p + 4 + i] == data[p..][4 + i] == e[i];
    Int32RoundTrip(k);
    assert data[p..][8 + k..] == tail;
    assert data[p + 8 + k..] == data[p..][8 + k..];
  }

  lemma {:induction false} EncodedIsLaidOut(data: seq<byte>, p: nat, cs: seq<SubChunk>, rest: seq<byte>)
    requires Skippable(cs)
    requires p <= |data| && data[p..] == EncodeSubChunks(cs) + rest
    ensures LaidOut(data, p, cs)
    ensures p + SkippedLength(cs) <= |data| && data[p + SkippedLength(cs)..] == rest
    decreases |cs|
  {
    if cs != [] {
      var c := cs[0];
      var n := 8 + |c.body|;
      SkippableTail(cs);
      var tail := EncodeSubChunks(cs[1..]) + rest;
      assert p + n <= |data| && FourCCAt(data, p) == c.id && Int32At(data, p + 4) == |c.body|
        && data[p + n..] == tail by {
        assert data[p..] == EncodeSubChunk(c) + tail;
        ChunkAt(data, p, c, tail);
      }
      EncodedIsLaidOut(data, p + n, cs[1..], rest);
    }
  }

  /**
   * One round over a skippable subchunk whose body fits in the buffer: the
   * reader and the offset both move by the header and the declared size.
   */
  lemma ReadOneChunk(data: seq<byte>, p: nat, offset: int, fuel: nat)
    requires p + SubChunkHeaderSize <= |data| && fuel >= 1
    requires FourCCAt(data, p) != DATA
    requires 0 <= Int32At(data, p + 4) && p + 8 + Int32At(data, p + 4) <= |data|
    ensures var k := Int32At(data, p + 4);
      ReadNext(data, p, offset, fuel) == ReadNext(data, p + 8 + k, offset + 8 + k, fuel - 1)
  {
    var k := Int32At(data, p + 4);
    assert ReadNext(data, p, offset, fuel) == WalkFrom(data, p + 8, offset + 8, FourCCAt(data, p), k, fuel);
    assert SkipBody(data, p + 8, FourCCAt(data, p), k) == p + 8 + k;
  }

  predicate NoData(cs: seq<SubChunk>)
  {
    forall i :: 0 <= i < |cs| ==> cs[i].id != DATA
  }

  /**
   * Reading the headers of a run of laid-out subchunks, one after the other
   * from `p`, amounts to continuing at the end of the run, with the run's
   * length added to the offset and one round of fuel spent per subchunk.
   */
  lemma {:induction false} SkipRun(data: seq<byte>, p: nat, offset: int, fuel: nat, cs: seq<SubChunk>)
    requires LaidOut(data, p, cs) && NoData(cs)
    requires fuel >= |cs|
    ensures ReadNext(data, p, offset, fuel)
         == ReadNext(data, p + SkippedLength(cs), offset + SkippedLength(cs), fuel - |cs|)
    decreases |cs|
  {
    if cs != [] {
      var n := 8 + |cs[0].body|;
      ReadOneChunk(data, p, offset, fuel);
      assert NoData(cs[1..]) by {
        forall i | 0 <= i < |cs[1..]| ensures cs[1..][i].id != DATA {
          assert cs[1..][i] == cs[i + 1];
        }
      }
      SkipRun(data, p + n, offset + n, fuel - 1, cs[1..]);
    }
  }

  /** A well-formed outer header: identifier, size, "WAVE". */
  predicate WaveHeader(h: seq<byte>)
  {
    |h| == HeaderSize && FourCCAt(h, 8) == WAVE
  }

  /**
   * The walk over a WAVE buffer whose subchunks `cs` are laid out from 12
   * reaches the header at 12 + Σ(8 + Ki) with one round per subchunk spent.
   */
  lemma WalkOverLayout(data: seq<byte>, cs: seq<SubChunk>)
    requires IsWave(data) && FourCCAt(data, 0) != DATA
    requires LaidOut(data, HeaderSize, cs) && NoData(cs)
    requires |data| > |cs|
    ensures PayloadWalk(data)
         == ReadNext(data, HeaderSize + SkippedLength(cs), HeaderSize + SkippedLength(cs), |data| - 1 - |cs|)
  {
    assert PayloadWalk(data) == ReadNext(data, HeaderSize, HeaderSize, |data| - 1) by {
      assert SkipBody(data, HeaderSize, FourCCAt(data, 0), 0) == HeaderSize;
    }
    SkipRun(data, HeaderSize, HeaderSize, |data| - 1, cs);
  }

  /** The bytes of an encoded buffer, seen through the walk's reads. */
  lemma EncodedBuffer(h: seq<byte>, cs: seq<SubChunk>, after: seq<byte>)
    requires WaveHeader(h) && Skippable(cs)
    ensures var data := h + EncodeSubChunks(cs) + after;
      && FourCCAt(data, 0) == FourCCAt(h, 0) && IsWave(data)
      && LaidOut(data, HeaderSize, cs)
      && |data| == HeaderSize + SkippedLength(cs) + |after|
      && data[HeaderSize + SkippedLength(cs)..] == after
      && |data| >= HeaderSize + 8 * |cs|
  {
    var rest := EncodeSubChunks(cs) + after;
    EncodedLength(cs);
    HeaderThenRest(h, rest);
    EncodedIsLaidOut(h + rest, HeaderSize, cs, after);
    SameBuffer(h, EncodeSubChunks(cs), after);
  }

  lemma SameBuffer(h: seq<byte>, body: seq<byte>, after: seq<byte>)
    ensures h + body + after == h + (body + after)
  {
  }

  /** The reads of the outer header are not disturbed by what follows it. */
  lemma HeaderThenRest(h: seq<byte>, rest: seq<byte>)
    requires |h| == HeaderSize
    ensures FourCCAt(h + rest, 0) == FourCCAt(h, 0) && FourCCAt(h + rest, 8) == FourCCAt(h, 8)
    ensures (h + rest)[HeaderSize..] == rest
  {
  }

  /**
   * For a WAVE buffer whose subchunks before "data" have sizes K1..Kn, the
   * audio starts at 12 + Σ(8 + Ki) + 8: every skipped subchunk, "txts" or
   * any other, moves the offset by its header and its declared size.
   * `after` is what follows the skipped subchunks: the "data" header first.
   */
  lemma OffsetAfterSkippedChunks(h: seq<byte>, cs: seq<SubChunk>, after: seq<byte>)
    requires WaveHeader(h) && FourCCAt(h, 0) != DATA && Skippable(cs)
    requires |after| >= SubChunkHeaderSize && FourCCAt(after, 0) == DATA
    ensures PayloadWalk(h + EncodeSubChunks(cs) + after)
         == Stopped(HeaderSize + SkippedLength(cs) + SubChunkHeaderSize)
  {
    var data := h + EncodeSubChunks(cs) + after;
    var q := HeaderSize + SkippedLength(cs);
    EncodedBuffer(h, cs, after);
    assert FourCCAt(data, q) == DATA by {
      assert forall i :: 0 <= i < 4 ==> data[q + i] == data[q..][i] == after[i];
    }
    assert NoData(cs);
    WalkOverLayout(data, cs);
  }

  /** "data" directly after the outer header: the audio starts at 20. */
  lemma DataFirstStartsAtTwenty(h: seq<byte>, after: seq<byte>)
    requires WaveHeader(h) && FourCCAt(h, 0) != DATA
    requires |after| >= SubChunkHeaderSize && FourCCAt(after, 0) == DATA
    ensures PayloadWalk(h + after) == Stopped(20)
  {
    OffsetAfterSkippedChunks(h, [], after);
    assert h + EncodeSubChunks([]) + after == h + after;
  }

  /** One skipped subchunk of size K before "data": the audio starts at 28 + K. */
  lemma OneSkippedChunk(h: seq<byte>, c: SubChunk, after: seq<byte>)
    requires WaveHeader(h) && FourCCAt(h, 0) != DATA
    requires c.id != DATA && |c.body| < 0x8000_0000
    requires |after| >= SubChunkHeaderSize && FourCCAt(after, 0) == DATA
    ensures PayloadWalk(h + EncodeSubChunk(c) + after) == Stopped(28 + |c.body|)
  {
    assert EncodeSubChunks([c]) == EncodeSubChunk(c);
    OffsetAfterSkippedChunks(h, [c], after);
  }

  /**
   * When the buffer ends before another subchunk header could be read, the
   * walk stops quietly: the offset counts the last subchunk's declared size
   * K, even when its body is cut short, but not the header that is missing.
   * `after` is that last subchunk: its header and fewer than K + 8 bytes.
   */
  lemma OffsetWhenHeaderMissing(h: seq<byte>, cs: seq<SubChunk>, after: seq<byte>)
    requires WaveHeader(h) && FourCCAt(h, 0) != DATA && Skippable(cs)
    requires |after| >= SubChunkHeaderSize && FourCCAt(after, 0) != DATA
    requires 0 <= Int32At(after, 4) && |after| < 16 + Int32At(after, 4)
    ensures PayloadWalk(h + EncodeSubChunks(cs) + after)
         == Stopped(HeaderSize + SkippedLength(cs) + SubChunkHeaderSize + Int32At(after, 4))
  {
    var data := h + EncodeSubChunks(cs) + after;
    var q := HeaderSize + SkippedLength(cs);
    EncodedBuffer(h, cs, after);
    assert FourCCAt(data, q) == FourCCAt(after, 0) && Int32At(data, q + 4) == Int32At(after, 4) by {
      assert forall i :: 0 <= i < 8 ==> data[q + i] == data[q..][i] == after[i];
    }
    assert NoData(cs);
    WalkOverLayout(data, cs);
    LastRound(data, q, q, |data| - 1 - |cs|);
  }

  /** A final round whose next header cannot be read stops with the body's size counted. */
  lemma LastRound(data: seq<byte>, q: nat, offset: int, fuel: nat)
    requires q + SubChunkHeaderSize <= |data| && fuel >= 1
    requires FourCCAt(data, q) != DATA && Int32At(data, q + 4) >= 0
    requires |data| < q + 16 + Int32At(data, q + 4)
    ensures ReadNext(data, q, offset, fuel)
         == Stopped(offset + SubChunkHeaderSize + Int32At(data, q + 4))
  {
    var k := Int32At(data, q + 4);
    var s := SkipBody(data, q + 8, FourCCAt(data, q), k);
    assert ReadNext(data, q, offset, fuel) == WalkFrom(data, q + 8, offset + 8, FourCCAt(data, q), k, fuel);
    assert WalkFrom(data, q + 8, offset + 8, FourCCAt(data, q), k, fuel) == ReadNext(data, s, offset + 8 + k, fuel - 1);
    assert s + SubChunkHeaderSize > |data|;
  }

  /** A buffer without the "WAVE" tag is not walked: the offset stays 12. */
  lemma NonWaveKeepsHeaderOffset(data: seq<byte>)
    requires |data| < HeaderSize || FourCCAt(data, 8) != WAVE
    ensures PayloadWalk(data) == Stopped(HeaderSize)
  {
  }

  /**
   * When the outer identifier itself reads "data", the loop condition is
   * false from the start and the offset stays 12 even for a WAVE buffer.
   */
  lemma OuterDataIdentifier(data: seq<byte>)
    requires IsWave(data) && FourCCAt(data, 0) == DATA
    ensures PayloadWalk(data) == Stopped(HeaderSize)
  {
  }

  /**
   * A non-"txts" subchunk that declares size -8 sends the reader back onto
   * its own header: the round ends in exactly the state it began with, so the
   * source's loop repeats forever; the model reports Unbounded.
   */
  lemma {:induction false} NegativeSizeRepeats(data: seq<byte>, p: nat, offset: int, fuel: nat)
    requires p + SubChunkHeaderSize <= |data|
    requires FourCCAt(data, p) != DATA && FourCCAt(data, p) != TXTS
    requires Int32At(data, p + 4) == -8
    ensures fuel > 0 ==> ReadNext(data, p, offset, fuel) == ReadNext(data, p, offset, fuel - 1)
    ensures ReadNext(data, p, offset, fuel) == Unbounded
  {
    if fuel > 0 {
      assert SkipBody(data, p + 8, FourCCAt(data, p), -8) == p;
      NegativeSizeRepeats(data, p, offset, fuel - 1);
    }
  }

  /** A "txts" subchunk with a negative declared size stops the walk with a panic. */
  lemma NegativeTxtsPanics(data: seq<byte>, p: nat, offset: int, fuel: nat)
    requires p + SubChunkHeaderSize <= |data|
    requires FourCCAt(data, p) == TXTS && data[p + 7] >= 0x80 && fuel > 0
    ensures ReadNext(data, p, offset, fuel) == NegativeTxts
  {
  }
}
