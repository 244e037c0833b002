/** The batch and ack payloads (codec.ts). */
module BatchCodec {
  import opened Prelude
  import opened Bytes
  import opened Hex
  import opened Records

  const HEADER_SIZE := 40
  const SAMPLE_SIZE := 8
  const ACK_SIZE := 16

  /** The header fields EncodeBatch is given; it adds the version and the number of samples itself. */
  datatype HeaderFields = HeaderFields(
    firstSeq: int, bootId: int, bootNow: int, uptimeNowS: int, bootEpochS: int, lostThrough: int,
    sampleIntervalS: int, policyMinCenti: int, policyMaxCenti: int, logId: int, flags: int)

  datatype SampleFields = SampleFields(uptimeS: int, centiC: int, flags: int)

  datatype CodecError = TooManySamples | OutOfRange

  predicate IsU8(v: int) {
    0 <= v <= 0xff
  }

  predicate HeaderFits(h: HeaderFields) {
    && IsU8(h.flags) && IsU32(h.firstSeq) && IsU32(h.bootId) && IsU32(h.bootNow) && IsU32(h.uptimeNowS)
    && IsU32(h.bootEpochS) && IsU32(h.lostThrough) && IsU32(h.sampleIntervalS)
    && IsI16(h.policyMinCenti) && IsI16(h.policyMaxCenti) && IsU32(h.logId)
  }

  predicate SampleFits(s: SampleFields) {
    IsU32(s.uptimeS) && IsI16(s.centiC) && IsU8(s.flags)
  }

  predicate Fits(h: HeaderFields, samples: seq<SampleFields>) {
    HeaderFits(h) && forall i :: 0 <= i < |samples| ==> SampleFits(samples[i])
  }

  // ── Encoding ───────────────────────────────────────────────────────

  /** Byte i of the 40-byte header. */
  function HeaderByte(h: HeaderFields, count: int, i: nat): byte
    requires HeaderFits(h) && i < HEADER_SIZE
  {
    if i == 0 then 0
    else if i == 1 then h.flags
    else if i < 4 then LeByte(count, i - 2)
    else if i < 8 then LeByte(h.firstSeq, i - 4)
    else if i < 12 then LeByte(h.bootId, i - 8)
    else if i < 16 then LeByte(h.bootNow, i - 12)
    else if i < 20 then LeByte(h.uptimeNowS, i - 16)
    else if i < 24 then LeByte(h.bootEpochS, i - 20)
    else if i < 28 then LeByte(h.lostThrough, i - 24)
    else if i < 32 then LeByte(h.sampleIntervalS, i - 28)
    else if i < 34 then LeByte(h.policyMinCenti, i - 32)
    else if i < 36 then LeByte(h.policyMaxCenti, i - 34)
    else LeByte(h.logId, i - 36)
  }

  /** Byte k of a sample's 8. */
  function SampleByte(s: SampleFields, k: nat): byte
    requires SampleFits(s) && k < SAMPLE_SIZE
  {
    if k < 4 then LeByte(s.uptimeS, k) else if k < 6 then LeByte(s.centiC, k - 4) else if k == 6 then s.flags else 0
  }

  function BatchByte(h: HeaderFields, samples: seq<SampleFields>, i: nat): byte
    requires Fits(h, samples) && i < HEADER_SIZE + |samples| * SAMPLE_SIZE
  {
    if i < HEADER_SIZE then HeaderByte(h, |samples|, i)
    else SampleByte(samples[(i - HEADER_SIZE) / SAMPLE_SIZE], (i - HEADER_SIZE) % SAMPLE_SIZE)
  }

  /** A batch as bytes, header first; EncodeBatch pads this with zeros to a cell's payload. */
  function Encoded(h: HeaderFields, samples: seq<SampleFields>): (p: seq<byte>)
    requires Fits(h, samples)
    ensures |p| == HEADER_SIZE + |samples| * SAMPLE_SIZE
  {
    seq(HEADER_SIZE + |samples| * SAMPLE_SIZE,
        i requires 0 <= i < HEADER_SIZE + |samples| * SAMPLE_SIZE => BatchByte(h, samples, i))
  }

  function EncodeResult(h: HeaderFields, samples: seq<SampleFields>): Result<seq<byte>, CodecError> {
    if |samples| > BATCH_MAX_SAMPLES then Err(TooManySamples)
    else if !Fits(h, samples) then Err(OutOfRange)
    else Ok(Encoded(h, samples))
  }

  /** Header and samples written at their offsets into one buffer. */
  method EncodeBatch(h: HeaderFields, samples: seq<SampleFields>) returns (r: Result<seq<byte>, CodecError>)
    ensures r == EncodeResult(h, samples)
  {
    if |samples| > BATCH_MAX_SAMPLES {
      return Err(TooManySamples);
    }
    if !Fits(h, samples) {
      return Err(OutOfRange);
    }
    var p := new byte[HEADER_SIZE + |samples| * SAMPLE_SIZE](_ => 0);
    WriteHeader(p, h, |samples|);
    for i := 0 to |samples|
      invariant forall j :: 0 <= j < HEADER_SIZE + i * SAMPLE_SIZE ==> p[j] == BatchByte(h, samples, j)
    {
      ghost var before := p[..];
      var o := HEADER_SIZE + i * SAMPLE_SIZE;
      WriteSample(p, o, samples[i]);
      forall j | 0 <= j < o + SAMPLE_SIZE ensures p[j] == BatchByte(h, samples, j) {
        if j < o {
          assert p[..][j] == before[j];
        } else {
          assert p[..][o + (j - o)] == SampleByte(samples[i], j - o);
          assert (j - HEADER_SIZE) / SAMPLE_SIZE == i && (j - HEADER_SIZE) % SAMPLE_SIZE == j - o;
        }
      }
    }
    assert p[..] == Encoded(h, samples);
    return Ok(p[..]);
  }

  method WriteHeader(p: array<byte>, h: HeaderFields, count: nat)
    requires p.Length >= HEADER_SIZE && HeaderFits(h)
    modifies p
    ensures forall i :: 0 <= i < HEADER_SIZE ==> p[i] == HeaderByte(h, count, i)
  {
    WriteClocks(p, h, count);
    ghost var before := p[..];
    WriteU32LE(p, 24, h.lostThrough);
    WriteU32LE(p, 28, h.sampleIntervalS);
    WriteU16LE(p, 32, h.policyMinCenti);
    WriteU16LE(p, 34, h.policyMaxCenti);
    WriteU32LE(p, 36, h.logId);
    assert forall i :: 0 <= i < 24 ==> p[..][i] == before[i];
  }

  method WriteClocks(p: array<byte>, h: HeaderFields, count: nat)
    requires p.Length >= HEADER_SIZE && HeaderFits(h)
    modifies p
    ensures forall i :: 0 <= i < 24 ==> p[..][i] == HeaderByte(h, count, i)
  {
    p[0] := 0;
    p[1] := h.flags;
    WriteU16LE(p, 2, count);
    WriteU32LE(p, 4, h.firstSeq);
    WriteU32LE(p, 8, h.bootId);
    WriteU32LE(p, 12, h.bootNow);
    WriteU32LE(p, 16, h.uptimeNowS);
    WriteU32LE(p, 20, h.bootEpochS);
  }

  method WriteSample(p: array<byte>, o: nat, s: SampleFields)
    requires o + SAMPLE_SIZE <= p.Length && SampleFits(s)
    modifies p
    ensures forall k :: 0 <= k < SAMPLE_SIZE ==> p[..][o + k] == SampleByte(s, k)
    ensures OnlyAt(old(p[..]), p[..], o, SAMPLE_SIZE)
  {
    WriteU32LE(p, o, s.uptimeS);
    WriteU16LE(p, o + 4, s.centiC);
    p[o + 6] := s.flags;
    p[o + 7] := 0;
  }

  // ── Decoding ───────────────────────────────────────────────────────

  function HeaderOf(p: seq<byte>): BatchHeader
    requires |p| >= HEADER_SIZE
  {
    BatchHeader(p[0], p[1], ReadU16(p, 2), ReadU32(p, 4), ReadU32(p, 8), ReadU32(p, 12), ReadU32(p, 16),
                ReadU32(p, 20), ReadU32(p, 24), ReadU32(p, 28), ReadI16(p, 32), ReadI16(p, 34), ReadU32(p, 36))
  }

  /** Sample i of a payload: first_seq + i, wrapping at 32 bits. */
  function SampleAt(p: seq<byte>, firstSeq: int, i: nat): BatchSample
    requires HEADER_SIZE + (i + 1) * SAMPLE_SIZE <= |p|
  {
    var o := HEADER_SIZE + i * SAMPLE_SIZE;
    BatchSample((firstSeq + i) % 0x1_0000_0000, ReadU32(p, o), ReadI16(p, o + 4), p[o + 6])
  }

  /** Read a batch; None for another version, too high a count, or fewer bytes than the count needs. */
  function Decode(p: seq<byte>): (r: Option<DecodedBatch>)
    ensures r.Some? ==> Decoded(r.value)
  {
    if |p| < HEADER_SIZE || p[0] != 0 then None else
      var count := ReadU16(p, 2);
      if count > BATCH_MAX_SAMPLES || |p| < HEADER_SIZE + count * SAMPLE_SIZE then None else
        var b := DecodedBatch(HeaderOf(p), seq(count, i requires 0 <= i < count => SampleAt(p, ReadU32(p, 4), i)));
        ReadsDecoded(p, b);
        Some(b)
  }

  lemma ReadsDecoded(p: seq<byte>, b: DecodedBatch)
    requires |p| >= HEADER_SIZE && b.header == HeaderOf(p) && |b.samples| <= BATCH_MAX_SAMPLES
    requires |p| >= HEADER_SIZE + |b.samples| * SAMPLE_SIZE
    requires forall i :: 0 <= i < |b.samples| ==> b.samples[i] == SampleAt(p, ReadU32(p, 4), i)
    ensures Decoded(b)
  {
    hide ReadU16, ReadU32, ReadI16;
  }

  method DecodeBatch(p: seq<byte>) returns (r: Option<DecodedBatch>)
    ensures r == Decode(p)
  {
    if |p| < HEADER_SIZE {
      return None;
    }
    if p[0] != 0 {
      return None;
    }
    var count := ReadU16(p, 2);
    if count > BATCH_MAX_SAMPLES {
      return None;
    }
    if |p| < HEADER_SIZE + count * SAMPLE_SIZE {
      return None;
    }
    var header := HeaderOf(p);
    var samples := [];
    for i := 0 to count
      invariant |samples| == i
      invariant forall j :: 0 <= j < i ==> samples[j] == SampleAt(p, header.firstSeq, j)
    {
      samples := samples + [SampleAt(p, header.firstSeq, i)];
    }
    assert Decode(p).value.samples == samples;
    return Some(DecodedBatch(header, samples));
  }

  // ── Round trips ────────────────────────────────────────────────────

  /** The batch a sender's fields mean to a receiver. */
  function Meaning(h: HeaderFields, samples: seq<SampleFields>): DecodedBatch {
    DecodedBatch(
      BatchHeader(0, h.flags, |samples|, h.firstSeq, h.bootId, h.bootNow, h.uptimeNowS, h.bootEpochS, h.lostThrough,
                  h.sampleIntervalS, h.policyMinCenti, h.policyMaxCenti, h.logId),
      seq(|samples|, i requires 0 <= i < |samples| =>
        BatchSample((h.firstSeq + i) % 0x1_0000_0000, samples[i].uptimeS, samples[i].centiC, samples[i].flags)))
  }

  /** p begins with the encoding of these fields. */
  ghost predicate StartsWith(p: seq<byte>, h: HeaderFields, samples: seq<SampleFields>) {
    && Fits(h, samples)
    && |p| >= HEADER_SIZE + |samples| * SAMPLE_SIZE
    && forall i :: 0 <= i < HEADER_SIZE + |samples| * SAMPLE_SIZE ==> p[i] == BatchByte(h, samples, i)
  }

  lemma HeaderWords(p: seq<byte>, h: HeaderFields, samples: seq<SampleFields>)
    requires StartsWith(p, h, samples)
    ensures p[0] == 0 && p[1] == h.flags && HasU16(p, 2, |samples|)
    ensures HasU32(p, 4, h.firstSeq) && HasU32(p, 8, h.bootId) && HasU32(p, 12, h.bootNow)
        && HasU32(p, 16, h.uptimeNowS)
    ensures HasU32(p, 20, h.bootEpochS) && HasU32(p, 24, h.lostThrough) && HasU32(p, 28, h.sampleIntervalS)
    ensures HasU16(p, 32, h.policyMinCenti) && HasU16(p, 34, h.policyMaxCenti) && HasU32(p, 36, h.logId)
  {
    assert forall i :: 0 <= i < HEADER_SIZE ==> p[i] == HeaderByte(h, |samples|, i);
  }

  lemma HeaderIsRead(p: seq<byte>, h: HeaderFields, samples: seq<SampleFields>)
    requires StartsWith(p, h, samples) && |samples| <= BATCH_MAX_SAMPLES
    ensures HeaderOf(p) == Meaning(h, samples).header
  {
    HeaderWords(p, h, samples);
    U16IsRead(p, 2, |samples|);
    U32IsRead(p, 4, h.firstSeq);
    U32IsRead(p, 8, h.bootId);
    U32IsRead(p, 12, h.bootNow);
    U32IsRead(p, 16, h.uptimeNowS);
    U32IsRead(p, 20, h.bootEpochS);
    U32IsRead(p, 24, h.lostThrough);
    U32IsRead(p, 28, h.sampleIntervalS);
    I16IsRead(p, 32, h.policyMinCenti);
    I16IsRead(p, 34, h.policyMaxCenti);
    U32IsRead(p, 36, h.logId);
  }

  /** p holds a sample's eight bytes at o. */
  ghost predicate HoldsSample(p: seq<byte>, o: nat, s: SampleFields) {
    SampleFits(s) && o + SAMPLE_SIZE <= |p| && forall k :: 0 <= k < SAMPLE_SIZE ==> p[o + k] == SampleByte(s, k)
  }

  lemma SampleBytesAt(p: seq<byte>, h: HeaderFields, samples: seq<SampleFields>, i: nat)
    requires StartsWith(p, h, samples) && i < |samples|
    ensures HoldsSample(p, HEADER_SIZE + i * SAMPLE_SIZE, samples[i])
  {
    forall k | 0 <= k < SAMPLE_SIZE
      ensures p[HEADER_SIZE + i * SAMPLE_SIZE + k] == SampleByte(samples[i], k)
    {
      var o := HEADER_SIZE + i * SAMPLE_SIZE + k;
      assert (o - HEADER_SIZE) / SAMPLE_SIZE == i && (o - HEADER_SIZE) % SAMPLE_SIZE == k;
      assert p[o] == BatchByte(h, samples, o);
    }
  }

  lemma SampleWords(p: seq<byte>, o: nat, s: SampleFields)
    requires HoldsSample(p, o, s)
    ensures ReadU32(p, o) == s.uptimeS && ReadI16(p, o + 4) == s.centiC && p[o + 6] == s.flags
  {
    assert p[o] == SampleByte(s, 0) && p[o + 1] == SampleByte(s, 1) && p[o + 2] == SampleByte(s, 2);
    assert p[o + 3] == SampleByte(s, 3) && p[o + 4] == SampleByte(s, 4) && p[o + 5] == SampleByte(s, 5);
    assert p[o + 6] == SampleByte(s, 6);
    U32IsRead(p, o, s.uptimeS);
    I16IsRead(p, o + 4, s.centiC);
  }

  lemma SampleIsRead(p: seq<byte>, h: HeaderFields, samples: seq<SampleFields>, i: nat)
    requires StartsWith(p, h, samples) && i < |samples|
    ensures SampleAt(p, h.firstSeq, i) == Meaning(h, samples).samples[i]
  {
    hide *;
    SampleBytesAt(p, h, samples, i);
    MeansSample(h, samples, i);
    ReadsSample(p, h.firstSeq, i, samples[i]);
  }

  lemma ReadsSample(p: seq<byte>, firstSeq: int, i: nat, s: SampleFields)
    requires HoldsSample(p, HEADER_SIZE + i * SAMPLE_SIZE, s)
    ensures SampleAt(p, firstSeq, i) == BatchSample((firstSeq + i) % 0x1_0000_0000, s.uptimeS, s.centiC, s.flags)
  {
    SampleWords(p, HEADER_SIZE + i * SAMPLE_SIZE, s);
  }

  lemma MeansSample(h: HeaderFields, samples: seq<SampleFields>, i: nat)
    requires i < |samples|
    ensures Meaning(h, samples).samples[i]
         == BatchSample((h.firstSeq + i) % 0x1_0000_0000, samples[i].uptimeS, samples[i].centiC, samples[i].flags)
  {
  }

  /** Whatever follows an encoding, decoding returns every field, signed temperatures included. */
  lemma DecodeEncoded(p: seq<byte>, h: HeaderFields, samples: seq<SampleFields>)
    requires StartsWith(p, h, samples) && |samples| <= BATCH_MAX_SAMPLES
    ensures Decode(p) == Some(Meaning(h, samples))
  {
    HeaderIsRead(p, h, samples);
    forall i | 0 <= i < |samples| ensures SampleAt(p, h.firstSeq, i) == Meaning(h, samples).samples[i] {
      SampleIsRead(p, h, samples, i);
    }
    assert Decode(p).Some? && Decode(p).value.samples == Meaning(h, samples).samples;
  }

  lemma FieldsFit(h: HeaderFields, samples: seq<SampleFields>, p: seq<byte>)
    requires EncodeResult(h, samples) == Ok(p)
    ensures StartsWith(p, h, samples) && HeaderFits(h) && |samples| <= BATCH_MAX_SAMPLES
    ensures |p| == HEADER_SIZE + |samples| * SAMPLE_SIZE
  {
  }

  /** Each header field lies at its offset, in its width and sign. */
  lemma BatchLayout(h: HeaderFields, samples: seq<SampleFields>, p: seq<byte>)
    requires EncodeResult(h, samples) == Ok(p)
    ensures |p| == 40 + 8 * |samples| && p[0] == 0 && p[1] == h.flags && ReadU16(p, 2) == |samples| <= 91
    ensures ReadU32(p, 4) == h.firstSeq && ReadU32(p, 8) == h.bootId && ReadU32(p, 12) == h.bootNow
    ensures ReadU32(p, 16) == h.uptimeNowS && ReadU32(p, 20) == h.bootEpochS && ReadU32(p, 24) == h.lostThrough
    ensures ReadU32(p, 28) == h.sampleIntervalS && ReadI16(p, 32) == h.policyMinCenti
    ensures ReadI16(p, 34) == h.policyMaxCenti && ReadU32(p, 36) == h.logId
  {
    hide EncodeResult, StartsWith, HeaderByte, SampleByte, ReadU16, ReadU32, ReadI16, HasU16, HasU32;
    FieldsFit(h, samples, p);
    HeaderWords(p, h, samples);
    U16IsRead(p, 2, |samples|);
    U32IsRead(p, 4, h.firstSeq);
    U32IsRead(p, 8, h.bootId);
    U32IsRead(p, 12, h.bootNow);
    U32IsRead(p, 16, h.uptimeNowS);
    U32IsRead(p, 20, h.bootEpochS);
    U32IsRead(p, 24, h.lostThrough);
    U32IsRead(p, 28, h.sampleIntervalS);
    I16IsRead(p, 32, h.policyMinCenti);
    I16IsRead(p, 34, h.policyMaxCenti);
    U32IsRead(p, 36, h.logId);
  }

  /** So does each field of each sample, eight bytes a sample after the header. */
  lemma SampleLayout(h: HeaderFields, samples: seq<SampleFields>, p: seq<byte>, i: nat)
    requires EncodeResult(h, samples) == Ok(p) && i < |samples|
    ensures var o, s := 40 + 8 * i, samples[i];
            o + 8 <= |p| && ReadU32(p, o) == s.uptimeS && ReadI16(p, o + 4) == s.centiC && p[o + 6] == s.flags
            && p[o + 7] == 0
  {
    hide EncodeResult, StartsWith, ReadU32, ReadI16;
    FieldsFit(h, samples, p);
    SampleBytesAt(p, h, samples, i);
    SampleWords(p, HEADER_SIZE + i * SAMPLE_SIZE, samples[i]);
    assert p[HEADER_SIZE + i * SAMPLE_SIZE + 7] == SampleByte(samples[i], 7);
  }

  /** The fields that would encode a decoded batch again. */
  function FieldsOf(b: DecodedBatch): (HeaderFields, seq<SampleFields>) {
    var h := b.header;
    (HeaderFields(h.firstSeq, h.bootId, h.bootNow, h.uptimeNowS, h.bootEpochS, h.lostThrough, h.sampleIntervalS,
                  h.policyMinCenti, h.policyMaxCenti, h.logId, h.flags),
     seq(|b.samples|, i requires 0 <= i < |b.samples| =>
       SampleFields(b.samples[i].uptimeS, b.samples[i].centiC, b.samples[i].flags)))
  }

  /** The samples' last byte is reserved. */
  ghost predicate ReservedZero(p: seq<byte>, count: nat) {
    forall i :: 0 <= i < count && HEADER_SIZE + (i + 1) * SAMPLE_SIZE <= |p|
        ==> p[HEADER_SIZE + i * SAMPLE_SIZE + 7] == 0
  }

  lemma DecodedFits(p: seq<byte>)
    requires Decode(p).Some?
    ensures var (h, s) := FieldsOf(Decode(p).value); Fits(h, s)
  {
  }

  lemma HeaderByteHeld(p: seq<byte>, h: HeaderFields, count: nat, i: nat)
    requires Decode(p).Some? && h == FieldsOf(Decode(p).value).0 && count == ReadU16(p, 2)
    requires i < HEADER_SIZE
    ensures HeaderFits(h) && p[i] == HeaderByte(h, count, i)
  {
    if i < 4 { ReadI16IsHeld(p, 2); }
    else if i < 8 { ReadU32IsHeld(p, 4); }
    else if i < 12 { ReadU32IsHeld(p, 8); }
    else if i < 16 { ReadU32IsHeld(p, 12); }
    else if i < 20 { ReadU32IsHeld(p, 16); }
    else if i < 24 { ReadU32IsHeld(p, 20); }
    else if i < 28 { ReadU32IsHeld(p, 24); }
    else if i < 32 { ReadU32IsHeld(p, 28); }
    else if i < 34 { ReadI16IsHeld(p, 32); }
    else if i < 36 { ReadI16IsHeld(p, 34); }
    else { ReadU32IsHeld(p, 36); }
  }

  lemma SampleHeld(p: seq<byte>, o: nat, k: nat)
    requires o + SAMPLE_SIZE <= |p| && k < SAMPLE_SIZE && p[o + 7] == 0
    ensures var s := SampleFields(ReadU32(p, o), ReadI16(p, o + 4), p[o + 6]);
            p[o + k] == SampleByte(s, k)
  {
    ReadU32IsHeld(p, o);
    ReadI16IsHeld(p, o + 4);
  }

  lemma SampleByteHeld(p: seq<byte>, i: nat, k: nat)
    requires Decode(p).Some? && i < |Decode(p).value.samples| && k < SAMPLE_SIZE
        && ReservedZero(p, |Decode(p).value.samples|)
    ensures var s := FieldsOf(Decode(p).value).1[i];
            SampleFits(s) && p[HEADER_SIZE + i * SAMPLE_SIZE + k] == SampleByte(s, k)
  {
    assert HEADER_SIZE + (i + 1) * SAMPLE_SIZE <= |p|;
    assert p[HEADER_SIZE + i * SAMPLE_SIZE + 7] == 0;
    SampleHeld(p, HEADER_SIZE + i * SAMPLE_SIZE, k);
  }

  lemma BatchByteHeld(p: seq<byte>, h: HeaderFields, s: seq<SampleFields>, i: nat)
    requires Decode(p).Some? && ReservedZero(p, |Decode(p).value.samples|) && FieldsOf(Decode(p).value) == (h, s)
    requires Fits(h, s) && i < HEADER_SIZE + |s| * SAMPLE_SIZE
    ensures p[i] == BatchByte(h, s, i)
  {
    if i < HEADER_SIZE {
      HeaderByteHeld(p, h, |s|, i);
    } else {
      var j := i - HEADER_SIZE;
      assert j == j / SAMPLE_SIZE * SAMPLE_SIZE + j % SAMPLE_SIZE;
      SampleByteHeld(p, j / SAMPLE_SIZE, j % SAMPLE_SIZE);
    }
  }

  lemma EncodedIsPrefix(p: seq<byte>, h: HeaderFields, s: seq<SampleFields>)
    requires StartsWith(p, h, s)
    ensures Encoded(h, s) == p[..HEADER_SIZE + |s| * SAMPLE_SIZE]
  {
  }

  lemma DecodedStartsWith(p: seq<byte>, b: DecodedBatch)
    requires Decode(p) == Some(b) && ReservedZero(p, |b.samples|)
    ensures StartsWith(p, FieldsOf(b).0, FieldsOf(b).1)
  {
    var (h, s) := FieldsOf(b);
    DecodedFits(p);
    forall i | 0 <= i < HEADER_SIZE + |s| * SAMPLE_SIZE ensures p[i] == BatchByte(h, s, i) {
      BatchByteHeld(p, h, s, i);
    }
  }

  /** A decodable payload whose reserved bytes are zero encodes back to its own used bytes. */
  lemma EncodeDecoded(p: seq<byte>, b: DecodedBatch)
    requires Decode(p) == Some(b) && ReservedZero(p, |b.samples|)
    ensures EncodeResult(FieldsOf(b).0, FieldsOf(b).1) == Ok(p[..HEADER_SIZE + |b.samples| * SAMPLE_SIZE])
  {
    hide Decode, ReservedZero, StartsWith, Encoded, Fits;
    DecodedFits(p);
    DecodedStartsWith(p, b);
    EncodedIsPrefix(p, FieldsOf(b).0, FieldsOf(b).1);
  }

  // ── The ack payload ────────────────────────────────────────────────

  datatype Ack = Ack(targetMac: string, ackedThrough: int, hostUnixS: int)

  function AckByte(mac: MacBytes, ackedThrough: int, hostUnixS: int, i: nat): byte
    requires i < ACK_SIZE
  {
    if i < 2 then 0
    else if i < 8 then mac[i - 2]
    else if i < 12 then LeByte(ackedThrough, i - 8)
    else LeByte(hostUnixS, i - 12)
  }

  /** The 16-byte ack, or None where encodeAck throws. */
  function EncodeAck(targetMac: string, ackedThrough: int, hostUnixS: int): (r: Option<seq<byte>>)
    ensures r.Some? ==> |r.value| == ACK_SIZE
  {
    var mac := MacToBytes(targetMac);
    if mac.None? || !IsU32(ackedThrough) || !IsU32(hostUnixS) then None
    else Some(seq(ACK_SIZE, i requires 0 <= i < ACK_SIZE => AckByte(mac.value, ackedThrough, hostUnixS, i)))
  }

  function DecodeAck(p: seq<byte>): Option<Ack> {
    if |p| < ACK_SIZE || p[0] != 0 then None
    else Some(Ack(MacToString(p[2..8]), ReadU32(p, 8), ReadU32(p, 12)))
  }

  /** Each field of an ack lies at its offset. */
  lemma AckLayout(targetMac: string, ackedThrough: int, hostUnixS: int, p: seq<byte>)
    requires EncodeAck(targetMac, ackedThrough, hostUnixS) == Some(p)
    ensures |p| == 16 && p[0] == 0 && p[1] == 0 && Some(p[2..8]) == MacToBytes(targetMac)
    ensures ReadU32(p, 8) == ackedThrough && ReadU32(p, 12) == hostUnixS
  {
    hide ReadU32, MacToBytes;
    assert p[2..8] == MacToBytes(targetMac).value;
    U32IsRead(p, 8, ackedThrough);
    U32IsRead(p, 12, hostUnixS);
  }

  /** An ack reads back with its target in canonical form. */
  lemma DecodeAckEncoded(targetMac: string, ackedThrough: int, hostUnixS: int)
    requires MacToBytes(targetMac).Some? && IsU32(ackedThrough) && IsU32(hostUnixS)
    ensures DecodeAck(EncodeAck(targetMac, ackedThrough, hostUnixS).value)
         == Some(Ack(MacToString(MacToBytes(targetMac).value), ackedThrough, hostUnixS))
  {
    var p, mac := EncodeAck(targetMac, ackedThrough, hostUnixS).value, MacToBytes(targetMac).value;
    assert p[2..8] == mac;
    U32IsRead(p, 8, ackedThrough);
    U32IsRead(p, 12, hostUnixS);
  }
}
