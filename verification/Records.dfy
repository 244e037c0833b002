/** The batches a node sends and the journal records a bridge writes (codec.ts, store.ts). */
module Records {
  import opened Prelude
  import opened Hex

  const BATCH_MAX_SAMPLES := 91
  /** The temperature field of a sample that has no reading. */
  const TEMP_INVALID := -32768

  // Sample flag bits.
  const POLICY_REJECT := 0x01
  const SENSOR_ERROR := 0x04
  const RECORD_LOST := 0x10

  /** (flags & RECORD_LOST) !== 0 */
  predicate IsLost(flags: int) {
    flags / RECORD_LOST % 2 == 1
  }

  datatype BatchHeader = BatchHeader(
    version: int, flags: int, count: int, firstSeq: int, bootId: int, bootNow: int, uptimeNowS: int,
    bootEpochS: int, lostThrough: int, sampleIntervalS: int, policyMinCenti: int, policyMaxCenti: int, logId: int)

  datatype BatchSample = BatchSample(seqNo: int, uptimeS: int, centiC: int, flags: int)

  datatype DecodedBatch = DecodedBatch(header: BatchHeader, samples: seq<BatchSample>)

  /** What decodeBatch guarantees of every batch it returns. */
  ghost predicate Decoded(b: DecodedBatch) {
    && IsU32(b.header.firstSeq) && IsU32(b.header.lostThrough) && IsU32(b.header.logId)
    && IsU32(b.header.bootId) && IsU32(b.header.bootNow) && IsU32(b.header.uptimeNowS)
    && IsU32(b.header.bootEpochS)
    && |b.samples| <= BATCH_MAX_SAMPLES
    && forall i :: 0 <= i < |b.samples| ==>
         b.samples[i].seqNo == (b.header.firstSeq + i) % 0x1_0000_0000 && IsU32(b.samples[i].seqNo)
  }

  /** A log: one node's MAC in canonical form, and the log id it drew. */
  datatype LogKey = LogKey(mac: string, logId: int)

  predicate IsLogKey(k: LogKey) {
    IsCanonMac(k.mac) && IsU32(k.logId)
  }

  datatype Anchor = Receipt | Epoch | Unplaced

  datatype SampleRecord = SampleRecord(
    key: LogKey, seqNo: int, bootId: int, uptimeS: int, centiC: int, flags: int, tUnix: Option<int>,
    anchor: Anchor, policyMinCenti: int, policyMaxCenti: int, receivedUnixS: int)

  datatype LossRecord = LossRecord(
    key: LogKey, fromSeq: Option<int>, throughSeq: int, missing: Option<int>, receivedUnixS: int)

  datatype JournalRecord =
    | StartLine(start: LogKey, firstSeq: int, receivedUnixS: int)
    | SampleLine(sample: SampleRecord)
    | LossLine(loss: LossRecord)
  {
    function Key(): LogKey {
      match this
      case StartLine(k, _, _) => k
      case SampleLine(s) => s.key
      case LossLine(l) => l.key
    }

    /** The count asRecord insists on. */
    function Count(): int {
      match this
      case StartLine(_, f, _) => f
      case SampleLine(s) => s.seqNo
      case LossLine(l) => l.throughSeq
    }
  }

  /**
   * A line of the journal file: blank, text that is not a record (a torn write),
   * or the JSON text of a record.
   */
  datatype Line = Blank | Unreadable | Written(rec: JournalRecord)

  /** asRecord: the record on a line whose key and count are well formed. */
  function AsRecord(line: Line): Option<JournalRecord> {
    if line.Written? && IsLogKey(line.rec.Key()) && IsU32(line.rec.Count()) then Some(line.rec) else None
  }

  function Lines(records: seq<JournalRecord>): (lines: seq<Line>)
    ensures |lines| == |records|
    ensures forall i :: 0 <= i < |records| ==> lines[i] == Written(records[i])
  {
    seq(|records|, i requires 0 <= i < |records| => Written(records[i]))
  }
}
