/** The node: its ring of readings, delivery pointer and batches (sim.ts's SimNode, after main.c). */
module Node {
  import opened Prelude
  import opened Records
  import opened BatchCodec

  const RECORDS_PER_SECTOR := 256

  datatype FlashRecord = FlashRecord(bootId: int, uptimeS: int, centiC: int, flags: int)

  /** What never changes about a node. */
  datatype Config = Config(mac: string, logId: int, capacity: int, intervalS: int, bandMin: int, bandMax: int)

  /** A ring is erased a sector at a time, and must keep some records while one is erased. */
  predicate GoodCapacity(capacity: int) {
    capacity % RECORDS_PER_SECTOR == 0 && capacity >= 2 * RECORDS_PER_SECTOR
  }

  datatype Node = Node(
    bootId: int, nextSeq: int, oldestSeq: int, ackedThrough: int, bootUnixS: int,
    flash: map<int, FlashRecord>, epochs: map<int, int>)

  function NewNode(bootUnixS: int): Node {
    Node(1, 1, 1, 0, bootUnixS, map[], map[])
  }

  function UptimeS(n: Node, nowUnixS: int): int {
    nowUnixS - n.bootUnixS
  }

  /** Writing the next seq recycles a sector. */
  predicate Recycles(capacity: int, seqNo: int)
    requires GoodCapacity(capacity)
  {
    (seqNo - 1) % capacity % RECORDS_PER_SECTOR == 0 && seqNo > capacity - RECORDS_PER_SECTOR
  }

  /** The oldest seq once nextSeq has been appended. */
  function OldestAfter(capacity: int, n: Node): int
    requires GoodCapacity(capacity)
  {
    if Recycles(capacity, n.nextSeq) then Max(n.oldestSeq, n.nextSeq - (capacity - RECORDS_PER_SECTOR)) else n.oldestSeq
  }

  /** The records outside [lo, hi). */
  function Without(flash: map<int, FlashRecord>, lo: int, hi: int): map<int, FlashRecord> {
    map q | q in flash && !(lo <= q < hi) :: flash[q]
  }

  /** cm_tlog_append: the next seq is spent, and a recycled sector's records go. */
  function Append(capacity: int, n: Node): Node
    requires GoodCapacity(capacity)
  {
    var oldest := OldestAfter(capacity, n);
    n.(nextSeq := n.nextSeq + 1,
       oldestSeq := oldest,
       flash := Without(n.flash, n.oldestSeq, oldest))
  }

  function FlagsOf(c: Config, centiC: Option<int>): int {
    if centiC.None? then SENSOR_ERROR
    else if c.bandMin <= centiC.value <= c.bandMax then 0
    else POLICY_REJECT
  }

  /** The record a reading makes now; None is a probe that did not answer. */
  function Reading(c: Config, n: Node, nowUnixS: int, centiC: Option<int>): FlashRecord {
    FlashRecord(n.bootId, UptimeS(n, nowUnixS), if centiC.Some? then centiC.value else TEMP_INVALID, FlagsOf(c, centiC))
  }

  function Sample(c: Config, n: Node, nowUnixS: int, centiC: Option<int>): Node
    requires GoodCapacity(c.capacity)
  {
    var m := Append(c.capacity, n);
    m.(flash := m.flash[n.nextSeq := Reading(c, n, nowUnixS, centiC)])
  }

  function Reboot(n: Node, nowUnixS: int): Node {
    n.(bootId := n.bootId + 1, bootUnixS := nowUnixS)
  }

  function LostThrough(n: Node): int {
    if n.ackedThrough + 1 < n.oldestSeq then n.oldestSeq - 1 else 0
  }

  function PendingFirst(n: Node): int {
    Max(n.ackedThrough + 1, n.oldestSeq)
  }

  function Pending(n: Node): int {
    if n.nextSeq > PendingFirst(n) then n.nextSeq - PendingFirst(n) else 0
  }

  /** The node after an ack: its pointer, never past its newest seq, and this boot's start. */
  function ApplyAck(n: Node, ackedThrough: int, hostUnixS: int, nowUnixS: int): Node {
    var up := UptimeS(n, nowUnixS);
    n.(ackedThrough := Min(ackedThrough, n.nextSeq - 1),
       epochs := if hostUnixS > up then n.epochs[n.bootId := hostUnixS - up] else n.epochs)
  }

  /** A marked placeholder for a record that cannot be read. */
  const LOST_SAMPLE := SampleFields(0, TEMP_INVALID, RECORD_LOST + SENSOR_ERROR)

  /** What seqNo adds to a batch of one boot: its record, a placeholder, or None at a boot boundary. */
  function SampleFor(flash: map<int, FlashRecord>, boot: int, seqNo: int): Option<SampleFields> {
    if seqNo !in flash then Some(LOST_SAMPLE)
    else
      var r := flash[seqNo];
      if r.bootId != boot then None else Some(SampleFields(r.uptimeS, r.centiC, r.flags))
  }

  /** The samples of a batch from seqNo on: one boot, at most room of them. */
  function Gather(flash: map<int, FlashRecord>, nextSeq: int, boot: int, seqNo: int, room: nat): seq<SampleFields>
    decreases room
  {
    if seqNo >= nextSeq || room == 0 || SampleFor(flash, boot, seqNo).None? then []
    else [SampleFor(flash, boot, seqNo).value] + Gather(flash, nextSeq, boot, seqNo + 1, room - 1)
  }

  function BatchBoot(n: Node): int {
    var first := PendingFirst(n);
    if first in n.flash then n.flash[first].bootId else n.bootId
  }

  function BatchHeaderNow(c: Config, n: Node, nowUnixS: int): HeaderFields {
    var boot := BatchBoot(n);
    HeaderFields(PendingFirst(n), boot, n.bootId, UptimeS(n, nowUnixS), if boot in n.epochs then n.epochs[boot] else 0,
                 LostThrough(n), c.intervalS, c.bandMin, c.bandMax, c.logId, 0)
  }

  function BatchSamples(n: Node): seq<SampleFields> {
    Gather(n.flash, n.nextSeq, BatchBoot(n), PendingFirst(n), BATCH_MAX_SAMPLES)
  }

  /** The next batch as its receiver will understand it. */
  function BatchNow(c: Config, n: Node, nowUnixS: int): DecodedBatch {
    Meaning(BatchHeaderNow(c, n, nowUnixS), BatchSamples(n))
  }

  /** The next payload: nothing pending, an encoding error, or the bytes. */
  function Payload(c: Config, n: Node, nowUnixS: int): Option<Result<seq<byte>, CodecError>> {
    if Pending(n) == 0 then None else Some(EncodeResult(BatchHeaderNow(c, n, nowUnixS), BatchSamples(n)))
  }

  method DeleteRange(all: map<int, FlashRecord>, lo: int, hi: int) returns (flash: map<int, FlashRecord>)
    ensures flash == Without(all, lo, Max(lo, hi))
  {
    flash := all;
    var s := lo;
    assert flash == Without(all, lo, s);
    while s < hi
      invariant lo <= s <= Max(lo, hi)
      invariant flash == Without(all, lo, s)
    {
      assert Without(all, lo, s + 1) == Without(all, lo, s) - {s};
      flash := flash - {s};
      s := s + 1;
    }
  }

  lemma GatherNext(flash: map<int, FlashRecord>, nextSeq: int, boot: int, seqNo: int, room: nat,
                   samples: seq<SampleFields>)
    requires seqNo < nextSeq && room > 0 && SampleFor(flash, boot, seqNo).Some?
    ensures samples + Gather(flash, nextSeq, boot, seqNo, room)
        == samples + [SampleFor(flash, boot, seqNo).value] + Gather(flash, nextSeq, boot, seqNo + 1, room - 1)
  {
  }

  lemma GatherStops(flash: map<int, FlashRecord>, nextSeq: int, boot: int, seqNo: int, room: nat,
                    samples: seq<SampleFields>)
    requires seqNo >= nextSeq || room == 0 || SampleFor(flash, boot, seqNo).None?
    ensures samples + Gather(flash, nextSeq, boot, seqNo, room) == samples
  {
  }

  /** The batch-building loop: stop when full, at the newest record, or at a boot boundary. */
  method GatherSamples(flash: map<int, FlashRecord>, nextSeq: int, boot: int, first: int)
    returns (samples: seq<SampleFields>)
    ensures samples == Gather(flash, nextSeq, boot, first, BATCH_MAX_SAMPLES)
  {
    hide Gather, SampleFor;
    samples := [];
    var seqNo, room := first, BATCH_MAX_SAMPLES;
    while seqNo < nextSeq && room > 0
      invariant 0 <= room
      invariant samples + Gather(flash, nextSeq, boot, seqNo, room)
          == Gather(flash, nextSeq, boot, first, BATCH_MAX_SAMPLES)
      decreases room
    {
      var s := SampleFor(flash, boot, seqNo);
      if s.None? {
        GatherStops(flash, nextSeq, boot, seqNo, room, samples);
        return;
      }
      GatherNext(flash, nextSeq, boot, seqNo, room, samples);
      samples := samples + [s.value];
      seqNo, room := seqNo + 1, room - 1;
    }
    GatherStops(flash, nextSeq, boot, seqNo, room, samples);
  }

  // ── The object ─────────────────────────────────────────────────────

  class SimNode {
    const config: Config
    var bootId: int
    var nextSeq: int
    var oldestSeq: int
    var ackedThrough: int
    var bootUnixS: int
    var flash: map<int, FlashRecord>
    var epochs: map<int, int>

    ghost predicate Valid()
      reads this
    {
      GoodCapacity(config.capacity) && 1 <= oldestSeq <= nextSeq
    }

    /** The node's state as a value. */
    ghost function Value(): Node
      reads this
    {
      Node(bootId, nextSeq, oldestSeq, ackedThrough, bootUnixS, flash, epochs)
    }

    constructor Fresh(c: Config, bootAt: int)
      requires GoodCapacity(c.capacity)
      ensures Valid() && Value() == NewNode(bootAt) && config == c
    {
      config, bootId, nextSeq, oldestSeq, ackedThrough := c, 1, 1, 1, 0;
      bootUnixS, flash, epochs := bootAt, map[], map[];
    }

    /** A node for any good capacity; the RangeError for any other. */
    static method Create(c: Config, bootAt: int) returns (r: Result<SimNode, string>)
      ensures r.Ok? <==> GoodCapacity(c.capacity)
      ensures r.Ok? ==> fresh(r.value) && r.value.Valid() && r.value.Value() == NewNode(bootAt) && r.value.config == c
    {
      if c.capacity % RECORDS_PER_SECTOR != 0 || c.capacity < 2 * RECORDS_PER_SECTOR {
        return Err("capacity must be whole sectors, at least two");
      }
      var n := new SimNode.Fresh(c, bootAt);
      return Ok(n);
    }

    /** Spend the next seq; once per sector that costs a sector of old records. */
    method AppendSeq() returns (seqNo: int)
      requires Valid()
      modifies this`nextSeq, this`oldestSeq, this`flash
      ensures Valid() && seqNo == old(nextSeq) && Value() == Append(config.capacity, old(Value()))
    {
      seqNo := nextSeq;
      var lap := config.capacity - RECORDS_PER_SECTOR;
      assert Without(flash, oldestSeq, oldestSeq) == flash;
      if (seqNo - 1) % config.capacity % RECORDS_PER_SECTOR == 0 && seqNo > lap {
        var survivor := seqNo - lap;
        flash := DeleteRange(flash, oldestSeq, survivor);
        if survivor > oldestSeq {
          oldestSeq := survivor;
        }
      }
      nextSeq := seqNo + 1;
    }

    /** Store a reading under the next seq, with the flags the policy band gives it. */
    method TakeSample(nowUnixS: int, centiC: Option<int>) returns (seqNo: int)
      requires Valid()
      modifies this`nextSeq, this`oldestSeq, this`flash
      ensures Valid() && seqNo == old(nextSeq) && Value() == Sample(config, old(Value()), nowUnixS, centiC)
    {
      seqNo := AppendSeq();
      var flags := if centiC.None? then SENSOR_ERROR
                   else if centiC.value >= config.bandMin && centiC.value <= config.bandMax then 0 else POLICY_REJECT;
      var centi := if centiC.Some? then centiC.value else TEMP_INVALID;
      flash := flash[seqNo := FlashRecord(bootId, nowUnixS - bootUnixS, centi, flags)];
    }

    /** A seq that leaves no readable record, as when power is lost while it is written. */
    method BurnSeq() returns (seqNo: int)
      requires Valid()
      modifies this`nextSeq, this`oldestSeq, this`flash
      ensures Valid() && seqNo == old(nextSeq) && Value() == Append(config.capacity, old(Value()))
    {
      seqNo := AppendSeq();
    }

    method Restart(nowUnixS: int)
      requires Valid()
      modifies this`bootId, this`bootUnixS
      ensures Valid() && Value() == Reboot(old(Value()), nowUnixS)
    {
      bootId := bootId + 1;
      bootUnixS := nowUnixS;
    }

    /** The pointer is set, not raised: a lower value is a replay request. */
    method HandleAck(acked: int, hostUnixS: int, nowUnixS: int)
      requires Valid()
      modifies this`ackedThrough, this`epochs
      ensures Valid() && Value() == ApplyAck(old(Value()), acked, hostUnixS, nowUnixS)
    {
      ackedThrough := Min(acked, nextSeq - 1);
      var up := nowUnixS - bootUnixS;
      if hostUnixS > up {
        epochs := epochs[bootId := hostUnixS - up];
      }
    }

    /** The bytes of the node's next batch; None only when all is acked. */
    method BuildBatch(nowUnixS: int) returns (r: Option<Result<seq<byte>, CodecError>>)
      requires Valid()
      ensures r == Payload(config, Value(), nowUnixS)
    {
      var first := Max(ackedThrough + 1, oldestSeq);
      if nextSeq <= first {
        return None;
      }
      var boot := if first in flash then flash[first].bootId else bootId;
      var samples := GatherSamples(flash, nextSeq, boot, first);
      var lost := if ackedThrough + 1 < oldestSeq then oldestSeq - 1 else 0;
      var encoded := EncodeBatch(
        HeaderFields(first, boot, bootId, nowUnixS - bootUnixS, if boot in epochs then epochs[boot] else 0,
                     lost, config.intervalS, config.bandMin, config.bandMax, config.logId, 0),
        samples);
      return Some(encoded);
    }
  }
}
