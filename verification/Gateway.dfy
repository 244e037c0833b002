/** The gateway between the radio and the serial port, and the whole path a batch and its ack take (sim.ts). */
module Gateway {
  import opened Prelude
  import opened Hex
  import opened Records
  import opened BatchCodec
  import opened Plan
  import opened Rebuild
  import opened Store
  import opened Node
  import opened SerialLines
  import opened HostBridge
  import Bytes
  import Cell
  import Crc32

  const DOMAIN_MESH_TELEMETRY := 0x00f1_0030
  const GATEWAY_MAC := "02:00:5e:c0:1d:00"

  /** A sender's owner id: its MAC in 16 bytes. */
  function OwnerId(mac: MacBytes): (o: seq<byte>)
    ensures |o| == 16 && o[..6] == mac
  {
    mac + seq(10, _ => 0)
  }

  /** The cell the radio carries for a payload, and the TL line the gateway prints for it; None where either throws. */
  function CarriedLine(sha: Cell.Sha, mac: string, payload: seq<byte>, uptimeS: int): Option<string> {
    var bytes := MacToBytes(mac);
    if bytes.None? then None else
      var cell := Cell.MintResult(sha, Cell.TypeBatch(sha), payload, OwnerId(bytes.value), uptimeS * 1000,
          DOMAIN_MESH_TELEMETRY);
      if cell.None? then None else FormatTl(mac, cell.value)
  }

  /** The ack cell's payload as the node reads it; None where the node or the gateway cannot. */
  function AckOf(sha: Cell.Sha, ak: AkLine, gateway: MacBytes): Option<Ack> {
    var payload := EncodeAck(ak.mac, ak.ackedThrough, ak.hostUnixS);
    if payload.None? then None else
      var cell := Cell.Minted(sha, Cell.TypeAck(sha), payload.value, OwnerId(gateway), 0, DOMAIN_MESH_TELEMETRY);
      var parsed := Cell.Parse(sha, cell);
      if parsed.None? || parsed.value.kind != Cell.Ack then None
      else DecodeAck(parsed.value.payload[..Min(parsed.value.payloadTotal, |parsed.value.payload|)])
  }

  /** gatewayToNode: the node after an AK line, or None where the gateway or the node throws. */
  function ToNode(sha: Cell.Sha, mac: string, n: Node, akLine: string, nowUnixS: int): Option<Node> {
    var ak, gateway := ParseAk(akLine), MacToBytes(GATEWAY_MAC);
    if ak.None? || gateway.None? then None else
      var got := AckOf(sha, ak.value, gateway.value);
      if got.None? then None
      else if got.value.targetMac != mac then Some(n)
      else Some(ApplyAck(n, got.value.ackedThrough, got.value.hostUnixS, nowUnixS))
  }

  // ── Batches ────────────────────────────────────────────────────────

  lemma PaddedPrefix(payload: seq<byte>)
    requires |payload| <= Cell.PAYLOAD_SIZE
    ensures Cell.Padded(payload)[..|payload|] == payload
  {
  }

  lemma ParsedBatchIsRead(sha: Cell.Sha, mac: MacBytes, cell: seq<byte>, payload: seq<byte>, timestampMs: int)
    requires |payload| <= Cell.PAYLOAD_SIZE
    requires Cell.ReadsBack(Cell.Parse(sha, cell), sha, Cell.TypeBatch(sha), payload, OwnerId(mac), timestampMs,
        DOMAIN_MESH_TELEMETRY)
    ensures CellBatch(sha, MacToString(mac), cell) == Decode(payload)
  {
    PaddedPrefix(payload);
  }

  /** The cell that carries a payload for this MAC. */
  function BatchCell(sha: Cell.Sha, mac: MacBytes, payload: seq<byte>, uptimeS: int): (cell: seq<byte>)
    requires |payload| <= Cell.PAYLOAD_SIZE
    ensures |cell| == Cell.CELL_SIZE
  {
    Cell.Minted(sha, Cell.TypeBatch(sha), payload, OwnerId(mac), uptimeS * 1000, DOMAIN_MESH_TELEMETRY)
  }

  /** A batch cell is accepted from the MAC that owns it, with whatever its payload decodes to. */
  lemma BatchCellIsAccepted(sha: Cell.Sha, mac: MacBytes, payload: seq<byte>, uptimeS: int)
    requires |payload| <= Cell.PAYLOAD_SIZE
    ensures CellBatch(sha, MacToString(mac), BatchCell(sha, mac, payload, uptimeS)) == Decode(payload)
  {
    Cell.ParseMinted(sha, Cell.TypeBatch(sha), payload, OwnerId(mac), uptimeS * 1000, DOMAIN_MESH_TELEMETRY);
    ParsedBatchIsRead(sha, mac, BatchCell(sha, mac, payload, uptimeS), payload, uptimeS * 1000);
  }

  /** A payload the codec wrote decodes to the batch it means, and fits a cell. */
  lemma PayloadDecodes(h: HeaderFields, samples: seq<SampleFields>, p: seq<byte>)
    requires EncodeResult(h, samples) == Ok(p)
    ensures |p| <= Cell.PAYLOAD_SIZE && Decode(p) == Some(Meaning(h, samples)) && Decoded(Meaning(h, samples))
  {
    assert StartsWith(p, h, samples);
    DecodeEncoded(p, h, samples);
  }

  lemma FrameIsClassified(mac: MacBytes, cell: seq<byte>)
    requires |cell| == Cell.CELL_SIZE
    ensures FormatTl(MacToString(mac), cell).Some?
    ensures Classify(TrimRight(FormatTl(MacToString(mac), cell).value)) == Tl(MacToString(mac), cell)
  {
    hide Classify, TlFrame, MacToString, TrimLeft, Crc32.Crc;
    MacRoundTrip(mac);
    var f := TlFrame(mac, cell, Crc32.Crc(cell));
    FrameShape(mac, cell, Crc32.Crc(cell));
    TrimRightKeeps(f, "\n");
    FrameIsRecovered("", mac, cell, "");
    assert "" + f + "" == f;
  }

  lemma LineIsOfCell(sha: Cell.Sha, mac: MacBytes, payload: seq<byte>, uptimeS: int)
    requires |payload| <= Cell.PAYLOAD_SIZE
    ensures CarriedLine(sha, MacToString(mac), payload, uptimeS)
        == FormatTl(MacToString(mac), BatchCell(sha, mac, payload, uptimeS))
  {
    MacRoundTrip(mac);
  }

  lemma FrameIsAccepted(sha: Cell.Sha, line: string, mac: string, cell: seq<byte>, b: DecodedBatch)
    requires Classify(line) == Tl(mac, cell) && CellBatch(sha, mac, cell) == Some(b)
    ensures Accepted(sha, line) == Some((mac, b))
  {
  }

  /** Whatever batch a node can build, its line is accepted as exactly that batch. */
  lemma BatchCrossesTheWire(sha: Cell.Sha, c: Config, n: Node, nowUnixS: int, p: seq<byte>)
    requires IsCanonMac(c.mac) && Payload(c, n, nowUnixS) == Some(Ok(p))
    ensures CarriedLine(sha, c.mac, p, UptimeS(n, nowUnixS)).Some?
    ensures Accepted(sha, TrimRight(CarriedLine(sha, c.mac, p, UptimeS(n, nowUnixS)).value))
        == Some((c.mac, BatchNow(c, n, nowUnixS)))
    ensures Decoded(BatchNow(c, n, nowUnixS))
  {
    CanonIsStable(c.mac);
    PayloadDecodes(BatchHeaderNow(c, n, nowUnixS), BatchSamples(n), p);
    PayloadCrosses(sha, MacToBytes(c.mac).value, p, UptimeS(n, nowUnixS), BatchNow(c, n, nowUnixS));
  }

  lemma PayloadCrosses(sha: Cell.Sha, mac: MacBytes, p: seq<byte>, uptimeS: int, b: DecodedBatch)
    requires |p| <= Cell.PAYLOAD_SIZE && Decode(p) == Some(b)
    ensures CarriedLine(sha, MacToString(mac), p, uptimeS).Some?
    ensures Accepted(sha, TrimRight(CarriedLine(sha, MacToString(mac), p, uptimeS).value))
        == Some((MacToString(mac), b))
  {
    var cell := BatchCell(sha, mac, p, uptimeS);
    BatchCellIsAccepted(sha, mac, p, uptimeS);
    LineIsOfCell(sha, mac, p, uptimeS);
    FrameIsClassified(mac, cell);
    FrameIsAccepted(sha, TrimRight(FormatTl(MacToString(mac), cell).value), MacToString(mac), cell, b);
  }

  /** The line a payload becomes: a frame of the sender's MAC around a cell that names it, its clock and its size. */
  lemma LineTellsTheCell(sha: Cell.Sha, mac: MacBytes, payload: seq<byte>, uptimeS: int)
    requires |payload| <= Cell.PAYLOAD_SIZE && 0 <= uptimeS <= U32_MAX
    ensures CarriedLine(sha, MacToString(mac), payload, uptimeS).Some?
    ensures var line := Classify(TrimRight(CarriedLine(sha, MacToString(mac), payload, uptimeS).value));
            && line.Tl? && line.mac == MacToString(mac) && |line.cell| == 1024
            && var c := line.cell;
               && c[30..62] == sha(Cell.Ascii("templog.batch.v0")) && c[62..68] == mac
               && Bytes.ReadU32(c, 24) == 0xf1_0030 && Bytes.ReadU64(c, 78) == 1000 * uptimeS
               && Bytes.ReadU32(c, 90) == |payload| && c[256..256 + |payload|] == payload
               && c[224..256] == sha(c[256..1024])
  {
    hide Classify, TrimRight, FormatTl, MacToString, Cell.Minted, Cell.Ascii, Bytes.ReadU32, Bytes.ReadU64, CarriedLine;
    LineIsOfCell(sha, mac, payload, uptimeS);
    FrameIsClassified(mac, BatchCell(sha, mac, payload, uptimeS));
    Cell.CellLayout(sha, Cell.TypeBatch(sha), payload, OwnerId(mac), uptimeS * 1000, DOMAIN_MESH_TELEMETRY);
    hide OwnerId;
    var c := BatchCell(sha, mac, payload, uptimeS);
    assert c[62..68] == c[62..78][..6];
  }

  // ── What the bridge must not take ──────────────────────────────────

  /** A framed cell is accepted as its batch or not at all. */
  lemma FramedCellIsDecided(sha: Cell.Sha, mac: MacBytes, cell: seq<byte>, line: string)
    requires |cell| == Cell.CELL_SIZE && FormatTl(MacToString(mac), cell) == Some(line)
    requires forall b :: !Carries(sha, MacToString(mac), cell, b)
    ensures !Delivers(sha, TrimRight(line))
  {
    hide Carries, Classify, FormatTl, MacToString, TrimRight;
    FrameIsClassified(mac, cell);
  }

  /** A batch whose payload was changed on the radio to one of another digest stores nothing and gets no answer. */
  lemma GarbledPayloadIsRefused(sha: Cell.Sha, mac: MacBytes, payload: seq<byte>, uptimeS: int, garbled: seq<byte>,
      line: string, logs: map<LogKey, LogState>, journal: seq<Line>, nowUnixS: real, appendFails: bool)
    requires |payload| <= Cell.PAYLOAD_SIZE == |garbled| && sha(garbled) != sha(Cell.Padded(payload))
    requires FormatTl(MacToString(mac), BatchCell(sha, mac, payload, uptimeS)[..Cell.OFF_PAYLOAD] + garbled)
        == Some(line)
    ensures Handled(sha, logs, journal, TrimRight(line), nowUnixS, appendFails) == Outcome(Silence, logs, journal)
  {
    hide FormatTl, TrimRight, BatchCell, MacToString, Delivers, Handled, Cell.Padded;
    GarbledCarriesNothing(sha, mac, payload, uptimeS, garbled);
    FramedCellIsDecided(sha, mac, BatchCell(sha, mac, payload, uptimeS)[..Cell.OFF_PAYLOAD] + garbled, line);
    OthersAreRefused(sha, logs, journal, TrimRight(line), nowUnixS, appendFails);
  }

  lemma GarbledCarriesNothing(sha: Cell.Sha, mac: MacBytes, payload: seq<byte>, uptimeS: int, garbled: seq<byte>)
    requires |payload| <= Cell.PAYLOAD_SIZE == |garbled| && sha(garbled) != sha(Cell.Padded(payload))
    ensures var heard := BatchCell(sha, mac, payload, uptimeS)[..Cell.OFF_PAYLOAD] + garbled;
            forall b :: !Carries(sha, MacToString(mac), heard, b)
  {
    hide Decode, MacToString, Cell.Ascii, Cell.Minted, Cell.Padded, Cell.FrontByte, Bytes.ReadU32;
    var cell := BatchCell(sha, mac, payload, uptimeS);
    var heard := cell[..Cell.OFF_PAYLOAD] + garbled;
    Cell.MintedRegions(sha, Cell.TypeBatch(sha), payload, OwnerId(mac), uptimeS * 1000, DOMAIN_MESH_TELEMETRY);
    assert heard[224..256] == cell[224..256] && heard[256..1024] == garbled;
  }

  /** So does a batch one node owns that is heard from another. */
  lemma ForeignBatchIsRefused(sha: Cell.Sha, owner: MacBytes, payload: seq<byte>, uptimeS: int, sender: MacBytes,
      line: string, logs: map<LogKey, LogState>, journal: seq<Line>, nowUnixS: real, appendFails: bool)
    requires |payload| <= Cell.PAYLOAD_SIZE && owner != sender
    requires FormatTl(MacToString(sender), BatchCell(sha, owner, payload, uptimeS)) == Some(line)
    ensures Handled(sha, logs, journal, TrimRight(line), nowUnixS, appendFails) == Outcome(Silence, logs, journal)
  {
    var cell := BatchCell(sha, owner, payload, uptimeS);
    Cell.MintedRegions(sha, Cell.TypeBatch(sha), payload, OwnerId(owner), uptimeS * 1000, DOMAIN_MESH_TELEMETRY);
    Cell.FrontWords(cell, Cell.TypeBatch(sha), OwnerId(owner), uptimeS * 1000, DOMAIN_MESH_TELEMETRY, |payload|);
    assert cell[62..68] == owner;
    MacRoundTrip(owner);
    MacRoundTrip(sender);
    hide FormatTl, TrimRight, BatchCell, MacToString, Delivers, Handled;
    FramedCellIsDecided(sha, sender, cell, line);
    OthersAreRefused(sha, logs, journal, TrimRight(line), nowUnixS, appendFails);
  }

  // ── Acks ───────────────────────────────────────────────────────────

  lemma AckCellReads(sha: Cell.Sha, mac: MacBytes, gateway: MacBytes, through: int, hostUnixS: int)
    requires IsU32(through) && IsU32(hostUnixS) && Cell.TypeBatch(sha) != Cell.TypeAck(sha)
    ensures AckOf(sha, AkLine(MacToString(mac), through, hostUnixS), gateway)
        == Some(Ack(MacToString(mac), through, hostUnixS))
  {
    MacRoundTrip(mac);
    DecodeAckEncoded(MacToString(mac), through, hostUnixS);
    var p := EncodeAck(MacToString(mac), through, hostUnixS).value;
    Cell.ParseMinted(sha, Cell.TypeAck(sha), p, OwnerId(gateway), 0, DOMAIN_MESH_TELEMETRY);
    PaddedPrefix(p);
  }

  lemma GatewayMacReads()
    ensures MacToBytes(GATEWAY_MAC).Some?
  {
    assert IsColonMac(GATEWAY_MAC);
  }

  lemma ReadAckIsApplied(sha: Cell.Sha, mac: string, n: Node, akLine: string, ak: AkLine, got: Ack, nowUnixS: int)
    requires ParseAk(akLine) == Some(ak) && MacToBytes(GATEWAY_MAC).Some?
    requires AckOf(sha, ak, MacToBytes(GATEWAY_MAC).value) == Some(got)
    ensures ToNode(sha, mac, n, akLine, nowUnixS)
         == Some(if got.targetMac == mac then ApplyAck(n, got.ackedThrough, got.hostUnixS, nowUnixS) else n)
  {
  }

  /** Only a canonical MAC prints back as itself. */
  lemma CanonIffStable(mac: string, b: MacBytes)
    requires MacToBytes(mac) == Some(b)
    ensures MacToString(b) == mac <==> IsCanonMac(mac)
  {
    MacStringIsCanon(b);
    if IsCanonMac(mac) {
      CanonIsStable(mac);
    }
  }

  /** An AK line moves the node whose MAC it names, and no other node. */
  lemma AckMovesItsNode(sha: Cell.Sha, target: string, mac: string, n: Node, through: int, hostUnixS: int,
      nowUnixS: int)
    requires Cell.TypeBatch(sha) != Cell.TypeAck(sha) && MacToBytes(target).Some?
    requires IsU32(through) && IsU32(hostUnixS)
    ensures FormatAk(target, through, hostUnixS).Some?
    ensures ToNode(sha, mac, n, FormatAk(target, through, hostUnixS).value, nowUnixS)
         == Some(if mac == MacToString(MacToBytes(target).value) then ApplyAck(n, through, hostUnixS, nowUnixS) else n)
  {
    hide AkText, MacToString, ApplyAck, ParseAk, AckOf, IsColonMac;
    var b := MacToBytes(target).value;
    GatewayMacReads();
    NewlineIsSpace();
    AkReadsBack(b, through, hostUnixS, "\n");
    AckCellReads(sha, b, MacToBytes(GATEWAY_MAC).value, through, hostUnixS);
    ReadAckIsApplied(sha, mac, n, AkText(b, through, hostUnixS) + "\n", AkLine(MacToString(b), through, hostUnixS),
                     Ack(MacToString(b), through, hostUnixS), nowUnixS);
  }

  /**
   * A node hears the acks sent to its own MAC exactly when that is written in
   * canonical form; otherwise each is taken for another node's.
   */
  lemma AckCrossesTheWire(sha: Cell.Sha, mac: string, n: Node, through: int, hostUnixS: int, nowUnixS: int)
    requires Cell.TypeBatch(sha) != Cell.TypeAck(sha) && MacToBytes(mac).Some?
    requires IsU32(through) && IsU32(hostUnixS)
    ensures FormatAk(mac, through, hostUnixS).Some?
    ensures ToNode(sha, mac, n, FormatAk(mac, through, hostUnixS).value, nowUnixS)
         == Some(if IsCanonMac(mac) then ApplyAck(n, through, hostUnixS, nowUnixS) else n)
  {
    AckMovesItsNode(sha, mac, mac, n, through, hostUnixS, nowUnixS);
    CanonIffStable(mac, MacToBytes(mac).value);
  }

  lemma NewlineIsSpace()
    ensures AllSpace("\n")
  {
  }

  // ── The whole path ─────────────────────────────────────────────────

  lemma StoredOutcome(logs: map<LogKey, LogState>, journal: seq<Line>, mac: string, b: DecodedBatch, nowUnixS: int)
    requires IsCanonMac(mac) && LogsFit(logs) && Decoded(b) && nowUnixS >= 0
    ensures var key, o := LogKey(mac, b.header.logId), Stored(logs, journal, mac, b, nowUnixS as real, false);
            var prev := Look(logs, key);
            && IsU32(NextLog(prev, b).through)
            && o.logs == logs[key := NextLog(prev, b)]
            && o.journal == journal + Lines(JournalOf(prev, key, b, nowUnixS))
            && o.reply == ReplyOf(AckToSend(mac, NextLog(prev, b).through, Min(nowUnixS, U32_MAX)))
  {
    CanonIsStable(mac);
    NextFits(Look(logs, LogKey(mac, b.header.logId)), b);
    assert (nowUnixS as real).Floor == nowUnixS;
  }

  /**
   * The wire is lossless: for every batch a node can build, going through cell,
   * TL line, bridge, AK line and ack cell does to the store and the node what
   * ingesting that batch and applying its ack does, and the bridge never answers
   * with silence.
   */
  lemma WireIsLossless(sha: Cell.Sha, c: Config, n: Node, logs: map<LogKey, LogState>, journal: seq<Line>,
      nowUnixS: int, p: seq<byte>)
    requires Cell.TypeBatch(sha) != Cell.TypeAck(sha) && IsCanonMac(c.mac) && LogsFit(logs) && nowUnixS >= 0
    requires Payload(c, n, nowUnixS) == Some(Ok(p))
    ensures var line, key := CarriedLine(sha, c.mac, p, UptimeS(n, nowUnixS)), LogKey(c.mac, c.logId);
            var next := NextLog(Look(logs, key), BatchNow(c, n, nowUnixS));
            && line.Some?
            && var o := Handled(sha, logs, journal, TrimRight(line.value), nowUnixS as real, false);
               && o.reply.Ak?
               && o.logs == logs[key := next]
               && o.journal == journal + Lines(JournalOf(Look(logs, key), key, BatchNow(c, n, nowUnixS), nowUnixS))
               && ToNode(sha, c.mac, n, o.reply.line, nowUnixS)
                  == Some(ApplyAck(n, next.through, Min(nowUnixS, U32_MAX), nowUnixS))
  {
    var b := BatchNow(c, n, nowUnixS);
    BatchCrossesTheWire(sha, c, n, nowUnixS, p);
    CanonIsStable(c.mac);
    StoredOutcome(logs, journal, c.mac, b, nowUnixS);
    AckCrossesTheWire(sha, c.mac, n, NextLog(Look(logs, LogKey(c.mac, c.logId)), b).through, Min(nowUnixS, U32_MAX),
        nowUnixS);
  }
}
