/** What one serial line does at the bridge: bridge.ts's handleLine and pump. */
module HostBridge {
  import opened Prelude
  import opened Hex
  import opened Records
  import opened BatchCodec
  import opened Plan
  import opened Rebuild
  import opened SerialLines
  import opened Store
  import Bytes
  import Cell
  import Recovery

  /** The batch in a cell heard from `mac`, if every check on it holds. */
  function CellBatch(sha: Cell.Sha, mac: string, bytes: seq<byte>): Option<DecodedBatch> {
    var cell := Cell.Parse(sha, bytes);
    if cell.None? || cell.value.kind != Cell.Batch || cell.value.ownerMac != mac || !cell.value.payloadRootOk then None
    else Decode(cell.value.payload[..Min(cell.value.payloadTotal, Cell.PAYLOAD_SIZE)])
  }

  /** The batch a line delivers, with its sender; None unless line, cell and batch all check. */
  function Accepted(sha: Cell.Sha, line: string): Option<(string, DecodedBatch)> {
    var c := Classify(line);
    if !c.Tl? then None else
      var batch := CellBatch(sha, c.mac, c.cell);
      if batch.None? then None else Some((c.mac, batch.value))
  }

  /** How HandleLine can end: it returns no line, returns an AK line, or throws. */
  datatype Reply = Silence | Ak(line: string) | Thrown

  function ReplyOf(ack: AckToSend): Reply {
    var line := FormatAk(ack.mac, ack.ackedThrough, ack.hostUnixS);
    if line.Some? then Ak(line.value) else Thrown
  }

  datatype Outcome = Outcome(reply: Reply, logs: map<LogKey, LogState>, journal: seq<Line>)

  /** An accepted batch, stored and then acked, or neither. */
  function Stored(logs: map<LogKey, LogState>, journal: seq<Line>, mac: string, batch: DecodedBatch, nowUnixS: real,
      appendFails: bool): Outcome
  {
    if nowUnixS < 0.0 || MacToBytes(mac).None? then Outcome(Silence, logs, journal)
    else
      var key := LogKey(MacToString(MacToBytes(mac).value), batch.header.logId);
      var prev := Look(logs, key);
      var records := JournalOf(prev, key, batch, nowUnixS.Floor);
      if appendFails && records != [] then Outcome(Silence, logs, journal)
      else
        Outcome(ReplyOf(ResultOf(prev, key, batch, nowUnixS.Floor).ack), logs[key := NextLog(prev, batch)],
            journal + Lines(records))
  }

  /** One serial line, from a store's contents to its contents. */
  function Handled(sha: Cell.Sha, logs: map<LogKey, LogState>, journal: seq<Line>, line: string, nowUnixS: real,
      appendFails: bool): Outcome
  {
    var a := Accepted(sha, line);
    if a.None? then Outcome(Silence, logs, journal)
    else Stored(logs, journal, a.value.0, a.value.1, nowUnixS, appendFails)
  }

  class TempLogBridge {
    const store: TempLogStore
    const sha: Cell.Sha

    constructor (s: TempLogStore, hash: Cell.Sha)
      ensures store == s && sha == hash
    {
      store, sha := s, hash;
    }

    /** The cell's checks, in order. */
    method ReadBatch(mac: string, bytes: seq<byte>) returns (batch: Option<DecodedBatch>)
      ensures batch == CellBatch(sha, mac, bytes)
    {
      var cell := Cell.ParseCell(sha, bytes);
      if cell.None? {
        return None;
      }
      if cell.value.kind != Cell.Batch {
        return None;
      }
      if cell.value.ownerMac != mac {
        return None;
      }
      if !cell.value.payloadRootOk {
        return None;
      }
      batch := DecodeBatch(cell.value.payload[..Min(cell.value.payloadTotal, Cell.PAYLOAD_SIZE)]);
    }

    /** Store the batch, then answer with its ack; silence if it could not be stored. */
    method StoreBatch(mac: string, batch: DecodedBatch, nowUnixS: real, appendFails: bool) returns (reply: Reply)
      requires Decoded(batch)
      modifies store
      ensures Outcome(reply, store.logs, store.journal)
           == Stored(old(store.logs), old(store.journal), mac, batch, nowUnixS, appendFails)
      ensures old(store.Valid()) ==> store.Valid()
      ensures old(store.Fits()) ==> store.Fits()
    {
      var r := store.Ingest(mac, batch, nowUnixS, appendFails);
      reply := if r.Err? then Silence else ReplyOf(r.value.ack);
    }

    /**
     * Handling one line commits either the whole batch it delivers or nothing,
     * and a silent bridge has committed nothing.
     */
    method HandleLine(line: string, nowUnixS: real, appendFails: bool) returns (reply: Reply)
      modifies store
      ensures Outcome(reply, store.logs, store.journal)
           == Handled(sha, old(store.logs), old(store.journal), line, nowUnixS, appendFails)
      ensures reply == Silence ==> store.logs == old(store.logs) && store.journal == old(store.journal)
      ensures !Delivers(sha, line) ==> reply == Silence
      ensures old(store.Fits()) && nowUnixS >= 0.0 && !appendFails && Delivers(sha, line) ==> reply.Ak?
      ensures old(store.Valid()) ==> store.Valid()
      ensures old(store.Fits()) ==> store.Fits() && !reply.Thrown?
    {
      hide Delivers, Decoded;
      LineIsDecided(sha, store.logs, store.journal, line, nowUnixS, appendFails);
      SilenceStoresNothing(sha, store.logs, store.journal, line, nowUnixS, appendFails);
      var c := Classify(line);
      if !c.Tl? {
        return Silence;
      }
      var batch := ReadBatch(c.mac, c.cell);
      if batch.None? {
        return Silence;
      }
      reply := StoreBatch(c.mac, batch.value, nowUnixS, appendFails);
      if old(store.Fits()) {
        StoredDoesNotThrow(old(store.logs), old(store.journal), c.mac, batch.value, nowUnixS, appendFails);
      }
    }
  }

  // ── What is accepted ───────────────────────────────────────────────

  /** A cell the bridge must take from mac, by its bytes alone. */
  ghost predicate Carries(sha: Cell.Sha, mac: string, c: seq<byte>, b: DecodedBatch) {
    && |c| == 1024 && c[..16] == Cell.MAGIC_BYTES
    && c[30..62] == sha(Cell.Ascii("templog.batch.v0"))
    && MacToString(c[62..68]) == mac
    && c[224..256] == sha(c[256..1024])
    && Decode(c[256..256 + Min(Bytes.ReadU32(c, 90), 768)]) == Some(b)
  }

  lemma CellBatchIsExact(sha: Cell.Sha, mac: string, c: seq<byte>, b: DecodedBatch)
    ensures CellBatch(sha, mac, c) == Some(b) <==> Carries(sha, mac, c, b)
  {
    hide Decode, Bytes.ReadU32, MacToString, Cell.Ascii;
    if |c| == 1024 {
      Cell.MagicIsTheBytes(c);
      var n := Min(Bytes.ReadU32(c, 90), 768);
      assert c[256..1024][..n] == c[256..256 + n];
    }
  }

  /** A line delivers a batch exactly when it frames a cell that carries it. */
  lemma AcceptedIsExact(sha: Cell.Sha, line: string, mac: string, b: DecodedBatch)
    ensures Accepted(sha, line) == Some((mac, b)) <==>
              Classify(line).Tl? && Classify(line).mac == mac && Carries(sha, mac, Classify(line).cell, b)
  {
    hide Classify, CellBatch, Carries;
    if Classify(line).Tl? {
      CellBatchIsExact(sha, Classify(line).mac, Classify(line).cell, b);
    }
  }

  /** The line frames a cell from its own sender that carries some batch. */
  ghost predicate Delivers(sha: Cell.Sha, line: string) {
    Classify(line).Tl? && exists b :: Carries(sha, Classify(line).mac, Classify(line).cell, b)
  }

  /** A line that delivers nothing is met with silence and stores nothing. */
  lemma OthersAreRefused(sha: Cell.Sha, logs: map<LogKey, LogState>, journal: seq<Line>, line: string, nowUnixS: real,
      appendFails: bool)
    requires !Delivers(sha, line)
    ensures Handled(sha, logs, journal, line, nowUnixS, appendFails) == Outcome(Silence, logs, journal)
  {
    hide Classify, CellBatch, Carries, Stored;
    if Accepted(sha, line).Some? {
      AcceptedIsExact(sha, line, Accepted(sha, line).value.0, Accepted(sha, line).value.1);
    }
  }

  lemma DeliveredIsAccepted(sha: Cell.Sha, line: string)
    requires Delivers(sha, line)
    ensures Accepted(sha, line).Some? && Decoded(Accepted(sha, line).value.1)
    ensures MacToBytes(Accepted(sha, line).value.0).Some?
  {
    hide Classify, Carries, CellBatch, Decoded;
    var mac, cell := Classify(line).mac, Classify(line).cell;
    var b :| Carries(sha, mac, cell, b);
    AcceptedIsExact(sha, line, mac, b);
    AcceptedDecodes(sha, line);
    TakenFramesAreWhole(line);
    CanonIsStable(mac);
  }

  /** With a good clock and a journal that can be written, a line is acked exactly when it delivers a batch. */
  lemma AckedExactly(sha: Cell.Sha, logs: map<LogKey, LogState>, journal: seq<Line>, line: string, nowUnixS: real)
    requires LogsFit(logs) && nowUnixS >= 0.0
    ensures Handled(sha, logs, journal, line, nowUnixS, false).reply.Ak? <==> Delivers(sha, line)
  {
    hide Delivers, Stored, Accepted, LogsFit, Decoded;
    if Delivers(sha, line) {
      DeliveredIsAccepted(sha, line);
      var (mac, b) := Accepted(sha, line).value;
      StoredDoesNotThrow(logs, journal, mac, b, nowUnixS, false);
      StoredIsAnswered(logs, journal, mac, b, nowUnixS);
    } else {
      OthersAreRefused(sha, logs, journal, line, nowUnixS, false);
    }
  }

  lemma LineIsDecided(sha: Cell.Sha, logs: map<LogKey, LogState>, journal: seq<Line>, line: string, nowUnixS: real,
      appendFails: bool)
    ensures var o := Handled(sha, logs, journal, line, nowUnixS, appendFails);
            && (!Delivers(sha, line) ==> o == Outcome(Silence, logs, journal))
            && (LogsFit(logs) && nowUnixS >= 0.0 && !appendFails && Delivers(sha, line) ==> o.reply.Ak?)
  {
    hide Delivers, Handled, LogsFit;
    if !Delivers(sha, line) {
      OthersAreRefused(sha, logs, journal, line, nowUnixS, appendFails);
    } else if LogsFit(logs) && nowUnixS >= 0.0 && !appendFails {
      AckedExactly(sha, logs, journal, line, nowUnixS);
    }
  }

  lemma StoredIsAnswered(logs: map<LogKey, LogState>, journal: seq<Line>, mac: string, b: DecodedBatch, nowUnixS: real)
    requires nowUnixS >= 0.0 && MacToBytes(mac).Some?
    ensures Stored(logs, journal, mac, b, nowUnixS, false).reply != Silence
  {
    hide JournalOf, NextLog, MacToString, FormatAk;
  }

  lemma AckFits(mac: MacBytes, through: int, nowUnixS: int)
    requires IsU32(through) && nowUnixS >= 0
    ensures !ReplyOf(AckToSend(MacToString(mac), through, Min(nowUnixS, U32_MAX))).Thrown?
  {
    MacRoundTrip(mac);
  }

  /** An ack of a stored batch always fits its line: nothing throws once the store has committed. */
  lemma StoredDoesNotThrow(logs: map<LogKey, LogState>, journal: seq<Line>, mac: string, batch: DecodedBatch,
      nowUnixS: real, appendFails: bool)
    requires LogsFit(logs) && Decoded(batch)
    ensures !Stored(logs, journal, mac, batch, nowUnixS, appendFails).reply.Thrown?
  {
    if nowUnixS >= 0.0 && MacToBytes(mac).Some? {
      var key := LogKey(MacToString(MacToBytes(mac).value), batch.header.logId);
      NextFits(Look(logs, key), batch);
      AckFits(MacToBytes(mac).value, NextLog(Look(logs, key), batch).through, nowUnixS.Floor);
    }
  }

  /** Silence leaves the store as it was. */
  lemma SilenceStoresNothing(sha: Cell.Sha, logs: map<LogKey, LogState>, journal: seq<Line>, line: string,
      nowUnixS: real, appendFails: bool)
    ensures var o := Handled(sha, logs, journal, line, nowUnixS, appendFails);
            o.reply == Silence ==> o.logs == logs && o.journal == journal
  {
    hide Accepted, JournalOf, NextLog, ResultOf, MacToString;
  }

  lemma AcceptedDecodes(sha: Cell.Sha, line: string)
    requires Accepted(sha, line).Some?
    ensures Decoded(Accepted(sha, line).value.1)
  {
    hide Classify, Cell.Parse;
  }

  /** The AK line for a stored batch names the log and its new pointer. */
  lemma ReplyReads(mac: MacBytes, through: int, hostUnixS: int)
    requires IsU32(through) && IsU32(hostUnixS)
    ensures var r := ReplyOf(AckToSend(MacToString(mac), through, hostUnixS));
            r.Ak? && ParseAk(r.line) == Some(AkLine(MacToString(mac), through, hostUnixS))
  {
    hide MacToBytes, MacToString, AkText, ParseAk, IsColonMac;
    MacRoundTrip(mac);
    assert AllSpace("\n");
    AkReadsBack(mac, through, hostUnixS, "\n");
  }

  lemma StoredSpeaksForTheJournal(logs: map<LogKey, LogState>, journal: seq<Line>, mac: string, b: DecodedBatch,
      nowUnixS: real, appendFails: bool)
    requires Mirrors(logs, journal) && LogsFit(logs) && Decoded(b)
        && Stored(logs, journal, mac, b, nowUnixS, appendFails).reply.Ak?
    ensures var o := Stored(logs, journal, mac, b, nowUnixS, appendFails);
            && Mirrors(o.logs, o.journal) && ParseAk(o.reply.line).Some?
            && var ak := ParseAk(o.reply.line).value;
               Rebuilt(o.journal, LogKey(ak.mac, b.header.logId)).Some?
               && Rebuilt(o.journal, LogKey(ak.mac, b.header.logId)).value.through == ak.ackedThrough
  {
    var bytes := MacToBytes(mac).value;
    var key := LogKey(MacToString(bytes), b.header.logId);
    MacStringIsCanon(bytes);
    var o, next := Stored(logs, journal, mac, b, nowUnixS, appendFails), NextLog(Look(logs, key), b);
    assert o.logs == logs[key := next]
        && o.journal == journal + Lines(JournalOf(Look(logs, key), key, b, nowUnixS.Floor));
    assert o.reply == ReplyOf(AckToSend(key.mac, next.through, Min(nowUnixS.Floor, U32_MAX)));
    NextFits(Look(logs, key), b);
    Recovery.IngestMirrors(Recovery.Bridge(logs, journal, []), key, b, nowUnixS.Floor);
    ReplyReads(bytes, next.through, Min(nowUnixS.Floor, U32_MAX));
    assert Mirror(Look(o.logs, key), Fold(o.journal, key));
  }

  /** Whatever the bridge acks is what a rebuild of its journal would hold. */
  lemma AckSpeaksForTheJournal(sha: Cell.Sha, logs: map<LogKey, LogState>, journal: seq<Line>, line: string,
      nowUnixS: real, appendFails: bool)
    requires Mirrors(logs, journal) && LogsFit(logs)
        && Handled(sha, logs, journal, line, nowUnixS, appendFails).reply.Ak?
    ensures var o := Handled(sha, logs, journal, line, nowUnixS, appendFails);
            && Mirrors(o.logs, o.journal) && Accepted(sha, line).Some? && ParseAk(o.reply.line).Some?
            && var ak, logId := ParseAk(o.reply.line).value, Accepted(sha, line).value.1.header.logId;
               Rebuilt(o.journal, LogKey(ak.mac, logId)).Some?
               && Rebuilt(o.journal, LogKey(ak.mac, logId)).value.through == ak.ackedThrough
  {
    hide Accepted, Stored, ParseAk, Mirrors, LogsFit, Rebuilt;
    AcceptedDecodes(sha, line);
    StoredSpeaksForTheJournal(logs, journal, Accepted(sha, line).value.0, Accepted(sha, line).value.1, nowUnixS,
        appendFails);
  }
}
