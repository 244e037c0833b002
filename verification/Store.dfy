/** The bridge's store: ingest, with its journal (store.ts). */
module Store {
  import opened Prelude
  import opened Closure
  import opened Hex
  import opened Records
  import opened Plan
  import opened Rebuild
  import opened Recovery

  datatype IngestError = BadClock | NotAMac | JournalFailed

  method AddAllTo(held: set<int>, added: seq<int>) returns (seen: set<int>)
    ensures seen == held + set q | q in added
  {
    seen := held;
    for i := 0 to |added|
      invariant seen == held + set q | q in added[..i]
    {
      assert added[..i + 1] == added[..i] + [added[i]];
      seen := seen + {added[i]};
    }
    assert added[..|added|] == added;
  }

  class TempLogStore {
    var logs: map<LogKey, LogState>
    /** the file's lines: what survives the process */
    var journal: seq<Line>
    const skippedLines: nat

    ghost predicate Valid()
      reads this
    {
      Mirrors(logs, journal)
    }

    ghost predicate Fits()
      reads this
    {
      LogsFit(logs)
    }

    /** Open on a journal of any contents; the logs are what Rebuild makes of it. */
    constructor Open(lines: seq<Line>)
      ensures journal == lines && skippedLines == Skipped(lines)
      ensures logs == RebuildAll(lines) && Fits()
    {
      RebuiltFits(lines);
      var rebuilt, skipped := RebuildLogs(lines);
      logs := rebuilt;
      journal := lines;
      skippedLines := skipped;
    }

    /**
     * Ingest is all or nothing: on an error, or if the append is refused, logs and
     * journal stay as they were; otherwise both move on by exactly the plan.
     */
    method Ingest(mac: string, batch: DecodedBatch, nowUnixS: real, appendFails: bool)
      returns (r: Result<IngestResult, IngestError>)
      modifies this
      ensures nowUnixS < 0.0 ==> r == Err(BadClock)
      ensures nowUnixS >= 0.0 && MacToBytes(mac).None? ==> r == Err(NotAMac)
      ensures nowUnixS >= 0.0 && MacToBytes(mac).Some? ==>
                var key := LogKey(MacToString(MacToBytes(mac).value), batch.header.logId);
                var prev := Look(old(logs), key);
                var records := JournalOf(prev, key, batch, nowUnixS.Floor);
                if appendFails && records != [] then r == Err(JournalFailed) else
                  && r == Ok(ResultOf(prev, key, batch, nowUnixS.Floor))
                  && logs == old(logs)[key := NextLog(prev, batch)]
                  && journal == old(journal) + Lines(records)
      ensures r.Err? ==> logs == old(logs) && journal == old(journal)
      ensures old(Valid()) && Decoded(batch) ==> Valid()
      ensures old(Fits()) && Decoded(batch) ==> Fits()
    {
      if nowUnixS < 0.0 {
        return Err(BadClock);
      }
      var bytes := MacToBytes(mac);
      if bytes.None? {
        return Err(NotAMac);
      }
      var key := LogKey(MacToString(bytes.value), batch.header.logId);
      MacStringIsCanon(bytes.value);
      r := IngestFor(key, batch, nowUnixS.Floor, appendFails);
    }

    /** Ingest for a known key: the plan is appended and committed, or nothing changes. */
    method IngestFor(key: LogKey, batch: DecodedBatch, nowUnixS: int, appendFails: bool)
      returns (r: Result<IngestResult, IngestError>)
      modifies this
      ensures var prev := Look(old(logs), key);
              var records := JournalOf(prev, key, batch, nowUnixS);
              if appendFails && records != [] then
                r == Err(JournalFailed) && logs == old(logs) && journal == old(journal)
              else
                && r == Ok(ResultOf(prev, key, batch, nowUnixS))
                && logs == old(logs)[key := NextLog(prev, batch)]
                && journal == old(journal) + Lines(records)
      ensures old(Valid()) && IsLogKey(key) && Decoded(batch) ==> Valid()
      ensures old(Fits()) && Decoded(batch) ==> Fits()
    {
      hide Fresh, Highest, Close, JournalOf, Numbers, Decoded;
      var prev := Look(logs, key);
      var plan := PlanBatch(prev, key, batch, nowUnixS);
      if |plan.records| > 0 {
        if appendFails {
          return Err(JournalFailed);
        }
        journal := journal + Lines(plan.records);
      }
      var seen := AddAllTo(SeenOf(prev), plan.added);
      AddedAreTheNewSeqs(prev, batch, plan.added);
      logs := logs[key := LogState(plan.result.through, seen, plan.maxSeq)];
      if old(Valid()) && IsLogKey(key) && Decoded(batch) {
        IngestMirrors(Bridge(old(logs), old(journal), []), key, batch, nowUnixS);
      }
      if old(Fits()) && Decoded(batch) {
        NextFits(prev, batch);
      }
      return Ok(plan.result);
    }
  }

  // ── Everything fits 32 bits ────────────────────────────────────────

  /** A pointer an AK line can carry, and held seqs that keep it so. */
  ghost predicate LogFits(st: LogState) {
    IsU32(st.through) && forall q :: q in st.seen ==> IsU32(q)
  }

  ghost predicate LogsFit(logs: map<LogKey, LogState>) {
    forall k :: k in logs ==> LogFits(logs[k])
  }

  lemma ClosureFits(base: int, held: set<int>)
    requires IsU32(base) && forall q :: q in held ==> IsU32(q)
    ensures IsU32(Close(base, held))
  {
    CloseStops(base, held);
    assert base < Close(base, held) ==> Close(base, held) in held;
  }

  lemma NextFits(prev: Option<LogState>, b: DecodedBatch)
    requires (prev.Some? ==> LogFits(prev.value)) && Decoded(b)
    ensures LogFits(NextLog(prev, b))
  {
    ClosureFits(Max(ThroughBefore(prev, b.header), b.header.lostThrough), NextLog(prev, b).seen);
  }

  ghost predicate AccFits(a: Acc) {
    && (a.start.Some? ==> IsU32(a.start.value)) && (a.firstSampleSeq.Some? ==> IsU32(a.firstSampleSeq.value))
    && IsU32(a.lossMax) && forall q :: q in a.seen ==> IsU32(q)
  }

  lemma {:induction false} FoldFits(lines: seq<Line>, key: LogKey)
    ensures Fold(lines, key).Some? ==> AccFits(Fold(lines, key).value)
  {
    if lines != [] {
      FoldFits(lines[..|lines| - 1], key);
    }
  }

  /** Whatever a file holds, edited by hand or not, the rebuilt pointers fit. */
  lemma RebuiltFits(lines: seq<Line>)
    ensures LogsFit(RebuildAll(lines))
  {
    forall k | k in RebuildAll(lines) ensures LogFits(RebuildAll(lines)[k]) {
      FoldFits(lines, k);
      var a := Fold(lines, k).value;
      ClosureFits(Max(StartOf(a), a.lossMax), a.seen);
    }
  }

  lemma AddedAreTheNewSeqs(prev: Option<LogState>, b: DecodedBatch, added: seq<int>)
    requires added == Numbers(Fresh(b.samples, SeenOf(prev)))
    ensures SeenOf(prev) + (set q | q in added) == NextLog(prev, b).seen
  {
    var unseen := Fresh(b.samples, SeenOf(prev));
    FreshFacts(b.samples, SeenOf(prev));
    assert (set q | q in added) == SeqNos(unseen) by {
      forall q | q in SeqNos(unseen) ensures q in added {
        var i :| 0 <= i < |unseen| && unseen[i].seqNo == q;
        assert added[i] == q;
      }
    }
  }
}
