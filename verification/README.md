# Cell-mesh: a verified model of the temperature logger and its neighbours

This project models, in Dafny, the parts of the cell-mesh repository whose
guarantees are about whole runs, and proves those guarantees.

**The temperature logger.** A node keeps readings in a wrapping flash ring and
sends them in batches over a lossy radio. A bridge journals what arrives and
acknowledges a high-water mark, `through`; an ack lets the node discard readings,
and a lower one asks for a replay.

| modules | what they model |
|---|---|
| `Closure`, `Plan`, `Confluence`, `Ledger` | what one batch, and any run of batches, does to one log |
| `Rebuild`, `Recovery`, `Store` | the journal, recovery after crashes, and the store object |
| `Node`, `FlashRing`, `EpochTable` | the node, its flash ring slot by slot, and the boot starts it remembers |
| `Protocol`, `Placement`, `Outgoing` | whole runs of one node and any number of bridges: no silent loss, placement in time, and what each batch says |
| `Bytes`, `Hex`, `BatchCodec`, `Cell`, `Bits`, `Crc32`, `SerialLines`, `Splitter` | the wire |
| `Inject` | the framed cells a host writes to a device, and the device's reader |
| `HostBridge`, `Gateway`, `Deliver` | what one line does, the whole path a batch and its ack take, and the delivery loop |
| `Replay` | sending what the journal holds again |

**Three smaller members.** `Multisig` is the in-order k-of-n signature check of
the embedded engine's host; `PaymentQueue` the paid-activation queue of the x402
bridge; `RawTx` the transaction serialiser of the payment channel and the
independent parser that checks payments, and `TxReader` a full reader the
serialiser is measured against.

## How to read it

Code that computes is a function; code that changes things step by step is a
method with its loops, or a class with its fields, proved equal to a
specification function. The lemmas are then about those functions, over every
input or every reachable state. `Closure.Close(b, held)` is the centre of the
logger: from `b`, how far the held seqs run on without a gap. `through` is always
such a closure, and most results rest on its few laws.

Runs are sequences of states, each one possible step after the last
(`Recovery.IsRun`, `Protocol.IsRun`, `PaymentQueue.IsRun`). `Protocol` has
fourteen kinds of step: time passes, a reading, a write that power cut short, a
reboot, a send; a batch or an ack delivered, copied or lost, in any order; a
bridge crash that keeps any prefix of the records being written and perhaps a
torn line; a refused append; a restart. Any bridge may receive any batch, each
keeps its own journal, and the node hears all their acks. A batch may be sent
with the boot start the simulated node remembers or with the firmware's.

What is assumed:

- An append that throws while the process lives on wrote nothing. A write that
  stops part way is modelled as a crash and a reopening.
- SHA-256 is any function to 32 bytes. Where an ack cell is read, the two type
  hashes are assumed to differ; nothing else about the hash is used.
- The signature check of one key and one signature is any predicate, and whether
  the curve could be set up is a parameter.
- The clock, and whether an append or a broadcast succeeds, are parameters.
- A node takes readings until its 32-bit seqs are used up and no longer. Batches
  whose seqs wrap are still decoded, stored and acked as the code does.
- The bridge's loop reads chunks already decoded to text.

Where the code and its comments part:

- `x402.ts` says its parser sums the outputs and throws on whatever it cannot
  parse, so that verification fails closed. It returns the largest output, and a
  transaction cut short does not always throw: once the last output's value is
  whole, a missing script, or the rest of one, is not noticed. `CutTransactionPays`
  says what a serialised transaction cut after any hex digit answers: 0 up to its
  output count, an exception until the last value is whole, the full value from
  there on. `CutPaymentIsAccepted` says exactly when the verifier takes it,
  `CutScriptStillPays` is an instance, and in the extended format the answer is
  always 0 (all in `RawTx`).
- `bridge.ts` gives a payment back when its broadcast fails. If the broadcast call
  throws, as `arc.ts` does on a JSON reply of `null`, nothing is given back and
  nothing is enqueued; the payment is refused from then on
  (`PaymentQueue.StrandedForGood`).
- `checkmultisig` calls 72 and 80 bytes an item upper bounds. An item may declare
  up to 255 bytes, and a list that runs past its bound is cut short there
  (`Multisig.PackedIsReadable`); the 32-bit product can also wrap, which `Bound`
  models.
- The simulated node keeps the last boot start it heard for every boot, the
  firmware the first one for the newest four. `Node` follows the simulator,
  `EpochTable` the firmware, and `Placement` holds for both.
- The simulated node takes a reading of any size but can only send a 16-bit one
  (`Deliver.ReadingMustFit`).
- The store's comment says a log's state is the closure whatever the order of
  batches. That holds; the number of loss events journaled on the way depends on
  the order, exactly when `Confluence.LossEventsDependOnOrder` says.
- The mark `channel-anchor.ts` writes for the extended format tells the formats
  apart, but for one plain transaction: without inputs or outputs and with
  locktime 0xef000000 its bytes are the same there (`TxReader.PlainIsUnmarked`).
- The device's line reader says an overlong line is dropped up to its newline. It
  drops one character more than the buffer holds and starts a new line there, so
  a frame after 2187 characters of noise still gets through
  (`Inject.FrameAfterNoise`).
- A node whose MAC is not written in canonical form never hears its own acks in
  the simulator, since the gateway compares text (`Gateway.AckCrossesTheWire`).

## Model

| member | source | states |
|---|---|---|
| `Closure.CloseStops` | tools/templog-bridge/store.ts:247-252 | everything from the base to the closure is held, and nothing is held just above it |
| `Closure.CloseIsLeast` | tools/templog-bridge/store.ts:247-252 | no point from the base up whose successor is not held is below the closure |
| `Closure.CloseIsUnique` | tools/templog-bridge/store.ts:247-252 | those facts determine the closure |
| `Closure.CloseIsMonotone` | tools/templog-bridge/store.ts:10-15 | more base or more held seqs never move the pointer back |
| `Closure.CloseInSteps` | tools/templog-bridge/store.ts:247-252 | closing, raising the base and closing again over more lands where one closure over everything lands |
| `Plan.FreshFacts` | tools/templog-bridge/store.ts:176-205 | each new seq is taken exactly once, from a sample of the batch, and nothing held is taken again |
| `Plan.CountHeld` | tools/templog-bridge/store.ts:153-157 | walking the held set counts exactly its members in the lost range |
| `Plan.MissingByCounting` | tools/templog-bridge/store.ts:150-167 | range length less the two counts is the number of lost seqs neither held nor arriving |
| `Plan.FindLoss` | tools/templog-bridge/store.ts:150-173 | the loss event and the raised pointer, in all three cases |
| `Plan.Advance` | tools/templog-bridge/store.ts:207 | the last loop stops at the closure of everything held and added |
| `Plan.SelectFresh` | tools/templog-bridge/store.ts:176-205 | the dedupe loop keeps exactly the unseen seqs, each at its first appearance |
| `Plan.PlanBatch` | tools/templog-bridge/store.ts:141-228 | the records to journal, in order, the seqs added, and the whole result with its ack |
| `Confluence.AfterInClosedForm` | tools/templog-bridge/store.ts:247-252 | after any batches, honest or not, `through` is one closure from the start and the greatest loss over all seqs that arrived |
| `Confluence.OrderAndRepetitionDoNotMatter` | tools/templog-bridge/store.ts:146-211 | after the same first batch, any reordering and duplication of the others leaves the same log |
| `Confluence.RedeliveryChangesNothing` | tools/templog-bridge/store.ts:181-184 | a batch that comes again changes nothing |
| `Confluence.WhenALossIsRecorded` | tools/templog-bridge/store.ts:150-173 | after any batches, the next one brings a loss event if and only if its lostThrough exceeds the closure of all before it, or 0 at first contact |
| `Confluence.LossEventsDependOnOrder` | tools/templog-bridge/store.ts:150-173 | after any batches, swapping the next two changes the number of loss events if and only if one of them, and not the other, reports a loss that only the other closes |
| `Confluence.NextMovesForward` | tools/templog-bridge/store.ts:6-15 | a batch never moves `through` back and never drops a held seq |
| `Confluence.AcksFitTheWire` | tools/templog-bridge/store.ts:208-225 | from any decodable batches, wrapped seqs included, `through` stays a 32-bit word |
| `Confluence.HeldAboveIsPastAGap` | tools/templog-bridge/store.ts:208-224 | heldAbove is given exactly when something is held past a gap, and is then the highest such seq |
| `Ledger.LossIsExact` | tools/templog-bridge/store.ts:150-173 | after any batches, the next one's loss event exists if and only if more is reported lost than was closed; it has a range if and only if that lies above the pointer, which then begins just above it, and `missing` counts the seqs of the range that no batch so far nor this one carried |
| `Ledger.WhatABatchWrites` | tools/templog-bridge/store.ts:141-205 | after any batches: a start line at first contact only, the loss event if there is one, then each new sample once, at its first place in the batch, with everything the batch says of it and a time exactly when its boot's start is known |
| `Ledger.WhatABatchAnswers` | tools/templog-bridge/store.ts:206-228 | first contact, new and repeated samples, the pointer before and after, and the ack, each by what arrived so far |
| `Ledger.EachSeqIsJournaledOnce` | tools/templog-bridge/store.ts:176-205 | any run of batches journals as many samples as it carried different seqs |
| `Rebuild.KeysAreFolded` | tools/templog-bridge/store.ts:236-285 | a log is rebuilt exactly when a readable line names it, and its key is then well formed |
| `Rebuild.RebuildLogs` | tools/templog-bridge/store.ts:253-300 | start-up yields every log the readable lines describe, and counts the rest |
| `Rebuild.RebuiltIsExact` | tools/templog-bridge/store.ts:233-300 | of any file, edited by hand or not: the seqs held are those of the log's sample lines, and `through` closes over them from its greatest loss or its start, which is the first start line, else just below the first sample |
| `Rebuild.SkippedIsCounted` | tools/templog-bridge/store.ts:253-272 | the count of skipped lines is the number of lines that hold something unreadable |
| `Recovery.JournalRebuildsNext` | tools/templog-bridge/store.ts:141-300 | reading back what one batch journaled gives exactly the state planned for it |
| `Recovery.PrefixIsBetween` | tools/templog-bridge/store.ts:311-350 | any prefix of a batch's records rebuilds to a state between the old one and the planned one |
| `Recovery.StepKeepsGood` | tools/templog-bridge/store.ts:343-379 | every delivery, refusal, crash and restart keeps the journal the mirror of the store, and every ack sent below its pointer |
| `Recovery.RestartChangesNothing` | tools/templog-bridge/store.ts:343-351 | stopping and starting between batches changes nothing |
| `Recovery.RecoveryRefinesTheLiveStore` | tools/templog-bridge/store.ts:253-379 | in every state of every run over any logs, a restart would rebuild exactly the live logs, and no ack ever sent is above what its log holds |
| `Store.TempLogStore.Open` | tools/templog-bridge/store.ts:334-351 | the store holds what the file rebuilds to, and every pointer fits an ack |
| `Store.TempLogStore.Ingest` | tools/templog-bridge/store.ts:362-379 | each error leaves the store and file as they were; otherwise exactly the planned records are appended and the planned log committed |
| `Store.RebuiltFits` | tools/templog-bridge/store.ts:233-300 | whatever a file holds, edited by hand or not, the rebuilt pointers fit 32 bits |
| `Node.SimNode.Create` | tools/templog-bridge/sim.ts:83-94 | a node is made exactly for whole sectors, at least two |
| `Node.SimNode.AppendSeq` | tools/templog-bridge/sim.ts:173-183 | the next seq is spent and a recycled sector's records go |
| `Node.SimNode.TakeSample` | tools/templog-bridge/sim.ts:101-107 | the reading is recorded under its seq with its flags |
| `Node.SimNode.HandleAck` | tools/templog-bridge/sim.ts:166-170 | the pointer is set, not raised, clamped to what exists, and the boot's start learnt |
| `Node.SimNode.BuildBatch` | tools/templog-bridge/sim.ts:133-163 | the next payload: none when nothing is pending, an encoding error, or the bytes of one boot's run of records |
| `Node.GatherSamples` | tools/templog-bridge/sim.ts:138-147 | the batch-building loop stops when full, at the newest record or at a boot boundary, with placeholders for unreadable records |
| `FlashRing.SlotsAreDistinct` | examples/temp_logger/main/tlog_store.c:118-137 | within one lap no two seqs share a slot |
| `FlashRing.WritesLandOnErasedFlash` | examples/temp_logger/main/tlog_store.c:118-137 | the slot about to be written is erased, or is erased first |
| `FlashRing.ErasesOnlyDropTheOldest` | examples/temp_logger/main/tlog_store.c:123-128 | an erase destroys only records that leave the window |
| `FlashRing.FlashRefinesTheMap` | tools/templog-bridge/sim.ts:173-183 | after any appends and burns the slot array answers every read as the node's map does |
| `FlashRing.WindowIsBounded` | examples/temp_logger/main/tlog_store.c:118-144 | the window is at most the capacity and, once wrapped, at least capacity - 255 |
| `FlashRing.TlogStore.AppendRecord` | examples/temp_logger/main/tlog_store.c:118-137 | in place: erase if the seq starts a sector, then write its slot |
| `FlashRing.TlogStore.Read` | examples/temp_logger/main/tlog_store.c:139-144 | a record is returned only from inside the window and only for its own seq |
| `EpochTable.TableIsNewestFour` | examples/temp_logger/main/tlog_store.c:159-169 | after any notes the table is the newest four boots, each with the first start noted for it |
| `EpochTable.EpochIsFirstNote` | examples/temp_logger/main/tlog_store.c:152-169 | a remembered boot's start is its first note, an older boot's is 0 |
| `EpochTable.Epochs.Note` | examples/temp_logger/main/tlog_store.c:159-169 | in place: a start already known, or zero, changes nothing; a new one shifts the oldest out |
| `EpochTable.Epochs.Find` | examples/temp_logger/main/tlog_store.c:152-157 | the scan returns the first non-zero start of that boot |
| `Protocol.StepKeepsInv` | tools/templog-bridge/sim.ts:96-183 | each kind of step keeps the ring true to what was written, every message and journal record honest, and every promise below `through` |
| `Protocol.SentBatchIsHonest` | examples/temp_logger/main/main.c:244-289 | every batch sent tells the truth about each seq, and claims only losses that happened |
| `Protocol.NothingIsLostSilently` | tools/templog-bridge/store.ts:4-15 | with any number of bridges, at every moment of every run, each seq ever assigned is at some bridge stored truly, journaled as lost and really overwritten, or overwritten before first contact; or it is still pending, or covered by the loss reported next |
| `Protocol.AckedIsAccounted` | tools/templog-bridge/store.ts:4-15 | whatever any bridge's ack in the air lets the node discard is stored or accounted for at some bridge |
| `Protocol.LossesAreTrue` | tools/templog-bridge/store.ts:69-79 | every loss any bridge journals covers only seqs that have left the ring |
| `Outgoing.HeaderTellsTheNode` | tools/templog-bridge/sim.ts:119-163 | in every world a run reaches, the next batch's lost_through is 0 if and only if nothing was overwritten unacked, and else the greatest such seq; its first seq is the least still to be sent; clock, boot, band and log id are the node's |
| `Outgoing.BatchIsMaximal` | tools/templog-bridge/sim.ts:138-147 | a batch ends at 91 samples, at the newest seq or at another boot's record, and nowhere earlier |
| `Outgoing.PayloadTellsTheNode` | docs/TEMP-LOGGER.md:55-70 | the same, read from the payload's bytes at the documented offsets |
| `Outgoing.HistoryIsWhatWasRead` | tools/templog-bridge/sim.ts:101-112 | each seq's record is the reading taken when it was spent: value, boot, uptime, and flags by the band; a seq without a record was burnt |
| `Outgoing.JournaledIsWhatWasRead` | tools/templog-bridge/sim.ts:101-163 | every sample any bridge journals in a run is such a reading, or the placeholder of a burnt seq |
| `Outgoing.EpochIsLastHeard` | tools/templog-bridge/sim.ts:166-170 | the node remembers a boot's start if and only if an ack told it during that boot, and then as the last such ack did |
| `Outgoing.WhenABatchIsPlaced` | docs/TEMP-LOGGER.md:91-101 | a batch's samples can be placed if and only if their boot is still running or some ack told its start |
| `Outgoing.TableTakesEveryNote` | examples/temp_logger/main/main.c:291-307 | the firmware's table is the one every such ack's note leaves, in boot order |
| `Placement.PlacedSamplesAreNear` | tools/templog-bridge/store.ts:127-131 | when every message is acted on within D seconds, every sample any bridge places is within D of the true second, with the simulator's memory of boot starts or the firmware's: receipt anchors only late, epoch anchors only early, and earlier by what the clock has run past 32 bits |
| `BatchCodec.EncodeBatch` | tools/templog-bridge/codec.ts:256-280 | the bytes written in place are the encoding, with both errors |
| `BatchCodec.DecodeBatch` | tools/templog-bridge/codec.ts:217-249 | the version, count and length rules and the sample loop |
| `BatchCodec.DecodeEncoded` | tools/templog-bridge/codec.ts:217-280 | decoding an encoding, whatever follows it, returns every field, signed temperatures included, with seq firstSeq + i mod 2^32 |
| `BatchCodec.EncodeDecoded` | tools/templog-bridge/codec.ts:217-280 | a decodable payload whose reserved bytes are zero encodes back to its own used bytes |
| `BatchCodec.DecodeAckEncoded` | tools/templog-bridge/codec.ts:285-302 | an ack reads back, its target in canonical form |
| `BatchCodec.BatchLayout` | docs/TEMP-LOGGER.md:55-70 | every header field lies at its documented offset, in its width and sign |
| `BatchCodec.SampleLayout` | docs/TEMP-LOGGER.md:74-79 | so does every field of every sample |
| `BatchCodec.AckLayout` | docs/TEMP-LOGGER.md:105-111 | so does every field of an ack |
| `Bytes.WriteU64LE` | tools/x402-bridge/cell-codec.ts:47-49 | eight bytes, low first, and no others change |
| `Bytes.ReadU64LE` | tools/x402-bridge/cell-codec.ts:56-60 | the byte loop reads the 64-bit word |
| `Hex.MacRoundTrip` | tools/templog-bridge/codec.ts:172-184 | a printed MAC reads back as the same six bytes |
| `Hex.BareMacRoundTrip` | tools/templog-bridge/codec.ts:172-184 | so does the bare form of an AK line |
| `Hex.CanonIsStable` | tools/templog-bridge/codec.ts:172-184 | canonising a canonical MAC changes nothing |
| `Cell.MintCell` | tools/x402-bridge/cell-codec.ts:99-119 | the fields written in place make the minted cell; a payload over 768 bytes throws |
| `Cell.ParseCell` | tools/templog-bridge/codec.ts:189-208 | size and magic decide, then every field and the root check |
| `Cell.ParseMinted` | tools/templog-bridge/codec.ts:189-208 | a minted cell parses to everything it was minted with, payload zero-padded and root good |
| `Cell.CellLayout` | tools/x402-bridge/cell-codec.ts:99-119 | where everything in a minted cell lies, the payload's digest included, and that every other byte is zero |
| `Crc32.Crc32Zlib` | examples/temp_logger/main/main.c:378-385 | the firmware's masked bit loop computes the CRC of section 8 of RFC 1952 |
| `Crc32.BuildTable` | tools/x402-bridge/serial-mesh.ts:40-48 | each table entry is the register after eight shifts of its index |
| `Crc32.Crc32Table` | tools/x402-bridge/serial-mesh.ts:49-53 | the table-driven form computes the same CRC, on every byte string |
| `Crc32.TableStep` | tools/x402-bridge/serial-mesh.ts:49-53 | one table look-up is eight bit steps |
| `Crc32.BurstsAreDetected` | tools/x402-bridge/serial-mesh.ts:49-53 | two inputs of one length that differ only within four consecutive bytes never have the same CRC |
| `Crc32.PolyIsTheGenerator` | tools/x402-bridge/serial-mesh.ts:40-48 | the constant is the generator polynomial of CRC-32, reflected |
| `Crc32.ResidueIsConstant` | tools/x402-bridge/serial-mesh.ts:49-53 | any message followed by its own CRC leaves one and the same register |
| `SerialLines.FrameChecks` | tools/templog-bridge/codec.ts:314-327 | a frame is taken exactly when its CRC field is its cell's CRC |
| `SerialLines.FrameIsRecovered` | tools/templog-bridge/codec.ts:329-347 | a whole frame is recovered whatever log text precedes it on its line, unless that text itself begins a TL line: then it is refused, for more than four fields |
| `SerialLines.GarbledFrameIsRejected` | tools/templog-bridge/codec.ts:314-327 | a frame whose cell was garbled within four consecutive bytes is never taken |
| `SerialLines.TakenFramesAreWhole` | tools/templog-bridge/codec.ts:338-347 | whatever is taken holds 1024 bytes from a MAC in canonical form |
| `SerialLines.ClassifyIsExact` | tools/templog-bridge/codec.ts:314-347 | a line is taken as (mac, cell) if and only if the words from its start, or from its last "TL ", are that frame's letter case aside |
| `SerialLines.BadIsExact` | tools/templog-bridge/codec.ts:338-347 | a line is a bad frame if and only if it begins as one and is none |
| `SerialLines.AkReadsBack` | tools/templog-bridge/codec.ts:362-375 | an AK line reads back as what it was written from |
| `SerialLines.ParseAkIsExact` | tools/templog-bridge/codec.ts:368-375 | a line is taken for an ack if and only if its text is one, with numbers of at most ten digits that fit 32 bits |
| `Inject.InjectProcessLine` | examples/mesh_demo/main/main.c:2517-2561 | the digit loop and the checks take a line for the frame it carries, or none |
| `Inject.SerialInject` | examples/mesh_demo/main/main.c:2563-2581 | the device's buffer loop injects exactly the frames of its lines |
| `Inject.FrameReads` | tools/x402-bridge/serial-mesh.ts:55-64 | a framed cell and signature read back at the device, in a line that just fits its buffer |
| `Inject.FramesGetThrough` | examples/mesh_demo/main/main.c:2470-2581 | a frame on a line of its own is injected once, whatever is sent before and after |
| `Inject.FrameAfterNoise` | examples/mesh_demo/main/main.c:2572-2580 | a frame that follows other text on its line is injected if and only if that text's length is a multiple of 2187 |
| `Inject.GarbledFrameIsDropped` | examples/mesh_demo/main/main.c:2531-2541 | a frame garbled within four consecutive bytes of its cell or signature is never injected |
| `Inject.InjectedIsExact` | examples/mesh_demo/main/main.c:2517-2561 | a line carries a frame if and only if it is that frame's text, digits in either case |
| `Inject.LineIsDecided` | examples/mesh_demo/main/main.c:2563-2581 | a line that fits the buffer is injected or not by itself, whatever ends it and whatever follows |
| `Splitter.SplitLines` | tools/templog-bridge/bridge.ts:242-256 | the buffer loop yields the streamed lines, dropping a partial line over the limit at a chunk's end |
| `Splitter.StreamingIsExact` | tools/templog-bridge/bridge.ts:242-256 | streaming yields the newline split of the whole text if and only if no chunk ends in a partial line over the limit |
| `Splitter.ChunkingDoesNotMatter` | tools/templog-bridge/bridge.ts:242-256 | a text whose lines all fit the limit comes out whole however it is cut |
| `Splitter.StreamGivesTheLines` | tools/templog-bridge/bridge.ts:242-256 | lines under the limit, written with LF or CRLF and cut anywhere, come out as they were written |
| `HostBridge.TempLogBridge.HandleLine` | tools/templog-bridge/bridge.ts:175-207 | one line takes the store and the file to exactly the stated outcome; a silent bridge has stored nothing, and nothing throws after a commit |
| `HostBridge.AcceptedIsExact` | tools/templog-bridge/bridge.ts:175-207 | a line delivers a batch if and only if it frames a cell whose bytes have the magic, the batch type hash, its sender's MAC, the digest of its payload, and a used payload that decodes to the batch |
| `HostBridge.OthersAreRefused` | tools/templog-bridge/bridge.ts:175-207 | every other line gets silence and leaves store and file as they were |
| `HostBridge.AckedExactly` | tools/templog-bridge/bridge.ts:175-207 | with a good clock and a writable journal a line is acked if and only if it delivers a batch |
| `HostBridge.StoredDoesNotThrow` | tools/templog-bridge/bridge.ts:196-207 | the ack of a stored batch always fits its line |
| `HostBridge.AckSpeaksForTheJournal` | tools/templog-bridge/bridge.ts:196-207 | the AK line read back names the log and the `through` that a rebuild of the journal would hold |
| `Gateway.BatchCrossesTheWire` | tools/templog-bridge/sim.ts:246-259 | whatever batch a node can build, its TL line is accepted as exactly that batch |
| `Gateway.LineTellsTheCell` | tools/templog-bridge/sim.ts:246-259 | the line of a payload frames a cell with its sender, clock, domain, size and digest |
| `Gateway.GarbledPayloadIsRefused` | tools/templog-bridge/bridge.ts:195-198 | a batch cell whose payload was changed to one of another digest stores nothing and gets no answer |
| `Gateway.ForeignBatchIsRefused` | tools/templog-bridge/bridge.ts:190-194 | so does a batch one node owns that is heard from another |
| `Gateway.AckMovesItsNode` | tools/templog-bridge/sim.ts:270-279 | an AK line moves the node whose MAC it names and no other |
| `Gateway.AckCrossesTheWire` | tools/templog-bridge/sim.ts:270-279 | an AK line is applied by the node exactly when its MAC is in canonical form; otherwise the node is unchanged |
| `Gateway.WireIsLossless` | tools/templog-bridge/sim.ts:243-279 | cell, TL line, bridge, AK line and ack cell do to store and node what direct ingestion and its ack do, and the bridge never answers null |
| `Deliver.SimWorld.GatewayToNode` | tools/templog-bridge/sim.ts:270-279 | the node after one AK line, or the cases that throw |
| `Deliver.ExchangeMovesOn` | tools/templog-bridge/sim.ts:243-263 | one exchange leaves the log honest, no further back, and past the batch unless the node's pointer was ahead |
| `Deliver.ExchangeSpends` | tools/templog-bridge/sim.ts:243-263 | every exchange, its ack lost or applied, spends some of the budget of sends |
| `Deliver.SimWorld.Deliver` | tools/templog-bridge/sim.ts:243-267 | unless an append is refused, delivery settles within its budget of sends, after a foreign ack too, with nothing pending; if an ack got through, node and bridge end at the newest seq; a refused append stops it in a world it can start from again |
| `Deliver.ReachableIsReady` | tools/templog-bridge/sim.ts:96-267 | every world a run of node and bridges can reach with 16-bit readings and 32-bit clocks is one that delivery to any bridge settles from, in at most the acks to drop, one, and the capacity in sends |
| `Deliver.ReadingMustFit` | tools/templog-bridge/sim.ts:101-163 | a new node's first reading can be sent if and only if it is a 16-bit value |
| `Replay.ReplayBodies` | tools/templog-bridge/replay.ts:25-66 | grouping, sorting and cutting yield bodies that list each log's group, all but a log's last of exactly max samples |
| `Replay.StoreWritesReadably` | tools/templog-bridge/store.ts:311-379 | every record in a journal the store wrote is readable, whatever crashed or was torn |
| `Replay.ReplayIsAPartition` | tools/templog-bridge/replay.ts:25-66 | per log the bodies carry each rebuilt seq exactly once, strictly ascending, each as its last journal line has it, field by field |
| `Replay.BodiesTellTheLoss` | tools/templog-bridge/replay.ts:50-63 | every body's lostThrough is the greatest loss the store rebuilds for its log |
| `Multisig.ReadItem` | components/semantos/src/host_crypto_mbedtls.c:198-208 | an item is read only if all of it lies before the bound |
| `Multisig.PackedIsReadable` | components/semantos/src/host_crypto_mbedtls.c:198-225 | packed items are all read if and only if they end by the bound |
| `Multisig.GreedyIsExact` | components/semantos/src/host_crypto_mbedtls.c:227-249 | the forward scan succeeds if and only if some strictly increasing matching exists |
| `Multisig.CheckMultisig` | components/semantos/src/host_crypto_mbedtls.c:210-252 | for every input: 1 exactly when ready and the threshold is 0, or enough signatures are given and the first threshold readable ones match readable keys in order |
| `Multisig.CheckIsExact` | components/semantos/src/host_crypto_mbedtls.c:210-252 | on packed lists with keys of at most 71 and signatures of at most 79 bytes the check is exactly the existence of a matching |
| `PaymentQueue.X402CellBridge.Activate` | tools/x402-bridge/bridge.ts:233-307 | each refusal changes nothing; a verified payment is claimed before anything waits, and a replay is answered 409 |
| `PaymentQueue.X402CellBridge.BroadcastDone` | tools/x402-bridge/bridge.ts:284-307 | a payment that never settled leaves `used` and nothing else changes; one that did is enqueued, with the number ahead of it |
| `PaymentQueue.X402CellBridge.Answered` | tools/x402-bridge/bridge.ts:391-443 | the ticket's outcome and the status code of each answer |
| `PaymentQueue.X402CellBridge.Done` | tools/x402-bridge/bridge.ts:369-385 | the finished ticket, wherever it is, leaves the pending list |
| `PaymentQueue.X402CellBridge.BroadcastThrew` | tools/x402-bridge/bridge.ts:284-292 | a broadcast call that throws leaves the payment spent, with no ticket |
| `PaymentQueue.X402CellBridge.QueueStatus` | tools/x402-bridge/bridge.ts:350-366 | the ticket's state; its place among all ever enqueued less those released, 0 once lighting or finished; the queue's length |
| `PaymentQueue.X402CellBridge.QueueLength` | tools/x402-bridge/bridge.ts:350-353 | the answer without a ticket: the queue's length, and that a ticket is lighting exactly when the first pending one is |
| `PaymentQueue.StepKeepsInv` | tools/x402-bridge/bridge.ts:233-443 | every interleaving keeps what is pending equal to what is chained and states in step, and every spent payment awaiting, enqueued or stranded, one of the three |
| `PaymentQueue.EnqueuedOnce` | tools/x402-bridge/bridge.ts:268-307 | no payment is ever enqueued twice, and one that was is refused from then on |
| `PaymentQueue.SpentExactly` | tools/x402-bridge/bridge.ts:268-307 | a payment is spent if and only if it has arrived and no broadcast of it has failed since |
| `PaymentQueue.GivenBack` | tools/x402-bridge/bridge.ts:284-290 | after a failed broadcast the payment is free again and its next arrival is claimed; the queue has not changed |
| `PaymentQueue.EnqueuedExactly` | tools/x402-bridge/bridge.ts:268-307 | a payment is enqueued if and only if it first arrived settled or a broadcast of it ended well |
| `PaymentQueue.TicketTellsItsStory` | tools/x402-bridge/bridge.ts:387-443 | a ticket is lit, failed or queued if and only if it was acknowledged, answered otherwise, or not yet started |
| `PaymentQueue.StrandedExactly` | tools/x402-bridge/bridge.ts:284-292 | a payment is stranded if and only if a broadcast call for it threw |
| `PaymentQueue.StrandedForGood` | tools/x402-bridge/bridge.ts:268-307 | a payment whose broadcast threw is refused from then on and never lights |
| `PaymentQueue.SpentIsTicketed` | tools/x402-bridge/bridge.ts:268-307 | with no broadcast in the air, a spent payment has its ticket if and only if its broadcast did not throw |
| `PaymentQueue.LitOnce` | tools/x402-bridge/bridge.ts:369-405 | every start lights a different ticket, in the order they were enqueued |
| `PaymentQueue.OneLighting` | tools/x402-bridge/bridge.ts:350-389 | at most one ticket is lighting, and it is the first pending one |
| `PaymentQueue.PendingKeepsOrder` | tools/x402-bridge/bridge.ts:369-385 | what is pending is the newest tickets in the order they were enqueued |
| `PaymentQueue.AheadNeverGrows` | tools/x402-bridge/bridge.ts:350-366 | a ticket's `ahead` never increases |
| `PaymentQueue.OutcomeIsFinal` | tools/x402-bridge/bridge.ts:387-443 | what a ticket came to is never revised |
| `RawTx.SerialiseTx` | tools/x402-bridge/channel-anchor.ts:56-107 | the bytes pushed are the transaction, plain or extended; a missing previous output throws |
| `TxReader.TxReadsBack` | tools/x402-bridge/channel-anchor.ts:56-107 | a reader of its own recovers everything from the bytes, plain or extended, multi-byte counts included: version, txids, outpoints, scripts, sequences, previous outputs, outputs, locktime; except from the one plain transaction that looks marked |
| `TxReader.LowerHexIsStable` | tools/x402-bridge/channel-anchor.ts:82-84 | so a txid given as lower-case hex reads back as itself |
| `RawTx.MaxOutputValue` | tools/x402-bridge/x402.ts:94-118 | the cursor-driven parse, reads past the end and the lost cursor included |
| `RawTx.CheckReadsWhatIsWritten` | tools/x402-bridge/x402.ts:94-118 | on a serialised transaction with 32-byte txids and 64-bit values the check returns the largest output if and only if every count and script length fits one byte, and throws otherwise |
| `RawTx.LargestIsLargest` | tools/x402-bridge/x402.ts:87-93 | that value is at least every output's and is some output's, or 0 |
| `RawTx.CutTransactionPays` | tools/x402-bridge/x402.ts:94-118 | such a transaction's hex cut after any digit answers 0 up to the output count, throws until the last value is whole, and from there answers as for the whole |
| `RawTx.CutPaymentIsAccepted` | tools/x402-bridge/x402.ts:94-136 | the default verifier accepts a cut transaction if and only if its last value is whole and its largest output covers the price |
| `RawTx.AnswerIsInTheBytes` | tools/x402-bridge/x402.ts:94-118 | on any bytes at all, an answer above 0 is a 64-bit value that lies in them |
| `RawTx.ExtendedFormatPaysNothing` | tools/x402-bridge/channel-anchor.ts:65-82 | in the extended format, whole or cut anywhere, the check sees no outputs |

## Left out

- Serial ports, stty and cat, HTTP and POSTs, ESP-NOW, NVS, LEDs, GPIO: input and output.
- JSON text of journal lines: a line is blank, unreadable, or the record it holds.
- UTF-8 decoding and ANSI stripping: serial text is characters without escape sequences.
- Elliptic curves and hash internals: uninterpreted, as said above.
- The Zig bodies behind `cm_*` (channel, capability, forward admission, reassembly, meter, flash recovery scan): not part of this model; only their headers are in the repository's C half.
- `tlog_store_init`'s rebuild of the ring from flash: it rests on those bodies.
- `TempLogStore.summary` and `inMemory`, `describeBatch`, `postBody`, `pump`, `replayFile`: they only format or loop over what is modelled.
- `SimWorld.take`, `fridge` and the scenario: the readings are arbitrary here, and `fridge` is floating point.
- Several nodes in one run: each has a log of its own at every bridge, and `Recovery` runs over any number of logs.
- FlashRing.TlogStore.AppendRecord: the append that is refused and returns 0, and erase and write errors of the flash driver, are decided behind `cm_tlog_append`, of which only the header is present.
- PaymentQueue.X402CellBridge.QueueStatus: leaves out `litAt`, `secondsAdded`, the error text and the radio message, which are only stored and shown.
- The metered mode of the x402 bridge and `ChannelMeter`: floating point, and its device half is only a header.
- The queue's hold time and timeouts: when an activation is answered or released is any later moment.
- Radio work that goes on after a timeout in the x402 queue: only tickets are claimed to be single, not broadcasts in flight.
- `paymentKey`, `parsePaymentHeader`, the HTTP challenge: a verified payment is named by its key.
- The cold-chain NVS queue: both its pointers wrap at the maximum, so its drop-oldest branch cannot run.
- Telemetry statistics, log-line parsers, fleet derivation, domain tables: floating point or plain tables.
