/** The flash ring as the firmware keeps it: an array of slots, erased a sector at a time (tlog_store.c). */
module FlashRing {
  import opened Prelude
  import opened Node

  /** A slot as read back: erased, written and readable, or half-written when power failed. */
  datatype Slot = Erased | Torn | Programmed(seqNo: int, rec: FlashRecord)

  datatype Ring = Ring(slots: seq<Slot>, nextSeq: int, oldestSeq: int)

  /** cm_tlog_slot_for_seq. */
  function SlotOf(q: int, capacity: int): (s: int)
    requires capacity > 0
    ensures 0 <= s < capacity
  {
    (q - 1) % capacity
  }

  predicate SectorStart(q: int, capacity: int)
    requires capacity > 0
  {
    SlotOf(q, capacity) % RECORDS_PER_SECTOR == 0
  }

  // ── The arithmetic of slots ────────────────────────────────────────

  lemma MultipleIsZero(m: int, k: int)
    requires m > 0 && -m < m * k < m
    ensures k == 0
  {
    assert k >= 1 ==> m * k >= m;
    assert k <= -1 ==> m * k <= -m;
  }

  /** Within one lap no two seqs share a slot. */
  lemma SlotsAreDistinct(p: int, q: int, capacity: int)
    requires capacity > 0 && p <= q < p + capacity && SlotOf(p, capacity) == SlotOf(q, capacity)
    ensures p == q
  {
    var a, b := (p - 1) / capacity, (q - 1) / capacity;
    assert q - p == capacity * (b - a);
    MultipleIsZero(capacity, b - a);
  }

  lemma SlotRunsOn(q: int, j: nat, capacity: int)
    requires capacity > 0 && SlotOf(q, capacity) + j < capacity
    ensures SlotOf(q + j, capacity) == SlotOf(q, capacity) + j
  {
    var a := (q - 1) / capacity;
    var s := SlotOf(q, capacity) + j;
    assert q + j - 1 == capacity * a + s;
    var k := (q + j - 1) / capacity - a;
    assert SlotOf(q + j, capacity) - s == -(capacity * k);
    MultipleIsZero(capacity, k);
  }

  /** A seq starts a sector exactly when it is one past a multiple of 256. */
  lemma SectorStartsAreAligned(q: int, capacity: int)
    requires GoodCapacity(capacity)
    ensures SectorStart(q, capacity) <==> (q - 1) % RECORDS_PER_SECTOR == 0
  {
    var k, a, s := capacity / 256, (q - 1) / capacity, SlotOf(q, capacity);
    assert q - 1 == capacity * a + s && capacity == 256 * k;
    assert capacity * a == 256 * (k * a);
  }

  // ── The specification ──────────────────────────────────────────────

  /** Erase the sector if q begins one. */
  function ErasedFor(slots: seq<Slot>, q: int): (r: seq<Slot>)
    requires |slots| > 0
    ensures |r| == |slots|
  {
    var base := SlotOf(q, |slots|);
    if SectorStart(q, |slots|) then
      seq(|slots|, i requires 0 <= i < |slots| => if base <= i < base + RECORDS_PER_SECTOR then Erased else slots[i])
    else slots
  }

  function RingAppend(r: Ring, content: Slot): Ring
    requires GoodCapacity(|r.slots|)
  {
    var oldest := if Recycles(|r.slots|, r.nextSeq)
                  then Max(r.oldestSeq, r.nextSeq - (|r.slots| - RECORDS_PER_SECTOR)) else r.oldestSeq;
    Ring(ErasedFor(r.slots, r.nextSeq)[SlotOf(r.nextSeq, |r.slots|) := content], r.nextSeq + 1, oldest)
  }

  /** tlog_store_read: only inside the window, and only a slot that decodes to this very seq. */
  function RingRead(r: Ring, q: int): Option<FlashRecord>
    requires |r.slots| > 0
  {
    if q < r.oldestSeq || q >= r.nextSeq then None
    else
      var s := r.slots[SlotOf(q, |r.slots|)];
      if s.Programmed? && s.seqNo == q then Some(s.rec) else None
  }

  ghost predicate Holds(s: Slot, q: int) {
    s.Torn? || (s.Programmed? && s.seqNo == q)
  }

  /** The window's slots hold its seqs; every slot ahead of it is erased. */
  ghost predicate RingInv(r: Ring) {
    && GoodCapacity(|r.slots|)
    && 1 <= r.oldestSeq <= r.nextSeq <= r.oldestSeq + |r.slots|
    && (r.oldestSeq - 1) % RECORDS_PER_SECTOR == 0
    && (r.oldestSeq > 1 ==> r.nextSeq - r.oldestSeq >= |r.slots| - 255)
    && (forall q :: r.oldestSeq <= q < r.nextSeq ==> Holds(r.slots[SlotOf(q, |r.slots|)], q))
    && (forall q :: r.nextSeq <= q < r.oldestSeq + |r.slots| ==> r.slots[SlotOf(q, |r.slots|)] == Erased)
  }

  /** The ring answers every read as the node's map of records does. */
  ghost predicate Refines(r: Ring, n: Node) {
    && RingInv(r) && r.nextSeq == n.nextSeq && r.oldestSeq == n.oldestSeq
    && forall q :: RingRead(r, q) == if q in n.flash then Some(n.flash[q]) else None
  }

  // ── One append ─────────────────────────────────────────────────────

  /** The oldest seq left once the next one is written. */
  function OldestLeft(r: Ring): int
    requires GoodCapacity(|r.slots|)
  {
    RingAppend(r, Erased).oldestSeq
  }

  lemma WindowArithmetic(next: int, oldest: int, capacity: int, starts: bool, o: int)
    requires GoodCapacity(capacity)
    requires 1 <= oldest <= next <= oldest + capacity && (oldest - 1) % 256 == 0
    requires oldest > 1 ==> next - oldest >= capacity - 255
    requires starts <==> (next - 1) % 256 == 0
    requires o == if starts && next > capacity - 256 then Max(oldest, next - (capacity - 256)) else oldest
    ensures oldest <= o <= next < o + capacity
    ensures (o - 1) % 256 == 0
    ensures o > 1 ==> next + 1 - o >= capacity - 255
    ensures o > oldest ==> starts && o + capacity == next + 256
    ensures starts ==> next + 256 <= o + capacity
  {
    var k, a := capacity / 256, (oldest - 1) / 256;
    assert oldest + capacity - 1 == 256 * (a + k);
    if starts {
      var b := (next - 1) / 256;
      assert next - 1 == 256 * b;
      assert next - (capacity - 256) - 1 == 256 * (b - k + 1);
    }
  }

  lemma WindowMoves(r: Ring)
    requires RingInv(r)
    ensures var o := OldestLeft(r);
            && r.oldestSeq <= o <= r.nextSeq < o + |r.slots|
            && (o - 1) % RECORDS_PER_SECTOR == 0
            && (o > 1 ==> r.nextSeq + 1 - o >= |r.slots| - 255)
            && (o > r.oldestSeq ==> SectorStart(r.nextSeq, |r.slots|) && o + |r.slots| == r.nextSeq + 256)
            && (SectorStart(r.nextSeq, |r.slots|) ==> r.nextSeq + 256 <= o + |r.slots|)
  {
    var starts := SectorStart(r.nextSeq, |r.slots|);
    SectorStartsAreAligned(r.nextSeq, |r.slots|);
    WindowArithmetic(r.nextSeq, r.oldestSeq, |r.slots|, starts, OldestLeft(r));
  }

  /** A sector's slots are those of its 256 seqs, in order. */
  lemma SectorSlots(q: int, j: nat, capacity: int)
    requires GoodCapacity(capacity) && SectorStart(q, capacity) && j < RECORDS_PER_SECTOR
    ensures SlotOf(q, capacity) + j < capacity && SlotOf(q + j, capacity) == SlotOf(q, capacity) + j
  {
    SlotRunsOn(q, j, capacity);
  }

  /** An erase leaves every slot of the surviving window alone. */
  lemma EraseSparesTheWindow(r: Ring, q: int)
    requires RingInv(r) && OldestLeft(r) <= q < r.nextSeq
    ensures var s := SlotOf(q, |r.slots|);
            ErasedFor(r.slots, r.nextSeq)[s] == r.slots[s] && s != SlotOf(r.nextSeq, |r.slots|)
  {
    var capacity, s, base := |r.slots|, SlotOf(q, |r.slots|), SlotOf(r.nextSeq, |r.slots|);
    WindowMoves(r);
    if s == base {
      SlotsAreDistinct(q, r.nextSeq, capacity);
    }
    if SectorStart(r.nextSeq, capacity) && base <= s < base + RECORDS_PER_SECTOR {
      SectorSlots(r.nextSeq, s - base, capacity);
      SlotsAreDistinct(q, r.nextSeq + (s - base), capacity);
    }
  }

  /** Every slot ahead of the window is erased once the sector is. */
  lemma AheadIsErased(r: Ring, q: int)
    requires RingInv(r) && r.nextSeq <= q < OldestLeft(r) + |r.slots|
    ensures ErasedFor(r.slots, r.nextSeq)[SlotOf(q, |r.slots|)] == Erased
  {
    WindowMoves(r);
    if SectorStart(r.nextSeq, |r.slots|) && q < r.nextSeq + RECORDS_PER_SECTOR {
      SectorSlots(r.nextSeq, q - r.nextSeq, |r.slots|);
    }
  }

  /**
   * NOR flash can be programmed only where it is erased: the slot the next seq
   * goes to always is, once its sector has been.
   */
  lemma WritesLandOnErasedFlash(r: Ring)
    requires RingInv(r)
    ensures ErasedFor(r.slots, r.nextSeq)[SlotOf(r.nextSeq, |r.slots|)] == Erased
  {
    WindowMoves(r);
    AheadIsErased(r, r.nextSeq);
  }

  /** An erase destroys only records that have left the window. */
  lemma ErasesOnlyDropTheOldest(r: Ring, q: int)
    requires RingInv(r) && r.oldestSeq <= q < r.nextSeq
    requires ErasedFor(r.slots, r.nextSeq)[SlotOf(q, |r.slots|)] != r.slots[SlotOf(q, |r.slots|)]
    ensures r.oldestSeq <= q < OldestLeft(r)
  {
    if OldestLeft(r) <= q {
      EraseSparesTheWindow(r, q);
    }
  }

  lemma AppendKeepsRing(r: Ring, content: Slot)
    requires RingInv(r) && Holds(content, r.nextSeq)
    ensures RingInv(RingAppend(r, content))
  {
    var t := RingAppend(r, content);
    WindowMoves(r);
    forall q | t.oldestSeq <= q < t.nextSeq ensures Holds(t.slots[SlotOf(q, |t.slots|)], q) {
      if q < r.nextSeq {
        EraseSparesTheWindow(r, q);
      }
    }
    forall q | t.nextSeq <= q < t.oldestSeq + |t.slots| ensures t.slots[SlotOf(q, |t.slots|)] == Erased {
      AheadIsErased(r, q);
      if SlotOf(q, |r.slots|) == SlotOf(r.nextSeq, |r.slots|) {
        SlotsAreDistinct(r.nextSeq, q, |r.slots|);
      }
    }
  }

  /** What each read answers after an append. */
  lemma ReadAfterAppend(r: Ring, content: Slot, q: int)
    requires RingInv(r) && Holds(content, r.nextSeq)
    ensures var t := RingAppend(r, content);
            RingRead(t, q) == if q == r.nextSeq then (if content.Programmed? then Some(content.rec) else None)
                              else if q < t.oldestSeq then None
                              else RingRead(r, q)
  {
    WindowMoves(r);
    if OldestLeft(r) <= q < r.nextSeq {
      EraseSparesTheWindow(r, q);
    }
  }

  /** A reading written to flash, and the same reading in the node's map. */
  lemma SampleRefines(r: Ring, c: Config, n: Node, now: int, centi: Option<int>)
    requires Refines(r, n) && c.capacity == |r.slots|
    ensures Refines(RingAppend(r, Programmed(r.nextSeq, Reading(c, n, now, centi))), Sample(c, n, now, centi))
  {
    var content := Programmed(r.nextSeq, Reading(c, n, now, centi));
    var t, m := RingAppend(r, content), Sample(c, n, now, centi);
    AppendKeepsRing(r, content);
    forall q ensures RingRead(t, q) == if q in m.flash then Some(m.flash[q]) else None {
      ReadAfterAppend(r, content, q);
      assert RingRead(r, q) == if q in n.flash then Some(n.flash[q]) else None;
    }
  }

  /** A write that power failed, and a burned seq. */
  lemma BurnRefines(r: Ring, n: Node)
    requires Refines(r, n)
    ensures Refines(RingAppend(r, Torn), Append(|r.slots|, n))
  {
    var t, m := RingAppend(r, Torn), Append(|r.slots|, n);
    AppendKeepsRing(r, Torn);
    forall q ensures RingRead(t, q) == if q in m.flash then Some(m.flash[q]) else None {
      ReadAfterAppend(r, Torn, q);
      assert RingRead(r, q) == if q in n.flash then Some(n.flash[q]) else None;
    }
  }

  // ── Whole runs ─────────────────────────────────────────────────────

  datatype Write = Reads(nowUnixS: int, centiC: Option<int>) | Fails | Boots(nowUnixS: int)

  function NodeAfter(c: Config, bootAt: int, ws: seq<Write>): Node
    requires GoodCapacity(c.capacity)
  {
    if ws == [] then NewNode(bootAt) else
      var n := NodeAfter(c, bootAt, ws[..|ws| - 1]);
      match ws[|ws| - 1]
      case Reads(now, centi) => Sample(c, n, now, centi)
      case Fails => Append(c.capacity, n)
      case Boots(now) => Reboot(n, now)
  }

  function RingAfter(c: Config, bootAt: int, ws: seq<Write>): (r: Ring)
    requires GoodCapacity(c.capacity)
    ensures |r.slots| == c.capacity
  {
    if ws == [] then Ring(seq(c.capacity, _ => Erased), 1, 1) else
      var n, r := NodeAfter(c, bootAt, ws[..|ws| - 1]), RingAfter(c, bootAt, ws[..|ws| - 1]);
      match ws[|ws| - 1]
      case Reads(now, centi) => RingAppend(r, Programmed(r.nextSeq, Reading(c, n, now, centi)))
      case Fails => RingAppend(r, Torn)
      case Boots(now) => r
  }

  /** Over any run of readings, failed writes and reboots, flash answers every read as the node's map does. */
  lemma {:induction false} FlashRefinesTheMap(c: Config, bootAt: int, ws: seq<Write>)
    requires GoodCapacity(c.capacity)
    ensures Refines(RingAfter(c, bootAt, ws), NodeAfter(c, bootAt, ws))
  {
    if ws != [] {
      var pre := ws[..|ws| - 1];
      FlashRefinesTheMap(c, bootAt, pre);
      var r, n := RingAfter(c, bootAt, pre), NodeAfter(c, bootAt, pre);
      match ws[|ws| - 1]
      case Reads(now, centi) => SampleRefines(r, c, n, now, centi);
      case Fails => BurnRefines(r, n);
      case Boots(now) => assert Refines(r, Reboot(n, now));
    }
  }

  /** The window never exceeds the ring, and once it has wrapped it is never short by a whole sector. */
  lemma WindowIsBounded(c: Config, bootAt: int, ws: seq<Write>)
    requires GoodCapacity(c.capacity)
    ensures var n := NodeAfter(c, bootAt, ws);
            && 1 <= n.oldestSeq <= n.nextSeq
            && n.nextSeq - n.oldestSeq <= c.capacity
            && (n.oldestSeq > 1 ==> n.nextSeq - n.oldestSeq >= c.capacity - 255)
  {
    FlashRefinesTheMap(c, bootAt, ws);
  }

  // ── The object ─────────────────────────────────────────────────────

  lemma RingShape(r: Ring)
    requires RingInv(r)
    ensures GoodCapacity(|r.slots|) && 1 <= r.oldestSeq <= r.nextSeq
  {
  }

  lemma SectorFits(slot: nat, capacity: nat)
    requires GoodCapacity(capacity) && slot < capacity && slot % RECORDS_PER_SECTOR == 0
    ensures slot / RECORDS_PER_SECTOR * RECORDS_PER_SECTOR == slot && slot + RECORDS_PER_SECTOR <= capacity
  {
  }

  class TlogStore {
    const slots: array<Slot>
    var nextSeq: int
    var oldestSeq: int

    ghost function Value(): Ring
      reads this, slots
    {
      Ring(slots[..], nextSeq, oldestSeq)
    }

    /** A wiped partition. */
    constructor Blank(capacity: nat)
      requires GoodCapacity(capacity)
      ensures fresh(slots) && Value() == Ring(seq(capacity, _ => Erased), 1, 1) && RingInv(Value())
    {
      slots := new Slot[capacity](_ => Erased);
      nextSeq, oldestSeq := 1, 1;
      new;
      assert slots[..] == seq(capacity, _ => Erased);
    }

    /** Reserve the seq, erase its sector if it begins one, then write; a failed write leaves a torn slot. */
    method AppendRecord(rec: FlashRecord, powerFails: bool) returns (seqNo: int)
      requires RingInv(Value())
      modifies this, slots
      ensures seqNo == old(nextSeq) && RingInv(Value())
      ensures Value() == RingAppend(old(Value()), if powerFails then Torn else Programmed(seqNo, rec))
    {
      hide RingInv, ErasedFor;
      RingShape(Value());
      seqNo := nextSeq;
      var content := if powerFails then Torn else Programmed(seqNo, rec);
      AppendKeepsRing(Value(), content);
      Reserve();
      EraseFor(seqNo);
      slots[SlotOf(seqNo, slots.Length)] := content;
    }

    /** The next seq is spent; one that recycles a sector moves the oldest on. */
    method Reserve()
      requires GoodCapacity(slots.Length)
      modifies this`nextSeq, this`oldestSeq
      ensures nextSeq == old(nextSeq) + 1
      ensures oldestSeq == if Recycles(slots.Length, old(nextSeq))
                           then Max(old(oldestSeq), old(nextSeq) - (slots.Length - RECORDS_PER_SECTOR))
                           else old(oldestSeq)
    {
      var lap := slots.Length - RECORDS_PER_SECTOR;
      if SlotOf(nextSeq, slots.Length) % RECORDS_PER_SECTOR == 0 && nextSeq > lap {
        oldestSeq := Max(oldestSeq, nextSeq - lap);
      }
      nextSeq := nextSeq + 1;
    }

    /** The first slot of a sector is written only after its sector is erased. */
    method EraseFor(seqNo: int)
      requires GoodCapacity(slots.Length)
      modifies slots
      ensures slots[..] == ErasedFor(old(slots[..]), seqNo)
    {
      var slot := SlotOf(seqNo, slots.Length);
      if slot % RECORDS_PER_SECTOR == 0 {
        SectorFits(slot, slots.Length);
        EraseSector(slot / RECORDS_PER_SECTOR * RECORDS_PER_SECTOR);
      }
    }

    method EraseSector(from: nat)
      requires from + RECORDS_PER_SECTOR <= slots.Length
      modifies slots
      ensures forall i :: 0 <= i < slots.Length ==>
                slots[i] == if from <= i < from + RECORDS_PER_SECTOR then Erased else old(slots[i])
    {
      for k := from to from + RECORDS_PER_SECTOR
        invariant forall i :: 0 <= i < slots.Length ==> slots[i] == if from <= i < k then Erased else old(slots[i])
      {
        slots[k] := Erased;
      }
    }

    method Read(q: int) returns (r: Option<FlashRecord>)
      requires RingInv(Value())
      ensures r == RingRead(Value(), q)
    {
      if q < oldestSeq || q >= nextSeq {
        return None;
      }
      var s := slots[SlotOf(q, slots.Length)];
      if s.Programmed? && s.seqNo == q {
        return Some(s.rec);
      }
      return None;
    }
  }
}
