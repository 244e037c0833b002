/** The few boot starts a node remembers (tlog_store.c). */
module EpochTable {
  const EPOCHS := 4

  datatype Entry = Entry(bootId: int, epochS: int)

  const NO_ENTRY := Entry(0, 0)

  type Table = s: seq<Entry> | |s| == EPOCHS witness [NO_ENTRY, NO_ENTRY, NO_ENTRY, NO_ENTRY]

  /** The start of a boot, or 0. */
  function EpochFor(table: seq<Entry>, bootId: int): int {
    if table == [] then 0
    else if table[0].bootId == bootId && table[0].epochS != 0 then table[0].epochS
    else EpochFor(table[1..], bootId)
  }

  /** A start is noted once per boot; a new one pushes the oldest out. */
  function Noted(table: Table, e: Entry): Table {
    if e.epochS == 0 || EpochFor(table, e.bootId) != 0 then table else [e] + table[..EPOCHS - 1]
  }

  const EMPTY: Table := [NO_ENTRY, NO_ENTRY, NO_ENTRY, NO_ENTRY]

  function After(notes: seq<Entry>): Table {
    if notes == [] then EMPTY else Noted(After(notes[..|notes| - 1]), notes[|notes| - 1])
  }

  lemma AfterOneMore(notes: seq<Entry>, e: Entry)
    ensures After(notes + [e]) == Noted(After(notes), e)
  {
    hide Noted;
    assert (notes + [e])[..|notes|] == notes;
  }

  // ── What the table means ───────────────────────────────────────────

  /** The first start noted for each boot, newest boot first. */
  function FirstNotes(notes: seq<Entry>): seq<Entry> {
    if notes == [] then [] else
      var before, e := FirstNotes(notes[..|notes| - 1]), notes[|notes| - 1];
      if e.epochS == 0 || (before != [] && before[0].bootId == e.bootId) then before else [e] + before
  }

  /** Boots are numbered upwards, and a node only notes the boot it is in. */
  ghost predicate InBootOrder(notes: seq<Entry>) {
    && (forall i :: 0 <= i < |notes| ==> notes[i].bootId >= 1)
    && (forall i, j :: 0 <= i < j < |notes| ==> notes[i].bootId <= notes[j].bootId)
  }

  /** A full table of a list: its first four entries, with empty ones after them. */
  function FirstFour(s: seq<Entry>): Table {
    (s + EMPTY)[..EPOCHS]
  }

  ghost predicate IsHistory(s: seq<Entry>, top: int) {
    && (forall i :: 0 <= i < |s| ==> s[i].epochS != 0 && 1 <= s[i].bootId <= top)
    && (forall i, j :: 0 <= i < j < |s| ==> s[i].bootId > s[j].bootId)
  }

  lemma {:induction false} FirstNotesAreHistory(notes: seq<Entry>, top: int)
    requires InBootOrder(notes) && forall i :: 0 <= i < |notes| ==> notes[i].bootId <= top
    ensures IsHistory(FirstNotes(notes), top)
  {
    if notes != [] {
      FirstNotesAreHistory(notes[..|notes| - 1], notes[|notes| - 1].bootId);
    }
  }

  lemma {:induction false} EpochForAt(s: seq<Entry>, bootId: int, i: nat)
    requires i < |s| && s[i].bootId == bootId && s[i].epochS != 0
    requires forall j :: 0 <= j < i ==> s[j].bootId != bootId
    ensures EpochFor(s, bootId) == s[i].epochS
  {
    if i > 0 {
      EpochForAt(s[1..], bootId, i - 1);
    }
  }

  lemma {:induction false} EpochForNone(s: seq<Entry>, bootId: int)
    requires forall j :: 0 <= j < |s| ==> s[j].bootId != bootId || s[j].epochS == 0
    ensures EpochFor(s, bootId) == 0
  {
    if s != [] {
      EpochForNone(s[1..], bootId);
    }
  }

  /** The newest boot is known to the table exactly when it heads the history. */
  lemma NewestIsKnown(s: seq<Entry>, top: int)
    requires IsHistory(s, top) && top >= 1
    ensures EpochFor(FirstFour(s), top) != 0 <==> s != [] && s[0].bootId == top
  {
    var t := FirstFour(s);
    assert forall j :: 0 <= j < EPOCHS ==> t[j] == if j < |s| then s[j] else NO_ENTRY;
    if s != [] && s[0].bootId == top {
      EpochForAt(t, top, 0);
    } else {
      EpochForNone(t, top);
    }
  }

  lemma HeadMoves(e: Entry, s: seq<Entry>)
    ensures FirstFour([e] + s) == [e] + FirstFour(s)[..EPOCHS - 1]
  {
  }

  /** After any run of notes the table is the newest four boots, each with the first start noted for it. */
  lemma {:induction false} TableIsNewestFour(notes: seq<Entry>)
    requires InBootOrder(notes)
    ensures After(notes) == FirstFour(FirstNotes(notes))
  {
    if notes != [] {
      var n := |notes| - 1;
      var s, e := FirstNotes(notes[..n]), notes[n];
      TableIsNewestFour(notes[..n]);
      FirstNotesAreHistory(notes[..n], e.bootId);
      NewestIsKnown(s, e.bootId);
      HeadMoves(e, s);
    } else {
      assert ([] + EMPTY)[..EPOCHS] == EMPTY;
    }
  }

  /** So a remembered boot's start is its first note, and an older boot's is 0. */
  lemma EpochIsFirstNote(notes: seq<Entry>, i: nat)
    requires InBootOrder(notes) && i < |FirstNotes(notes)|
    ensures var e := FirstNotes(notes)[i];
            EpochFor(After(notes), e.bootId) == if i < EPOCHS then e.epochS else 0
  {
    var s := FirstNotes(notes);
    TableIsNewestFour(notes);
    FirstNotesAreHistory(notes, if notes == [] then 1 else notes[|notes| - 1].bootId);
    var t := FirstFour(s);
    assert forall j :: 0 <= j < EPOCHS ==> t[j] == if j < |s| then s[j] else NO_ENTRY;
    if i < EPOCHS {
      EpochForAt(t, s[i].bootId, i);
    } else {
      EpochForNone(t, s[i].bootId);
    }
  }

  // ── In place ───────────────────────────────────────────────────────

  class Epochs {
    const table: array<Entry>

    constructor ()
      ensures fresh(table) && table.Length == EPOCHS && table[..] == EMPTY
    {
      table := new Entry[EPOCHS](_ => NO_ENTRY);
      new;
      assert table[..] == EMPTY;
    }

    method Find(bootId: int) returns (epochS: int)
      ensures epochS == EpochFor(table[..], bootId)
    {
      for i := 0 to table.Length
        invariant EpochFor(table[i..], bootId) == EpochFor(table[..], bootId)
      {
        if table[i].bootId == bootId && table[i].epochS != 0 {
          return table[i].epochS;
        }
        assert table[i..][1..] == table[i + 1..];
      }
      return 0;
    }

    /** Learn a boot's start: the table becomes Noted of what it was, in place. */
    method Note(bootId: int, epochS: int)
      requires table.Length == EPOCHS
      modifies table
      ensures table[..] == Noted(old(table[..]), Entry(bootId, epochS))
    {
      if epochS == 0 {
        return;
      }
      var known := Find(bootId);
      if known != 0 {
        return;
      }
      ghost var before := table[..];
      for i := EPOCHS - 1 downto 0
        invariant forall j :: 0 <= j <= i ==> table[j] == before[j]
        invariant forall j :: i < j < EPOCHS ==> table[j] == before[j - 1]
      {
        table[i + 1] := table[i];
      }
      table[0] := Entry(bootId, epochS);
      assert table[..] == [Entry(bootId, epochS)] + before[..EPOCHS - 1];
    }
  }
}
