/** The 1024-byte cell a payload rides in (cell-codec.ts's mintCell, codec.ts's parseCell). */
module Cell {
  import opened Prelude
  import opened Bytes
  import opened Hex

  const CELL_SIZE := 1024
  const PAYLOAD_SIZE := 768
  const CELL_VERSION := 2
  const LINEARITY_AFFINE := 2
  const OFF_LINEARITY := 16
  const OFF_VERSION := 20
  const OFF_FLAGS := 24
  const OFF_TYPE_HASH := 30
  const OFF_OWNER_ID := 62
  const OFF_TIMESTAMP := 78
  const OFF_PAYLOAD_TOTAL := 90
  const OFF_DOMAIN_PAYLOAD_ROOT := 224
  const OFF_PAYLOAD := 256

  function Magic(i: nat): int
    requires i < 4
  {
    [0xdead_beef, 0xcafe_babe, 0x1337_1337, 0x4242_4242][i]
  }

  type Digest = d: seq<byte> | |d| == 32 witness seq(32, _ => 0)

  /** SHA-256: any function to 32 bytes will do. */
  type Sha = seq<byte> -> Digest

  /** The bytes of an ASCII name. */
  function Ascii(s: string): seq<byte> {
    seq(|s|, i requires 0 <= i < |s| => AsciiByte(s[i]))
  }

  function AsciiByte(c: char): byte {
    if c as int < 0x80 then c as int else '?' as int
  }

  function TypeBatch(sha: Sha): Digest {
    sha(Ascii("templog.batch.v0"))
  }

  function TypeAck(sha: Sha): Digest {
    sha(Ascii("templog.ack.v0"))
  }

  /** The payload region: the payload, then zeros. */
  function Padded(payload: seq<byte>): (p: seq<byte>)
    requires |payload| <= PAYLOAD_SIZE
    ensures |p| == PAYLOAD_SIZE
  {
    payload + seq(PAYLOAD_SIZE - |payload|, _ => 0)
  }

  // ── Minting ────────────────────────────────────────────────────────

  /** The header fields at offsets 0 to 93. */
  function FrontByte(typeHash: Digest, owner: seq<byte>, timestampMs: int, domain: int, total: int, i: nat): byte
    requires i < 94
  {
    if i < 16 then LeByte(Magic(i / 4), i % 4)
    else if i < 20 then LeByte(LINEARITY_AFFINE, i - 16)
    else if i < 24 then LeByte(CELL_VERSION, i - 20)
    else if i < 28 then LeByte(domain, i - 24)
    else if i < 30 then 0
    else if i < 62 then typeHash[i - 30]
    else if i < 78 then if i - 62 < |owner| then owner[i - 62] else 0
    else if i < 86 then LeByte(timestampMs, i - 78)
    else if i < 90 then 0
    else LeByte(total, i - 90)
  }

  /** The bytes of a cell that holds this payload. */
  function Minted(sha: Sha, typeHash: Digest, payload: seq<byte>, owner: seq<byte>, timestampMs: int,
      domain: int): (c: seq<byte>)
    requires |payload| <= PAYLOAD_SIZE
    ensures |c| == CELL_SIZE
  {
    seq(94, i requires 0 <= i < 94 => FrontByte(typeHash, owner, timestampMs, domain, |payload|, i))
    + seq(130, _ => 0)
    + sha(Padded(payload))
    + Padded(payload)
  }

  /** A cell with its fields in place, or None where mintCell throws. */
  function MintResult(sha: Sha, typeHash: Digest, payload: seq<byte>, owner: seq<byte>, timestampMs: int,
      domain: int): Option<seq<byte>>
  {
    if |payload| > PAYLOAD_SIZE then None else Some(Minted(sha, typeHash, payload, owner, timestampMs, domain))
  }

  /** cell.set(bytes, at) */
  method SetBytes(cell: array<byte>, at: nat, bytes: seq<byte>)
    requires at + |bytes| <= cell.Length
    modifies cell
    ensures cell[at..at + |bytes|] == bytes && OnlyAt(old(cell[..]), cell[..], at, |bytes|)
  {
    for i := 0 to |bytes|
      invariant cell[at..at + i] == bytes[..i] && OnlyAt(old(cell[..]), cell[..], at, |bytes|)
    {
      cell[at + i] := bytes[i];
    }
    assert bytes[..|bytes|] == bytes;
  }

  lemma MagicGrows(before: seq<byte>, after: seq<byte>, i: nat)
    requires i < 4 && |before| == CELL_SIZE && OnlyAt(before, after, i * 4, 4) && HasU32(after, i * 4, Magic(i))
    requires forall j :: 0 <= j < 4 * i ==> before[j] == LeByte(Magic(j / 4), j % 4)
    ensures forall j :: 0 <= j < 4 * (i + 1) ==> after[j] == LeByte(Magic(j / 4), j % 4)
  {
    forall j | 0 <= j < 4 * (i + 1) ensures after[j] == LeByte(Magic(j / 4), j % 4) {
      assert j >= 4 * i ==> j / 4 == i && j == 4 * i + j % 4;
    }
  }

  method WriteMagic(cell: array<byte>)
    requires cell.Length == CELL_SIZE
    modifies cell
    ensures forall i :: 0 <= i < 16 ==> cell[..][i] == LeByte(Magic(i / 4), i % 4)
    ensures OnlyAt(old(cell[..]), cell[..], 0, 16)
  {
    for i := 0 to 4
      invariant forall j :: 0 <= j < 4 * i ==> cell[..][j] == LeByte(Magic(j / 4), j % 4)
      invariant OnlyAt(old(cell[..]), cell[..], 0, 16)
    {
      ghost var before := cell[..];
      WriteU32LE(cell, i * 4, Magic(i));
      MagicGrows(before, cell[..], i);
    }
  }

  /** The magic and the three words after it, on a zeroed cell. */
  method WriteWords(cell: array<byte>, typeHash: Digest, owner: seq<byte>, timestampMs: int, domain: int)
    requires cell.Length == CELL_SIZE && forall i :: 0 <= i < CELL_SIZE ==> cell[i] == 0
    modifies cell
    ensures forall i :: 0 <= i < 30 ==> cell[..][i] == FrontByte(typeHash, owner, timestampMs, domain, 0, i)
    ensures forall i :: 30 <= i < CELL_SIZE ==> cell[..][i] == 0
  {
    WriteMagic(cell);
    WriteU32LE(cell, OFF_LINEARITY, LINEARITY_AFFINE);
    WriteU32LE(cell, OFF_FLAGS, domain);
    WriteU32LE(cell, OFF_VERSION, CELL_VERSION);
  }

  /** Everything before the payload size, on a zeroed cell. */
  method WriteFront(cell: array<byte>, typeHash: Digest, owner: seq<byte>, timestampMs: int, domain: int)
    requires cell.Length == CELL_SIZE && forall i :: 0 <= i < CELL_SIZE ==> cell[i] == 0
    modifies cell
    ensures forall i :: 0 <= i < 90 ==> cell[..][i] == FrontByte(typeHash, owner, timestampMs, domain, 0, i)
    ensures forall i :: 90 <= i < CELL_SIZE ==> cell[..][i] == 0
  {
    WriteWords(cell, typeHash, owner, timestampMs, domain);
    ghost var before := cell[..];
    SetBytes(cell, OFF_TYPE_HASH, typeHash);
    SetBytes(cell, OFF_OWNER_ID, if |owner| > 16 then owner[..16] else owner);
    WriteU64LE(cell, OFF_TIMESTAMP, timestampMs);
    assert forall i :: 0 <= i < 30 ==> cell[..][i] == before[i];
  }

  /** A cell minted field by field; the payload root goes in last, over the region as written. */
  method MintCell(sha: Sha, typeHash: Digest, payload: seq<byte>, owner: seq<byte>, timestampMs: int, domain: int)
    returns (r: Option<seq<byte>>)
    ensures r == MintResult(sha, typeHash, payload, owner, timestampMs, domain)
  {
    if |payload| > PAYLOAD_SIZE {
      return None;
    }
    var cell := new byte[CELL_SIZE](_ => 0);
    WriteFront(cell, typeHash, owner, timestampMs, domain);
    ghost var front := cell[..];
    SetBytes(cell, OFF_PAYLOAD, payload);
    ghost var filled := cell[..];
    WriteU32LE(cell, OFF_PAYLOAD_TOTAL, |payload|);
    ghost var total := cell[..];
    var region := cell[OFF_PAYLOAD..OFF_PAYLOAD + PAYLOAD_SIZE];
    RegionIsPadded(front, filled, total, payload);
    SetBytes(cell, OFF_DOMAIN_PAYLOAD_ROOT, sha(region));
    CellIsMinted(sha, typeHash, payload, owner, timestampMs, domain, total, cell[..]);
    r := Some(cell[..]);
  }

  lemma RegionIsPadded(front: seq<byte>, filled: seq<byte>, total: seq<byte>, payload: seq<byte>)
    requires |front| == CELL_SIZE && |payload| <= PAYLOAD_SIZE
    requires forall i :: 90 <= i < CELL_SIZE ==> front[i] == 0
    requires OnlyAt(front, filled, OFF_PAYLOAD, |payload|) && filled[OFF_PAYLOAD..OFF_PAYLOAD + |payload|] == payload
    requires OnlyAt(filled, total, OFF_PAYLOAD_TOTAL, 4)
    ensures total[OFF_PAYLOAD..OFF_PAYLOAD + PAYLOAD_SIZE] == Padded(payload)
    ensures forall i :: 94 <= i < OFF_PAYLOAD ==> total[i] == 0
    ensures forall i :: 0 <= i < 90 ==> total[i] == front[i]
  {
    var region := total[OFF_PAYLOAD..OFF_PAYLOAD + PAYLOAD_SIZE];
    forall i | 0 <= i < PAYLOAD_SIZE ensures region[i] == Padded(payload)[i] {
      assert region[i] == filled[OFF_PAYLOAD + i];
      assert i < |payload| ==> filled[OFF_PAYLOAD + i] == filled[OFF_PAYLOAD..OFF_PAYLOAD + |payload|][i];
    }
  }

  lemma CellIsMinted(sha: Sha, typeHash: Digest, payload: seq<byte>, owner: seq<byte>, timestampMs: int, domain: int,
                     total: seq<byte>, cell: seq<byte>)
    requires |payload| <= PAYLOAD_SIZE && |total| == CELL_SIZE
    requires forall i :: 0 <= i < 90 ==> total[i] == FrontByte(typeHash, owner, timestampMs, domain, 0, i)
    requires HasU32(total, OFF_PAYLOAD_TOTAL, |payload|)
    requires forall i :: 94 <= i < OFF_PAYLOAD ==> total[i] == 0
    requires total[OFF_PAYLOAD..OFF_PAYLOAD + PAYLOAD_SIZE] == Padded(payload)
    requires OnlyAt(total, cell, OFF_DOMAIN_PAYLOAD_ROOT, 32)
    requires cell[OFF_DOMAIN_PAYLOAD_ROOT..OFF_DOMAIN_PAYLOAD_ROOT + 32] == sha(Padded(payload))
    ensures cell == Minted(sha, typeHash, payload, owner, timestampMs, domain)
  {
    var front := seq(94, i requires 0 <= i < 94 => FrontByte(typeHash, owner, timestampMs, domain, |payload|, i));
    assert cell[..94] == front;
    assert cell[94..224] == seq(130, _ => 0);
    assert cell[256..] == total[256..] == Padded(payload);
    assert cell == cell[..94] + cell[94..224] + cell[224..256] + cell[256..];
  }

  // ── Parsing ────────────────────────────────────────────────────────

  datatype Kind = Batch | Ack | Other

  datatype ParsedCell = ParsedCell(
    kind: Kind, typeHash: seq<byte>, ownerMac: string, version: int, linearity: int, domainFlags: int,
    timestampMs: int, payloadTotal: int, payload: seq<byte>, payloadRoot: seq<byte>, payloadRootOk: bool)

  function KindOf(sha: Sha, typeHash: seq<byte>): Kind {
    if typeHash == TypeBatch(sha) then Batch else if typeHash == TypeAck(sha) then Ack else Other
  }

  predicate HasMagic(c: seq<byte>)
    requires |c| == CELL_SIZE
  {
    forall i :: 0 <= i < 4 ==> ReadU32(c, i * 4) == Magic(i)
  }

  /** Read a cell; None only for a wrong length or wrong magic, as a bad root is still read and flagged. */
  function Parse(sha: Sha, c: seq<byte>): Option<ParsedCell> {
    if |c| != CELL_SIZE || !HasMagic(c) then None else
      var typeHash, payload, root := c[30..62], c[256..1024], c[224..256];
      Some(ParsedCell(
        KindOf(sha, typeHash), typeHash, MacToString(c[62..68]), ReadU32(c, OFF_VERSION), ReadU32(c, OFF_LINEARITY),
        ReadU32(c, OFF_FLAGS), ReadU64(c, OFF_TIMESTAMP), ReadU32(c, OFF_PAYLOAD_TOTAL), payload, root,
        sha(payload) == root))
  }

  method ParseCell(sha: Sha, c: seq<byte>) returns (r: Option<ParsedCell>)
    ensures r == Parse(sha, c)
  {
    if |c| != CELL_SIZE {
      return None;
    }
    for i := 0 to 4
      invariant forall j :: 0 <= j < i ==> ReadU32(c, j * 4) == Magic(j)
    {
      if ReadU32(c, i * 4) != Magic(i) {
        return None;
      }
    }
    var timestamp := ReadU64LE(c, OFF_TIMESTAMP);
    var typeHash, payload, root := c[30..62], c[256..1024], c[224..256];
    return Some(ParsedCell(
      KindOf(sha, typeHash), typeHash, MacToString(c[62..68]), ReadU32(c, OFF_VERSION), ReadU32(c, OFF_LINEARITY),
      ReadU32(c, OFF_FLAGS), timestamp, ReadU32(c, OFF_PAYLOAD_TOTAL), payload, root, sha(payload) == root));
  }

  /** The four magic words as the bytes a cell begins with. */
  const MAGIC_BYTES: seq<byte> :=
    [0xef, 0xbe, 0xad, 0xde, 0xbe, 0xba, 0xfe, 0xca, 0x37, 0x13, 0x37, 0x13, 0x42, 0x42, 0x42, 0x42]

  lemma WordIsHeld(c: seq<byte>, o: nat, v: int)
    requires o + 4 <= |c| && IsU32(v)
    ensures ReadU32(c, o) == v <==> HasU32(c, o, v)
  {
    hide ReadU32;
    ReadU32IsHeld(c, o);
    if HasU32(c, o, v) {
      U32IsRead(c, o, v);
    }
  }

  lemma MagicIsTheBytes(c: seq<byte>)
    requires |c| == CELL_SIZE
    ensures HasMagic(c) <==> c[..16] == MAGIC_BYTES
  {
    hide ReadU32;
    forall i | 0 <= i < 4 ensures ReadU32(c, i * 4) == Magic(i) <==> HasU32(c, i * 4, Magic(i)) {
      WordIsHeld(c, i * 4, Magic(i));
    }
    if HasMagic(c) {
      forall j | 0 <= j < 16 ensures c[j] == MAGIC_BYTES[j] {
        assert HasU32(c, j / 4 * 4, Magic(j / 4)) && c[j / 4 * 4 + j % 4] == LeByte(Magic(j / 4), j % 4);
        MagicByte(j);
      }
    }
    if c[..16] == MAGIC_BYTES {
      forall i | 0 <= i < 4 ensures HasU32(c, i * 4, Magic(i)) {
        forall k | 0 <= k < 4 ensures c[i * 4 + k] == LeByte(Magic(i), k) {
          assert c[i * 4 + k] == c[..16][i * 4 + k];
          MagicByte(i * 4 + k);
        }
      }
    }
  }

  lemma MagicByte(j: nat)
    requires j < 16
    ensures MAGIC_BYTES[j] == LeByte(Magic(j / 4), j % 4)
  {
    hide LeByte;
    if j < 4 {
      FourBytes(0xdead_beef, 0xde, 0xdead, 0xde_adbe, j % 4);
    } else if j < 8 {
      FourBytes(0xcafe_babe, 0xca, 0xcafe, 0xca_feba, j % 4);
    } else if j < 12 {
      FourBytes(0x1337_1337, 0x13, 0x1337, 0x13_3713, j % 4);
    } else {
      FourBytes(0x4242_4242, 0x42, 0x4242, 0x42_4242, j % 4);
    }
  }

  /** The bytes of a word whose upper parts are known. */
  lemma FourBytes(v: nat, top: nat, half: nat, most: nat, k: nat)
    requires k < 4 && v / 0x100 == most && v / 0x1_0000 == half && v / 0x100_0000 == top
    ensures LeByte(v, k) == [v % 256, most % 256, half % 256, top % 256][k]
  {
  }

  // ── Round trip ─────────────────────────────────────────────────────

  /** Where a minted cell's regions are. */
  lemma MintedRegions(sha: Sha, typeHash: Digest, payload: seq<byte>, owner: seq<byte>, timestampMs: int, domain: int)
    requires |payload| <= PAYLOAD_SIZE
    ensures var c := Minted(sha, typeHash, payload, owner, timestampMs, domain);
            && (forall i :: 0 <= i < 94 ==> c[i] == FrontByte(typeHash, owner, timestampMs, domain, |payload|, i))
            && c[224..256] == sha(Padded(payload)) && c[256..1024] == Padded(payload)
  {
  }

  lemma FrontWords(c: seq<byte>, typeHash: Digest, owner: seq<byte>, timestampMs: int, domain: int, total: int)
    requires |c| == CELL_SIZE
    requires forall i :: 0 <= i < 94 ==> c[i] == FrontByte(typeHash, owner, timestampMs, domain, total, i)
    ensures HasU32(c, OFF_LINEARITY, LINEARITY_AFFINE) && HasU32(c, OFF_VERSION, CELL_VERSION)
    ensures HasU32(c, OFF_FLAGS, domain) && HasU32(c, OFF_PAYLOAD_TOTAL, total)
    ensures c[30..62] == typeHash
    ensures forall k :: 0 <= k < 8 ==> c[OFF_TIMESTAMP + k] == LeByte(timestampMs, k)
    ensures |owner| >= 6 ==> c[62..68] == owner[..6]
  {
  }

  lemma FrontMagic(c: seq<byte>, typeHash: Digest, owner: seq<byte>, timestampMs: int, domain: int, total: int)
    requires |c| == CELL_SIZE
    requires forall i :: 0 <= i < 94 ==> c[i] == FrontByte(typeHash, owner, timestampMs, domain, total, i)
    ensures HasMagic(c)
  {
    forall i | 0 <= i < 4 ensures ReadU32(c, i * 4) == Magic(i) {
      assert HasU32(c, i * 4, Magic(i));
      U32IsRead(c, i * 4, Magic(i));
    }
  }

  /** Where everything in a minted cell lies, and that the rest of it is zero. */
  lemma CellLayout(sha: Sha, typeHash: Digest, payload: seq<byte>, owner: seq<byte>, timestampMs: int, domain: int)
    requires |payload| <= PAYLOAD_SIZE && |owner| == 16 && IsU32(domain)
    requires 0 <= timestampMs < 0x1_0000_0000_0000_0000
    ensures var c := Minted(sha, typeHash, payload, owner, timestampMs, domain);
            && |c| == 1024 && c[..16] == MAGIC_BYTES
            && ReadU32(c, 16) == 2 && ReadU32(c, 20) == 2 && ReadU32(c, 24) == domain && c[28..30] == [0, 0]
            && c[30..62] == typeHash && c[62..78] == owner && ReadU64(c, 78) == timestampMs && c[86..90] == [0, 0, 0, 0]
            && ReadU32(c, 90) == |payload| && (forall i :: 94 <= i < 224 ==> c[i] == 0)
            && c[224..256] == sha(c[256..1024])
            && c[256..256 + |payload|] == payload && forall i :: 256 + |payload| <= i < 1024 ==> c[i] == 0
  {
    var c := Minted(sha, typeHash, payload, owner, timestampMs, domain);
    MintedRegions(sha, typeHash, payload, owner, timestampMs, domain);
    FrontWords(c, typeHash, owner, timestampMs, domain, |payload|);
    FrontMagic(c, typeHash, owner, timestampMs, domain, |payload|);
    MagicIsTheBytes(c);
    FrontGaps(c, typeHash, owner, timestampMs, domain, |payload|);
    GapIsZero(sha, typeHash, payload, owner, timestampMs, domain);
    hide Minted, FrontByte, HasMagic, ReadU32, ReadU64, HasU32;
    U32IsRead(c, OFF_LINEARITY, LINEARITY_AFFINE);
    U32IsRead(c, OFF_VERSION, CELL_VERSION);
    U32IsRead(c, OFF_FLAGS, domain);
    U32IsRead(c, OFF_PAYLOAD_TOTAL, |payload|);
    HalvesOfU64(c, OFF_TIMESTAMP, timestampMs);
    PaddedParts(c, payload);
  }

  lemma FrontGaps(c: seq<byte>, typeHash: Digest, owner: seq<byte>, timestampMs: int, domain: int, total: int)
    requires |c| == CELL_SIZE && |owner| == 16
    requires forall i :: 0 <= i < 94 ==> c[i] == FrontByte(typeHash, owner, timestampMs, domain, total, i)
    ensures c[28..30] == [0, 0] && c[62..78] == owner && c[86..90] == [0, 0, 0, 0]
  {
  }

  lemma GapIsZero(sha: Sha, typeHash: Digest, payload: seq<byte>, owner: seq<byte>, timestampMs: int, domain: int)
    requires |payload| <= PAYLOAD_SIZE
    ensures forall i :: 94 <= i < 224 ==> Minted(sha, typeHash, payload, owner, timestampMs, domain)[i] == 0
  {
    hide FrontByte;
  }

  lemma PaddedParts(c: seq<byte>, payload: seq<byte>)
    requires |c| == CELL_SIZE && |payload| <= PAYLOAD_SIZE && c[256..1024] == Padded(payload)
    ensures c[256..256 + |payload|] == payload && forall i :: 256 + |payload| <= i < 1024 ==> c[i] == 0
  {
    forall i | 256 <= i < 1024 ensures c[i] == Padded(payload)[i - 256] {
      assert c[i] == c[256..1024][i - 256];
    }
    assert c[256..256 + |payload|] == Padded(payload)[..|payload|];
  }

  /** Every field a cell was minted with, its payload padded and its root good. */
  ghost predicate ReadsBack(r: Option<ParsedCell>, sha: Sha, typeHash: Digest, payload: seq<byte>, owner: seq<byte>,
                            timestampMs: int, domain: int)
    requires |payload| <= PAYLOAD_SIZE && |owner| >= 6
  {
    && r.Some?
    && r.value.kind == KindOf(sha, typeHash) && r.value.typeHash == typeHash
    && r.value.ownerMac == MacToString(owner[..6])
    && r.value.version == CELL_VERSION && r.value.linearity == LINEARITY_AFFINE
    && (IsU32(domain) ==> r.value.domainFlags == domain)
    && (0 <= timestampMs < 0x1_0000_0000_0000_0000 ==> r.value.timestampMs == timestampMs)
    && r.value.payloadTotal == |payload|
    && r.value.payload == Padded(payload)
    && r.value.payloadRootOk
  }

  /** A minted cell parses to what it was minted with. */
  lemma ParseMinted(sha: Sha, typeHash: Digest, payload: seq<byte>, owner: seq<byte>, timestampMs: int, domain: int)
    requires |payload| <= PAYLOAD_SIZE && |owner| >= 6
    ensures ReadsBack(Parse(sha, Minted(sha, typeHash, payload, owner, timestampMs, domain)), sha, typeHash, payload,
        owner, timestampMs, domain)
  {
    var c := Minted(sha, typeHash, payload, owner, timestampMs, domain);
    MintedRegions(sha, typeHash, payload, owner, timestampMs, domain);
    ParseFields(sha, c, typeHash, payload, owner, timestampMs, domain);
  }

  lemma ParseFields(sha: Sha, c: seq<byte>, typeHash: Digest, payload: seq<byte>, owner: seq<byte>, timestampMs: int,
      domain: int)
    requires |payload| <= PAYLOAD_SIZE && |owner| >= 6 && |c| == CELL_SIZE
    requires forall i :: 0 <= i < 94 ==> c[i] == FrontByte(typeHash, owner, timestampMs, domain, |payload|, i)
    requires c[224..256] == sha(Padded(payload)) && c[256..1024] == Padded(payload)
    ensures ReadsBack(Parse(sha, c), sha, typeHash, payload, owner, timestampMs, domain)
  {
    FrontWords(c, typeHash, owner, timestampMs, domain, |payload|);
    FrontMagic(c, typeHash, owner, timestampMs, domain, |payload|);
    U32IsRead(c, OFF_LINEARITY, LINEARITY_AFFINE);
    U32IsRead(c, OFF_VERSION, CELL_VERSION);
    U32IsRead(c, OFF_PAYLOAD_TOTAL, |payload|);
    if IsU32(domain) {
      U32IsRead(c, OFF_FLAGS, domain);
    }
    if 0 <= timestampMs < 0x1_0000_0000_0000_0000 {
      HalvesOfU64(c, OFF_TIMESTAMP, timestampMs);
    }
  }
}
