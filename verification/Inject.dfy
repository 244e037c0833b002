/**
 * The line that carries a signed cell to a device's serial port, and the device's
 * reader (serial-mesh.ts, mesh_demo/main.c).
 */
module Inject {
  import opened Prelude
  import opened Bytes
  import opened Hex
  import opened Crc32

  const CELL_SIZE := 1024
  const SIG_SIZE := 64
  const BODY_SIZE := 1088
  /** cell, signature and CRC */
  const PAYLOAD_BYTES := 1092
  const LINE_MAX := 2186

  datatype Frame = Frame(cell: seq<byte>, sig: seq<byte>)

  // ── The host ───────────────────────────────────────────────────────

  function CrcBytes(crc: word): (s: seq<byte>)
    ensures |s| == 4
  {
    [LeByte(crc, 0), LeByte(crc, 1), LeByte(crc, 2), LeByte(crc, 3)]
  }

  /** A frame's line without its newline. */
  function FrameText(f: Frame): string {
    "IJ" + ToHex(f.cell + f.sig + CrcBytes(Crc(f.cell + f.sig)))
  }

  function FrameCell(f: Frame): string {
    FrameText(f) + "\n"
  }

  predicate WholeFrame(f: Frame) {
    |f.cell| == CELL_SIZE && |f.sig| == SIG_SIZE
  }

  // ── One line at the device ─────────────────────────────────────────

  /** The frame a line carries, if its size, its digits and its CRC are right. */
  function Injected(line: string): Option<Frame> {
    if |line| < 2 || line[0] != 'I' || line[1] != 'J' || |line| - 2 != 2 * PAYLOAD_BYTES || !AllHex(line[2..]) then None
    else
      var d := FromHex(line[2..]);
      if |d| != PAYLOAD_BYTES || Crc(d[..BODY_SIZE]) != ReadU32(d, BODY_SIZE) then None
      else Some(Frame(d[..CELL_SIZE], d[CELL_SIZE..BODY_SIZE]))
  }

  lemma {:induction false} FromHexAt(s: string, i: nat)
    requires AllHex(s) && |s| % 2 == 0 && 2 * i < |s|
    ensures i < |FromHex(s)| && FromHex(s)[i] == PairValue(s[2 * i], s[2 * i + 1])
    decreases i
  {
    if i > 0 {
      FromHexAt(s[2..], i - 1);
    }
  }

  /** inject_process_line: decode two digits at a time, then check the CRC. */
  method InjectProcessLine(line: string) returns (r: Option<Frame>)
    ensures r == Injected(line)
  {
    if |line| < 2 || line[0] != 'I' || line[1] != 'J' {
      return None;
    }
    if |line| - 2 != 2 * PAYLOAD_BYTES {
      return None;
    }
    ghost var hex := line[2..];
    var d := [];
    for i := 0 to PAYLOAD_BYTES
      invariant |d| == i && AllHex(hex[..2 * i])
      invariant forall k :: 0 <= k < i ==> IsHex(hex[2 * k]) && IsHex(hex[2 * k + 1])
      invariant forall k :: 0 <= k < i ==> d[k] == PairValue(hex[2 * k], hex[2 * k + 1])
    {
      var hi, lo := line[2 + 2 * i], line[2 + 2 * i + 1];
      assert hex[2 * i] == hi && hex[2 * i + 1] == lo;
      if !IsHex(hi) || !IsHex(lo) {
        return None;
      }
      d := d + [PairValue(hi, lo)];
    }
    assert hex[..2 * PAYLOAD_BYTES] == hex;
    DecodedIsFromHex(hex, d);
    var got := Crc32Zlib(d[..BODY_SIZE]);
    if got != ReadU32(d, BODY_SIZE) {
      return None;
    }
    return Some(Frame(d[..CELL_SIZE], d[CELL_SIZE..BODY_SIZE]));
  }

  lemma DecodedIsFromHex(hex: string, d: seq<byte>)
    requires AllHex(hex) && |hex| == 2 * |d|
    requires forall k :: 0 <= k < |d| ==> d[k] == PairValue(hex[2 * k], hex[2 * k + 1])
    ensures FromHex(hex) == d
  {
    FromHexLength(hex);
    forall k | 0 <= k < |d| ensures FromHex(hex)[k] == d[k] {
      FromHexAt(hex, k);
    }
  }

  // ── The device's line buffer ───────────────────────────────────────

  predicate EndsLine(c: char) {
    c == '\n' || c == '\r'
  }

  /** The buffer after one more character: it starts over at a line's end and when it overruns. */
  function NextBuffer(buf: string, c: char): string {
    if EndsLine(c) || |buf| >= LINE_MAX then [] else buf + [c]
  }

  /** The frame a character completes, if it ends a line that carries one. */
  function Completed(buf: string, c: char): seq<Frame> {
    if EndsLine(c) && buf != [] && Injected(buf).Some? then [Injected(buf).value] else []
  }

  /** What is left in the buffer after some text. */
  function Buffered(buf: string, text: string): string
    decreases |text|
  {
    if text == [] then buf else Buffered(NextBuffer(buf, text[0]), text[1..])
  }

  /** The frames injected while it was read. */
  function Frames(buf: string, text: string): seq<Frame>
    decreases |text|
  {
    if text == [] then [] else Completed(buf, text[0]) + Frames(NextBuffer(buf, text[0]), text[1..])
  }

  lemma ReadsOne(buf: string, text: string)
    requires text != []
    ensures Frames(buf, text) == Completed(buf, text[0]) + Frames(NextBuffer(buf, text[0]), text[1..])
    ensures Buffered(buf, text) == Buffered(NextBuffer(buf, text[0]), text[1..])
  {
  }

  lemma ReadsNone(buf: string)
    ensures Frames(buf, []) == [] && Buffered(buf, []) == buf
  {
  }

  lemma Associates(xs: seq<Frame>, ys: seq<Frame>, zs: seq<Frame>)
    ensures xs + (ys + zs) == xs + ys + zs && xs + [] == xs && [] + xs == xs
  {
  }

  /** serial_inject_task, over the characters it is given. */
  method SerialInject(rx: string, before: string) returns (frames: seq<Frame>, line: string)
    ensures frames == Frames(before, rx) && line == Buffered(before, rx)
  {
    hide Injected, Frames, Buffered, Completed;
    frames, line := [], before;
    Associates(Frames(before, rx), [], []);
    assert rx[0..] == rx && rx[|rx|..] == [];
    for i := 0 to |rx|
      invariant frames + Frames(line, rx[i..]) == Frames(before, rx)
      invariant Buffered(line, rx[i..]) == Buffered(before, rx)
    {
      var c := rx[i];
      assert rx[i..][0] == c && rx[i..][1..] == rx[i + 1..];
      ReadsOne(line, rx[i..]);
      Associates(frames, Completed(line, c), Frames(NextBuffer(line, c), rx[i + 1..]));
      var done := TakeChar(line, c);
      frames := frames + done;
      line := if EndsLine(c) || |line| >= LINE_MAX then [] else line + [c];
    }
    ReadsNone(line);
    Associates(frames, [], []);
  }

  /** A line's end hands the line on, if there is one. */
  method TakeChar(line: string, c: char) returns (done: seq<Frame>)
    ensures done == Completed(line, c)
  {
    done := [];
    if EndsLine(c) && |line| > 0 {
      var f := InjectProcessLine(line);
      if f.Some? {
        done := [f.value];
      }
    }
  }

  /** Reading in two parts is reading at once. */
  lemma {:induction false} ReadInParts(buf: string, a: string, b: string)
    ensures Frames(buf, a + b) == Frames(buf, a) + Frames(Buffered(buf, a), b)
    ensures Buffered(buf, a + b) == Buffered(Buffered(buf, a), b)
    decreases |a|
  {
    hide Completed, NextBuffer;
    if a == [] {
      assert a + b == b;
    } else {
      assert (a + b)[1..] == a[1..] + b;
      ReadInParts(NextBuffer(buf, a[0]), a[1..], b);
    }
  }

  predicate NoEnd(s: string) {
    forall i :: 0 <= i < |s| ==> !EndsLine(s[i])
  }

  lemma NoiseAdds(buf: string, c: char)
    requires |buf| <= LINE_MAX && !EndsLine(c)
    ensures NextBuffer(buf, c) == (if |buf| < LINE_MAX then buf + [c] else []) && Completed(buf, c) == []
  {
  }

  lemma Wraps(n: nat)
    requires n > 0
    ensures (LINE_MAX + n) % (LINE_MAX + 1) == (n - 1) % (LINE_MAX + 1)
  {
  }

  /** Without a line end nothing is injected, and the buffer starts over each time it overruns. */
  lemma {:induction false} NoiseIsBuffered(buf: string, noise: string)
    requires |buf| <= LINE_MAX && NoEnd(noise)
    ensures Frames(buf, noise) == []
    ensures |Buffered(buf, noise)| == (|buf| + |noise|) % (LINE_MAX + 1)
    ensures |buf| + |noise| <= LINE_MAX ==> Buffered(buf, noise) == buf + noise
    decreases |noise|
  {
    hide Injected, Frames, Buffered, NextBuffer, Completed, EndsLine;
    if noise == [] {
      ReadsNone(buf);
      assert buf + noise == buf;
    } else {
      ReadsOne(buf, noise);
      NoiseAdds(buf, noise[0]);
      var rest := noise[1..];
      if |buf| < LINE_MAX {
        NoiseIsBuffered(buf + [noise[0]], rest);
        assert buf + [noise[0]] + rest == buf + noise;
      } else {
        NoiseIsBuffered([], rest);
        Wraps(|noise|);
      }
    }
  }

  // ── The whole way ──────────────────────────────────────────────────

  lemma CrcReadsBack(crc: word)
    ensures ReadU32(CrcBytes(crc), 0) == crc
  {
    U32IsRead(CrcBytes(crc), 0, crc);
  }

  /** A framed cell is the frame its line carries. */
  lemma FrameReads(f: Frame)
    requires WholeFrame(f)
    ensures Injected(FrameText(f)) == Some(f) && |FrameText(f)| == LINE_MAX && NoEnd(FrameText(f))
  {
    var crc := Crc(f.cell + f.sig);
    var d := f.cell + f.sig + CrcBytes(crc);
    FromToHex(d);
    CrcReadsBack(crc);
    hide Crc, ToHex, FromHex;
    assert FrameText(f)[2..] == ToHex(d);
    assert d[..BODY_SIZE] == f.cell + f.sig && d[..CELL_SIZE] == f.cell && d[CELL_SIZE..BODY_SIZE] == f.sig;
    assert d[BODY_SIZE..] == CrcBytes(crc);
  }

  /** A line of any other length carries nothing. */
  lemma OtherLengthsCarryNothing(line: string)
    requires |line| != LINE_MAX
    ensures Injected(line) == None
  {
  }

  lemma LineEnds(buf: string)
    ensures Buffered(buf, "\n") == [] && Frames(buf, "\n")
        == if buf != [] && Injected(buf).Some? then [Injected(buf).value] else []
  {
  }

  /** The line in the buffer after noise and a frame's text: the frame's own exactly at multiples of 2187. */
  lemma NoiseThenFrame(noise: string, t: string)
    requires NoEnd(noise) && NoEnd(t) && |t| == LINE_MAX
    ensures Frames("", noise + t) == []
    ensures if |noise| % (LINE_MAX + 1) == 0 then Buffered("", noise + t) == t
        else |Buffered("", noise + t)| != LINE_MAX
  {
    hide Frames, Buffered, NoEnd;
    var buf := Buffered("", noise);
    NoiseIsBuffered("", noise);
    ReadInParts("", noise, t);
    NoiseIsBuffered(buf, t);
    assert |noise| % (LINE_MAX + 1) == 0 ==> buf == [] && [] + t == t;
  }

  /**
   * A frame that follows other text on its line is injected exactly when that
   * text's length is a multiple of 2187: none at all, or so much that the buffer
   * has just started over. Whatever comes after the line is read as if alone.
   */
  lemma FrameAfterNoise(noise: string, f: Frame, rest: string)
    requires WholeFrame(f) && NoEnd(noise)
    ensures Frames("", noise + FrameCell(f) + rest)
         == (if |noise| % (LINE_MAX + 1) == 0 then [f] else []) + Frames("", rest)
  {
    var t := FrameText(f);
    FrameReads(f);
    NoiseThenFrame(noise, t);
    var line := Buffered("", noise + t);
    assert noise + FrameCell(f) + rest == (noise + t) + ("\n" + rest);
    hide *;
    ReadInParts("", noise + t, "\n" + rest);
    ReadInParts(line, "\n", rest);
    LineEnds(line);
    if |noise| % (LINE_MAX + 1) != 0 {
      OtherLengthsCarryNothing(line);
    }
  }

  /** A frame that begins a line is injected once, and the frames before and after it are unchanged. */
  lemma FramesGetThrough(before: string, f: Frame, rest: string)
    requires WholeFrame(f) && Buffered("", before) == ""
    ensures Frames("", before + FrameCell(f) + rest) == Frames("", before) + [f] + Frames("", rest)
  {
    hide Injected, FrameCell, Frames, Buffered;
    assert before + FrameCell(f) + rest == before + (FrameCell(f) + rest);
    assert Frames("", before) + [f] + Frames("", rest) == Frames("", before) + ([f] + Frames("", rest));
    ReadInParts("", before, FrameCell(f) + rest);
    FrameAfterNoise("", f, rest);
    assert "" + FrameCell(f) + rest == FrameCell(f) + rest;
  }

  /** A frame garbled within four consecutive bytes of its cell or signature is never injected. */
  lemma GarbledFrameIsDropped(body: seq<byte>, garbled: seq<byte>, i: nat, j: nat)
    requires |body| == |garbled| == BODY_SIZE && body != garbled
    requires i <= j <= BODY_SIZE && j <= i + 4 && body[..i] == garbled[..i] && body[j..] == garbled[j..]
    ensures Injected("IJ" + ToHex(garbled + CrcBytes(Crc(body)))) == None
  {
    if Crc(body) == Crc(garbled) {
      BurstsAreDetected(body, garbled, i, j);
    }
    var d := garbled + CrcBytes(Crc(body));
    FromToHex(d);
    CrcReadsBack(Crc(body));
    hide Crc, ToHex, FromHex;
    assert ("IJ" + ToHex(d))[2..] == ToHex(d);
    assert d[..BODY_SIZE] == garbled && d[BODY_SIZE..] == CrcBytes(Crc(body));
  }

  // ── Exactly what is injected ───────────────────────────────────────

  lemma FrameOfBytes(d: seq<byte>, f: Frame)
    requires |d| == PAYLOAD_BYTES
    ensures Crc(d[..BODY_SIZE]) == ReadU32(d, BODY_SIZE) && f == Frame(d[..CELL_SIZE], d[CELL_SIZE..BODY_SIZE])
            <==> WholeFrame(f) && d == f.cell + f.sig + CrcBytes(Crc(f.cell + f.sig))
  {
    hide Crc, ReadU32;
    var body, word := d[..BODY_SIZE], d[BODY_SIZE..];
    assert body == d[..CELL_SIZE] + d[CELL_SIZE..BODY_SIZE] && d == body + word;
    ReadU32IsHeld(d, BODY_SIZE);
    if WholeFrame(f) && d == f.cell + f.sig + CrcBytes(Crc(f.cell + f.sig)) {
      assert body == f.cell + f.sig && word == CrcBytes(Crc(body));
      assert body[..CELL_SIZE] == f.cell && body[CELL_SIZE..] == f.sig;
      U32IsRead(d, BODY_SIZE, Crc(body));
    }
    if Crc(body) == ReadU32(d, BODY_SIZE) {
      assert word == CrcBytes(Crc(body));
    }
  }

  /** A line carries a frame exactly when it is that frame's text, with its digits in either case. */
  lemma InjectedIsExact(line: string, f: Frame)
    ensures Injected(line) == Some(f) <==>
              WholeFrame(f) && |line| >= 2 && line[..2] == "IJ" && Lower(line[2..]) == FrameText(f)[2..]
  {
    hide Crc, ReadU32, FromHex, ToHex, Lower, CrcBytes;
    if |line| >= 2 {
      var d := f.cell + f.sig + CrcBytes(Crc(f.cell + f.sig));
      assert FrameText(f)[2..] == ToHex(d);
      assert line[..2] == "IJ" <==> line[0] == 'I' && line[1] == 'J';
      HexMatches(line[2..], d);
      if AllHex(line[2..]) && |line| - 2 == 2 * PAYLOAD_BYTES {
        FromHexLength(line[2..]);
        FrameOfBytes(FromHex(line[2..]), f);
      }
    }
  }

  /** A line that fits the buffer is injected or not by itself, whatever ends it and whatever follows. */
  lemma LineIsDecided(line: string, end: char, rest: string)
    requires NoEnd(line) && 0 < |line| <= LINE_MAX && EndsLine(end)
    ensures Frames("", line + [end] + rest)
         == (if Injected(line).Some? then [Injected(line).value] else []) + Frames("", rest)
  {
    hide Injected;
    assert line + [end] + rest == line + ([end] + rest);
    NoiseIsBuffered("", line);
    assert "" + line == line;
    ReadInParts("", line, [end] + rest);
    assert ([end] + rest)[1..] == rest;
  }
}
