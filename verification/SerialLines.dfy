/** The lines a gateway and its bridge exchange: TL frames one way, AK lines the other (codec.ts). */
module SerialLines {
  import opened Prelude
  import opened Hex
  import opened Crc32
  import Cell

  // ── White space ────────────────────────────────────────────────────

  /** What trim() and \s take for white space. */
  predicate IsSpace(c: char) {
    var v := c as int;
    9 <= v <= 13 || v == 0x20 || v == 0xa0 || v == 0x1680 || 0x2000 <= v <= 0x200a || v == 0x2028 || v == 0x2029
    || v == 0x202f || v == 0x205f || v == 0x3000 || v == 0xfeff
  }

  predicate AllSpace(s: string) {
    forall i :: 0 <= i < |s| ==> IsSpace(s[i])
  }

  predicate NoSpace(s: string) {
    forall i :: 0 <= i < |s| ==> !IsSpace(s[i])
  }

  function TrimLeft(s: string): (r: string)
    ensures |r| <= |s|
    ensures r != [] ==> !IsSpace(r[0])
  {
    if s != [] && IsSpace(s[0]) then TrimLeft(s[1..]) else s
  }

  function TrimRight(s: string): (r: string)
    ensures |r| <= |s|
  {
    if s != [] && IsSpace(s[|s| - 1]) then TrimRight(s[..|s| - 1]) else s
  }

  function Trim(s: string): string {
    TrimRight(TrimLeft(s))
  }

  /** The length of a text's first word. */
  function Word(s: string): (k: nat)
    ensures k <= |s| && (k < |s| ==> IsSpace(s[k]))
  {
    if s == [] || IsSpace(s[0]) then 0 else 1 + Word(s[1..])
  }

  /** split(/\s+/) */
  function SplitWs(s: string): seq<string>
    decreases |s|
  {
    var k := Word(s);
    if k == |s| then [s] else [s[..k]] + SplitWs(TrimLeft(s[k + 1..]))
  }

  lemma {:induction false} WordIs(f: string, rest: string)
    requires NoSpace(f) && (rest == [] || IsSpace(rest[0]))
    ensures Word(f + rest) == |f|
  {
    if f == [] {
      assert f + rest == rest;
    } else {
      assert (f + rest)[1..] == f[1..] + rest;
      WordIs(f[1..], rest);
    }
  }

  /** A word comes off the front, with the white space after it. */
  lemma SplitStep(f: string, c: char, rest: string)
    requires NoSpace(f) && IsSpace(c)
    ensures SplitWs(f + [c] + rest) == [f] + SplitWs(TrimLeft(rest))
  {
    var s := f + [c] + rest;
    assert s == f + ([c] + rest);
    WordIs(f, [c] + rest);
    assert s[|f| + 1..] == rest && s[..|f|] == f;
  }

  lemma SplitField(f: string, rest: string)
    requires NoSpace(f) && rest != [] && !IsSpace(rest[0])
    ensures SplitWs(f + " " + rest) == [f] + SplitWs(rest)
  {
    hide SplitWs, Word;
    SplitStep(f, ' ', rest);
  }

  lemma SplitLast(f: string)
    requires NoSpace(f)
    ensures SplitWs(f) == [f]
  {
    assert f + [] == f;
    WordIs(f, []);
  }

  lemma {:induction false} TrimLeftKeeps(noise: string, rest: string)
    requires rest != [] && !IsSpace(rest[0])
    ensures TrimLeft(noise + rest) == TrimLeft(noise) + rest
  {
    if noise == [] {
      assert noise + rest == rest;
    } else {
      assert (noise + rest)[1..] == noise[1..] + rest;
      if IsSpace(noise[0]) {
        TrimLeftKeeps(noise[1..], rest);
      }
    }
  }

  lemma {:induction false} TrimRightKeeps(text: string, space: string)
    requires text != [] && !IsSpace(text[|text| - 1]) && AllSpace(space)
    ensures TrimRight(text + space) == text
  {
    if space == [] {
      assert text + space == text;
    } else {
      var n := |space| - 1;
      assert (text + space)[..|text + space| - 1] == text + space[..n];
      TrimRightKeeps(text, space[..n]);
    }
  }

  /** White space around a text comes off, and nothing else does. */
  lemma TrimKeeps(noise: string, text: string, space: string)
    requires text != [] && !IsSpace(text[0]) && !IsSpace(text[|text| - 1]) && AllSpace(space)
    ensures Trim(noise + text + space) == TrimLeft(noise) + text
  {
    assert noise + text + space == noise + (text + space);
    TrimLeftKeeps(noise, text + space);
    assert TrimLeft(noise) + (text + space) == TrimLeft(noise) + text + space;
    TrimRightKeeps(TrimLeft(noise) + text, space);
  }

  // ── TL frames ──────────────────────────────────────────────────────

  datatype Reason = FieldCount(n: nat) | BadMac | CellLength(n: nat) | CellNotHex | BadCrcField | CrcMismatch

  datatype LineClass = Tl(mac: string, cell: seq<byte>) | Bad(reason: Reason) | Other

  /** What a frame holds, or the first check it fails. */
  function CheckTl(frame: string): LineClass {
    var fields := SplitWs(frame);
    if |fields| != 4 then Bad(FieldCount(|fields|)) else CheckFields(fields[1], fields[2], fields[3])
  }

  function CheckFields(mac: string, cellHex: string, crcHex: string): LineClass {
    if !IsColonMac(mac) then Bad(BadMac)
    else if |cellHex| != 2 * Cell.CELL_SIZE then Bad(CellLength(|cellHex|))
    else if !AllHex(cellHex) then Bad(CellNotHex)
    else if |crcHex| != 8 || !AllHex(crcHex) then Bad(BadCrcField)
    else
      var cell := FromHex(cellHex);
      if Crc(cell) != ParseHex(crcHex) then Bad(CrcMismatch) else Tl(Lower(mac), cell)
  }

  predicate StartsTl(s: string) {
    |s| >= 3 && s[0] == 'T' && s[1] == 'L' && s[2] == ' '
  }

  /** lastIndexOf('TL ') */
  function LastTl(s: string): (k: int)
    ensures -1 <= k && k + 3 <= Max(|s|, 2)
  {
    if |s| < 3 then -1 else if StartsTl(s[|s| - 3..]) then |s| - 3 else LastTl(s[..|s| - 1])
  }

  /** Sort a line into frame, bad frame or other text; the last "TL " is tried when the line begins otherwise. */
  function Classify(raw: string): LineClass {
    var line := Trim(raw);
    if line == "TL" || StartsTl(line) then CheckTl(line)
    else
      var at := LastTl(line);
      if at > 0 && CheckTl(line[at..]).Tl? then CheckTl(line[at..]) else Other
  }

  /** A TL line without its newline. */
  function TlFrame(mac: MacBytes, cell: seq<byte>, crc: word): string {
    "TL" + " " + (MacToString(mac) + " " + (ToHex(cell) + " " + Hex8(crc)))
  }

  /** formatTlLine, or None where it throws. */
  function FormatTl(mac: string, cell: seq<byte>): Option<string> {
    if |cell| != Cell.CELL_SIZE || MacToBytes(mac).None? then None
    else Some(TlFrame(MacToBytes(mac).value, cell, Crc(cell)) + "\n")
  }

  lemma HexIsNoSpace(s: string)
    requires AllHex(s)
    ensures NoSpace(s)
  {
  }

  lemma CanonMacIsPlain(s: string)
    requires IsCanonMac(s)
    ensures NoSpace(s) && 'T' !in s && Lower(s) == s && |s| == 17
  {
    forall i | 0 <= i < 17 ensures !IsSpace(s[i]) && s[i] != 'T' && LowerChar(s[i]) == s[i] {
      assert IsCanonMacChar(i, s[i]);
    }
    assert Lower(s) == s;
  }

  /** Four words, one space apart. */
  lemma FourFields(m: string, h: string, c: string)
    requires NoSpace(m) && NoSpace(h) && NoSpace(c) && m != [] && h != [] && c != []
    ensures SplitWs("TL" + " " + (m + " " + (h + " " + c))) == ["TL", m, h, c]
  {
    hide SplitWs;
    SplitLast(c);
    SplitField(h, c);
    SplitField(m, h + " " + c);
    SplitField("TL", m + " " + (h + " " + c));
  }

  lemma FrameFields(mac: MacBytes, cell: seq<byte>, crc: word)
    requires |cell| > 0
    ensures SplitWs(TlFrame(mac, cell, crc)) == ["TL", MacToString(mac), ToHex(cell), Hex8(crc)]
  {
    MacStringIsCanon(mac);
    CanonMacIsPlain(MacToString(mac));
    HexIsNoSpace(ToHex(cell));
    HexIsNoSpace(Hex8(crc));
    FourFields(MacToString(mac), ToHex(cell), Hex8(crc));
  }

  /** A frame checks out exactly when its CRC field is its cell's CRC. */
  lemma FrameChecks(mac: MacBytes, cell: seq<byte>, crc: word)
    requires |cell| == Cell.CELL_SIZE
    ensures CheckTl(TlFrame(mac, cell, crc))
        == if crc == Crc(cell) then Tl(MacToString(mac), cell) else Bad(CrcMismatch)
  {
    FrameFields(mac, cell, crc);
    FromToHex(cell);
    ParseHex8(crc);
    MacStringIsCanon(mac);
    CanonMacIsPlain(MacToString(mac));
  }

  lemma {:induction false} LastTlIs(noise: string, tail: string)
    requires StartsTl(tail) && 'T' !in tail[1..]
    ensures LastTl(noise + tail) == |noise|
    decreases |tail|
  {
    var s := noise + tail;
    if |tail| == 3 {
      assert s[|s| - 3..] == tail;
    } else {
      var n := |tail| - 1;
      assert s[|s| - 3] == tail[|tail| - 3];
      assert tail[|tail| - 3] == tail[1..][|tail| - 4];
      assert !StartsTl(s[|s| - 3..]);
      assert s[..|s| - 1] == noise + tail[..n];
      assert tail[..n][1..] == tail[1..][..n - 1];
      LastTlIs(noise, tail[..n]);
    }
  }

  lemma HexHasNoT(s: string)
    requires AllHex(s)
    ensures 'T' !in s
  {
  }

  lemma FrameShape(mac: MacBytes, cell: seq<byte>, crc: word)
    ensures var f := TlFrame(mac, cell, crc);
            && StartsTl(f) && 'T' !in f[1..] && !IsSpace(f[0]) && !IsSpace(f[|f| - 1])
            && |f| == 30 + 2 * |cell|
  {
    MacStringIsCanon(mac);
    CanonMacIsPlain(MacToString(mac));
    HexHasNoT(ToHex(cell));
    HexHasNoT(Hex8(crc));
    HexIsNoSpace(Hex8(crc));
    TextShape(MacToString(mac), ToHex(cell), Hex8(crc));
  }

  lemma TextShape(m: string, h: string, c: string)
    requires 'T' !in m && 'T' !in h && 'T' !in c && NoSpace(c) && c != []
    ensures var f := "TL" + " " + (m + " " + (h + " " + c));
            && StartsTl(f) && 'T' !in f[1..] && !IsSpace(f[0]) && !IsSpace(f[|f| - 1])
            && |f| == 5 + |m| + |h| + |c|
  {
    var f := "TL" + " " + (m + " " + (h + " " + c));
    assert f[1..] == "L" + " " + m + " " + h + " " + c;
    assert f[|f| - 1] == c[|c| - 1];
  }

  /** Text before a word never makes for fewer fields. */
  lemma {:induction false} NoFewerFields(before: string, w: string, rest: string)
    requires before == [] || !IsSpace(before[0])
    requires w != [] && NoSpace(w) && rest != [] && !IsSpace(rest[0])
    ensures |SplitWs(before + (w + " " + rest))| >= 1 + |SplitWs(rest)|
    decreases |before|
  {
    hide SplitWs, TrimLeft, Word;
    var k, text := Word(before), w + " " + rest;
    WordHasNoSpace(before);
    if k == |before| {
      assert before[..k] == before;
      SplitField(before + w, rest);
      assert before + text == before + w + " " + rest;
    } else {
      var more := before[k + 1..];
      SplitStep(before[..k], before[k], more + text);
      assert before + text == before[..k] + [before[k]] + (more + text);
      TrimLeftKeeps(more, text);
      NoFewerFields(TrimLeft(more), w, rest);
    }
  }

  lemma {:induction false} WordHasNoSpace(s: string)
    ensures NoSpace(s[..Word(s)])
  {
    if s != [] && !IsSpace(s[0]) {
      WordHasNoSpace(s[1..]);
      assert s[..Word(s)] == [s[0]] + s[1..][..Word(s[1..])];
    }
  }

  /** A TL line that ends with a whole frame has too many fields to check. */
  lemma TooManyFields(x: string, mac: MacBytes, cell: seq<byte>, crc: word)
    requires StartsTl(x) && |cell| > 0
    ensures |SplitWs(x + TlFrame(mac, cell, crc))| >= 5
  {
    hide SplitWs, TrimLeft, ToHex, Hex8, MacToString, IsCanonMac;
    var y, m := x[3..], MacToString(mac);
    var rest := m + " " + (ToHex(cell) + " " + Hex8(crc));
    MacStringIsCanon(mac);
    CanonMacIsPlain(m);
    assert rest[0] == m[0];
    FrameFields(mac, cell, crc);
    SplitField("TL", rest);
    assert x + ("TL" + " " + rest) == "TL" + [' '] + (y + ("TL" + " " + rest));
    SplitStep("TL", ' ', y + ("TL" + " " + rest));
    TrimLeftKeeps(y, "TL" + " " + rest);
    NoFewerFields(TrimLeft(y), "TL", rest);
  }

  /**
   * A whole frame is recovered whatever log text shares its line and whatever
   * white space follows it, unless that text itself begins a TL line: then the
   * line has more than four fields and is refused.
   */
  lemma FrameIsRecovered(noise: string, mac: MacBytes, cell: seq<byte>, space: string)
    requires |cell| == Cell.CELL_SIZE && AllSpace(space)
    ensures var line := Classify(noise + TlFrame(mac, cell, Crc(cell)) + space);
            if StartsTl(TrimLeft(noise)) then line.Bad? && line.reason.FieldCount? && line.reason.n >= 5
            else line == Tl(MacToString(mac), cell)
  {
    hide TlFrame, TrimLeft, Trim, SplitWs, LastTl, CheckFields, Crc;
    var f, x := TlFrame(mac, cell, Crc(cell)), TrimLeft(noise);
    FrameShape(mac, cell, Crc(cell));
    FrameChecks(mac, cell, Crc(cell));
    TrimKeeps(noise, f, space);
    if x == [] {
      assert x + f == f;
    } else if StartsTl(x) {
      TooManyFields(x, mac, cell, Crc(cell));
    } else {
      LastTlIs(x, f);
      assert (x + f)[|x|..] == f;
      PrefixDecides(x, f);
    }
  }

  lemma PrefixDecides(x: string, f: string)
    requires x != [] && !StartsTl(x) && StartsTl(f)
    ensures !StartsTl(x + f) && x + f != "TL"
  {
  }

  /** A frame whose cell was garbled within four consecutive bytes is never taken. */
  lemma GarbledFrameIsRejected(mac: MacBytes, cell: seq<byte>, garbled: seq<byte>, i: nat, j: nat)
    requires |cell| == |garbled| == Cell.CELL_SIZE && cell != garbled
    requires i <= j <= Cell.CELL_SIZE && j <= i + 4 && cell[..i] == garbled[..i] && cell[j..] == garbled[j..]
    ensures Classify(TlFrame(mac, garbled, Crc(cell))) == Bad(CrcMismatch)
  {
    if Crc(cell) == Crc(garbled) {
      BurstsAreDetected(cell, garbled, i, j);
    }
    var f := TlFrame(mac, garbled, Crc(cell));
    FrameShape(mac, garbled, Crc(cell));
    FrameChecks(mac, garbled, Crc(cell));
    TrimKeeps("", f, "");
    assert "" + f + "" == f && TrimLeft("") + f == f;
  }

  lemma LowerIsCanon(s: string)
    requires IsColonMac(s)
    ensures IsCanonMac(Lower(s))
  {
    var t := Lower(s);
    forall i | 0 <= i < 17 ensures IsCanonMacChar(i, t[i]) {
      assert t[i] == LowerChar(s[i]);
      assert i % 3 != 2 ==> IsHex(s[i]);
    }
  }

  /** Whatever is taken for a TL frame holds a whole cell, from a MAC in canonical form. */
  lemma TakenFramesAreWhole(raw: string)
    requires Classify(raw).Tl?
    ensures |Classify(raw).cell| == Cell.CELL_SIZE && IsCanonMac(Classify(raw).mac)
  {
    var line := Trim(raw);
    var frame := if line == "TL" || StartsTl(line) then line else line[LastTl(line)..];
    var fields := SplitWs(frame);
    FromHexLength(fields[2]);
    LowerIsCanon(fields[1]);
  }

  // ── Exactly what is taken ──────────────────────────────────────────

  /** Four words that, letter case aside, are a frame of this cell from this MAC. */
  ghost predicate IsFrameOf(words: seq<string>, mac: string, cell: seq<byte>) {
    && |words| == 4 && |cell| == Cell.CELL_SIZE && IsCanonMac(mac)
    && Lower(words[1]) == mac && Lower(words[2]) == ToHex(cell) && Lower(words[3]) == Hex8(Crc(cell))
  }

  lemma CheckIsExact(frame: string, mac: string, cell: seq<byte>)
    ensures CheckTl(frame) == Tl(mac, cell) <==> IsFrameOf(SplitWs(frame), mac, cell)
  {
    hide SplitWs, Lower, FromHex, ToHex, Hex8, ParseHex, Crc, IsColonMac, IsCanonMac, AllHex;
    var words := SplitWs(frame);
    if |words| == 4 {
      MacUpToCase(words[1]);
      HexMatches(words[2], cell);
      if AllHex(words[2]) {
        FromHexLength(words[2]);
      }
      WordMatches(words[3], Crc(cell));
    }
  }

  /** "TL " stands at k. */
  predicate TlAt(s: string, k: int) {
    0 <= k && k + 3 <= |s| && s[k] == 'T' && s[k + 1] == 'L' && s[k + 2] == ' '
  }

  lemma {:induction false} LastTlIsLast(s: string)
    ensures var k := LastTl(s); (k >= 0 ==> TlAt(s, k)) && forall j :: k < j ==> !TlAt(s, j)
  {
    if |s| >= 3 && !StartsTl(s[|s| - 3..]) {
      var pre := s[..|s| - 1];
      LastTlIsLast(pre);
      forall j | LastTl(s) < j ensures !TlAt(s, j) {
        assert !TlAt(pre, j);
      }
    }
  }

  /** Where a line's frame is looked for: at its start if that is "TL ", else at the last "TL ". */
  ghost predicate FramesAt(line: string, k: int) {
    TlAt(line, k) && (k == 0 || (!TlAt(line, 0) && forall j :: k < j ==> !TlAt(line, j)))
  }

  /** A line is taken for a frame exactly when the words from the right "TL " on are that frame's. */
  lemma ClassifyIsExact(raw: string, mac: string, cell: seq<byte>)
    ensures var line := Trim(raw);
            Classify(raw) == Tl(mac, cell) <==>
              exists k :: FramesAt(line, k) && IsFrameOf(SplitWs(line[k..]), mac, cell)
  {
    var line := Trim(raw);
    hide Trim, CheckTl, SplitWs, IsFrameOf, LastTl;
    LastTlIsLast(line);
    assert line[0..] == line;
    if StartsTl(line) {
      CheckIsExact(line, mac, cell);
      assert FramesAt(line, 0);
    } else if line == "TL" {
      JustTl();
      assert forall k :: !TlAt(line, k);
    } else {
      var at := LastTl(line);
      if at > 0 {
        CheckIsExact(line[at..], mac, cell);
        assert FramesAt(line, at);
        assert forall k :: FramesAt(line, k) ==> k == at;
      } else {
        assert forall k :: !TlAt(line, k);
      }
    }
  }

  lemma JustTl()
    ensures CheckTl("TL").Bad? && |SplitWs("TL")| == 1
  {
    SplitLast("TL");
  }

  /** A line is refused as a bad frame exactly when it begins as one and is none; text before it makes it other text. */
  lemma BadIsExact(raw: string)
    ensures var line := Trim(raw);
            Classify(raw).Bad? <==>
              (line == "TL" || TlAt(line, 0)) && forall mac, cell :: !IsFrameOf(SplitWs(line), mac, cell)
  {
    var line := Trim(raw);
    hide Trim, SplitWs, IsFrameOf, LastTl, CheckFields;
    JustTl();
    assert line == "TL" || TlAt(line, 0) ==> Classify(raw) == CheckTl(line);
    assert !(line == "TL" || TlAt(line, 0)) ==> !Classify(raw).Bad?;
    CheckDecides(line);
    hide CheckTl;
    forall mac, cell ensures CheckTl(line) == Tl(mac, cell) <==> IsFrameOf(SplitWs(line), mac, cell) {
      CheckIsExact(line, mac, cell);
    }
    if CheckTl(line).Tl? {
      assert IsFrameOf(SplitWs(line), CheckTl(line).mac, CheckTl(line).cell);
    }
  }

  lemma CheckDecides(frame: string)
    ensures CheckTl(frame).Tl? || CheckTl(frame).Bad?
  {
    hide SplitWs, FromHex, Crc, ParseHex, Lower, IsColonMac;
  }

  // ── AK lines ───────────────────────────────────────────────────────

  predicate AllDecimal(s: string) {
    forall i :: 0 <= i < |s| ==> '0' <= s[i] <= '9'
  }

  /** String(v) */
  function Decimal(v: nat): (s: string)
    ensures |s| >= 1 && AllDecimal(s)
  {
    if v < 10 then [DecimalDigit(v)] else Decimal(v / 10) + [DecimalDigit(v % 10)]
  }

  function DecimalDigit(v: nat): (c: char)
    requires v < 10
    ensures '0' <= c <= '9' && c as int - '0' as int == v
  {
    '0' + v as char
  }

  /** Number(s) of a run of digits. */
  function ParseDecimal(s: string): nat
    requires AllDecimal(s)
  {
    if s == [] then 0 else 10 * ParseDecimal(s[..|s| - 1]) + (s[|s| - 1] as int - '0' as int)
  }

  lemma {:induction false} DecimalReadsBack(v: nat)
    ensures ParseDecimal(Decimal(v)) == v
  {
    if v >= 10 {
      DecimalReadsBack(v / 10);
      assert Decimal(v)[..|Decimal(v)| - 1] == Decimal(v / 10);
    } else {
      assert Decimal(v)[..0] == [];
    }
  }

  function Pow10(n: nat): nat {
    if n == 0 then 1 else 10 * Pow10(n - 1)
  }

  lemma {:induction false} DecimalLength(v: nat, n: nat)
    requires n >= 1 && v < Pow10(n)
    ensures |Decimal(v)| <= n
  {
    if v >= 10 {
      assert n > 1;
      DecimalLength(v / 10, n - 1);
    }
  }

  lemma DecimalOfU32(v: nat)
    requires IsU32(v)
    ensures 1 <= |Decimal(v)| <= 10
  {
    assert Pow10(5) == 100000;
    assert Pow10(10) == 10000000000;
    DecimalLength(v, 10);
  }

  /** How many digits a text begins with. */
  function DigitRun(s: string): (k: nat)
    ensures k <= |s| && AllDecimal(s[..k]) && (k < |s| ==> !('0' <= s[k] <= '9'))
  {
    if s == [] || !('0' <= s[0] <= '9') then 0 else
      assert s[..1 + DigitRun(s[1..])] == [s[0]] + s[1..][..DigitRun(s[1..])];
      1 + DigitRun(s[1..])
  }

  lemma {:induction false} DigitRunIs(d: string, rest: string)
    requires AllDecimal(d) && (rest == [] || !('0' <= rest[0] <= '9'))
    ensures DigitRun(d + rest) == |d|
  {
    if d == [] {
      assert d + rest == rest;
    } else {
      assert (d + rest)[1..] == d[1..] + rest;
      DigitRunIs(d[1..], rest);
    }
  }

  datatype AkLine = AkLine(mac: string, ackedThrough: int, hostUnixS: int)

  /** An AK line without its newline. */
  function AkText(mac: MacBytes, ackedThrough: nat, hostUnixS: nat): string {
    "AK " + ToHex(mac) + (" " + (Decimal(ackedThrough) + (" " + Decimal(hostUnixS))))
  }

  /** formatAkLine, or None where it throws. */
  function FormatAk(mac: string, ackedThrough: int, hostUnixS: int): Option<string> {
    if MacToBytes(mac).None? || !IsU32(ackedThrough) || !IsU32(hostUnixS) then None
    else Some(AkText(MacToBytes(mac).value, ackedThrough, hostUnixS) + "\n")
  }

  /** The three fields after "AK ", by the line's pattern; the letters match in either case. */
  function AkFields(t: string): Option<(string, string, string)> {
    if |t| < 16 || !(t[0] in "Aa") || !(t[1] in "Kk") || t[2] != ' ' || !AllHex(t[3..15]) || t[15] != ' ' then None
    else
      var rest := t[16..];
      var k := DigitRun(rest);
      if !(1 <= k <= 10) || k == |rest| || rest[k] != ' ' then None else
        var last := rest[k + 1..];
        if !AllDecimal(last) || !(1 <= |last| <= 10) then None else Some((t[3..15], rest[..k], last))
  }

  /** Read an AK line; None for any other text. */
  function ParseAk(line: string): Option<AkLine> {
    var m := AkFields(Trim(line));
    if m.None? || !AllHex(m.value.0) || !AllDecimal(m.value.1) || !AllDecimal(m.value.2) then None else
      var acked, host, mac := ParseDecimal(m.value.1), ParseDecimal(m.value.2), MacToBytes(m.value.0);
      if acked > U32_MAX || host > U32_MAX || mac.None? then None else Some(AkLine(MacToString(mac.value), acked, host))
  }

  /** The text of an AK line: the name in either case, twelve digits, and two numbers of up to ten digits. */
  ghost predicate IsAkOf(t: string, mac: string, a: string, b: string) {
    && |t| >= 3 && Lower(t[..3]) == "ak " && t == t[..3] + mac + (" " + (a + (" " + b)))
    && |mac| == 12 && AllHex(mac) && AllDecimal(a) && AllDecimal(b) && 1 <= |a| <= 10 && 1 <= |b| <= 10
  }

  lemma AkFieldsOf(h: string, a: string, b: string)
    requires |h| == 12 && AllHex(h) && AllDecimal(a) && AllDecimal(b) && 1 <= |a| <= 10 && 1 <= |b| <= 10
    ensures AkFields("AK " + h + (" " + (a + (" " + b)))) == Some((h, a, b))
  {
    var t, rest := "AK " + h + (" " + (a + (" " + b))), a + (" " + b);
    assert t[3..15] == h && t[15] == ' ' && t[16..] == rest;
    DigitRunIs(a, " " + b);
    assert rest[..|a|] == a && rest[|a| + 1..] == b;
  }

  lemma AkTrims(h: string, a: string, b: string, space: string)
    requires AllDecimal(b) && b != [] && AllSpace(space)
    ensures var t := "AK " + h + (" " + (a + (" " + b))); Trim(t + space) == t
  {
    var t := "AK " + h + (" " + (a + (" " + b)));
    assert t[|t| - 1] == b[|b| - 1];
    TrimKeeps("", t, space);
    assert "" + t + space == t + space && TrimLeft("") + t == t;
  }

  lemma ParseFields(line: string, h: string, a: string, b: string, mac: MacBytes)
    requires AllHex(h) && AllDecimal(a) && AllDecimal(b) && AkFields(Trim(line)) == Some((h, a, b))
    requires MacToBytes(h) == Some(mac) && IsU32(ParseDecimal(a)) && IsU32(ParseDecimal(b))
    ensures ParseAk(line) == Some(AkLine(MacToString(mac), ParseDecimal(a), ParseDecimal(b)))
  {
  }

  /** An AK line, with its newline or without, reads back as what it was written from. */
  lemma AkReadsBack(mac: MacBytes, ackedThrough: nat, hostUnixS: nat, space: string)
    requires IsU32(ackedThrough) && IsU32(hostUnixS) && AllSpace(space)
    ensures ParseAk(AkText(mac, ackedThrough, hostUnixS) + space)
        == Some(AkLine(MacToString(mac), ackedThrough, hostUnixS))
  {
    var h, a, b := ToHex(mac), Decimal(ackedThrough), Decimal(hostUnixS);
    DecimalOfU32(ackedThrough);
    DecimalOfU32(hostUnixS);
    BareMacRoundTrip(mac);
    AkFieldsOf(h, a, b);
    AkTrims(h, a, b, space);
    DecimalReadsBack(ackedThrough);
    DecimalReadsBack(hostUnixS);
    ParseFields(AkText(mac, ackedThrough, hostUnixS) + space, h, a, b, mac);
  }

  lemma FieldsAreAk(t: string, mac: string, a: string, b: string)
    ensures AkFields(t) == Some((mac, a, b)) ==> IsAkOf(t, mac, a, b)
  {
    hide DigitRun;
    if AkFields(t) == Some((mac, a, b)) {
      var rest, k := t[16..], DigitRun(t[16..]);
      assert rest == a + (" " + b);
      assert t == t[..3] + mac + (" " + rest);
      assert Lower(t[..3]) == "ak ";
    }
  }

  lemma AkIsFields(t: string, mac: string, a: string, b: string)
    requires IsAkOf(t, mac, a, b)
    ensures AkFields(t) == Some((mac, a, b)) && AllHex(mac) && AllDecimal(a) && AllDecimal(b)
  {
    hide DigitRun, IsHex;
    var rest := a + (" " + b);
    assert t[3..15] == mac && t[15] == ' ' && t[16..] == rest;
    assert LowerChar(t[0]) == Lower(t[..3])[0] == 'a' && LowerChar(t[1]) == Lower(t[..3])[1] == 'k';
    assert LowerChar(t[2]) == Lower(t[..3])[2] == ' ';
    DigitRunIs(a, " " + b);
    assert rest[..|a|] == a && rest[|a| + 1..] == b;
  }

  /** A line is taken for an ack exactly when its text is one and both numbers fit 32 bits. */
  lemma ParseAkIsExact(line: string, ak: AkLine)
    ensures ParseAk(line) == Some(ak) <==>
              exists mac, a, b :: IsAkOf(Trim(line), mac, a, b) && AkMeans(mac, a, b, ak)
  {
    hide AkFields, IsAkOf, Trim, ParseDecimal, FromHex, MacToString;
    var t := Trim(line);
    var m := AkFields(t);
    if m.Some? {
      FieldsAreAk(t, m.value.0, m.value.1, m.value.2);
    }
    forall mac, a, b | IsAkOf(t, mac, a, b)
      ensures m == Some((mac, a, b)) && AllHex(mac) && AllDecimal(a) && AllDecimal(b)
    {
      AkIsFields(t, mac, a, b);
    }
    if ParseAk(line) == Some(ak) {
      assert IsAkOf(t, m.value.0, m.value.1, m.value.2) && AkMeans(m.value.0, m.value.1, m.value.2, ak);
    }
  }

  /** These fields say this, within 32 bits. */
  ghost predicate AkMeans(mac: string, a: string, b: string, ak: AkLine) {
    && MacToBytes(mac).Some? && ak.mac == MacToString(MacToBytes(mac).value)
    && AllDecimal(a) && AllDecimal(b) && ak.ackedThrough == ParseDecimal(a) <= U32_MAX
    && ak.hostUnixS == ParseDecimal(b) <= U32_MAX
  }
}
