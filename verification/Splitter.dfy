/** Serial text to lines, chunk by chunk (bridge.ts's splitLines). */
module Splitter {

  /** A partial line longer than this is dropped. */
  const MAX_LINE := 16384

  /** The first index of c in s, or -1. */
  function IndexOf(s: string, c: char): (k: int)
    ensures -1 <= k < |s|
    ensures k >= 0 ==> s[k] == c && c !in s[..k]
    ensures k < 0 ==> c !in s
  {
    if s == [] then -1
    else if s[0] == c then 0
    else
      var k := IndexOf(s[1..], c);
      assert k >= 0 ==> s[..k + 1] == [s[0]] + s[1..][..k];
      if k < 0 then -1 else k + 1
  }

  /** One trailing CR removed. */
  function DropCr(s: string): string {
    if s != [] && s[|s| - 1] == '\r' then s[..|s| - 1] else s
  }

  // ── The whole text at once ─────────────────────────────────────────

  /** The lines a text has ended with a newline. */
  function Completed(text: string): seq<string> {
    var nl := IndexOf(text, '\n');
    if nl < 0 then [] else [DropCr(text[..nl])] + Completed(text[nl + 1..])
  }

  /** What follows its last newline. */
  function Residue(text: string): (r: string)
    ensures '\n' !in r && |r| <= |text|
  {
    var nl := IndexOf(text, '\n');
    if nl < 0 then text else Residue(text[nl + 1..])
  }

  /** An unterminated line is kept if it is not empty. */
  function Tail(r: string): seq<string> {
    if r == [] then [] else [DropCr(r)]
  }

  function Split(text: string): seq<string> {
    Completed(text) + Tail(Residue(text))
  }

  // ── Chunk by chunk ─────────────────────────────────────────────────

  function Concat(chunks: seq<string>): string {
    if chunks == [] then [] else chunks[0] + Concat(chunks[1..])
  }

  /** A partial line too long to be one is dropped. */
  function Keep(r: string): string {
    if |r| > MAX_LINE then [] else r
  }

  function Streamed(buf: string, chunks: seq<string>): seq<string>
    decreases |chunks|
  {
    if chunks == [] then Tail(buf)
    else Completed(buf + chunks[0]) + Streamed(Keep(Residue(buf + chunks[0])), chunks[1..])
  }

  /** No chunk ends in a partial line that is dropped. */
  ghost predicate NothingDropped(buf: string, chunks: seq<string>)
    decreases |chunks|
  {
    chunks == [] || (|Residue(buf + chunks[0])| <= MAX_LINE && NothingDropped(Residue(buf + chunks[0]), chunks[1..]))
  }

  method SplitLines(chunks: seq<string>) returns (lines: seq<string>)
    ensures lines == Streamed("", chunks)
  {
    hide Completed, Residue, DropCr, Streamed;
    lines := [];
    var buf := "";
    for i := 0 to |chunks|
      invariant lines + Streamed(buf, chunks[i..]) == Streamed("", chunks)
    {
      ghost var rest := chunks[i + 1..];
      ghost var all := buf + chunks[i];
      StreamNext(buf, chunks, i);
      Associates(lines, Completed(all), Streamed(Keep(Residue(all)), rest));
      var completed;
      completed, buf := TakeLines(buf + chunks[i]);
      lines := lines + completed;
      if |buf| > MAX_LINE {
        buf := "";
      }
      assert buf == Keep(Residue(all));
    }
    StreamEnds(buf, chunks);
    if |buf| > 0 {
      lines := lines + [DropCr(buf)];
    }
  }

  lemma StreamNext(buf: string, chunks: seq<string>, i: nat)
    requires i < |chunks|
    ensures Streamed(buf, chunks[i..])
        == Completed(buf + chunks[i]) + Streamed(Keep(Residue(buf + chunks[i])), chunks[i + 1..])
  {
    hide Completed, Residue, Keep;
    assert chunks[i..][0] == chunks[i] && chunks[i..][1..] == chunks[i + 1..];
  }

  lemma StreamEnds(buf: string, chunks: seq<string>)
    ensures Streamed(buf, chunks[|chunks|..]) == if |buf| > 0 then [DropCr(buf)] else []
  {
  }

  /** Every completed line, and what is left of the buffer. */
  method TakeLines(text: string) returns (lines: seq<string>, buf: string)
    ensures lines == Completed(text) && buf == Residue(text)
  {
    lines, buf := [], text;
    var nl := IndexOf(buf, '\n');
    while nl >= 0
      invariant nl == IndexOf(buf, '\n')
      invariant lines + Completed(buf) == Completed(text)
      invariant Residue(buf) == Residue(text)
      decreases |buf|
    {
      FirstLine(buf, nl);
      Associates(lines, [DropCr(buf[..nl])], Completed(buf[nl + 1..]));
      lines := lines + [DropCr(buf[..nl])];
      buf := buf[nl + 1..];
      nl := IndexOf(buf, '\n');
    }
  }

  // ── Streaming is splitting ─────────────────────────────────────────

  lemma {:induction false} IndexIsFirst(s: string, c: char, k: nat)
    requires k < |s| && s[k] == c && c !in s[..k]
    ensures IndexOf(s, c) == k
  {
    if k > 0 {
      assert s[..k][0] == s[0];
      assert s[..k][1..] == s[1..][..k - 1];
      IndexIsFirst(s[1..], c, k - 1);
    }
  }

  lemma IndexInFirst(a: string, b: string, nl: nat)
    requires nl == IndexOf(a, '\n')
    ensures IndexOf(a + b, '\n') == nl && (a + b)[..nl] == a[..nl] && (a + b)[nl + 1..] == a[nl + 1..] + b
  {
    IndexIsFirst(a + b, '\n', nl);
  }

  lemma FirstLine(text: string, nl: nat)
    requires nl == IndexOf(text, '\n')
    ensures Completed(text) == [DropCr(text[..nl])] + Completed(text[nl + 1..])
        && Residue(text) == Residue(text[nl + 1..])
  {
  }

  /** Text that comes in two parts is split the same. */
  lemma {:induction false} SplitInParts(a: string, b: string)
    ensures Completed(a + b) == Completed(a) + Completed(Residue(a) + b)
    ensures Residue(a + b) == Residue(Residue(a) + b)
    decreases |a|
  {
    var nl := IndexOf(a, '\n');
    if nl >= 0 {
      var line, rest := DropCr(a[..nl]), a[nl + 1..];
      SplitInParts(rest, b);
      IndexInFirst(a, b, nl);
      FirstLine(a, nl);
      FirstLine(a + b, nl);
      Associates([line], Completed(rest), Completed(Residue(rest) + b));
    }
  }

  lemma Associates(xs: seq<string>, ys: seq<string>, zs: seq<string>)
    ensures xs + (ys + zs) == (xs + ys) + zs
  {
  }

  lemma StreamStep(buf: string, chunks: seq<string>)
    requires chunks != []
    ensures var all := buf + chunks[0];
            Split(buf + Concat(chunks)) == Completed(all) + Split(Residue(all) + Concat(chunks[1..]))
  {
    assert buf + Concat(chunks) == buf + chunks[0] + Concat(chunks[1..]);
    SplitInParts(buf + chunks[0], Concat(chunks[1..]));
  }

  lemma {:induction false} StreamIsSplit(buf: string, chunks: seq<string>)
    requires '\n' !in buf && NothingDropped(buf, chunks)
    ensures Streamed(buf, chunks) == Split(buf + Concat(chunks))
    decreases |chunks|
  {
    if chunks == [] {
      assert buf + Concat(chunks) == buf;
    } else {
      StreamStep(buf, chunks);
      StreamIsSplit(Residue(buf + chunks[0]), chunks[1..]);
    }
  }

  // ── And a dropped partial line is noticed ──────────────────────────

  function Chars(lines: seq<string>): nat {
    if lines == [] then 0 else |lines[0]| + Chars(lines[1..])
  }

  lemma {:induction false} CharsAdd(a: seq<string>, b: seq<string>)
    ensures Chars(a + b) == Chars(a) + Chars(b)
  {
    if a == [] {
      assert a + b == b;
    } else {
      CharsAdd(a[1..], b);
      assert (a + b)[1..] == a[1..] + b;
    }
  }

  /** A line missing its first characters is shorter. */
  lemma LongerLine(r: string, s: string)
    requires |r| >= 2
    ensures |DropCr(r + s)| > |DropCr(s)|
  {
  }

  lemma DroppedShortens(r: string, t: string)
    requires '\n' !in r && |r| >= 2
    ensures Chars(Split(r + t)) > Chars(Split(t))
  {
    var nl := IndexOf(t, '\n');
    if nl < 0 {
      LongerLine(r, t);
      OneLine(r + t);
      OneLine(t);
    } else {
      DroppedShortensFirst(r, t, nl);
    }
  }

  lemma DroppedShortensFirst(r: string, t: string, nl: nat)
    requires '\n' !in r && |r| >= 2 && nl == IndexOf(t, '\n')
    ensures Chars(Split(r + t)) > Chars(Split(t))
  {
    hide Split, Chars, DropCr;
    NewlineAfter(r, t, nl);
    LongerLine(r, t[..nl]);
    hide IndexOf;
    SplitFirst(t, nl, t[..nl], t[nl + 1..]);
    SplitFirst(r + t, |r| + nl, r + t[..nl], t[nl + 1..]);
  }

  lemma OneLine(text: string)
    requires '\n' !in text
    ensures Chars(Split(text)) == |DropCr(text)|
  {
    assert Split(text) == Tail(text);
  }

  lemma NewlineAfter(r: string, t: string, nl: nat)
    requires '\n' !in r && nl == IndexOf(t, '\n')
    ensures IndexOf(r + t, '\n') == |r| + nl && (r + t)[..|r| + nl] == r + t[..nl]
    ensures (r + t)[|r| + nl + 1..] == t[nl + 1..]
  {
    assert (r + t)[..|r| + nl] == r + t[..nl];
    IndexIsFirst(r + t, '\n', |r| + nl);
  }

  lemma SplitFirst(text: string, nl: nat, head: string, rest: string)
    requires nl == IndexOf(text, '\n') && text[..nl] == head && text[nl + 1..] == rest
    ensures Chars(Split(text)) == |DropCr(head)| + Chars(Split(rest))
  {
    var line := DropCr(head);
    assert Split(text) == [line] + Split(rest);
    CharsAdd([line], Split(rest));
    assert Chars([line]) == |line|;
  }

  lemma {:induction false} StreamNeverGrows(buf: string, chunks: seq<string>)
    requires '\n' !in buf
    ensures Chars(Streamed(buf, chunks)) <= Chars(Split(buf + Concat(chunks)))
    ensures !NothingDropped(buf, chunks) ==> Chars(Streamed(buf, chunks)) < Chars(Split(buf + Concat(chunks)))
    decreases |chunks|
  {
    if chunks == [] {
      assert buf + Concat(chunks) == buf;
    } else {
      var all, rest := buf + chunks[0], chunks[1..];
      var r := Residue(all);
      StreamStep(buf, chunks);
      StreamNeverGrows(Keep(r), rest);
      if |r| > MAX_LINE {
        DroppedShortens(r, Concat(rest));
        assert [] + Concat(rest) == Concat(rest);
      }
      CharsAdd(Completed(all), Streamed(Keep(r), rest));
      CharsAdd(Completed(all), Split(r + Concat(rest)));
    }
  }

  /** Streaming yields the split of the whole text exactly when no chunk ends in a partial line over the limit. */
  lemma StreamingIsExact(chunks: seq<string>)
    ensures Streamed("", chunks) == Split(Concat(chunks)) <==> NothingDropped("", chunks)
  {
    assert "" + Concat(chunks) == Concat(chunks);
    if NothingDropped("", chunks) {
      StreamIsSplit("", chunks);
    } else {
      StreamNeverGrows("", chunks);
    }
  }

  // ── Lines within the limit ─────────────────────────────────────────

  /** Every line of the text, with its CR but not its newline, is within the limit. */
  ghost predicate ShortLines(text: string) {
    var nl := IndexOf(text, '\n');
    if nl < 0 then |text| <= MAX_LINE else nl <= MAX_LINE && ShortLines(text[nl + 1..])
  }

  lemma {:induction false} ShortInParts(a: string, b: string)
    requires ShortLines(a + b)
    ensures |Residue(a)| <= MAX_LINE && ShortLines(Residue(a) + b)
    decreases |a|
  {
    var nl := IndexOf(a, '\n');
    if nl >= 0 {
      IndexInFirst(a, b, nl);
      ShortInParts(a[nl + 1..], b);
    } else {
      LineCoversPrefix(a, b);
    }
  }

  lemma LineCoversPrefix(a: string, b: string)
    requires '\n' !in a && ShortLines(a + b)
    ensures |a| <= MAX_LINE
  {
    var nl := IndexOf(a + b, '\n');
    assert forall i :: 0 <= i < |a| ==> (a + b)[i] == a[i];
  }

  lemma {:induction false} ShortLinesAreKept(buf: string, chunks: seq<string>)
    requires ShortLines(buf + Concat(chunks))
    ensures NothingDropped(buf, chunks)
    decreases |chunks|
  {
    if chunks != [] {
      assert buf + Concat(chunks) == buf + chunks[0] + Concat(chunks[1..]);
      ShortInParts(buf + chunks[0], Concat(chunks[1..]));
      ShortLinesAreKept(Residue(buf + chunks[0]), chunks[1..]);
    }
  }

  /** However a stream of short enough lines is cut into chunks, its lines come out whole. */
  lemma ChunkingDoesNotMatter(chunks: seq<string>)
    requires ShortLines(Concat(chunks))
    ensures Streamed("", chunks) == Split(Concat(chunks))
  {
    assert "" + Concat(chunks) == Concat(chunks);
    ShortLinesAreKept("", chunks);
    StreamIsSplit("", chunks);
  }

  // ── What was written comes back ────────────────────────────────────

  /** A line as its sender means it: no newline inside, and no CR at the end that the reader would take for its own. */
  predicate Plain(line: string, crlf: bool) {
    '\n' !in line && (crlf || line == [] || line[|line| - 1] != '\r')
  }

  /** Lines written out, each ended in either way. */
  function WrittenOut(lines: seq<string>, crlf: seq<bool>): string
    requires |crlf| == |lines|
  {
    if lines == [] then []
    else lines[0] + (if crlf[0] then "\r\n" else "\n") + WrittenOut(lines[1..], crlf[1..])
  }

  ghost predicate AllPlain(lines: seq<string>, crlf: seq<bool>)
    requires |crlf| == |lines|
  {
    forall i :: 0 <= i < |lines| ==> Plain(lines[i], crlf[i])
  }

  /** One line ended in either way is taken off the front as it was meant. */
  lemma EndedLine(line: string, crlf: bool, rest: string)
    requires Plain(line, crlf)
    ensures var text := line + (if crlf then "\r\n" else "\n") + rest; var nl := IndexOf(text, '\n');
            0 <= nl <= |line| + 1 && DropCr(text[..nl]) == line && text[nl + 1..] == rest
  {
    var text := line + (if crlf then "\r\n" else "\n") + rest;
    var nl := if crlf then |line| + 1 else |line|;
    assert text[..nl] == if crlf then line + "\r" else line;
    IndexIsFirst(text, '\n', nl);
    assert text[nl + 1..] == rest;
  }

  lemma WrittenNext(lines: seq<string>, crlf: seq<bool>, tail: string)
    requires |crlf| == |lines| > 0
    ensures WrittenOut(lines, crlf) + tail
         == lines[0] + (if crlf[0] then "\r\n" else "\n") + (WrittenOut(lines[1..], crlf[1..]) + tail)
  {
  }

  lemma TailAlone(tail: string)
    requires Plain(tail, false)
    ensures Split(tail) == if tail == [] then [] else [tail]
  {
    assert IndexOf(tail, '\n') < 0;
  }

  lemma {:induction false} LinesComeBack(lines: seq<string>, crlf: seq<bool>, tail: string)
    requires |crlf| == |lines| && AllPlain(lines, crlf) && Plain(tail, false)
    ensures Split(WrittenOut(lines, crlf) + tail) == lines + if tail == [] then [] else [tail]
    decreases |lines|
  {
    hide Split, DropCr, Plain, IndexOf;
    if lines == [] {
      assert WrittenOut(lines, crlf) + tail == tail;
      TailAlone(tail);
    } else {
      var more := WrittenOut(lines[1..], crlf[1..]) + tail;
      assert Plain(lines[0], crlf[0]);
      LinesComeBack(lines[1..], crlf[1..], tail);
      WrittenNext(lines, crlf, tail);
      EndedLine(lines[0], crlf[0], more);
      hide WrittenOut, AllPlain;
      var text := lines[0] + (if crlf[0] then "\r\n" else "\n") + more;
      SplitNext(text, IndexOf(text, '\n'), lines[0], more);
      assert lines == [lines[0]] + lines[1..];
    }
  }

  lemma SplitNext(text: string, nl: nat, line: string, rest: string)
    requires nl == IndexOf(text, '\n') && DropCr(text[..nl]) == line && text[nl + 1..] == rest
    ensures Split(text) == [line] + Split(rest)
  {
    hide DropCr;
    FirstLine(text, nl);
    Associates([line], Completed(rest), Tail(Residue(rest)));
  }

  lemma {:induction false} ShortLinesAreShort(lines: seq<string>, crlf: seq<bool>, tail: string)
    requires |crlf| == |lines| && AllPlain(lines, crlf) && Plain(tail, false)
    requires |tail| <= MAX_LINE && forall i :: 0 <= i < |lines| ==> |lines[i]| < MAX_LINE
    ensures ShortLines(WrittenOut(lines, crlf) + tail)
    decreases |lines|
  {
    if lines == [] {
      assert WrittenOut(lines, crlf) + tail == tail;
      assert IndexOf(tail, '\n') < 0;
    } else {
      var more := WrittenOut(lines[1..], crlf[1..]) + tail;
      var text := lines[0] + (if crlf[0] then "\r\n" else "\n") + more;
      assert WrittenOut(lines, crlf) + tail == text;
      assert Plain(lines[0], crlf[0]);
      EndedLine(lines[0], crlf[0], more);
      ShortLinesAreShort(lines[1..], crlf[1..], tail);
    }
  }

  /**
   * Lines shorter than the limit, ended with or without a CR and cut into chunks
   * anywhere, even inside a line end, come out as they were written.
   */
  lemma StreamGivesTheLines(chunks: seq<string>, lines: seq<string>, crlf: seq<bool>, tail: string)
    requires |crlf| == |lines| && AllPlain(lines, crlf) && Plain(tail, false)
    requires |tail| <= MAX_LINE && forall i :: 0 <= i < |lines| ==> |lines[i]| < MAX_LINE
    requires Concat(chunks) == WrittenOut(lines, crlf) + tail
    ensures Streamed("", chunks) == lines + if tail == [] then [] else [tail]
  {
    hide Plain, AllPlain, Split, Streamed, WrittenOut;
    ShortLinesAreShort(lines, crlf, tail);
    ChunkingDoesNotMatter(chunks);
    LinesComeBack(lines, crlf, tail);
  }
}
