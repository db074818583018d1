/**
 Line-window chunking, the dispatch between it and the syntax-tree chunker, and the excerpt that search cuts
 from a file to show a chunk again.
 */
module Chunking {
  import opened Sets
  import opened Wrappers
  import opened Contracts

  const LINE_WINDOW_SIZE := 60
  const LINE_WINDOW_OVERLAP := 10
  const LINE_WINDOW_STEP := LINE_WINDOW_SIZE - LINE_WINDOW_OVERLAP

  // ---- Text ------------------------------------------------------------------------------------

  /** White space and line terminators, as `String.prototype.trim` takes them. */
  predicate IsSpace(c: char) {
    var n := c as int;
    || 9 <= n <= 13 || n == 0x20 || n == 0xA0 || n == 0x1680 || 0x2000 <= n <= 0x200A
    || n == 0x2028 || n == 0x2029 || n == 0x202F || n == 0x205F || n == 0x3000 || n == 0xFEFF
  }

  predicate IsEmptyContent(content: string) {
    forall c <- content :: IsSpace(c)
  }

  /** Carriage returns, alone or before a line feed, become line feeds. */
  function NormalizeContent(content: string): string {
    if content == "" then ""
    else if content[0] != '\r' then [content[0]] + NormalizeContent(content[1..])
    else if |content| > 1 && content[1] == '\n' then ['\n'] + NormalizeContent(content[2..])
    else ['\n'] + NormalizeContent(content[1..])
  }

  lemma {:induction false} NormalizedHasNoReturn(content: string)
    ensures '\r' !in NormalizeContent(content)
    decreases |content|
  {
    if content == "" {
    } else if content[0] == '\r' && |content| > 1 && content[1] == '\n' {
      NormalizedHasNoReturn(content[2..]);
    } else {
      NormalizedHasNoReturn(content[1..]);
    }
  }

  lemma {:induction false} NormalizeIsIdempotent(content: string)
    ensures '\r' !in content ==> NormalizeContent(content) == content
    ensures NormalizeContent(NormalizeContent(content)) == NormalizeContent(content)
  {
    NormalizedHasNoReturn(content);
    NormalizeKeeps(content);
    NormalizeKeeps(NormalizeContent(content));
  }

  lemma {:induction false} NormalizeKeeps(content: string)
    ensures '\r' !in content ==> NormalizeContent(content) == content
  {
    if content != "" && '\r' !in content {
      assert content == [content[0]] + content[1..];
      NormalizeKeeps(content[1..]);
    }
  }

  /** One step of the normalization is the same with more text behind. */
  lemma FirstPiece(a: string, b: string) returns (step: nat)
    requires a != "" && (b != "" ==> a[|a| - 1] != '\r' || b[0] != '\n')
    ensures 1 <= step <= |a| && (a + b)[step..] == a[step..] + b
    ensures var first := if a[0] == '\r' then ['\n'] else [a[0]];
            && NormalizeContent(a) == first + NormalizeContent(a[step..])
            && NormalizeContent(a + b) == first + NormalizeContent(a[step..] + b)
    ensures a[step..] != "" ==> a[step..][|a[step..]| - 1] == a[|a| - 1]
  {
    step := if a[0] == '\r' && |a| > 1 && a[1] == '\n' then 2 else 1;
    assert (a + b)[step..] == a[step..] + b;
  }

  /** Normalizing works piece by piece, unless a carriage return and its line feed are torn apart. */
  lemma {:induction false} NormalizePieces(a: string, b: string)
    requires a != "" && b != "" ==> a[|a| - 1] != '\r' || b[0] != '\n'
    ensures NormalizeContent(a + b) == NormalizeContent(a) + NormalizeContent(b)
    decreases |a|
  {
    hide NormalizeContent;
    if a == "" {
      assert a + b == b;
      assert NormalizeContent("") == "" by { NormalizeKeeps(""); }
    } else {
      var step := FirstPiece(a, b);
      NormalizePieces(a[step..], b);
      var first := if a[0] == '\r' then ['\n'] else [a[0]];
      assert first + (NormalizeContent(a[step..]) + NormalizeContent(b)) == first + NormalizeContent(a[step..]) + NormalizeContent(b);
    }
  }

  /** Every line ending, of whichever kind, is one line feed afterwards, and nothing else changes. */
  lemma EveryEndingIsALineFeed(line: string, ending: string, rest: string)
    requires '\r' !in line && '\n' !in line && ending in ["\r\n", "\r", "\n"]
    requires ending == "\r" ==> rest == "" || rest[0] != '\n'
    ensures NormalizeContent(line + ending + rest) == line + "\n" + NormalizeContent(rest)
    ensures NormalizeContent(line) == line
  {
    NormalizeKeeps(line);
    assert NormalizeContent(ending) == "\n" by { EndingAlone(ending); }
    NormalizePieces(line, ending);
    NormalizePieces(line + ending, rest);
  }

  lemma EndingAlone(ending: string)
    requires ending in ["\r\n", "\r", "\n"]
    ensures NormalizeContent(ending) == "\n"
  {
    assert ending[1..] == "" || ending[2..] == "";
    assert NormalizeContent("") == "";
  }

  function Split(content: string): (lines: seq<string>)
    ensures |lines| > 0
  {
    if content == "" then [""]
    else
      var rest := Split(content[1..]);
      if content[0] == '\n' then [""] + rest else [[content[0]] + rest[0]] + rest[1..]
  }

  function Join(lines: seq<string>): string {
    if lines == [] then "" else if |lines| == 1 then lines[0] else lines[0] + "\n" + Join(lines[1..])
  }

  lemma {:induction false} JoinInvertsSplit(content: string)
    ensures Join(Split(content)) == content && forall line <- Split(content) :: '\n' !in line
  {
    if content != "" {
      JoinInvertsSplit(content[1..]);
      var rest := Split(content[1..]);
      if content[0] == '\n' {
        assert ([""] + rest)[1..] == rest;
      } else if |rest| > 1 {
        var lines := [[content[0]] + rest[0]] + rest[1..];
        assert lines[1..] == rest[1..];
      }
    }
  }

  // ---- Line windows ----------------------------------------------------------------------------

  function WindowEnd(lines: seq<string>, start: nat): int {
    (if start + LINE_WINDOW_SIZE < |lines| then start + LINE_WINDOW_SIZE else |lines|) - 1
  }

  function WindowContent(lines: seq<string>, start: nat): string
    requires start < |lines|
  {
    Join(lines[start..WindowEnd(lines, start) + 1])
  }

  function WindowChunk(path: Path, lines: seq<string>, language: string, start: nat, chunkIndex: nat): CodeChunk
    requires start < |lines|
  {
    var content := WindowContent(lines, start);
    CodeChunk(content, "// " + path + "\n" + content, path, start + 1, WindowEnd(lines, start) + 1, "", "", language, chunkIndex)
  }

  /** The chunks of the windows from `start` on; a blank window takes no index. */
  function Windows(path: Path, lines: seq<string>, language: string, start: nat, chunkIndex: nat): seq<CodeChunk>
    decreases |lines| - start
  {
    if start >= |lines| then []
    else if IsEmptyContent(WindowContent(lines, start)) then Windows(path, lines, language, start + LINE_WINDOW_STEP, chunkIndex)
    else [WindowChunk(path, lines, language, start, chunkIndex)]
         + Windows(path, lines, language, start + LINE_WINDOW_STEP, chunkIndex + 1)
  }

  method LineWindowChunks(path: Path, content: string, language: string) returns (chunks: seq<CodeChunk>)
    ensures chunks == Windows(path, Split(content), language, 0, 0)
  {
    hide Windows, Split, Join, IsEmptyContent;
    var lines := Split(content);
    chunks := [];
    var start := 0;
    var chunkIndex := 0;
    while start < |lines|
      invariant 0 <= start && chunkIndex == |chunks|
      invariant chunks + Windows(path, lines, language, start, chunkIndex) == Windows(path, lines, language, 0, 0)
      decreases |lines| - start
    {
      var endIdx := (if start + LINE_WINDOW_SIZE < |lines| then start + LINE_WINDOW_SIZE else |lines|) - 1;
      var windowContent := Join(lines[start..endIdx + 1]);
      WindowsStep(path, lines, language, start, chunkIndex);
      if IsEmptyContent(windowContent) {
        start := start + LINE_WINDOW_STEP;
        continue;
      }
      PutOne(chunks, WindowChunk(path, lines, language, start, chunkIndex),
             Windows(path, lines, language, start + LINE_WINDOW_STEP, chunkIndex + 1));
      chunks := chunks + [CodeChunk(windowContent, "// " + path + "\n" + windowContent, path, start + 1, endIdx + 1,
                                    "", "", language, chunkIndex)];
      chunkIndex := chunkIndex + 1;
      start := start + LINE_WINDOW_STEP;
    }
    WindowsStep(path, lines, language, start, chunkIndex);
  }

  lemma PutOne(front: seq<CodeChunk>, chunk: CodeChunk, rest: seq<CodeChunk>)
    ensures (front + [chunk]) + rest == front + ([chunk] + rest)
  {
  }

  lemma WindowsStep(path: Path, lines: seq<string>, language: string, start: nat, chunkIndex: nat)
    ensures Windows(path, lines, language, start, chunkIndex)
            == if start >= |lines| then []
               else if IsEmptyContent(WindowContent(lines, start)) then Windows(path, lines, language, start + LINE_WINDOW_STEP, chunkIndex)
               else [WindowChunk(path, lines, language, start, chunkIndex)]
                    + Windows(path, lines, language, start + LINE_WINDOW_STEP, chunkIndex + 1)
  {
  }

  /** Chunks are numbered without gaps, and each is the window of lines it names. */
  lemma {:induction false} WindowsAreNumbered(path: Path, lines: seq<string>, language: string, start: nat, chunkIndex: nat, i: nat)
    requires i < |Windows(path, lines, language, start, chunkIndex)|
    ensures var c := Windows(path, lines, language, start, chunkIndex)[i];
            && c.chunkIndex == chunkIndex + i
            && c.path == path
            && start + 1 <= c.startLine <= |lines| && (c.startLine - 1 - start) % LINE_WINDOW_STEP == 0
            && c.endLine == WindowEnd(lines, c.startLine - 1) + 1
            && c.content == WindowContent(lines, c.startLine - 1)
            && !IsEmptyContent(c.content)
            && c.contextualizedText == "// " + path + "\n" + c.content && c.symbol == "" && c.scope == "" && c.language == language
    decreases |lines| - start
  {
    hide WindowContent, IsEmptyContent;
    if IsEmptyContent(WindowContent(lines, start)) {
      WindowsAreNumbered(path, lines, language, start + LINE_WINDOW_STEP, chunkIndex, i);
    } else if i > 0 {
      WindowsAreNumbered(path, lines, language, start + LINE_WINDOW_STEP, chunkIndex + 1, i - 1);
    }
  }

  /** The window that starts at `at`, unless it is blank, is among the chunks. */
  lemma {:induction false} WindowIsEmitted(path: Path, lines: seq<string>, language: string, start: nat, chunkIndex: nat, at: nat)
    returns (i: nat)
    requires start <= at < |lines| && (at - start) % LINE_WINDOW_STEP == 0
    requires !IsEmptyContent(WindowContent(lines, at))
    ensures i < |Windows(path, lines, language, start, chunkIndex)|
    ensures Windows(path, lines, language, start, chunkIndex)[i].startLine == at + 1
    decreases |lines| - start
  {
    if start == at {
      i := 0;
    } else if IsEmptyContent(WindowContent(lines, start)) {
      i := WindowIsEmitted(path, lines, language, start + LINE_WINDOW_STEP, chunkIndex, at);
    } else {
      i := WindowIsEmitted(path, lines, language, start + LINE_WINDOW_STEP, chunkIndex + 1, at);
      i := i + 1;
    }
  }

  lemma {:induction false} LineInJoin(lines: seq<string>, k: nat, c: char)
    requires k < |lines| && c in lines[k]
    ensures c in Join(lines)
  {
    if |lines| > 1 {
      if k == 0 {
        assert Join(lines) == lines[0] + ("\n" + Join(lines[1..]));
      } else {
        LineInJoin(lines[1..], k - 1, c);
      }
    }
  }

  predicate Covers(c: CodeChunk, line: nat) {
    c.startLine - 1 <= line < c.endLine
  }

  /** The chunks that contain one line, by position. */
  function CoveringChunks(chunks: seq<CodeChunk>, line: nat): set<nat> {
    set i | 0 <= i < |chunks| && Covers(chunks[i], line)
  }

  /** Every line that is not blank lies in one or two of the chunks. */
  lemma NonBlankLineIsCovered(path: Path, content: string, language: string, line: nat)
    requires line < |Split(content)| && !IsEmptyContent(Split(content)[line])
    ensures 1 <= |CoveringChunks(Windows(path, Split(content), language, 0, 0), line)| <= 2
  {
    hide Windows, Join, Split, IsSpace;
    var lines := Split(content);
    var chunks := Windows(path, lines, language, 0, 0);
    var at := line - line % LINE_WINDOW_STEP;
    assert !IsEmptyContent(WindowContent(lines, at)) by {
      var window := lines[at..WindowEnd(lines, at) + 1];
      assert window[line - at] == lines[line];
      var c :| c in lines[line] && !IsSpace(c);
      LineInJoin(window, line - at, c);
    }
    hide IsEmptyContent, WindowContent;
    var i := WindowIsEmitted(path, lines, language, 0, 0, at);
    WindowsAreNumbered(path, lines, language, 0, 0, i);
    assert i in CoveringChunks(chunks, line);
    AtMostTwo(path, lines, language, line);
    assert {i} <= CoveringChunks(chunks, line);
    SubsetSize({i}, CoveringChunks(chunks, line));
  }

  /** Positions determine starts, and only two starts reach a given line. */
  lemma AtMostTwo(path: Path, lines: seq<string>, language: string, line: nat)
    ensures |CoveringChunks(Windows(path, lines, language, 0, 0), line)| <= 2
  {
    hide Windows, WindowContent, IsEmptyContent;
    var chunks := Windows(path, lines, language, 0, 0);
    var covering := CoveringChunks(chunks, line);
    var at := line - line % LINE_WINDOW_STEP;
    forall i <- covering ensures chunks[i].startLine - 1 == at || chunks[i].startLine - 1 == at - LINE_WINDOW_STEP {
      WindowsAreNumbered(path, lines, language, 0, 0, i);
      StartIsNear(line, chunks[i].startLine - 1);
    }
    if |covering| > 2 {
      var a :| a in covering;
      SubsetMinus(covering, a);
      var b :| b in covering - {a};
      SubsetMinus(covering - {a}, b);
      var c :| c in covering - {a} - {b};
      StartsIncrease(path, lines, language, 0, 0, if a < b then a else b, if a < b then b else a);
      StartsIncrease(path, lines, language, 0, 0, if a < c then a else c, if a < c then c else a);
      StartsIncrease(path, lines, language, 0, 0, if b < c then b else c, if b < c then c else b);
      assert false;
    }
  }

  lemma StartIsNear(line: nat, start: nat)
    requires start % LINE_WINDOW_STEP == 0 && start <= line < start + LINE_WINDOW_SIZE
    ensures start == line - line % LINE_WINDOW_STEP || start == line - line % LINE_WINDOW_STEP - LINE_WINDOW_STEP
  {
    var q := start / LINE_WINDOW_STEP;
    assert start == q * LINE_WINDOW_STEP;
  }

  lemma SubsetMinus(s: set<nat>, x: nat)
    requires x in s
    ensures |s - {x}| == |s| - 1
  {
  }

  lemma {:induction false} StartsIncrease(path: Path, lines: seq<string>, language: string, start: nat, chunkIndex: nat, i: nat, j: nat)
    requires i < j < |Windows(path, lines, language, start, chunkIndex)|
    ensures var chunks := Windows(path, lines, language, start, chunkIndex);
            chunks[i].startLine < chunks[j].startLine
    decreases |lines| - start
  {
    if IsEmptyContent(WindowContent(lines, start)) {
      StartsIncrease(path, lines, language, start + LINE_WINDOW_STEP, chunkIndex, i, j);
    } else if i == 0 {
      WindowsAreNumbered(path, lines, language, start + LINE_WINDOW_STEP, chunkIndex + 1, j - 1);
    } else {
      StartsIncrease(path, lines, language, start + LINE_WINDOW_STEP, chunkIndex + 1, i - 1, j - 1);
    }
  }

  // ---- The file dispatch -----------------------------------------------------------------------

  datatype Strategy = Ast | LineWindow

  /** `raws` is what the syntax-tree chunker answers for this content; `None` when it throws. */
  function ChunkFile(path: Path, content: string, strategy: Strategy, language: string, raws: Option<seq<CodeChunk>>): seq<CodeChunk> {
    var normalized := NormalizeContent(content);
    if IsEmptyContent(normalized) then []
    else if strategy.LineWindow? || language == "" || raws.None? then Windows(path, Split(normalized), language, 0, 0)
    else raws.value
  }

  /** The syntax-tree chunker is trusted to number its chunks 0, 1, 2, ... */
  ghost predicate NumberedChunks(path: Path, chunks: seq<CodeChunk>) {
    forall i :: 0 <= i < |chunks| ==> chunks[i].chunkIndex == i && chunks[i].path == path
  }

  lemma ChunkFileIsNumbered(path: Path, content: string, strategy: Strategy, language: string, raws: Option<seq<CodeChunk>>)
    requires raws.Some? ==> NumberedChunks(path, raws.value)
    ensures NumberedChunks(path, ChunkFile(path, content, strategy, language, raws))
  {
    var lines := Split(NormalizeContent(content));
    forall i | 0 <= i < |Windows(path, lines, language, 0, 0)|
      ensures Windows(path, lines, language, 0, 0)[i].chunkIndex == i && Windows(path, lines, language, 0, 0)[i].path == path
    {
      WindowsAreNumbered(path, lines, language, 0, 0, i);
    }
  }

  // ---- Excerpts --------------------------------------------------------------------------------

  /** The lines `startLine` to `endLine` of a file's decoded text; stored rows only name positive lines. */
  function ExcerptLines(text: string, startLine: int, endLine: int): string {
    var lines := Split(NormalizeContent(text));
    var start := if startLine - 1 > 0 then startLine - 1 else 0;
    var end := if endLine < |lines| then endLine else |lines|;
    // Array.slice of an empty range
    if start >= end then "" else Join(lines[start..end])
  }

  /** On an unchanged file the excerpt of a line-window chunk is the chunk. */
  lemma ExcerptRestoresChunk(path: Path, content: string, language: string, i: nat)
    requires i < |ChunkFile(path, content, LineWindow, language, None)|
    ensures var c := ChunkFile(path, content, LineWindow, language, None)[i];
            ExcerptLines(content, c.startLine, c.endLine) == c.content
  {
    WindowsAreNumbered(path, Split(NormalizeContent(content)), language, 0, 0, i);
  }
}
