/** What a cold build makes of one file: which chunks become rows, what their texts are, and when they are valid. */
module FileRows {
  import opened Contracts
  import opened IndexRows
  import opened Chunking
  import IndexUpdate

  /** The text that is cut into chunks. */
  function Text(t: Toolchain, bytes: Bytes): string {
    NormalizeContent(t.decode(bytes))
  }

  /** The chunks of a file, by the ids of its rows, are exactly those listed. */
  ghost predicate RowsAre(index: map<string, Row>, path: Path, chunks: seq<CodeChunk>) {
    forall i: nat :: (MakeCodeChunkId(path, i) in index <==> i < |chunks|)
                     && (i < |chunks| ==> index[MakeCodeChunkId(path, i)].chunk == chunks[i])
  }

  lemma ChunksAreRows(t: Toolchain, files: map<Path, Bytes>, path: Path)
    requires path in files
    ensures RowsAre(ColdIndex(t, files), path, Chunks(t, path, files[path]))
  {
    hide ColdIndex, Chunks, MakeCodeChunkId;
    var chunks := Chunks(t, path, files[path]);
    forall i: nat ensures (MakeCodeChunkId(path, i) in ColdIndex(t, files) <==> i < |chunks|)
                          && (i < |chunks| ==> ColdIndex(t, files)[MakeCodeChunkId(path, i)].chunk == chunks[i])
    {
      if i < |chunks| { IndexUpdate.ColdRow(t, files, path, i); }
      if MakeCodeChunkId(path, i) in ColdIndex(t, files) {
        var q, j := IndexUpdate.ColdRowOf(t, files, MakeCodeChunkId(path, i));
        ChunkIdIsInjective(path, i, q, j);
      }
    }
  }

  /** A blank file has no rows. */
  lemma BlankFileHasNoRows(t: Toolchain, files: map<Path, Bytes>, path: Path)
    requires path in files && IsEmptyContent(Text(t, files[path]))
    ensures RowsAre(ColdIndex(t, files), path, [])
  {
    hide ColdIndex;
    ChunksAreRows(t, files, path);
  }

  /** A file of a known language that the syntax-tree chunker takes has its chunks as rows, in their order. */
  lemma TreeChunksAreRows(t: Toolchain, files: map<Path, Bytes>, path: Path)
    requires path in files && !IsEmptyContent(Text(t, files[path])) && t.strategy(path).Ast? && t.language(path) != ""
    requires t.ast(path, Text(t, files[path]), t.language(path)).Some?
    ensures RowsAre(ColdIndex(t, files), path, t.ast(path, Text(t, files[path]), t.language(path)).value)
  {
    hide ColdIndex;
    ChunksAreRows(t, files, path);
  }

  /** The chunk is a window of at most 60 lines of the text, one of those that begin every 50 lines. */
  ghost predicate IsWindow(c: CodeChunk, path: Path, lines: seq<string>, language: string) {
    && 1 <= c.startLine <= c.endLine <= |lines|
    && c.startLine % 50 == 1 && (c.endLine == c.startLine + 59 || (c.endLine == |lines| && c.endLine < c.startLine + 59))
    && c.content == Join(lines[c.startLine - 1..c.endLine]) && !IsEmptyContent(c.content)
    && c.contextualizedText == "// " + path + "\n" + c.content
    && c.path == path && c.symbol == "" && c.scope == "" && c.language == language
  }

  /** The syntax-tree chunker is not asked, has no say, or throws. */
  predicate TakesWindows(t: Toolchain, path: Path, bytes: Bytes) {
    t.strategy(path).LineWindow? || t.language(path) == "" || t.ast(path, Text(t, bytes), t.language(path)).None?
  }

  /**
   Any other file that is not blank is cut into line windows: every row is the window it names, and every line that
   is not blank lies in one or two of the file's rows.
   */
  lemma WindowsAreRows(t: Toolchain, files: map<Path, Bytes>, path: Path) returns (chunks: seq<CodeChunk>)
    requires path in files && !IsEmptyContent(Text(t, files[path])) && TakesWindows(t, path, files[path])
    ensures var lines := Split(Text(t, files[path]));
            && RowsAre(ColdIndex(t, files), path, chunks)
            && (forall i :: 0 <= i < |chunks| ==> IsWindow(chunks[i], path, lines, t.language(path)) && chunks[i].chunkIndex == i)
            && (forall line: nat :: line < |lines| && !IsEmptyContent(lines[line]) ==> 1 <= |CoveringChunks(chunks, line)| <= 2)
  {
    hide ColdIndex, Windows, IsEmptyContent, Split, Join, CoveringChunks;
    ChunksAreRows(t, files, path);
    var lines := Split(Text(t, files[path]));
    chunks := Windows(path, lines, t.language(path), 0, 0);
    forall i | 0 <= i < |chunks| ensures IsWindow(chunks[i], path, lines, t.language(path)) && chunks[i].chunkIndex == i {
      WindowsAreNumbered(path, lines, t.language(path), 0, 0, i);
    }
    forall line: nat | line < |lines| && !IsEmptyContent(lines[line]) ensures 1 <= |CoveringChunks(chunks, line)| <= 2 {
      NonBlankLineIsCovered(path, Text(t, files[path]), t.language(path), line);
    }
  }

  /** What is embedded is the contextualized text; what is searched is that text and the tokens of it, symbol and path. */
  lemma RowTexts(t: Toolchain, files: map<Path, Bytes>, id: string)
    requires id in ColdIndex(t, files)
    ensures var row := ColdIndex(t, files)[id];
            var text := row.chunk.contextualizedText;
            && row.embedding == t.embed(text)
            && row.indexedText == text + " " + t.tokens(text + " " + row.chunk.symbol + " " + row.chunk.path)
  {
    hide ColdIndex, Chunks;
    var p, i := IndexUpdate.ColdRowOf(t, files, id);
  }

  /** The rows of a file cut into windows are valid exactly when its path is not blank and the vectors have 768 numbers. */
  lemma WindowRowsAreValid(t: Toolchain, path: Path, bytes: Bytes)
    requires !IsEmptyContent(Text(t, bytes)) && TakesWindows(t, path, bytes)
    ensures FileRowsValid(t, path, bytes)
       <==> !IsEmptyContent(path) && forall c <- Chunks(t, path, bytes) :: |t.embed(c.contextualizedText)| == 768
  {
    hide Windows, IsEmptyContent, Split, Join;
    var lines := Split(Text(t, bytes));
    var chunks := Chunks(t, path, bytes);
    assert chunks == Windows(path, lines, t.language(path), 0, 0);
    NonBlankText(Text(t, bytes));
    var line :| 0 <= line < |lines| && !IsEmptyContent(lines[line]);
    NonBlankLineIsCovered(path, Text(t, bytes), t.language(path), line);
    SomeChunk(chunks, line);
    forall i | 0 <= i < |chunks| ensures ValidRow(RowOf(t, chunks[i])) <==> !IsEmptyContent(path) && |t.embed(chunks[i].contextualizedText)| == 768 {
      WindowsAreNumbered(path, lines, t.language(path), 0, 0, i);
      ContextIsNotBlank(path, chunks[i].content);
    }
    assert chunks[0] in chunks;
    forall c <- chunks ensures ValidRow(RowOf(t, c)) <==> !IsEmptyContent(path) && |t.embed(c.contextualizedText)| == 768 {
      var i :| 0 <= i < |chunks| && chunks[i] == c;
    }
  }

  lemma SomeChunk(chunks: seq<CodeChunk>, line: nat)
    requires |CoveringChunks(chunks, line)| >= 1
    ensures chunks != []
  {
    assert CoveringChunks([], line) == {};
  }

  lemma ContextIsNotBlank(path: Path, content: string)
    requires !IsEmptyContent(content)
    ensures !IsEmptyContent("// " + path + "\n" + content)
  {
    assert ("// " + path + "\n" + content)[0] == '/';
  }

  /** A text that is not blank has a line that is not blank. */
  lemma {:induction false} NonBlankText(content: string)
    requires !IsEmptyContent(content)
    ensures exists line :: 0 <= line < |Split(content)| && !IsEmptyContent(Split(content)[line])
  {
    var rest := Split(content[1..]);
    if content[0] != '\n' && !IsSpace(content[0]) {
      assert Split(content)[0][0] == content[0];
    } else {
      assert content == [content[0]] + content[1..];
      NonBlankText(content[1..]);
      var line :| 0 <= line < |rest| && !IsEmptyContent(rest[line]);
      if content[0] == '\n' {
        assert Split(content)[line + 1] == rest[line];
      } else if line > 0 {
        assert Split(content)[line] == rest[line];
      } else {
        var c :| c in rest[0] && !IsSpace(c);
        assert c in Split(content)[0];
      }
    }
  }
}
