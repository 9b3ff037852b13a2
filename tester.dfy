/** The equivalence tester `check_trees`: erase one bracket pair from the
    source text, re-parse, and compare the dump of the new tree with the
    dump of the original one. Parsing and dumping are supplied as
    functions: `parse` yields `None` where Python raises `SyntaxError` or
    `ValueError`. */
module EquivalenceTester {
  import opened PyBuiltins
  import opened Tokens
  import opened BracketMatcher

  /** `lines[...]` with an index out of range: Python's IndexError. */
  datatype CheckError = LineIndexError

  /** The column correction for the closing bracket: only when it sits on
      the opening line, by how much the splice shortened or lengthened
      that line. */
  function Shift(c: ParenCoords): int
  {
    if c.open.line == c.close.line then -((c.space - c.open.col) - |c.replacement|) else 0
  }

  /** The opening line with `line[open_col:space]` replaced. */
  function SpliceOpen(line: string, c: ParenCoords): string
  {
    Prefix(line, c.open.col) + c.replacement + Suffix(line, c.space)
  }

  /** The closing line with the character at `col` replaced by one space. */
  function BlankClose(line: string, col: int): string
  {
    Prefix(line, col) + " " + Suffix(line, col + 1)
  }

  /** The lines after both edits, or the IndexError raised on the way. */
  function EraseLines(lines: seq<string>, c: ParenCoords): Result<seq<string>, CheckError>
  {
    if !ValidIndex(|lines|, c.open.line - 1) then Err(LineIndexError)
    else
      var o := NormIndex(|lines|, c.open.line - 1);
      var spliced := lines[o := SpliceOpen(lines[o], c)];
      if !ValidIndex(|spliced|, c.close.line - 1) then Err(LineIndexError)
      else
        var k := NormIndex(|spliced|, c.close.line - 1);
        Ok(spliced[k := BlankClose(spliced[k], c.close.col + Shift(c))])
  }

  /** The source text with the pair erased. */
  function ErasedSource(source: string, c: ParenCoords): Result<string, CheckError>
  {
    match EraseLines(Split(source), c)
    case Err(e) => Err(e)
    case Ok(lines) => Ok(Join(lines))
  }

  /** Whether a text parses to a tree whose dump is `startDump`. */
  predicate SameDump<T>(parse: string -> Option<T>, dump: T -> string, text: string, startDump: string)
  {
    parse(text).Some? && dump(parse(text).value) == startDump
  }

  /** The two edits of `check_trees` on the source text's lines:
      the opening line is spliced, then the closing bracket, moved by the
      shift, is blanked. */
  method EditLines(sourceLines: seq<string>, parensCoords: ParenCoords)
    returns (r: Result<seq<string>, CheckError>)
    ensures r == EraseLines(sourceLines, parensCoords)
  {
    var open, space, replacement, close :=
      parensCoords.open, parensCoords.space, parensCoords.replacement, parensCoords.close;
    var lines := sourceLines;
    if !ValidIndex(|lines|, open.line - 1) {
      return Err(LineIndexError);
    }
    var o := NormIndex(|lines|, open.line - 1);
    lines := lines[o := SpliceOpen(lines[o], parensCoords)];
    var shift := 0;
    if open.line == close.line {
      shift := shift - ((space - open.col) - |replacement|);
    }
    assert shift == Shift(parensCoords);
    if !ValidIndex(|lines|, close.line - 1) {
      return Err(LineIndexError);
    }
    var k := NormIndex(|lines|, close.line - 1);
    lines := lines[k := BlankClose(lines[k], close.col + shift)];
    return Ok(lines);
  }

  /** `check_trees(source_code, start_tree, parens_coords)`: False when
      the erased text does not parse; otherwise whether its dump equals
      the original dump. */
  method CheckTrees<T>(parse: string -> Option<T>, dump: T -> string, sourceCode: string,
                       startTree: string, parensCoords: ParenCoords)
    returns (r: Result<bool, CheckError>)
    ensures r.Err? <==> ErasedSource(sourceCode, parensCoords).Err?
    ensures r.Ok? ==> var text := ErasedSource(sourceCode, parensCoords).value;
                      (parse(text).None? ==> !r.value) &&
                      (parse(text).Some? ==> (r.value <==> dump(parse(text).value) == startTree))
  {
    var lines := EditLines(Split(sourceCode), parensCoords);
    if lines.Err? {
      return Err(lines.error);
    }
    var codeWithoutParens := Join(lines.value);
    var tree := parse(codeWithoutParens);
    if tree.None? {
      return Ok(false);
    }
    if dump(tree.value) == startTree {
      return Ok(true);
    } else {
      return Ok(false);
    }
  }

  // ---------------------------------------------------------------------
  // What the erasure does to the lines

  /** The erasure keeps the number of lines and changes only the opening
      line and the closing line. */
  lemma EraseTouchesTwoLines(lines: seq<string>, c: ParenCoords)
    requires EraseLines(lines, c).Ok?
    ensures var out := EraseLines(lines, c).value;
            ValidIndex(|lines|, c.open.line - 1) && ValidIndex(|lines|, c.close.line - 1) &&
            var o, k := NormIndex(|lines|, c.open.line - 1), NormIndex(|lines|, c.close.line - 1);
            |out| == |lines| &&
            (forall j :: 0 <= j < |lines| && j != o && j != k ==> out[j] == lines[j]) &&
            (o != k ==> out[o] == SpliceOpen(lines[o], c) &&
                        out[k] == BlankClose(lines[k], c.close.col + Shift(c))) &&
            (o == k ==> out[o] == BlankClose(SpliceOpen(lines[o], c), c.close.col + Shift(c)))
  {
  }

  /** Blanking a character inside the line overwrites exactly that
      character with a space, keeping the width. */
  lemma BlankCloseInPlace(line: string, col: int)
    requires 0 <= col < |line|
    ensures BlankClose(line, col) == line[col := ' ']
  {
  }

  /** The column shift moves the closing column onto the original closing
      character: after the opening splice on the same line, the character
      at `close_col + shift` is the one that stood at `close_col`, and the
      erased line is the original with the span `open_col..space`
      replaced and the closing character blanked. */
  lemma ShiftTracksClose(line: string, c: ParenCoords)
    requires c.open.line == c.close.line
    requires 0 <= c.open.col <= c.space <= c.close.col < |line|
    ensures 0 <= c.close.col + Shift(c) < |SpliceOpen(line, c)|
    ensures SpliceOpen(line, c)[c.close.col + Shift(c)] == line[c.close.col]
    ensures BlankClose(SpliceOpen(line, c), c.close.col + Shift(c)) ==
            line[..c.open.col] + c.replacement + line[c.space..c.close.col] + " " + line[c.close.col + 1..]
  {
    var spliced := SpliceOpen(line, c);
    var cc := c.close.col + Shift(c);
    assert spliced == line[..c.open.col] + c.replacement + line[c.space..];
    assert cc == c.open.col + |c.replacement| + (c.close.col - c.space);
    assert spliced[..cc] == line[..c.open.col] + c.replacement + line[c.space..c.close.col];
    assert spliced[cc + 1..] == line[c.close.col + 1..];
  }

  /** With the `" "` in-place record (erase end one past the opener), the
      shift is zero and both brackets are overwritten by one space each,
      one for one: every other character keeps its column. */
  lemma InPlaceErasure(lines: seq<string>, c: ParenCoords)
    requires c.replacement == " " && c.space == c.open.col + 1
    requires 1 <= c.open.line <= |lines| && 1 <= c.close.line <= |lines|
    requires 0 <= c.open.col < |lines[c.open.line - 1]|
    requires 0 <= c.close.col < |lines[c.close.line - 1]|
    requires c.open.line == c.close.line ==> c.open.col != c.close.col
    ensures Shift(c) == 0
    ensures EraseLines(lines, c).Ok?
    ensures var out := EraseLines(lines, c).value;
            var o, k := c.open.line - 1, c.close.line - 1;
            |out| == |lines| &&
            (o != k ==> out[o] == lines[o][c.open.col := ' '] && out[k] == lines[k][c.close.col := ' ']) &&
            (o == k ==> out[o] == lines[o][c.open.col := ' '][c.close.col := ' '])
  {
    var o, k := c.open.line - 1, c.close.line - 1;
    BlankCloseInPlace(lines[o], c.open.col);
    assert SpliceOpen(lines[o], c) == BlankClose(lines[o], c.open.col);
    var spliced := lines[o := lines[o][c.open.col := ' ']];
    BlankCloseInPlace(spliced[k], c.close.col);
  }

  /** The erase end of an opener that starts its line and has no token
      after it on that line is the token line's length less two. Were that
      line the opener and a line break only, the span would be empty and
      the splice would leave the line as it is; the tokenizer emits a
      line-break token after such an opener, so this case is not reached
      from real token streams. */
  lemma AloneOpenerEmptySpan(tokens: seq<Token>, m: Match, line: string)
    requires Readable(tokens, m) && IsOpener(tokens[m.open]) && FirstInLine(tokens, m.open)
    requires tokens[m.open + 1].start.line != tokens[m.open].end.line
    requires |tokens[m.open].line| == tokens[m.open].start.col + 2
    requires 0 <= tokens[m.open].start.col <= |line|
    ensures SpliceOpen(line, CoordsOf(tokens, m)) == line
  {
  }

  /** The way the lone-opener case is reached: the opener's line ends in a
      backslash continuation, so the next token is on a later line. The
      erase end `len(line) - 2` is then the backslash's column, and the
      splice removes the opener and everything up to the backslash, which
      it keeps. */
  lemma AloneOpenerErasedToBackslash(tokens: seq<Token>, m: Match, line: string)
    requires Readable(tokens, m) && IsOpener(tokens[m.open]) && FirstInLine(tokens, m.open)
    requires tokens[m.open + 1].start.line != tokens[m.open].end.line
    requires tokens[m.open].line == line + "\n"
    requires |line| > 0 && line[|line| - 1] == '\\'
    requires 0 <= tokens[m.open].start.col < |line|
    ensures CoordsOf(tokens, m).space == |line| - 1
    ensures SpliceOpen(line, CoordsOf(tokens, m)) == line[..tokens[m.open].start.col] + "\\"
  {
    var c := CoordsOf(tokens, m);
    assert Suffix(line, c.space) == line[|line| - 1..];
  }

  /** The edited lines hold no line break when the replacement holds
      none, so the erased text splits back into exactly the edited lines:
      the number of lines is unchanged. */
  lemma ErasedSourceKeepsLines(source: string, c: ParenCoords)
    requires '\n' !in c.replacement
    requires ErasedSource(source, c).Ok?
    ensures Split(ErasedSource(source, c).value) == EraseLines(Split(source), c).value
    ensures |Split(ErasedSource(source, c).value)| == |Split(source)|
  {
    var out := EraseLines(Split(source), c).value;
    EraseLinesPlain(Split(source), c);
    SplitJoin(out);
  }

  /** Neither edit introduces a line break. */
  lemma EraseLinesPlain(lines: seq<string>, c: ParenCoords)
    requires '\n' !in c.replacement
    requires forall j :: 0 <= j < |lines| ==> '\n' !in lines[j]
    requires EraseLines(lines, c).Ok?
    ensures forall j :: 0 <= j < |EraseLines(lines, c).value| ==> '\n' !in EraseLines(lines, c).value[j]
  {
    var o := NormIndex(|lines|, c.open.line - 1);
    SplicePlain(lines[o], c);
    var spliced := lines[o := SpliceOpen(lines[o], c)];
    var k := NormIndex(|spliced|, c.close.line - 1);
    BlankPlain(spliced[k], c.close.col + Shift(c));
  }

  lemma SplicePlain(line: string, c: ParenCoords)
    requires '\n' !in c.replacement && '\n' !in line
    ensures '\n' !in SpliceOpen(line, c)
  {
    assert '\n' !in Prefix(line, c.open.col) && '\n' !in Suffix(line, c.space);
  }

  lemma BlankPlain(line: string, col: int)
    requires '\n' !in line
    ensures '\n' !in BlankClose(line, col)
  {
    assert '\n' !in Prefix(line, col) && '\n' !in Suffix(line, col + 1);
  }
}
