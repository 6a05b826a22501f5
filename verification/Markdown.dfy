/** The Markdown block parser: which lines each block covers, what it says, and under which headings. */
module Markdown {
  import opened Wrappers

  datatype Heading = Heading(level: nat, title: string)

  datatype Fence = Backticks | Tildes

  /** A line with what the regular expressions make of it; any classification of any line is allowed. */
  datatype Line = Line(
    text: string, blank: bool, heading: Option<Heading>, fence: Option<Fence>,
    pipe: bool, separator: bool, underline: Option<nat>, stripped: string, cells: seq<string>)

  datatype Kind = HeadingBlock | CodeBlock | TableBlock | ParagraphBlock

  datatype Cell = Cell(row: nat, column: nat, text: string)

  /** Line numbers are counted from 1, and both ends belong to the block. */
  datatype Body = Body(kind: Kind, text: string, lineStart: nat, lineEnd: nat, cells: seq<Cell>)

  datatype Block = Block(order: nat, path: seq<Heading>, body: Body)

  /** What the parser makes of the lines from start up to next: perhaps a heading, perhaps a block. */
  datatype Piece = Piece(start: nat, next: nat, heading: Option<Heading>, body: Option<Body>)

  // ---------------------------------------------------------------------------
  // Headings
  // ---------------------------------------------------------------------------

  function Below(stack: seq<Heading>, level: nat): seq<Heading> {
    if stack == [] then []
    else
      var last := stack[|stack| - 1];
      Below(stack[..|stack| - 1], level) + if last.level < level then [last] else []
  }

  function PushHeading(stack: seq<Heading>, h: Heading): seq<Heading> {
    Below(stack, h.level) + [h]
  }

  /** The stack after a sequence of headings. */
  function Stack(headings: seq<Heading>): seq<Heading> {
    if headings == [] then []
    else PushHeading(Stack(headings[..|headings| - 1]), headings[|headings| - 1])
  }

  /** No later heading is of the same or a smaller level. */
  predicate Open(headings: seq<Heading>, i: int) {
    0 <= i < |headings| && forall k | i < k < |headings| :: headings[k].level > headings[i].level
  }

  /** Reference: the headings that are still open, in order. */
  function OpenHeadings(headings: seq<Heading>, upTo: nat): seq<Heading>
    requires upTo <= |headings|
  {
    if upTo == 0 then []
    else OpenHeadings(headings, upTo - 1) + if Open(headings, upTo - 1) then [headings[upTo - 1]] else []
  }

  predicate Rising(stack: seq<Heading>) {
    forall i, k | 0 <= i < k < |stack| :: stack[i].level < stack[k].level
  }

  lemma {:induction false} OpenAfterOneMore(headings: seq<Heading>, h: Heading, upTo: nat)
    requires upTo <= |headings|
    ensures OpenHeadings(headings + [h], upTo) == Below(OpenHeadings(headings, upTo), h.level)
  {
    if upTo > 0 {
      var all, i := headings + [h], upTo - 1;
      OpenAfterOneMore(headings, h, i);
      assert all[|headings|] == h && forall k | 0 <= k < |headings| :: all[k] == headings[k];
      assert Open(all, i) <==> Open(headings, i) && headings[i].level < h.level;
      var before := OpenHeadings(headings, i);
      BelowAppend(before, headings[i], h.level);
      assert before + [] == before;
    }
  }

  lemma BelowAppend(stack: seq<Heading>, h: Heading, level: nat)
    ensures Below(stack + [h], level) == Below(stack, level) + if h.level < level then [h] else []
  {
    assert (stack + [h])[..|stack|] == stack;
  }

  lemma {:induction false} BelowIsRising(stack: seq<Heading>, level: nat)
    requires Rising(stack)
    ensures Rising(Below(stack, level))
        && forall i | 0 <= i < |Below(stack, level)| :: Below(stack, level)[i].level < level
    ensures forall h | h in Below(stack, level) :: h in stack
  {
    if stack != [] {
      var front, last := stack[..|stack| - 1], stack[|stack| - 1];
      BelowIsRising(front, level);
      forall h | h in Below(front, level) ensures h.level < last.level {
        assert h in front;
        var k :| 0 <= k < |front| && front[k] == h;
        assert stack[k].level < last.level;
      }
    }
  }

  /**
   * The heading path is exactly the headings so far with no later one of equal or smaller level, and levels
   * rise along it.
   */
  lemma {:induction false} PathIsOpenHeadings(headings: seq<Heading>)
    ensures Stack(headings) == OpenHeadings(headings, |headings|)
    ensures Rising(Stack(headings))
  {
    if headings != [] {
      var front, h := headings[..|headings| - 1], headings[|headings| - 1];
      PathIsOpenHeadings(front);
      assert headings == front + [h];
      OpenAfterOneMore(front, h, |front|);
      assert Open(headings, |front|);
      BelowIsRising(Stack(front), h.level);
    }
  }

  // ---------------------------------------------------------------------------
  // Units of the text
  // ---------------------------------------------------------------------------

  datatype Unit = BlankUnit | AtxUnit | CodeUnit | TableUnit | SetextUnit | ParagraphUnit

  predicate TableStart(lines: seq<Line>, i: nat)
    requires i < |lines|
  {
    i + 1 < |lines| && lines[i].pipe && lines[i + 1].separator
  }

  function UnitAt(lines: seq<Line>, i: nat): Unit
    requires i < |lines|
  {
    if lines[i].blank then BlankUnit
    else if lines[i].heading.Some? then AtxUnit
    else if lines[i].fence.Some? then CodeUnit
    else if TableStart(lines, i) then TableUnit
    else if i + 1 < |lines| && lines[i + 1].underline.Some? then SetextUnit
    else ParagraphUnit
  }

  /** The first line from i on that starts with the fence, or the end of the text. */
  function CloseOf(lines: seq<Line>, i: nat, f: Fence): (close: nat)
    requires i <= |lines|
    ensures i <= close <= |lines|
    ensures forall k | i <= k < close :: lines[k].fence != Some(f)
    ensures close < |lines| ==> lines[close].fence == Some(f)
    decreases |lines| - i
  {
    if i == |lines| || lines[i].fence == Some(f) then i else CloseOf(lines, i + 1, f)
  }

  predicate IsRow(line: Line) { !line.blank && line.pipe }

  function RowsEnd(lines: seq<Line>, i: nat): (end: nat)
    requires i <= |lines|
    ensures i <= end <= |lines|
    ensures forall k | i <= k < end :: IsRow(lines[k])
    ensures end < |lines| ==> !IsRow(lines[end])
    decreases |lines| - i
  {
    if i == |lines| || !IsRow(lines[i]) then i else RowsEnd(lines, i + 1)
  }

  predicate Breaks(lines: seq<Line>, k: nat)
    requires k < |lines|
  {
    lines[k].blank || lines[k].heading.Some? || lines[k].fence.Some? || TableStart(lines, k)
  }

  function ParagraphEnd(lines: seq<Line>, i: nat): (end: nat)
    requires i <= |lines|
    ensures i <= end <= |lines|
    ensures forall k | i <= k < end :: !Breaks(lines, k)
    ensures end < |lines| ==> Breaks(lines, end)
    decreases |lines| - i
  {
    if i == |lines| || Breaks(lines, i) then i else ParagraphEnd(lines, i + 1)
  }

  /** The texts of the lines, with newlines between them. */
  function Join(lines: seq<Line>): string {
    if lines == [] then ""
    else if |lines| == 1 then lines[0].text
    else Join(lines[..|lines| - 1]) + "\n" + lines[|lines| - 1].text
  }

  // ---------------------------------------------------------------------------
  // Tables
  // ---------------------------------------------------------------------------

  function Width(rows: seq<seq<string>>): (width: nat)
    ensures forall i | 0 <= i < |rows| :: |rows[i]| <= width
    ensures rows != [] ==> exists i | 0 <= i < |rows| :: |rows[i]| == width
  {
    if rows == [] then 0
    else
      var front, last := rows[..|rows| - 1], rows[|rows| - 1];
      var before := Width(front);
      assert forall i | 0 <= i < |front| :: rows[i] == front[i];
      assert rows[|rows| - 1] == last;
      if |last| > before then |last| else before
  }

  function RowCells(row: seq<string>, number: nat, width: nat): (cells: seq<Cell>)
    ensures |cells| == width
    ensures forall c | 0 <= c < width :: cells[c] == Cell(number, c + 1, if c < |row| then row[c] else "")
  {
    seq(width, c requires 0 <= c < width => Cell(number, c + 1, if c < |row| then row[c] else ""))
  }

  function Cells(rows: seq<seq<string>>, width: nat): seq<Cell> {
    if rows == [] then []
    else Cells(rows[..|rows| - 1], width) + RowCells(rows[|rows| - 1], |rows|, width)
  }

  lemma {:induction false} CellCount(rows: seq<seq<string>>, width: nat)
    ensures |Cells(rows, width)| == |rows| * width
  {
    if rows != [] {
      CellCount(rows[..|rows| - 1], width);
      if width > 0 { RowMajor(0, 0, |rows|, width); }
    }
  }

  /** The cells form a full rectangle, row by row, short rows padded with empty texts. */
  lemma {:induction false} TableIsRectangular(rows: seq<seq<string>>, width: nat, r: nat, c: nat)
    requires r < |rows| && c < width
    ensures |Cells(rows, width)| == |rows| * width && r * width + c < |rows| * width
    ensures Cells(rows, width)[r * width + c] == Cell(r + 1, c + 1, if c < |rows[r]| then rows[r][c] else "")
    decreases |rows|
  {
    var front := rows[..|rows| - 1];
    CellCount(rows, width);
    CellCount(front, width);
    RowMajor(r, c, |rows|, width);
    if r < |front| {
      RowMajor(r, c, |front|, width);
      TableIsRectangular(front, width, r, c);
    }
  }

  lemma RowMajor(r: nat, c: nat, height: nat, width: nat)
    requires r < height && c < width
    ensures 0 <= r * width + c < height * width
    ensures height * width == (height - 1) * width + width
  {
    assert (r + 1) * width <= height * width;
  }

  function RowsOf(lines: seq<Line>): (rows: seq<seq<string>>)
    ensures |rows| == |lines| && forall i | 0 <= i < |rows| :: rows[i] == lines[i].cells
  {
    seq(|lines|, i requires 0 <= i < |lines| => lines[i].cells)
  }

  function TableBody(lines: seq<Line>, i: nat, end: nat): Body
    requires i + 2 <= end <= |lines|
  {
    var rows := RowsOf([lines[i]] + lines[i + 2..end]);
    var cells := Cells(rows, Width(rows));
    Body(TableBlock, if cells != [] then cells[0].text else "", i + 1, end, cells)
  }

  // ---------------------------------------------------------------------------
  // The pieces of a text, and its blocks
  // ---------------------------------------------------------------------------

  /** A fence that is never closed takes the parser one past the end. */
  function PieceAt(lines: seq<Line>, i: nat): Piece
    requires i < |lines|
  {
    match UnitAt(lines, i)
    case BlankUnit => Piece(i, i + 1, None, None)
    case AtxUnit =>
      Piece(i, i + 1, lines[i].heading, Some(Body(HeadingBlock, lines[i].heading.value.title, i + 1, i + 1, [])))
    case CodeUnit =>
      var close := CloseOf(lines, i + 1, lines[i].fence.value);
      Piece(i, close + 1, None,
            if close == i + 1 then None else Some(Body(CodeBlock, Join(lines[i + 1..close]), i + 2, close, [])))
    case TableUnit =>
      var end := RowsEnd(lines, i + 2);
      Piece(i, end, None, Some(TableBody(lines, i, end)))
    case SetextUnit =>
      Piece(i, i + 2, Some(Heading(lines[i + 1].underline.value, lines[i].stripped)),
            Some(Body(HeadingBlock, lines[i].stripped, i + 1, i + 2, [])))
    case ParagraphUnit =>
      var end := ParagraphEnd(lines, i + 1);
      Piece(i, end, None, Some(Body(ParagraphBlock, Join(lines[i..end]), i + 1, end, [])))
  }

  lemma PieceAdvances(lines: seq<Line>, i: nat)
    requires i < |lines|
    ensures PieceAt(lines, i).start == i < PieceAt(lines, i).next <= |lines| + 1
  {
  }

  function Pieces(lines: seq<Line>, i: nat): seq<Piece>
    decreases |lines| - i
  {
    if i >= |lines| then []
    else
      PieceAdvances(lines, i);
      [PieceAt(lines, i)] + Pieces(lines, PieceAt(lines, i).next)
  }

  function Optional<T>(x: Option<T>): seq<T> {
    if x.Some? then [x.value] else []
  }

  function HeadingsIn(pieces: seq<Piece>): seq<Heading> {
    if pieces == [] then []
    else HeadingsIn(pieces[..|pieces| - 1]) + Optional(pieces[|pieces| - 1].heading)
  }

  /** Each block gets its number and the stack of the headings up to and including its own piece. */
  function Assemble(pieces: seq<Piece>): seq<Block> {
    if pieces == [] then []
    else
      var before, last := Assemble(pieces[..|pieces| - 1]), pieces[|pieces| - 1];
      before + if last.body.Some? then [Block(|before|, Stack(HeadingsIn(pieces)), last.body.value)] else []
  }

  function Parse(lines: seq<Line>): seq<Block> { Assemble(Pieces(lines, 0)) }

  // ---------------------------------------------------------------------------
  // The loop
  // ---------------------------------------------------------------------------

  method ReadCode(lines: seq<Line>, start: nat, fence: Fence) returns (content: seq<Line>, index: nat)
    requires start <= |lines|
    ensures index == CloseOf(lines, start, fence) && content == lines[start..index]
  {
    content, index := [], start;
    while index < |lines| && lines[index].fence != Some(fence)
      invariant start <= index <= |lines| && content == lines[start..index]
      invariant CloseOf(lines, start, fence) == CloseOf(lines, index, fence)
    {
      content := content + [lines[index]];
      index := index + 1;
    }
  }

  method ReadRows(lines: seq<Line>, start: nat) returns (rows: seq<seq<string>>, index: nat)
    requires start <= |lines|
    ensures index == RowsEnd(lines, start) && rows == RowsOf(lines[start..index])
  {
    rows, index := [], start;
    while index < |lines| && !lines[index].blank && lines[index].pipe
      invariant start <= index <= |lines| && rows == RowsOf(lines[start..index])
      invariant RowsEnd(lines, start) == RowsEnd(lines, index)
    {
      rows := rows + [lines[index].cells];
      index := index + 1;
    }
  }

  method ReadParagraph(lines: seq<Line>, start: nat) returns (content: seq<Line>, index: nat)
    requires start < |lines|
    ensures index == ParagraphEnd(lines, start + 1) && content == lines[start..index]
  {
    content, index := [lines[start]], start + 1;
    while index < |lines|
      invariant start < index <= |lines| && content == lines[start..index]
      invariant ParagraphEnd(lines, start + 1) == ParagraphEnd(lines, index)
    {
      var current := lines[index];
      if current.blank {
        break;
      }
      if current.heading.Some? || current.fence.Some? {
        break;
      }
      if current.pipe && index + 1 < |lines| && lines[index + 1].separator {
        break;
      }
      content := content + [current];
      index := index + 1;
    }
  }

  method ReadPiece(lines: seq<Line>, i: nat) returns (p: Piece)
    requires i < |lines|
    ensures p == PieceAt(lines, i)
  {
    var line := lines[i];
    if line.blank {
      return Piece(i, i + 1, None, None);
    }
    if line.heading.Some? {
      return Piece(i, i + 1, line.heading, Some(Body(HeadingBlock, line.heading.value.title, i + 1, i + 1, [])));
    }
    if line.fence.Some? {
      var content, close := ReadCode(lines, i + 1, line.fence.value);
      var body := if content == [] then None else Some(Body(CodeBlock, Join(content), i + 2, close, []));
      return Piece(i, close + 1, None, body);
    }
    if i + 1 < |lines| && line.pipe && lines[i + 1].separator {
      var more, end := ReadRows(lines, i + 2);
      var rows := [line.cells] + more;
      assert rows == RowsOf([lines[i]] + lines[i + 2..end]);
      var cells := Cells(rows, Width(rows));
      return Piece(i, end, None, Some(Body(TableBlock, if cells != [] then cells[0].text else "", i + 1, end, cells)));
    }
    if i + 1 < |lines| && lines[i + 1].underline.Some? {
      return Piece(i, i + 2, Some(Heading(lines[i + 1].underline.value, line.stripped)),
                   Some(Body(HeadingBlock, line.stripped, i + 1, i + 2, [])));
    }
    var content, end := ReadParagraph(lines, i);
    return Piece(i, end, None, Some(Body(ParagraphBlock, Join(content), i + 1, end, [])));
  }

  lemma AssembleOneMore(pieces: seq<Piece>, p: Piece)
    ensures HeadingsIn(pieces + [p]) == HeadingsIn(pieces) + Optional(p.heading)
    ensures Stack(HeadingsIn(pieces + [p])) ==
              if p.heading.Some? then PushHeading(Stack(HeadingsIn(pieces)), p.heading.value)
              else Stack(HeadingsIn(pieces))
    ensures Assemble(pieces + [p]) == Assemble(pieces)
              + if p.body.Some? then [Block(|Assemble(pieces)|, Stack(HeadingsIn(pieces + [p])), p.body.value)] else []
  {
    assert (pieces + [p])[..|pieces|] == pieces;
    var headings := HeadingsIn(pieces);
    if p.heading.Some? {
      assert (headings + [p.heading.value])[..|headings|] == headings;
    } else {
      assert headings + [] == headings;
    }
  }

  lemma PiecesOneMore(lines: seq<Line>, index: nat, read: seq<Piece>, p: Piece)
    requires index < |lines| && p == PieceAt(lines, index)
    ensures p.next > index
    ensures read + Pieces(lines, index) == (read + [p]) + Pieces(lines, p.next)
  {
    PieceAdvances(lines, index);
    assert read + ([p] + Pieces(lines, p.next)) == read + [p] + Pieces(lines, p.next);
  }

  /** A heading goes on the stack before its own block is written. */
  method Emit(before: seq<Block>, stack: seq<Heading>, p: Piece, ghost read: seq<Piece>)
    returns (blocks: seq<Block>, headingStack: seq<Heading>)
    requires before == Assemble(read) && stack == Stack(HeadingsIn(read))
    ensures blocks == Assemble(read + [p]) && headingStack == Stack(HeadingsIn(read + [p]))
  {
    AssembleOneMore(read, p);
    blocks, headingStack := before, stack;
    if p.heading.Some? {
      headingStack := PushHeading(headingStack, p.heading.value);
    }
    if p.body.Some? {
      blocks := blocks + [Block(|blocks|, headingStack, p.body.value)];
    }
  }

  method ParseMarkdown(lines: seq<Line>) returns (blocks: seq<Block>)
    ensures blocks == Parse(lines)
  {
    blocks := [];
    var headingStack: seq<Heading> := [];
    ghost var read: seq<Piece> := [];
    var index := 0;
    while index < |lines|
      invariant read + Pieces(lines, index) == Pieces(lines, 0)
      invariant blocks == Assemble(read) && headingStack == Stack(HeadingsIn(read))
      decreases |lines| - index
    {
      var p := ReadPiece(lines, index);
      PiecesOneMore(lines, index, read, p);
      blocks, headingStack := Emit(blocks, headingStack, p, read);
      read, index := read + [p], p.next;
    }
    assert read + [] == read;
  }

  // ---------------------------------------------------------------------------
  // What the blocks of a text are
  // ---------------------------------------------------------------------------

  predicate Covers(b: Body, k: nat) { b.lineStart <= k + 1 <= b.lineEnd }

  /** The lines that a block takes up, counted from 0: code takes its fences with it. */
  function FirstLine(b: Body): int { b.lineStart - if b.kind.CodeBlock? then 2 else 1 }

  function LineAfter(b: Body): int { b.lineEnd + if b.kind.CodeBlock? then 1 else 0 }

  predicate Within(lines: seq<Line>, b: Body) {
    1 <= b.lineStart <= b.lineEnd <= |lines| && 0 <= FirstLine(b)
  }

  /** Lines that give no block: a blank one, or a fence with nothing before its closing fence or the end. */
  predicate GivesNothing(lines: seq<Line>, from: nat, next: nat) {
    from < |lines|
    && if lines[from].blank then next == from + 1
       else && next == from + 2 && lines[from].heading.None? && lines[from].fence.Some?
            && (from + 1 < |lines| ==> lines[from + 1].fence == lines[from].fence)
  }

  /** The body of a piece takes up all its lines; without a body they give no block. */
  ghost predicate PieceFits(lines: seq<Line>, p: Piece) {
    && p.start < |lines| && p.start < p.next <= |lines| + 1
    && (p.body.Some? ==>
          Within(lines, p.body.value) && FirstLine(p.body.value) == p.start && LineAfter(p.body.value) == p.next)
    && (p.body.None? ==> GivesNothing(lines, p.start, p.next))
  }

  /** Nothing starts here but text. */
  predicate Plain(lines: seq<Line>, k: nat)
    requires k < |lines|
  {
    && !lines[k].blank && lines[k].heading.None? && lines[k].fence.None?
    && !(lines[k].pipe && k + 1 < |lines| && lines[k + 1].separator)
  }

  /** The kind of a block is that of the first pattern its first line fits. */
  ghost predicate KindFits(lines: seq<Line>, b: Body)
    requires Within(lines, b)
  {
    var first := FirstLine(b);
    match b.kind
    case HeadingBlock =>
      if b.lineStart == b.lineEnd then !lines[first].blank && lines[first].heading.Some? else Plain(lines, first)
    case CodeBlock => !lines[first].blank && lines[first].heading.None? && lines[first].fence.Some?
    case TableBlock => !lines[first].blank && lines[first].heading.None? && lines[first].fence.None?
    case ParagraphBlock =>
      Plain(lines, first) && (first + 1 < |lines| ==> lines[first + 1].underline.None?)
  }

  /** The line of a table's row, the separator left out. */
  function RowLine(first: nat, r: nat): nat { if r == 0 then first else first + 1 + r }

  ghost predicate CellSays(lines: seq<Line>, b: Body, width: nat, r: nat, c: nat)
    requires Within(lines, b)
  {
    var line, k := RowLine(b.lineStart - 1, r), r * width + c;
    && line < |lines| && k < |b.cells|
    && b.cells[k] == Cell(r + 1, c + 1, if c < |lines[line].cells| then lines[line].cells[c] else "")
  }

  ghost predicate CellsSay(lines: seq<Line>, b: Body, width: nat, height: nat)
    requires Within(lines, b)
  {
    && |b.cells| == height * width
    && forall r: nat, c: nat | r < height && c < width :: CellSays(lines, b, width, r, c)
  }

  /** The cells of the header and of the rows below the separator, as wide as the widest of them. */
  ghost predicate TableSays(lines: seq<Line>, b: Body, width: nat)
    requires Within(lines, b)
  {
    var first, height := b.lineStart - 1, b.lineEnd - b.lineStart;
    && (forall r: nat | r < height :: RowLine(first, r) < |lines| && |lines[RowLine(first, r)].cells| <= width)
    && (exists r: nat :: r < height && |lines[RowLine(first, r)].cells| == width)
    && CellsSay(lines, b, width, height)
    && b.text == if lines[first].cells != [] then lines[first].cells[0] else ""
  }

  /** A body says what the lines it names say; and it is as long as it can be. */
  ghost predicate Traceable(lines: seq<Line>, b: Body)
    requires Within(lines, b)
  {
    match b.kind
    case ParagraphBlock =>
      && b.text == Join(lines[b.lineStart - 1..b.lineEnd]) && b.cells == []
      && (forall k: nat | b.lineStart <= k < b.lineEnd :: Plain(lines, k))
      && (b.lineEnd < |lines| ==> !Plain(lines, b.lineEnd))
    case CodeBlock =>
      && b.text == Join(lines[b.lineStart - 1..b.lineEnd]) && b.cells == []
      && (forall k | b.lineStart - 1 <= k < b.lineEnd :: lines[k].fence != lines[b.lineStart - 2].fence)
      && (b.lineEnd < |lines| ==> lines[b.lineEnd].fence == lines[b.lineStart - 2].fence)
    case TableBlock =>
      && b.lineStart < b.lineEnd && lines[b.lineStart - 1].pipe && lines[b.lineStart].separator
      && (forall k | b.lineStart < k < b.lineEnd :: !lines[k].blank && lines[k].pipe)
      && (b.lineEnd < |lines| ==> lines[b.lineEnd].blank || !lines[b.lineEnd].pipe)
      && exists width :: TableSays(lines, b, width)
    case HeadingBlock =>
      && b.cells == []
      && if b.lineStart == b.lineEnd
         then lines[b.lineStart - 1].heading.Some? && b.text == lines[b.lineStart - 1].heading.value.title
         else && b.lineEnd == b.lineStart + 1 && lines[b.lineStart].underline.Some?
              && b.text == lines[b.lineStart - 1].stripped
  }

  /** The heading of a piece is that of its body, with the level its lines give it. */
  ghost predicate HeadingFits(lines: seq<Line>, p: Piece)
    requires PieceFits(lines, p)
  {
    && (p.heading.Some? <==> p.body.Some? && p.body.value.kind.HeadingBlock?)
    && (p.heading.Some? ==>
          p.heading == var b := p.body.value;
                       if b.lineStart == b.lineEnd then lines[b.lineStart - 1].heading
                       else if lines[b.lineStart].underline.Some?
                       then Some(Heading(lines[b.lineStart].underline.value, b.text)) else None)
  }

  lemma PieceFitsItsLines(lines: seq<Line>, i: nat)
    requires i < |lines|
    ensures PieceAt(lines, i).start == i && PieceFits(lines, PieceAt(lines, i))
  {
  }

  /** The rows are those of the lines of the table. */
  ghost predicate RowsFit(lines: seq<Line>, first: nat, rows: seq<seq<string>>) {
    forall r: nat | r < |rows| :: RowLine(first, r) < |lines| && rows[r] == lines[RowLine(first, r)].cells
  }

  lemma CellsOfTable(lines: seq<Line>, b: Body, rows: seq<seq<string>>, width: nat)
    requires Within(lines, b) && b.cells == Cells(rows, width) && RowsFit(lines, b.lineStart - 1, rows)
    ensures CellsSay(lines, b, width, |rows|)
  {
    CellCount(rows, width);
    forall r: nat, c: nat | r < |rows| && c < width ensures CellSays(lines, b, width, r, c) {
      TableIsRectangular(rows, width, r, c);
    }
  }

  lemma TextOfTable(lines: seq<Line>, b: Body, rows: seq<seq<string>>, width: nat)
    requires Within(lines, b) && rows != [] && rows[0] == lines[b.lineStart - 1].cells && |rows[0]| <= width
    requires b.cells == Cells(rows, width) && b.text == if b.cells != [] then b.cells[0].text else ""
    ensures b.text == if rows[0] != [] then rows[0][0] else ""
  {
    CellCount(rows, width);
    if width > 0 {
      TableIsRectangular(rows, width, 0, 0);
    }
  }

  lemma TableBodySays(lines: seq<Line>, b: Body, rows: seq<seq<string>>, width: nat)
    requires Within(lines, b) && |rows| == b.lineEnd - b.lineStart > 0 && RowsFit(lines, b.lineStart - 1, rows)
    requires width == Width(rows) && b.cells == Cells(rows, width)
    requires b.text == if b.cells != [] then b.cells[0].text else ""
    ensures TableSays(lines, b, width)
  {
    CellsOfTable(lines, b, rows, width);
    var first := b.lineStart - 1;
    forall r: nat | r < |rows| ensures |lines[RowLine(first, r)].cells| <= width {
      assert |rows[r]| <= width;
    }
    TextOfTable(lines, b, rows, width);
    var widest: nat :| widest < |rows| && |rows[widest]| == width;
    assert |lines[RowLine(first, widest)].cells| == width;
  }

  lemma TableIsTraceable(lines: seq<Line>, i: nat, end: nat)
    requires i + 2 <= end <= |lines| && end == RowsEnd(lines, i + 2) && TableStart(lines, i)
    ensures Traceable(lines, TableBody(lines, i, end))
  {
    var rows, b := RowsOf([lines[i]] + lines[i + 2..end]), TableBody(lines, i, end);
    forall r: nat | r < |rows| ensures RowLine(i, r) < |lines| && rows[r] == lines[RowLine(i, r)].cells {
    }
    TableBodySays(lines, b, rows, Width(rows));
  }

  lemma CodeIsTraceable(lines: seq<Line>, i: nat, f: Fence, close: nat)
    requires i + 1 < close <= |lines| && lines[i].fence == Some(f) && close == CloseOf(lines, i + 1, f)
    ensures Within(lines, Body(CodeBlock, Join(lines[i + 1..close]), i + 2, close, []))
    ensures Traceable(lines, Body(CodeBlock, Join(lines[i + 1..close]), i + 2, close, []))
  {
  }

  lemma ParagraphIsTraceable(lines: seq<Line>, i: nat, end: nat)
    requires i < end <= |lines| && end == ParagraphEnd(lines, i + 1)
    ensures Traceable(lines, Body(ParagraphBlock, Join(lines[i..end]), i + 1, end, []))
  {
    assert forall k: nat | k < |lines| :: Plain(lines, k) <==> !Breaks(lines, k);
  }

  lemma BodyIsTraceable(lines: seq<Line>, i: nat, b: Body)
    requires i < |lines| && PieceFits(lines, PieceAt(lines, i)) && PieceAt(lines, i).body == Some(b)
    ensures KindFits(lines, b) && Traceable(lines, b)
  {
    match UnitAt(lines, i)
    case TableUnit => TableIsTraceable(lines, i, RowsEnd(lines, i + 2));
    case CodeUnit => CodeIsTraceable(lines, i, lines[i].fence.value, CloseOf(lines, i + 1, lines[i].fence.value));
    case ParagraphUnit => ParagraphIsTraceable(lines, i, ParagraphEnd(lines, i + 1));
    case _ =>
  }

  lemma PieceIsSound(lines: seq<Line>, i: nat)
    requires i < |lines|
    ensures PieceAt(lines, i).start == i && PieceSound(lines, PieceAt(lines, i))
  {
    PieceFitsItsLines(lines, i);
    assert HeadingFits(lines, PieceAt(lines, i));
    if PieceAt(lines, i).body.Some? {
      BodyIsTraceable(lines, i, PieceAt(lines, i).body.value);
    }
  }

  ghost predicate PieceSound(lines: seq<Line>, p: Piece) {
    && PieceFits(lines, p) && HeadingFits(lines, p)
    && (p.body.Some? ==> KindFits(lines, p.body.value) && Traceable(lines, p.body.value))
  }

  lemma NextPiece(lines: seq<Line>, i: nat) returns (p: Piece)
    requires i < |lines|
    ensures p.start == i < p.next && PieceSound(lines, p)
    ensures Pieces(lines, i) == [p] + Pieces(lines, p.next)
  {
    p := PieceAt(lines, i);
    PieceAdvances(lines, i);
    PieceIsSound(lines, i);
  }

  // ---------------------------------------------------------------------------
  // The one reading of a text
  // ---------------------------------------------------------------------------

  ghost predicate Gap(lines: seq<Line>, from: nat, to: nat)
    decreases to - from
  {
    from == to
    || (from + 1 <= to && GivesNothing(lines, from, from + 1) && Gap(lines, from + 1, to))
    || (from + 2 <= to && GivesNothing(lines, from, from + 2) && Gap(lines, from + 2, to))
  }

  ghost predicate OnlyGapAfter(lines: seq<Line>, from: nat) {
    exists end: nat :: end >= |lines| && from <= end && Gap(lines, from, end)
  }

  /**
   * Reference: the bodies are what the lines from a given one on say. Between them are only lines that give no
   * block, and each has the kind, the extent and the text of its lines.
   */
  ghost predicate Says(lines: seq<Line>, from: nat, bodies: seq<Body>)
    decreases |bodies|
  {
    if bodies == [] then OnlyGapAfter(lines, from)
    else
      var b := bodies[0];
      && Within(lines, b) && KindFits(lines, b) && Traceable(lines, b)
      && from <= FirstLine(b) && Gap(lines, from, FirstLine(b))
      && Says(lines, LineAfter(b), bodies[1..])
  }

  /** A block starts here, so no gap goes on. */
  predicate Starts(lines: seq<Line>, k: nat) {
    k < |lines| && !GivesNothing(lines, k, k + 1) && !GivesNothing(lines, k, k + 2)
  }

  lemma BlockStarts(lines: seq<Line>, b: Body)
    requires Within(lines, b) && KindFits(lines, b) && Traceable(lines, b)
    ensures Starts(lines, FirstLine(b))
  {
  }

  lemma {:induction false} GapsMeet(lines: seq<Line>, from: nat, x: nat, y: nat)
    requires from <= x && Gap(lines, from, x) && Starts(lines, x)
    requires from <= y && Gap(lines, from, y) && (Starts(lines, y) || y >= |lines|)
    ensures x == y
    decreases x - from
  {
    if from < x && from < y {
      if lines[from].blank {
        GapsMeet(lines, from + 1, x, y);
      } else {
        GapsMeet(lines, from + 2, x, y);
      }
    }
  }

  lemma TablesMeet(lines: seq<Line>, a: Body, b: Body, m: nat, n: nat)
    requires Within(lines, a) && Within(lines, b) && a.lineStart == b.lineStart && a.lineEnd == b.lineEnd
    requires TableSays(lines, a, m) && TableSays(lines, b, n)
    ensures a.cells == b.cells && a.text == b.text
  {
    var first, height := a.lineStart - 1, a.lineEnd - a.lineStart;
    assert m == n by {
      var r: nat :| r < height && |lines[RowLine(first, r)].cells| == m;
      var s: nat :| s < height && |lines[RowLine(first, s)].cells| == n;
    }
    forall k | 0 <= k < |a.cells| ensures a.cells[k] == b.cells[k] {
      var r, c := RowAndColumn(k, height, m);
      assert CellSays(lines, a, m, r, c) && CellSays(lines, b, m, r, c);
    }
  }

  lemma RowAndColumn(k: nat, height: nat, width: nat) returns (r: nat, c: nat)
    requires k < height * width
    ensures r < height && c < width && k == r * width + c
  {
    r, c := 0, k;
    while c >= width
      invariant k == r * width + c
    {
      r, c := r + 1, c - width;
    }
  }

  lemma BlocksMeet(lines: seq<Line>, a: Body, b: Body)
    requires Within(lines, a) && KindFits(lines, a) && Traceable(lines, a)
    requires Within(lines, b) && KindFits(lines, b) && Traceable(lines, b)
    requires FirstLine(a) == FirstLine(b)
    ensures a == b
  {
    assert a.kind == b.kind && a.lineStart == b.lineStart;
    assert a.lineEnd == b.lineEnd;
    if a.kind.TableBlock? {
      var m :| TableSays(lines, a, m);
      var n :| TableSays(lines, b, n);
      TablesMeet(lines, a, b, m, n);
    }
  }

  lemma {:induction false} SaysIsUnique(lines: seq<Line>, from: nat, a: seq<Body>, b: seq<Body>)
    requires Says(lines, from, a) && Says(lines, from, b)
    ensures a == b
    decreases |a| + |b|
  {
    if a != [] && b != [] {
      BlockStarts(lines, a[0]);
      BlockStarts(lines, b[0]);
      GapsMeet(lines, from, FirstLine(a[0]), FirstLine(b[0]));
      BlocksMeet(lines, a[0], b[0]);
      SaysIsUnique(lines, LineAfter(a[0]), a[1..], b[1..]);
    } else if a != [] || b != [] {
      var one := if a != [] then a[0] else b[0];
      var end: nat :| end >= |lines| && from <= end && Gap(lines, from, end);
      BlockStarts(lines, one);
      GapsMeet(lines, from, FirstLine(one), end);
    }
  }

  function BodiesIn(pieces: seq<Piece>): seq<Body> {
    if pieces == [] then [] else Optional(pieces[0].body) + BodiesIn(pieces[1..])
  }

  function BodiesOf(blocks: seq<Block>): (bodies: seq<Body>)
    ensures |bodies| == |blocks| && forall n | 0 <= n < |blocks| :: bodies[n] == blocks[n].body
  {
    seq(|blocks|, n requires 0 <= n < |blocks| => blocks[n].body)
  }

  lemma {:induction false} BodiesAppend(pieces: seq<Piece>, p: Piece)
    ensures BodiesIn(pieces + [p]) == BodiesIn(pieces) + Optional(p.body)
  {
    if pieces == [] {
      assert [p][1..] == [];
    } else {
      assert (pieces + [p])[1..] == pieces[1..] + [p];
      BodiesAppend(pieces[1..], p);
    }
  }

  lemma {:induction false} AssembledBodies(pieces: seq<Piece>)
    ensures BodiesOf(Assemble(pieces)) == BodiesIn(pieces)
  {
    if pieces != [] {
      var front, last := pieces[..|pieces| - 1], pieces[|pieces| - 1];
      AssembledBodies(front);
      BodiesAppend(front, last);
      assert pieces == front + [last];
    }
  }

  lemma {:induction false} PiecesSay(lines: seq<Line>, i: nat)
    ensures Says(lines, i, BodiesIn(Pieces(lines, i)))
    decreases |lines| - i
  {
    if i >= |lines| {
      assert Gap(lines, i, i);
    } else {
      var p := NextPiece(lines, i);
      var rest := BodiesIn(Pieces(lines, p.next));
      PiecesSay(lines, p.next);
      assert Pieces(lines, i)[1..] == Pieces(lines, p.next);
      if p.body.Some? {
        assert BodiesIn(Pieces(lines, i)) == [p.body.value] + rest;
        assert Gap(lines, i, i);
      } else {
        assert BodiesIn(Pieces(lines, i)) == rest;
        NothingFirst(lines, i, p.next, rest);
      }
    }
  }

  lemma NothingFirst(lines: seq<Line>, from: nat, next: nat, bodies: seq<Body>)
    requires GivesNothing(lines, from, next) && Says(lines, next, bodies)
    ensures Says(lines, from, bodies)
  {
    if bodies == [] {
      var end: nat :| end >= |lines| && next <= end && Gap(lines, next, end);
      assert Gap(lines, from, end);
    } else {
      assert Gap(lines, from, FirstLine(bodies[0]));
    }
  }

  /**
   * The blocks are the only reading of a text: any blocks that have the kind, the extent and the text of their
   * lines, and leave out only lines that give none, are those of the parser.
   */
  lemma ParseIsTheReading(lines: seq<Line>, bodies: seq<Body>)
    ensures Says(lines, 0, bodies) <==> bodies == BodiesOf(Parse(lines))
  {
    PiecesSay(lines, 0);
    AssembledBodies(Pieces(lines, 0));
    if Says(lines, 0, bodies) {
      SaysIsUnique(lines, 0, bodies, BodiesOf(Parse(lines)));
    }
  }

  /** Numbered in order, with line ranges that lie in the text and follow one another without overlap. */
  ghost predicate InOrder(blocks: seq<Block>, total: nat) {
    && (forall n | 0 <= n < |blocks| ::
          blocks[n].order == n && 1 <= blocks[n].body.lineStart <= blocks[n].body.lineEnd <= total)
    && forall m, n | 0 <= m < n < |blocks| :: LineAfter(blocks[m].body) <= FirstLine(blocks[n].body)
  }

  /** Every line outside all blocks is blank or starts with a fence. */
  ghost predicate Accounted(lines: seq<Line>, blocks: seq<Block>) {
    forall k: nat | k < |lines| ::
      lines[k].blank || lines[k].fence.Some? || exists n | 0 <= n < |blocks| :: Covers(blocks[n].body, k)
  }

  lemma {:induction false} SaysInOrder(lines: seq<Line>, from: nat, bodies: seq<Body>)
    requires Says(lines, from, bodies)
    ensures forall n | 0 <= n < |bodies| ::
              && Within(lines, bodies[n]) && KindFits(lines, bodies[n]) && Traceable(lines, bodies[n])
              && from <= FirstLine(bodies[n])
    ensures forall m, n | 0 <= m < n < |bodies| :: LineAfter(bodies[m]) <= FirstLine(bodies[n])
    decreases |bodies|
  {
    if bodies != [] {
      SaysInOrder(lines, LineAfter(bodies[0]), bodies[1..]);
      assert forall n | 1 <= n < |bodies| :: bodies[n] == bodies[1..][n - 1];
    }
  }

  lemma {:induction false} GapAccounts(lines: seq<Line>, from: nat, to: nat, k: nat)
    requires from <= k < to && k < |lines| && Gap(lines, from, to)
    ensures lines[k].blank || lines[k].fence.Some?
    decreases k - from
  {
    if lines[from].blank {
      if k > from { GapAccounts(lines, from + 1, to, k); }
    } else {
      if k > from + 1 { GapAccounts(lines, from + 2, to, k); }
    }
  }

  lemma {:induction false} SaysAccounts(lines: seq<Line>, from: nat, bodies: seq<Body>, k: nat)
    requires Says(lines, from, bodies) && from <= k < |lines|
    ensures lines[k].blank || lines[k].fence.Some? || exists n | 0 <= n < |bodies| :: Covers(bodies[n], k)
    decreases |bodies|
  {
    if bodies == [] {
      var end: nat :| end >= |lines| && from <= end && Gap(lines, from, end);
      GapAccounts(lines, from, end, k);
    } else if k < FirstLine(bodies[0]) {
      GapAccounts(lines, from, FirstLine(bodies[0]), k);
    } else if k >= LineAfter(bodies[0]) {
      SaysAccounts(lines, LineAfter(bodies[0]), bodies[1..], k);
      if n :| 0 <= n < |bodies| - 1 && Covers(bodies[1..][n], k) {
        assert Covers(bodies[n + 1], k);
      }
    } else {
      assert Covers(bodies[0], k) || lines[k].fence.Some?;
    }
  }

  lemma {:induction false} BlocksAreNumbered(pieces: seq<Piece>)
    ensures forall n | 0 <= n < |Assemble(pieces)| :: Assemble(pieces)[n].order == n
  {
    if pieces != [] { BlocksAreNumbered(pieces[..|pieces| - 1]); }
  }

  /**
   * The blocks of any text, under any classification of its lines: numbered in order, with line ranges that
   * lie in the text and do not overlap; each block has the kind its first line gives it and says exactly what
   * the lines it names say; and a line outside all of them is blank or starts with a fence.
   */
  lemma BlocksAreTraceable(lines: seq<Line>)
    ensures InOrder(Parse(lines), |lines|) && Accounted(lines, Parse(lines))
    ensures forall n | 0 <= n < |Parse(lines)| ::
              var b := Parse(lines)[n].body; Within(lines, b) && KindFits(lines, b) && Traceable(lines, b)
  {
    var blocks, bodies := Parse(lines), BodiesOf(Parse(lines));
    ParseIsTheReading(lines, bodies);
    SaysInOrder(lines, 0, bodies);
    BlocksAreNumbered(Pieces(lines, 0));
    assert forall n | 0 <= n < |blocks| :: bodies[n] == blocks[n].body;
    forall k: nat | k < |lines|
      ensures lines[k].blank || lines[k].fence.Some? || exists n | 0 <= n < |blocks| :: Covers(blocks[n].body, k)
    {
      SaysAccounts(lines, 0, bodies, k);
    }
  }

  /** The block is the heading of line k, or code, a table or an underlined line that takes it in. */
  predicate ShowsHeading(b: Body, k: nat, title: string) {
    && Covers(b, k)
    && (|| b.kind.CodeBlock? || b.kind.TableBlock?
        || (b.kind.HeadingBlock? && b.lineStart == k && b.lineEnd == k + 1)
        || (b.kind.HeadingBlock? && b.lineStart == b.lineEnd == k + 1 && b.text == title))
  }

  /** Every heading line is a block of its own, unless it lies in code or a table or underlines the line before. */
  lemma HeadingsAreBlocks(lines: seq<Line>, k: nat)
    requires k < |lines| && lines[k].heading.Some? && !lines[k].blank && lines[k].fence.None?
    ensures exists n | 0 <= n < |Parse(lines)| ::
              ShowsHeading(Parse(lines)[n].body, k, lines[k].heading.value.title)
  {
    BlocksAreTraceable(lines);
    var n :| 0 <= n < |Parse(lines)| && Covers(Parse(lines)[n].body, k);
    var b := Parse(lines)[n].body;
    assert KindFits(lines, b) && Traceable(lines, b);
    assert !Plain(lines, k);
  }

  /** The text of several lines is theirs with newlines between them, wherever it is taken apart. */
  lemma {:induction false} JoinTakenApart(a: seq<Line>, b: seq<Line>)
    ensures |a| == 1 ==> Join(a) == a[0].text
    ensures a != [] && b != [] ==> Join(a + b) == Join(a) + "\n" + Join(b)
    decreases |b|
  {
    if |b| == 1 {
      assert (a + b)[..|a|] == a;
    } else if b != [] && a != [] {
      var front, last := b[..|b| - 1], b[|b| - 1];
      JoinTakenApart(a, front);
      assert (a + b)[..|a + b| - 1] == a + front;
      assert Join(a) + "\n" + (Join(front) + "\n" + last.text) == Join(a) + "\n" + Join(front) + "\n" + last.text;
    }
  }

  // ---------------------------------------------------------------------------
  // Heading paths
  // ---------------------------------------------------------------------------

  /** The heading a heading block stands for, from the lines it names. */
  function HeadingOf(lines: seq<Line>, b: Body): Option<Heading> {
    if !b.kind.HeadingBlock? || !(1 <= b.lineStart <= b.lineEnd <= |lines|) then None
    else if b.lineStart == b.lineEnd then lines[b.lineStart - 1].heading
    else if b.lineStart < |lines| && lines[b.lineStart].underline.Some?
    then Some(Heading(lines[b.lineStart].underline.value, b.text)) else None
  }

  function HeadingsOf(lines: seq<Line>, blocks: seq<Block>): seq<Heading> {
    if blocks == [] then []
    else HeadingsOf(lines, blocks[..|blocks| - 1]) + Optional(HeadingOf(lines, blocks[|blocks| - 1].body))
  }

  /** A piece has the heading that its block stands for. */
  ghost predicate Headed(lines: seq<Line>, p: Piece) {
    p.heading == if p.body.Some? then HeadingOf(lines, p.body.value) else None
  }

  ghost predicate AllHeaded(lines: seq<Line>, pieces: seq<Piece>) {
    pieces == [] || (Headed(lines, pieces[|pieces| - 1]) && AllHeaded(lines, pieces[..|pieces| - 1]))
  }

  lemma {:induction false} PiecesAreHeaded(lines: seq<Line>, read: seq<Piece>, i: nat)
    requires AllHeaded(lines, read)
    ensures AllHeaded(lines, read + Pieces(lines, i))
    decreases |lines| - i
  {
    if i >= |lines| {
      assert read + [] == read;
    } else {
      var p := NextPiece(lines, i);
      SoundIsHeaded(lines, p);
      assert (read + [p])[..|read|] == read;
      PiecesAreHeaded(lines, read + [p], p.next);
      assert read + ([p] + Pieces(lines, p.next)) == read + [p] + Pieces(lines, p.next);
    }
  }

  lemma SoundIsHeaded(lines: seq<Line>, p: Piece)
    requires PieceSound(lines, p)
    ensures Headed(lines, p)
  {
  }

  lemma {:induction false} BlockHeadings(lines: seq<Line>, pieces: seq<Piece>)
    requires AllHeaded(lines, pieces)
    ensures HeadingsOf(lines, Assemble(pieces)) == HeadingsIn(pieces)
  {
    if pieces != [] {
      var front, last := pieces[..|pieces| - 1], pieces[|pieces| - 1];
      BlockHeadings(lines, front);
      var blocks := Assemble(pieces);
      if last.body.Some? {
        assert blocks[..|blocks| - 1] == Assemble(front);
      } else {
        assert HeadingsIn(front) + [] == HeadingsIn(front);
        assert Assemble(front) + [] == Assemble(front);
      }
    }
  }

  lemma {:induction false} BlockPaths(lines: seq<Line>, pieces: seq<Piece>, n: nat)
    requires AllHeaded(lines, pieces) && n < |Assemble(pieces)|
    ensures Assemble(pieces)[n].path == Stack(HeadingsOf(lines, Assemble(pieces)[..n + 1]))
    decreases |pieces|
  {
    var front, blocks := pieces[..|pieces| - 1], Assemble(pieces);
    if n < |Assemble(front)| {
      BlockPaths(lines, front, n);
      assert blocks[..n + 1] == Assemble(front)[..n + 1];
    } else {
      LastPath(lines, pieces, n);
    }
  }

  lemma LastPath(lines: seq<Line>, pieces: seq<Piece>, n: nat)
    requires AllHeaded(lines, pieces) && pieces != []
    requires n == |Assemble(pieces[..|pieces| - 1])| < |Assemble(pieces)|
    ensures Assemble(pieces)[n].path == Stack(HeadingsOf(lines, Assemble(pieces)[..n + 1]))
  {
    BlockHeadings(lines, pieces);
    assert Assemble(pieces)[..n + 1] == Assemble(pieces);
  }

  /**
   * The path of a block is exactly the headings of the text up to the block with no later one, up to the
   * block, of equal or smaller level; and levels strictly rise along it.
   */
  lemma PathOfEachBlock(lines: seq<Line>, n: nat)
    requires n < |Parse(lines)|
    ensures var headings := HeadingsOf(lines, Parse(lines)[..n + 1]);
            Parse(lines)[n].path == OpenHeadings(headings, |headings|) && Rising(Parse(lines)[n].path)
  {
    PiecesAreHeaded(lines, [], 0);
    assert [] + Pieces(lines, 0) == Pieces(lines, 0);
    BlockPaths(lines, Pieces(lines, 0), n);
    PathIsOpenHeadings(HeadingsOf(lines, Parse(lines)[..n + 1]));
  }
}
