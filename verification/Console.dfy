/** The 80x25 text console: `print_char` with wrap, newline, backspace and scroll, and the unbounded
    terminal it is a window of. */
module Console {

  const COLUMNS: nat := 80
  const ROWS: nat := 25
  const CELLS: nat := 2000

  const NEWLINE: Char := 10
  const BACKSPACE: Char := 8
  const SPACE: Char := 32

  /** The source's `char`, which is signed. */
  type Char = c: int | -128 <= c < 128 witness 0
  type Cell = w: int | 0 <= w < 0x1_0000 witness 0

  /** `(unsigned short)c | (unsigned short)color << 8`. A negative character is sign-extended, and
      its upper eight bits, all ones, cover the colour. */
  function CellOf(c: Char, color: Char): Cell {
    if c >= 0 then c + 0x100 * (color % 0x100) else 0x1_0000 + c
  }

  /** The cell's low byte is the character, the high byte the colour, except for a negative character. */
  lemma CellHoldsBoth(c: Char, color: Char)
    ensures CellOf(c, color) % 0x100 == c % 0x100
    ensures CellOf(c, color) / 0x100 == if c >= 0 then color % 0x100 else 0xFF
  {
  }

  function Blank(color: Char): Cell {
    CellOf(SPACE, color)
  }

  function Blanks(n: nat, color: Char): (cells: seq<Cell>)
    ensures |cells| == n && forall k :: 0 <= k < n ==> cells[k] == Blank(color)
  {
    seq(n, _ => Blank(color))
  }

  // ----- the screen -----

  datatype Screen = Screen(cells: seq<Cell>, x: nat, y: nat)

  predicate OnScreen(s: Screen) {
    |s.cells| == CELLS && s.x < COLUMNS && s.y < ROWS
  }

  /** The screen one row further down. */
  function Scrolled(cells: seq<Cell>, color: Char): (r: seq<Cell>)
    requires |cells| == CELLS
    ensures |r| == CELLS
  {
    cells[COLUMNS..] + Blanks(COLUMNS, color)
  }

  /** A cursor past the last column goes to the next row, past the last row the screen scrolls. */
  function Wrapped(cells: seq<Cell>, x: nat, y: nat, color: Char): (s: Screen)
    requires |cells| == CELLS && x <= COLUMNS && y <= ROWS && (x == COLUMNS ==> y < ROWS)
    ensures OnScreen(s)
  {
    var (x', y') := if x == COLUMNS then (0, y + 1) else (x, y);
    if y' == ROWS then Screen(Scrolled(cells, color), 0, ROWS - 1) else Screen(cells, x', y')
  }

  function Print(s: Screen, c: Char, color: Char): (r: Screen)
    requires OnScreen(s)
    ensures OnScreen(r)
  {
    if c == NEWLINE then Wrapped(s.cells, 0, s.y + 1, color)
    else if c == BACKSPACE then
      if s.x > 0 then Screen(s.cells[s.y * COLUMNS + s.x - 1 := Blank(color)], s.x - 1, s.y)
      else if s.y > 0 then Screen(s.cells[(s.y - 1) * COLUMNS + COLUMNS - 1 := Blank(color)], COLUMNS - 1, s.y - 1)
      else s
    else Wrapped(s.cells[s.y * COLUMNS + s.x := CellOf(c, color)], s.x + 1, s.y, color)
  }

  // ----- the driver -----

  class Vga {
    const buffer: array<Cell>
    var x: int
    var y: int

    ghost predicate Valid()
      reads this
    {
      buffer.Length == CELLS && 0 <= x < COLUMNS && 0 <= y < ROWS
    }

    ghost function Abs(): (s: Screen)
      reads this, buffer
      requires Valid()
      ensures OnScreen(s)
    {
      Screen(buffer[..], x, y)
    }

    constructor ()
      ensures Valid() && fresh(buffer) && x == 0 && y == 0
    {
      buffer := new Cell[CELLS];
      x, y := 0, 0;
    }

    method ScrollUp(color: Char)
      requires buffer.Length == CELLS
      modifies buffer
      ensures buffer[..] == Scrolled(old(buffer[..]), color)
    {
      for i := 0 to CELLS - COLUMNS
        invariant forall k :: 0 <= k < i ==> buffer[k] == old(buffer[k + COLUMNS])
        invariant forall k :: i <= k < CELLS ==> buffer[k] == old(buffer[k])
      {
        buffer[i] := buffer[i + COLUMNS];
      }
      for i := CELLS - COLUMNS to CELLS
        invariant forall k :: 0 <= k < CELLS - COLUMNS ==> buffer[k] == old(buffer[k + COLUMNS])
        invariant forall k :: CELLS - COLUMNS <= k < i ==> buffer[k] == Blank(color)
      {
        buffer[i] := Blank(color);
      }
    }

    /** `print_char`; every caller passes the cursor's position as `px`, `py`. */
    method PrintChar(c: Char, px: int, py: int, color: Char)
      requires Valid() && px == x && py == y
      modifies `x, `y, buffer
      ensures Valid() && Abs() == Print(old(Abs()), c, color)
    {
      if c == NEWLINE {
        x := 0;
        y := y + 1;
      } else if c == BACKSPACE {
        if x > 0 {
          x := x - 1;
          buffer[y * COLUMNS + x] := Blank(color);
        } else if y > 0 {
          y := y - 1;
          x := COLUMNS - 1;
          buffer[y * COLUMNS + x] := Blank(color);
        }
      } else {
        buffer[py * COLUMNS + px] := CellOf(c, color);
        x := x + 1;
      }
      if x >= COLUMNS {
        x := 0;
        y := y + 1;
      }
      if y >= ROWS {
        ScrollUp(color);
        x := 0;
        y := ROWS - 1;
      }
    }

    /** `print_string`; the text ends where its NUL would stand. */
    method PrintString(text: seq<Char>, color: Char)
      requires Valid()
      modifies `x, `y, buffer
      ensures Valid() && Abs() == PrintAll(old(Abs()), Coloured(text, color))
    {
      ghost var outputs := Coloured(text, color);
      for i := 0 to |text|
        invariant Valid() && Abs() == PrintAll(old(Abs()), outputs[..i])
      {
        PrintChar(text[i], x, y, color);
        assert outputs[..i + 1][..i] == outputs[..i];
      }
      assert outputs[..|text|] == outputs;
    }

    method ClearScreen(color: Char)
      requires buffer.Length == CELLS
      modifies `x, `y, buffer
      ensures Valid() && Abs() == View(Cleared(color))
    {
      for row := 0 to ROWS
        invariant forall k :: 0 <= k < row * COLUMNS ==> buffer[k] == Blank(color)
      {
        for column := 0 to COLUMNS
          invariant forall k :: 0 <= k < row * COLUMNS + column ==> buffer[k] == Blank(color)
        {
          buffer[row * COLUMNS + column] := Blank(color);
        }
      }
      x, y := 0, 0;
      assert buffer[..] == Blanks(CELLS, color);
    }
  }

  // ----- runs of characters -----

  /** A character with the colour it is printed in. */
  datatype Output = Output(c: Char, color: Char)

  function PrintAll(s: Screen, outputs: seq<Output>): (r: Screen)
    requires OnScreen(s)
    ensures OnScreen(r)
  {
    if outputs == [] then s
    else Print(PrintAll(s, outputs[..|outputs| - 1]), outputs[|outputs| - 1].c, outputs[|outputs| - 1].color)
  }

  function Coloured(text: seq<Char>, color: Char): (outputs: seq<Output>)
    ensures |outputs| == |text| && forall k :: 0 <= k < |text| ==> outputs[k] == Output(text[k], color)
  {
    seq(|text|, k requires 0 <= k < |text| => Output(text[k], color))
  }

  // ----- the unbounded terminal -----

  /** Every row ever shown, one after the other, and the cursor's place among them. */
  datatype Tape = Tape(cells: seq<Cell>, pos: nat)

  /** Where the rows start that are still on the screen. */
  function Top(t: Tape): int {
    |t.cells| - CELLS
  }

  predicate Good(t: Tape) {
    |t.cells| >= CELLS && |t.cells| % COLUMNS == 0 && Top(t) <= t.pos < |t.cells|
  }

  /** What the screen shows of a tape: its last 25 rows. */
  function View(t: Tape): (s: Screen)
    requires Good(t)
    ensures OnScreen(s)
  {
    Screen(t.cells[Top(t)..], (t.pos - Top(t)) % COLUMNS, (t.pos - Top(t)) / COLUMNS)
  }

  function Cleared(color: Char): (t: Tape)
    ensures Good(t)
  {
    Tape(Blanks(CELLS, color), 0)
  }

  /** A cursor that reaches the end of the tape starts a blank row there. */
  function Extended(cells: seq<Cell>, pos: nat, color: Char): (t: Tape)
    requires |cells| >= CELLS && |cells| % COLUMNS == 0 && |cells| - CELLS <= pos <= |cells|
    ensures Good(t)
  {
    if pos == |cells| then Tape(cells + Blanks(COLUMNS, color), pos) else Tape(cells, pos)
  }

  /** One character: a newline goes to the start of the next row, a backspace blanks the cell before
      the cursor unless the cursor is at the screen's first cell, any other is written where the
      cursor is. */
  function Write(t: Tape, c: Char, color: Char): (r: Tape)
    requires Good(t)
    ensures Good(r)
  {
    if c == NEWLINE then Extended(t.cells, (t.pos / COLUMNS + 1) * COLUMNS, color)
    else if c == BACKSPACE then
      if t.pos == Top(t) then t else Tape(t.cells[t.pos - 1 := Blank(color)], t.pos - 1)
    else Extended(t.cells[t.pos := CellOf(c, color)], t.pos + 1, color)
  }

  lemma RowAndColumn(x: nat, y: nat)
    requires x < COLUMNS
    ensures (y * COLUMNS + x) % COLUMNS == x && (y * COLUMNS + x) / COLUMNS == y
  {
  }

  /** Extending the tape is wrapping and scrolling the screen. */
  lemma ExtendedIsWrapped(cells: seq<Cell>, pos: nat, x: nat, y: nat, color: Char)
    requires |cells| >= CELLS && |cells| % COLUMNS == 0 && x <= COLUMNS && y <= ROWS && (x == COLUMNS ==> y < ROWS)
    requires y == ROWS ==> x == 0
    requires pos == |cells| - CELLS + y * COLUMNS + x
    ensures View(Extended(cells, pos, color)) == Wrapped(cells[|cells| - CELLS..], x, y, color)
  {
    if pos == |cells| {
      var longer := cells + Blanks(COLUMNS, color);
      assert longer[|longer| - CELLS..] == Scrolled(cells[|cells| - CELLS..], color);
    } else if x < COLUMNS {
      RowAndColumn(x, y);
    }
  }

  lemma NextRow(top: nat, x: nat, y: nat, pos: nat)
    requires top % COLUMNS == 0 && x < COLUMNS && pos == top + y * COLUMNS + x
    ensures (pos / COLUMNS + 1) * COLUMNS == top + (y + 1) * COLUMNS
  {
    RowAndColumn(x, top / COLUMNS + y);
  }

  lemma CursorOnTape(t: Tape)
    requires Good(t)
    ensures t.pos == Top(t) + View(t).y * COLUMNS + View(t).x
  {
  }

  lemma UpdateOnTape(cells: seq<Cell>, top: nat, at: nat, cell: Cell)
    requires top <= at < |cells|
    ensures cells[at := cell][top..] == cells[top..][at - top := cell]
  {
  }

  lemma BackspaceIsWrite(t: Tape, color: Char)
    requires Good(t)
    ensures Print(View(t), BACKSPACE, color) == View(Write(t, BACKSPACE, color))
  {
    var s := View(t);
    CursorOnTape(t);
    if t.pos > Top(t) {
      UpdateOnTape(t.cells, Top(t), t.pos - 1, Blank(color));
      var (x, y) := if s.x > 0 then (s.x - 1, s.y) else (COLUMNS - 1, s.y - 1);
      RowAndColumn(x, y);
      assert t.pos - 1 - Top(t) == y * COLUMNS + x;
    }
  }

  lemma NewlineIsWrite(t: Tape, color: Char)
    requires Good(t)
    ensures Print(View(t), NEWLINE, color) == View(Write(t, NEWLINE, color))
  {
    var s := View(t);
    CursorOnTape(t);
    NextRow(Top(t), s.x, s.y, t.pos);
    ExtendedIsWrapped(t.cells, (t.pos / COLUMNS + 1) * COLUMNS, 0, s.y + 1, color);
  }

  lemma GlyphIsWrite(t: Tape, c: Char, color: Char)
    requires Good(t) && c != NEWLINE && c != BACKSPACE
    ensures Print(View(t), c, color) == View(Write(t, c, color))
  {
    var s := View(t);
    CursorOnTape(t);
    UpdateOnTape(t.cells, Top(t), t.pos, CellOf(c, color));
    ExtendedIsWrapped(t.cells[t.pos := CellOf(c, color)], t.pos + 1, s.x + 1, s.y, color);
  }

  /** Printing on the screen is writing on the tape. */
  lemma PrintIsWrite(t: Tape, c: Char, color: Char)
    requires Good(t)
    ensures Print(View(t), c, color) == View(Write(t, c, color))
  {
    if c == NEWLINE {
      NewlineIsWrite(t, color);
    } else if c == BACKSPACE {
      BackspaceIsWrite(t, color);
    } else {
      GlyphIsWrite(t, c, color);
    }
  }

  function WriteAll(t: Tape, outputs: seq<Output>): (r: Tape)
    requires Good(t)
    ensures Good(r)
  {
    if outputs == [] then t
    else Write(WriteAll(t, outputs[..|outputs| - 1]), outputs[|outputs| - 1].c, outputs[|outputs| - 1].color)
  }

  /** After any output the screen shows the last 25 rows of the tape, and the cursor is on the
      screen. */
  lemma {:induction false} ScreenShowsTape(t: Tape, outputs: seq<Output>)
    requires Good(t)
    ensures PrintAll(View(t), outputs) == View(WriteAll(t, outputs))
    ensures var s := PrintAll(View(t), outputs); 0 <= s.x < COLUMNS && 0 <= s.y < ROWS
  {
    if outputs != [] {
      var last := outputs[|outputs| - 1];
      ScreenShowsTape(t, outputs[..|outputs| - 1]);
      PrintIsWrite(WriteAll(t, outputs[..|outputs| - 1]), last.c, last.color);
    }
  }

  // ----- rows and columns -----

  /** A blanked cell shows a space in the colour given. */
  lemma BlankIsSpace(color: Char)
    ensures Blank(color) % 0x100 == 32 && Blank(color) / 0x100 == color % 0x100
  {
  }

  /** A cleared screen: 25 rows of 80 spaces, the cursor at the first. */
  lemma ClearedIsSpaces(color: Char)
    ensures var s := View(Cleared(color));
            |s.cells| == 25 * 80 && s.x == 0 && s.y == 0 &&
            forall k :: 0 <= k < 2000 ==> s.cells[k] % 0x100 == 32 && s.cells[k] / 0x100 == color % 0x100
  {
    BlankIsSpace(color);
  }

  /** Where a character other than newline and backspace goes, and the cursor behind it. */
  lemma GlyphGoes(s: Screen, c: Char, color: Char)
    requires OnScreen(s) && c != 10 && c != 8
    ensures 0 <= 80 * s.y + s.x < |s.cells| == 2000
    ensures var cells := s.cells[80 * s.y + s.x := CellOf(c, color)];
            Print(s, c, color) ==
            if s.x < 79 then Screen(cells, s.x + 1, s.y)
            else if s.y < 24 then Screen(cells, 0, s.y + 1)
            else Screen(cells[80..] + Blanks(80, color), 0, 24)
  {
  }

  /** A newline, code 10, goes to the start of the next row; on the last one all rows move up by one. */
  lemma NewlineGoes(s: Screen, color: Char)
    requires OnScreen(s)
    ensures |s.cells| == 2000
    ensures Print(s, 10, color) ==
            if s.y < 24 then Screen(s.cells, 0, s.y + 1) else Screen(s.cells[80..] + Blanks(80, color), 0, 24)
  {
  }

  /** A backspace, code 8, puts a space before the cursor and the cursor on it, from the start of a row at the end
      of the one above; at the start of the screen it does nothing. */
  lemma BackspaceGoes(s: Screen, color: Char)
    requires OnScreen(s)
    ensures var at := 80 * s.y + s.x; var t := Print(s, 8, color);
            if at == 0 then t == s
            else
              && |t.cells| == |s.cells| == 2000 && at <= 2000 && 80 * t.y + t.x == at - 1 && t.x < 80
              && t.cells[at - 1] % 0x100 == 32
              && forall k :: 0 <= k < 2000 && k != at - 1 ==> t.cells[k] == s.cells[k]
  {
    BlankIsSpace(color);
  }

  lemma {:induction false} ColouredPrefix(text: seq<Char>, color: Char)
    requires text != []
    ensures Coloured(text, color)[..|text| - 1] == Coloured(text[..|text| - 1], color)
  {
  }

  /** A text of up to 1999 characters on a cleared screen: character `k` stands in row `k / 80`, column `k % 80`, and
      behind the text are spaces. */
  lemma {:induction false} TextFillsRows(text: seq<Char>, color: Char)
    requires |text| < 2000 && forall k :: 0 <= k < |text| ==> text[k] != 10 && text[k] != 8
    ensures var s := PrintAll(View(Cleared(color)), Coloured(text, color));
            && |s.cells| == 2000 && s.y == |text| / 80 && s.x == |text| % 80
            && (forall k :: 0 <= k < |text| ==> s.cells[k] == CellOf(text[k], color))
            && (forall k :: |text| <= k < 2000 ==> s.cells[k] % 0x100 == 32)
  {
    hide Print, View, Cleared;
    if text == [] {
      ClearedIsSpaces(color);
    } else {
      var before := text[..|text| - 1];
      TextFillsRows(before, color);
      ColouredPrefix(text, color);
      var s := PrintAll(View(Cleared(color)), Coloured(before, color));
      GlyphGoes(s, text[|text| - 1], color);
      NextColumn(|before|);
    }
  }

  lemma NextColumn(n: nat)
    requires n + 1 < 2000
    ensures 80 * (n / 80) + n % 80 == n
    ensures if n % 80 < 79 then (n + 1) / 80 == n / 80 && (n + 1) % 80 == n % 80 + 1
            else (n + 1) / 80 == n / 80 + 1 <= 24 && (n + 1) % 80 == 0
  {
  }
}
