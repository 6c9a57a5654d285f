/** The line editor behind SYS_GETS, and what an editing session leaves on the terminal. */
module LineEditor {
  import opened Console

  const BUFFER_SIZE: nat := 256

  predicate Printable(c: Char) {
    32 <= c <= 126
  }

  /** The longest line a reader with a buffer of `size` characters can be given: one place is kept
      for the NUL, in the driver's buffer and in the reader's. */
  function Room(size: nat): (r: nat)
    requires size > 0
    ensures r < BUFFER_SIZE && r < size
  {
    if size < BUFFER_SIZE then size - 1 else BUFFER_SIZE - 1
  }

  /** Whether a key other than Enter changes the line; exactly then it is echoed. */
  predicate Accepts(line: seq<Char>, size: nat, c: Char)
    requires size > 0
  {
    if c == BACKSPACE then line != [] else Printable(c) && |line| < Room(size)
  }

  /** The line after one key other than Enter: push if there is room, pop, or ignore. */
  function Edit(line: seq<Char>, size: nat, c: Char): (r: seq<Char>)
    requires size > 0
    ensures |line| <= Room(size) ==> |r| <= Room(size)
  {
    if !Accepts(line, size, c) then line
    else if c == BACKSPACE then line[..|line| - 1]
    else line + [c]
  }

  function EditAll(keys: seq<Char>, size: nat): (line: seq<Char>)
    requires size > 0
    ensures |line| <= Room(size)
  {
    if keys == [] then [] else Edit(EditAll(keys[..|keys| - 1], size), size, keys[|keys| - 1])
  }

  /** A key that is taken is undone by a backspace. */
  lemma BackspaceUndoes(line: seq<Char>, size: nat, c: Char)
    requires size > 0 && c != BACKSPACE && Accepts(line, size, c)
    ensures Edit(Edit(line, size, c), size, BACKSPACE) == line
  {
    assert (line + [c])[..|line|] == line;
  }

  /** How many characters a line can have: at most 255, and one less than the reader's buffer holds. */
  function Fitting(n: nat, size: nat): (r: nat)
    requires size > 0
    ensures r <= n && r <= 255 && r < size && (r == n || r == 255 || r == size - 1)
  {
    var most := if size - 1 < 255 then size - 1 else 255;
    if n < most then n else most
  }

  lemma OneMoreFits(n: nat, size: nat)
    requires size > 0
    ensures Fitting(0, size) == 0
    ensures n <= 255 && n < size <==> Fitting(n, size) == n
    ensures Fitting(n + 1, size) ==
            if Fitting(n, size) < 255 && Fitting(n, size) + 1 < size then n + 1 else Fitting(n, size)
  {
  }

  lemma OneMoreKey(line: seq<Char>, size: nat, c: Char)
    requires size > 0 && 32 <= c <= 126
    ensures Edit(line, size, c) == if |line| < 255 && |line| + 1 < size then line + [c] else line
  {
  }

  /** Keys with codes from 32 to 126, from the space to the tilde, make up the line as they are typed; of more than
      fit, the first ones. */
  lemma {:induction false} KeysMakeTheLine(keys: seq<Char>, size: nat)
    requires size > 0 && forall k :: 0 <= k < |keys| ==> 32 <= keys[k] <= 126
    ensures EditAll(keys, size) == keys[..Fitting(|keys|, size)]
    ensures |keys| <= 255 && |keys| < size ==> EditAll(keys, size) == keys
  {
    hide Edit, Fitting;
    if keys == [] {
      OneMoreFits(0, size);
    } else {
      var before, c := keys[..|keys| - 1], keys[|keys| - 1];
      var n := Fitting(|before|, size);
      KeysMakeTheLine(before, size);
      OneMoreFits(|before|, size);
      OneMoreFits(|keys|, size);
      OneMoreKey(before[..n], size, c);
      assert before[..n] == keys[..n] && before + [c] == keys;
    }
  }

  /** A backspace, code 8, takes the last character away, if there is one; a key of any code below 32 or above 126
      but that leaves the line as it is. */
  lemma OtherKeysEdit(line: seq<Char>, size: nat, c: Char)
    requires size > 0 && (c < 32 || c > 126)
    ensures Edit(line, size, c) == if c == 8 && line != [] then line[..|line| - 1] else line
  {
  }

  // ----- what is echoed -----

  /** The terminal after the echo of one key. */
  function Echo(t: Tape, line: seq<Char>, size: nat, c: Char, color: Char): (r: Tape)
    requires Good(t) && size > 0
    ensures Good(r)
  {
    if Accepts(line, size, c) then Write(t, c, color) else t
  }

  /** The terminal after a session's keys so far. */
  function EchoAll(t: Tape, keys: seq<Char>, size: nat, color: Char): (r: Tape)
    requires Good(t) && size > 0
    ensures Good(r)
  {
    if keys == [] then t
    else
      var before := keys[..|keys| - 1];
      Echo(EchoAll(t, before, size, color), EditAll(before, size), size, keys[|keys| - 1], color)
  }

  function Longer(a: nat, b: nat): nat {
    if a < b then b else a
  }

  /** The longest the line has been. */
  function HighWater(keys: seq<Char>, size: nat): (high: nat)
    requires size > 0
    ensures |EditAll(keys, size)| <= high <= Room(size)
  {
    if keys == [] then 0
    else Longer(HighWater(keys[..|keys| - 1], size), |EditAll(keys, size)|)
  }

  /** What stands at place `k` of the terminal when a session that began on `t0` has come to `line`:
      before the start what was there, then the line, then blanks as far as it once reached, and on
      rows that have come up since. */
  function Expected(t0: Tape, line: seq<Char>, high: nat, color: Char, k: nat): Cell
  {
    if t0.pos <= k < t0.pos + |line| then CellOf(line[k - t0.pos], color)
    else if t0.pos <= k < t0.pos + high || k >= |t0.cells| then Blank(color)
    else t0.cells[k]
  }

  ghost predicate CellAgrees(t0: Tape, t: Tape, line: seq<Char>, high: nat, color: Char, k: nat) {
    k < |t.cells| ==> t.cells[k] == Expected(t0, line, high, color, k)
  }

  /** The terminal agrees with the edit buffer. */
  ghost predicate Agrees(t0: Tape, t: Tape, line: seq<Char>, high: nat, color: Char) {
    && Good(t0) && Good(t) && |line| <= high < BUFFER_SIZE
    && t.pos == t0.pos + |line|
    && |t0.cells| <= |t.cells| && |t.cells| <= Longer(|t0.cells|, t0.pos + high + COLUMNS)
    && (forall k: nat :: CellAgrees(t0, t, line, high, color, k))
  }

  lemma AgreesAtStart(t0: Tape, color: Char)
    requires Good(t0)
    ensures Agrees(t0, t0, [], 0, color)
  {
  }

  /** The place where the session began stays on the screen. */
  lemma StartStaysVisible(t0: Tape, t: Tape, line: seq<Char>, high: nat, color: Char)
    requires Agrees(t0, t, line, high, color)
    ensures Top(t) <= t0.pos <= t.pos < |t.cells|
  {
  }

  lemma AgreesAfterGlyph(t0: Tape, t: Tape, line: seq<Char>, high: nat, color: Char, c: Char)
    requires Agrees(t0, t, line, high, color) && Printable(c) && |line| + 1 < BUFFER_SIZE
    ensures Agrees(t0, Write(t, c, color), line + [c], Longer(high, |line| + 1), color)
  {
    var u, line', high' := Write(t, c, color), line + [c], Longer(high, |line| + 1);
    forall k: nat
      ensures CellAgrees(t0, u, line', high', color, k)
    {
      assert CellAgrees(t0, t, line, high, color, k);
    }
  }

  lemma AgreesAfterBackspace(t0: Tape, t: Tape, line: seq<Char>, high: nat, color: Char)
    requires Agrees(t0, t, line, high, color) && line != []
    ensures Agrees(t0, Write(t, BACKSPACE, color), line[..|line| - 1], high, color)
  {
    StartStaysVisible(t0, t, line, high, color);
    var u, line' := Write(t, BACKSPACE, color), line[..|line| - 1];
    forall k: nat
      ensures CellAgrees(t0, u, line', high, color, k)
    {
      assert CellAgrees(t0, t, line, high, color, k);
    }
  }

  /** In a session without another printer the terminal agrees with the edit buffer after any keys:
      the line stands from the session's start on, the cursor right behind it, everything before the
      start is untouched, and no erased character is left. */
  lemma {:induction false} SessionAgrees(t0: Tape, keys: seq<Char>, size: nat, color: Char)
    requires Good(t0) && size > 0
    ensures Agrees(t0, EchoAll(t0, keys, size, color), EditAll(keys, size), HighWater(keys, size), color)
  {
    if keys == [] {
      AgreesAtStart(t0, color);
    } else {
      var before, c := keys[..|keys| - 1], keys[|keys| - 1];
      var t, line := EchoAll(t0, before, size, color), EditAll(before, size);
      SessionAgrees(t0, before, size, color);
      if Accepts(line, size, c) {
        if c == BACKSPACE {
          AgreesAfterBackspace(t0, t, line, HighWater(before, size), color);
        } else {
          AgreesAfterGlyph(t0, t, line, HighWater(before, size), color, c);
        }
      }
    }
  }

  // ----- the same on the screen -----

  function EchoOnScreen(s: Screen, line: seq<Char>, size: nat, c: Char, color: Char): (r: Screen)
    requires OnScreen(s) && size > 0
    ensures OnScreen(r)
  {
    if Accepts(line, size, c) then Print(s, c, color) else s
  }

  /** A key without a character does nothing. */
  lemma NoCharacter(s: Screen, line: seq<Char>, size: nat, color: Char)
    requires OnScreen(s) && size > 0
    ensures Edit(line, size, 0) == line && EchoOnScreen(s, line, size, 0, color) == s
  {
  }

  function EchoAllOnScreen(s: Screen, keys: seq<Char>, size: nat, color: Char): (r: Screen)
    requires OnScreen(s) && size > 0
    ensures OnScreen(r)
  {
    if keys == [] then s
    else
      var before := keys[..|keys| - 1];
      EchoOnScreen(EchoAllOnScreen(s, before, size, color), EditAll(before, size), size, keys[|keys| - 1], color)
  }

  lemma {:induction false} EchoShowsTape(t0: Tape, keys: seq<Char>, size: nat, color: Char)
    requires Good(t0) && size > 0
    ensures EchoAllOnScreen(View(t0), keys, size, color) == View(EchoAll(t0, keys, size, color))
  {
    if keys != [] {
      var before := keys[..|keys| - 1];
      EchoShowsTape(t0, before, size, color);
      PrintIsWrite(EchoAll(t0, before, size, color), keys[|keys| - 1], color);
    }
  }

  /** The cells right before the cursor show the line the terminal agrees with. */
  lemma LineOnScreen(t0: Tape, t: Tape, line: seq<Char>, high: nat, color: Char, k: nat)
    requires Agrees(t0, t, line, high, color) && k < |line|
    ensures var s := View(t);
            var at := s.y * COLUMNS + s.x - |line| + k;
            0 <= at < CELLS && s.cells[at] == CellOf(line[k], color)
  {
    StartStaysVisible(t0, t, line, high, color);
    CursorOnTape(t);
    assert CellAgrees(t0, t, line, high, color, t0.pos + k);
  }

  /** After any keys, in spite of wraps and scrolls, the cells right before the cursor show exactly
      the edit buffer. */
  lemma ScreenShowsLine(t0: Tape, keys: seq<Char>, size: nat, color: Char, k: nat)
    requires Good(t0) && size > 0 && k < |EditAll(keys, size)|
    ensures var s, line := EchoAllOnScreen(View(t0), keys, size, color), EditAll(keys, size);
            var at := s.y * COLUMNS + s.x - |line| + k;
            0 <= at < CELLS && s.cells[at] == CellOf(line[k], color)
  {
    hide EchoAllOnScreen, EchoAll, EditAll, HighWater, Agrees, View;
    EchoShowsTape(t0, keys, size, color);
    SessionAgrees(t0, keys, size, color);
    LineOnScreen(t0, EchoAll(t0, keys, size, color), EditAll(keys, size), HighWater(keys, size), color, k);
  }
}
