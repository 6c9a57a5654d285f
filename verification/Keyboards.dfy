/** The keyboard driver: the scancode filter and the reading session of SYS_GETS. */
module Keyboards {
  import opened Console
  import opened LineEditor
  import opened Tasks
  import P = Protocol

  /** `scancode_map` (US QWERTY), row by row; 0 for keys without a character. */
  const DIGITS: seq<Char> := [0, 27, 49, 50, 51, 52, 53, 54, 55, 56, 57, 48, 45, 61, 8]
  const TOP_ROW: seq<Char> := [9, 113, 119, 101, 114, 116, 121, 117, 105, 111, 112, 91, 93, 10, 0]
  const HOME_ROW: seq<Char> := [97, 115, 100, 102, 103, 104, 106, 107, 108, 59, 39, 96, 0, 92, 122]
  const BOTTOM_ROW: seq<Char> := [120, 99, 118, 98, 110, 109, 44, 46, 47, 0, 42, 0, 32, 0, 0]
  const FUNCTION_KEYS: seq<Char> := [0, 0, 0, 0, 0, 0, 0, 0, 0, 0, 0, 0, 0, 0, 45]
  const KEYPAD: seq<Char> := [0, 0, 0, 43, 0, 0, 0, 0, 0, 0, 0, 0, 0, 0, 0]
  const SCANCODES: seq<Char> := DIGITS + TOP_ROW + HOME_ROW + BOTTOM_ROW + FUNCTION_KEYS + KEYPAD

  /** The character a scancode stands for; 0 for releases, codes past the table and other keys. */
  function Ascii(scancode: nat): Char {
    if scancode < 0x80 && scancode < |SCANCODES| then SCANCODES[scancode] else 0
  }

  const ENTER: nat := 28                 // the scancode of the Enter key

  /** Enter types code 10, the newline that ends a line. */
  lemma EnterIsNewline()
    ensures Ascii(ENTER) == NEWLINE && ENTER == 28 && NEWLINE == 10
  {
    assert SCANCODES[28] == TOP_ROW[13];
  }

  lemma DigitsType()
    ensures forall k :: 0 <= k < 12 ==> Ascii(2 + k) == "1234567890-="[k] as int
  {
  }

  lemma TopRowTypes()
    ensures forall k :: 0 <= k < 12 ==> Ascii(16 + k) == "qwertyuiop[]"[k] as int
  {
  }

  lemma HomeRowTypes()
    ensures forall k :: 0 <= k < 12 ==> Ascii(30 + k) == "asdfghjkl;'`"[k] as int
  {
  }

  lemma BottomRowTypes()
    ensures forall k :: 0 <= k < 11 ==> Ascii(43 + k) == "\\zxcvbnm,./"[k] as int
  {
  }

  /** The characters of the keys that have one, in the order of their codes. */
  lemma KeysType()
    ensures forall k :: 0 <= k < 12 ==> Ascii(2 + k) == "1234567890-="[k] as int
    ensures forall k :: 0 <= k < 12 ==> Ascii(16 + k) == "qwertyuiop[]"[k] as int
    ensures forall k :: 0 <= k < 12 ==> Ascii(30 + k) == "asdfghjkl;'`"[k] as int
    ensures forall k :: 0 <= k < 11 ==> Ascii(43 + k) == "\\zxcvbnm,./"[k] as int
    ensures Ascii(1) == 27 && Ascii(14) == 8 && Ascii(15) == 9 && Ascii(28) == 10 && Ascii(57) == 32
    ensures Ascii(55) == '*' as int && Ascii(74) == '-' as int && Ascii(78) == '+' as int
  {
    DigitsType();
    TopRowTypes();
    HomeRowTypes();
    BottomRowTypes();
  }

  /** No other key has a character: none that is released, and none past the table. */
  lemma OthersTypeNothing(code: nat)
    requires code in {0, 29, 42, 54, 56} || 58 <= code < 74 || 75 <= code < 78 || 79 <= code
    ensures Ascii(code) == 0
  {
  }

  class Keyboard {
    const vga: Vga
    const buffer: array<Char>
    var color: Char                       // current_color
    var idx: nat
    var userTarget: array?<Char>          // the reader's buffer, NULL between sessions
    var userMaxSize: nat
    var taskWaiting: ControlBlock?
    var charsRead: nat

    ghost predicate Valid()
      reads this, vga
    {
      && vga.Valid() && buffer.Length == BUFFER_SIZE && idx < BUFFER_SIZE
      && (taskWaiting == null <==> userTarget == null)
      && (userTarget != null ==>
            userMaxSize > 0 && userTarget.Length == userMaxSize && idx <= Room(userMaxSize) &&
            userTarget != buffer && userTarget as object != vga.buffer)
      && buffer as object != vga.buffer
    }

    /** What has been typed in the current session. */
    ghost function Line(): (line: seq<Char>)
      reads this, vga, buffer
      requires Valid()
      ensures |line| == idx
    {
      buffer[..idx]
    }

    constructor (vga: Vga, color: Char)
      requires vga.Valid()
      ensures Valid() && fresh(buffer) && this.vga == vga && taskWaiting == null
    {
      this.vga, this.color := vga, color;
      buffer := new Char[BUFFER_SIZE];
      idx, userTarget, userMaxSize, taskWaiting, charsRead := 0, null, 0, null, 0;
    }

    /** `keyboard_prepare_for_gets`, for a buffer as long as the caller says. While a task is reading
        it does nothing. */
    method PrepareForGets(userBuffer: array<Char>, size: nat, current: ControlBlock)
      requires Valid() && size > 0 && userBuffer.Length == size
      requires userBuffer != buffer && userBuffer as object != vga.buffer
      modifies `idx, `userTarget, `userMaxSize, `taskWaiting, `charsRead, buffer
      ensures Valid()
      ensures if old(taskWaiting) != null
              then taskWaiting == old(taskWaiting) && userTarget == old(userTarget) &&
                   userMaxSize == old(userMaxSize) && Line() == old(Line())
              else taskWaiting == current && userTarget == userBuffer && userMaxSize == size && Line() == [] &&
                   charsRead == 0 && buffer[0] == 0
    {
      if taskWaiting != null { return; }
      userTarget := userBuffer;
      userMaxSize := size;
      idx := 0;
      buffer[0] := 0;
      charsRead := 0;
      taskWaiting := current;
    }

    /** `memcpy` of the first characters of the driver's buffer to the reader's. */
    method CopyOut(target: array<Char>, n: nat)
      requires n <= buffer.Length && n <= target.Length && target != buffer
      modifies target
      ensures target[..] == buffer[..n] + old(target[n..])
    {
      for i := 0 to n
        invariant target[..] == buffer[..i] + old(target[i..])
      {
        target[i] := buffer[i];
      }
    }

    /** The branch of `keyboard_process_char_for_gets` for Enter: the reader's buffer gets the line and
        a NUL, the rest of it is left alone, and the reader wakes up with the line's length. */
    method FinishLine()
      requires Valid() && taskWaiting != null
      modifies `idx, `userTarget, `taskWaiting, `charsRead, buffer, vga`x, vga`y, vga.buffer, userTarget, taskWaiting
      ensures Valid() && taskWaiting == null
      ensures old(idx) < old(userTarget).Length && charsRead == old(idx) && idx == 0 && userTarget == null
      ensures old(userTarget)[..] == old(Line()) + [0] + old(userTarget[idx + 1..])
      ensures var t := old(taskWaiting);
              t.Abs() == old(t.Abs()).(state := P.Ready, retval := |old(Line())|, pending := P.Typed(old(Line())))
      ensures var t := old(taskWaiting);
              && t.next == old(taskWaiting.next) && t.parent == old(taskWaiting.parent)
              && t.resume == old(taskWaiting.resume)
      ensures buffer[..old(idx)] == old(Line()) && buffer[old(idx)] == 0
      ensures vga.Abs() == Print(old(vga.Abs()), NEWLINE, color)
    {
      ghost var line := Line();
      var target, task := userTarget, taskWaiting;
      buffer[idx] := 0;
      var copyLen: int := idx;
      if copyLen >= userMaxSize { copyLen := userMaxSize - 1; }
      CopyOut(target, copyLen);
      target[copyLen] := 0;
      charsRead := copyLen;
      assert target[..] == line + [0] + old(userTarget[idx + 1..]);
      vga.PrintChar(NEWLINE, vga.x, vga.y, color);
      task.syscallRetval := charsRead;
      task.state := P.Ready;
      task.pending := P.Typed(line);
      taskWaiting := null;
      userTarget := null;
      idx := 0;
    }

    /** The other branches: the line is edited, and a key that was taken is echoed. */
    method EditLine(c: Char)
      requires Valid() && taskWaiting != null && c != NEWLINE
      modifies `idx, buffer, vga`x, vga`y, vga.buffer
      ensures Valid() && Line() == Edit(old(Line()), userMaxSize, c)
      ensures vga.Abs() == EchoOnScreen(old(vga.Abs()), old(Line()), userMaxSize, c, color)
    {
      ghost var line := Line();
      if c == BACKSPACE {
        if idx > 0 {
          idx := idx - 1;
          assert Line() == line[..|line| - 1];
          vga.PrintChar(c, vga.x, vga.y, color);
        }
      } else if c >= 32 && c <= 126 {
        if idx < BUFFER_SIZE - 1 && idx < userMaxSize - 1 {
          buffer[idx] := c;
          idx := idx + 1;
          assert Line() == line + [c];
          vga.PrintChar(c, vga.x, vga.y, color);
        }
      }
    }
  }
}
