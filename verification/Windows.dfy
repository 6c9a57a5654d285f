/** Writing and reading bytes through a window of consecutive virtual pages whose frames are known. */
module Windows {
  import opened Bytes
  import opened Paging

  /** `|frames|` consecutive pages from page `first`, and the frames behind them. */
  datatype Window = Window(first: nat, frames: seq<nat>)

  ghost predicate Below(frames: seq<nat>, size: nat, i: nat) {
    i < |frames| ==> frames[i] < size
  }

  ghost predicate Differ(frames: seq<nat>, i: nat, j: nat) {
    i < j < |frames| ==> frames[i] != frames[j]
  }

  /** Different frames, all of them below `size`. */
  ghost predicate Distinct(frames: seq<nat>, size: nat) {
    (forall i: nat :: Below(frames, size, i)) && (forall i: nat, j: nat :: Differ(frames, i, j))
  }

  /** Addresses `a` to `a + len` lie in the window. */
  predicate Covers(w: Window, a: nat, len: nat) {
    w.first * 4096 <= a && a + len <= (w.first + |w.frames|) * 4096
  }

  function FrameBehind(w: Window, a: nat): nat
    requires Covers(w, a, 1)
  {
    w.frames[a / 4096 - w.first]
  }

  function Put(w: Window, mem: seq<Frame>, a: nat, b: Byte): (r: seq<Frame>)
    requires Covers(w, a, 1)
    ensures |r| == |mem|
  {
    var f := FrameBehind(w, a);
    if f < |mem| then mem[f := SaveByte(mem[f], a % 4096, b)] else mem
  }

  function Get(w: Window, mem: seq<Frame>, a: nat): Byte
    requires Covers(w, a, 1)
  {
    var f := FrameBehind(w, a);
    if f < |mem| then LoadByte(mem[f], a % 4096) else 0
  }

  /** Memory after the first `n` bytes are written from address `a` on. */
  function PutAll(w: Window, mem: seq<Frame>, a: nat, bytes: seq<Byte>, n: nat): (r: seq<Frame>)
    requires n <= |bytes| && Covers(w, a, n)
    ensures |r| == |mem|
    decreases n
  {
    if n == 0 then mem else Put(w, PutAll(w, mem, a, bytes, n - 1), a + n - 1, bytes[n - 1])
  }

  lemma PutThenGet(w: Window, mem: seq<Frame>, a: nat, b: Byte, c: nat)
    requires Distinct(w.frames, |mem|) && Covers(w, a, 1) && Covers(w, c, 1)
    ensures Get(w, Put(w, mem, a, b), c) == if c == a then b else Get(w, mem, c)
  {
    var i, j := a / 4096 - w.first, c / 4096 - w.first;
    assert Below(w.frames, |mem|, i) && Below(w.frames, |mem|, j);
    assert Differ(w.frames, i, j) && Differ(w.frames, j, i);
    if i == j {
      SaveThenLoad(mem[FrameBehind(w, a)], a % 4096, b, c % 4096);
    }
  }

  /** After writing a block, its addresses read back the block and every other one of the window
      what it held. */
  lemma {:induction false} PutAllThenGet(w: Window, mem: seq<Frame>, a: nat, bytes: seq<Byte>, n: nat, c: nat)
    requires Distinct(w.frames, |mem|) && n <= |bytes| && Covers(w, a, n) && Covers(w, c, 1)
    ensures Get(w, PutAll(w, mem, a, bytes, n), c) == if a <= c < a + n then bytes[c - a] else Get(w, mem, c)
    decreases n
  {
    if n > 0 {
      PutAllThenGet(w, mem, a, bytes, n - 1, c);
      PutThenGet(w, PutAll(w, mem, a, bytes, n - 1), a + n - 1, bytes[n - 1], c);
    }
  }

  /** Frames outside the window keep their content. */
  lemma {:induction false} PutAllElsewhere(w: Window, mem: seq<Frame>, a: nat, bytes: seq<Byte>, n: nat, g: nat)
    requires n <= |bytes| && Covers(w, a, n) && g < |mem| && g !in w.frames
    ensures PutAll(w, mem, a, bytes, n)[g] == mem[g]
    decreases n
  {
    if n > 0 {
      PutAllElsewhere(w, mem, a, bytes, n - 1, g);
      assert FrameBehind(w, a + n - 1) in w.frames;
    }
  }
}
