/** Bytes inside words and words as bytes, least significant byte first. */
module Bytes {
  import opened Words

  type Byte = b: int | 0 <= b < 256 witness 0

  function Bound(n: nat): nat {
    if n == 0 then 1 else 0x100 * Bound(n - 1)
  }

  /** Byte `k` of a number. */
  function ByteOf(w: nat, k: nat): Byte {
    if k == 0 then w % 0x100 else ByteOf(w / 0x100, k - 1)
  }

  /** The number with byte `k` replaced. */
  function WithByte(w: nat, k: nat, b: Byte): nat {
    if k == 0 then w / 0x100 * 0x100 + b else WithByte(w / 0x100, k - 1, b) * 0x100 + w % 0x100
  }

  lemma {:induction false} WithByteBound(w: nat, k: nat, b: Byte, n: nat)
    requires k < n && w < Bound(n)
    ensures WithByte(w, k, b) < Bound(n)
    decreases k
  {
    var rest := Bound(n - 1);
    assert Bound(n) == 0x100 * rest && w / 0x100 < rest;
    if k > 0 {
      WithByteBound(w / 0x100, k - 1, b, n - 1);
    }
  }

  lemma {:induction false} ByteOfWithByte(w: nat, k: nat, b: Byte, j: nat)
    ensures ByteOf(WithByte(w, k, b), j) == if j == k then b else ByteOf(w, j)
    decreases k
  {
    if k > 0 {
      assert WithByte(w, k, b) / 0x100 == WithByte(w / 0x100, k - 1, b);
      if j > 0 {
        ByteOfWithByte(w / 0x100, k - 1, b, j - 1);
      }
    }
  }

  lemma BoundOfWord()
    ensures Bound(4) == WORD
  {
  }

  // ----- bytes of a row of words -----

  function LoadByte(ws: seq<Word32>, at: nat): Byte
    requires at < 4 * |ws|
    decreases at
  {
    if at < 4 then ByteOf(ws[0], at) else LoadByte(ws[1..], at - 4)
  }

  function SaveByte(ws: seq<Word32>, at: nat, b: Byte): (r: seq<Word32>)
    requires at < 4 * |ws|
    ensures |r| == |ws|
    decreases at
  {
    if at < 4 then
      BoundOfWord();
      WithByteBound(ws[0], at, b, 4);
      [WithByte(ws[0], at, b)] + ws[1..]
    else
      [ws[0]] + SaveByte(ws[1..], at - 4, b)
  }

  /** Storing a byte changes that byte and no other. */
  lemma {:induction false} SaveThenLoad(ws: seq<Word32>, at: nat, b: Byte, j: nat)
    requires at < 4 * |ws| && j < 4 * |ws|
    ensures LoadByte(SaveByte(ws, at, b), j) == if j == at then b else LoadByte(ws, j)
    decreases at, j
  {
    assert SaveByte(ws, at, b)[1..] == if at < 4 then ws[1..] else SaveByte(ws[1..], at - 4, b);
    if at < 4 {
      ByteOfWithByte(ws[0], at, b, j);
    } else if j >= 4 {
      SaveThenLoad(ws[1..], at - 4, b, j - 4);
    }
  }

  lemma {:induction false} LoadByteIs(ws: seq<Word32>, i: nat, k: nat)
    requires i < |ws| && k < 4
    ensures LoadByte(ws, 4 * i + k) == ByteOf(ws[i], k)
    decreases i
  {
    if i > 0 {
      LoadByteIs(ws[1..], i - 1, k);
    }
  }

  // ----- a number as a row of bytes -----

  /** The `n` low bytes of a number. */
  function ToBytes(w: nat, n: nat): (bs: seq<Byte>)
    ensures |bs| == n
  {
    if n == 0 then [] else [w % 0x100] + ToBytes(w / 0x100, n - 1)
  }

  function FromBytes(bs: seq<Byte>): nat {
    if bs == [] then 0 else bs[0] + 0x100 * FromBytes(bs[1..])
  }

  lemma {:induction false} FromBytesBound(bs: seq<Byte>)
    ensures FromBytes(bs) < Bound(|bs|)
  {
    if bs != [] {
      FromBytesBound(bs[1..]);
    }
  }

  lemma {:induction false} FromBytesInverts(w: nat, n: nat)
    requires w < Bound(n)
    ensures FromBytes(ToBytes(w, n)) == w
  {
    if n > 0 {
      FromBytesInverts(w / 0x100, n - 1);
      assert ToBytes(w, n)[1..] == ToBytes(w / 0x100, n - 1);
    }
  }

  lemma {:induction false} ToBytesAre(w: nat, n: nat, k: nat)
    requires k < n
    ensures ToBytes(w, n)[k] == ByteOf(w, k)
  {
    if k > 0 {
      ToBytesAre(w / 0x100, n - 1, k - 1);
    }
  }
}
