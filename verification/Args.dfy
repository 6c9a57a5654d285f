/** The argument block on a new user stack: argc, the argv pointers with their NULL, the strings. */
module Args {
  import opened Words
  import opened Options
  import opened Bytes

  /** A C string's characters: no NUL among them. */
  predicate IsString(str: seq<Byte>) {
    forall k :: 0 <= k < |str| ==> str[k] != 0
  }

  predicate StringAt(argv: seq<seq<Byte>>, i: nat) {
    i < |argv| ==> IsString(argv[i])
  }

  ghost predicate AllStrings(argv: seq<seq<Byte>>) {
    forall i: nat :: StringAt(argv, i)
  }

  // ----- the bytes that are written -----

  /** The first `n` strings, each with its NUL, one after the other. */
  function Strings(argv: seq<seq<Byte>>, n: nat): seq<Byte>
    requires n <= |argv|
    decreases n
  {
    if n == 0 then [] else Strings(argv, n - 1) + (argv[n - 1] + [0])
  }

  /** Where string `i` starts in that block. */
  function Offset(argv: seq<seq<Byte>>, i: nat): nat
    requires i <= |argv|
  {
    |Strings(argv, i)|
  }

  /** The pointers to the first `n` strings when the block stands at `base`. */
  function Pointers(argv: seq<seq<Byte>>, base: nat, n: nat): (bs: seq<Byte>)
    requires n <= |argv|
    ensures |bs| == 4 * n
    decreases n
  {
    if n == 0 then [] else Pointers(argv, base, n - 1) + ToBytes(base + Offset(argv, n - 1), 4)
  }

  function PointerTable(argv: seq<seq<Byte>>, base: nat): (bs: seq<Byte>)
    ensures |bs| == 4 * (|argv| + 1)
  {
    Pointers(argv, base, |argv|) + ToBytes(0, 4)
  }

  lemma {:induction false} StringInBlock(argv: seq<seq<Byte>>, n: nat, i: nat, k: nat)
    requires i < n <= |argv| && k <= |argv[i]|
    ensures Offset(argv, i) + k < |Strings(argv, n)|
    ensures Strings(argv, n)[Offset(argv, i) + k] == if k < |argv[i]| then argv[i][k] else 0
    decreases n
  {
    if i < n - 1 {
      StringInBlock(argv, n - 1, i, k);
    }
  }

  lemma {:induction false} PointerInTable(argv: seq<seq<Byte>>, base: nat, n: nat, i: nat, k: nat)
    requires i < n <= |argv| && k < 4
    ensures Pointers(argv, base, n)[4 * i + k] == ToBytes(base + Offset(argv, i), 4)[k]
    decreases n
  {
    if i < n - 1 {
      PointerInTable(argv, base, n - 1, i, k);
    }
  }

  // ----- reading them back -----

  /** What can be read at an address, `None` for a page fault. */
  type Reader = nat -> Option<Byte>

  ghost predicate HoldsAt(rd: Reader, a: nat, bs: seq<Byte>, k: nat) {
    k < |bs| ==> rd(a + k) == Some(bs[k])
  }

  /** The bytes `bs` can be read from address `a` on. */
  ghost predicate Holds(rd: Reader, a: nat, bs: seq<Byte>) {
    forall k: nat :: HoldsAt(rd, a, bs, k)
  }

  function ReadWord(rd: Reader, a: nat): Option<nat> {
    match (rd(a), rd(a + 1), rd(a + 2), rd(a + 3))
    case (Some(b0), Some(b1), Some(b2), Some(b3)) => Some(FromBytes([b0, b1, b2, b3]))
    case _ => None
  }

  /** The C string at an address. */
  function ReadString(rd: Reader, a: nat): Option<seq<Byte>>
    decreases WORD - a
  {
    if a >= WORD then None
    else
      match rd(a)
      case None => None
      case Some(b) =>
        if b == 0 then Some([])
        else
          match ReadString(rd, a + 1)
          case None => None
          case Some(rest) => Some([b] + rest)
  }

  /** The strings behind the first `n` pointers of a table. */
  function ReadStrings(rd: Reader, at: nat, n: nat): Option<seq<seq<Byte>>>
    decreases n
  {
    if n == 0 then Some([])
    else
      match (ReadStrings(rd, at, n - 1), ReadWord(rd, at + 4 * (n - 1)))
      case (Some(strs), Some(p)) =>
        (match ReadString(rd, p)
         case Some(str) => Some(strs + [str])
         case None => None)
      case _ => None
  }

  /** What a program finds from its initial stack pointer: argc, then argc pointers and a NULL. */
  function Decode(rd: Reader, esp: nat): Option<seq<seq<Byte>>> {
    match ReadWord(rd, esp)
    case None => None
    case Some(argc) =>
      var at := esp + 4;
      if ReadWord(rd, at + 4 * argc) == Some(0) then ReadStrings(rd, at, argc) else None
  }

  // ----- the round trip -----

  lemma WordOfBytes(w: nat)
    requires w < WORD
    ensures var bs := ToBytes(w, 4); FromBytes([bs[0], bs[1], bs[2], bs[3]]) == w
  {
    var bs := ToBytes(w, 4);
    assert bs == [bs[0], bs[1], bs[2], bs[3]];
    BoundOfWord();
    FromBytesInverts(w, 4);
  }

  lemma ReadWordHolds(rd: Reader, a: nat, w: nat)
    requires w < WORD && Holds(rd, a, ToBytes(w, 4))
    ensures ReadWord(rd, a) == Some(w)
  {
    var bs := ToBytes(w, 4);
    assert HoldsAt(rd, a, bs, 0) && HoldsAt(rd, a, bs, 1);
    assert HoldsAt(rd, a, bs, 2) && HoldsAt(rd, a, bs, 3);
    WordOfBytes(w);
  }

  /** From the `k`-th character of a string on, which stands at `c`. */
  lemma {:induction false} ReadStringHolds(rd: Reader, a: nat, c: nat, str: seq<Byte>, k: nat)
    requires IsString(str) && Holds(rd, a, str + [0]) && k <= |str| && c == a + k && a + |str| < WORD
    ensures ReadString(rd, c) == Some(str[k..])
    decreases |str| - k
  {
    assert HoldsAt(rd, a, str + [0], k);
    if k < |str| {
      ReadStringHolds(rd, a, c + 1, str, k + 1);
      assert str[k..] == [str[k]] + str[k + 1..];
    } else {
      assert str[k..] == [];
    }
  }

  /** The strings block and the pointer table, in memory. */
  ghost predicate BlockInMemory(rd: Reader, base: nat, at: nat, argv: seq<seq<Byte>>) {
    && base + Offset(argv, |argv|) <= WORD
    && Holds(rd, base, Strings(argv, |argv|)) && Holds(rd, at, PointerTable(argv, base))
  }

  lemma OffsetsGrow(argv: seq<seq<Byte>>, i: nat)
    requires i < |argv|
    ensures Offset(argv, i) < Offset(argv, |argv|)
  {
    StringInBlock(argv, |argv|, i, 0);
  }

  lemma PointerHolds(rd: Reader, base: nat, at: nat, argv: seq<seq<Byte>>, i: nat)
    requires BlockInMemory(rd, base, at, argv) && i <= |argv|
    ensures ReadWord(rd, at + 4 * i) == Some(if i < |argv| then base + Offset(argv, i) else 0)
  {
    var w := if i < |argv| then base + Offset(argv, i) else 0;
    var a := at + 4 * i;
    if i < |argv| {
      OffsetsGrow(argv, i);
    }
    forall k: nat
      ensures HoldsAt(rd, a, ToBytes(w, 4), k)
    {
      assert HoldsAt(rd, at, PointerTable(argv, base), 4 * i + k);
      if k < 4 && i < |argv| {
        PointerInTable(argv, base, |argv|, i, k);
      }
    }
    ReadWordHolds(rd, a, w);
  }

  /** A byte of a block is the byte of a part of it. */
  lemma PartHoldsAt(rd: Reader, base: nat, bs: seq<Byte>, o: nat, a: nat, part: seq<Byte>, k: nat)
    requires HoldsAt(rd, base, bs, o) && base + o == a + k
    requires k < |part| ==> o < |bs| && bs[o] == part[k]
    ensures HoldsAt(rd, a, part, k)
  {
  }

  lemma StringHolds(rd: Reader, base: nat, at: nat, argv: seq<seq<Byte>>, i: nat)
    requires BlockInMemory(rd, base, at, argv) && i < |argv|
    ensures Holds(rd, base + Offset(argv, i), argv[i] + [0])
  {
    hide PointerTable, Strings, Offset, HoldsAt;
    var block := Strings(argv, |argv|);
    var from := Offset(argv, i);
    var a, z := base + from, argv[i] + [0];
    forall k: nat
      ensures HoldsAt(rd, a, z, k)
    {
      assert HoldsAt(rd, base, block, from + k);
      if k <= |argv[i]| {
        StringInBlock(argv, |argv|, i, k);
      }
      PartHoldsAt(rd, base, block, from + k, a, z, k);
    }
  }

  lemma ItemRead(rd: Reader, base: nat, at: nat, argv: seq<seq<Byte>>, i: nat, p: nat)
    requires BlockInMemory(rd, base, at, argv) && i < |argv| && AllStrings(argv) && p == base + Offset(argv, i)
    ensures ReadWord(rd, at + 4 * i) == Some(p) && ReadString(rd, p) == Some(argv[i])
  {
    hide ReadWord, ReadString, Holds, PointerTable;
    PointerHolds(rd, base, at, argv, i);
    StringHolds(rd, base, at, argv, i);
    StringInBlock(argv, |argv|, i, |argv[i]|);
    assert StringAt(argv, i);
    ReadStringHolds(rd, p, p, argv[i], 0);
    assert argv[i][0..] == argv[i];
  }

  lemma StringsReadStep(rd: Reader, at: nat, argv: seq<seq<Byte>>, n: nat, p: nat)
    requires n < |argv| && ReadStrings(rd, at, n) == Some(argv[..n])
    requires ReadWord(rd, at + 4 * n) == Some(p) && ReadString(rd, p) == Some(argv[n])
    ensures ReadStrings(rd, at, n + 1) == Some(argv[..n + 1])
  {
    assert argv[..n + 1] == argv[..n] + [argv[n]];
  }

  lemma {:induction false} StringsRead(rd: Reader, base: nat, at: nat, argv: seq<seq<Byte>>, n: nat)
    requires BlockInMemory(rd, base, at, argv) && n <= |argv| && AllStrings(argv)
    ensures ReadStrings(rd, at, n) == Some(argv[..n])
    decreases n
  {
    if n > 0 {
      var i := n - 1;
      var p := base + Offset(argv, i);
      StringsRead(rd, base, at, argv, i);
      ItemRead(rd, base, at, argv, i, p);
      StringsReadStep(rd, at, argv, i, p);
    }
  }

  lemma DecodeSteps(rd: Reader, esp: nat, at: nat, argc: nat, argv: seq<seq<Byte>>)
    requires at == esp + 4 && ReadWord(rd, esp) == Some(argc)
    requires ReadWord(rd, at + 4 * argc) == Some(0) && ReadStrings(rd, at, argc) == Some(argv)
    ensures Decode(rd, esp) == Some(argv)
  {
  }

  /** A program started on such a stack finds exactly the caller's argument vector. */
  lemma DecodeIsArgv(rd: Reader, base: nat, esp: nat, at: nat, argv: seq<seq<Byte>>)
    requires at == esp + 4 && BlockInMemory(rd, base, at, argv) && |argv| < WORD && AllStrings(argv)
    requires Holds(rd, esp, ToBytes(|argv|, 4))
    ensures Decode(rd, esp) == Some(argv)
  {
    var argc := |argv|;
    assert argv[..argc] == argv;
    StringsRead(rd, base, at, argv, argc);
    PointerHolds(rd, base, at, argv, argc);
    ReadWordHolds(rd, esp, argc);
    DecodeSteps(rd, esp, at, argc, argv);
  }

  // ----- equal readers -----

  /** Two readers give the same byte at every address. */
  ghost predicate SameReader(x: Reader, y: Reader) {
    forall a: nat :: x(a) == y(a)
  }

  lemma SameWord(x: Reader, y: Reader, a: nat)
    requires SameReader(x, y)
    ensures ReadWord(x, a) == ReadWord(y, a)
  {
  }

  lemma {:induction false} SameString(x: Reader, y: Reader, a: nat)
    requires SameReader(x, y)
    ensures ReadString(x, a) == ReadString(y, a)
    decreases WORD - a
  {
    if a < WORD && x(a).Some? && x(a).value != 0 {
      SameString(x, y, a + 1);
    }
  }

  lemma {:induction false} SameStrings(x: Reader, y: Reader, at: nat, n: nat)
    requires SameReader(x, y)
    ensures ReadStrings(x, at, n) == ReadStrings(y, at, n)
    decreases n
  {
    hide SameReader, ReadWord, ReadString;
    if n > 0 {
      SameStrings(x, y, at, n - 1);
      SameWord(x, y, at + 4 * (n - 1));
      if ReadWord(x, at + 4 * (n - 1)).Some? {
        SameString(x, y, ReadWord(x, at + 4 * (n - 1)).value);
      }
    }
  }

  lemma SameDecode(x: Reader, y: Reader, esp: nat)
    requires SameReader(x, y)
    ensures Decode(x, esp) == Decode(y, esp)
  {
    hide SameReader, ReadWord, ReadStrings;
    SameWord(x, y, esp);
    if ReadWord(x, esp).Some? {
      SameWord(x, y, esp + 4 + 4 * ReadWord(x, esp).value);
      SameStrings(x, y, esp + 4, ReadWord(x, esp).value);
    }
  }
}
