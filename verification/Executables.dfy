/** Executable files as Elf32_Ehdr and Elf32_Phdr lay them out (TIS ELF Specification 1.2, Book I), and what the
    loader reads from them. */
module Executables {
  import opened Words
  import opened Options
  import opened Paging
  import opened Bytes
  import opened UserMemory
  import opened Elf
  import opened Process

  type Half16 = h: int | 0 <= h < 0x1_0000 witness 0

  type Ident = b: seq<Byte> | |b| == 16 witness seq(16, _ => 0)

  /** `Elf32_Ehdr`, field by field. */
  datatype Header = Header(ident: Ident, kind: Half16, machine: Half16, version: Word32, entry: Word32, phoff: Word32,
                           shoff: Word32, flags: Word32, ehsize: Half16, phentsize: Half16, phnum: Half16,
                           shentsize: Half16, shnum: Half16, shstrndx: Half16)

  /** `Elf32_Phdr`, field by field. */
  datatype ProgramHeader = ProgramHeader(kind: Word32, offset: Word32, vaddr: Word32, paddr: Word32, filesz: Word32,
                                         memsz: Word32, flags: Word32, align: Word32)

  /** Two and four bytes, least significant first. */
  function Le16(n: Half16): (bs: seq<Byte>)
    ensures |bs| == 2
  {
    [n % 0x100, n / 0x100]
  }

  function Le32(n: Word32): (bs: seq<Byte>)
    ensures |bs| == 4
  {
    [n % 0x100, n / 0x100 % 0x100, n / 0x1_0000 % 0x100, n / 0x100_0000]
  }

  function HeaderStart(h: Header): (bs: seq<Byte>)
    ensures |bs| == 24
  {
    h.ident + Le16(h.kind) + Le16(h.machine) + Le32(h.version)
  }

  function HeaderEnd(h: Header): (bs: seq<Byte>)
    ensures |bs| == 12
  {
    Le16(h.ehsize) + Le16(h.phentsize) + Le16(h.phnum) + Le16(h.shentsize) + Le16(h.shnum) + Le16(h.shstrndx)
  }

  /** The 52 bytes of the header. */
  function HeaderBytes(h: Header): (bs: seq<Byte>)
    ensures |bs| == 52
  {
    HeaderStart(h) + Le32(h.entry) + Le32(h.phoff) + Le32(h.shoff) + Le32(h.flags) + HeaderEnd(h)
  }

  /** The 32 bytes of a program header. */
  function ProgramBytes(p: ProgramHeader): (bs: seq<Byte>)
    ensures |bs| == 32
  {
    Le32(p.kind) + Le32(p.offset) + Le32(p.vaddr) + Le32(p.paddr) +
    (Le32(p.filesz) + Le32(p.memsz) + Le32(p.flags) + Le32(p.align))
  }

  function TableBytes(ps: seq<ProgramHeader>): (bs: seq<Byte>)
    ensures |bs| == 32 * |ps|
  {
    if ps == [] then [] else TableBytes(ps[..|ps| - 1]) + ProgramBytes(ps[|ps| - 1])
  }

  /** A file with these headers: anything between the header and the program headers, anything behind them. */
  function File(h: Header, gap: seq<Byte>, ps: seq<ProgramHeader>, rest: seq<Byte>): (file: seq<Byte>)
    ensures |file| == 52 + |gap| + 32 * |ps| + |rest|
  {
    HeaderBytes(h) + gap + TableBytes(ps) + rest
  }

  /** The header says where the program headers are, and how many. */
  predicate Fitting(h: Header, gap: seq<Byte>, ps: seq<ProgramHeader>) {
    h.phoff == 52 + |gap| && h.phnum == |ps|
  }

  // ----- reading a field back -----

  lemma FirstByte(b: Byte, bs: seq<Byte>)
    ensures FromBytes([b] + bs) == b + 0x100 * FromBytes(bs)
  {
    assert ([b] + bs)[1..] == bs;
  }

  lemma Le16Reads(n: Half16)
    ensures FromBytes(Le16(n)) == n
  {
    hide FromBytes;
    var a, b: Byte := n % 0x100, n / 0x100;
    NoBytes();
    FirstByte(b, []);
    FirstByte(a, [b]);
    assert [b] + [] == [b] && [a] + [b] == Le16(n);
  }

  lemma NoBytes()
    ensures FromBytes([]) == 0
  {
  }

  lemma Le32Reads(n: Word32)
    ensures FromBytes(Le32(n)) == n
  {
    hide FromBytes;
    var a, b, c, d: Byte := n % 0x100, n / 0x100 % 0x100, n / 0x1_0000 % 0x100, n / 0x100_0000;
    NoBytes();
    FirstByte(d, []);
    FirstByte(c, [d]);
    FirstByte(b, [c, d]);
    FirstByte(a, [b, c, d]);
    assert [d] + [] == [d] && [c] + [d] == [c, d] && [b] + [c, d] == [b, c, d] && [a] + [b, c, d] == Le32(n);
    FourBytes(n);
  }

  lemma FourBytes(n: Word32)
    ensures n % 0x100 + 0x100 * (n / 0x100 % 0x100 + 0x100 * (n / 0x1_0000 % 0x100 + 0x100 * (n / 0x100_0000))) == n
  {
    assert n / 0x1_0000 == n / 0x100 / 0x100 && n / 0x100_0000 == n / 0x1_0000 / 0x100;
  }

  /** A part of a row of bytes. */
  lemma PartReads(bs: seq<Byte>, a: seq<Byte>, part: seq<Byte>, z: seq<Byte>)
    requires bs == a + part + z
    ensures |a| + |part| <= |bs| && bs[|a|..|a| + |part|] == part
  {
  }

  lemma WordReads(file: seq<Byte>, a: seq<Byte>, n: Word32, z: seq<Byte>)
    requires file == a + Le32(n) + z
    ensures |a| + 4 <= |file| && Word(file, |a|) == n
  {
    PartReads(file, a, Le32(n), z);
    Le32Reads(n);
  }

  lemma HeaderWords(h: Header, file: seq<Byte>, more: seq<Byte>)
    requires file == HeaderBytes(h) + more
    ensures Word(file, 24) == h.entry && Word(file, 28) == h.phoff
  {
    hide Le32, Le16, HeaderStart, HeaderEnd;
    var a := HeaderStart(h);
    var z := Le32(h.shoff) + Le32(h.flags) + HeaderEnd(h) + more;
    assert file == a + Le32(h.entry) + (Le32(h.phoff) + z);
    WordReads(file, a, h.entry, Le32(h.phoff) + z);
    assert file == a + Le32(h.entry) + Le32(h.phoff) + z;
    WordReads(file, a + Le32(h.entry), h.phoff, z);
  }

  lemma PartOfPart(bs: seq<Byte>, part: seq<Byte>, at: nat, k: nat, n: nat)
    requires at + |part| <= |bs| && bs[at..at + |part|] == part && k + n <= |part|
    ensures bs[at + k..at + k + n] == part[k..k + n]
  {
    var piece, same := bs[at + k..at + k + n], part[k..k + n];
    forall i | 0 <= i < n
      ensures piece[i] == same[i]
    {
      assert bs[at..at + |part|][k + i] == bs[at + k + i];
    }
  }

  lemma StartHolds(h: Header)
    ensures HeaderStart(h)[..16] == h.ident && HeaderStart(h)[16..18] == Le16(h.kind)
    ensures HeaderStart(h)[18..20] == Le16(h.machine)
  {
    hide Le16, Le32;
  }

  lemma EndHolds(h: Header)
    ensures HeaderEnd(h)[4..6] == Le16(h.phnum)
  {
    hide Le16;
  }

  lemma HeaderHalves(h: Header, file: seq<Byte>, more: seq<Byte>)
    requires file == HeaderBytes(h) + more
    ensures Half(file, 16) == h.kind && Half(file, 18) == h.machine && Half(file, 44) == h.phnum
    ensures file[..16] == h.ident
  {
    hide Le32, Le16, HeaderStart, HeaderEnd, FromBytes;
    var start, end := HeaderStart(h), HeaderEnd(h);
    assert file[0..24] == start && file[40..52] == end;
    StartHolds(h);
    EndHolds(h);
    PartOfPart(file, start, 0, 0, 16);
    PartOfPart(file, start, 0, 16, 2);
    PartOfPart(file, start, 0, 18, 2);
    PartOfPart(file, end, 40, 4, 2);
    Le16Reads(h.kind);
    Le16Reads(h.machine);
    Le16Reads(h.phnum);
  }

  // ----- the program headers -----

  /** Where program header `i` starts. */
  lemma {:induction false} TableSplits(ps: seq<ProgramHeader>, i: nat) returns (a: seq<Byte>, z: seq<Byte>)
    requires i < |ps|
    ensures |a| == 32 * i && TableBytes(ps) == a + ProgramBytes(ps[i]) + z
  {
    hide ProgramBytes;
    var before := ps[..|ps| - 1];
    if i == |ps| - 1 {
      a, z := TableBytes(before), [];
      assert TableBytes(ps) == a + ProgramBytes(ps[i]) + z;
    } else {
      var y;
      a, y := TableSplits(before, i);
      z := y + ProgramBytes(ps[|ps| - 1]);
      assert TableBytes(ps) == a + ProgramBytes(ps[i]) + z;
    }
  }

  lemma ProgramWords(file: seq<Byte>, a: seq<Byte>, p: ProgramHeader, z: seq<Byte>)
    requires file == a + ProgramBytes(p) + z
    ensures |a| + 32 <= |file|
    ensures Word(file, |a|) == p.kind && Word(file, |a| + 4) == p.offset && Word(file, |a| + 8) == p.vaddr
  {
    hide Le32;
    var end := Le32(p.filesz) + Le32(p.memsz) + Le32(p.flags) + Le32(p.align);
    var y := Le32(p.paddr) + end + z;
    assert file == a + Le32(p.kind) + (Le32(p.offset) + Le32(p.vaddr) + y);
    WordReads(file, a, p.kind, Le32(p.offset) + Le32(p.vaddr) + y);
    assert file == (a + Le32(p.kind)) + Le32(p.offset) + (Le32(p.vaddr) + y);
    WordReads(file, a + Le32(p.kind), p.offset, Le32(p.vaddr) + y);
    assert file == (a + Le32(p.kind) + Le32(p.offset)) + Le32(p.vaddr) + y;
    WordReads(file, a + Le32(p.kind) + Le32(p.offset), p.vaddr, y);
  }

  lemma ProgramSizes(file: seq<Byte>, a: seq<Byte>, p: ProgramHeader, z: seq<Byte>)
    requires file == a + ProgramBytes(p) + z
    ensures |a| + 32 <= |file|
    ensures Word(file, |a| + 16) == p.filesz && Word(file, |a| + 20) == p.memsz
  {
    hide Le32;
    var start := a + Le32(p.kind) + Le32(p.offset) + Le32(p.vaddr) + Le32(p.paddr);
    var y := Le32(p.flags) + Le32(p.align) + z;
    assert file == start + Le32(p.filesz) + (Le32(p.memsz) + y);
    WordReads(file, start, p.filesz, Le32(p.memsz) + y);
    assert file == (start + Le32(p.filesz)) + Le32(p.memsz) + y;
    WordReads(file, start + Le32(p.filesz), p.memsz, y);
  }

  // ----- what the loader reads -----

  /** The loader takes the file exactly when its identification, type and machine say: ELF, 32-bit, least
      significant byte first, executable, 80386. */
  lemma AcceptedExactly(h: Header, gap: seq<Byte>, ps: seq<ProgramHeader>, rest: seq<Byte>)
    ensures Accepted(File(h, gap, ps, rest)) <==>
            h.ident[..6] == [0x7F, 'E' as int, 'L' as int, 'F' as int, 1, 1] && h.kind == 2 && h.machine == 3
  {
    hide HeaderBytes, TableBytes;
    var file := File(h, gap, ps, rest);
    assert file == HeaderBytes(h) + (gap + TableBytes(ps) + rest);
    HeaderHalves(h, file, gap + TableBytes(ps) + rest);
  }

  /** No process is made of a file it does not take, nor of one without an entry point; no other is refused. */
  lemma RefusedExactly(h: Header, gap: seq<Byte>, ps: seq<ProgramHeader>, rest: seq<Byte>)
    ensures Refused(File(h, gap, ps, rest)) <==>
            h.ident[..6] != [0x7F, 'E' as int, 'L' as int, 'F' as int, 1, 1] || h.kind != 2 || h.machine != 3 ||
            h.entry == 0
  {
    hide HeaderBytes, TableBytes, Accepted;
    var file := File(h, gap, ps, rest);
    AcceptedExactly(h, gap, ps, rest);
    assert file == HeaderBytes(h) + (gap + TableBytes(ps) + rest);
    HeaderWords(h, file, gap + TableBytes(ps) + rest);
  }

  /** It reads the entry point, the place and the number of the program headers, and of each the five fields it
      uses. */
  lemma FileReads(h: Header, gap: seq<Byte>, ps: seq<ProgramHeader>, rest: seq<Byte>)
    requires Fitting(h, gap, ps)
    ensures var file := File(h, gap, ps, rest);
            && EntryPoint(file) == h.entry && HeaderCount(file) == |ps| && TableInFile(file)
            && |Segments(file)| == |ps|
            && forall i: nat :: i < |ps| ==> Segments(file)[i] == SegmentOf(ps[i])
  {
    hide HeaderBytes, TableBytes, File;
    var file := File(h, gap, ps, rest);
    HeaderReads(h, gap, ps, rest);
    forall i: nat | i < |ps|
      ensures Segments(file)[i] == SegmentOf(ps[i])
    {
      SegmentReads(h, gap, ps, rest, i);
    }
  }

  /** What a segment is to the loader: the physical address, the flags and the alignment are not looked at. */
  function SegmentOf(p: ProgramHeader): Segment {
    Segment(p.kind, p.offset, p.vaddr, p.filesz, p.memsz)
  }

  lemma HeaderReads(h: Header, gap: seq<Byte>, ps: seq<ProgramHeader>, rest: seq<Byte>)
    requires Fitting(h, gap, ps)
    ensures var file := File(h, gap, ps, rest);
            EntryPoint(file) == h.entry && HeaderCount(file) == |ps| && Word(file, 28) == h.phoff && TableInFile(file)
  {
    hide HeaderBytes, TableBytes;
    var file := File(h, gap, ps, rest);
    var more := gap + TableBytes(ps) + rest;
    assert file == HeaderBytes(h) + more;
    HeaderHalves(h, file, more);
    HeaderWords(h, file, more);
  }

  lemma SegmentReads(h: Header, gap: seq<Byte>, ps: seq<ProgramHeader>, rest: seq<Byte>, i: nat)
    requires Fitting(h, gap, ps) && i < |ps|
    ensures var file := File(h, gap, ps, rest);
            TableInFile(file) && Word(file, 28) + 32 * (i + 1) <= |file| && SegmentAt(file, i) == SegmentOf(ps[i])
  {
    hide HeaderBytes, TableBytes, ProgramBytes;
    var file := File(h, gap, ps, rest);
    HeaderReads(h, gap, ps, rest);
    var a, z := TableSplits(ps, i);
    var start, end := HeaderBytes(h) + gap + a, z + rest;
    assert file == start + ProgramBytes(ps[i]) + end;
    ProgramWords(file, start, ps[i], end);
    ProgramSizes(file, start, ps[i], end);
  }

  // ----- loading and starting it -----

  /** Program header `i` asks for `k` more bytes than its address, on a page no later one asks for. */
  ghost predicate Asked(ps: seq<ProgramHeader>, gs: seq<Segment>, i: nat, k: nat) {
    i < |ps| == |gs| && ps[i].kind == 1 && k < ps[i].memsz && !CoveredLater(gs, |gs|, i, PageOf(gs[i], k))
  }

  /** After the file has been loaded a program reads, at each header's address, the file's bytes from its offset
      on, then zeros. */
  lemma ProgramIsLoaded(s: Sys, t: Sys, h: Header, gap: seq<Byte>, ps: seq<ProgramHeader>, rest: seq<Byte>,
                        i: nat, k: nat)
    requires Fitting(h, gap, ps)
    requires var file := File(h, gap, ps, rest);
             TableInFile(file) && WellPlaced(file, Segments(file)) &&
             Loaded(s, t, file, Segments(file), |ps|) && Asked(ps, Segments(file), i, k)
    ensures var file, p := File(h, gap, ps, rest), ps[i];
            && p.offset + p.filesz <= |file| && p.vaddr + k < WORD
            && UserByteAt(t.mem, t.pd, p.vaddr + k) == Some(if k < p.filesz then file[p.offset + k] else 0)
  {
    hide File, WellPlaced, Loaded, CoveredLater;
    var file := File(h, gap, ps, rest);
    FileReads(h, gap, ps, rest);
    ImageByte(s, t, file, Segments(file), i, k);
  }

  /** A process made of the file starts where its header says. */
  lemma StartsAtEntry(s: Sys, t: Sys, h: Header, gap: seq<Byte>, ps: seq<ProgramHeader>, rest: seq<Byte>,
                      argv: seq<seq<Byte>>, r: NewProcess)
    requires Fitting(h, gap, ps) && ProcessBuilt(s, t, File(h, gap, ps, rest), argv, r)
    ensures r.Built? && r.stack < |t.mem| && PopUser(t.mem[r.stack], 1010).eip == h.entry != 0
    ensures r.block < |t.mem| && t.mem[r.block][8] == h.entry
  {
    hide File, ImageReady;
    FileReads(h, gap, ps, rest);
    StartsTheProgram(t.mem[r.stack], r.entry, r.esp);
  }
}
