/** The boot loader: whole sectors are copied over memory, in program-header order, so every
    segment may spill over both of its ends. */
module Boot {
  import opened Machine

  const SECTSIZE: nat := 512
  const ELFHDR: nat := 0x10000
  const PAGE: nat := 4096
  const ELF_MAGIC: u32 := 0x464C_457F
  const PROGHDR_SIZE: nat := 32

  /** The disk, byte by byte; the kernel image starts at sector 1. */
  type Disk = nat -> u8

  function ImageByte(disk: Disk, k: nat): u8 {
    disk(SECTSIZE + k)
  }

  /** The part of a program header that the loader uses. */
  datatype Segment = Segment(pa: u32, memsz: u32, offset: u32) {
    function Start(): nat { pa - pa % SECTSIZE }

    /** The end that the loop compares with, a 32-bit sum. */
    function End(): u32 { (pa + memsz) % TWO_32 }

    /** The end of the last sector that is read. */
    function Limit(): nat { (End() + SECTSIZE - 1) / SECTSIZE * SECTSIZE }

    predicate Covers(a: int) { Start() <= a < Limit() }

    /** The addresses that the segment should occupy. */
    predicate Holds(a: int) { pa <= a < pa + memsz }
    predicate Wraps() { pa + memsz >= TWO_32 }

    /** How far image positions lie from addresses: as the header asks, and as sectors are read. */
    function Wanted(): int { offset - pa }
    function Loaded(): int { (offset - offset % SECTSIZE) - Start() }

    /** If anything is copied at all, it stays inside `n` bytes of memory, and the loop ends: its
        address does not wrap around to 0 before it has reached the end. */
    predicate Fits(n: nat) { Start() < End() ==> Limit() <= n && Limit() < TWO_32 }
  }

  // ----- What one segment and what a list of segments does to memory -----

  ghost function AfterSeg(m: seq<u8>, seg: Segment, disk: Disk): (m': seq<u8>)
    ensures |m'| == |m|
  {
    seq(|m|, a requires 0 <= a < |m| =>
      if seg.Covers(a) then ImageByte(disk, LoadedFrom(seg, a)) else m[a])
  }

  /** The image position whose byte ends up at a covered address. */
  function LoadedFrom(seg: Segment, a: int): nat
    requires seg.Covers(a)
  {
    a + seg.Loaded()
  }

  ghost function AfterAll(m: seq<u8>, segs: seq<Segment>, disk: Disk): (m': seq<u8>)
    ensures |m'| == |m|
  {
    if segs == [] then m
    else AfterSeg(AfterAll(m, segs[..|segs| - 1], disk), segs[|segs| - 1], disk)
  }

  /** The image position whose byte belongs at an address of the segment. */
  function NeededFrom(seg: Segment, a: int): nat
    requires seg.Holds(a)
  {
    a + seg.Wanted()
  }

  /** Every segment is in memory as the image has it. */
  ghost predicate Correct(m: seq<u8>, segs: seq<Segment>, disk: Disk) {
    forall i, a {:trigger segs[i].Holds(a)} ::
      0 <= i < |segs| && segs[i].Holds(a) ==> a < |m| && m[a] == ImageByte(disk, NeededFrom(segs[i], a))
  }

  /** An address holds the image byte that is as far from the segment's offset as the address is
      from its start. */
  ghost predicate HasImageByte(m: seq<u8>, seg: Segment, disk: Disk, a: nat)
    requires seg.pa <= a
  {
    a < |m| && m[a] == disk(512 + seg.offset + (a - seg.pa))
  }

  lemma CorrectIff(m: seq<u8>, segs: seq<Segment>, disk: Disk)
    ensures Correct(m, segs, disk) <==>
      forall i: int, a: nat :: 0 <= i < |segs| && segs[i].pa <= a < segs[i].pa + segs[i].memsz ==>
        HasImageByte(m, segs[i], disk, a)
  {
    if Correct(m, segs, disk) {
      forall i: int, a: nat | 0 <= i < |segs| && segs[i].pa <= a < segs[i].pa + segs[i].memsz
        ensures HasImageByte(m, segs[i], disk, a)
      {
        assert segs[i].Holds(a);
      }
    }
    if forall i: int, a: nat :: 0 <= i < |segs| && segs[i].pa <= a < segs[i].pa + segs[i].memsz ==>
        HasImageByte(m, segs[i], disk, a) {
      forall i, a {:trigger segs[i].Holds(a)} | 0 <= i < |segs| && segs[i].Holds(a)
        ensures a < |m| && m[a] == ImageByte(disk, NeededFrom(segs[i], a))
      {
        assert HasImageByte(m, segs[i], disk, a);
      }
    }
  }

  /** The loader copies exactly the sectors that contain an address between the sector boundary at or in
      front of the segment's start and its end, as a 32-bit sum. */
  lemma CoversSectors(seg: Segment, a: nat)
    ensures var end := (seg.pa + seg.memsz) % 0x1_0000_0000;
      seg.Covers(a) <==> exists b :: seg.pa - seg.pa % 512 <= b < end && b / 512 == a / 512
  {
    if seg.Covers(a) {
      var b := Max(a / 512 * 512, seg.Start());
      assert b / 512 == a / 512;
    }
  }

  /** The last segment whose sectors cover an address. */
  function LastWriter(segs: seq<Segment>, a: int): (j: int)
    ensures -1 <= j < |segs|
    ensures j >= 0 ==> segs[j].Covers(a)
    ensures forall k :: j < k < |segs| ==> !segs[k].Covers(a)
  {
    if segs == [] then -1
    else if segs[|segs| - 1].Covers(a) then |segs| - 1
    else LastWriter(segs[..|segs| - 1], a)
  }

  lemma {:induction false} LastWriterWins(m: seq<u8>, segs: seq<Segment>, disk: Disk, a: int)
    requires 0 <= a < |m|
    ensures var j := LastWriter(segs, a);
      AfterAll(m, segs, disk)[a] == if j < 0 then m[a] else ImageByte(disk, LoadedFrom(segs[j], a))
  {
    if segs != [] {
      LastWriterWins(m, segs[..|segs| - 1], disk, a);
    }
  }

  predicate AllFit(segs: seq<Segment>, n: nat) {
    forall i :: 0 <= i < |segs| ==> segs[i].Fits(n)
  }

  lemma WriterFits(segs: seq<Segment>, n: nat, a: int)
    requires AllFit(segs, n) && LastWriter(segs, a) >= 0
    ensures a < n
  {
    assert segs[LastWriter(segs, a)].Fits(n);
  }

  /** Whoever writes a byte of a segment last loads it with the displacement that the segment asks for. */
  predicate RightSource(segs: seq<Segment>, i: nat, a: int)
    requires i < |segs|
  {
    var j := LastWriter(segs, a);
    j >= 0 && segs[j].Loaded() == segs[i].Wanted()
  }

  /** A test on the program headers alone. */
  ghost predicate LayoutOk(segs: seq<Segment>) {
    forall i, a {:trigger segs[i].Holds(a)} :: 0 <= i < |segs| && segs[i].Holds(a) ==> RightSource(segs, i, a)
  }

  lemma LayoutOkSuffices(m: seq<u8>, segs: seq<Segment>, disk: Disk)
    requires AllFit(segs, |m|) && LayoutOk(segs)
    ensures Correct(AfterAll(m, segs, disk), segs, disk)
  {
    hide AfterAll, RightSource, AllFit, ImageByte;
    forall i, a {:trigger segs[i].Holds(a)} | 0 <= i < |segs| && segs[i].Holds(a)
      ensures a < |m| && AfterAll(m, segs, disk)[a] == ImageByte(disk, NeededFrom(segs[i], a))
    {
      RightSourceSuffices(m, segs, disk, i, a);
    }
  }

  lemma RightSourceSuffices(m: seq<u8>, segs: seq<Segment>, disk: Disk, i: nat, a: int)
    requires AllFit(segs, |m|) && i < |segs| && segs[i].Holds(a) && RightSource(segs, i, a)
    ensures a < |m| && AfterAll(m, segs, disk)[a] == ImageByte(disk, NeededFrom(segs[i], a))
  {
    hide AfterAll, LastWriter, AllFit, Segment.Covers, ImageByte;
    WriterFits(segs, |m|, a);
    LastWriterWins(m, segs, disk, a);
  }

  /** One wrong byte is enough. */
  lemma NotCorrect(m: seq<u8>, segs: seq<Segment>, disk: Disk, i: nat, a: int)
    requires i < |segs| && segs[i].Holds(a) && (a < |m| ==> m[a] != ImageByte(disk, NeededFrom(segs[i], a)))
    ensures !Correct(m, segs, disk)
  {
    hide ImageByte;
  }

  /** A disk that has another byte at one position of the image. */
  function Changed(disk: Disk, k: nat, was: u8): (d: Disk)
    ensures ImageByte(d, k) != was && forall n: nat :: n != k ==> ImageByte(d, n) == ImageByte(disk, n)
  {
    (b: nat) => if b == SECTSIZE + k then if was == 0 then 1 else 0 else disk(b)
  }

  /** A byte that does not come from where it should shows on some disk, which may agree with a
      given one everywhere but at the position that is needed. */
  lemma LayoutOkNecessary(m: seq<u8>, segs: seq<Segment>, disk: Disk, i: nat, a: int)
    requires i < |segs| && segs[i].Holds(a) && a < |m|
    requires !RightSource(segs, i, a)
    ensures var d := Changed(disk, NeededFrom(segs[i], a), AfterAll(m, segs, disk)[a]);
      !Correct(AfterAll(m, segs, d), segs, d)
  {
    hide Changed, AfterAll, LastWriter, Correct, Segment.Covers;
    var d := Changed(disk, NeededFrom(segs[i], a), AfterAll(m, segs, disk)[a]);
    LastWriterWins(m, segs, disk, a);
    LastWriterWins(m, segs, d, a);
    NotCorrect(AfterAll(m, segs, d), segs, d, i, a);
  }

  /** The loader gives the right memory for every disk content exactly when the layout test holds. */
  lemma LoadIsCorrectIff(m: seq<u8>, segs: seq<Segment>)
    requires AllFit(segs, |m|)
    ensures (forall disk: Disk :: Correct(AfterAll(m, segs, disk), segs, disk)) <==> LayoutOk(segs)
  {
    hide Correct, AfterAll, RightSource;
    if LayoutOk(segs) {
      forall disk: Disk ensures Correct(AfterAll(m, segs, disk), segs, disk) {
        LayoutOkSuffices(m, segs, disk);
      }
    } else {
      var i, a :| 0 <= i < |segs| && segs[i].Holds(a) && !RightSource(segs, i, a);
      var d := WrongSource(m, segs, i, a);
    }
  }

  lemma WrongSource(m: seq<u8>, segs: seq<Segment>, i: nat, a: int) returns (d: Disk)
    requires i < |segs| && segs[i].Holds(a) && !RightSource(segs, i, a)
    ensures !Correct(AfterAll(m, segs, d), segs, d)
  {
    hide Correct, AfterAll, RightSource;
    d := (b: nat) => 0;
    if a < |m| {
      LayoutOkNecessary(m, segs, d, i, a);
      d := Changed(d, NeededFrom(segs[i], a), AfterAll(m, segs, d)[a]);
    } else {
      NotCorrect(AfterAll(m, segs, d), segs, d, i, a);
    }
  }

  // ----- The same for the disks that carry given headers -----

  ghost predicate SameHeader(d: Disk, disk: Disk) {
    forall k: nat {:trigger ImageByte(d, k)} :: k < PAGE ==> ImageByte(d, k) == ImageByte(disk, k)
  }

  /** The byte at an address of a segment comes from where it should, or else it is fixed by the
      first page, which holds the headers, and happens to be the right one. */
  ghost predicate RightByte(m: seq<u8>, segs: seq<Segment>, disk: Disk, i: nat, a: int)
    requires i < |segs| && segs[i].Holds(a)
  {
    var j, p := LastWriter(segs, a), NeededFrom(segs[i], a);
    a < |m| &&
    if j < 0 then p < PAGE && m[a] == ImageByte(disk, p)
    else
      var q := LoadedFrom(segs[j], a);
      p == q || (p < PAGE && q < PAGE && ImageByte(disk, p) == ImageByte(disk, q))
  }

  ghost predicate HeaderLayoutOk(m: seq<u8>, segs: seq<Segment>, disk: Disk) {
    forall i, a {:trigger segs[i].Holds(a)} ::
      0 <= i < |segs| && segs[i].Holds(a) ==> RightByte(m, segs, disk, i, a)
  }

  lemma RightBytes(m: seq<u8>, segs: seq<Segment>, disk: Disk, d: Disk)
    requires SameHeader(d, disk)
    requires HeaderLayoutOk(m, segs, disk)
    ensures Correct(AfterAll(m, segs, d), segs, d)
  {
    forall i, a {:trigger segs[i].Holds(a)} | 0 <= i < |segs| && segs[i].Holds(a)
      ensures a < |m| && AfterAll(m, segs, d)[a] == ImageByte(d, NeededFrom(segs[i], a))
    {
      assert RightByte(m, segs, disk, i, a);
      LastWriterWins(m, segs, d, a);
    }
  }

  lemma WrongByte(m: seq<u8>, segs: seq<Segment>, disk: Disk, i: nat, a: int) returns (d: Disk)
    requires i < |segs| && segs[i].Holds(a) && !RightByte(m, segs, disk, i, a)
    ensures SameHeader(d, disk) && !Correct(AfterAll(m, segs, d), segs, d)
  {
    hide Changed, AfterAll, LastWriter, Correct, AllFit, Segment.Covers;
    var j, p := LastWriter(segs, a), NeededFrom(segs[i], a);
    d := disk;
    if a >= |m| {
    } else if p >= PAGE {
      d := Changed(disk, p, AfterAll(m, segs, disk)[a]);
      LastWriterWins(m, segs, disk, a);
    } else if j >= 0 && LoadedFrom(segs[j], a) >= PAGE {
      d := Changed(disk, LoadedFrom(segs[j], a), ImageByte(disk, p));
    }
    if a < |m| {
      LastWriterWins(m, segs, d, a);
    }
    NotCorrect(AfterAll(m, segs, d), segs, d, i, a);
  }

  /** The exact condition when the first page of the image is given. */
  lemma LoadIsCorrectIffByHeader(m: seq<u8>, segs: seq<Segment>, disk: Disk)
    ensures (forall d: Disk :: SameHeader(d, disk) ==> Correct(AfterAll(m, segs, d), segs, d))
      <==> HeaderLayoutOk(m, segs, disk)
  {
    if HeaderLayoutOk(m, segs, disk) {
      forall d: Disk | SameHeader(d, disk) ensures Correct(AfterAll(m, segs, d), segs, d) {
        RightBytes(m, segs, disk, d);
      }
    } else {
      var i, a :| 0 <= i < |segs| && segs[i].Holds(a) && !RightByte(m, segs, disk, i, a);
      var d := WrongByte(m, segs, disk, i, a);
    }
  }

  lemma HoldsIsCovered(seg: Segment, a: int)
    requires seg.Holds(a) && !seg.Wraps()
    ensures seg.Covers(a)
  {
  }

  /** What "we load in increasing order" needs: each segment ends at or before the sector in which
      a later one starts, and address and offset agree modulo the sector size. */
  ghost predicate Increasing(segs: seq<Segment>) {
    && (forall i :: 0 <= i < |segs| ==> segs[i].pa % SECTSIZE == segs[i].offset % SECTSIZE && !segs[i].Wraps())
    && (forall i, j :: 0 <= i < j < |segs| ==> segs[i].End() <= segs[j].Start())
  }

  lemma IncreasingIsOk(segs: seq<Segment>)
    requires Increasing(segs)
    ensures LayoutOk(segs)
  {
    hide Increasing, RightSource, Segment.Holds;
    forall i, a {:trigger segs[i].Holds(a)} | 0 <= i < |segs| && segs[i].Holds(a) ensures RightSource(segs, i, a) {
      OwnWriter(segs, i, a);
    }
  }

  /** Of increasing segments, each is the last to write its own addresses. */
  lemma OwnWriter(segs: seq<Segment>, i: nat, a: int)
    requires Increasing(segs) && i < |segs| && segs[i].Holds(a)
    ensures LastWriter(segs, a) == i && RightSource(segs, i, a)
  {
    hide LastWriter, Segment.Limit;
    SameResidue(segs[i]);
    HoldsIsCovered(segs[i], a);
  }

  lemma SameResidue(seg: Segment)
    requires seg.pa % SECTSIZE == seg.offset % SECTSIZE
    ensures seg.Loaded() == seg.Wanted()
  {
  }

  /** Overlapping loads are harmless in any order when all segments share one displacement. */
  lemma SharedDisplacementIsOk(segs: seq<Segment>)
    requires forall i :: 0 <= i < |segs| ==> segs[i].pa % SECTSIZE == segs[i].offset % SECTSIZE && !segs[i].Wraps()
    requires forall i, j :: 0 <= i < |segs| && 0 <= j < |segs| ==> segs[i].Wanted() == segs[j].Wanted()
    ensures LayoutOk(segs)
  {
    hide LastWriter, Segment.Loaded, Segment.Wanted, Segment.Limit;
    forall i, a {:trigger segs[i].Holds(a)} | 0 <= i < |segs| && segs[i].Holds(a) ensures RightSource(segs, i, a) {
      HoldsIsCovered(segs[i], a);
      SameResidue(segs[LastWriter(segs, a)]);
    }
  }

  // ----- The code -----

  method Readsect(mem: array<u8>, dst: nat, sector: nat, disk: Disk)
    requires dst + SECTSIZE <= mem.Length
    modifies mem
    ensures forall a {:trigger mem[a]} :: 0 <= a < mem.Length ==>
      mem[a] == if dst <= a < dst + SECTSIZE then disk(sector * SECTSIZE + (a - dst)) else old(mem[a])
  {
    ghost var was := mem[..];
    for k := 0 to SECTSIZE
      invariant forall a {:trigger mem[a]} :: 0 <= a < mem.Length ==>
        mem[a] == if dst <= a < dst + k then disk(sector * SECTSIZE + (a - dst)) else was[a]
    {
      mem[dst + k] := disk(sector * SECTSIZE + k);
    }
  }

  method Readseg(mem: array<u8>, pa0: u32, count: u32, offset0: u32, disk: Disk)
    requires Segment(pa0, count, offset0).Fits(mem.Length)
    modifies mem
    ensures mem[..] == AfterSeg(old(mem[..]), Segment(pa0, count, offset0), disk)
  {
    ghost var seg := Segment(pa0, count, offset0);
    ghost var was := mem[..];
    var endPa := (pa0 + count) % TWO_32;
    var pa := pa0 - pa0 % SECTSIZE;
    var offset := offset0 / SECTSIZE + 1;
    while pa < endPa
      invariant pa % SECTSIZE == 0 && seg.Start() <= pa <= Max(seg.Start(), seg.Limit())
      invariant offset * SECTSIZE == pa + seg.Loaded() + SECTSIZE && 0 <= offset
      invariant forall a {:trigger mem[a]} :: 0 <= a < mem.Length ==>
        mem[a] == if seg.Start() <= a < pa then ImageByte(disk, a + seg.Loaded()) else was[a]
      decreases endPa - pa
    {
      SectorFits(pa, offset, seg);
      Readsect(mem, pa, offset, disk);
      pa := (pa + SECTSIZE) % TWO_32;
      offset := (offset + 1) % TWO_32;
    }
    SectorsDone(pa, seg);
    assert mem[..] == AfterSeg(was, seg, disk);
  }

  lemma SectorFits(pa: nat, offset: nat, seg: Segment)
    requires pa % SECTSIZE == 0 && seg.Start() <= pa < seg.End() && seg.Fits(TWO_32)
    requires offset * SECTSIZE == pa + seg.Loaded() + SECTSIZE
    ensures pa + SECTSIZE <= seg.Limit() && (pa + SECTSIZE) % SECTSIZE == 0
    ensures (pa + SECTSIZE) % TWO_32 == pa + SECTSIZE && (offset + 1) % TWO_32 == offset + 1
  {
    RoundedUp(pa, seg.End());
    hide Segment.End, Segment.Limit;
    assert offset * SECTSIZE <= seg.offset + pa - seg.Start() + SECTSIZE;
  }

  lemma RoundedUp(pa: nat, end: nat)
    requires pa % SECTSIZE == 0 && pa < end
    ensures pa + SECTSIZE <= (end + SECTSIZE - 1) / SECTSIZE * SECTSIZE && (pa + SECTSIZE) % SECTSIZE == 0
  {
  }

  lemma SectorsDone(pa: nat, seg: Segment)
    requires pa % SECTSIZE == 0 && seg.Start() <= pa <= Max(seg.Start(), seg.Limit()) && pa >= seg.End()
    ensures forall a :: seg.Covers(a) <==> seg.Start() <= a < pa
  {
  }

  function LittleEndian(b0: u8, b1: u8, b2: u8, b3: u8): u32 {
    b0 + TWO_8 * b1 + TWO_16 * b2 + 0x100_0000 * b3
  }

  method Read32(mem: array<u8>, a: nat) returns (w: u32)
    requires a + 4 <= mem.Length
    ensures w == LittleEndian(mem[a], mem[a + 1], mem[a + 2], mem[a + 3])
  {
    w := LittleEndian(mem[a], mem[a + 1], mem[a + 2], mem[a + 3]);
  }

  // ----- The ELF header and the program headers, as the image has them -----

  function ImageWord(disk: Disk, k: nat): u32 {
    LittleEndian(ImageByte(disk, k), ImageByte(disk, k + 1), ImageByte(disk, k + 2), ImageByte(disk, k + 3))
  }

  function Magic(disk: Disk): u32 { ImageWord(disk, 0) }
  function Entry(disk: Disk): u32 { ImageWord(disk, 24) }
  function PhOff(disk: Disk): u32 { ImageWord(disk, 28) }
  function PhNum(disk: Disk): u16 { ImageByte(disk, 44) + TWO_8 * ImageByte(disk, 45) }

  function SegmentAt(disk: Disk, i: nat): Segment {
    var ph := PhOff(disk) + PROGHDR_SIZE * i;
    Segment(ImageWord(disk, ph + 12), ImageWord(disk, ph + 20), ImageWord(disk, ph + 4))
  }

  function Segments(disk: Disk, n: nat): (segs: seq<Segment>)
    ensures |segs| == n
    ensures forall i :: 0 <= i < n ==> segs[i] == SegmentAt(disk, i)
  {
    seq(n, i requires 0 <= i < n => SegmentAt(disk, i))
  }

  // ----- The headers, as the ELF format lays them out -----

  /** An integer of `n` bytes, lowest byte first. */
  function Bytes(w: nat, n: nat): (b: seq<u8>)
    ensures |b| == n
  {
    if n == 0 then [] else [w % 256] + Bytes(w / 256, n - 1)
  }

  /** `struct Elf`. */
  datatype Elf = Elf(magic: u32, ident: seq<u8>, type_: u16, machine: u16, version: u32, entry: u32, phoff: u32,
                     shoff: u32, flags: u32, ehsize: u16, phentsize: u16, phnum: u16, shentsize: u16, shnum: u16,
                     shstrndx: u16)

  function ElfBytes(e: Elf): seq<u8> {
    Bytes(e.magic, 4) + (e.ident + (Bytes(e.type_, 2) + (Bytes(e.machine, 2) + (Bytes(e.version, 4)
    + (Bytes(e.entry, 4) + (Bytes(e.phoff, 4) + (Bytes(e.shoff, 4) + (Bytes(e.flags, 4)
    + (Bytes(e.ehsize, 2) + (Bytes(e.phentsize, 2) + (Bytes(e.phnum, 2)
    + (Bytes(e.shentsize, 2) + (Bytes(e.shnum, 2) + Bytes(e.shstrndx, 2))))))))))))))
  }

  /** `struct Proghdr`. */
  datatype Proghdr = Proghdr(type_: u32, offset: u32, va: u32, pa: u32, filesz: u32, memsz: u32, flags: u32, align: u32)

  function ProghdrBytes(ph: Proghdr): seq<u8> {
    Bytes(ph.type_, 4) + (Bytes(ph.offset, 4) + (Bytes(ph.va, 4) + (Bytes(ph.pa, 4)
    + (Bytes(ph.filesz, 4) + (Bytes(ph.memsz, 4) + (Bytes(ph.flags, 4) + Bytes(ph.align, 4)))))))
  }

  /** Position `k` of the kernel image, which starts in sector 1, holds these bytes. */
  ghost predicate OnDisk(disk: Disk, k: nat, b: seq<u8>) {
    forall j :: 0 <= j < |b| ==> disk(512 + k + j) == b[j]
  }

  lemma OnDiskParts(disk: Disk, k: nat, x: seq<u8>, y: seq<u8>)
    requires OnDisk(disk, k, x + y)
    ensures OnDisk(disk, k, x) && OnDisk(disk, k + |x|, y)
  {
    assert forall j :: 0 <= j < |x| ==> (x + y)[j] == x[j];
    forall j | 0 <= j < |y| ensures disk(512 + k + |x| + j) == y[j] {
      assert disk(512 + k + (|x| + j)) == (x + y)[|x| + j] == y[j];
    }
  }

  lemma WordOnDisk(disk: Disk, k: nat, w: u32)
    requires OnDisk(disk, k, Bytes(w, 4))
    ensures ImageWord(disk, k) == w
  {
    var b, q1, q2, q3 := Bytes(w, 4), w / 256, w / 256 / 256, w / 256 / 256 / 256;
    assert Bytes(q2, 2) == [q2 % 256] + ([q3 % 256] + []);
    assert Bytes(q1, 3) == [q1 % 256] + Bytes(q2, 2);
    assert b == [w % 256] + Bytes(q1, 3);
    assert disk(512 + k) == b[0] && disk(512 + k + 1) == b[1] && disk(512 + k + 2) == b[2] && disk(512 + k + 3) == b[3];
    assert q3 < 256 && w == 256 * q1 + w % 256 && q1 == 256 * q2 + q1 % 256 && q2 == 256 * q3 + q2 % 256;
  }

  lemma HalfOnDisk(disk: Disk, k: nat, w: u16)
    requires OnDisk(disk, k, Bytes(w, 2))
    ensures ImageByte(disk, k) + TWO_8 * ImageByte(disk, k + 1) == w
  {
    var b, q := Bytes(w, 2), w / 256;
    assert Bytes(q, 1) == [q % 256] + [];
    assert b == [w % 256] + Bytes(q, 1);
    assert disk(512 + k) == b[0] && disk(512 + k + 1) == b[1];
  }

  /** The magic number is "\x7FELF". */
  lemma MagicIff(disk: Disk)
    ensures Magic(disk) == ELF_MAGIC
      <==> disk(512) == 0x7F && disk(513) == 'E' as int && disk(514) == 'L' as int && disk(515) == 'F' as int
  {
  }

  /** The loader finds the fields of the ELF header where the format has them. */
  lemma HeaderFields(disk: Disk, e: Elf)
    requires |e.ident| == 12 && OnDisk(disk, 0, ElfBytes(e))
    ensures Magic(disk) == e.magic && Entry(disk) == e.entry && PhOff(disk) == e.phoff && PhNum(disk) == e.phnum
  {
    hide OnDisk, Bytes, ImageWord, ImageByte;
    var h := Bytes(e.shentsize, 2) + (Bytes(e.shnum, 2) + Bytes(e.shstrndx, 2));
    var g := Bytes(e.ehsize, 2) + (Bytes(e.phentsize, 2) + (Bytes(e.phnum, 2) + h));
    var f := Bytes(e.shoff, 4) + (Bytes(e.flags, 4) + g);
    var d := Bytes(e.entry, 4) + (Bytes(e.phoff, 4) + f);
    var c := Bytes(e.type_, 2) + (Bytes(e.machine, 2) + (Bytes(e.version, 4) + d));
    OnDiskParts(disk, 0, Bytes(e.magic, 4), e.ident + c);
    OnDiskParts(disk, 4, e.ident, c);
    OnDiskParts(disk, 16, Bytes(e.type_, 2), Bytes(e.machine, 2) + (Bytes(e.version, 4) + d));
    OnDiskParts(disk, 18, Bytes(e.machine, 2), Bytes(e.version, 4) + d);
    OnDiskParts(disk, 20, Bytes(e.version, 4), d);
    OnDiskParts(disk, 24, Bytes(e.entry, 4), Bytes(e.phoff, 4) + f);
    OnDiskParts(disk, 28, Bytes(e.phoff, 4), f);
    OnDiskParts(disk, 32, Bytes(e.shoff, 4), Bytes(e.flags, 4) + g);
    OnDiskParts(disk, 36, Bytes(e.flags, 4), g);
    OnDiskParts(disk, 40, Bytes(e.ehsize, 2), Bytes(e.phentsize, 2) + (Bytes(e.phnum, 2) + h));
    OnDiskParts(disk, 42, Bytes(e.phentsize, 2), Bytes(e.phnum, 2) + h);
    OnDiskParts(disk, 44, Bytes(e.phnum, 2), h);
    WordOnDisk(disk, 0, e.magic);
    WordOnDisk(disk, 24, e.entry);
    WordOnDisk(disk, 28, e.phoff);
    HalfOnDisk(disk, 44, e.phnum);
  }

  /** And those of each program header. */
  lemma ProgramHeaderFields(disk: Disk, i: nat, ph: Proghdr)
    requires OnDisk(disk, PhOff(disk) + 32 * i, ProghdrBytes(ph))
    ensures SegmentAt(disk, i) == Segment(ph.pa, ph.memsz, ph.offset)
  {
    hide OnDisk, Bytes, ImageWord, PhOff;
    var k := PhOff(disk) + 32 * i;
    var f := Bytes(ph.memsz, 4) + (Bytes(ph.flags, 4) + Bytes(ph.align, 4));
    var d := Bytes(ph.pa, 4) + (Bytes(ph.filesz, 4) + f);
    OnDiskParts(disk, k, Bytes(ph.type_, 4), Bytes(ph.offset, 4) + (Bytes(ph.va, 4) + d));
    OnDiskParts(disk, k + 4, Bytes(ph.offset, 4), Bytes(ph.va, 4) + d);
    OnDiskParts(disk, k + 8, Bytes(ph.va, 4), d);
    OnDiskParts(disk, k + 12, Bytes(ph.pa, 4), Bytes(ph.filesz, 4) + f);
    OnDiskParts(disk, k + 16, Bytes(ph.filesz, 4), f);
    OnDiskParts(disk, k + 20, Bytes(ph.memsz, 4), Bytes(ph.flags, 4) + Bytes(ph.align, 4));
    WordOnDisk(disk, k + 4, ph.offset);
    WordOnDisk(disk, k + 12, ph.pa);
    WordOnDisk(disk, k + 20, ph.memsz);
  }

  /** The first page of the image, which the loader keeps at ELFHDR. */
  const HEADER_PAGE: Segment := Segment(ELFHDR, PAGE, 0)

  /** The program headers lie in the first page, and no load leaves memory or touches that page. */
  ghost predicate Bootable(disk: Disk, memSize: nat) {
    && PhOff(disk) + PROGHDR_SIZE * PhNum(disk) <= PAGE
    && forall i :: 0 <= i < PhNum(disk) ==>
      var seg := SegmentAt(disk, i);
      seg.Fits(memSize) && (seg.Start() < seg.End() ==> seg.Limit() <= ELFHDR || ELFHDR + PAGE <= seg.Start())
  }

  /** What is in memory at the jump. */
  ghost function Booted(m: seq<u8>, disk: Disk): seq<u8> {
    AfterAll(AfterSeg(m, HEADER_PAGE, disk), Segments(disk, PhNum(disk)), disk)
  }

  /** `Wild`: a load or a header read leaves the memory of the model, or a load does not end. */
  datatype Outcome = Jump(entry: u32) | BadMagic | Wild

  ghost predicate HeaderInPlace(m: seq<u8>, disk: Disk) {
    && ELFHDR + PAGE <= |m|
    && forall k {:trigger ImageByte(disk, k)} :: 0 <= k < PAGE ==> m[ELFHDR + k] == ImageByte(disk, k)
  }

  lemma HeaderPageFits(n: nat)
    requires ELFHDR + PAGE <= n
    ensures HEADER_PAGE.Start() == ELFHDR && HEADER_PAGE.Limit() == ELFHDR + PAGE && HEADER_PAGE.Fits(n)
  {
  }

  lemma HeaderIsLoaded(m: seq<u8>, disk: Disk)
    requires ELFHDR + PAGE <= |m|
    ensures HeaderInPlace(AfterSeg(m, HEADER_PAGE, disk), disk)
  {
    HeaderPageFits(|m|);
    forall k | 0 <= k < PAGE ensures AfterSeg(m, HEADER_PAGE, disk)[ELFHDR + k] == ImageByte(disk, k) {
      assert LoadedFrom(HEADER_PAGE, ELFHDR + k) == k;
    }
  }

  lemma HeaderStays(m: seq<u8>, seg: Segment, disk: Disk)
    requires HeaderInPlace(m, disk)
    requires seg.Start() < seg.End() ==> seg.Limit() <= ELFHDR || ELFHDR + PAGE <= seg.Start()
    ensures HeaderInPlace(AfterSeg(m, seg, disk), disk)
  {
  }

  lemma AfterOneMore(m: seq<u8>, disk: Disk, i: nat)
    ensures AfterAll(m, Segments(disk, i + 1), disk)
         == AfterSeg(AfterAll(m, Segments(disk, i), disk), SegmentAt(disk, i), disk)
  {
    hide AfterSeg;
    var segs := Segments(disk, i + 1);
    assert segs[..|segs| - 1] == Segments(disk, i);
    assert segs[|segs| - 1] == SegmentAt(disk, i);
  }

  lemma BootedIsCorrect(m: seq<u8>, disk: Disk)
    requires Bootable(disk, |m|)
    ensures var segs := Segments(disk, PhNum(disk)); LayoutOk(segs) ==> Correct(Booted(m, disk), segs, disk)
  {
    hide LayoutOk, Correct, AfterSeg, AfterAll, Segment.Fits, PhNum;
    if LayoutOk(Segments(disk, PhNum(disk))) {
      LayoutOkSuffices(AfterSeg(m, HEADER_PAGE, disk), Segments(disk, PhNum(disk)), disk);
    }
  }

  method Bootmain(mem: array<u8>, disk: Disk) returns (outcome: Outcome)
    requires ELFHDR + PAGE <= mem.Length <= TWO_32
    modifies mem
    ensures outcome == BadMagic <==> Magic(disk) != ELF_MAGIC
    ensures Magic(disk) == ELF_MAGIC && Bootable(disk, mem.Length) ==>
      && outcome == Jump(Entry(disk))
      && mem[..] == Booted(old(mem[..]), disk)
      && (LayoutOk(Segments(disk, PhNum(disk))) ==> Correct(mem[..], Segments(disk, PhNum(disk)), disk))
  {
    hide LayoutOk, Correct, Bootable, Segments, Segment.Fits, AfterSeg, AfterAll, HeaderInPlace, ImageWord;
    if Bootable(disk, mem.Length) {
      BootedIsCorrect(mem[..], disk);
    }
    HeaderPageFits(mem.Length);
    Readseg(mem, ELFHDR, SECTSIZE * 8, 0, disk);
    HeaderIsLoaded(old(mem[..]), disk);
    var magic := HeaderWord(mem, 0, disk, true);
    if magic != ELF_MAGIC {
      return BadMagic;
    }
    var phoff := HeaderWord(mem, 28, disk, true);
    var phnum := HeaderHalf(mem, 44, disk);
    var loaded := LoadSegments(mem, phoff, phnum, disk);
    if !loaded {
      return Wild;
    }
    var entry := HeaderWord(mem, 24, disk, Bootable(disk, mem.Length));
    return Jump(entry);
  }

  /** The loop over the program headers, which are read from memory as the loads go on. */
  method LoadSegments(mem: array<u8>, phoff: u32, phnum: u16, disk: Disk) returns (loaded: bool)
    requires ELFHDR + PAGE <= mem.Length && HeaderInPlace(mem[..], disk) && phoff == PhOff(disk) && phnum == PhNum(disk)
    modifies mem
    ensures Bootable(disk, mem.Length) ==>
      loaded && HeaderInPlace(mem[..], disk) && mem[..] == AfterAll(old(mem[..]), Segments(disk, phnum), disk)
  {
    hide ImageWord, PhOff, PhNum, AfterSeg, AfterAll, HeaderInPlace, Segments;
    ghost var ok, first := Bootable(disk, mem.Length), mem[..];
    NothingLoaded(first, disk);
    var i := 0;
    while i < phnum
      invariant 0 <= i <= phnum
      invariant ok ==> HeaderInPlace(mem[..], disk) && mem[..] == AfterAll(first, Segments(disk, i), disk)
    {
      var ph := phoff + PROGHDR_SIZE * i;
      if ELFHDR + ph + PROGHDR_SIZE > mem.Length {
        return false;
      }
      var offset := HeaderWord(mem, ph + 4, disk, ok);
      var pa := HeaderWord(mem, ph + 12, disk, ok);
      var memsz := HeaderWord(mem, ph + 20, disk, ok);
      assert ok ==> Segment(pa, memsz, offset) == SegmentAt(disk, i);
      if !Segment(pa, memsz, offset).Fits(mem.Length) {
        return false;
      }
      if ok {
        HeaderStays(mem[..], SegmentAt(disk, i), disk);
        AfterOneMore(first, disk, i);
      }
      Readseg(mem, pa, memsz, offset, disk);
      i := i + 1;
    }
    return true;
  }

  lemma NothingLoaded(m: seq<u8>, disk: Disk)
    ensures AfterAll(m, Segments(disk, 0), disk) == m
  {
  }

  /** A word of the page at ELFHDR, or of the memory behind it. */
  method HeaderWord(mem: array<u8>, k: nat, disk: Disk, ghost inPlace: bool) returns (w: u32)
    requires ELFHDR + k + 4 <= mem.Length
    requires inPlace ==> k + 4 <= PAGE && HeaderInPlace(mem[..], disk)
    ensures inPlace ==> w == ImageWord(disk, k)
  {
    w := Read32(mem, ELFHDR + k);
    assert inPlace ==> forall j :: k <= j < k + 4 ==> mem[ELFHDR + j] == ImageByte(disk, j);
  }

  method HeaderHalf(mem: array<u8>, k: nat, disk: Disk) returns (w: u16)
    requires k + 2 <= PAGE && ELFHDR + PAGE <= mem.Length && HeaderInPlace(mem[..], disk)
    ensures w == ImageByte(disk, k) + TWO_8 * ImageByte(disk, k + 1)
  {
    assert ImageByte(disk, k) == mem[ELFHDR + k] && ImageByte(disk, k + 1) == mem[ELFHDR + k + 1];
    w := mem[ELFHDR + k] + TWO_8 * mem[ELFHDR + k + 1];
  }

  /** At the jump every segment holds its image bytes, for every disk and every initial memory,
      when the headers describe segments in increasing order. */
  lemma BootImageCorrect(m: seq<u8>, disk: Disk)
    requires ELFHDR + PAGE <= |m| && Bootable(disk, |m|) && Increasing(Segments(disk, PhNum(disk)))
    ensures Correct(Booted(m, disk), Segments(disk, PhNum(disk)), disk)
  {
    hide LayoutOk, Correct, Bootable, Increasing, Booted;
    IncreasingIsOk(Segments(disk, PhNum(disk)));
    BootedIsCorrect(m, disk);
  }

  lemma SameSegments(d: Disk, disk: Disk, n: nat)
    requires SameHeader(d, disk) && Bootable(disk, n)
    ensures PhNum(d) == PhNum(disk) && Segments(d, PhNum(d)) == Segments(disk, PhNum(disk))
  {
    hide ImageWord, Segment.Fits, Segment.Start, Segment.End, Segment.Limit;
    SameWord(d, disk, 28);
    assert PhNum(d) == PhNum(disk);
    forall i | 0 <= i < PhNum(disk) ensures SegmentAt(d, i) == SegmentAt(disk, i) {
      var ph := PhOff(disk) + PROGHDR_SIZE * i;
      SameWord(d, disk, ph + 4);
      SameWord(d, disk, ph + 12);
      SameWord(d, disk, ph + 20);
    }
  }

  lemma SameWord(d: Disk, disk: Disk, k: nat)
    requires SameHeader(d, disk) && k + 4 <= PAGE
    ensures ImageWord(d, k) == ImageWord(disk, k)
  {
  }

  lemma SamePage(m: seq<u8>, d: Disk, disk: Disk)
    requires SameHeader(d, disk)
    ensures AfterSeg(m, HEADER_PAGE, d) == AfterSeg(m, HEADER_PAGE, disk)
  {
    var x, y := AfterSeg(m, HEADER_PAGE, d), AfterSeg(m, HEADER_PAGE, disk);
    forall a | 0 <= a < |m| ensures x[a] == y[a] {
      if HEADER_PAGE.Covers(a) {
        assert LoadedFrom(HEADER_PAGE, a) == a - ELFHDR < PAGE;
      }
    }
  }

  /** For a bootable disk: whatever else an image with the same first page holds, all its segments
      are right at the jump, if and only if every byte passes the test on that page. */
  lemma BootIsCorrectIff(m: seq<u8>, disk: Disk)
    requires ELFHDR + PAGE <= |m| && Bootable(disk, |m|)
    ensures var segs, first := Segments(disk, PhNum(disk)), AfterSeg(m, HEADER_PAGE, disk);
      (forall d: Disk :: SameHeader(d, disk) ==> Correct(Booted(m, d), Segments(d, PhNum(d)), d))
      <==> HeaderLayoutOk(first, segs, disk)
  {
    hide SameHeader, Correct, HeaderLayoutOk, AfterAll, AfterSeg, PhNum;
    var segs, first := Segments(disk, PhNum(disk)), AfterSeg(m, HEADER_PAGE, disk);
    LoadIsCorrectIffByHeader(first, segs, disk);
    forall d: Disk | SameHeader(d, disk)
      ensures Segments(d, PhNum(d)) == segs && AfterSeg(m, HEADER_PAGE, d) == first
    {
      SameSegments(d, disk, |m|);
      SamePage(m, d, disk);
    }
  }
}
