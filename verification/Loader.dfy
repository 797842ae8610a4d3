/** Loading an ELF segment (lib/elfloader.c) through load_icode_mapper (kern/env.c). */
module Loader {
  import opened Bits
  import opened Outcomes
  import opened Mmu
  import opened PageTable
  import opened Sv39
  import opened UserMemory
  import opened Vm

  /** Byte `i` of a page. */
  function PageByte(pg: Page, i: nat): Byte
    requires i / 8 < |pg|
  {
    ByteOf(pg[i / 8], i % 8)
  }

  function StoreByte(pg: Page, i: nat, b: Byte): (pg': Page)
    requires |pg| == ENTRIES && i < PAGE_SIZE
    ensures |pg'| == ENTRIES
  {
    SetByteRange(pg[i / 8], i % 8, b, 8);
    assert Pow256(8) == WORD_LIMIT;
    var w: Word := SetByte(pg[i / 8], i % 8, b);
    pg[i / 8 := w]
  }

  lemma StoreByteRead(pg: Page, i: nat, b: Byte, j: nat)
    requires |pg| == ENTRIES && i < PAGE_SIZE && j < PAGE_SIZE
    ensures PageByte(StoreByte(pg, i, b), j) == if j == i then b else PageByte(pg, j)
  {
    if j / 8 == i / 8 { SetByteRead(pg[i / 8], i % 8, b, j % 8); }
  }

  /** `pg` is `was` with `src` written from byte `offset` on. */
  ghost predicate Written(was: Page, pg: Page, offset: nat, src: seq<Byte>) {
    && |was| == ENTRIES && |pg| == ENTRIES && offset + |src| <= PAGE_SIZE
    && forall j :: 0 <= j < PAGE_SIZE ==>
         PageByte(pg, j) == if offset <= j < offset + |src| then src[j - offset] else PageByte(was, j)
  }

  lemma WrittenStep(was: Page, pg: Page, offset: nat, src: seq<Byte>, b: Byte)
    requires Written(was, pg, offset, src) && offset + |src| < PAGE_SIZE
    ensures Written(was, StoreByte(pg, offset + |src|, b), offset, src + [b])
  {
    var pg', src' := StoreByte(pg, offset + |src|, b), src + [b];
    forall j | 0 <= j < PAGE_SIZE
      ensures PageByte(pg', j) == if offset <= j < offset + |src'| then src'[j - offset] else PageByte(was, j)
    {
      StoreByteRead(pg, offset + |src|, b, j);
    }
  }

  lemma DataWrite(s: State, p: nat, pg: Page)
    requires Inv(s) && p in s.kind && s.kind[p].Data? && |pg| == ENTRIES
    ensures Inv(s.(mem := s.mem[p := pg])) && KeepsMaps(s, s.(mem := s.mem[p := pg]))
  {
    var b := s.(mem := s.mem[p := pg]);
    RetireKeepsLinks(s, b, p);
    assert FreeList(b) by { FreeListFrame(s, b); }
    hide Linked, Owned, FreeList;
    forall r, n | Reach(s, r, n) ensures Reach(b, r, n) && Trans(b.mem, r, n) == Trans(s.mem, r, n) {
      DataWriteFrame(s, p, pg, r, n);
    }
  }

  lemma DataWriteFrame(s: State, p: nat, pg: Page, r: nat, n: nat)
    requires Inv(s) && p in s.kind && s.kind[p].Data? && Reach(s, r, n)
    ensures Trans(s.mem[p := pg], r, n) == Trans(s.mem, r, n)
  {
    TransFrame(s, s.(mem := s.mem[p := pg]), r, n);
  }

  /** memcpy into a held page; its effect on bytes is that of the byte-by-byte loop. */
  method CopyIn(k: Kernel, pa: Word, offset: nat, src: seq<Byte>)
    requires Inv(k.View()) && pa in k.kind && k.kind[pa].Data? && offset + |src| <= PAGE_SIZE
    modifies k
    ensures Inv(k.View()) && KeepsMaps(old(k.View()), k.View())
    ensures pa in k.mem && k.View() == old(k.View()).(mem := old(k.mem)[pa := k.mem[pa]])
    ensures pa in old(k.mem) && Written(old(k.mem)[pa], k.mem[pa], offset, src)
  {
    ghost var s := k.View();
    assert pa in s.mem && |s.mem[pa]| == ENTRIES;
    hide Inv, KeepsMaps, PageByte, StoreByte;
    DataWrite(s, pa, s.mem[pa]);
    assert s.mem[pa := s.mem[pa]] == s.mem;
    assert src[..0] == [];
    var i := 0;
    while i < |src|
      invariant i <= |src| && pa in k.mem
      invariant k.View() == s.(mem := s.mem[pa := k.mem[pa]])
      invariant Inv(k.View()) && KeepsMaps(s, k.View())
      invariant Written(s.mem[pa], k.mem[pa], offset, src[..i])
    {
      WrittenStep(s.mem[pa], k.mem[pa], offset, src[..i], src[i]);
      assert src[..i + 1] == src[..i] + [src[i]];
      ghost var pg := StoreByte(k.mem[pa], offset + i, src[i]);
      k.mem := k.mem[pa := StoreByte(k.mem[pa], offset + i, src[i])];
      assert s.mem[pa := pg] == k.mem;
      DataWrite(s, pa, pg);
      i := i + 1;
    }
    assert src[..|src|] == src;
  }

  /** The physical page a mapping needs, and the tables: never more than 5 pages. */
  const MAP_COST: nat := 5

  lemma OnePageRange(va: Word)
    requires va < KERNBASE_VA
    ensures var n := va / PAGE_SIZE;
            && LastPage(va, PAGE_SIZE) == (if va % PAGE_SIZE == 0 then n else n + 1)
            && Spread(n, LastPage(va, PAGE_SIZE)) <= 4 && LastPage(va, PAGE_SIZE) < NPAGES
  {
  }

  /**
   * load_icode_mapper: a fresh page holding `src` at `offset` and zeros elsewhere is mapped at
   * `va`. The range handed to mappages is one page long and starts at `va` unrounded, so an
   * unaligned `va` also maps the following virtual page, to the following physical page.
   */
  method LoadIcodeMapper(k: Kernel, root: nat, va: Word, offset: nat, perm: nat, src: seq<Byte>)
      returns (r: Outcome<int>, ghost t: State, ghost p: Word, ghost pg: Page)
    requires Inv(k.View()) && perm < 1024 && offset + |src| <= PAGE_SIZE && va < KERNBASE_VA
    requires Open(k.View(), root, va / PAGE_SIZE, LastPage(va, PAGE_SIZE))
    requires k.frees != []
    modifies k
    ensures r.Returned? ==> Inv(k.View()) && (r.value == 0 || (r.value == -1 && |old(k.frees)| < MAP_COST))
    ensures r.Panicked? ==>
              r.why == Remap && exists n: nat :: va / PAGE_SIZE <= n <= LastPage(va, PAGE_SIZE) && Trans(old(k.mem), root, n).Some?
    ensures r == Returned(0) ==>
              && Took(old(k.View()), t, p, pg) && Written(Zeros(), pg, offset, src)
              && Extended(t, k.View(), root)
              && Mapped(t, k.View(), root, va / PAGE_SIZE, LastPage(va, PAGE_SIZE) + 1 - va / PAGE_SIZE, p, perm)
              && |k.frees| + MAP_COST >= |old(k.frees)|
  {
    hide Wf, CutsAtRoots, NoStrays, Reach, Trans, KeepsMaps, KeepsData, Mapped, Extended, Written, Spread, LastPage;
    ghost var s := k.View();
    OnePageRange(va);
    TakenTook(s);
    var pa := k.Kalloc();
    CopyIn(k, pa, offset, src);
    t, p, pg := k.View(), pa, k.mem[pa];
    TookWritten(s, t, p, pg);
    StillOpen(s, t, root, va / PAGE_SIZE, LastPage(va, PAGE_SIZE));
    ghost var j;
    r, j := k.Mappages(root, va, PAGE_SIZE, pa, perm);
  }

  lemma TookWritten(s: State, t: State, p: nat, pg: Page)
    requires s.frees != [] && p == s.frees[0] && Took(s, Taken(s), p, Zeros())
    requires t == Taken(s).(mem := Taken(s).mem[p := pg]) && KeepsMaps(Taken(s), t)
    ensures Took(s, t, p, pg)
  {
    hide Reach, Trans;
  }

  lemma StillOpen(s: State, t: State, root: nat, lo: nat, hi: nat)
    requires Open(s, root, lo, hi) && lo <= hi < NPAGES && KeepsMaps(s, t)
    ensures Open(t, root, lo, hi)
    ensures forall n: nat :: lo <= n <= hi ==> Trans(t.mem, root, n) == Trans(s.mem, root, n)
  {
    assert Reach(s, root, lo);
  }

  // ----- elf_load_seg ----------------------------------------------------------------------

  /** The fields of a program header that loading uses; `writable` is PF_W. */
  datatype Phdr = Phdr(vaddr: Word, filesz: nat, memsz: nat, writable: bool)

  function Min(x: nat, y: nat): nat { if x <= y then x else y }

  /** PTE_V | PTE_R | PTE_X | PTE_U, and PTE_W for a writable segment */
  function SegPerm(ph: Phdr): (perm: nat)
    ensures perm < 1024 && SetBit0(perm) == perm && HasU(perm) && HasX(perm) && (HasW(perm) <==> ph.writable)
  {
    PTE_V + PTE_R + PTE_X + PTE_U + (if ph.writable then PTE_W else 0)
  }

  /** The bits of that permission: V, R, X and U, and W exactly for a writable segment. */
  function SegBits(ph: Phdr): set<nat> { {V_BIT, R_BIT, X_BIT, U_BIT} + (if ph.writable then {W_BIT} else {}) }

  lemma SegPermBits(ph: Phdr)
    ensures BitsAre(SegPerm(ph), SegBits(ph))
  {
    hide BitsAre;
    MaskBits(true, ph.writable, true, true);
    assert MaskSet(true, ph.writable, true, true) == SegBits(ph);
  }

  /** The processor reaches every page of an aligned segment that was loaded. */
  lemma LoadedHw(a: State, s: State, root: nat, ph: Phdr, bin: seq<Byte>, pages: seq<nat>, data: seq<Page>)
    requires ph.filesz <= |bin| && Inv(s) && LoadedSoFar(a, s, root, ph, bin, pages, data)
    ensures forall j :: 0 <= j < |pages| ==> HwMaps(s.mem, root, SegStart(ph) + j, pages[j], SegBits(ph))
  {
    hide Inv, Backed, HwMaps, Holds, BitsAre, SegPerm;
    SegPermBits(ph);
    BackedHw(a, s, root, SegStart(ph), pages, data, SegPerm(ph), SegBits(ph));
  }

  /** And the two pages around the boundary of an unaligned one. */
  lemma LoadedUnalignedHw(a: State, s: State, root: nat, ph: Phdr, bin: seq<Byte>, p: Word, pg: Page)
    requires Loadable(a, root, ph) && SegOffset(ph) != 0 && ph.filesz <= |bin|
    requires Inv(s) && LoadedUnaligned(a, s, root, ph, bin, p, pg)
    ensures IsPage(p)
    ensures HwMaps(s.mem, root, SegStart(ph), p, SegBits(ph))
    ensures HwMaps(s.mem, root, SegStart(ph) + 1, p + PAGE_SIZE, SegBits(ph))
  {
    hide Inv, Trans, Reach, HwMaps, Written, BitsAre, SegPerm, SegBits, PaAt;
    assert Reach(a, root, SegStart(ph)) && Reach(a, root, SegStart(ph) + 1);
    InvPage(s, p);
    SegBitsRead(ph);
    SegPermBits(ph);
    FlatIsHw(s, root, SegStart(ph), p, SegPerm(ph), SegBits(ph));
    FlatIsHw(s, root, SegStart(ph) + 1, p + PAGE_SIZE, SegPerm(ph), SegBits(ph));
  }

  lemma InvPage(s: State, p: Word)
    requires Inv(s) && p in s.mem
    ensures IsPage(p) && PaAt(p, 1) == p + PAGE_SIZE
  {
    hide Linked, Owned, FreeList;
  }

  lemma SegBitsRead(ph: Phdr)
    ensures R_BIT in SegBits(ph)
  {
  }

  /** Bytes covered: memory size, or file size should that be larger. */
  function SegSize(ph: Phdr): nat { if ph.filesz <= ph.memsz then ph.memsz else ph.filesz }

  function SegPages(ph: Phdr): nat { (SegSize(ph) + PAGE_SIZE - 1) / PAGE_SIZE }

  function SegStart(ph: Phdr): nat { ph.vaddr / PAGE_SIZE }

  /** The offset of an unaligned segment in its first page. */
  function SegOffset(ph: Phdr): nat { ph.vaddr % PAGE_SIZE }

  /** Bytes that the first call of the mapper takes when the segment is unaligned. */
  function FirstPart(ph: Phdr): nat { Min(ph.filesz, PAGE_SIZE - SegOffset(ph)) }

  /** Page `pg` holds page `j` of the segment image: file bytes, then zeros. */
  ghost predicate Holds(pg: Page, j: nat, bin: seq<Byte>, filesz: nat)
    requires filesz <= |bin|
  {
    && |pg| == ENTRIES
    && forall x :: 0 <= x < PAGE_SIZE ==>
         PageByte(pg, x) == if j * PAGE_SIZE + x < filesz then bin[j * PAGE_SIZE + x] else 0
  }

  /** What is copied when `i` bytes of the segment have been dealt with. */
  function Chunk(bin: seq<Byte>, filesz: nat, i: nat): seq<Byte>
    requires filesz <= |bin|
  {
    if i < filesz then bin[i..i + Min(filesz - i, PAGE_SIZE)] else []
  }

  lemma ChunkHolds(pg: Page, j: nat, bin: seq<Byte>, filesz: nat)
    requires filesz <= |bin| && Written(Zeros(), pg, 0, Chunk(bin, filesz, j * PAGE_SIZE))
    ensures Holds(pg, j, bin, filesz)
  {
    forall x | 0 <= x < PAGE_SIZE
      ensures PageByte(pg, x) == if j * PAGE_SIZE + x < filesz then bin[j * PAGE_SIZE + x] else 0
    {
      ZeroByte(x % 8);
      assert PageByte(Zeros(), x) == 0;
    }
  }

  /** None of the pages is mapped. */
  ghost predicate Vacant(s: State, root: nat, lo: nat, count: nat) {
    forall n: nat :: lo <= n < lo + count ==> Trans(s.mem, root, n) == None
  }

  /** The pages that calls of the mapper touch: two for an unaligned segment, whatever its size. */
  function Touched(ph: Phdr): nat { if SegOffset(ph) == 0 then SegPages(ph) else 2 }

  /** The pages a segment needs are user pages of `root`. */
  ghost predicate Loadable(s: State, root: nat, ph: Phdr) {
    && ph.vaddr + SegSize(ph) <= KERNBASE_VA && IsRoot(s, root)
    && forall n: nat :: SegStart(ph) <= n < SegStart(ph) + Touched(ph) ==> Reach(s, root, n)
  }

  /** The pages of an aligned segment loaded so far hold the segment image. */
  ghost predicate LoadedSoFar(a: State, s: State, root: nat, ph: Phdr, bin: seq<Byte>, pages: seq<nat>, data: seq<Page>)
    requires ph.filesz <= |bin|
  {
    && Backed(a, s, root, SegStart(ph), pages, data, SegPerm(ph))
    && forall j :: 0 <= j < |data| ==> Holds(data[j], j, bin, ph.filesz)
  }

  /** After the first call for an unaligned segment, both pages around the boundary are mapped. */
  ghost predicate Straddled(s: State, root: nat, ph: Phdr) {
    && Open(s, root, SegStart(ph), SegStart(ph) + 1)
    && Trans(s.mem, root, SegStart(ph)).Some? && Trans(s.mem, root, SegStart(ph) + 1).Some?
  }

  lemma AlignedStep(a: State, s: State, t: State, w: State, root: nat, ph: Phdr, bin: seq<Byte>,
                    pages: seq<nat>, data: seq<Page>, p: Word, pg: Page)
    requires ph.filesz <= |bin| && LoadedSoFar(a, s, root, ph, bin, pages, data)
    requires Reach(a, root, SegStart(ph) + |pages|)
    requires Took(s, t, p, pg) && Written(Zeros(), pg, 0, Chunk(bin, ph.filesz, |pages| * PAGE_SIZE))
    requires Extended(t, w, root) && Mapped(t, w, root, SegStart(ph) + |pages|, 1, p, SegPerm(ph))
    ensures LoadedSoFar(a, w, root, ph, bin, pages + [p], data + [pg])
  {
    hide BackedMaps, Took, Extended, Mapped, Reach, Holds;
    BackStep(a, s, t, w, root, SegStart(ph), pages, data, p, pg, SegPerm(ph), SegPerm(ph));
    assert |data| == |pages|;
    ChunkHolds(pg, |pages|, bin, ph.filesz);
  }

  lemma ChunkVa(a: State, root: nat, ph: Phdr, i: nat)
    requires Loadable(a, root, ph) && i < SegSize(ph)
    ensures ph.vaddr + i < KERNBASE_VA < WORD_LIMIT
  {
  }

  /** Where the next call maps: a free page if aligned, a page already mapped if not. */
  lemma ChunkPlace(a: State, s: State, root: nat, ph: Phdr, bin: seq<Byte>, i: nat, pages: seq<nat>, data: seq<Page>, va: Word)
    requires Loadable(a, root, ph) && ph.filesz <= |bin| && i < SegSize(ph) && va == ph.vaddr + i
    requires SegOffset(ph) == 0 ==> i == |pages| * PAGE_SIZE && LoadedSoFar(a, s, root, ph, bin, pages, data)
    requires SegOffset(ph) != 0 ==> i == FirstPart(ph) && Straddled(s, root, ph)
    ensures va < KERNBASE_VA && Open(s, root, va / PAGE_SIZE, LastPage(va, PAGE_SIZE))
    ensures SegOffset(ph) == 0 ==>
              && va / PAGE_SIZE == LastPage(va, PAGE_SIZE) == SegStart(ph) + |pages|
              && Reach(a, root, va / PAGE_SIZE) && Trans(s.mem, root, va / PAGE_SIZE) == Trans(a.mem, root, va / PAGE_SIZE)
              && |Chunk(bin, ph.filesz, i)| <= PAGE_SIZE
    ensures SegOffset(ph) != 0 ==> Reach(s, root, va / PAGE_SIZE) && Trans(s.mem, root, va / PAGE_SIZE).Some?
  {
    hide Trans, BackedPages;
    OnePageRange(va);
    var n := va / PAGE_SIZE;
    if SegOffset(ph) == 0 {
      KeepsMapsSelf(s);
      assert Reach(a, root, n);
      BackAt(a, s, s, root, SegStart(ph), pages, data, SegPerm(ph));
    } else {
      assert n == SegStart(ph) || n == SegStart(ph) + 1;
      assert Reach(s, root, SegStart(ph)) && Reach(s, root, SegStart(ph) + 1);
    }
  }

  /** The loop body of both loops: the next page of an aligned segment is loaded; an unaligned one panics. */
  method MapChunk(k: Kernel, root: nat, ph: Phdr, i: nat, bin: seq<Byte>, src: seq<Byte>,
                  ghost a: State, ghost pages: seq<nat>, ghost data: seq<Page>)
      returns (r: Outcome<int>, ghost pages': seq<nat>, ghost data': seq<Page>)
    requires Inv(k.View()) && Loadable(a, root, ph) && ph.filesz <= |bin| && i < SegSize(ph)
    requires SegOffset(ph) == 0 ==>
               && i == |pages| * PAGE_SIZE && src == Chunk(bin, ph.filesz, i)
               && LoadedSoFar(a, k.View(), root, ph, bin, pages, data)
    requires SegOffset(ph) != 0 ==> i == FirstPart(ph) && |src| <= PAGE_SIZE && Straddled(k.View(), root, ph)
    requires |k.frees| >= MAP_COST
    modifies k
    ensures SegOffset(ph) == 0 ==>
              if Trans(a.mem, root, SegStart(ph) + |pages|).Some? then r == Panicked(Remap)
              else
                && r == Returned(0) && Inv(k.View()) && |pages'| == |pages| + 1
                && LoadedSoFar(a, k.View(), root, ph, bin, pages', data')
                && |k.frees| + MAP_COST >= |old(k.frees)|
    ensures SegOffset(ph) != 0 ==> r == Panicked(Remap)
    ensures r != Returned(0) ==> pages' == pages && data' == data
  {
    pages', data' := pages, data;
    hide Inv, LoadedSoFar, Loadable, Straddled, Reach, Trans, Took, Extended, Written, LastPage, Spread, Mapped,
         Open, Chunk, SegPerm, SegSize, FirstPart, SegOffset, SegStart, Zeros;
    ghost var s := k.View();
    ChunkVa(a, root, ph, i);
    var va: Word := ph.vaddr + i;
    ghost var n := va / PAGE_SIZE;
    ChunkPlace(a, s, root, ph, bin, i, pages, data, va);
    ghost var hi := LastPage(va, PAGE_SIZE);
    ghost var t, p, pg;
    r, t, p, pg := LoadIcodeMapper(k, root, va, 0, SegPerm(ph), src);
    if r.Returned? {
      PageReached(s, root, n, hi);
      MappedWasFree(s, t, k.View(), root, n, hi + 1 - n, p, pg, SegPerm(ph));
      if SegOffset(ph) == 0 {
        AlignedStep(a, s, t, k.View(), root, ph, bin, pages, data, p, pg);
        pages', data' := pages + [p], data + [pg];
      }
    }
  }

  lemma PageReached(s: State, root: nat, n: nat, hi: nat)
    requires Open(s, root, n, hi) && n <= hi && n < NPAGES
    ensures Reach(s, root, n)
  {
  }

  /** mappages never succeeds over a page that was mapped. */
  lemma MappedWasFree(s: State, t: State, w: State, root: nat, n: nat, cnt: nat, p: Word, pg: Page, perm: nat)
    requires Took(s, t, p, pg) && Reach(s, root, n) && Mapped(t, w, root, n, cnt, p, perm) && cnt > 0
    ensures Trans(s.mem, root, n) == None
  {
    hide Trans, Reach;
  }

  lemma LoadStart(a: State, root: nat, ph: Phdr, bin: seq<Byte>)
    requires ph.filesz <= |bin|
    ensures LoadedSoFar(a, a, root, ph, bin, [], [])
  {
    BackNothing(a, root, SegStart(ph), SegPerm(ph));
  }

  /** The first call for an unaligned segment leaves both pages around the boundary mapped. */
  lemma FirstCall(a: State, t: State, w: State, root: nat, ph: Phdr, p: Word, pg: Page)
    requires Loadable(a, root, ph) && SegOffset(ph) != 0 && Took(a, t, p, pg) && Extended(t, w, root)
    requires Mapped(t, w, root, SegStart(ph), LastPage(ph.vaddr, PAGE_SIZE) + 1 - SegStart(ph), p, SegPerm(ph))
    ensures LastPage(ph.vaddr, PAGE_SIZE) == SegStart(ph) + 1 && Straddled(w, root, ph) && Vacant(a, root, SegStart(ph), 2)
    ensures Trans(w.mem, root, SegStart(ph)) == Some(Mapping(p, SegPerm(ph)))
    ensures Trans(w.mem, root, SegStart(ph) + 1) == Some(Mapping(PaAt(p, 1), SegPerm(ph)))
  {
    hide Trans, Mapped, Extended, KeepsMaps, Reach, KeepsData;
    OnePageRange(ph.vaddr);
    var lo := SegStart(ph);
    assert Reach(a, root, lo) && Reach(a, root, lo + 1);
    TwoMapped(a, t, w, root, lo, p, SegPerm(ph));
    TwoWereFree(a, t, w, root, lo, p, pg, SegPerm(ph));
  }

  lemma TwoWereFree(a: State, t: State, w: State, root: nat, lo: nat, p: Word, pg: Page, perm: nat)
    requires Reach(a, root, lo) && Reach(a, root, lo + 1) && Took(a, t, p, pg) && Mapped(t, w, root, lo, 2, p, perm)
    ensures Vacant(a, root, lo, 2)
  {
    hide Trans, KeepsData;
  }

  lemma TwoMapped(a: State, t: State, w: State, root: nat, lo: nat, p: Word, perm: nat)
    requires Reach(a, root, lo) && Reach(a, root, lo + 1) && KeepsMaps(a, t) && p % PAGE_SIZE == 0
    requires Extended(t, w, root) && Mapped(t, w, root, lo, 2, p, perm)
    ensures Open(w, root, lo, lo + 1)
    ensures Trans(w.mem, root, lo) == Some(Mapping(p, SetBit0(perm)))
    ensures Trans(w.mem, root, lo + 1) == Some(Mapping(PaAt(p, 1), SetBit0(perm)))
  {
    hide Trans, KeepsData;
    assert Reach(t, root, lo) && Reach(t, root, lo + 1);
    assert PaAt(p, 0) == p;
  }

  lemma LoadableOpen(a: State, root: nat, ph: Phdr)
    requires Loadable(a, root, ph) && SegOffset(ph) != 0
    ensures ph.vaddr < KERNBASE_VA && Open(a, root, SegStart(ph), LastPage(ph.vaddr, PAGE_SIZE))
    ensures LastPage(ph.vaddr, PAGE_SIZE) == SegStart(ph) + 1
  {
    OnePageRange(ph.vaddr);
    assert Reach(a, root, SegStart(ph));
  }

  /** What loading an unaligned segment amounts to when it succeeds at all. */
  ghost predicate LoadedUnaligned(a: State, b: State, root: nat, ph: Phdr, bin: seq<Byte>, p: Word, pg: Page)
    requires ph.filesz <= |bin|
  {
    && (forall r: nat, n: nat :: Reach(a, r, n) ==>
          && Reach(b, r, n)
          && (r != root || n < SegStart(ph) || n >= SegStart(ph) + 2 ==> Trans(b.mem, r, n) == Trans(a.mem, r, n)))
    && Trans(b.mem, root, SegStart(ph)) == Some(Mapping(p, SegPerm(ph)))
    && Trans(b.mem, root, SegStart(ph) + 1) == Some(Mapping(PaAt(p, 1), SegPerm(ph)))
    && p in b.mem && b.mem[p] == pg && Written(Zeros(), pg, SegOffset(ph), bin[..FirstPart(ph)])
  }

  /**
   * elf_load_seg with load_icode_mapper. An aligned segment loads if and only if none of its pages
   * is mapped: then exactly these pages are mapped, each once, to fresh pages that hold the file
   * bytes and then zeros. An unaligned one loads if and only if its first two pages are not mapped
   * and everything fits the first call; otherwise the second call meets a page that the first
   * already mapped. Every failure is the remap panic.
   */
  method ElfLoadSeg(k: Kernel, root: nat, ph: Phdr, bin: seq<Byte>)
      returns (r: Outcome<int>, ghost pages: seq<nat>, ghost data: seq<Page>)
    requires Inv(k.View()) && Loadable(k.View(), root, ph) && ph.filesz <= |bin|
    requires |k.frees| >= MAP_COST * (SegPages(ph) + 2)
    modifies k
    ensures r == Returned(0) || r == Panicked(Remap)
    ensures r == Returned(0) <==>
              && Vacant(old(k.View()), root, SegStart(ph), Touched(ph))
              && (SegOffset(ph) != 0 ==> SegSize(ph) <= FirstPart(ph))
    ensures r == Returned(0) && SegOffset(ph) == 0 ==>
              && Inv(k.View()) && |pages| == SegPages(ph)
              && LoadedSoFar(old(k.View()), k.View(), root, ph, bin, pages, data)
              && forall j :: 0 <= j < |pages| ==> HwMaps(k.mem, root, SegStart(ph) + j, pages[j], SegBits(ph))
    ensures r == Returned(0) && SegOffset(ph) != 0 ==>
              && Inv(k.View()) && |pages| == |data| == 1 && pages[0] < WORD_LIMIT
              && LoadedUnaligned(old(k.View()), k.View(), root, ph, bin, pages[0], data[0])
              && HwMaps(k.mem, root, SegStart(ph), pages[0], SegBits(ph))
              && HwMaps(k.mem, root, SegStart(ph) + 1, pages[0] + PAGE_SIZE, SegBits(ph))
  {
    hide Inv, LoadedSoFar, Loadable, Straddled, Reach, Trans, Took, Extended, Written, LastPage, Spread, Mapped,
         Open, Chunk, SegPerm, SegBits, HwMaps, Zeros, LoadedUnaligned, Vacant;
    ghost var a := k.View();
    pages, data := [], [];
    LoadStart(a, root, ph, bin);
    var va := ph.vaddr;
    var offset := va - RoundDown(va);
    var i := 0;
    ghost var t, p, pg;
    if offset != 0 {
      LoadableOpen(a, root, ph);
      i := Min(ph.filesz, PAGE_SIZE - offset);
      r, t, p, pg := LoadIcodeMapper(k, root, va, offset, SegPerm(ph), bin[..i]);
      if r != Returned(0) {
        NotVacant(a, root, SegStart(ph), 2);
        return;
      }
      FirstCall(a, t, k.View(), root, ph, p, pg);
      UnalignedLoaded(a, t, k.View(), root, ph, bin, p, pg);
      pages, data := [p], [pg];
    }
    while i < ph.filesz
      invariant Inv(k.View())
      invariant SegOffset(ph) == 0 ==> i == |pages| * PAGE_SIZE && LoadedSoFar(a, k.View(), root, ph, bin, pages, data)
      invariant SegOffset(ph) == 0 ==> |pages| <= SegPages(ph) && |k.frees| >= MAP_COST * (SegPages(ph) - |pages|)
      invariant SegOffset(ph) != 0 ==>
                  && i == FirstPart(ph) && Straddled(k.View(), root, ph) && |k.frees| >= MAP_COST
                  && |pages| == |data| == 1 && pages == [p] && data == [pg]
                  && LoadedUnaligned(a, k.View(), root, ph, bin, p, pg) && Vacant(a, root, SegStart(ph), 2)
      decreases ph.filesz - i
    {
      ChunkIs(bin, ph.filesz, i);
      r, pages, data := MapChunk(k, root, ph, i, bin, bin[i..i + Min(ph.filesz - i, PAGE_SIZE)], a, pages, data);
      if r != Returned(0) {
        if SegOffset(ph) == 0 { TakenPage(a, root, SegStart(ph), SegPages(ph), SegStart(ph) + |pages|); }
        return;
      }
      i := i + PAGE_SIZE;
    }
    while i < ph.memsz
      invariant Inv(k.View()) && i >= ph.filesz
      invariant SegOffset(ph) == 0 ==> i == |pages| * PAGE_SIZE && LoadedSoFar(a, k.View(), root, ph, bin, pages, data)
      invariant SegOffset(ph) == 0 ==> |pages| <= SegPages(ph) && |k.frees| >= MAP_COST * (SegPages(ph) - |pages|)
      invariant SegOffset(ph) != 0 ==>
                  && i == FirstPart(ph) && Straddled(k.View(), root, ph) && |k.frees| >= MAP_COST
                  && |pages| == |data| == 1 && pages == [p] && data == [pg]
                  && LoadedUnaligned(a, k.View(), root, ph, bin, p, pg) && Vacant(a, root, SegStart(ph), 2)
      decreases ph.memsz - i
    {
      ChunkIs(bin, ph.filesz, i);
      r, pages, data := MapChunk(k, root, ph, i, bin, [], a, pages, data);
      if r != Returned(0) {
        if SegOffset(ph) == 0 { TakenPage(a, root, SegStart(ph), SegPages(ph), SegStart(ph) + |pages|); }
        return;
      }
      i := i + PAGE_SIZE;
    }
    LoadDone(a, k.View(), root, ph, bin, pages, data);
    return Returned(0), pages, data;
  }

  lemma NotVacant(a: State, root: nat, lo: nat, count: nat)
    requires exists n: nat :: lo <= n < lo + count && Trans(a.mem, root, n).Some?
    ensures !Vacant(a, root, lo, count)
  {
    hide Trans;
  }

  lemma TakenPage(a: State, root: nat, lo: nat, count: nat, n: nat)
    requires lo <= n < lo + count && Trans(a.mem, root, n).Some?
    ensures !Vacant(a, root, lo, count)
  {
    hide Trans;
  }

  lemma LoadedWasVacant(a: State, s: State, root: nat, ph: Phdr, bin: seq<Byte>, pages: seq<nat>, data: seq<Page>)
    requires ph.filesz <= |bin| && LoadedSoFar(a, s, root, ph, bin, pages, data)
    ensures Vacant(a, root, SegStart(ph), |pages|)
  {
    hide Trans, BackedPages, Holds;
  }

  /** Both loops are done: what was loaded is in the processor's reach. */
  lemma LoadDone(a: State, s: State, root: nat, ph: Phdr, bin: seq<Byte>, pages: seq<nat>, data: seq<Page>)
    requires Inv(s) && Loadable(a, root, ph) && ph.filesz <= |bin|
    requires SegOffset(ph) == 0 ==> LoadedSoFar(a, s, root, ph, bin, pages, data)
    requires SegOffset(ph) != 0 ==>
               && |pages| == |data| == 1 && pages[0] < WORD_LIMIT
               && LoadedUnaligned(a, s, root, ph, bin, pages[0], data[0])
    ensures SegOffset(ph) == 0 ==>
              && Vacant(a, root, SegStart(ph), |pages|)
              && forall j :: 0 <= j < |pages| ==> HwMaps(s.mem, root, SegStart(ph) + j, pages[j], SegBits(ph))
    ensures SegOffset(ph) != 0 ==>
              && HwMaps(s.mem, root, SegStart(ph), pages[0], SegBits(ph))
              && HwMaps(s.mem, root, SegStart(ph) + 1, pages[0] + PAGE_SIZE, SegBits(ph))
  {
    hide Inv, Loadable, LoadedSoFar, LoadedUnaligned, Vacant, HwMaps, SegBits, SegOffset, SegStart;
    if SegOffset(ph) == 0 {
      LoadedWasVacant(a, s, root, ph, bin, pages, data);
      LoadedHw(a, s, root, ph, bin, pages, data);
    } else {
      LoadedUnalignedHw(a, s, root, ph, bin, pages[0], data[0]);
    }
  }

  lemma ChunkIs(bin: seq<Byte>, filesz: nat, i: nat)
    requires filesz <= |bin|
    ensures Chunk(bin, filesz, i) == if i < filesz then bin[i..i + Min(filesz - i, PAGE_SIZE)] else []
  {
  }

  lemma UnalignedLoaded(a: State, t: State, w: State, root: nat, ph: Phdr, bin: seq<Byte>, p: Word, pg: Page)
    requires ph.filesz <= |bin| && SegOffset(ph) != 0 && Written(Zeros(), pg, SegOffset(ph), bin[..FirstPart(ph)])
    requires Trans(w.mem, root, SegStart(ph)) == Some(Mapping(p, SegPerm(ph)))
    requires Trans(w.mem, root, SegStart(ph) + 1) == Some(Mapping(PaAt(p, 1), SegPerm(ph)))
    requires Took(a, t, p, pg) && Extended(t, w, root)
    requires Mapped(t, w, root, SegStart(ph), 2, p, SegPerm(ph))
    ensures LoadedUnaligned(a, w, root, ph, bin, p, pg)
  {
    hide Trans;
  }
}
