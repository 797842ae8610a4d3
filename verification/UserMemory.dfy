/** What unmapping, growing and copying do to the flat map (uvmunmap, uvmalloc, kvm_copy in kern/vm.c). */
module UserMemory {
  import opened Bits
  import opened Outcomes
  import opened Mmu
  import opened PageTable
  import opened Sv39

  // ----- uvmunmap --------------------------------------------------------------------------

  /** How often the loop of uvmunmap runs; va + npages * PAGE_SIZE is a 64-bit sum. */
  function UnmapCount(va: Word, npages: Word): nat {
    var end := (va + npages * PAGE_SIZE) % WORD_LIMIT;
    if va < end then (end - va + PAGE_SIZE - 1) / PAGE_SIZE else 0
  }

  /** What one iteration of uvmunmap at `va` comes to. */
  function UnmapResult(m: Memory, root: nat, va: Word, doFree: bool): Outcome<int> {
    if va >= MAXVA then Panicked(WalkRange)
    else
      match Trans(m, root, va / PAGE_SIZE)
      case None => Panicked(NotMapped)
      case Some(e) =>
        if e.flags == PTE_V then Panicked(NotLeaf)
        else if doFree && !IsPage(e.pa) then Panicked(KfreeRange)
        else Returned(0)
  }

  /** The physical page that uvmunmap would free is one that was handed out. */
  ghost predicate HeldIfFreed(s: State, root: nat, va: Word, doFree: bool) {
    doFree && UnmapResult(s.mem, root, va, true) == Returned(0) ==>
      var pa := Trans(s.mem, root, va / PAGE_SIZE).value.pa;
      pa in s.kind && s.kind[pa].Data?
  }

  /** Pages in use stay in use for the same purpose, and data pages keep their contents. */
  ghost predicate KeepsHeld(a: State, b: State) {
    b.cut == a.cut && KeepsData(a, b) && forall q :: q in a.kind && !a.kind[q].Free? ==> q in b.kind && b.kind[q] == a.kind[q]
  }

  /** Every page free before is free still, or is a table that the tree of `root` gained. */
  ghost predicate FreeOrTree(a: State, b: State, root: nat) {
    && b.kind.Keys == a.kind.Keys
    && (forall q {:trigger b.kind[q]} :: q in a.kind && a.kind[q].Free? ==>
          b.kind[q].Free? || (InTree(b, q, root) && b.kind[q].up.Some?))
  }

  /** From `a` to `b` page `n` was unmapped, and its physical page went back to the free list if asked. */
  ghost predicate Unmapped(a: State, b: State, root: nat, n: nat, doFree: bool) {
    && Trans(a.mem, root, n).Some?
    && Remapped(a, b, root, n, 0)
    && var pa := Trans(a.mem, root, n).value.pa;
       && b.frees == (if doFree then [pa] + a.frees else a.frees)
       && b.kind == (if doFree then a.kind[pa := Free] else a.kind)
       && b.cut == a.cut
       && (forall p :: p in b.kind && b.kind[p].Data? && p in a.mem ==> p in b.mem && b.mem[p] == a.mem[p])
  }

  ghost function AfterFree(s: State, root: nat, n: nat, doFree: bool): State
    requires Trans(s.mem, root, n).Some? && s.freelist < WORD_LIMIT
  {
    if doFree then Given(s, Trans(s.mem, root, n).value.pa) else s
  }

  lemma UnmapStep(s: State, root: nat, n: nat, doFree: bool)
    requires Inv(s) && Reach(s, root, n) && Trans(s.mem, root, n).Some? && s.freelist < WORD_LIMIT
    requires doFree ==> var pa := Trans(s.mem, root, n).value.pa; pa in s.kind && s.kind[pa].Data?
    ensures var g := AfterFree(s, root, n, doFree);
            && Inv(g) && PteSlot(g.mem, root, n) == PteSlot(s.mem, root, n) && PteSlot(s.mem, root, n).Some?
            && var sl := PteSlot(s.mem, root, n).value;
               && sl.page in g.mem && sl.idx < |g.mem[sl.page]|
               && Inv(LeafSet(g, sl, 0)) && Unmapped(s, LeafSet(g, sl, 0), root, n, doFree)
               && Reach(LeafSet(g, sl, 0), root, n) && Trans(LeafSet(g, sl, 0).mem, root, n) == None
  {
    hide Linked, Owned, FreeList, CutsAtRoots, NoStrays;
    var g := AfterFree(s, root, n, doFree);
    if doFree {
      var pa := Trans(s.mem, root, n).value.pa;
      GiveKeepsMaps(s, pa);
      TransFrame(s, g, root, n);
    }
    SetLeafRemaps(g, root, n, 0);
  }

  // ----- uvmalloc --------------------------------------------------------------------------

  ghost predicate Fresh(a: State, b: State, p: nat, pg: Page) {
    p in a.kind && a.kind[p].Free? && p in b.kind && b.kind[p].Data? && p in b.mem && b.mem[p] == pg
  }

  /** The pages lo, lo+1, ... of `root`, unmapped before, are mapped to `pages`; nothing else is remapped. */
  ghost predicate BackedMaps(a: State, b: State, root: nat, lo: nat, pages: seq<nat>, flags: nat) {
    && (forall r: nat, n: nat :: Reach(a, r, n) ==>
          && Reach(b, r, n)
          && Trans(b.mem, r, n) ==
             if r == root && lo <= n < lo + |pages| then Some(Mapping(pages[n - lo], flags)) else Trans(a.mem, r, n))
    && (forall n: nat :: lo <= n < lo + |pages| ==> Reach(a, root, n) && Trans(a.mem, root, n) == None)
  }

  /**
   * `pages` are distinct, were taken from the free list, and hold `data`; besides, only `root`
   * gained tables.
   */
  ghost predicate BackedPages(a: State, b: State, root: nat, pages: seq<nat>, data: seq<Page>) {
    && b.cut == a.cut && b.kind.Keys == a.kind.Keys && |data| == |pages|
    && (forall i, j :: 0 <= i < j < |pages| ==> pages[i] != pages[j])
    && (forall j :: 0 <= j < |pages| ==> Fresh(a, b, pages[j], data[j]))
    && (forall q {:trigger b.kind[q]} :: q in a.kind && !a.kind[q].Free? ==> b.kind[q] == a.kind[q])
    && (forall q {:trigger b.kind[q]} :: q in a.kind && a.kind[q].Free? ==>
          b.kind[q].Free? || (InTree(b, q, root) && b.kind[q].up.Some?) || q in pages)
    && KeepsData(a, b)
  }

  /** Successful growth: fresh pages holding `data` behind a range of the flat map. */
  ghost predicate Backed(a: State, b: State, root: nat, lo: nat, pages: seq<nat>, data: seq<Page>, flags: nat) {
    BackedMaps(a, b, root, lo, pages, flags) && BackedPages(a, b, root, pages, data)
  }

  lemma BackNothing(a: State, root: nat, lo: nat, flags: nat)
    ensures Backed(a, a, root, lo, [], [], flags)
  {
  }

  /** The hardware finds each page grown where the flat map has it. */
  lemma BackedHw(a: State, s: State, root: nat, lo: nat, pages: seq<nat>, data: seq<Page>, flags: nat, bits: set<nat>)
    requires Inv(s) && Backed(a, s, root, lo, pages, data, flags)
    requires BitsAre(flags, bits) && R_BIT in bits
    ensures forall j :: 0 <= j < |pages| ==> HwMaps(s.mem, root, lo + j, pages[j], bits)
  {
    hide Inv, BackedMaps, BackedPages, Trans, Reach, HwMaps, BitsAre;
    PagesBelow(a, s, root, pages, data);
    forall j | 0 <= j < |pages| ensures HwMaps(s.mem, root, lo + j, pages[j], bits) {
      BackedOne(a, s, root, lo, pages, flags, j);
      FlatIsHw(s, root, lo + j, pages[j], flags, bits);
    }
  }

  lemma BackedOne(a: State, s: State, root: nat, lo: nat, pages: seq<nat>, flags: nat, j: nat)
    requires BackedMaps(a, s, root, lo, pages, flags) && j < |pages|
    ensures Reach(s, root, lo + j) && Trans(s.mem, root, lo + j) == Some(Mapping(pages[j], flags))
  {
    hide Trans;
    assert Reach(a, root, lo + j);
  }

  lemma PagesBelow(a: State, s: State, root: nat, pages: seq<nat>, data: seq<Page>)
    requires Inv(s) && BackedPages(a, s, root, pages, data)
    ensures forall j :: 0 <= j < |pages| ==> pages[j] < PHYEND
  {
    hide Linked, Owned, FreeList;
    forall j | 0 <= j < |pages| ensures pages[j] < PHYEND {
      assert Fresh(a, s, pages[j], data[j]);
    }
  }

  /** From `s` to `t` the free page `p` was handed out and filled with `pg`. */
  ghost predicate Took(s: State, t: State, p: nat, pg: Page) {
    && p in s.kind && s.kind[p].Free? && IsPage(p)
    && t.kind == s.kind[p := Data] && t.cut == s.cut
    && p in t.mem && t.mem[p] == pg
    && KeepsMaps(s, t) && KeepsData(s, t)
  }

  lemma TakenTook(s: State)
    requires Inv(s) && s.frees != []
    ensures Took(s, Taken(s), s.frees[0], Zeros()) && Inv(Taken(s))
  {
    assert s.frees[0] in s.frees;
    TakeKeepsInv(s);
  }

  /** Free pages become tables of `root` or stay free, or become the page just taken. */
  lemma BackStepKind(a: State, s: State, t: State, w: State, root: nat, pages: seq<nat>, data: seq<Page>, p: nat, q: nat)
    requires p in s.kind && s.kind[p].Free? && t.kind == s.kind[p := Data]
    requires BackedPages(a, s, root, pages, data) && Extended(t, w, root) && q in a.kind && a.kind[q].Free?
    ensures w.kind[q].Free? || (InTree(w, q, root) && w.kind[q].up.Some?) || q in pages || q == p
  {
    if s.kind[q].Table? {
      assert t.kind[q] == s.kind[q] && w.kind[q] == t.kind[q];
      var u := s.kind[q].up.value.page;
      if u in s.kind && !s.kind[u].Free? { assert t.kind[u] == s.kind[u] && w.kind[u] == t.kind[u]; }
    }
  }

  lemma BackStepFresh(a: State, s: State, t: State, w: State, root: nat, pages: seq<nat>, data: seq<Page>, p: nat, pg: Page)
    requires BackedPages(a, s, root, pages, data) && Took(s, t, p, pg) && KeepsData(t, w)
    ensures KeepsData(a, w) && p in a.kind && a.kind[p].Free? && p !in pages
    ensures forall j :: 0 <= j < |pages| ==> Fresh(a, w, pages[j], data[j])
    ensures Fresh(a, w, p, pg)
  {
    hide InTree, KeepsMaps;
    forall j | 0 <= j < |pages| ensures Fresh(a, w, pages[j], data[j]) {
      assert Fresh(a, s, pages[j], data[j]);
    }
  }

  lemma BackStepPages(a: State, s: State, t: State, w: State, root: nat, pages: seq<nat>, data: seq<Page>, p: nat, pg: Page)
    requires BackedPages(a, s, root, pages, data) && Took(s, t, p, pg) && Extended(t, w, root)
    ensures BackedPages(a, w, root, pages + [p], data + [pg])
    ensures p !in pages && p in a.kind && a.kind[p].Free? && p in w.kind && w.kind[p].Data?
  {
    BackStepFresh(a, s, t, w, root, pages, data, p, pg);
    assert p in w.kind && w.kind[p].Data?;
    hide KeepsMaps, KeepsData, Fresh;
    var ps, ds := pages + [p], data + [pg];
    assert forall q :: q in ps <==> q in pages || q == p;
    forall q | q in a.kind && a.kind[q].Free?
      ensures w.kind[q].Free? || (InTree(w, q, root) && w.kind[q].up.Some?) || q in ps
    {
      BackStepKind(a, s, t, w, root, pages, data, p, q);
    }
    assert Fresh(a, w, ps[|pages|], ds[|pages|]);
  }

  lemma BackStepMaps(a: State, s: State, t: State, w: State, root: nat, lo: nat, pages: seq<nat>, p: nat, flags: nat, perm: nat)
    requires BackedMaps(a, s, root, lo, pages, flags) && KeepsMaps(s, t)
    requires p < WORD_LIMIT && p % PAGE_SIZE == 0 && flags == SetBit0(perm) && Reach(a, root, lo + |pages|)
    requires Mapped(t, w, root, lo + |pages|, 1, p, perm)
    ensures BackedMaps(a, w, root, lo, pages + [p], flags)
  {
    MappedOne(t, w, root, lo + |pages|, p, perm);
    hide Reach, Trans, PaAt;
    var k := |pages|;
    assert Reach(s, root, lo + k) && Reach(t, root, lo + k);
  }

  /** One more page, allocated, filled and mapped. */
  lemma BackStep(a: State, s: State, t: State, w: State, root: nat, lo: nat, pages: seq<nat>, data: seq<Page>,
                 p: Word, pg: Page, flags: nat, perm: nat)
    requires Backed(a, s, root, lo, pages, data, flags) && Took(s, t, p, pg)
    requires Reach(a, root, lo + |pages|) && flags == SetBit0(perm)
    requires Extended(t, w, root) && Mapped(t, w, root, lo + |pages|, 1, p, perm)
    ensures Backed(a, w, root, lo, pages + [p], data + [pg], flags)
  {
    hide BackedMaps, BackedPages, Extended, Mapped, KeepsMaps, KeepsData, Reach;
    BackStepPages(a, s, t, w, root, pages, data, p, pg);
    BackStepMaps(a, s, t, w, root, lo, pages, p, flags, perm);
  }

  lemma GiveLastBack(a: State, w: State, root: nat, pages: seq<nat>, data: seq<Page>, p: nat, pg: Page)
    requires BackedPages(a, w, root, pages + [p], data + [pg]) && w.freelist < WORD_LIMIT && p in w.kind && w.kind[p].Data?
    requires p in a.kind && a.kind[p].Free? && |data| == |pages|
    ensures BackedPages(a, Given(w, p), root, pages, data)
  {
    var g, ps := Given(w, p), pages + [p];
    GiveFresh(a, w, pages, data, p, pg);
    hide Fresh;
    assert forall j :: 0 <= j < |pages| ==> ps[j] == pages[j];
    forall q | q in a.kind && a.kind[q].Free?
      ensures g.kind[q].Free? || (InTree(g, q, root) && g.kind[q].up.Some?) || q in pages
    {
      assert q in ps ==> q == p || q in pages;
    }
  }

  lemma GiveFresh(a: State, w: State, pages: seq<nat>, data: seq<Page>, p: nat, pg: Page)
    requires |data| == |pages| && w.freelist < WORD_LIMIT && p in w.kind && w.kind[p].Data?
    requires forall i, j :: 0 <= i < j <= |pages| ==> (pages + [p])[i] != (pages + [p])[j]
    requires forall j :: 0 <= j <= |pages| ==> Fresh(a, w, (pages + [p])[j], (data + [pg])[j])
    ensures forall j :: 0 <= j < |pages| ==> Fresh(a, Given(w, p), pages[j], data[j])
  {
    var ps, ds := pages + [p], data + [pg];
    assert ps[|pages|] == p;
    forall j | 0 <= j < |pages| ensures Fresh(a, Given(w, p), pages[j], data[j]) {
      assert Fresh(a, w, ps[j], ds[j]) && ps[j] != p;
    }
  }

  lemma BackFailedMaps(a: State, s: State, t: State, w: State, g: State, root: nat, lo: nat, pages: seq<nat>, flags: nat,
                       n: nat, pa: Word, perm: nat)
    requires BackedMaps(a, s, root, lo, pages, flags) && KeepsMaps(s, t) && Mapped(t, w, root, n, 0, pa, perm) && KeepsMaps(w, g)
    ensures BackedMaps(a, g, root, lo, pages, flags)
  {
    hide Reach, Trans;
  }

  /** mappages ran out of tables: the page goes back. */
  lemma BackFailed(a: State, s: State, t: State, w: State, root: nat, lo: nat, pages: seq<nat>, data: seq<Page>,
                   p: Word, pg: Page, flags: nat, n: nat, perm: nat)
    requires Backed(a, s, root, lo, pages, data, flags) && Took(s, t, p, pg)
    requires Extended(t, w, root) && Mapped(t, w, root, n, 0, p, perm) && Inv(w)
    ensures p in w.kind && w.kind[p].Data?
    ensures w.freelist < WORD_LIMIT && Inv(Given(w, p))
    ensures Backed(a, Given(w, p), root, lo, pages, data, flags)
  {
    GiveWordRange(w);
    hide Linked, Owned, FreeList, Shape, BackedPages, BackedMaps, Mapped, Extended, KeepsMaps, KeepsData, Reach;
    BackStepPages(a, s, t, w, root, pages, data, p, pg);
    assert |data| == |pages| by { DataLength(a, s, root, pages, data); }
    GiveLastBack(a, w, root, pages, data, p, pg);
    GiveKeepsMaps(w, p);
    BackFailedMaps(a, s, t, w, Given(w, p), root, lo, pages, flags, n, p, perm);
  }

  lemma DataLength(a: State, s: State, root: nat, pages: seq<nat>, data: seq<Page>)
    requires BackedPages(a, s, root, pages, data)
    ensures |data| == |pages|
  {
  }

  /** Number of pages that uvmalloc adds to grow from `oldSize` to `newSize`. */
  function PagesToAdd(oldSize: Word, newSize: Word): nat {
    if Round(oldSize) < newSize then (newSize - Round(oldSize) + PAGE_SIZE - 1) / PAGE_SIZE else 0
  }

  /** A 64-bit value kept in an int and passed on as u_long: 32 bits, sign-extended. */
  function ThroughInt(w: Word): Word {
    var low := w % 0x1_0000_0000;
    if low < 0x8000_0000 then low else WORD_LIMIT - 0x1_0000_0000 + low
  }

  /** How many turns of uvmunmap's loop uvmdealloc asks for; its page count goes through an int. */
  function PagesToDrop(oldSize: Word, newSize: Word): nat {
    if Round(newSize) < Round(oldSize)
    then UnmapCount(Round(newSize), ThroughInt((Round(oldSize) - Round(newSize)) / PAGE_SIZE))
    else 0
  }

  const PAGES_IN_ALL: nat := 0x10_0000_0000_0000
  const INT_LIMIT: nat := 0x8000_0000

  /** The turns of uvmunmap's loop from page `u` on, counted in pages. */
  function Turns(u: nat, npages: nat): nat {
    var e := (u + npages) % PAGES_IN_ALL;
    if u < e then e - u else 0
  }

  lemma UnmapTurns(u: nat, npages: Word)
    requires u < PAGES_IN_ALL
    ensures u * PAGE_SIZE < WORD_LIMIT && UnmapCount(u * PAGE_SIZE, npages) == Turns(u, npages)
  {
    var q, e := (u + npages) / PAGES_IN_ALL, (u + npages) % PAGES_IN_ALL;
    assert u * PAGE_SIZE + npages * PAGE_SIZE == q * WORD_LIMIT + e * PAGE_SIZE;
    WordRemainder(u * PAGE_SIZE + npages * PAGE_SIZE, q, e * PAGE_SIZE);
    if u < e { PagesFrom(e - u); }
  }

  lemma WordRemainder(x: nat, q: nat, r: nat)
    requires x == q * WORD_LIMIT + r && r < WORD_LIMIT
    ensures x % WORD_LIMIT == r
  {
  }

  lemma PagesFrom(k: nat)
    ensures (k * PAGE_SIZE + PAGE_SIZE - 1) / PAGE_SIZE == k
  {
  }

  /** What is left of `n` pages behind the int. */
  lemma IntTurns(u: nat, n: nat)
    requires 0 < n && u + n < PAGES_IN_ALL
    ensures Turns(u, ThroughInt(n)) == n <==> n < INT_LIMIT || n >= PAGES_IN_ALL - INT_LIMIT
  {
    var q, low := n / 0x1_0000_0000, n % 0x1_0000_0000;
    assert n == q * 0x1_0000_0000 + low && q < 0x10_0000;
    if low < INT_LIMIT {
      assert Turns(u, ThroughInt(n)) == low;
    } else {
      var d := PAGES_IN_ALL - 0x1_0000_0000 + low;
      assert u + ThroughInt(n) == 0xFFF * PAGES_IN_ALL + (u + d);
      assert (u + ThroughInt(n)) % PAGES_IN_ALL == (u + d) % PAGES_IN_ALL;
    }
  }

  /**
   * uvmdealloc asks for the pages between the two sizes if and only if their number fits an int, or
   * is so large that its negative does.
   */
  lemma DropCount(oldSize: Word, newSize: Word)
    requires Round(newSize) < Round(oldSize)
    ensures var n := (Round(oldSize) - Round(newSize)) / PAGE_SIZE;
            PagesToDrop(oldSize, newSize) == n <==> n < INT_LIMIT || n >= PAGES_IN_ALL - INT_LIMIT
  {
    hide Round, ThroughInt, UnmapCount, Turns;
    var u, v := Round(newSize) / PAGE_SIZE, Round(oldSize) / PAGE_SIZE;
    assert Round(newSize) == u * PAGE_SIZE && Round(oldSize) == v * PAGE_SIZE;
    UnmapTurns(u, ThroughInt(v - u));
    IntTurns(u, v - u);
  }

  lemma NoDrop(oldSize: Word, newSize: Word)
    requires Round(newSize) >= Round(oldSize)
    ensures PagesToDrop(oldSize, newSize) == 0
  {
    hide Round;
  }

  /** Sizes for which it does not: shrinking from 2^44 to nothing returns with nothing unmapped. */
  lemma DropNothing()
    ensures PagesToDrop(0x1000_0000_0000, 0) == 0
  {
    RoundIs(0x1000_0000_0000);
    RoundIs(0);
    assert RoundUp(0x1000_0000_0000) == 0x1000_0000_0000 && RoundUp(0) == 0;
    hide Round;
    assert ThroughInt(0x1_0000_0000) == 0;
  }

  /** The page uvmdealloc starts at after a growth is the first of that growth, held and unmappable. */
  lemma BackedHeld(a: State, s: State, root: nat, lo: nat, pages: seq<nat>, data: seq<Page>, perm: nat)
    requires Inv(s) && perm < 1024 && lo < NPAGES && Backed(a, s, root, lo, pages, data, SetBit0(OrRU(perm)))
    requires pages != []
    ensures Reach(s, root, lo) && Trans(s.mem, root, lo) == Some(Mapping(pages[0], SetBit0(OrRU(perm))))
    ensures pages[0] in s.kind && s.kind[pages[0]].Data? && IsPage(pages[0])
    ensures UnmapResult(s.mem, root, lo * PAGE_SIZE, true) == Returned(0)
    ensures HeldIfFreed(s, root, lo * PAGE_SIZE, true)
  {
    OrRUIsLeaf(perm);
    hide Linked, Owned, FreeList;
    assert Reach(a, root, lo);
    assert Fresh(a, s, pages[0], data[0]);
  }

  /** Growing by one page and taking it back restores the flat map, and the page is free again. */
  lemma BackedThenUnmapped(a: State, s: State, b: State, root: nat, lo: nat, pages: seq<nat>, data: seq<Page>, flags: nat)
    requires Inv(a) && Inv(s) && Backed(a, s, root, lo, pages, data, flags) && |pages| == 1
    requires Unmapped(s, b, root, lo, true)
    ensures KeepsMaps(a, b) && KeepsHeld(a, b)
    ensures pages[0] in b.kind && b.kind[pages[0]].Free? && pages[0] in a.kind && a.kind[pages[0]].Free?
    ensures b.frees == [pages[0]] + s.frees
  {
    GrownPage(a, s, root, lo, pages, data, flags);
    assert b.kind == s.kind[pages[0] := Free] && b.cut == s.cut == a.cut;
    hide Inv, Trans, Reach, Fresh;
    forall r, n | Reach(a, r, n) ensures Reach(b, r, n) && Trans(b.mem, r, n) == Trans(a.mem, r, n) {
      assert Reach(s, r, n);
    }
    BackedThenHeld(a, s, b, root, lo, pages, data, flags);
  }

  lemma GrownPage(a: State, s: State, root: nat, lo: nat, pages: seq<nat>, data: seq<Page>, flags: nat)
    requires Backed(a, s, root, lo, pages, data, flags) && |pages| == 1
    ensures Reach(a, root, lo) && Trans(a.mem, root, lo) == None
    ensures Trans(s.mem, root, lo) == Some(Mapping(pages[0], flags)) && Fresh(a, s, pages[0], data[0])
  {
    hide Trans;
    assert Reach(a, root, lo) && Reach(s, root, lo);
  }

  lemma BackedThenHeld(a: State, s: State, b: State, root: nat, lo: nat, pages: seq<nat>, data: seq<Page>, flags: nat)
    requires Inv(a) && Backed(a, s, root, lo, pages, data, flags) && |pages| == 1 && Unmapped(s, b, root, lo, true)
    ensures KeepsHeld(a, b)
  {
    GrownPage(a, s, root, lo, pages, data, flags);
    hide Inv, Trans, Reach, BackedMaps, Remapped, InTree;
    assert b.kind == s.kind[pages[0] := Free];
    forall q | q in a.kind && !a.kind[q].Free? ensures q in b.kind && b.kind[q] == a.kind[q] {
      assert s.kind[q] == a.kind[q];
    }
  }

  lemma NoPages(a: State, s: State, root: nat, lo: nat, data: seq<Page>, flags: nat)
    requires Backed(a, s, root, lo, [], data, flags)
    ensures KeepsMaps(a, s) && KeepsHeld(a, s) && FreeOrTree(a, s, root)
  {
  }

  lemma BackedThenFree(a: State, s: State, b: State, root: nat, lo: nat, pages: seq<nat>, data: seq<Page>, flags: nat)
    requires Backed(a, s, root, lo, pages, data, flags) && |pages| == 1 && Unmapped(s, b, root, lo, true)
    ensures FreeOrTree(a, b, root)
  {
    assert Fresh(a, s, pages[0], data[0]);
    assert Reach(a, root, lo) && Reach(s, root, lo);
    assert Trans(s.mem, root, lo) == Some(Mapping(pages[0], flags));
    hide Trans, Reach, Remapped;
    assert b.kind == s.kind[pages[0] := Free];
  }

  /** Giving back what has been grown so far: uvmdealloc is asked for exactly those pages. */
  lemma BackedRange(a: State, s: State, root: nat, lo: nat, pages: seq<nat>, data: seq<Page>, perm: nat, end: nat)
    requires Inv(s) && perm < 1024 && Backed(a, s, root, lo, pages, data, SetBit0(OrRU(perm)))
    requires end == (lo + |pages|) * PAGE_SIZE && end <= MAXVA
    ensures Round(lo * PAGE_SIZE) == lo * PAGE_SIZE && Round(end) == end
    ensures PagesToDrop(end, lo * PAGE_SIZE) == |pages|
    ensures pages == [] ==> KeepsMaps(a, s)
    ensures pages != [] ==>
              && Reach(s, root, lo) && HeldIfFreed(s, root, lo * PAGE_SIZE, true)
              && UnmapResult(s.mem, root, lo * PAGE_SIZE, true) == Returned(0)
  {
    hide Inv, Backed, Trans, HeldIfFreed, UnmapResult, Reach, PagesToDrop, Round;
    RoundIs(end);
    RoundIs(lo * PAGE_SIZE);
    if pages != [] { DropCount(end, lo * PAGE_SIZE); } else { NoDrop(end, lo * PAGE_SIZE); }
    if pages == [] { NoPages(a, s, root, lo, data, SetBit0(OrRU(perm))); }
    else { BackedHeld(a, s, root, lo, pages, data, perm); }
  }

  /** The next page to grow by is still as it was before the growth. */
  lemma BackAt(a: State, s: State, t: State, root: nat, lo: nat, pages: seq<nat>, data: seq<Page>, flags: nat)
    requires Backed(a, s, root, lo, pages, data, flags) && KeepsMaps(s, t) && Reach(a, root, lo + |pages|)
    ensures Open(t, root, lo + |pages|, lo + |pages|)
    ensures Trans(t.mem, root, lo + |pages|) == Trans(a.mem, root, lo + |pages|)
  {
    hide Trans, BackedPages;
    assert Reach(s, root, lo + |pages|) && Reach(t, root, lo + |pages|);
  }

  /** The same, for a page that may be beyond MAXVA. */
  lemma BackOpen(a: State, s: State, t: State, root: nat, lo: nat, pages: seq<nat>, data: seq<Page>, flags: nat)
    requires Backed(a, s, root, lo, pages, data, flags) && KeepsMaps(s, t) && IsRoot(t, root)
    requires lo + |pages| < NPAGES ==> Reach(a, root, lo + |pages|)
    ensures Open(t, root, lo + |pages|, lo + |pages|)
    ensures lo + |pages| < NPAGES ==> Trans(t.mem, root, lo + |pages|) == Trans(a.mem, root, lo + |pages|)
  {
    hide Trans, Backed;
    if lo + |pages| < NPAGES { BackAt(a, s, t, root, lo, pages, data, flags); }
  }

  lemma BackedRoot(a: State, s: State, root: nat, lo: nat, pages: seq<nat>, data: seq<Page>, flags: nat)
    requires IsRoot(a, root) && Backed(a, s, root, lo, pages, data, flags)
    ensures IsRoot(s, root)
  {
  }

  // ----- kvm_copy_to_user_pagetable --------------------------------------------------------

  /** First page number of the kernel half of the address space. */
  const KERNEL_PAGE: nat := 0x8_0000

  /** Pages KERNEL_PAGE .. hi-1 of `upt` now map exactly what `kpt` maps; nothing else was remapped. */
  ghost predicate CopiedTo(a: State, b: State, kpt: nat, upt: nat, hi: nat) {
    forall r: nat, n: nat :: Reach(a, r, n) ==>
      && Reach(b, r, n)
      && Trans(b.mem, r, n) == if r == upt && KERNEL_PAGE <= n < hi then Trans(a.mem, kpt, n) else Trans(a.mem, r, n)
  }

  lemma CopyStep(a: State, s: State, w: State, kpt: nat, upt: nat, n: nat, pa: Word, flags: nat)
    requires CopiedTo(a, s, kpt, upt, n) && kpt != upt && Reach(a, kpt, n) && Reach(a, upt, n) && n >= KERNEL_PAGE
    requires pa % PAGE_SIZE == 0 && flags % 2 == 1
    requires Trans(s.mem, kpt, n) == Some(Mapping(pa, flags)) && Mapped(s, w, upt, n, 1, pa, flags)
    ensures CopiedTo(a, w, kpt, upt, n + 1)
  {
    assert SetBit0(flags) == flags;
    MappedOne(s, w, upt, n, pa, flags);
    hide Reach, Trans, Mapped, SetBit0;
    assert Reach(s, kpt, n) && Trans(a.mem, kpt, n) == Trans(s.mem, kpt, n);
  }

  lemma CopySkip(a: State, s: State, kpt: nat, upt: nat, n: nat)
    requires CopiedTo(a, s, kpt, upt, n) && kpt != upt && Reach(a, kpt, n) && Trans(s.mem, kpt, n) == None
    requires Trans(a.mem, upt, n) == None
    ensures CopiedTo(a, s, kpt, upt, n + 1)
  {
    hide Reach, Trans;
  }

  lemma CopyStart(a: State, kpt: nat, upt: nat)
    ensures Extended(a, a, upt) && CopiedTo(a, a, kpt, upt, KERNEL_PAGE)
  {
  }

  lemma CopyAt(a: State, s: State, kpt: nat, upt: nat, n: nat, va: Word)
    requires CopiedTo(a, s, kpt, upt, n) && va / PAGE_SIZE == n && va < MAXVA
    requires Reach(a, kpt, n) && Reach(a, upt, n)
    ensures Reach(s, kpt, n) && Reach(s, upt, n) && IsRoot(s, kpt) && IsRoot(s, upt)
    ensures Slot(kpt, VpnL(2, va)) !in s.cut && Open(s, upt, n, n)
    ensures Trans(s.mem, upt, n) == Trans(a.mem, upt, n)
  {
    assert Reach(s, kpt, n);
    ReachIsUncut(s, kpt, va);
  }

  lemma DecodeValid(pte: Word)
    requires Valid(pte)
    ensures Decode(pte) == Some(Mapping(Pte2Pa(pte), PteFlags(pte)))
    ensures Pte2Pa(pte) % PAGE_SIZE == 0 && PteFlags(pte) % 2 == 1
  {
  }

  /** What is left for the clean-up after running out of memory while copying. */
  /** A copy that ran out of memory and gave up has changed no table but the user's. */
  lemma CopyGaveUp(a: State, s: State, w: State, b: State, kpt: nat, upt: nat, n: nat, pa: Word, flags: nat)
    requires CopiedTo(a, s, kpt, upt, n) && Mapped(s, w, upt, n, 0, pa, flags)
    requires b == w || Unmapped(w, b, upt, KERNEL_PAGE, false)
    ensures OthersKeep(a, b, upt)
  {
    hide Trans, Reach;
    forall r: nat, m: nat | Reach(a, r, m) && r != upt ensures Reach(b, r, m) && Trans(b.mem, r, m) == Trans(a.mem, r, m) {
      assert Reach(s, r, m) && Reach(w, r, m);
    }
  }

  lemma CopyFailed(a: State, s: State, w: State, kpt: nat, upt: nat, n: nat, pa: Word, flags: nat)
    requires CopiedTo(a, s, kpt, upt, n) && Mapped(s, w, upt, n, 0, pa, flags) && Reach(a, upt, KERNEL_PAGE)
    ensures IsRoot(w, upt) && Reach(w, upt, KERNEL_PAGE)
  {
    assert Reach(s, upt, KERNEL_PAGE) && Reach(w, upt, KERNEL_PAGE);
  }
}
