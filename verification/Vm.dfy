/** The physical page allocator (kern/phypage.c) and the virtual memory routines (kern/vm.c). */
module Vm {
  import opened Bits
  import opened Outcomes
  import opened Mmu
  import opened PageTable
  import opened Sv39
  import opened Teardown
  import opened UserMemory

  /** The `k` pages from `lo` on, last page first. */
  function PagesDown(lo: nat, k: nat): (fs: seq<nat>)
    ensures |fs| == k
  {
    if k == 0 then [] else [lo + (k - 1) * PAGE_SIZE] + PagesDown(lo, k - 1)
  }

  lemma {:induction false} PagesDownAt(lo: nat, k: nat, j: nat)
    requires j < k
    ensures PagesDown(lo, k)[j] == lo + (k - 1 - j) * PAGE_SIZE
  {
    if j > 0 { PagesDownAt(lo, k - 1, j - 1); }
  }

  lemma InvFacts(s: State, p: nat)
    requires Inv(s)
    ensures Wf(s) && (IsPage(p) ==> p in s.kind)
  {
  }

  lemma PagesDownZero(lo: nat, fs: seq<nat>)
    ensures PagesDown(lo, 0) + fs == fs
  {
  }

  lemma PagesDownStep(lo: nat, k: nat, p: nat, fs: seq<nat>)
    requires p == lo + k * PAGE_SIZE
    ensures [p] + (PagesDown(lo, k) + fs) == PagesDown(lo, k + 1) + fs
  {
  }

  /** The number of whole pages from `lo` up to `end`. */
  function RangeCount(lo: nat, end: nat): nat { if lo <= end then (end - lo) / PAGE_SIZE else 0 }

  lemma WholeRange()
    ensures Round(KERNEND) == KERNEND && RangeCount(KERNEND, PHYEND) == 31744
  {
    RoundIs(KERNEND);
  }

  lemma NothingBehind(lo: nat, k: nat)
    ensures PagesDown(lo, k) + [] == PagesDown(lo, k)
  {
    hide PagesDown;
  }

  lemma AllPagesFree(s: State)
    requires Inv(s) && s.frees == PagesDown(KERNEND, 31744)
    ensures forall p :: p in s.kind ==> s.kind[p].Free?
  {
    hide PagesDown, Linked, Owned;
    forall p | p in s.kind ensures s.kind[p].Free? {
      var j := 31743 - (p - KERNEND) / PAGE_SIZE;
      PagesDownAt(KERNEND, 31744, j);
      assert s.frees[j] == p;
    }
  }

  /** The page at which freerange panics is the first bad one. */
  lemma RangePanics(lo: Word, p: Word, end: Word, k: nat)
    requires lo % PAGE_SIZE == 0 && p == lo + k * PAGE_SIZE && (p + PAGE_SIZE) % WORD_LIMIT <= end && !IsPage(p)
    requires k > 0 ==> KERNEND <= lo && p <= PHYEND && p <= end
    ensures (lo + PAGE_SIZE) % WORD_LIMIT <= end
    ensures lo < KERNEND || lo + RangeCount(lo, end) * PAGE_SIZE > PHYEND || lo > PHYEND
    ensures KERNEND <= lo <= PHYEND ==> p == PHYEND
    ensures !(KERNEND <= lo <= PHYEND) ==> k == 0
  {
  }

  lemma RangeDone(lo: Word, p: Word, end: Word, k: nat)
    requires lo % PAGE_SIZE == 0 && p == lo + k * PAGE_SIZE && (p + PAGE_SIZE) % WORD_LIMIT > end
    requires k > 0 ==> KERNEND <= lo && p <= PHYEND && p <= end
    ensures lo + PAGE_SIZE <= end ==> k == RangeCount(lo, end)
    ensures (lo + PAGE_SIZE) % WORD_LIMIT > end ==> k == 0
    ensures (lo + PAGE_SIZE) % WORD_LIMIT > end || (KERNEND <= lo && lo + RangeCount(lo, end) * PAGE_SIZE <= PHYEND)
  {
  }

  /** The page at which mappages stops; out of reach if va + size wraps around. */
  function LastPage(va: Word, size: Word): (hi: nat)
    requires size > 0
    ensures va / PAGE_SIZE <= hi
  {
    var last := (va + size - 1) % WORD_LIMIT / PAGE_SIZE;
    if va / PAGE_SIZE <= last then last else va / PAGE_SIZE + NPAGES
  }

  lemma LeafSetIs(s: State, sl: Slot, pte: Word)
    requires sl.page in s.mem && sl.idx < |s.mem[sl.page]|
    ensures LeafSet(s, sl, pte) == s.(mem := SetEntry(s.mem, sl.page, sl.idx, pte))
  {
  }

  lemma RootTaken(s: State, root: nat)
    requires Inv(s) && s.frees != [] && IsRoot(s, root)
    ensures IsRoot(Taken(s), root)
  {
    assert s.frees[0] in s.frees;
  }

  lemma MappedWithin(a: State, b: State, root: nat, lo: nat, k: nat, pa: Word, perm: nat)
    requires Mapped(a, b, root, lo, k, pa, perm) && k > 0
    ensures lo < NPAGES
  {
    assert Reach(a, root, lo);
  }

  lemma TakenZeroed(s: State)
    requires s.frees != []
    ensures Taken(s).mem[s.frees[0] := Zeros()] == Taken(s).mem && Taken(s).frees == s.frees[1..]
  {
  }

  /** When the loop of uvmalloc goes on, and how many pages it starts with. */
  lemma AddBound(oldSize: Word, newSize: Word, k: nat)
    ensures Round(oldSize) + k * PAGE_SIZE < newSize ==> k < PagesToAdd(oldSize, newSize)
    ensures Round(oldSize) + k * PAGE_SIZE >= newSize ==> k >= PagesToAdd(oldSize, newSize)
  {
    hide Round;
  }

  ghost function ZeroPages(k: nat): seq<Page> { seq(k, _ => Zeros()) }

  lemma NoZeroPages()
    ensures ZeroPages(0) == []
  {
  }

  lemma ZeroPagesStep(k: nat)
    ensures ZeroPages(k + 1) == ZeroPages(k) + [Zeros()]
  {
  }

  lemma OnePage(a: Word)
    requires a % PAGE_SIZE == 0
    ensures LastPage(a, PAGE_SIZE) == a / PAGE_SIZE && (a < MAXVA <==> a / PAGE_SIZE < NPAGES)
    ensures Spread(a / PAGE_SIZE, a / PAGE_SIZE) == 2
  {
  }

  class Kernel {
    /** Physical memory of [KERNEND, PHYEND). */
    var mem: Memory
    /** kmem.freelist */
    var freelist: nat

    ghost var kind: map<nat, Kind>
    ghost var frees: seq<nat>
    ghost var cut: set<Slot>

    ghost function View(): State
      reads this
    {
      State(mem, freelist, kind, frees, cut)
    }

    /** Power-on: memory holds anything, the free list is empty, and no page belongs to it yet. */
    constructor (m: Memory)
      requires forall p :: p in m <==> IsPage(p)
      requires forall p :: p in m ==> |m[p]| == ENTRIES
      ensures Inv(View()) && frees == [] && mem == m
      ensures forall p :: p in kind ==> kind[p].Data?
    {
      mem := m;
      freelist := 0;
      kind := map p | p in m :: Data;
      frees := [];
      cut := {};
    }

    // ----- kern/phypage.c ------------------------------------------------------------------

    method Kalloc() returns (pa: Word)
      requires Wf(View())
      modifies this
      ensures old(frees) == [] ==> pa == 0 && View() == old(View())
      ensures old(frees) != [] ==>
                pa == old(frees)[0] && View() == Taken(old(View())) && IsPage(pa) && Clear(mem, pa)
      ensures Wf(View()) && (old(Inv(View())) ==> Inv(View()))
    {
      var r := freelist;
      if frees != [] {
        assert frees[0] in frees;
        TakeKeepsFreeList(View());
        RetireKeepsLinks(View(), Taken(View()), frees[0]);
        if Inv(View()) { TakeKeepsInv(View()); }
      }
      if r != 0 {
        freelist := mem[r][0];
        mem := mem[r := Zeros()];
        kind := kind[r := Data];
        frees := frees[1..];
        ZerosClear(mem, r);
      }
      return r;
    }

    method Kfree(pa: Word) returns (r: Outcome<()>)
      requires Wf(View())
      requires IsPage(pa) ==> !kind[pa].Free? && Unlinked(View(), pa)
      modifies this
      ensures IsPage(pa) <==> r.Returned?
      ensures r.Returned? ==> old(freelist) < WORD_LIMIT && View() == Given(old(View()), pa) && Wf(View())
      ensures r.Returned? ==>
                && freelist == pa && frees == [pa] + old(frees)
                && pa in mem && |mem[pa]| == ENTRIES && mem[pa][0] == old(freelist)
                && (forall j :: 0 < j < ENTRIES ==> mem[pa][j] == 0)
      ensures r.Panicked? ==> r.why == KfreeRange && View() == old(View())
      ensures r.Returned? && old(Inv(View())) && old(pa in kind && kind[pa].Data?) ==>
                Inv(View()) && KeepsMaps(old(View()), View())
    {
      hide Linked, Owned, FreeList, CutsAtRoots, NoStrays, KeepsMaps, Unlinked;
      if pa % PAGE_SIZE != 0 || pa < KERNEND || pa >= PHYEND {
        return Panicked(KfreeRange);
      }
      GiveKeepsWf(View(), pa);
      if Inv(View()) && kind[pa].Data? { GiveKeepsMaps(View(), pa); }
      var next: Word := freelist;
      var run: Page := Zeros()[0 := next];
      mem := mem[pa := run];
      freelist := pa;
      kind := kind[pa := Free];
      frees := [pa] + frees;
      return Returned(());
    }

    /**
     * freerange: the whole pages of the range are freed in order; the first one outside
     * [KERNEND, PHYEND) is a panic. `k` counts the pages freed.
     */
    method Freerange(start: Word, end: Word) returns (r: Outcome<()>, ghost k: nat)
      requires Inv(View())
      requires forall p :: p in kind && Round(start) <= p < end ==> kind[p].Data?
      modifies this
      ensures Inv(View()) && cut == old(cut) && KeepsMaps(old(View()), View())
      ensures frees == PagesDown(Round(start), k) + old(frees)
      ensures r.Returned? <==>
                || (Round(start) + PAGE_SIZE) % WORD_LIMIT > end
                || (KERNEND <= Round(start) && Round(start) + RangeCount(Round(start), end) * PAGE_SIZE <= PHYEND)
      ensures r.Panicked? ==> r.why == KfreeRange
      ensures r.Returned? && Round(start) + PAGE_SIZE <= end ==> k == RangeCount(Round(start), end)
      ensures r.Returned? && (Round(start) + PAGE_SIZE) % WORD_LIMIT > end ==> k == 0
      ensures r.Panicked? && KERNEND <= Round(start) <= PHYEND ==> Round(start) + k * PAGE_SIZE == PHYEND
      ensures r.Panicked? && !(KERNEND <= Round(start) <= PHYEND) ==> k == 0
    {
      hide Inv, Wf, Trans, KeepsMaps, PagesDown, Round;
      var p := Round(start);
      ghost var lo := p;
      PagesDownZero(lo, frees);
      KeepsMapsSelf(View());
      k := 0;
      while (p + PAGE_SIZE) % WORD_LIMIT <= end
        invariant p == lo + k * PAGE_SIZE && (k > 0 ==> KERNEND <= lo && p <= PHYEND && p <= end)
        invariant Inv(View()) && cut == old(cut)
        invariant frees == PagesDown(lo, k) + old(frees)
        invariant forall q :: q in kind && p <= q < end ==> kind[q].Data?
        invariant KeepsMaps(old(View()), View())
        decreases WORD_LIMIT - p
      {
        ghost var before := View();
        InvFacts(before, p);
        if IsPage(p) {
          GiveKeepsMaps(before, p);
          DataIsUnlinked(before, p);
        }
        var o := Kfree(p);
        if o.Panicked? {
          RangePanics(lo, p, end, k);
          return o, k;
        }
        KeepsMapsTrans(old(View()), before, View());
        PagesDownStep(lo, k, p, old(frees));
        p := p + PAGE_SIZE;
        k := k + 1;
      }
      RangeDone(lo, p, end, k);
      return Returned(()), k;
    }

    /** kinit: afterwards the free list holds every page, highest address first. */
    method Kinit() returns (r: Outcome<()>)
      requires Inv(View()) && frees == [] && forall p :: p in kind ==> kind[p].Data?
      modifies this
      ensures Inv(View()) && r.Returned? && cut == old(cut)
      ensures frees == PagesDown(KERNEND, 31744)
      ensures forall p :: p in kind ==> kind[p].Free?
    {
      hide Inv, KeepsMaps, Round, RangeCount, PagesDown;
      WholeRange();
      ghost var k;
      r, k := Freerange(KERNEND, PHYEND);
      NothingBehind(KERNEND, k);
      AllPagesFree(View());
    }

    // ----- kern/vm.c -----------------------------------------------------------------------

    /** The allocating arm of walk: entry `i` of `table` gets a fresh, cleared table, if there is one. */
    method AddTable(table: nat, i: nat, ghost level: nat) returns (page: Word)
      requires Wf(View()) && IsTable(View(), table) && i < ENTRIES && level > 0
      requires frees != [] ==> frees[0] < WORD_LIMIT && CanAttach(Taken(View()), table, i, frees[0])
      requires kind[table].level == level
      modifies this
      ensures old(frees) == [] ==> page == 0 && View() == old(View())
      ensures old(frees) != [] ==>
                && page == old(frees)[0] != 0 && Shape(Taken(old(View())))
                && CanAttach(Taken(old(View())), table, i, page)
                && View() == Attached(Taken(old(View())), table, i, page)
    {
      hide Linked, Owned, FreeList, Clear;
      page := Kalloc();
      if page != 0 {
        ghost var t := View();
        mem := mem[page := Zeros()];
        assert mem == t.mem;
        mem := SetEntry(mem, table, i, MkPte(page, PTE_V));
        kind := kind[page := Table(level - 1, Some(Slot(table, i)))];
      }
    }

    /** walk: the slot of the level-0 entry for `va`, creating tables if `alloc`; None is C's 0. */
    method Walk(root: nat, va: Word, alloc: bool) returns (r: Outcome<Option<Slot>>)
      requires Inv(View()) && IsRoot(View(), root)
      requires va < MAXVA && Slot(root, VpnL(2, va)) in cut ==> !alloc && Loops(View(), root)
      modifies this
      ensures Inv(View()) && Grew(old(View()), View(), root)
      ensures va >= MAXVA <==> r == Panicked(WalkRange)
      ensures va < MAXVA ==> r == Returned(PteSlot(mem, root, va / PAGE_SIZE))
      ensures va >= MAXVA || !alloc ==> View() == old(View())
      ensures va < MAXVA && alloc ==>
                |frees| + Missing(old(mem), root, va / PAGE_SIZE) == |old(frees)| + Missing(mem, root, va / PAGE_SIZE)
      ensures va < MAXVA && alloc && PteSlot(mem, root, va / PAGE_SIZE).None? ==> frees == []
    {
      hide Grew, KeepsMaps, KeepsData, Linked, Owned, FreeList, Trans, Pte2Pa;
      GrewSelf(View(), root);
      if va >= MAXVA {
        return Panicked(WalkRange);
      }
      ghost var n := va / PAGE_SIZE;
      VpnOfPage(va, 2);
      VpnOfPage(va, 1);
      VpnOfPage(va, 0);
      var table := root;
      var level := 2;
      while level > 0
        invariant 0 <= level <= 2
        invariant Inv(View()) && Grew(old(View()), View(), root)
        invariant Reach(View(), root, n) || (!alloc && InWindow(View(), root, n))
        invariant TableAt(mem, root, n, level) == Some(table)
        invariant !alloc ==> View() == old(View())
        invariant alloc ==> |frees| + Missing(old(mem), root, n) == |old(frees)| + Missing(mem, root, n)
      {
        WalkTables(View(), root, n, level);
        var i := VpnL(level, va);
        var pte := mem[table][i];
        assert pte == Entry(mem, table, Idx(n, level));
        WalkNext(mem, root, n, level, table);
        if Valid(pte) {
          table := Pte2Pa(pte);
        } else if alloc {
          ghost var s := View();
          WalkKinds(s, root, n);
          if s.frees != [] {
            WalkGrows(old(View()), s, root, n, level, table);
          }
          var page := AddTable(table, i, level);
          if page == 0 {
            return Returned(None);
          }
          table := page;
        } else {
          return Returned(None);
        }
        level := level - 1;
      }
      return Returned(Some(Slot(table, VpnL(0, va))));
    }
  
    /** lookup: the physical page of a user-accessible mapping, or 0, and the slot stored to *ppte. */
    method Lookup(root: nat, va: Word) returns (r: Outcome<Word>, ppte: Option<Slot>)
      requires Inv(View()) && IsRoot(View(), root)
      requires va < MAXVA && Slot(root, VpnL(2, va)) in cut ==> Loops(View(), root)
      modifies this
      ensures View() == old(View())
      ensures va >= MAXVA <==> r == Panicked(WalkRange)
      ensures va < MAXVA ==>
                var t := Trans(mem, root, va / PAGE_SIZE);
                if t.Some? && HasU(t.value.flags)
                then r == Returned(t.value.pa) && ppte == PteSlot(mem, root, va / PAGE_SIZE)
                else r == Returned(0) && ppte == None
    {
      hide Inv, Grew, IsRoot;
      ppte := None;
      var w := Walk(root, va, false);
      if w.Panicked? { return Panicked(w.why), None; }
      if w.value == None { return Returned(0), None; }
      var sl := w.value.value;
      var pte := Entry(mem, sl.page, sl.idx);
      if !Valid(pte) { return Returned(0), None; }
      if !HasU(PteFlags(pte)) { return Returned(0), None; }
      return Returned(Pte2Pa(pte)), Some(sl);
    }

    /**
     * mappages. `k` counts the pages mapped: all of them when 0 is returned, and those before the
     * failing one when the free list runs out (-1) or the kernel panics.
     */
    method Mappages(root: nat, va: Word, size: Word, pa: Word, perm: nat) returns (r: Outcome<int>, ghost k: nat)
      requires Inv(View()) && perm < 1024
      requires size > 0 ==> Open(View(), root, va / PAGE_SIZE, LastPage(va, size))
      modifies this
      ensures size == 0 <==> r == Panicked(MapSize)
      ensures size == 0 ==> View() == old(View())
      ensures size > 0 ==>
                && Inv(View()) && Extended(old(View()), View(), root)
                && Mapped(old(View()), View(), root, va / PAGE_SIZE, k, pa, perm)
      ensures r.Returned? ==> r.value == 0 || r.value == -1
      ensures r == Returned(0) ==> va / PAGE_SIZE + k == LastPage(va, size) + 1
      ensures r == Returned(-1) ==>
                && va / PAGE_SIZE + k <= LastPage(va, size)
                && frees == [] && |old(frees)| < Spread(va / PAGE_SIZE, LastPage(va, size))
      ensures r.Panicked? && size > 0 ==>
                && va / PAGE_SIZE + k <= LastPage(va, size)
                && (|| (r.why == Remap && va / PAGE_SIZE + k < NPAGES && Trans(old(mem), root, va / PAGE_SIZE + k).Some?)
                    || (r.why == WalkRange && NPAGES <= va / PAGE_SIZE + k))
      ensures r == Returned(0) ==> |old(frees)| <= |frees| + Spread(va / PAGE_SIZE, LastPage(va, size))
    {
      hide Inv, Extended, Mapped, Grew, KeepsMaps, Reach, Trans, Spread, TableAt, Missing, PteSlot, Decode, Pte2Pa,
           MkPte, Valid, SetBit0, LeafSet, IsRoot, VpnL, Idx, PaAt, PteFlags, SetEntry, Entry;
      k := 0;
      if size == 0 {
        return Panicked(MapSize), 0;
      }
      var start := RoundDown(va);
      var last := RoundDown((va + size - 1) % WORD_LIMIT);
      var to := pa;
      ghost var lo, hi := va / PAGE_SIZE, LastPage(va, size);
      ghost var a := View();
      MappedNothing(a, root, lo, pa, perm);
      while true
        invariant start == (lo + k) * PAGE_SIZE && lo + k <= hi && start < WORD_LIMIT
        invariant to == (pa + k * PAGE_SIZE) % WORD_LIMIT
        invariant Inv(View()) && Extended(a, View(), root) && Mapped(a, View(), root, lo, k, pa, perm)
        invariant k == 0 ==> View() == a
        invariant k > 0 ==> lo + k <= NPAGES && PteSlot(mem, root, lo + k - 1).Some?
        invariant k > 0 ==> |a.frees| <= |frees| + Spread(lo, lo + k - 1)
        decreases NPAGES - (lo + k)
      {
        ghost var s := View();
        StepOpen(a, s, root, lo, hi, k, pa, perm);
        if start < MAXVA { ReachIsUncut(s, root, start); }
        var w := Walk(root, start, true);
        ghost var t := View();
        if w.Panicked? {
          return Panicked(w.why), k;
        }
        SpreadStep(a, s, t, root, lo, k, hi);
        MappedGrew(a, s, t, root, lo, k, pa, perm);
        if w.value == None {
          return Returned(-1), k;
        }
        var sl := w.value.value;
        var pte := Entry(mem, sl.page, sl.idx);
        TransOfSlot(mem, root, lo + k, sl);
        GrewKeeps(s, t, root, lo + k);
        if Valid(pte) {
          return Panicked(Remap), k;
        }
        MapStep(a, s, t, root, lo, k, pa, perm, MkPte(to, SetBit0(perm)));
        mem := SetEntry(mem, sl.page, sl.idx, MkPte(to, SetBit0(perm)));
        LeafSetIs(t, sl, MkPte(to, SetBit0(perm)));
        if start == last {
          return Returned(0), k + 1;
        }
        start := start + PAGE_SIZE;
        NextPa(pa, k);
        to := (to + PAGE_SIZE) % WORD_LIMIT;
        k := k + 1;
      }
    }
  
    /** uvmcreate: an empty root table, or 0. */
    method Uvmcreate() returns (root: Word)
      requires Inv(View())
      modifies this
      ensures Inv(View())
      ensures old(frees) == [] ==> root == 0 && View() == old(View())
      ensures old(frees) != [] ==>
                && root == old(frees)[0] && IsPage(root) && View() == Rooted(Taken(old(View())), root)
                && KeepsMaps(old(View()), View()) && KeepsData(old(View()), View())
                && (forall n: nat :: n < NPAGES ==> Reach(View(), root, n))
                && (forall n :: Trans(mem, root, n) == None)
    {
      hide Wf, CutsAtRoots, NoStrays, Reach, Trans, KeepsMaps, KeepsData, Clear, Zeros;
      ghost var s := View();
      root := Kalloc();
      if root == 0 {
        return 0;
      }
      UvmcreateStep(s);
      mem := mem[root := Zeros()];
      assert mem == Taken(s).mem;
      kind := kind[root := Table(2, None)];
    }

    /** freewalk: gives back every table of a detached tree, or panics at a leaf that is still mapped. */
    method Freewalk(p: Word) returns (r: Outcome<()>)
      requires Wf(View()) && IsTable(View(), p) && kind[p].up.None?
      requires NoCutsIn(View(), p) && LeavesHaveRwx(View(), p)
      modifies this
      decreases kind[p].level
      ensures r.Returned? <==> !old(LeafIn(View(), p))
      ensures r.Panicked? ==> r.why == LeafMapped
      ensures r.Returned? ==> Wf(View()) && Freed(old(View()), View(), p)
      ensures r.Returned? && old(Inv(View())) ==> Inv(View())
    {
      hide Inv, Wf, Freed, FreeingTo, LeafIn, LeafAt, LeavesHaveRwx, NoCutsIn, Linked, Owned, FreeList, AnyRwx,
           Pte2Pa, InTree;
      ghost var a := View();
      FreeingStart(a, p);
      var i := 0;
      while i < 512
        invariant 0 <= i <= 512
        invariant Wf(View()) && FreeingTo(a, View(), p, i) && IsTable(View(), p)
      {
        var pte := Entry(mem, p, i);
        if Valid(pte) { FoundEntry(a, View(), p, i); } else { FreeingSkip(a, View(), p, i); }
        if Valid(pte) && !AnyRwx(PteFlags(pte)) {
          var child := Pte2Pa(pte);
          ghost var s := View();
          DetachReady(a, s, p, i, child);
          kind := kind[child := Table(kind[child].level, None)];
          cut := cut + {Slot(p, i)};
          assert View() == Detached(s, p, i, child);
          var o := Freewalk(child);
          if o.Panicked? {
            return o;
          }
          FreeingAdvance(a, s, View(), p, i, child);
          ghost var b := View();
          mem := SetEntry(mem, p, i, 0);
          cut := cut - {Slot(p, i)};
          assert View() == Cleared(b, p, i);
        } else if Valid(pte) {
          return Panicked(LeafMapped);
        }
        i := i + 1;
      }
      ghost var s := View();
      FreeingDone(a, s, p);
      r := Kfree(p);
      if Inv(a) { FreedKeepsInv(a, View(), p); }
    }
  
    /** kvmmap: mappages, with any failure a panic. */
    method Kvmmap(root: nat, va: Word, pa: Word, size: Word, perm: nat) returns (r: Outcome<()>)
      requires Inv(View()) && perm < 1024
      requires size > 0 ==> Open(View(), root, va / PAGE_SIZE, LastPage(va, size))
      modifies this
      ensures r.Returned? ==>
                && size > 0 && Inv(View()) && Extended(old(View()), View(), root)
                && Mapped(old(View()), View(), root, va / PAGE_SIZE, LastPage(va, size) + 1 - va / PAGE_SIZE, pa, perm)
                && |old(frees)| <= |frees| + Spread(va / PAGE_SIZE, LastPage(va, size))
      ensures r.Panicked? && size > 0 ==>
                || (r.why == Panic.Kvmmap && |old(frees)| < Spread(va / PAGE_SIZE, LastPage(va, size)))
                || (r.why == Remap && exists n: nat :: va / PAGE_SIZE <= n <= LastPage(va, size) && Trans(old(mem), root, n).Some?)
                || (r.why == WalkRange && LastPage(va, size) >= NPAGES)
    {
      var res, k := Mappages(root, va, size, pa, perm);
      if res.Panicked? {
        return Panicked(res.why);
      }
      if res.value != 0 {
        return Panicked(Panic.Kvmmap);
      }
      return Returned(());
    }

    /**
     * uvmunmap. Every iteration walks `va` rather than the advancing address, so a call for two or
     * more pages unmaps the first one and then panics.
     */
    method Uvmunmap(root: nat, va: Word, npages: Word, doFree: bool) returns (r: Outcome<int>)
      requires Inv(View()) && IsRoot(View(), root)
      requires va < MAXVA ==> Reach(View(), root, va / PAGE_SIZE)
      requires HeldIfFreed(View(), root, va, doFree)
      modifies this
      ensures Inv(View())
      ensures va % PAGE_SIZE != 0 ==> r == Panicked(UnmapAlign) && View() == old(View())
      ensures va % PAGE_SIZE == 0 && UnmapCount(va, npages) == 0 ==> r == Returned(0) && View() == old(View())
      ensures va % PAGE_SIZE == 0 && UnmapCount(va, npages) > 0 ==>
                var first := UnmapResult(old(mem), root, va, doFree);
                if first.Panicked? then r == first && View() == old(View())
                else
                  && Unmapped(old(View()), View(), root, va / PAGE_SIZE, doFree)
                  && r == if UnmapCount(va, npages) == 1 then Returned(0) else Panicked(NotMapped)
    {
      hide Remapped, Linked, Owned, FreeList, Spread, TableAt, Grew, PteSlot, IsPage;
      if va % PAGE_SIZE != 0 {
        return Panicked(UnmapAlign);
      }
      ghost var s := View();
      ghost var n := va / PAGE_SIZE;
      GiveWordRange(s);
      var a := va;
      var end := (va + npages * PAGE_SIZE) % WORD_LIMIT;
      ghost var j := 0;
      while a < end
        invariant a == va + j * PAGE_SIZE && j <= 1 && (j == 1 ==> va < end)
        invariant Inv(View()) && IsRoot(View(), root)
        invariant va < MAXVA ==> Reach(View(), root, n)
        invariant j == 0 ==> View() == s
        invariant j == 1 ==> UnmapResult(s.mem, root, va, doFree) == Returned(0) && Unmapped(s, View(), root, n, doFree)
        invariant j == 1 ==> va < MAXVA && Trans(mem, root, n) == None
      {
        if va < MAXVA { ReachIsUncut(View(), root, va); }
        var w := Walk(root, va, false);
        if w.Panicked? {
          return Panicked(w.why);
        }
        if w.value == None {
          assert Trans(mem, root, n) == None;
          return Panicked(NotMapped);
        }
        var sl := w.value.value;
        var pte := Entry(mem, sl.page, sl.idx);
        TransOfSlot(mem, root, n, sl);
        if !Valid(pte) {
          return Panicked(NotMapped);
        }
        if PteFlags(pte) == PTE_V {
          return Panicked(NotLeaf);
        }
        assert j == 0;
        if doFree {
          if IsPage(Pte2Pa(pte)) {
            DataIsUnlinked(s, Pte2Pa(pte));
          } else {
            assert UnmapResult(s.mem, root, va, doFree) == Panicked(KfreeRange);
          }
          var o := Kfree(Pte2Pa(pte));
          if o.Panicked? {
            return Panicked(o.why);
          }
        }
        UnmapStep(s, root, n, doFree);
        mem := SetEntry(mem, sl.page, sl.idx, 0);
        assert View() == LeafSet(AfterFree(s, root, n, doFree), sl, 0);
        a := a + PAGE_SIZE;
        j := j + 1;
      }
      return Returned(0);
    }
  
    /**
     * uvmdealloc: shrinks by at most one page; asked for more it always panics, with the first
     * page already gone.
     */
    method Uvmdealloc(root: nat, oldSize: Word, newSize: Word) returns (r: Outcome<Word>)
      requires Inv(View()) && IsRoot(View(), root)
      requires Round(newSize) < Round(oldSize) && Round(newSize) < MAXVA ==> Reach(View(), root, Round(newSize) / PAGE_SIZE)
      requires Round(newSize) < Round(oldSize) ==> HeldIfFreed(View(), root, Round(newSize), true)
      modifies this
      ensures Inv(View())
      ensures newSize >= oldSize ==> r == Returned(oldSize) && View() == old(View())
      ensures newSize < oldSize && PagesToDrop(oldSize, newSize) == 0 ==> r == Returned(newSize) && View() == old(View())
      ensures newSize < oldSize && PagesToDrop(oldSize, newSize) > 0 ==>
                var first := UnmapResult(old(mem), root, Round(newSize), true);
                if first.Panicked? then r == Panicked(first.why) && View() == old(View())
                else
                  && Unmapped(old(View()), View(), root, Round(newSize) / PAGE_SIZE, true)
                  && r == if PagesToDrop(oldSize, newSize) == 1 then Returned(newSize) else Panicked(NotMapped)
    {
      hide Inv, Unmapped, Reach, HeldIfFreed, UnmapResult, UnmapCount, Round, ThroughInt;
      if newSize >= oldSize {
        return Returned(oldSize);
      }
      if Round(newSize) < Round(oldSize) {
        var npages := ThroughInt((Round(oldSize) - Round(newSize)) / PAGE_SIZE);
        var o := Uvmunmap(root, Round(newSize), npages, true);
        if o.Panicked? {
          return Panicked(o.why);
        }
      }
      return Returned(newSize);
    }

    /** The failure arms of uvmalloc: uvmdealloc of what was mapped since state `a0`, then 0. */
    method GiveUp(root: nat, a: Word, base: Word, ghost perm: nat, ghost a0: State, ghost pages: seq<nat>,
                  ghost data: seq<Page>)
        returns (r: Outcome<Word>)
      requires Inv(a0) && Inv(View()) && IsRoot(View(), root) && perm < 1024
      requires base % PAGE_SIZE == 0 && a == base + |pages| * PAGE_SIZE && (a <= MAXVA || pages == [])
      requires Backed(a0, View(), root, base / PAGE_SIZE, pages, data, SetBit0(OrRU(perm)))
      modifies this
      ensures r == if |pages| <= 1 then Returned(0) else Panicked(NotMapped)
      ensures Inv(View())
      ensures r.Returned? ==>
                && KeepsMaps(a0, View()) && KeepsHeld(a0, View()) && FreeOrTree(a0, View(), root)
                && forall p :: p in pages ==> p in kind && kind[p].Free?
    {
      hide Inv, Backed, Unmapped, KeepsMaps, Reach, HeldIfFreed, UnmapResult, IsRoot, Round, PagesToDrop, KeepsHeld,
           FreeOrTree;
      ghost var s := View();
      ghost var lo := base / PAGE_SIZE;
      if pages == [] {
        NoPages(a0, s, root, lo, data, SetBit0(OrRU(perm)));
      } else {
        BackedRange(a0, s, root, lo, pages, data, perm, a);
      }
      var o := Uvmdealloc(root, a, base);
      if |pages| == 1 {
        BackedThenUnmapped(a0, s, View(), root, lo, pages, data, SetBit0(OrRU(perm)));
        BackedThenFree(a0, s, View(), root, lo, pages, data, SetBit0(OrRU(perm)));
      }
      if o.Panicked? {
        return Panicked(o.why);
      }
      return Returned(0);
    }

    /**
     * One turn of uvmalloc's loop, at `a`: a fresh page is mapped there (true), or memory ran out
     * and everything is as it was before the turn (false).
     */
    method GrowOne(root: nat, a: Word, perm: nat, ghost a0: State, ghost lo: nat, ghost pages: seq<nat>)
        returns (o: Outcome<bool>, ghost m: nat)
      requires Inv(View()) && IsRoot(View(), root) && IsRoot(a0, root) && perm < 1024 && a == (lo + |pages|) * PAGE_SIZE
      requires Backed(a0, View(), root, lo, pages, ZeroPages(|pages|), SetBit0(OrRU(perm)))
      requires lo + |pages| < NPAGES ==> Reach(a0, root, lo + |pages|)
      modifies this
      ensures o.Panicked? ==>
                || (o.why == Remap && Trans(a0.mem, root, lo + |pages|).Some?)
                || (o.why == WalkRange && NPAGES <= lo + |pages|)
      ensures o.Returned? ==> Inv(View()) && IsRoot(View(), root)
      ensures o == Returned(true) ==>
                && lo + |pages| < NPAGES && |old(frees)| <= |frees| + 3
                && Backed(a0, View(), root, lo, pages + [m], ZeroPages(|pages| + 1), SetBit0(OrRU(perm)))
      ensures o == Returned(false) ==>
                |old(frees)| < 3 && Backed(a0, View(), root, lo, pages, ZeroPages(|pages|), SetBit0(OrRU(perm)))
    {
      hide Wf, CutsAtRoots, NoStrays, Extended, Mapped, KeepsMaps, KeepsData, Reach, Trans, Backed, Spread, OrRU,
           SetBit0, LastPage, Given, PteFlags, Taken, Zeros, Took, IsRoot, VpnL, Idx, SetEntry, Entry, ZeroPages;
      ghost var s := View();
      ghost var n, flags, zeros := lo + |pages|, SetBit0(OrRU(perm)), ZeroPages(|pages|);
      if s.frees != [] {
        TakenTook(s);
        TakenZeroed(s);
        RootTaken(s, root);
        BackOpen(a0, s, Taken(s), root, lo, pages, zeros, flags);
      }
      m := 0;
      var p := Kalloc();
      if p == 0 {
        return Returned(false), m;
      }
      m := p;
      mem := mem[p := Zeros()];
      assert mem == Taken(s).mem;
      OnePage(a);
      var r, k := Mappages(root, a, PAGE_SIZE, p, OrRU(perm));
      if r.Panicked? {
        return Panicked(r.why), m;
      }
      if r.value != 0 {
        BackFailed(a0, s, Taken(s), View(), root, lo, pages, zeros, p, Zeros(), flags, n, OrRU(perm));
        var f := Kfree(p);
        BackedRoot(a0, View(), root, lo, pages, zeros, flags);
        return Returned(false), m;
      }
      MappedWithin(Taken(s), View(), root, n, k, p, OrRU(perm));
      BackStep(a0, s, Taken(s), View(), root, lo, pages, zeros, p, Zeros(), flags, OrRU(perm));
      ZeroPagesStep(|pages|);
      BackedRoot(a0, View(), root, lo, pages + [m], ZeroPages(|pages| + 1), flags);
      return Returned(true), m;
    }

    /**
     * uvmalloc. `pages` are the physical pages mapped, in order; `full` says whether all were.
     * If memory runs out, what was mapped is taken back through uvmdealloc.
     */
    method Uvmalloc(root: nat, oldSize: Word, newSize: Word, perm: nat)
        returns (r: Outcome<Word>, ghost pages: seq<nat>, ghost full: bool)
      requires Inv(View()) && IsRoot(View(), root) && perm < 1024
      requires forall n: nat :: Round(oldSize) <= n * PAGE_SIZE < newSize && n < NPAGES ==> Reach(View(), root, n)
      modifies this
      ensures newSize < oldSize ==> r == Returned(oldSize) && View() == old(View())
      ensures newSize >= oldSize && full ==>
                && r == Returned(newSize) && Inv(View()) && |pages| == PagesToAdd(oldSize, newSize)
                && Backed(old(View()), View(), root, Round(oldSize) / PAGE_SIZE, pages, ZeroPages(|pages|), SetBit0(OrRU(perm)))
                && forall j :: 0 <= j < |pages| ==>
                     HwMaps(mem, root, Round(oldSize) / PAGE_SIZE + j, pages[j], {V_BIT, R_BIT, U_BIT} + BitsOf(perm))
      ensures newSize >= oldSize && !full ==> |pages| < PagesToAdd(oldSize, newSize)
      ensures newSize >= oldSize && !full ==>
                || (r == Panicked(Remap) && Trans(old(mem), root, Round(oldSize) / PAGE_SIZE + |pages|).Some?)
                || (r == Panicked(WalkRange) && NPAGES <= Round(oldSize) / PAGE_SIZE + |pages|)
                || (r == (if |pages| <= 1 then Returned(0) else Panicked(NotMapped))
                    && |old(frees)| < 3 * PagesToAdd(oldSize, newSize))
      ensures newSize >= oldSize && !full && r.Returned? ==>
                && Inv(View()) && KeepsMaps(old(View()), View()) && KeepsHeld(old(View()), View())
                && FreeOrTree(old(View()), View(), root)
                && forall p :: p in pages ==> p in kind && kind[p].Free?
    {
      hide Wf, CutsAtRoots, NoStrays, KeepsMaps, KeepsData, Reach, Trans, Backed, OrRU, SetBit0, PagesToAdd, Round,
           KeepsHeld, FreeOrTree, IsRoot, ZeroPages, HwMaps, BitsOf;
      pages, full := [], true;
      if newSize < oldSize {
        return Returned(oldSize), pages, full;
      }
      var base := Round(oldSize);
      ghost var a0 := View();
      ghost var lo := base / PAGE_SIZE;
      BackNothing(a0, root, lo, SetBit0(OrRU(perm)));
      NoZeroPages();
      var a := base;
      while a < newSize
        invariant a == base + |pages| * PAGE_SIZE && (a <= MAXVA || pages == [])
        invariant |pages| <= PagesToAdd(oldSize, newSize)
        invariant Inv(View()) && IsRoot(View(), root)
        invariant Backed(a0, View(), root, lo, pages, ZeroPages(|pages|), SetBit0(OrRU(perm)))
        invariant full && |a0.frees| <= |frees| + 3 * |pages|
      {
        AddBound(oldSize, newSize, |pages|);
        assert a == (lo + |pages|) * PAGE_SIZE;
        var o, m := GrowOne(root, a, perm, a0, lo, pages);
        if o.Panicked? {
          full := false;
          return Panicked(o.why), pages, full;
        }
        if !o.value {
          full := false;
          r := GiveUp(root, a, base, perm, a0, pages, ZeroPages(|pages|));
          return r, pages, full;
        }
        pages := pages + [m];
        a := a + PAGE_SIZE;
      }
      AddBound(oldSize, newSize, |pages|);
      OrRUBits(perm);
      BackedHw(a0, View(), root, lo, pages, ZeroPages(|pages|), SetBit0(OrRU(perm)), {V_BIT, R_BIT, U_BIT} + BitsOf(perm));
      return Returned(newSize), pages, full;
    }

    /**
     * kvm_copy_to_user_pagetable, with the kernel table as a parameter. Running out of memory is
     * the only failure, and it never yields -1: the clean-up with uvmunmap panics.
     */
    method KvmCopyToUserPagetable(kpt: nat, upt: nat) returns (r: Outcome<int>)
      requires Inv(View()) && kpt != upt
      requires forall n: nat :: KERNEL_PAGE <= n < NPAGES ==> Reach(View(), kpt, n) && Reach(View(), upt, n)
      requires forall n: nat :: KERNEL_PAGE <= n < NPAGES ==> Trans(mem, upt, n) == None
      modifies this
      ensures Inv(View())
      ensures r.Returned? ==>
                && r.value == 0 && Extended(old(View()), View(), upt)
                && CopiedTo(old(View()), View(), kpt, upt, NPAGES)
      ensures r.Panicked? ==>
                (r.why == NotMapped || r.why == NotLeaf) && frees == [] && OthersKeep(old(View()), View(), upt)
    {
      hide Wf, CutsAtRoots, NoStrays, Extended, Mapped, KeepsMaps, KeepsData, Trans, CopiedTo, Spread, TableAt,
           Pte2Pa, Remapped, Reach, IsRoot, OthersKeep;
      ghost var a := View();
      CopyStart(a, kpt, upt);
      var i := 0x8000_0000;
      while i < MAXVA
        invariant i % PAGE_SIZE == 0 && 0x8000_0000 <= i <= MAXVA
        invariant Inv(View()) && Extended(a, View(), upt) && CopiedTo(a, View(), kpt, upt, i / PAGE_SIZE)
      {
        ghost var s := View();
        ghost var n := i / PAGE_SIZE;
        CopyAt(a, s, kpt, upt, n, i);
        var w := Walk(kpt, i, false);
        if w.value == None {
          NoSlot(mem, kpt, n);
          CopySkip(a, s, kpt, upt, n);
        } else {
          var sl := w.value.value;
          var pte := Entry(mem, sl.page, sl.idx);
          TransOfSlot(mem, kpt, n, sl);
          if !Valid(pte) {
            CopySkip(a, s, kpt, upt, n);
          } else {
            var pa := Pte2Pa(pte);
            var flags := PteFlags(pte);
            DecodeValid(pte);
            OnePage(i);
            var o, k := Mappages(upt, i, PAGE_SIZE, pa, flags);
            assert o.Returned?;
            if o.value != 0 {
              CopyFailed(a, s, View(), kpt, upt, n, pa, flags);
              assert UnmapCount(0x8000_0000, i / PAGE_SIZE) == i / PAGE_SIZE;
              ghost var w := View();
              r := Uvmunmap(upt, 0x8000_0000, i / PAGE_SIZE, false);
              CopyGaveUp(a, s, w, View(), kpt, upt, n, pa, flags);
              return r;
            }
            CopyStep(a, s, View(), kpt, upt, n, pa, flags);
            ExtendedTrans(a, s, View(), upt);
          }
        }
        i := i + PAGE_SIZE;
      }
      return Returned(0);
    }
  }
}
