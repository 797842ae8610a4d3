/** The address space of an environment: env_setup_vm and the VM part of env_free (kern/env.c). */
module EnvVm {
  import opened Bits
  import opened Outcomes
  import opened Mmu
  import opened PageTable
  import opened UserMemory
  import opened Sv39
  import opened Vm

  /** VPN_L(2, UVPT), the root slot of the self-map. */
  const SELF: nat := 254

  lemma SelfIsUvptSlot()
    ensures VpnL(2, UVPT) == SELF && VpnL(1, UVPT) == 511 && VpnL(0, UVPT) == 511
  {
  }

  ghost predicate Uncut(s: State, root: nat) { forall j :: Slot(root, j) !in s.cut }

  /** A table that hung below the self-map slot. */
  ghost predicate Orphan(s: State, root: nat, q: nat) {
    && IsTable(s, q) && s.kind[q].up.Some?
    && var u := s.kind[q].up.value;
       u == Slot(root, SELF) || (IsTable(s, u.page) && s.kind[u.page].up == Some(Slot(root, SELF)))
  }

  /**
   * Overwriting root slot 254 with an entry that points to the root itself. The tables that hung
   * there are no longer tables of anyone: they stay allocated, and lost.
   */
  ghost function SelfMapped(s: State, root: Word): State
    requires root in s.mem && |s.mem[root]| == ENTRIES
  {
    s.(mem := SetEntry(s.mem, root, SELF, MkPte(root, PTE_V + PTE_R + PTE_U)),
       kind := map q | q in s.kind :: if Orphan(s, root, q) then Data else s.kind[q],
       cut := s.cut + {Slot(root, SELF)})
  }

  lemma OrphanChild(s: State, root: nat, q: nat, up: Slot)
    requires Inv(s) && Hangs(s, q, up) && Orphan(s, root, up.page)
    ensures Orphan(s, root, q)
  {
    assert LinkedFrom(s, q, up);
    var u := s.kind[up.page].up.value;
    if u != Slot(root, SELF) {
      assert Hangs(s, up.page, u);
      assert Hangs(s, u.page, Slot(root, SELF));
    }
  }

  lemma RootIsPage(s: State, root: nat)
    requires Inv(s) && IsRoot(s, root)
    ensures IsPage(root) && root in s.mem && |s.mem[root]| == ENTRIES
  {
  }

  lemma SelfMapLinked(s: State, root: Word)
    requires Inv(s) && IsRoot(s, root) && root in s.mem && |s.mem[root]| == ENTRIES
    ensures Linked(SelfMapped(s, root))
  {
    hide Owned, FreeList, MkPte;
    var b := SelfMapped(s, root);
    forall q: nat, j: nat | IsTable(b, q) && b.kind[q].level > 0 && j < ENTRIES
      && Slot(q, j) !in b.cut && Valid(Entry(b.mem, q, j))
      ensures var d := Pte2Pa(Entry(b.mem, q, j));
              d in b.kind && b.kind[d] == Table(b.kind[q].level - 1, Some(Slot(q, j)))
    {
      assert IsTable(s, q) && Entry(b.mem, q, j) == Entry(s.mem, q, j) && Slot(q, j) !in s.cut;
    }
  }

  lemma SelfMapOwned(s: State, root: Word)
    requires Inv(s) && IsRoot(s, root) && root in s.mem && |s.mem[root]| == ENTRIES
    ensures Owned(SelfMapped(s, root))
  {
    hide Linked, FreeList, MkPte;
    var b := SelfMapped(s, root);
    forall q, up | Hangs(b, q, up) ensures LinkedFrom(b, q, up) {
      assert Hangs(s, q, up) && LinkedFrom(s, q, up);
      if Orphan(s, root, up.page) { OrphanChild(s, root, q, up); }
    }
  }

  lemma SelfMapKeepsInv(s: State, root: Word)
    requires Inv(s) && IsRoot(s, root)
    ensures root in s.mem && |s.mem[root]| == ENTRIES && Inv(SelfMapped(s, root))
  {
    hide Linked, Owned, MkPte;
    RootIsPage(s, root);
    SelfMapLinked(s, root);
    SelfMapOwned(s, root);
    FreeListFrame(s, SelfMapped(s, root));
  }

  lemma SelfMapKeepsTrans(s: State, root: Word, r: nat, n: nat)
    requires Inv(s) && IsRoot(s, root) && Reach(s, r, n) && !(r == root && Idx(n, 2) == SELF)
    ensures Reach(SelfMapped(s, root), r, n)
    ensures Trans(SelfMapped(s, root).mem, r, n) == Trans(s.mem, r, n)
  {
    WalkKinds(s, r, n);
    assert r in s.kind && !Orphan(s, root, r);
  }

  /** Page number of the page that indices (a, b, c) select. */
  function PageNo(a: nat, b: nat, c: nat): (n: nat)
    requires a < 256 && b < 512 && c < 512
    ensures n < NPAGES && Idx(n, 2) == a && Idx(n, 1) == b && Idx(n, 0) == c
  {
    var n := a * 0x4_0000 + b * 512 + c;
    assert n / 0x4_0000 == a && n / 512 == a * 512 + b;
    n
  }

  /**
   * Inside the window of the self-map the software walk of (254, b, c) ends at entry c of the
   * table held in root slot b, and nowhere if that slot is invalid. Slot 254 itself leads back
   * to the root.
   */
  lemma SelfMapWindow(s: State, root: Word, b: nat, c: nat)
    requires Inv(s) && IsRoot(s, root) && b < 512 && c < 512
    ensures var m := SelfMapped(s, root).mem;
            PteSlot(m, root, PageNo(SELF, b, c)) ==
              match Next(m, root, b)
              case None => None
              case Some(t) => Some(Slot(t, c))
    ensures Next(SelfMapped(s, root).mem, root, SELF) == Some(root)
    ensures b != SELF ==> Next(SelfMapped(s, root).mem, root, b) == Next(s.mem, root, b)
  {
    PteRoundTrip(root, PTE_V + PTE_R + PTE_U);
  }

  /** Root slots from 256 on are never valid: every walked address is below MAXVA. */
  lemma HighSlotsInvalid(s: State, root: nat, b: nat)
    requires Inv(s) && IsRoot(s, root) && 256 <= b < 512 && Slot(root, b) !in s.cut
    ensures !Valid(Entry(s.mem, root, b))
  {
    if Valid(Entry(s.mem, root, b)) {
      assert Hangs(s, Pte2Pa(Entry(s.mem, root, b)), Slot(root, b));
    }
  }

  /**
   * UVPT, documented as the base of the self-mapped tables, is the last page of the 1 GiB window
   * of slot 254: its walk goes through root slot 511, so it is never mapped. The same holds for
   * every ENVS(i): the copied window of env structures is gone.
   */
  lemma UvptAndEnvsUnmapped(s: State, root: Word, i: nat)
    requires Inv(s) && IsRoot(s, root) && Uncut(s, root) && i < 1024
    ensures PteSlot(SelfMapped(s, root).mem, root, UVPT / PAGE_SIZE) == None
    ensures Idx(EnvsVa(i) / PAGE_SIZE, 2) == SELF
    ensures PteSlot(SelfMapped(s, root).mem, root, EnvsVa(i) / PAGE_SIZE) == None
  {
    SelfMapMisses(s, root, UVPT / PAGE_SIZE);
    SelfMapMisses(s, root, EnvsVa(i) / PAGE_SIZE);
  }

  lemma SelfMapMisses(s: State, root: Word, n: nat)
    requires Inv(s) && IsRoot(s, root) && Uncut(s, root)
    requires n < NPAGES && Idx(n, 2) == SELF && Idx(n, 1) >= 256
    ensures PteSlot(SelfMapped(s, root).mem, root, n) == None
  {
    var b := Idx(n, 1);
    HighSlotsInvalid(s, root, b);
    SelfMapWindow(s, root, b, Idx(n, 0));
    IdxInjective(n, PageNo(SELF, b, Idx(n, 0)));
  }

  /**
   * The hardware does not see the software's view of the window: the self-map entry has R set, so
   * Sv39 takes it for a 1 GiB leaf, and no table page is 1 GiB aligned. Every access faults.
   */
  lemma SelfMapFaults(s: State, root: Word, n: nat)
    requires Inv(s) && IsRoot(s, root) && n < NPAGES && Idx(n, 2) == SELF
    ensures HwTranslate(SelfMapped(s, root).mem, root, n, 2) == None
  {
    RootIsPage(s, root);
    hide Inv;
    HugeFaults(SelfMapped(s, root).mem, root, n);
  }

  /** A top-level entry with R set that points to a page of the managed range. */
  lemma HugeFaults(m: Memory, root: Word, n: nat)
    requires IsPage(root) && Entry(m, root, Idx(n, 2)) == MkPte(root, PTE_V + PTE_R + PTE_U)
    ensures HwTranslate(m, root, n, 2) == None
  {
    hide Entry, Idx, IsPage;
    var pte := Entry(m, root, Idx(n, 2));
    PageInRange(root);
    assert pte / 1024 == root / PAGE_SIZE && IsLeaf(pte);
    assert 0x8_0000 < root / PAGE_SIZE < 0xC_0000;
  }

  lemma PageInRange(p: nat)
    requires IsPage(p)
    ensures KERNEND <= p < PHYEND
  {
  }

  /**
   * The window of the self-map: its entry points to the root with V, R and U; what software sees
   * there, and that the hardware sees nothing.
   */
  ghost predicate EnvWindow(b: State, root: nat) {
    && Pte2Pa(Entry(b.mem, root, 254)) == root && BitsAre(PteFlags(Entry(b.mem, root, 254)), {V_BIT, R_BIT, U_BIT})
    && (forall i: nat, j: nat :: i < 512 && j < 512 ==>
          PteSlot(b.mem, root, PageNo(SELF, i, j)) ==
            (if Next(b.mem, root, i).Some? then Some(Slot(Next(b.mem, root, i).value, j)) else None))
    && (forall n: nat :: n < NPAGES && Idx(n, 2) == SELF ==> HwTranslate(b.mem, root, n, 2) == None)
    && PteSlot(b.mem, root, UVPT / PAGE_SIZE) == None
    && (forall i: nat :: i < NENV ==> PteSlot(b.mem, root, EnvsVa(i) / PAGE_SIZE) == None)
  }

  /** Outside that window: the kernel half agrees with the kernel table, the user half is empty. */
  ghost predicate EnvHalves(a: State, b: State, kpt: nat, root: nat) {
    forall n: nat :: n < NPAGES && Idx(n, 2) != SELF ==>
      && Reach(b, root, n)
      && Trans(b.mem, root, n) == if n >= KERNEL_PAGE then Trans(a.mem, kpt, n) else None
  }

  /** What env_setup_vm promises about the new table `root`, made from the kernel table `kpt`. */
  ghost predicate EnvTable(a: State, b: State, kpt: nat, root: nat) {
    IsRoot(b, root) && Slot(root, SELF) in b.cut && Loops(b, root) && EnvHalves(a, b, kpt, root) && EnvWindow(b, root)
  }

  /** env_setup_vm for the kernel table `kpt`; the new table goes to e->env_pgtable. */
  method EnvSetupVm(k: Kernel, kpt: nat) returns (r: Outcome<int>, root: Word)
    requires Inv(k.View()) && forall n: nat :: n < NPAGES ==> Reach(k.View(), kpt, n)
    modifies k
    ensures Inv(k.View())
    ensures r.Returned? ==> r.value == 0 || r.value == -E_NO_MEM
    ensures r == Returned(-E_NO_MEM) <==> old(k.frees) == []
    ensures r == Returned(-E_NO_MEM) ==> k.View() == old(k.View())
    ensures r == Returned(0) ==>
              && EnvTable(old(k.View()), k.View(), kpt, root)
              && KeepsMaps(old(k.View()), k.View()) && KeepsData(old(k.View()), k.View())
    ensures r.Panicked? ==>
              (r.why == NotMapped || r.why == NotLeaf) && k.frees == [] && KeepsMaps(old(k.View()), k.View())
  {
    hide Wf, CutsAtRoots, NoStrays, Extended, Trans, KeepsMaps, KeepsData, CopiedTo, EnvTable, OthersKeep;
    ghost var a := k.View();
    root := k.Uvmcreate();
    if root == 0 {
      return Returned(-E_NO_MEM), 0;
    }
    ghost var b := k.View();
    FreshEnvTable(a, b, kpt, root);
    var o := k.KvmCopyToUserPagetable(kpt, root);
    if o.Panicked? {
      OthersAreAll(a, b, k.View(), root);
      return o, root;
    }
    // The copy returns 0 or not at all, so the panic the kernel has for other results is dead.
    ghost var c := k.View();
    EnvTableBuilt(a, b, c, kpt, root);
    k.mem := SetEntry(k.mem, root, SELF, MkPte(root, PTE_V + PTE_R + PTE_U));
    k.kind := map q | q in c.kind :: if Orphan(c, root, q) then Data else c.kind[q];
    k.cut := k.cut + {Slot(root, SELF)};
    assert k.View() == SelfMapped(c, root);
    return Returned(0), root;
  }

  /** The tables other than a fresh one are all the tables there were. */
  lemma OthersAreAll(a: State, b: State, c: State, root: nat)
    requires KeepsMaps(a, b) && OthersKeep(b, c, root) && !IsRoot(a, root)
    ensures KeepsMaps(a, c)
  {
    hide Trans;
  }

  lemma FreshEnvTable(a: State, b: State, kpt: nat, root: nat)
    requires Inv(a) && a.frees != [] && root == a.frees[0] && b == Rooted(Taken(a), root)
    requires forall n: nat :: n < NPAGES ==> Reach(a, kpt, n)
    ensures kpt != root && !IsRoot(a, root) && IsRoot(b, root) && Uncut(b, root)
    ensures forall n: nat :: n < NPAGES ==> Reach(b, kpt, n) && Reach(b, root, n)
  {
    assert root in a.frees && Reach(a, kpt, 0);
    forall n: nat | n < NPAGES ensures Reach(b, kpt, n) {
      assert Reach(a, kpt, n);
    }
  }

  lemma EnvTableTrans(a: State, b: State, c: State, kpt: nat, root: Word, n: nat)
    requires Inv(c) && KeepsMaps(a, b) && CopiedTo(b, c, kpt, root, NPAGES)
    requires Reach(a, kpt, n) && Reach(b, root, n) && Trans(b.mem, root, n) == None
    requires n < NPAGES && Idx(n, 2) != SELF
    ensures root in c.mem && |c.mem[root]| == ENTRIES && Reach(SelfMapped(c, root), root, n)
    ensures Trans(SelfMapped(c, root).mem, root, n) == if n >= KERNEL_PAGE then Trans(a.mem, kpt, n) else None
  {
    hide Trans, SelfMapped;
    assert Reach(b, kpt, n) && Reach(c, root, n);
    SelfMapKeepsTrans(c, root, root, n);
  }

  lemma EnvTableKeeps(a: State, b: State, c: State, kpt: nat, root: Word)
    requires Inv(c) && IsRoot(c, root) && KeepsMaps(a, b) && CopiedTo(b, c, kpt, root, NPAGES) && !IsRoot(a, root)
    ensures root in c.mem && |c.mem[root]| == ENTRIES && KeepsMaps(a, SelfMapped(c, root))
  {
    hide Trans, SelfMapped, Inv;
    SelfMapKeepsInv(c, root);
    forall r: nat, n: nat | Reach(a, r, n)
      ensures Reach(SelfMapped(c, root), r, n) && Trans(SelfMapped(c, root).mem, r, n) == Trans(a.mem, r, n)
    {
      assert Reach(b, r, n) && Reach(c, r, n);
      SelfMapKeepsTrans(c, root, r, n);
    }
  }

  lemma SelfEntry(c: State, root: Word)
    requires Inv(c) && IsRoot(c, root)
    ensures root in c.mem && |c.mem[root]| == ENTRIES
    ensures var pte := Entry(SelfMapped(c, root).mem, root, 254);
            Pte2Pa(pte) == root && BitsAre(PteFlags(pte), {V_BIT, R_BIT, U_BIT})
  {
    hide Linked, Owned, FreeList, BitsAre;
    PteRoundTrip(root, PTE_V + PTE_R + PTE_U);
    MaskBits(true, false, false, true);
    assert MaskSet(true, false, false, true) == {V_BIT, R_BIT, U_BIT};
  }

  lemma SelfMapView(c: State, root: Word)
    requires Inv(c) && IsRoot(c, root) && Uncut(c, root)
    ensures root in c.mem && |c.mem[root]| == ENTRIES && EnvWindow(SelfMapped(c, root), root)
  {
    var d := SelfMapped(c, root);
    SelfEntry(c, root);
    hide Inv, SelfMapped, HwTranslate, PageNo, BitsAre, PteFlags, Pte2Pa;
    forall i: nat, j: nat | i < 512 && j < 512
      ensures PteSlot(d.mem, root, PageNo(SELF, i, j)) ==
                (if Next(d.mem, root, i).Some? then Some(Slot(Next(d.mem, root, i).value, j)) else None)
    {
      SelfMapWindow(c, root, i, j);
    }
    forall n: nat | n < NPAGES && Idx(n, 2) == SELF ensures HwTranslate(d.mem, root, n, 2) == None {
      SelfMapFaults(c, root, n);
    }
    forall i: nat | i < NENV
      ensures PteSlot(d.mem, root, UVPT / PAGE_SIZE) == None && PteSlot(d.mem, root, EnvsVa(i) / PAGE_SIZE) == None
    {
      UvptAndEnvsUnmapped(c, root, i);
    }
    UvptAndEnvsUnmapped(c, root, 0);
  }

  lemma EnvTableFrame(a: State, b: State, c: State, root: Word)
    requires Inv(c) && IsRoot(c, root) && KeepsData(a, b) && Extended(b, c, root)
    ensures root in c.mem && |c.mem[root]| == ENTRIES
    ensures IsRoot(SelfMapped(c, root), root) && Slot(root, SELF) in SelfMapped(c, root).cut
    ensures KeepsData(a, SelfMapped(c, root))
  {
    assert KeepsData(b, c);
    hide Linked, Owned, FreeList;
  }

  /** The self-map entry is the only cut slot of the new table, and it leads back to the root. */
  lemma SelfMapLoops(c: State, root: Word)
    requires Inv(c) && IsRoot(c, root) && Uncut(c, root)
    ensures root in c.mem && |c.mem[root]| == ENTRIES && Loops(SelfMapped(c, root), root)
  {
    SelfMapWindow(c, root, 0, 0);
    hide Inv, Next;
  }

  lemma GrownUncut(b: State, c: State, kpt: nat, root: Word)
    requires Extended(b, c, root) && CopiedTo(b, c, kpt, root, NPAGES) && Reach(b, root, 0) && Uncut(b, root)
    ensures IsRoot(c, root) && Uncut(c, root)
  {
    assert Reach(c, root, 0);
  }

  lemma EnvTableBuilt(a: State, b: State, c: State, kpt: nat, root: Word)
    requires Inv(c) && KeepsMaps(a, b) && KeepsData(a, b)
    requires forall n: nat :: n < NPAGES ==> Reach(a, kpt, n) && Reach(b, kpt, n) && Reach(b, root, n)
    requires forall n :: Trans(b.mem, root, n) == None
    requires Uncut(b, root) && !IsRoot(a, root)
    requires Extended(b, c, root) && CopiedTo(b, c, kpt, root, NPAGES)
    ensures root in c.mem && |c.mem[root]| == ENTRIES && Inv(SelfMapped(c, root))
    ensures EnvTable(a, SelfMapped(c, root), kpt, root)
    ensures KeepsMaps(a, SelfMapped(c, root)) && KeepsData(a, SelfMapped(c, root))
  {
    hide Inv, Linked, Owned, FreeList, Trans, Loops, EnvWindow;
    GrownUncut(b, c, kpt, root);
    SelfMapKeepsInv(c, root);
    EnvTableFrame(a, b, c, root);
    var d := SelfMapped(c, root);
    hide SelfMapped, Extended, KeepsData, CopiedTo, KeepsMaps;
    EnvTableKeeps(a, b, c, kpt, root);
    SelfMapView(c, root);
    SelfMapLoops(c, root);
    forall n: nat | n < NPAGES && Idx(n, 2) != SELF
      ensures Reach(d, root, n) && Trans(d.mem, root, n) == if n >= KERNEL_PAGE then Trans(a.mem, kpt, n) else None
    {
      EnvTableTrans(a, b, c, kpt, root, n);
    }
  }

  /**
   * The VM teardown at the start of env_free asks uvmunmap for every page from 0x80000000 on. It
   * never returns, so nothing after it runs.
   */
  method EnvFreeVm(k: Kernel, root: nat) returns (r: Outcome<int>)
    requires Inv(k.View()) && Reach(k.View(), root, KERNEL_PAGE)
    modifies k
    ensures r.Panicked? && (r.why == NotMapped || r.why == NotLeaf)
  {
    assert UnmapCount(KERNBASE_VA, MAXVA / PAGE_SIZE) == NPAGES;
    r := k.Uvmunmap(root, KERNBASE_VA, MAXVA / PAGE_SIZE, false);
  }
}
