/** Building the kernel's page table (kvmcreate in kern/vm.c, env_create_envs in kern/env.c). */
module Boot {
  import opened Bits
  import opened Outcomes
  import opened Mmu
  import opened PageTable
  import opened Sv39
  import opened UserMemory
  import opened Vm

  const CLINT: nat := 0x200_0000
  const UART0: nat := 0x1000_0000
  const VIRTIO0: nat := 0x1000_1000
  const PLIC: nat := 0xC00_0000
  const DEVICE_SHIFT: nat := 0x8800_0000
  const RW: nat := PTE_R + PTE_W
  const RX: nat := PTE_R + PTE_X

  /** Page number just above the ENVS window, which grows downwards from UVPT. */
  const ENVS_TOP: nat := UVPT / PAGE_SIZE

  /** Kernel data runs from the page after the text to PHYEND, one page further if etext is unaligned. */
  function DataLast(etext: nat): nat {
    if etext % PAGE_SIZE == 0 then PHYEND / PAGE_SIZE - 1 else PHYEND / PAGE_SIZE
  }

  /** The kernel mappings after the first `steps` calls of kvmmap, other than env structures. */
  function FixedMap(etext: nat, steps: nat, n: nat): Option<Mapping> {
    if steps > 0 && 0x8A000 <= n < 0x8A010 then Some(Mapping(n * PAGE_SIZE - DEVICE_SHIFT, RW + PTE_V))
    else if steps > 1 && n == 0x98000 then Some(Mapping(UART0, RW + PTE_V))
    else if steps > 2 && n == 0x98001 then Some(Mapping(VIRTIO0, RW + PTE_V))
    else if steps > 3 && 0x94000 <= n < 0x94400 then Some(Mapping(n * PAGE_SIZE - DEVICE_SHIFT, RW + PTE_V))
    else if steps > 4 && 0x80000 <= n < RoundUp(etext) / PAGE_SIZE then Some(Mapping(n * PAGE_SIZE, RX + PTE_V))
    else if steps > 5 && RoundUp(etext) / PAGE_SIZE <= n <= DataLast(etext) then Some(Mapping(n * PAGE_SIZE, RW + PTE_V))
    else None
  }

  /** The whole kernel map: the fixed ranges, and one physical page per env structure. */
  function KernelMap(etext: nat, steps: nat, envs: seq<nat>, n: nat): Option<Mapping>
    requires |envs| <= NENV
  {
    if ENVS_TOP - |envs| <= n < ENVS_TOP then Some(Mapping(envs[ENVS_TOP - 1 - n], RW + PTE_V))
    else FixedMap(etext, steps, n)
  }

  ghost predicate HasMap(s: State, root: nat, etext: nat, steps: nat, envs: seq<nat>) {
    && |envs| <= NENV
    && forall n: nat :: n < NPAGES ==> Reach(s, root, n) && Trans(s.mem, root, n) == KernelMap(etext, steps, envs, n)
  }

  /** No page went back to the free list. */
  ghost predicate NoneFreed(a: State, b: State) {
    b.kind.Keys == a.kind.Keys && forall q :: q in b.kind && b.kind[q].Free? ==> a.kind[q].Free?
  }

  /** At page `n`, the next call of kvmmap finds its range free and leads to the next map. */
  ghost predicate NextAt(etext: nat, steps: nat, lo: nat, hi: nat, pa: Word, perm: nat, n: nat) {
    if lo <= n <= hi then
      && FixedMap(etext, steps, n) == None
      && FixedMap(etext, steps + 1, n) == Some(Mapping(PaAt(pa, n - lo), SetBit0(perm)))
    else FixedMap(etext, steps + 1, n) == FixedMap(etext, steps, n)
  }

  ghost predicate NextRange(etext: nat, steps: nat, lo: nat, hi: nat, pa: Word, perm: nat) {
    lo <= hi < NPAGES && forall n: nat :: NextAt(etext, steps, lo, hi, pa, perm, n)
  }

  /** One kvmmap of kvmcreate: it cannot panic, and it extends the map by exactly its range. */
  method MapNext(k: Kernel, root: nat, ghost etext: nat, ghost steps: nat, va: Word, pa: Word, size: Word, perm: nat)
      returns (r: Outcome<()>)
    requires Inv(k.View()) && HasMap(k.View(), root, etext, steps, []) && size > 0 && perm < 1024
    requires NextRange(etext, steps, va / PAGE_SIZE, LastPage(va, size), pa, perm)
    requires |k.frees| >= Spread(va / PAGE_SIZE, LastPage(va, size))
    modifies k
    ensures r.Returned? && Inv(k.View()) && HasMap(k.View(), root, etext, steps + 1, [])
    ensures OthersKeep(old(k.View()), k.View(), root) && KeepsData(old(k.View()), k.View())
    ensures NoneFreed(old(k.View()), k.View())
    ensures |old(k.frees)| <= |k.frees| + Spread(va / PAGE_SIZE, LastPage(va, size))
  {
    hide Inv, Reach, Trans, Spread, FixedMap, KeepsData, LastPage;
    ghost var a := k.View();
    ghost var lo, hi := va / PAGE_SIZE, LastPage(va, size);
    RootOpen(a, root, lo, hi);
    forall n: nat | lo <= n <= hi ensures Trans(a.mem, root, n) == None {
      assert NextAt(etext, steps, lo, hi, pa, perm, n) && Reach(a, root, n);
    }
    r := k.Kvmmap(root, va, pa, size, perm);
    forall n: nat | n < NPAGES
      ensures Reach(k.View(), root, n) && Trans(k.mem, root, n) == KernelMap(etext, steps + 1, [], n)
    {
      assert NextAt(etext, steps, lo, hi, pa, perm, n) && Reach(a, root, n);
    }
  }

  lemma RootOpen(s: State, root: nat, lo: nat, hi: nat)
    requires forall n: nat :: n < NPAGES ==> Reach(s, root, n)
    ensures Open(s, root, lo, hi)
  {
    assert Reach(s, root, 0);
  }

  // ----- the ranges of kvmcreate -----------------------------------------------------------

  lemma PaAtInRange(pa: Word, k: nat)
    requires pa % PAGE_SIZE == 0 && pa + k * PAGE_SIZE < WORD_LIMIT
    ensures PaAt(pa, k) == pa + k * PAGE_SIZE
  {
  }

  /** Each range in turn is disjoint from all before it and lands where FixedMap says. */
  lemma ClintNext(etext: nat)
    ensures LastPage(CLINT + DEVICE_SHIFT, 0x10000) == 0x8A00F
    ensures NextRange(etext, 0, 0x8A000, 0x8A00F, CLINT, RW)
  {
    forall n: nat ensures NextAt(etext, 0, 0x8A000, 0x8A00F, CLINT, RW, n) {
      if 0x8A000 <= n <= 0x8A00F { PaAtInRange(CLINT, n - 0x8A000); }
    }
  }

  lemma UartNext(etext: nat)
    ensures LastPage(UART0 + DEVICE_SHIFT, PAGE_SIZE) == 0x98000
    ensures NextRange(etext, 1, 0x98000, 0x98000, UART0, RW)
  {
    PaAtInRange(UART0, 0);
    forall n: nat ensures NextAt(etext, 1, 0x98000, 0x98000, UART0, RW, n) { }
  }

  lemma VirtioNext(etext: nat)
    ensures LastPage(VIRTIO0 + DEVICE_SHIFT, PAGE_SIZE) == 0x98001
    ensures NextRange(etext, 2, 0x98001, 0x98001, VIRTIO0, RW)
  {
    PaAtInRange(VIRTIO0, 0);
    forall n: nat ensures NextAt(etext, 2, 0x98001, 0x98001, VIRTIO0, RW, n) { }
  }

  lemma PlicNext(etext: nat)
    ensures LastPage(PLIC + DEVICE_SHIFT, 0x400000) == 0x943FF
    ensures NextRange(etext, 3, 0x94000, 0x943FF, PLIC, RW)
  {
    forall n: nat ensures NextAt(etext, 3, 0x94000, 0x943FF, PLIC, RW, n) {
      if 0x94000 <= n <= 0x943FF { PaAtInRange(PLIC, n - 0x94000); }
    }
  }

  lemma TextNext(etext: Word)
    requires KERNBASE_VA < etext < PHYEND
    ensures LastPage(KERNBASE_VA, etext - KERNBASE_VA) == RoundUp(etext) / PAGE_SIZE - 1 < 0x88000
    ensures NextRange(etext, 4, 0x80000, RoundUp(etext) / PAGE_SIZE - 1, KERNBASE_VA, RX)
  {
    var hi := RoundUp(etext) / PAGE_SIZE - 1;
    assert (etext - 1) / PAGE_SIZE == hi;
    forall n: nat ensures NextAt(etext, 4, 0x80000, hi, KERNBASE_VA, RX, n) {
      if 0x80000 <= n <= hi { PaAtInRange(KERNBASE_VA, n - 0x80000); }
    }
  }

  lemma DataNext(etext: Word)
    requires KERNBASE_VA < etext < PHYEND
    ensures LastPage(RoundUp(etext), PHYEND - etext) == DataLast(etext)
    ensures NextRange(etext, 5, RoundUp(etext) / PAGE_SIZE, DataLast(etext), RoundUp(etext), RW)
  {
    var lo, hi := RoundUp(etext) / PAGE_SIZE, DataLast(etext);
    assert RoundUp(etext) == lo * PAGE_SIZE;
    forall n: nat ensures NextAt(etext, 5, lo, hi, RoundUp(etext), RW, n) {
      if lo <= n <= hi { PaAtInRange(RoundUp(etext), n - lo); }
    }
  }

  /** No call of kvmcreate needs more than 66 tables. */
  lemma SpreadBounds(etext: Word)
    requires KERNBASE_VA < etext < PHYEND
    ensures Spread(0x8A000, 0x8A00F) == 2 && Spread(0x98000, 0x98000) == 2 && Spread(0x98001, 0x98001) == 2
    ensures Spread(0x94000, 0x943FF) == 3
    ensures Spread(0x80000, RoundUp(etext) / PAGE_SIZE - 1) <= 66
    ensures Spread(RoundUp(etext) / PAGE_SIZE, DataLast(etext)) <= 66
  {
    assert 0x80000 < RoundUp(etext) / PAGE_SIZE <= 0x88000;
  }

  // ----- env structures --------------------------------------------------------------------

  /** The pages of the env structures are distinct and held, and were on the free list before. */
  ghost predicate EnvPages(a: State, b: State, envs: seq<nat>) {
    && (forall i, j :: 0 <= i < j < |envs| ==> envs[i] != envs[j])
    && (forall i :: 0 <= i < |envs| ==>
          envs[i] in a.kind && a.kind[envs[i]].Free? && envs[i] in b.kind && b.kind[envs[i]].Data?)
  }

  lemma EnvStep(a: State, s: State, w: State, root: nat, etext: nat, envs: seq<nat>)
    requires |envs| < NENV && Inv(s) && s.frees != [] && s.frees[0] < WORD_LIMIT && IsPage(s.frees[0])
    requires HasMap(s, root, etext, 6, envs) && KeepsMaps(s, Taken(s))
    requires Mapped(Taken(s), w, root, ENVS_TOP - 1 - |envs|, 1, s.frees[0], RW)
    ensures HasMap(w, root, etext, 6, envs + [s.frees[0]])
    ensures OthersKeep(s, w, root)
  {
    var p, t, envs' := s.frees[0], Taken(s), envs + [s.frees[0]];
    MappedOne(t, w, root, ENVS_TOP - 1 - |envs|, p, RW);
    hide Inv, Reach, Trans, Mapped, FixedMap;
    forall n: nat | n < NPAGES ensures Reach(w, root, n) && Trans(w.mem, root, n) == KernelMap(etext, 6, envs', n) {
      assert Reach(s, root, n) && Reach(t, root, n);
    }
  }

  lemma EnvPagesStep(a: State, s: State, w: State, root: nat, envs: seq<nat>)
    requires Inv(s) && s.frees != [] && Extended(Taken(s), w, root)
    requires EnvPages(a, s, envs) && a.kind.Keys == s.kind.Keys
    requires forall q :: q in a.kind && !a.kind[q].Free? ==> s.kind[q] == a.kind[q]
    ensures EnvPages(a, w, envs + [s.frees[0]]) && KeepsData(s, w)
    ensures a.kind.Keys == w.kind.Keys
    ensures forall q :: q in a.kind && !a.kind[q].Free? ==> w.kind[q] == a.kind[q]
  {
    var p, t := s.frees[0], Taken(s);
    TakenTook(s);
    hide Inv, InTree, Zeros, KeepsMaps, EnvPages;
    DataKept(s, w, root);
    EnvPagesMore(a, s, w, envs, p);
    forall q | q in a.kind && !a.kind[q].Free? ensures w.kind[q] == a.kind[q] {
      assert s.kind[q] == a.kind[q] && t.kind[q] == s.kind[q];
    }
  }

  lemma DataKept(s: State, w: State, root: nat)
    requires Inv(s) && s.frees != [] && Extended(Taken(s), w, root)
    ensures KeepsData(s, w) && w.kind.Keys == s.kind.Keys
    ensures s.frees[0] in w.kind && w.kind[s.frees[0]].Data? && s.frees[0] in s.kind && s.kind[s.frees[0]].Free?
  {
    TakenTook(s);
    hide Inv, InTree, Zeros, KeepsMaps;
  }

  lemma EnvPagesMore(a: State, s: State, w: State, envs: seq<nat>, p: nat)
    requires EnvPages(a, s, envs) && KeepsData(s, w) && Inv(s)
    requires a.kind.Keys == s.kind.Keys && p in a.kind && a.kind[p].Free? && p in w.kind && w.kind[p].Data? && s.kind[p].Free?
    ensures EnvPages(a, w, envs + [p])
  {
    DataHasMem(s);
    hide Inv;
  }

  lemma DataHasMem(s: State)
    requires Inv(s)
    ensures forall q :: q in s.kind ==> q in s.mem
  {
  }

  /** A page that the env window is about to use is still unmapped. */
  lemma EnvRangeFree(s: State, root: nat, etext: nat, envs: seq<nat>)
    requires |envs| < NENV && Inv(s) && s.frees != [] && HasMap(s, root, etext, 6, envs)
    requires KeepsMaps(s, Taken(s)) && KERNBASE_VA < etext < PHYEND
    ensures Open(Taken(s), root, ENVS_TOP - 1 - |envs|, ENVS_TOP - 1 - |envs|)
    ensures Trans(Taken(s).mem, root, ENVS_TOP - 1 - |envs|) == None
  {
    hide Inv, Trans;
    var n := ENVS_TOP - 1 - |envs|;
    assert Reach(s, root, n) && Reach(Taken(s), root, n);
    assert FixedMap(etext, 6, n) == None;
  }

  /** env_create_envs: one fresh page for every env structure, none of them taken before. */
  method EnvCreateEnvs(k: Kernel, root: nat, ghost etext: nat) returns (r: Outcome<()>, ghost envs: seq<nat>)
    requires Inv(k.View()) && HasMap(k.View(), root, etext, 6, []) && KERNBASE_VA < etext < PHYEND
    requires |k.frees| >= 3 * NENV
    modifies k
    ensures r.Returned? && Inv(k.View()) && |envs| == NENV && HasMap(k.View(), root, etext, 6, envs)
    ensures EnvPages(old(k.View()), k.View(), envs)
    ensures OthersKeep(old(k.View()), k.View(), root) && KeepsData(old(k.View()), k.View())
    ensures NoneFreed(old(k.View()), k.View())
  {
    hide Wf, CutsAtRoots, NoStrays, Reach, Trans, HasMap, KernelMap, FixedMap, KeepsMaps, KeepsData, Mapped,
         Extended, OthersKeep, EnvPages;
    ghost var a := k.View();
    envs := [];
    EnvNothing(a, root);
    var e := 0;
    while e < NENV
      invariant e <= NENV && |envs| == e
      invariant Inv(k.View()) && HasMap(k.View(), root, etext, 6, envs)
      invariant OthersKeep(a, k.View(), root) && KeepsData(a, k.View())
      invariant EnvPages(a, k.View(), envs) && a.kind.Keys == k.kind.Keys
      invariant forall q :: q in a.kind && !a.kind[q].Free? ==> k.kind[q] == a.kind[q]
      invariant |k.frees| >= 3 * (NENV - e)
    {
      ghost var s := k.View();
      var pa := k.Kalloc();
      if pa == 0 {
        return Panicked(NoEnvMemory), envs;
      }
      TakeKeepsInv(s);
      EnvRangeFree(s, root, etext, envs);
      OnePage(EnvsVa(e));
      r := k.Kvmmap(root, EnvsVa(e), pa, PAGE_SIZE, RW);
      if r.Panicked? {
        return r, envs;
      }
      EnvStep(a, s, k.View(), root, etext, envs);
      EnvPagesStep(a, s, k.View(), root, envs);
      OthersTrans(a, s, k.View(), root);
      envs := envs + [pa];
      e := e + 1;
    }
    return Returned(()), envs;
  }

  lemma EnvNothing(a: State, root: nat)
    ensures EnvPages(a, a, []) && OthersKeep(a, a, root) && KeepsData(a, a) && NoneFreed(a, a)
  {
  }

  lemma OthersTrans(a: State, b: State, c: State, root: nat)
    requires OthersKeep(a, b, root) && OthersKeep(b, c, root)
    requires KeepsData(a, b) && KeepsData(b, c)
    ensures OthersKeep(a, c, root) && KeepsData(a, c)
    ensures NoneFreed(a, b) && NoneFreed(b, c) ==> NoneFreed(a, c)
  {
    hide Reach, Trans;
  }

  lemma EmptyHasMap(s: State, root: nat, etext: nat)
    requires forall n: nat :: n < NPAGES ==> Reach(s, root, n)
    requires forall n :: Trans(s.mem, root, n) == None
    ensures HasMap(s, root, etext, 0, [])
  {
  }

  lemma FreshRoot(a: State, b: State, c: State, root: nat)
    requires Inv(a) && a.frees != [] && root == a.frees[0] && b == Rooted(Taken(a), root)
    requires KeepsMaps(a, b) && OthersKeep(b, c, root) && KeepsData(a, b) && KeepsData(b, c) && NoneFreed(b, c)
    ensures KeepsMaps(a, c) && KeepsData(a, c) && NoneFreed(a, c)
  {
    assert root in a.frees && !IsRoot(a, root);
    hide Wf, Trans;
  }

  lemma EnvPagesWereFree(a: State, s: State, c: State, envs: seq<nat>)
    requires Inv(a) && NoneFreed(a, s) && EnvPages(s, c, envs)
    ensures forall i :: 0 <= i < |envs| ==> envs[i] in a.frees
  {
  }

  /**
   * kvmcreate. For every etext inside the managed DRAM range and enough free pages no kvmmap
   * panics, and the new table maps exactly the devices, the text (R, X), the data (R, W) and the
   * env structures; every other table keeps its translations.
   */
  method Kvmcreate(k: Kernel, etext: Word) returns (r: Outcome<Word>, ghost envs: seq<nat>)
    requires Inv(k.View()) && KERNBASE_VA < etext < PHYEND && |k.frees| >= 3 * NENV + 142
    modifies k
    ensures r.Returned? && Inv(k.View()) && |envs| == NENV && HasMap(k.View(), r.value, etext, 6, envs)
    ensures HwKernelMap(k.mem, r.value, etext, envs)
    ensures r.value == old(k.frees)[0]
    ensures forall i, j :: 0 <= i < j < NENV ==> envs[i] != envs[j]
    ensures forall i :: 0 <= i < NENV ==> envs[i] in old(k.frees) && envs[i] in k.kind && k.kind[envs[i]].Data?
    ensures KeepsMaps(old(k.View()), k.View()) && KeepsData(old(k.View()), k.View())
  {
    hide Wf, CutsAtRoots, NoStrays, Reach, Trans, HasMap, KernelMap, FixedMap, KeepsMaps, KeepsData, OthersKeep,
         NextRange, LastPage, Spread, NoneFreed, HwKernelMap;
    ghost var a := k.View();
    var kpgtable := k.Uvmcreate();
    ghost var b := k.View();
    EmptyHasMap(b, kpgtable, etext);
    ClintNext(etext); UartNext(etext); VirtioNext(etext); PlicNext(etext); TextNext(etext); DataNext(etext);
    SpreadBounds(etext);
    EnvNothing(b, kpgtable);
    var o := MapNext(k, kpgtable, etext, 0, CLINT + DEVICE_SHIFT, CLINT, 0x10000, RW);
    OthersTrans(b, b, k.View(), kpgtable);
    ghost var s := k.View();
    o := MapNext(k, kpgtable, etext, 1, UART0 + DEVICE_SHIFT, UART0, PAGE_SIZE, RW);
    OthersTrans(b, s, k.View(), kpgtable);
    s := k.View();
    o := MapNext(k, kpgtable, etext, 2, VIRTIO0 + DEVICE_SHIFT, VIRTIO0, PAGE_SIZE, RW);
    OthersTrans(b, s, k.View(), kpgtable);
    s := k.View();
    o := MapNext(k, kpgtable, etext, 3, PLIC + DEVICE_SHIFT, PLIC, 0x400000, RW);
    OthersTrans(b, s, k.View(), kpgtable);
    s := k.View();
    o := MapNext(k, kpgtable, etext, 4, KERNBASE_VA, KERNBASE_VA, etext - KERNBASE_VA, RX);
    OthersTrans(b, s, k.View(), kpgtable);
    s := k.View();
    o := MapNext(k, kpgtable, etext, 5, RoundUp(etext), RoundUp(etext), PHYEND - etext, RW);
    OthersTrans(b, s, k.View(), kpgtable);
    s := k.View();
    FreshRoot(a, b, s, kpgtable);
    o, envs := EnvCreateEnvs(k, kpgtable, etext);
    EnvPagesWereFree(a, s, k.View(), envs);
    OthersTrans(b, s, k.View(), kpgtable);
    FreshRoot(a, b, k.View(), kpgtable);
    EnvsBelow(k.View(), envs);
    KernelMapIsHw(k.View(), kpgtable, etext, envs);
    return Returned(kpgtable), envs;
  }

  // ----- what the processor makes of it ----------------------------------------------------

  /**
   * The kernel map as the hardware sees it: text is readable and executable and not writable; data,
   * devices and env structures are readable and writable and not executable; nothing else is mapped,
   * and nothing is open to user mode.
   */
  ghost predicate HwKernelMap(m: Memory, root: nat, etext: nat, envs: seq<nat>)
    requires |envs| == NENV
  {
    forall n: nat :: n < NPAGES ==> HwKernelPage(m, root, etext, envs, n)
  }

  ghost predicate HwKernelPage(m: Memory, root: nat, etext: nat, envs: seq<nat>, n: nat)
    requires |envs| == NENV
  {
    if 0x80000 <= n < RoundUp(etext) / PAGE_SIZE then HwMaps(m, root, n, n * PAGE_SIZE, {V_BIT, R_BIT, X_BIT})
    else if RoundUp(etext) / PAGE_SIZE <= n <= DataLast(etext) then HwMaps(m, root, n, n * PAGE_SIZE, {V_BIT, R_BIT, W_BIT})
    else if 0x8A000 <= n < 0x8A010 || 0x94000 <= n < 0x94400 || n == 0x98000 || n == 0x98001
    then HwMaps(m, root, n, n * PAGE_SIZE - 0x8800_0000, {V_BIT, R_BIT, W_BIT})
    else if ENVS_TOP - NENV <= n < ENVS_TOP then HwMaps(m, root, n, envs[ENVS_TOP - 1 - n], {V_BIT, R_BIT, W_BIT})
    else HwTranslate(m, root, n, 2) == None
  }

  lemma RwRxBits()
    ensures BitsAre(RW + PTE_V, {V_BIT, R_BIT, W_BIT}) && BitsAre(RX + PTE_V, {V_BIT, R_BIT, X_BIT})
  {
    hide BitsAre;
    MaskBits(true, true, false, false);
    MaskBits(true, false, true, false);
    assert MaskSet(true, true, false, false) == {V_BIT, R_BIT, W_BIT};
    assert MaskSet(true, false, true, false) == {V_BIT, R_BIT, X_BIT};
  }

  lemma MapIsHw(s: State, root: nat, etext: nat, envs: seq<nat>, n: nat)
    requires Inv(s) && Reach(s, root, n) && |envs| == NENV && KERNBASE_VA < etext < PHYEND
    requires Trans(s.mem, root, n) == KernelMap(etext, 6, envs, n) && forall i :: 0 <= i < NENV ==> envs[i] < PHYEND
    ensures HwKernelPage(s.mem, root, etext, envs, n)
  {
    RwRxBits();
    HardwareAgrees(s, root, n);
    hide Inv, Trans, Reach, HwTranslate, HwMaps, BitsAre;
    match KernelMap(etext, 6, envs, n)
    case None =>
    case Some(e) =>
      FlatIsHw(s, root, n, e.pa, e.flags,
               if e.flags == RX + PTE_V then {V_BIT, R_BIT, X_BIT} else {V_BIT, R_BIT, W_BIT});
  }

  lemma KernelMapIsHw(s: State, root: nat, etext: nat, envs: seq<nat>)
    requires Inv(s) && HasMap(s, root, etext, 6, envs) && |envs| == NENV && KERNBASE_VA < etext < PHYEND
    requires forall i :: 0 <= i < NENV ==> envs[i] < PHYEND
    ensures HwKernelMap(s.mem, root, etext, envs)
  {
    hide Inv, Trans, Reach, HwKernelPage, KernelMap, FixedMap;
    forall n: nat | n < NPAGES ensures HwKernelPage(s.mem, root, etext, envs, n) {
      MapIsHw(s, root, etext, envs, n);
    }
  }

  lemma EnvsBelow(s: State, envs: seq<nat>)
    requires Inv(s) && forall i :: 0 <= i < |envs| ==> envs[i] in s.kind
    ensures forall i :: 0 <= i < |envs| ==> envs[i] < PHYEND
  {
    hide Linked, Owned, FreeList;
  }
}
