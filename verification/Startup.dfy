/** The start of the kernel, up to the address spaces of the first envs (init/init.c). */
module Startup {
  import opened Outcomes
  import opened Mmu
  import opened PageTable
  import opened Sv39
  import opened UserMemory
  import opened Vm
  import opened Boot
  import opened EnvVm

  /** An env table agrees with the kernel map from 0x80000000 on and is empty below, outside the self-map window. */
  ghost predicate SharesKernel(s: State, root: nat, etext: nat, envs: seq<nat>)
    requires |envs| <= NENV
  {
    forall n: nat :: n < NPAGES && Idx(n, 2) != SELF ==>
      && Reach(s, root, n)
      && Trans(s.mem, root, n) == if n >= KERNEL_PAGE then KernelMap(etext, 6, envs, n) else None
  }

  /** So does the processor, whichever of the tables satp names. */
  ghost predicate SameForHw(m: Memory, kpt: nat, root: nat) {
    forall n: nat :: n < NPAGES && Idx(n, 2) != SELF ==>
      HwTranslate(m, root, n, 2) == if n >= KERNEL_PAGE then HwTranslate(m, kpt, n, 2) else None
  }

  lemma SharedForHw(s: State, kpt: nat, root: nat, etext: nat, envs: seq<nat>)
    requires Inv(s) && HasMap(s, kpt, etext, 6, envs) && SharesKernel(s, root, etext, envs)
    ensures SameForHw(s.mem, kpt, root)
  {
    hide Inv, Reach, Trans, HwTranslate, KernelMap, Usable, Idx;
    forall n: nat | n < NPAGES && Idx(n, 2) != SELF
      ensures HwTranslate(s.mem, root, n, 2) == if n >= KERNEL_PAGE then HwTranslate(s.mem, kpt, n, 2) else None
    {
      HardwareAgrees(s, kpt, n);
      HardwareAgrees(s, root, n);
    }
  }

  ghost predicate AllShareKernel(s: State, roots: seq<Word>, etext: nat, envs: seq<nat>)
    requires |envs| <= NENV
  {
    forall i :: 0 <= i < |roots| ==> SharesKernel(s, roots[i], etext, envs)
  }

  lemma MapsStay(a: State, b: State, kpt: nat, roots: seq<Word>, etext: nat, envs: seq<nat>)
    requires KeepsMaps(a, b) && HasMap(a, kpt, etext, 6, envs) && AllShareKernel(a, roots, etext, envs)
    ensures HasMap(b, kpt, etext, 6, envs) && AllShareKernel(b, roots, etext, envs)
  {
    hide Reach, Trans, KernelMap;
    forall i | 0 <= i < |roots| ensures SharesKernel(b, roots[i], etext, envs) {
      assert SharesKernel(a, roots[i], etext, envs);
    }
  }

  lemma NewShares(a: State, b: State, kpt: nat, root: nat, etext: nat, envs: seq<nat>)
    requires HasMap(a, kpt, etext, 6, envs) && EnvTable(a, b, kpt, root)
    ensures SharesKernel(b, root, etext, envs)
  {
    hide Reach, Trans, KernelMap, Loops, EnvWindow;
  }

  /**
   * From power-on: all pages are freed, the kernel table is built, and `count` envs get a table
   * each, one after the other. Nothing is remapped on the way: at the end, or when memory runs out,
   * the kernel table still is the kernel map, and every env table made agrees with it.
   */
  method Start(k: Kernel, etext: Word, count: nat)
      returns (kpt: Word, ghost envs: seq<nat>, roots: seq<Word>, done: bool)
    requires Inv(k.View()) && k.frees == [] && forall p :: p in k.kind ==> k.kind[p].Data?
    requires KERNBASE_VA < etext < PHYEND
    modifies k
    ensures Inv(k.View()) && |envs| == NENV
    ensures HasMap(k.View(), kpt, etext, 6, envs) && AllShareKernel(k.View(), roots, etext, envs)
    ensures HwKernelMap(k.mem, kpt, etext, envs)
    ensures forall i :: 0 <= i < |roots| ==> SameForHw(k.mem, kpt, roots[i])
    ensures |roots| == count || k.frees == []
    ensures done <==> |roots| == count
  {
    hide Inv, HasMap, AllShareKernel, SharesKernel, SameForHw, HwKernelMap, EnvTable, KeepsMaps, KeepsData, KernelMap, PagesDown;
    var o := k.Kinit();
    var r;
    r, envs := Kvmcreate(k, etext);
    EnvsBelow(k.View(), envs);
    kpt := r.value;
    roots, done := [], true;
    NoneShare(k.View(), etext, envs);
    while |roots| < count
      invariant Inv(k.View()) && HasMap(k.View(), kpt, etext, 6, envs) && AllShareKernel(k.View(), roots, etext, envs)
      invariant |roots| <= count
    {
      ghost var a := k.View();
      MapReaches(a, kpt, etext, envs);
      var o, root := EnvSetupVm(k, kpt);
      StillKept(a, k.View(), o);
      MapsStay(a, k.View(), kpt, roots, etext, envs);
      if o != Returned(0) {
        done := false;
        AllSharedForHw(k.View(), kpt, roots, etext, envs);
        KernelMapIsHw(k.View(), kpt, etext, envs);
        return;
      }
      NewShares(a, k.View(), kpt, root, etext, envs);
      OneMoreShares(k.View(), roots, root, etext, envs);
      roots := roots + [root];
    }
    AllSharedForHw(k.View(), kpt, roots, etext, envs);
    KernelMapIsHw(k.View(), kpt, etext, envs);
  }

  lemma AllSharedForHw(s: State, kpt: nat, roots: seq<Word>, etext: nat, envs: seq<nat>)
    requires Inv(s) && HasMap(s, kpt, etext, 6, envs) && AllShareKernel(s, roots, etext, envs)
    ensures forall i :: 0 <= i < |roots| ==> SameForHw(s.mem, kpt, roots[i])
  {
    hide Inv, HasMap, SharesKernel, SameForHw;
    forall i | 0 <= i < |roots| ensures SameForHw(s.mem, kpt, roots[i]) {
      SharedForHw(s, kpt, roots[i], etext, envs);
    }
  }

  lemma StillKept(a: State, b: State, o: Outcome<int>)
    requires o == Returned(0) || o.Panicked? ==> KeepsMaps(a, b)
    requires o.Returned? ==> o.value == 0 || b == a
    ensures KeepsMaps(a, b)
  {
    KeepsMapsSelf(a);
    hide KeepsMaps;
  }

  lemma NoneShare(s: State, etext: nat, envs: seq<nat>)
    requires |envs| <= NENV
    ensures AllShareKernel(s, [], etext, envs)
  {
  }

  lemma OneMoreShares(s: State, roots: seq<Word>, root: Word, etext: nat, envs: seq<nat>)
    requires |envs| <= NENV && AllShareKernel(s, roots, etext, envs) && SharesKernel(s, root, etext, envs)
    ensures AllShareKernel(s, roots + [root], etext, envs)
  {
    hide SharesKernel;
  }

  lemma MapReaches(s: State, kpt: nat, etext: nat, envs: seq<nat>)
    requires HasMap(s, kpt, etext, 6, envs)
    ensures forall n: nat :: n < NPAGES ==> Reach(s, kpt, n)
  {
    hide Reach;
  }
}
