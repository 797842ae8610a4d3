/** Where every physical page is, and that tearing a table down gives all of it back. */
module Accounting {
  import opened Outcomes
  import opened Mmu
  import opened PageTable
  import opened Teardown
  import opened UserMemory
  import opened Vm

  ghost function FreeSet(s: State): set<nat> { set p | p in s.kind && s.kind[p].Free? }
  ghost function DataSet(s: State): set<nat> { set p | p in s.kind && s.kind[p].Data? }
  ghost function TableSet(s: State): set<nat> { set p | p in s.kind && s.kind[p].Table? }
  ghost function TreeSet(s: State, root: nat): set<nat> { set p | p in s.kind && InTree(s, p, root) }

  ghost function Elems(xs: seq<nat>): set<nat> { set x | x in xs }

  lemma {:induction false} DistinctCard(xs: seq<nat>)
    requires forall i, j :: 0 <= i < j < |xs| ==> xs[i] != xs[j]
    ensures |Elems(xs)| == |xs|
  {
    if xs != [] {
      var x, rest := xs[0], xs[1..];
      assert forall i :: 0 <= i < |rest| ==> rest[i] == xs[i + 1];
      DistinctCard(rest);
      assert x !in Elems(rest);
      assert Elems(xs) == {x} + Elems(rest) by {
        assert forall y :: y in xs <==> y == x || y in rest;
      }
    }
  }

  /** `ps` is the descending run of `k` pages from `lo` on. */
  ghost predicate Descending(ps: seq<nat>, lo: nat, k: nat) {
    |ps| == k && forall j :: 0 <= j < k ==> ps[j] == lo + (k - 1 - j) * PAGE_SIZE
  }

  lemma PagesDownDescending(lo: nat, k: nat)
    ensures Descending(PagesDown(lo, k), lo, k)
  {
    forall j | 0 <= j < k ensures PagesDown(lo, k)[j] == lo + (k - 1 - j) * PAGE_SIZE {
      PagesDownAt(lo, k, j);
    }
  }

  lemma DescendingElems(ps: seq<nat>, lo: nat, k: nat, p: nat)
    requires Descending(ps, lo, k)
    ensures p in ps <==> lo <= p < lo + k * PAGE_SIZE && (p - lo) % PAGE_SIZE == 0
  {
    if lo <= p < lo + k * PAGE_SIZE && (p - lo) % PAGE_SIZE == 0 {
      var i := (p - lo) / PAGE_SIZE;
      assert ps[k - 1 - i] == lo + i * PAGE_SIZE == p;
    }
  }

  lemma PageCountBy(s: State, k: nat)
    requires Shape(s) && KERNEND + k * PAGE_SIZE == PHYEND
    ensures |s.kind.Keys| == k
  {
    var ps := PagesDown(KERNEND, k);
    PagesDownDescending(KERNEND, k);
    hide PagesDown;
    DistinctCard(ps);
    forall p: nat ensures p in s.kind.Keys <==> p in Elems(ps) {
      DescendingElems(ps, KERNEND, k, p);
      assert p in s.mem <==> IsPage(p);
    }
    assert s.kind.Keys == Elems(ps);
  }

  /** The managed range [KERNEND, PHYEND) holds 31744 pages. */
  lemma PageCount(s: State)
    requires Shape(s)
    ensures |s.kind.Keys| == 31744
  {
    PageCountBy(s, (PHYEND - KERNEND) / PAGE_SIZE);
  }

  /**
   * Partition: each of the 31744 pages is on the free list, or is a table, or is handed out, and
   * never two of these; the free list visits each free page once.
   */
  lemma PagesPartitioned(s: State)
    requires Inv(s)
    ensures FreeSet(s) + TableSet(s) + DataSet(s) == set p | p in s.mem
    ensures forall p :: p in s.mem <==> p % PAGE_SIZE == 0 && KERNEND <= p < PHYEND
    ensures FreeSet(s) !! TableSet(s) !! DataSet(s)
    ensures FreeSet(s) == Elems(s.frees)
    ensures |s.frees| + |TableSet(s)| + |DataSet(s)| == 31744
  {
    FreeListed(s);
    PageCount(s);
    hide Wf, CutsAtRoots, NoStrays, Elems;
    SameKeys(s);
    assert FreeSet(s) + TableSet(s) + DataSet(s) == s.kind.Keys;
  }

  lemma FreeListed(s: State)
    requires Inv(s)
    ensures FreeSet(s) == Elems(s.frees) && |Elems(s.frees)| == |s.frees| && Shape(s)
  {
    hide Linked, Owned, Shape;
    DistinctCard(s.frees);
  }

  lemma SameKeys(s: State)
    requires Inv(s)
    ensures s.kind.Keys == s.mem.Keys && forall p :: p in s.mem <==> IsPage(p)
  {
  }

  /**
   * Separation in memory: following the links from kmem.freelist visits the listed pages, each
   * once, and ends in 0; and no walk from any root ever meets one of them.
   */
  lemma FreeNeverWalked(s: State, r: nat, n: nat, level: nat)
    requires Inv(s) && (Reach(s, r, n) || InWindow(s, r, n)) && level <= 2
    ensures FreeChain(s.mem, s.freelist, s.frees) && |Elems(s.frees)| == |s.frees|
    ensures TableAt(s.mem, r, n, level).Some? ==> TableAt(s.mem, r, n, level).value !in s.frees
  {
    FreeListed(s);
    WalkTables(s, r, n, level);
    hide Linked, Owned, TableAt;
    assert forall q :: q in s.frees ==> q in FreeSet(s);
  }

  lemma TopIsRoot(s: State, p: nat)
    requires Inv(s) && IsTable(s, p) && s.kind[p].level == 2
    ensures IsRoot(s, p)
  {
    if s.kind[p].up.Some? { assert Hangs(s, p, s.kind[p].up.value); }
  }

  lemma LinkStep(s: State, c: nat, up: Slot)
    requires Inv(s) && Hangs(s, c, up)
    ensures IsTable(s, up.page) && s.kind[up.page].level == s.kind[c].level + 1 && up.idx < ENTRIES
    ensures s.kind[c].level == 1 ==> up.idx < 256 && IsRoot(s, up.page)
    ensures Next(s.mem, up.page, up.idx) == Some(c)
  {
    assert LinkedFrom(s, c, up);
    PteRoundTrip(c, PTE_V);
    if s.kind[c].level == 1 { TopIsRoot(s, up.page); }
  }

  lemma IdxOf(i2: nat, i1: nat)
    requires i2 < 256 && i1 < 512
    ensures var n := i2 * 0x4_0000 + i1 * 512; n < NPAGES && Idx(n, 2) == i2 && Idx(n, 1) == i1
  {
  }

  /** No table is lost: each one is reached by a walk from the root it hangs below. */
  lemma TablesReachable(s: State, t: nat) returns (root: nat, n: nat)
    requires Inv(s) && IsTable(s, t)
    ensures IsRoot(s, root) && n < NPAGES && InTree(s, t, root)
    ensures TableAt(s.mem, root, n, s.kind[t].level) == Some(t)
  {
    if s.kind[t].up.None? {
      return t, 0;
    }
    var up := s.kind[t].up.value;
    LinkStep(s, t, up);
    if s.kind[t].level == 1 {
      IdxOf(up.idx, 0);
      return up.page, up.idx * 0x4_0000;
    }
    assert s.kind[t].level == 0 && s.kind[up.page].up.Some?;
    var up2 := s.kind[up.page].up.value;
    LinkStep(s, up.page, up2);
    IdxOf(up2.idx, up.idx);
    return up2.page, up2.idx * 0x4_0000 + up.idx * 512;
  }

  /** Growing a tree moves pages from the free set into that tree, none elsewhere. */
  lemma GrowthAccounted(a: State, b: State, root: nat)
    requires Inv(a) && Extended(a, b, root) && IsRoot(a, root)
    ensures FreeSet(b) + TreeSet(b, root) == FreeSet(a) + TreeSet(a, root)
  {
    forall p ensures p in FreeSet(b) + TreeSet(b, root) <==> p in FreeSet(a) + TreeSet(a, root) {
      TreeMember(a, b, root, p);
    }
  }

  lemma TreeMember(a: State, b: State, root: nat, p: nat)
    requires Inv(a) && Extended(a, b, root) && IsRoot(a, root)
    ensures p in FreeSet(b) + TreeSet(b, root) <==> p in FreeSet(a) + TreeSet(a, root)
  {
    if p in a.kind && !a.kind[p].Free? {
      assert b.kind[p] == a.kind[p];
      if IsTable(a, p) && a.kind[p].up.Some? {
        var u := a.kind[p].up.value.page;
        assert Hangs(a, p, a.kind[p].up.value);
        assert b.kind[u] == a.kind[u];
      }
    }
  }

  /** A fresh root has no other table below it. */
  lemma FreshTree(a: State, root: nat)
    requires Inv(a) && a.frees != [] && root == a.frees[0]
    ensures IsRoot(Rooted(Taken(a), root), root)
    ensures TreeSet(Rooted(Taken(a), root), root) == {root}
    ensures FreeSet(a) == FreeSet(Rooted(Taken(a), root)) + {root} && root !in FreeSet(Rooted(Taken(a), root))
  {
    var b := Rooted(Taken(a), root);
    assert root in a.frees;
    forall p | p in TreeSet(b, root) ensures p == root {
      if p != root { NotUnderFresh(a, root, p); }
    }
  }

  lemma NotUnderFresh(a: State, root: nat, p: nat)
    requires Inv(a) && a.frees != [] && root == a.frees[0] && root in a.frees && p != root
    ensures !InTree(Rooted(Taken(a), root), p, root)
  {
    var b := Rooted(Taken(a), root);
    if IsTable(b, p) && b.kind[p].up.Some? {
      var up := b.kind[p].up.value;
      assert Hangs(a, p, up);
      if a.kind[up.page].up.Some? {
        assert Hangs(a, up.page, a.kind[up.page].up.value);
      }
    }
  }

  /** A leaf of the tree, as a page of the flat map. */
  lemma LeafIsMapped(s: State, root: nat, q: nat, i: nat) returns (n: nat)
    requires Inv(s) && IsRoot(s, root) && (forall j :: Slot(root, j) !in s.cut) && LeafAt(s, root, q, i)
    ensures Reach(s, root, n) && Trans(s.mem, root, n) == Some(Mapping(Pte2Pa(Entry(s.mem, q, i)), PteFlags(Entry(s.mem, q, i))))
  {
    hide Linked, Owned, FreeList, Trans;
    var r, m := TablesReachable(s, q);
    OneRoot(s, q, root, r);
    n := SameTable(m, i);
    TransOfSlot(s.mem, root, n, Slot(q, i));
  }

  /** The page of entry `i` in the level-0 table that serves page `m`. */
  lemma SameTable(m: nat, i: nat) returns (n: nat)
    requires m < NPAGES && i < ENTRIES
    ensures n < NPAGES && Idx(n, 0) == i && Idx(n, 1) == Idx(m, 1) && Idx(n, 2) == Idx(m, 2)
  {
    n := m / 512 * 512 + i;
    assert n / 512 == m / 512;
  }

  lemma OneRoot(s: State, q: nat, r: nat, r': nat)
    requires Inv(s) && InTree(s, q, r) && InTree(s, q, r') && IsRoot(s, r) && IsRoot(s, r')
    ensures r == r'
  {
    hide Linked, FreeList;
    if s.kind[q].up.Some? {
      var up := s.kind[q].up.value;
      assert Hangs(s, q, up);
      if s.kind[up.page].up.Some? { assert Hangs(s, up.page, s.kind[up.page].up.value); }
    }
  }

  /** What freewalk demands of a tree, read off the flat map of its root. */
  lemma FlatTearable(s: State, root: nat)
    requires Inv(s) && IsRoot(s, root) && forall j :: Slot(root, j) !in s.cut
    requires forall n :: Reach(s, root, n) && Trans(s.mem, root, n).Some? ==> AnyRwx(Trans(s.mem, root, n).value.flags)
    ensures NoCutsIn(s, root) && LeavesHaveRwx(s, root)
    ensures (forall n :: Reach(s, root, n) ==> Trans(s.mem, root, n) == None) ==> !LeafIn(s, root)
  {
    hide Wf, Trans, Reach, LeafAt, AnyRwx;
    forall sl | sl in s.cut ensures !InTree(s, sl.page, root) {
      assert sl.page != root by { assert sl == Slot(sl.page, sl.idx); }
    }
    forall q: nat, i: nat | LeafAt(s, root, q, i) ensures AnyRwx(PteFlags(Entry(s.mem, q, i))) {
      var n := LeafIsMapped(s, root, q, i);
    }
    if LeafIn(s, root) {
      var q: nat, i: nat :| LeafAt(s, root, q, i);
      var n := LeafIsMapped(s, root, q, i);
    }
  }

  /**
   * The one trap in freewalk's own demand: it takes a valid entry without R, W, X for a table on
   * every level. A page mapped with no permission at all is such an entry, and what freewalk then
   * walks is the page itself, which is no table. So the demand is met if and only if every mapping
   * of the flat map has one of R, W, X.
   */
  lemma TearableIffRwx(s: State, root: nat)
    requires Inv(s) && IsRoot(s, root) && forall j :: Slot(root, j) !in s.cut
    ensures LeavesHaveRwx(s, root) <==>
              forall n :: Reach(s, root, n) && Trans(s.mem, root, n).Some? ==> AnyRwx(Trans(s.mem, root, n).value.flags)
  {
    hide Wf, Trans, Reach, LeafAt, AnyRwx;
    if LeavesHaveRwx(s, root) {
      forall n | Reach(s, root, n) && Trans(s.mem, root, n).Some? ensures AnyRwx(Trans(s.mem, root, n).value.flags) {
        MappedIsLeaf(s, root, n);
      }
    } else if forall n :: Reach(s, root, n) && Trans(s.mem, root, n).Some? ==> AnyRwx(Trans(s.mem, root, n).value.flags) {
      FlatTearable(s, root);
    }
  }

  lemma MappedIsLeaf(s: State, root: nat, n: nat)
    requires Inv(s) && Reach(s, root, n) && Trans(s.mem, root, n).Some?
    ensures PteSlot(s.mem, root, n).Some?
    ensures var sl := PteSlot(s.mem, root, n).value;
            && LeafAt(s, root, sl.page, sl.idx)
            && Trans(s.mem, root, n) == Some(Mapping(Pte2Pa(Entry(s.mem, sl.page, sl.idx)), PteFlags(Entry(s.mem, sl.page, sl.idx))))
  {
    WalkKinds(s, root, n);
    hide Linked, Owned, FreeList;
  }

  /** Such an input: a held page mapped by mappages with permission 0 would be walked as a table. */
  lemma BareLeafWalked(a: State, s: State, root: nat, n: nat, pa: Word)
    requires Inv(s) && Mapped(a, s, root, n, 1, pa, 0) && IsPage(pa) && pa in s.kind && s.kind[pa].Data?
    ensures PteSlot(s.mem, root, n).Some?
    ensures var sl := PteSlot(s.mem, root, n).value;
            var pte := Entry(s.mem, sl.page, sl.idx);
            Valid(pte) && !AnyRwx(PteFlags(pte)) && Pte2Pa(pte) == pa && !IsTable(s, pa) && !LeavesHaveRwx(s, root)
  {
    assert Reach(a, root, n) && Reach(s, root, n);
    MappedOne(a, s, root, n, pa, 0);
    hide Wf, Mapped, Trans;
    MappedIsLeaf(s, root, n);
  }

  /** Where the pages are after a table was created in `a`, grown to `c` and torn down to `d`. */
  lemma TornDown(a: State, root: nat, c: State, d: State)
    requires Inv(a) && a.frees != [] && root == a.frees[0]
    requires Inv(Rooted(Taken(a), root)) && Extended(Rooted(Taken(a), root), c, root)
    requires Freed(c, d, root)
    ensures FreeSet(d) == FreeSet(a)
    ensures TreeSet(c, root) == FreeSet(a) - FreeSet(c)
  {
    hide Inv, Extended, InTree, Freed, Taken, Rooted;
    FreshTree(a, root);
    GrowthAccounted(Rooted(Taken(a), root), c, root);
    FreedSets(c, d, root);
    TablesAreNotFree(c, root);
  }

  /** Walks without mappings leave a fresh table without leaves. */
  lemma StillEmpty(a: State, root: nat, b: State, c: State)
    requires Inv(a) && a.frees != [] && root == a.frees[0] && b == Rooted(Taken(a), root)
    requires Inv(c) && Grew(b, c, root) && IsRoot(c, root)
    requires forall n: nat :: n < NPAGES ==> Reach(b, root, n)
    requires forall n :: Trans(b.mem, root, n) == None
    ensures NoCutsIn(c, root) && LeavesHaveRwx(c, root) && !LeafIn(c, root) && c.kind[root].up.None?
  {
    hide Wf, Trans, LeavesHaveRwx, LeafIn, NoCutsIn;
    assert root in a.frees by { assert a.frees[0] in a.frees; }
    RootWasFree(a, root);
    forall n | Reach(c, root, n) ensures Trans(c.mem, root, n) == None {
      assert Reach(b, root, n);
    }
    FlatTearable(c, root);
  }

  lemma RootWasFree(a: State, root: nat)
    requires Inv(a) && root in a.frees
    ensures forall j :: Slot(root, j) !in a.cut
  {
    hide Linked, Owned;
  }

  /**
   * Nothing leaks: uvmcreate, any walks that build tables for any addresses, and freewalk. The
   * walks may run out of memory half way; freewalk always returns, and the free pages are what
   * they were.
   */
  method CreateGrowFree(k: Kernel, vas: seq<Word>) returns (r: Outcome<()>)
    requires Inv(k.View()) && forall i :: 0 <= i < |vas| ==> vas[i] < MAXVA
    modifies k
    ensures r.Returned? && Inv(k.View()) && FreeSet(k.View()) == FreeSet(old(k.View()))
  {
    hide Wf, CutsAtRoots, NoStrays, Grew, Reach, Trans, KeepsMaps, KeepsData, Freed, LeafIn, LeavesHaveRwx, NoCutsIn,
         FreeSet;
    ghost var a := k.View();
    var root := k.Uvmcreate();
    if root == 0 {
      return Returned(());
    }
    ghost var b := k.View();
    GrewSelf(b, root);
    var i := 0;
    while i < |vas|
      invariant 0 <= i <= |vas| && Inv(k.View()) && Grew(b, k.View(), root)
    {
      ghost var s := k.View();
      GrownReach(b, s, root, vas[i]);
      var w := k.Walk(root, vas[i], true);
      GrewTrans(b, s, k.View(), root);
      i := i + 1;
    }
    ghost var c := k.View();
    GrownReach(b, c, root, 0);
    StillEmpty(a, root, b, c);
    r := k.Freewalk(root);
    GrewIsExtended(b, c, root);
    TornDown(a, root, c, k.View());
  }

  lemma GrownReach(b: State, s: State, root: nat, va: Word)
    requires Grew(b, s, root) && va < MAXVA && forall n: nat :: n < NPAGES ==> Reach(b, root, n)
    ensures IsRoot(s, root) && Slot(root, VpnL(2, va)) !in s.cut
  {
    hide Trans;
    assert Reach(b, root, va / PAGE_SIZE) && Reach(s, root, va / PAGE_SIZE);
    ReachIsUncut(s, root, va);
  }

  lemma GrewIsExtended(b: State, c: State, root: nat)
    requires Grew(b, c, root)
    ensures Extended(b, c, root)
  {
  }

  /** Between two sizes up to MAXVA, shrinking asks for what growing added. */
  lemma GrownSizes(oldSize: Word, newSize: Word, lo: nat, k: nat)
    requires oldSize < newSize <= MAXVA && lo == Round(oldSize) / PAGE_SIZE && k == PagesToAdd(oldSize, newSize)
    ensures Round(oldSize) == lo * PAGE_SIZE && (lo + k) * PAGE_SIZE <= MAXVA
    ensures Round(newSize) == (lo + k) * PAGE_SIZE
  {
    RoundIs(oldSize);
    RoundIs(newSize);
    var q := RoundUp(newSize) / PAGE_SIZE;
    assert RoundUp(newSize) == q * PAGE_SIZE && RoundUp(oldSize) == lo * PAGE_SIZE;
    hide Round;
  }

  /** The sizes before rounding do not matter to uvmdealloc's page count. */
  lemma DropRounded(oldSize: Word, newSize: Word, a: Word, b: Word)
    requires Round(oldSize) == Round(a) && Round(newSize) == Round(b)
    ensures PagesToDrop(oldSize, newSize) == PagesToDrop(a, b)
  {
    hide Round;
  }

  /**
   * Growing with uvmalloc and shrinking back with uvmdealloc. By at most one page this restores
   * every translation, keeps all pages in use, and the page is free again; by two or more it panics.
   */
  method GrowThenShrink(k: Kernel, root: nat, oldSize: Word, newSize: Word, perm: nat)
      returns (r: Outcome<Word>, ghost pages: seq<nat>, ghost full: bool)
    requires Inv(k.View()) && IsRoot(k.View(), root) && perm < 1024 && oldSize < newSize <= MAXVA
    requires forall n: nat :: Round(oldSize) <= n * PAGE_SIZE < newSize ==> Reach(k.View(), root, n)
    modifies k
    ensures full ==> |pages| == PagesToAdd(oldSize, newSize)
    ensures full && |pages| <= 1 ==>
              && r == Returned(oldSize) && Inv(k.View())
              && KeepsMaps(old(k.View()), k.View()) && KeepsHeld(old(k.View()), k.View())
              && FreeOrTree(old(k.View()), k.View(), root)
              && forall p :: p in pages ==> p in k.kind && k.kind[p].Free?
    ensures full && |pages| >= 2 ==> r == Panicked(NotMapped)
    ensures !full ==> |pages| < PagesToAdd(oldSize, newSize) && (r.Panicked? || r == Returned(0))
  {
    hide Inv, Reach, Trans, KeepsMaps, KeepsHeld, FreeOrTree, Backed, Unmapped, HeldIfFreed, UnmapResult, Round, PagesToAdd,
         PagesToDrop, OrRU, SetBit0, ZeroPages, IsRoot;
    ghost var a := k.View();
    r, pages, full := k.Uvmalloc(root, oldSize, newSize, perm);
    if r != Returned(newSize) {
      return;
    }
    ghost var s, lo, data := k.View(), Round(oldSize) / PAGE_SIZE, ZeroPages(|pages|);
    ghost var flags := SetBit0(OrRU(perm));
    GrownSizes(oldSize, newSize, lo, |pages|);
    ghost var end := (lo + |pages|) * PAGE_SIZE;
    BackedRange(a, s, root, lo, pages, data, perm, end);
    DropRounded(newSize, oldSize, end, lo * PAGE_SIZE);
    BackedRoot(a, s, root, lo, pages, data, flags);
    r := k.Uvmdealloc(root, newSize, oldSize);
    if pages == [] {
      NoPages(a, s, root, lo, data, flags);
    } else if |pages| == 1 {
      BackedThenUnmapped(a, s, k.View(), root, lo, pages, data, flags);
      BackedThenFree(a, s, k.View(), root, lo, pages, data, flags);
    }
  }

  lemma FreedSets(c: State, d: State, root: nat)
    requires Freed(c, d, root)
    ensures FreeSet(d) == FreeSet(c) + TreeSet(c, root)
  {
    hide InTree;
  }

  lemma TablesAreNotFree(s: State, root: nat)
    ensures FreeSet(s) !! TreeSet(s, root)
  {
  }
}
