/** Any run of the memory operations by a client that keeps track of its pages and tables. */
module MemoryRun {
  import opened Outcomes
  import opened Mmu
  import opened PageTable
  import opened Teardown
  import opened UserMemory
  import opened Vm
  import opened Accounting

  /** A call; pages and tables are named by their place in the client's lists. */
  datatype Op =
    | Alloc                                                          // kalloc
    | Release(i: nat)                                                // kfree of a page held
    | Create                                                         // uvmcreate
    | Visit(i: nat, va: Word, alloc: bool)                           // walk
    | Map(i: nat, va: Word, size: Word, pa: Word, perm: nat)         // mappages
    | Grow(i: nat, oldSize: Word, newSize: Word, perm: nat)          // uvmalloc
    | TearDown(i: nat)                                               // freewalk

  /** Permissions fit the flag field, and mappings are leaves. */
  predicate Sensible(op: Op) {
    (op.Map? ==> op.perm < 1024 && AnyRwx(op.perm)) && (op.Grow? ==> op.perm < 1024)
  }

  ghost predicate LeafFlags(s: State, r: nat) {
    forall n :: Reach(s, r, n) && Trans(s.mem, r, n).Some? ==> AnyRwx(Trans(s.mem, r, n).value.flags)
  }

  ghost predicate Distinct(xs: seq<nat>) { forall i, j :: 0 <= i < j < |xs| ==> xs[i] != xs[j] }

  // ----- the client's ledger -----------------------------------------------------------------

  ghost predicate MapsAt(s: State, r: nat, n: nat, p: nat) {
    Reach(s, r, n) && Trans(s.mem, r, n).Some? && Trans(s.mem, r, n).value.pa == p
  }

  /** Some table of the client maps page `p`. */
  ghost predicate MappedBy(s: State, roots: seq<nat>, p: nat) {
    exists i: nat, n: nat :: i < |roots| && MapsAt(s, roots[i], n, p)
  }

  /** Table `t` belongs to the tree of one of the roots. */
  ghost predicate TableOf(s: State, roots: seq<nat>, t: nat) {
    exists i: nat :: i < |roots| && InTree(s, t, roots[i])
  }

  /** The pages handed out are exactly those the client holds and those uvmalloc took for it. */
  ghost predicate Pages(s: State, held: seq<nat>, grown: set<nat>) {
    && Distinct(held)
    && (forall p :: p in held ==> p in s.kind && p !in grown)
    && (forall p :: p in grown ==> p in s.kind)
    && (forall p :: p in s.kind ==> (s.kind[p].Data? <==> p in held || p in grown))
  }

  ghost predicate Roots(s: State, roots: seq<nat>) {
    Distinct(roots) && forall i :: 0 <= i < |roots| ==> IsRoot(s, roots[i]) && LeafFlags(s, roots[i])
  }

  /** Every table is in the tree of a root the client has. */
  ghost predicate Tables(s: State, roots: seq<nat>) {
    forall t :: IsTable(s, t) ==> TableOf(s, roots, t)
  }

  /** Every page that uvmalloc took is mapped by one of these trees. */
  ghost predicate GrownMapped(s: State, grown: set<nat>, roots: seq<nat>) {
    forall p :: p in grown ==> MappedBy(s, roots, p)
  }

  /** Nothing is lost: what is not free is in the client's lists, or can be reached from them. */
  ghost predicate Ledger(s: State, held: seq<nat>, grown: set<nat>, roots: seq<nat>) {
    s.cut == {} && Pages(s, held, grown) && Roots(s, roots) && Tables(s, roots) && GrownMapped(s, grown, roots)
  }

  // ----- what steps leave in place -----------------------------------------------------------

  /** Nothing in use changes its use. */
  ghost predicate SameUse(a: State, b: State) {
    b.cut == a.cut && forall q :: q in a.kind && !a.kind[q].Free? ==> q in b.kind && b.kind[q] == a.kind[q]
  }

  ghost predicate SameTables(a: State, b: State) {
    b.cut == a.cut && forall q {:trigger b.kind[q]} {:trigger IsTable(a, q)} :: IsTable(a, q) ==> q in b.kind && b.kind[q] == a.kind[q]
  }

  lemma TreeStays(a: State, b: State, t: nat, r: nat)
    requires SameTables(a, b) && InTree(a, t, r)
    ensures InTree(b, t, r)
  {
    assert IsTable(a, t);
    if a.kind[t].up.Some? && t != r && !Under(a, t, r) {
      assert IsTable(a, a.kind[t].up.value.page);
    }
  }

  lemma TablesStay(a: State, b: State, roots: seq<nat>)
    requires SameTables(a, b) && Tables(a, roots)
    requires forall t :: IsTable(b, t) && !IsTable(a, t) ==> TableOf(b, roots, t)
    ensures Tables(b, roots)
  {
    hide InTree;
    forall t | IsTable(b, t) ensures TableOf(b, roots, t) {
      if IsTable(a, t) {
        assert TableOf(a, roots, t);
        var i: nat :| i < |roots| && InTree(a, t, roots[i]);
        TreeStays(a, b, t, roots[i]);
      }
    }
  }

  /** New tables all belong to the tree of the `i`-th root. */
  lemma TablesGrow(a: State, b: State, roots: seq<nat>, i: nat)
    requires SameUse(a, b) && i < |roots| && FreeOrTree(a, b, roots[i]) && Tables(a, roots)
    ensures Tables(b, roots)
  {
    forall t | IsTable(b, t) && !IsTable(a, t) ensures TableOf(b, roots, t) {
      assert a.kind[t].Free?;
      assert InTree(b, t, roots[i]);
    }
    hide InTree;
    TablesStay(a, b, roots);
  }

  lemma FlagsStay(a: State, b: State, r: nat)
    requires LeafFlags(a, r) && KeepsMaps(a, b) && b.cut == a.cut && IsRoot(a, r)
    ensures LeafFlags(b, r)
  {
    hide Trans;
    forall n | Reach(b, r, n) && Trans(b.mem, r, n).Some? ensures AnyRwx(Trans(b.mem, r, n).value.flags) {
      assert Reach(a, r, n);
    }
  }

  lemma RootsStay(a: State, b: State, roots: seq<nat>)
    requires Roots(a, roots) && SameTables(a, b) && KeepsMaps(a, b)
    ensures Roots(b, roots)
  {
    hide KeepsMaps, LeafFlags;
    forall i | 0 <= i < |roots| ensures IsRoot(b, roots[i]) && LeafFlags(b, roots[i]) {
      assert IsTable(a, roots[i]);
      FlagsStay(a, b, roots[i]);
    }
  }

  lemma GrownStay(a: State, b: State, grown: set<nat>, roots: seq<nat>)
    requires GrownMapped(a, grown, roots) && KeepsMaps(a, b)
    ensures GrownMapped(b, grown, roots)
  {
    hide Trans, Reach;
    forall p | p in grown ensures MappedBy(b, roots, p) {
      assert MappedBy(a, roots, p);
      var i: nat, n: nat :| i < |roots| && MapsAt(a, roots[i], n, p);
      assert MapsAt(b, roots[i], n, p);
    }
  }

  lemma UseIsTables(a: State, b: State)
    requires SameUse(a, b)
    ensures SameTables(a, b)
  {
  }

  /** A step that uses up free pages for tables of the `i`-th tree only, and maps nothing. */
  lemma LedgerGrows(a: State, b: State, held: seq<nat>, grown: set<nat>, roots: seq<nat>, i: nat)
    requires Ledger(a, held, grown, roots) && SameUse(a, b) && KeepsMaps(a, b) && i < |roots| && FreeOrTree(a, b, roots[i])
    ensures Ledger(b, held, grown, roots)
  {
    UseIsTables(a, b);
    TablesGrow(a, b, roots, i);
    assert Pages(b, held, grown) by { SamePages(a, b, held, grown, roots[i]); }
    hide KeepsMaps, SameUse, FreeOrTree, Pages, Roots, Tables, GrownMapped;
    RootsStay(a, b, roots);
    GrownStay(a, b, grown, roots);
  }

  lemma SamePages(a: State, b: State, held: seq<nat>, grown: set<nat>, root: nat)
    requires Pages(a, held, grown) && SameUse(a, b) && FreeOrTree(a, b, root)
    ensures Pages(b, held, grown)
  {
    forall p | p in b.kind ensures b.kind[p].Data? <==> p in held || p in grown {
      assert b.kind[p].Data? <==> a.kind[p].Data?;
    }
  }

  // ----- the calls ---------------------------------------------------------------------------

  function Without(xs: seq<Word>, i: nat): (ys: seq<Word>)
    requires i < |xs|
    ensures |ys| == |xs| - 1 && forall j :: 0 <= j < |ys| ==> ys[j] == xs[if j < i then j else j + 1]
  {
    xs[..i] + xs[i + 1..]
  }

  lemma WithoutElems(xs: seq<Word>, i: nat)
    requires i < |xs| && Distinct(xs)
    ensures Distinct(Without(xs, i)) && forall x: nat :: x in Without(xs, i) <==> x in xs && x != xs[i]
  {
    forall x: nat | x in xs && x != xs[i] ensures x in Without(xs, i) {
      var j :| 0 <= j < |xs| && xs[j] == x;
      assert Without(xs, i)[if j < i then j else j - 1] == x;
    }
  }

  method DoAlloc(k: Kernel, held: seq<Word>, ghost grown: set<nat>, roots: seq<Word>) returns (held': seq<Word>)
    requires Inv(k.View()) && Ledger(k.View(), held, grown, roots)
    modifies k
    ensures Inv(k.View()) && Ledger(k.View(), held', grown, roots)
    ensures held' == if old(k.frees) == [] then held else held + old(k.frees)[..1]
  {
    hide Wf, CutsAtRoots, NoStrays, Ledger;
    ghost var a := k.View();
    var pa := k.Kalloc();
    if pa == 0 {
      return held;
    }
    AllocLedger(a, held, grown, roots);
    assert a.frees[..1] == [pa];
    return held + [pa];
  }

  lemma AllocLedger(a: State, held: seq<nat>, grown: set<nat>, roots: seq<nat>)
    requires Inv(a) && Ledger(a, held, grown, roots) && a.frees != []
    ensures Ledger(Taken(a), held + [a.frees[0]], grown, roots)
  {
    TakeKeepsInv(a);
    FirstIsFree(a);
    var b := Taken(a);
    hide Inv, KeepsMaps, Roots, GrownMapped, TableOf, InTree;
    TablesStay(a, b, roots);
    RootsStay(a, b, roots);
    GrownStay(a, b, grown, roots);
  }

  lemma FirstIsFree(a: State)
    requires Inv(a) && a.frees != []
    ensures a.frees[0] in a.kind && a.kind[a.frees[0]].Free?
  {
    assert a.frees[0] in a.frees;
  }

  method DoRelease(k: Kernel, held: seq<Word>, ghost grown: set<nat>, roots: seq<Word>, i: nat) returns (held': seq<Word>)
    requires Inv(k.View()) && Ledger(k.View(), held, grown, roots) && i < |held|
    modifies k
    ensures Inv(k.View()) && Ledger(k.View(), held', grown, roots)
    ensures held' == Without(held, i) && k.frees == [held[i]] + old(k.frees)
  {
    hide Inv, KeepsMaps, Roots, Tables, GrownMapped;
    ghost var a := k.View();
    assert held[i] in held;
    InvFacts(a, held[i]);
    HeldIsPage(a, held[i]);
    DataIsUnlinked(a, held[i]);
    var o := k.Kfree(held[i]);
    ReleaseLedger(a, k.View(), held, grown, roots, i);
    return Without(held, i);
  }

  lemma HeldIsPage(s: State, p: nat)
    requires Inv(s) && p in s.kind
    ensures IsPage(p) && p in s.mem
  {
  }

  lemma ReleaseLedger(a: State, b: State, held: seq<Word>, grown: set<nat>, roots: seq<nat>, i: nat)
    requires Ledger(a, held, grown, roots) && i < |held| && a.freelist < WORD_LIMIT
    requires b == Given(a, held[i]) && KeepsMaps(a, b)
    ensures Ledger(b, Without(held, i), grown, roots)
  {
    assert held[i] in held;
    WithoutElems(held, i);
    hide KeepsMaps, Roots, GrownMapped, TableOf, InTree, Without;
    TablesStay(a, b, roots);
    RootsStay(a, b, roots);
    GrownStay(a, b, grown, roots);
  }

  method DoCreate(k: Kernel, held: seq<Word>, ghost grown: set<nat>, roots: seq<Word>) returns (roots': seq<Word>)
    requires Inv(k.View()) && Ledger(k.View(), held, grown, roots)
    modifies k
    ensures Inv(k.View()) && Ledger(k.View(), held, grown, roots')
    ensures roots' == if old(k.frees) == [] then roots else roots + old(k.frees)[..1]
  {
    hide Wf, CutsAtRoots, NoStrays, Trans, KeepsMaps, KeepsData, Reach, Ledger;
    ghost var a := k.View();
    var root := k.Uvmcreate();
    if root == 0 {
      return roots;
    }
    CreateLedger(a, k.View(), held, grown, roots);
    assert a.frees[..1] == [root];
    return roots + [root];
  }

  lemma CreateLedger(a: State, b: State, held: seq<nat>, grown: set<nat>, roots: seq<nat>)
    requires Inv(a) && Ledger(a, held, grown, roots) && a.frees != []
    requires b == Rooted(Taken(a), a.frees[0]) && KeepsMaps(a, b) && forall n :: Trans(b.mem, a.frees[0], n) == None
    ensures Ledger(b, held, grown, roots + [a.frees[0]])
  {
    var root := a.frees[0];
    FirstIsFree(a);
    CreatePages(a, b, held, grown, roots);
    hide Inv, Trans, KeepsMaps, InTree, Pages, Tables, GrownMapped, LeafFlags, Taken, Rooted;
    RootsStay(a, b, roots);
    MoreRoots(b, roots, root);
    GrownStay(a, b, grown, roots);
    MoreGrown(b, grown, roots, root);
    CreateTables(a, b, roots, root);
  }

  lemma CreatePages(a: State, b: State, held: seq<nat>, grown: set<nat>, roots: seq<nat>)
    requires a.frees != [] && a.frees[0] in a.kind && a.kind[a.frees[0]].Free? && b == Rooted(Taken(a), a.frees[0])
    requires Pages(a, held, grown) && a.cut == {} && Roots(a, roots)
    ensures Pages(b, held, grown) && SameTables(a, b) && IsRoot(b, a.frees[0]) && a.frees[0] !in roots && b.cut == {}
    ensures forall t :: IsTable(b, t) && t != a.frees[0] ==> IsTable(a, t)
  {
    hide LeafFlags;
  }

  lemma CreateTables(a: State, b: State, roots: seq<nat>, root: nat)
    requires SameTables(a, b) && Tables(a, roots) && IsRoot(b, root)
    requires forall t :: IsTable(b, t) && t != root ==> IsTable(a, t)
    ensures Tables(b, roots + [root])
  {
    hide InTree;
    var all := roots + [root];
    forall t | IsTable(b, t) ensures TableOf(b, all, t) {
      if t == root {
        SelfInTree(b, root);
        assert InTree(b, t, all[|roots|]);
      } else {
        assert TableOf(a, roots, t);
        var i: nat :| i < |roots| && InTree(a, t, roots[i]);
        TreeStays(a, b, t, roots[i]);
        assert InTree(b, t, all[i]);
      }
    }
  }

  lemma SelfInTree(s: State, r: nat)
    requires IsTable(s, r)
    ensures InTree(s, r, r)
  {
  }

  lemma MoreRoots(s: State, roots: seq<nat>, root: nat)
    requires Roots(s, roots) && IsRoot(s, root) && root !in roots && forall n :: Trans(s.mem, root, n) == None
    ensures Roots(s, roots + [root])
  {
    hide Trans, Reach;
  }

  lemma MoreGrown(s: State, grown: set<nat>, roots: seq<nat>, root: nat)
    requires GrownMapped(s, grown, roots)
    ensures GrownMapped(s, grown, roots + [root])
  {
    hide MapsAt;
    var all := roots + [root];
    forall p | p in grown ensures MappedBy(s, all, p) {
      assert MappedBy(s, roots, p);
      var i: nat, n: nat :| i < |roots| && MapsAt(s, roots[i], n, p);
      assert MapsAt(s, all[i], n, p);
    }
  }

  method DoVisit(k: Kernel, held: seq<Word>, ghost grown: set<nat>, roots: seq<Word>, i: nat, va: Word, alloc: bool)
      returns (r: Outcome<()>)
    requires Inv(k.View()) && Ledger(k.View(), held, grown, roots) && i < |roots|
    modifies k
    ensures r.Returned? ==> Inv(k.View()) && Ledger(k.View(), held, grown, roots)
  {
    hide Inv, LeafFlags, Grew, KeepsMaps, Extended, Pages, Tables, GrownMapped;
    ghost var a := k.View();
    var w := k.Walk(roots[i], va, alloc);
    if w.Panicked? {
      return Panicked(w.why);
    }
    GrewParts(a, k.View(), roots[i]);
    LedgerGrows(a, k.View(), held, grown, roots, i);
    return Returned(());
  }

  lemma GrewParts(a: State, b: State, root: nat)
    requires Grew(a, b, root)
    ensures SameUse(a, b) && KeepsMaps(a, b) && FreeOrTree(a, b, root)
  {
    hide KeepsMaps, InTree;
  }

  method DoMap(k: Kernel, held: seq<Word>, ghost grown: set<nat>, roots: seq<Word>, op: Op) returns (r: Outcome<()>)
    requires Inv(k.View()) && Ledger(k.View(), held, grown, roots) && op.Map? && op.i < |roots| && Sensible(op)
    modifies k
    ensures r.Returned? ==> Inv(k.View()) && Ledger(k.View(), held, grown, roots)
  {
    hide Inv, LeafFlags, Extended, Mapped, Pages, Tables, GrownMapped;
    ghost var a := k.View();
    var o, n := k.Mappages(roots[op.i], op.va, op.size, op.pa, op.perm);
    if o.Panicked? {
      return Panicked(o.why);
    }
    MapLedger(a, k.View(), held, grown, roots, op.i, op.va / PAGE_SIZE, n, op.pa, op.perm);
    return Returned(());
  }

  /** Where something was mapped, it is mapped still. */
  ghost predicate MapsMore(a: State, b: State) {
    forall r, n {:trigger Reach(a, r, n)} :: Reach(a, r, n) ==>
      Reach(b, r, n) && (Trans(a.mem, r, n).Some? ==> Trans(b.mem, r, n) == Trans(a.mem, r, n))
  }

  lemma GrownStayMapped(a: State, b: State, grown: set<nat>, roots: seq<nat>)
    requires GrownMapped(a, grown, roots) && MapsMore(a, b)
    ensures GrownMapped(b, grown, roots)
  {
    hide Trans, Reach;
    forall p | p in grown ensures MappedBy(b, roots, p) {
      assert MappedBy(a, roots, p);
      var i: nat, n: nat :| i < |roots| && MapsAt(a, roots[i], n, p);
      assert Reach(a, roots[i], n) && MapsAt(b, roots[i], n, p);
    }
  }

  lemma MapParts(a: State, b: State, root: nat, lo: nat, k: nat, pa: Word, perm: nat)
    requires Extended(a, b, root) && Mapped(a, b, root, lo, k, pa, perm) && perm < 1024 && AnyRwx(perm)
    ensures SameUse(a, b) && FreeOrTree(a, b, root) && MapsMore(a, b)
    ensures forall r :: IsRoot(a, r) && a.cut == {} && LeafFlags(a, r) ==> LeafFlags(b, r)
  {
    hide Trans, KeepsData, InTree;
    assert AnyRwx(SetBit0(perm));
    forall r | IsRoot(a, r) && a.cut == {} && LeafFlags(a, r) ensures LeafFlags(b, r) {
      forall n | Reach(b, r, n) && Trans(b.mem, r, n).Some? ensures AnyRwx(Trans(b.mem, r, n).value.flags) {
        assert Reach(a, r, n);
      }
    }
  }

  lemma MapLedger(a: State, b: State, held: seq<nat>, grown: set<nat>, roots: seq<nat>, i: nat, lo: nat, k: nat, pa: Word,
                  perm: nat)
    requires Ledger(a, held, grown, roots) && i < |roots| && perm < 1024 && AnyRwx(perm)
    requires Extended(a, b, roots[i]) && Mapped(a, b, roots[i], lo, k, pa, perm)
    ensures Ledger(b, held, grown, roots)
  {
    hide LeafFlags, Extended, Mapped, Pages, Tables, GrownMapped, MapsMore, FreeOrTree;
    MapParts(a, b, roots[i], lo, k, pa, perm);
    UseIsTables(a, b);
    SamePages(a, b, held, grown, roots[i]);
    TablesGrow(a, b, roots, i);
    GrownStayMapped(a, b, grown, roots);
    forall j | 0 <= j < |roots| ensures IsRoot(b, roots[j]) {
      assert IsTable(a, roots[j]);
    }
  }

  method DoGrow(k: Kernel, held: seq<Word>, ghost grown: set<nat>, roots: seq<Word>, op: Op)
      returns (r: Outcome<()>, ghost grown': set<nat>)
    requires Inv(k.View()) && Ledger(k.View(), held, grown, roots) && op.Grow? && op.i < |roots| && Sensible(op)
    modifies k
    ensures r.Returned? ==> Inv(k.View()) && Ledger(k.View(), held, grown', roots) && grown <= grown'
  {
    hide Inv, LeafFlags, Backed, KeepsMaps, KeepsHeld, Round, PagesToAdd, OrRU, SetBit0, ZeroPages, FreeOrTree, Pages,
         Tables, GrownMapped;
    ghost var a := k.View();
    grown' := grown;
    var o, pages, full := k.Uvmalloc(roots[op.i], op.oldSize, op.newSize, op.perm);
    if o.Panicked? {
      return Panicked(o.why), grown;
    }
    if op.newSize >= op.oldSize {
      if full {
        grown' := grown + Elems(pages);
        GrowLedger(a, k.View(), held, grown, roots, op.i, Round(op.oldSize) / PAGE_SIZE, pages, ZeroPages(|pages|), op.perm);
      } else {
        HeldIsSameUse(a, k.View());
        LedgerGrows(a, k.View(), held, grown, roots, op.i);
      }
    }
    return Returned(()), grown';
  }

  lemma HeldIsSameUse(a: State, b: State)
    requires KeepsHeld(a, b)
    ensures SameUse(a, b)
  {
  }

  lemma GrowMaps(a: State, b: State, root: nat, lo: nat, pages: seq<nat>, flags: nat)
    requires BackedMaps(a, b, root, lo, pages, flags) && AnyRwx(flags)
    ensures MapsMore(a, b)
    ensures forall r :: IsRoot(a, r) && a.cut == {} && b.cut == {} && LeafFlags(a, r) ==> LeafFlags(b, r)
    ensures forall j :: 0 <= j < |pages| ==> MapsAt(b, root, lo + j, pages[j])
  {
    hide Trans;
    forall r | IsRoot(a, r) && a.cut == {} && b.cut == {} && LeafFlags(a, r) ensures LeafFlags(b, r) {
      forall n | Reach(b, r, n) && Trans(b.mem, r, n).Some? ensures AnyRwx(Trans(b.mem, r, n).value.flags) {
        assert Reach(a, r, n);
      }
    }
    forall j | 0 <= j < |pages| ensures MapsAt(b, root, lo + j, pages[j]) {
      assert Reach(a, root, lo + j);
    }
  }

  lemma GrowPages(a: State, b: State, root: nat, pages: seq<nat>, data: seq<Page>, held: seq<nat>, grown: set<nat>)
    requires BackedPages(a, b, root, pages, data) && Pages(a, held, grown)
    ensures Pages(b, held, grown + Elems(pages)) && SameTables(a, b)
    ensures forall t :: IsTable(b, t) && !IsTable(a, t) ==> InTree(b, t, root)
  {
    hide KeepsData, InTree;
    forall j | 0 <= j < |pages| ensures pages[j] in a.kind && a.kind[pages[j]].Free? && pages[j] in b.kind && b.kind[pages[j]].Data? {
      assert Fresh(a, b, pages[j], data[j]);
    }
    forall p | p in b.kind ensures b.kind[p].Data? <==> p in held || p in grown + Elems(pages) {
      if !a.kind[p].Free? {
        assert b.kind[p] == a.kind[p];
      } else if InTree(b, p, root) {
        InTreeIsTable(b, p, root);
      }
    }
  }

  lemma GrowLedger(a: State, b: State, held: seq<nat>, grown: set<nat>, roots: seq<nat>, i: nat, lo: nat, pages: seq<nat>,
                   data: seq<Page>, perm: nat)
    requires Ledger(a, held, grown, roots) && i < |roots| && perm < 1024
    requires Backed(a, b, roots[i], lo, pages, data, SetBit0(OrRU(perm)))
    ensures Ledger(b, held, grown + Elems(pages), roots)
  {
    OrRUIsLeaf(perm);
    assert b.cut == a.cut;
    hide LeafFlags, BackedMaps, BackedPages, Pages, MapsAt, MapsMore, InTree, OrRU, SetBit0, AnyRwx;
    GrowMaps(a, b, roots[i], lo, pages, SetBit0(OrRU(perm)));
    GrowPages(a, b, roots[i], pages, data, held, grown);
    GrownStayMapped(a, b, grown, roots);
    forall t | IsTable(b, t) && !IsTable(a, t) ensures TableOf(b, roots, t) {
      assert InTree(b, t, roots[i]);
    }
    TablesStay(a, b, roots);
    forall p | p in Elems(pages) ensures MappedBy(b, roots, p) {
      var j :| 0 <= j < |pages| && pages[j] == p;
      assert MapsAt(b, roots[i], lo + j, p);
    }
    forall j | 0 <= j < |roots| ensures IsRoot(b, roots[j]) {
      assert IsTable(a, roots[j]);
    }
  }

  method DoTearDown(k: Kernel, held: seq<Word>, ghost grown: set<nat>, roots: seq<Word>, i: nat)
      returns (r: Outcome<()>, roots': seq<Word>)
    requires Inv(k.View()) && Ledger(k.View(), held, grown, roots) && i < |roots|
    modifies k
    ensures r.Returned? ==> Inv(k.View()) && Ledger(k.View(), held, grown, roots') && roots' == Without(roots, i)
  {
    hide Wf, CutsAtRoots, NoStrays, LeafFlags, Freed, LeavesHaveRwx, NoCutsIn, LeafIn, Pages, Tables, GrownMapped;
    ghost var a := k.View();
    MayTearDown(a, roots, i);
    r := k.Freewalk(roots[i]);
    if r.Panicked? {
      return r, roots;
    }
    TearDownLedger(a, k.View(), held, grown, roots, i);
    return r, Without(roots, i);
  }

  lemma MayTearDown(a: State, roots: seq<Word>, i: nat)
    requires Inv(a) && Roots(a, roots) && a.cut == {} && i < |roots|
    ensures NoCutsIn(a, roots[i]) && LeavesHaveRwx(a, roots[i])
  {
    hide Wf, Trans, LeavesHaveRwx, NoCutsIn;
    assert LeafFlags(a, roots[i]);
    FlatTearable(a, roots[i]);
  }

  /** A tree without leaves maps nothing. */
  lemma NothingMapped(a: State, p: nat, n: nat, q: nat)
    requires Inv(a) && !LeafIn(a, p)
    ensures !MapsAt(a, p, n, q)
  {
    hide Wf, Trans, LeafAt;
    if MapsAt(a, p, n, q) { MappedIsLeaf(a, p, n); }
  }

  /** The tables of another root are outside the tree of `p`, and so are the tables above them. */
  lemma OtherTree(a: State, b: State, p: nat, t: nat, r: nat)
    requires Inv(a) && IsRoot(a, p) && IsRoot(a, r) && p != r && InTree(a, t, r) && Freed(a, b, p)
    ensures InTree(b, t, r)
  {
    hide Linked, FreeList, NoStrays;
    if InTree(a, t, p) { OneRoot(a, t, p, r); }
    if a.kind[t].up.Some? {
      var u := a.kind[t].up.value.page;
      assert Hangs(a, t, a.kind[t].up.value);
      if InTree(a, u, p) { TreeDown(a, t, u, p); }
    }
    if InTree(a, r, p) { OneRoot(a, r, p, r); }
  }

  lemma TreeDown(a: State, t: nat, u: nat, p: nat)
    requires Inv(a) && IsTable(a, t) && a.kind[t].up.Some? && a.kind[t].up.value.page == u && InTree(a, u, p)
    ensures InTree(a, t, p)
  {
    hide Linked, FreeList;
    var up := a.kind[t].up.value;
    assert Hangs(a, t, up);
    if a.kind[u].up.Some? {
      assert Hangs(a, u, a.kind[u].up.value);
      var v := a.kind[u].up.value.page;
      assert a.kind[v].up.Some? ==> Hangs(a, v, a.kind[v].up.value);
    }
  }

  lemma OtherRoot(a: State, b: State, p: nat, r: nat)
    requires Inv(a) && IsRoot(a, p) && IsRoot(a, r) && p != r && Freed(a, b, p) && LeafFlags(a, r)
    ensures IsRoot(b, r) && LeafFlags(b, r)
  {
    hide Wf, Trans;
    forall n | Reach(b, r, n) && Trans(b.mem, r, n).Some? ensures AnyRwx(Trans(b.mem, r, n).value.flags) {
      assert Reach(a, r, n);
      FreedKeepsMaps(a, b, p, r, n);
    }
  }

  lemma FreedPages(a: State, b: State, p: nat, held: seq<nat>, grown: set<nat>)
    requires Freed(a, b, p) && Pages(a, held, grown)
    ensures Pages(b, held, grown) && b.cut == a.cut
    ensures forall t :: IsTable(b, t) ==> IsTable(a, t) && !InTree(a, t, p)
  {
  }

  lemma OtherRoots(a: State, b: State, roots: seq<Word>, i: nat)
    requires Inv(a) && Roots(a, roots) && i < |roots| && Freed(a, b, roots[i])
    ensures Roots(b, Without(roots, i))
  {
    hide Wf, CutsAtRoots, NoStrays, LeafFlags, Freed, Without;
    WithoutElems(roots, i);
    var rest := Without(roots, i);
    forall j | 0 <= j < |rest| ensures IsRoot(b, rest[j]) && LeafFlags(b, rest[j]) {
      assert rest[j] in rest;
      OtherRoot(a, b, roots[i], rest[j]);
    }
  }

  /** Where a root other than the `i`-th is found in the shorter list. */
  lemma Place(roots: seq<Word>, i: nat, j: nat) returns (j': nat)
    requires Distinct(roots) && i < |roots| && j < |roots| && j != i
    ensures j' < |roots| - 1 && Without(roots, i)[j'] == roots[j] && roots[j] != roots[i]
  {
    j' := if j < i then j else j - 1;
  }

  lemma OtherTables(a: State, b: State, roots: seq<Word>, i: nat)
    requires Inv(a) && Roots(a, roots) && Tables(a, roots) && i < |roots| && Freed(a, b, roots[i])
    requires forall t :: IsTable(b, t) ==> IsTable(a, t) && !InTree(a, t, roots[i])
    ensures Tables(b, Without(roots, i))
  {
    hide Wf, CutsAtRoots, NoStrays, LeafFlags, Freed, InTree, Without;
    forall t | IsTable(b, t) ensures TableOf(b, Without(roots, i), t) {
      assert TableOf(a, roots, t);
      var j: nat :| j < |roots| && InTree(a, t, roots[j]);
      var j' := Place(roots, i, j);
      OtherTree(a, b, roots[i], t, roots[j]);
      assert InTree(b, t, Without(roots, i)[j']);
    }
  }

  lemma OtherGrown(a: State, b: State, grown: set<nat>, roots: seq<Word>, i: nat)
    requires Inv(a) && Roots(a, roots) && GrownMapped(a, grown, roots) && i < |roots| && Freed(a, b, roots[i])
    requires !LeafIn(a, roots[i])
    ensures GrownMapped(b, grown, Without(roots, i))
  {
    hide Wf, CutsAtRoots, NoStrays, LeafFlags, Freed, MapsAt, LeafIn, Without;
    forall q | q in grown ensures MappedBy(b, Without(roots, i), q) {
      assert MappedBy(a, roots, q);
      var j: nat, n: nat :| j < |roots| && MapsAt(a, roots[j], n, q);
      NothingMapped(a, roots[i], n, q);
      var j' := Place(roots, i, j);
      StillMapped(a, b, roots[i], roots[j], n, q);
      assert MapsAt(b, Without(roots, i)[j'], n, q);
    }
  }

  /** One tree is gone; the other tables, their trees and all pages of the client are as they were. */
  lemma TearDownLedger(a: State, b: State, held: seq<nat>, grown: set<nat>, roots: seq<Word>, i: nat)
    requires Inv(a) && Ledger(a, held, grown, roots) && i < |roots| && Freed(a, b, roots[i]) && !LeafIn(a, roots[i])
    ensures Ledger(b, held, grown, Without(roots, i))
  {
    FreedPages(a, b, roots[i], held, grown);
    hide Inv, Pages, Roots, Tables, GrownMapped, Freed, InTree, LeafIn, Without;
    OtherRoots(a, b, roots, i);
    OtherTables(a, b, roots, i);
    OtherGrown(a, b, grown, roots, i);
  }

  lemma StillMapped(a: State, b: State, p: nat, r: nat, n: nat, q: nat)
    requires Inv(a) && IsRoot(a, p) && p != r && Freed(a, b, p) && MapsAt(a, r, n, q)
    ensures MapsAt(b, r, n, q)
  {
    hide Wf, Trans, Reach, Freed;
    FreedKeepsMaps(a, b, p, r, n);
  }

  // ----- runs --------------------------------------------------------------------------------

  /**
   * Any run from the state kinit leaves, in which every page is free. Calls naming a page or table
   * the client does not have are skipped, and a panic ends it. Up to then no page is lost or owned
   * twice: a page that is not on the free list is one the client holds, or is mapped by one of
   * its tables after uvmalloc took it, or is a table of exactly one of its trees.
   */
  method Run(k: Kernel, ops: seq<Op>) returns (r: Outcome<()>, held: seq<Word>, ghost grown: set<nat>, roots: seq<Word>)
    requires Inv(k.View()) && k.cut == {} && forall p :: p in k.kind ==> k.kind[p].Free?
    requires forall j :: 0 <= j < |ops| ==> Sensible(ops[j])
    modifies k
    ensures r.Returned? ==> Inv(k.View()) && Ledger(k.View(), held, grown, roots)
    ensures r.Returned? ==> NothingLost(k.View(), held, grown, roots)
  {
    hide Inv, Ledger, Sensible, NothingLost;
    r, held, grown, roots := Returned(()), [], {}, [];
    EmptyLedger(k.View());
    var j := 0;
    while j < |ops|
      invariant 0 <= j <= |ops| && r.Returned?
      invariant Inv(k.View()) && Ledger(k.View(), held, grown, roots)
    {
      match ops[j] {
      case Alloc =>
        held := DoAlloc(k, held, grown, roots);
      case Release(i) =>
        if i < |held| { held := DoRelease(k, held, grown, roots, i); }
      case Create =>
        roots := DoCreate(k, held, grown, roots);
      case Visit(i, va, alloc) =>
        if i < |roots| { r := DoVisit(k, held, grown, roots, i, va, alloc); }
      case Map(i, _, _, _, _) =>
        if i < |roots| { r := DoMap(k, held, grown, roots, ops[j]); }
      case Grow(i, _, _, _) =>
        if i < |roots| { r, grown := DoGrow(k, held, grown, roots, ops[j]); }
      case TearDown(i) =>
        if i < |roots| { r, roots := DoTearDown(k, held, grown, roots, i); }
      }
      if r.Panicked? {
        return;
      }
      j := j + 1;
    }
    LedgerIsComplete(k.View(), held, grown, roots);
  }

  lemma EmptyLedger(s: State)
    requires s.cut == {} && forall p :: p in s.kind ==> s.kind[p].Free?
    ensures Ledger(s, [], {}, [])
  {
  }

  /** Every page is on the free list, or held, or grown, or a table of one of the trees. */
  ghost predicate Covered(s: State, held: seq<nat>, grown: set<nat>, roots: seq<nat>) {
    forall p :: IsPage(p) ==>
      p in s.frees || p in held || p in grown || exists i: nat :: i < |roots| && p in TreeSet(s, roots[i])
  }

  /** No page is two of these, and no two trees share one. */
  ghost predicate Apart(s: State, held: seq<nat>, grown: set<nat>, roots: seq<nat>) {
    && (forall p :: p in s.frees ==> p !in held && p !in grown)
    && (forall p :: p in held ==> p !in grown)
    && (forall i: nat, p :: i < |roots| && p in TreeSet(s, roots[i]) ==> p !in s.frees && p !in held && p !in grown)
    && (forall i: nat, j: nat :: i < j < |roots| ==> TreeSet(s, roots[i]) !! TreeSet(s, roots[j]))
  }

  ghost predicate NothingLost(s: State, held: seq<nat>, grown: set<nat>, roots: seq<nat>) {
    && Covered(s, held, grown, roots) && Apart(s, held, grown, roots)
    && |s.frees| + |held| + |grown| + |TableSet(s)| == 31744
  }

  lemma LedgerIsComplete(s: State, held: seq<nat>, grown: set<nat>, roots: seq<nat>)
    requires Inv(s) && Ledger(s, held, grown, roots)
    ensures NothingLost(s, held, grown, roots)
  {
    hide Inv, Pages, Roots, Tables, GrownMapped, FreeSet, TableSet, DataSet, Covered, Apart;
    DataCounted(s, held, grown);
    PagesPartitioned(s);
    LedgerCovers(s, held, grown, roots);
    LedgerApart(s, held, grown, roots);
  }

  lemma LedgerCovers(s: State, held: seq<nat>, grown: set<nat>, roots: seq<nat>)
    requires Inv(s) && Pages(s, held, grown) && Tables(s, roots)
    ensures Covered(s, held, grown, roots)
  {
    FreeListed(s);
    SameKeys(s);
    hide Inv, Pages, Tables, FreeSet, Elems, Shape, TreeSet;
    forall p | IsPage(p)
      ensures p in s.frees || p in held || p in grown || exists i: nat :: i < |roots| && p in TreeSet(s, roots[i])
    {
      PageFound(s, held, grown, roots, p);
    }
  }

  lemma LedgerApart(s: State, held: seq<nat>, grown: set<nat>, roots: seq<nat>)
    requires Inv(s) && Pages(s, held, grown) && Roots(s, roots)
    ensures Apart(s, held, grown, roots)
  {
    FreeListed(s);
    hide Inv, Pages, Roots, FreeSet, Elems, Shape, TreeSet;
    TreesDisjoint(s, roots);
    HeldApart(s, held, grown);
    forall p | p in s.frees ensures p in s.kind && s.kind[p].Free? {
      ListedIsFree(s, p);
    }
    forall i: nat, p | i < |roots| && p in TreeSet(s, roots[i]) ensures p in s.kind && s.kind[p].Table? {
      TreeOfTables(s, p, roots[i]);
    }
  }

  lemma ListedIsFree(s: State, p: nat)
    requires FreeSet(s) == Elems(s.frees) && p in s.frees
    ensures p in s.kind && s.kind[p].Free?
  {
    assert p in FreeSet(s);
  }

  lemma HeldApart(s: State, held: seq<nat>, grown: set<nat>)
    requires Pages(s, held, grown)
    ensures forall p :: p in held || p in grown ==> p in s.kind && s.kind[p].Data?
    ensures forall p :: p in held ==> p !in grown
  {
  }

  lemma PageFound(s: State, held: seq<nat>, grown: set<nat>, roots: seq<nat>, p: nat)
    requires p in s.kind && Pages(s, held, grown) && Tables(s, roots) && FreeSet(s) == Elems(s.frees)
    ensures p in s.frees || p in held || p in grown || exists i: nat :: i < |roots| && p in TreeSet(s, roots[i])
  {
    hide InTree;
    if s.kind[p].Free? {
      assert p in FreeSet(s);
    } else if IsTable(s, p) {
      assert TableOf(s, roots, p);
      var i: nat :| i < |roots| && InTree(s, p, roots[i]);
      assert p in TreeSet(s, roots[i]);
    }
  }

  lemma TreeOfTables(s: State, p: nat, r: nat)
    requires p in TreeSet(s, r)
    ensures p in s.kind && s.kind[p].Table?
  {
    InTreeIsTable(s, p, r);
  }

  lemma InTreeIsTable(s: State, q: nat, p: nat)
    requires InTree(s, q, p)
    ensures IsTable(s, q)
  {
  }

  lemma DataCounted(s: State, held: seq<nat>, grown: set<nat>)
    requires Pages(s, held, grown)
    ensures |DataSet(s)| == |held| + |grown|
  {
    DistinctCard(held);
    assert DataSet(s) == Elems(held) + grown;
    assert Elems(held) !! grown;
  }

  lemma TreesDisjoint(s: State, roots: seq<nat>)
    requires Inv(s) && Roots(s, roots)
    ensures forall i: nat, j: nat :: i < j < |roots| ==> TreeSet(s, roots[i]) !! TreeSet(s, roots[j])
  {
    hide Inv, InTree, LeafFlags;
    forall i: nat, j: nat | i < j < |roots| ensures TreeSet(s, roots[i]) !! TreeSet(s, roots[j]) {
      forall p | p in TreeSet(s, roots[i]) ensures p !in TreeSet(s, roots[j]) {
        if p in TreeSet(s, roots[j]) { OneRoot(s, p, roots[i], roots[j]); }
      }
    }
  }
}
