/**
 * The physical pages of [KERNEND, PHYEND) and the Sv39 tables and free list kept inside them
 * (kern/vm.c, kern/phypage.c), as a value on which invariants and the flat map are stated.
 */
module PageTable {
  import opened Outcomes
  import opened Mmu

  /** A 4096-byte page as its 512 64-bit words. */
  type Page = seq<Word>
  /** Physical memory, keyed by page address. */
  type Memory = map<nat, Page>

  /** The address of a word: a page and a word index inside it. */
  datatype Slot = Slot(page: nat, idx: nat)

  /** What a page is used for. `up` is the slot that links a table to its parent; a root has none. */
  datatype Kind = Free | Data | Table(level: nat, up: Option<Slot>)

  /** A leaf entry as seen through the flat map. */
  datatype Mapping = Mapping(pa: nat, flags: nat)

  /**
   * The allocator and table state. `kind` and `frees` describe the intended use of every page and
   * the free list in order; `cut` holds the table slots that are not tree links (a self-map entry,
   * or the link to a table being torn down).
   */
  datatype State = State(mem: Memory, freelist: nat, kind: map<nat, Kind>, frees: seq<nat>, cut: set<Slot>)

  predicate IsPage(p: nat) { p % PAGE_SIZE == 0 && KERNEND <= p < PHYEND }

  function Zeros(): (pg: Page)
    ensures |pg| == ENTRIES
    ensures forall i :: 0 <= i < ENTRIES ==> pg[i] == 0
  {
    seq(ENTRIES, _ => 0)
  }

  /** The word at index `i` of page `p`; 0 outside memory. */
  function Entry(m: Memory, p: nat, i: nat): Word {
    if p in m && i < |m[p]| then m[p][i] else 0
  }

  function SetEntry(m: Memory, p: nat, i: nat, w: Word): (m': Memory)
    requires p in m && i < |m[p]|
    ensures m'.Keys == m.Keys && |m'[p]| == |m[p]|
    ensures Entry(m', p, i) == w
    ensures forall q, j :: (q != p || j != i) ==> Entry(m', q, j) == Entry(m, q, j)
    ensures forall q :: q in m && q != p ==> m'[q] == m[q]
  {
    var pg: Page := m[p][i := w];
    m[p := pg]
  }

  /** Every entry of page `p` is zero. */
  ghost predicate Clear(m: Memory, p: nat) {
    forall j :: Entry(m, p, j) == 0
  }

  lemma ZerosClear(m: Memory, p: nat)
    requires p in m && m[p] == Zeros()
    ensures Clear(m, p)
  {
  }

  // ----- walking ---------------------------------------------------------------------------

  /** The page that entry `i` of table `t` points to, if the entry is valid. */
  function Next(m: Memory, t: nat, i: nat): Option<nat> {
    if Valid(Entry(m, t, i)) then Some(Pte2Pa(Entry(m, t, i))) else None
  }

  /** The table that the walk for page `n` reaches at `level`. */
  function TableAt(m: Memory, root: nat, n: nat, level: nat): Option<nat>
    requires level <= 2
  {
    if level == 2 then Some(root)
    else if level == 1 then Next(m, root, Idx(n, 2))
    else
      match Next(m, root, Idx(n, 2))
      case None => None
      case Some(t) => Next(m, t, Idx(n, 1))
  }

  /** The level-0 slot for page `n`, if its tables exist. */
  function PteSlot(m: Memory, root: nat, n: nat): Option<Slot> {
    match TableAt(m, root, n, 0)
    case None => None
    case Some(t) => Some(Slot(t, Idx(n, 0)))
  }

  function Decode(pte: Word): Option<Mapping> {
    if Valid(pte) then Some(Mapping(Pte2Pa(pte), PteFlags(pte))) else None
  }

  /** The flat map of a table: what page number `n` is mapped to. */
  function Trans(m: Memory, root: nat, n: nat): Option<Mapping> {
    match PteSlot(m, root, n)
    case None => None
    case Some(sl) => Decode(Entry(m, sl.page, sl.idx))
  }

  /** The number of table pages that the walk for page `n` has to create. */
  function Missing(m: Memory, root: nat, n: nat): nat {
    if TableAt(m, root, n, 1).None? then 2
    else if TableAt(m, root, n, 0).None? then 1
    else 0
  }

  lemma WalkNext(m: Memory, root: nat, n: nat, level: nat, table: nat)
    requires 1 <= level <= 2 && TableAt(m, root, n, level) == Some(table)
    ensures TableAt(m, root, n, level - 1) == Next(m, table, Idx(n, level))
    ensures !Valid(Entry(m, table, Idx(n, level))) ==> PteSlot(m, root, n).None?
  {
  }

  // ----- invariants ------------------------------------------------------------------------

  ghost predicate Shape(s: State) {
    && s.kind.Keys == s.mem.Keys
    && (forall p :: p in s.mem <==> IsPage(p))
    && (forall p :: p in s.mem ==> |s.mem[p]| == ENTRIES)
    && (forall p :: p in s.kind && s.kind[p].Table? ==> s.kind[p].level <= 2)
  }

  ghost predicate IsTable(s: State, p: nat) { p in s.kind && s.kind[p].Table? }

  ghost predicate IsRoot(s: State, p: nat) { p in s.kind && s.kind[p] == Table(2, None) }

  /** The two bits of a table entry that PTE2PA would lose are clear. */
  ghost predicate Narrow(s: State) {
    forall p: nat, i: nat :: IsTable(s, p) ==> Entry(s.mem, p, i) < ENTRY_LIMIT
  }

  /** Every valid entry of an upper table, unless cut, leads to the table it owns. */
  ghost predicate Linked(s: State) {
    Narrow(s) &&
    forall p: nat, i: nat :: IsTable(s, p) && s.kind[p].level > 0 && i < ENTRIES
      && Slot(p, i) !in s.cut && Valid(Entry(s.mem, p, i))
      ==> var c := Pte2Pa(Entry(s.mem, p, i));
          c in s.kind && s.kind[c] == Table(s.kind[p].level - 1, Some(Slot(p, i)))
  }

  /** Every table with a parent slot is linked from exactly that slot. */
  ghost predicate LinkedFrom(s: State, c: nat, sl: Slot) {
    && IsTable(s, c)
    && IsTable(s, sl.page) && s.kind[sl.page].level == s.kind[c].level + 1
    && sl.idx < ENTRIES && (s.kind[c].level == 1 ==> sl.idx < 256)
    && sl !in s.cut
    && c < WORD_LIMIT && Entry(s.mem, sl.page, sl.idx) == MkPte(c, PTE_V)
  }

  ghost predicate Hangs(s: State, c: nat, sl: Slot) { IsTable(s, c) && s.kind[c].up == Some(sl) }

  ghost predicate Owned(s: State) {
    forall c, sl {:trigger Hangs(s, c, sl)} {:trigger LinkedFrom(s, c, sl)} ::
      Hangs(s, c, sl) ==> LinkedFrom(s, c, sl)
  }

  ghost function Following(fs: seq<nat>, k: nat): nat {
    if k + 1 < |fs| then fs[k + 1] else 0
  }

  /** The list threaded from `head` through word 0 of each page is `fs`. */
  ghost predicate FreeChain(m: Memory, head: nat, fs: seq<nat>) {
    && head == (if fs == [] then 0 else fs[0])
    && (forall k {:trigger Following(fs, k)} :: 0 <= k < |fs| ==> Entry(m, fs[k], 0) == Following(fs, k))
  }

  /** The free list holds exactly the free pages, each once. */
  ghost predicate FreeList(s: State) {
    && FreeChain(s.mem, s.freelist, s.frees)
    && (forall j, k :: 0 <= j < k < |s.frees| ==> s.frees[j] != s.frees[k])
    && (forall p :: p in s.frees <==> p in s.kind && s.kind[p].Free?)
  }

  ghost predicate Wf(s: State) {
    Shape(s) && Linked(s) && Owned(s) && FreeList(s)
  }

  /** Between calls only root slots are cut (the self-map entries). */
  ghost predicate CutsAtRoots(s: State) {
    forall sl :: sl in s.cut ==> IsRoot(s, sl.page)
  }

  /** Between calls every table without a parent is a root. */
  ghost predicate NoStrays(s: State) {
    forall p :: IsTable(s, p) && s.kind[p].up.None? ==> s.kind[p].level == 2
  }

  ghost predicate Inv(s: State) { Wf(s) && CutsAtRoots(s) && NoStrays(s) }

  /** Page `n` is translated by `r` through tree links only. */
  ghost predicate Reach(s: State, r: nat, n: nat) {
    IsRoot(s, r) && n < NPAGES && Slot(r, Idx(n, 2)) !in s.cut
  }

  /** Every cut slot of the root leads back to the root itself, as a self-map entry does. */
  ghost predicate Loops(s: State, r: nat) {
    forall j :: 0 <= j < ENTRIES && Slot(r, j) in s.cut ==> Next(s.mem, r, j) == Some(r)
  }

  /** Page `n` lies in the window of a self-map entry. */
  ghost predicate InWindow(s: State, r: nat, n: nat) {
    IsRoot(s, r) && n < NPAGES && Slot(r, Idx(n, 2)) in s.cut && Loops(s, r)
  }

  // ----- separation ------------------------------------------------------------------------

  /** The tables on a walk are the ones the walk's slots own. */
  lemma WalkKinds(s: State, r: nat, n: nat)
    requires Inv(s) && Reach(s, r, n)
    ensures TableAt(s.mem, r, n, 1).Some? ==>
              var t1 := TableAt(s.mem, r, n, 1).value;
              t1 in s.kind && s.kind[t1] == Table(1, Some(Slot(r, Idx(n, 2))))
    ensures TableAt(s.mem, r, n, 0).Some? ==>
              TableAt(s.mem, r, n, 1).Some? &&
              var t1, t0 := TableAt(s.mem, r, n, 1).value, TableAt(s.mem, r, n, 0).value;
              t0 in s.kind && s.kind[t0] == Table(0, Some(Slot(t1, Idx(n, 1))))
  {
  }

  /** Separation: a leaf slot serves one page of one table. */
  lemma SlotUnique(s: State, r: nat, n: nat, r': nat, n': nat)
    requires Inv(s) && Reach(s, r, n) && Reach(s, r', n')
    requires PteSlot(s.mem, r, n).Some? && PteSlot(s.mem, r, n) == PteSlot(s.mem, r', n')
    ensures r == r' && n == n'
  {
    WalkKinds(s, r, n);
    WalkKinds(s, r', n');
    IdxInjective(n, n');
  }

  // ----- frames ----------------------------------------------------------------------------

  /** Every page of every table keeps its translation. */
  ghost predicate KeepsMaps(a: State, b: State) {
    forall r, n :: Reach(a, r, n) ==> Reach(b, r, n) && Trans(b.mem, r, n) == Trans(a.mem, r, n)
  }

  /** Data pages keep their contents. */
  ghost predicate KeepsData(a: State, b: State) {
    forall p :: p in a.mem && p in a.kind && a.kind[p].Data? ==>
      p in b.mem && p in b.kind && b.kind[p].Data? && b.mem[p] == a.mem[p]
  }

  /** A walk meets tables only, inside the window of a self-map too. */
  lemma WalkTables(s: State, r: nat, n: nat, level: nat)
    requires Inv(s) && (Reach(s, r, n) || InWindow(s, r, n)) && level <= 2
    ensures TableAt(s.mem, r, n, level).Some? ==>
              var t := TableAt(s.mem, r, n, level).value; IsTable(s, t) && t in s.mem && |s.mem[t]| == ENTRIES
  {
    if Reach(s, r, n) {
      WalkKinds(s, r, n);
    } else if level == 0 && TableAt(s.mem, r, n, 0).Some? && Slot(r, Idx(n, 1)) !in s.cut {
      ChildIsTable(s, r, Idx(n, 1));
    }
  }

  lemma ChildIsTable(s: State, r: nat, j: nat)
    requires Inv(s) && IsRoot(s, r) && j < ENTRIES && Slot(r, j) !in s.cut
    ensures Next(s.mem, r, j).Some? ==> IsTable(s, Next(s.mem, r, j).value)
  {
  }

  /** Every table but `root` keeps its translations. */
  ghost predicate OthersKeep(a: State, b: State, root: nat) {
    forall r: nat, n: nat :: Reach(a, r, n) && r != root ==> Reach(b, r, n) && Trans(b.mem, r, n) == Trans(a.mem, r, n)
  }

  /** If the tables of a walk are untouched, so is its result. */
  lemma TransFrame(a: State, b: State, r: nat, n: nat)
    requires Inv(a) && Reach(a, r, n)
    requires forall p :: IsTable(a, p) ==> p in b.mem && b.mem[p] == a.mem[p]
    ensures TableAt(b.mem, r, n, 1) == TableAt(a.mem, r, n, 1)
    ensures PteSlot(b.mem, r, n) == PteSlot(a.mem, r, n)
    ensures Trans(b.mem, r, n) == Trans(a.mem, r, n)
    ensures Missing(b.mem, r, n) == Missing(a.mem, r, n)
  {
    WalkKinds(a, r, n);
    assert forall p, i :: IsTable(a, p) ==> Entry(b.mem, p, i) == Entry(a.mem, p, i);
  }

  // ----- steps -----------------------------------------------------------------------------

  /** `b` is `a` with page `p` rewritten and no longer a table. */
  ghost predicate Retired(a: State, b: State, p: nat) {
    && p in a.kind && p in a.mem && p in b.mem && |b.mem[p]| == ENTRIES
    && b.mem == a.mem[p := b.mem[p]]
    && p in b.kind && b.kind == a.kind[p := b.kind[p]] && !b.kind[p].Table?
    && b.cut == a.cut
  }

  /** If `p` is a table, no tree link enters or leaves it. */
  ghost predicate Unlinked(s: State, p: nat) {
    IsTable(s, p) ==>
      && s.kind[p].up.None?
      && (s.kind[p].level > 0 ==> forall i :: 0 <= i < ENTRIES ==> !Valid(Entry(s.mem, p, i)))
  }

  lemma RetireKeepsLinks(a: State, b: State, p: nat)
    requires Shape(a) && Linked(a) && Owned(a) && Retired(a, b, p)
    requires Unlinked(a, p)
    ensures Shape(b) && Linked(b) && Owned(b)
  {
    assert forall q, i :: q != p ==> Entry(b.mem, q, i) == Entry(a.mem, q, i);
    assert forall q :: IsTable(b, q) <==> IsTable(a, q) && q != p;
    forall c, sl | Hangs(b, c, sl) ensures LinkedFrom(b, c, sl) {
      assert LinkedFrom(a, c, sl);
      assert Valid(Entry(a.mem, sl.page, sl.idx));
    }
  }

  /** kalloc on a non-empty list: the head page is handed out, zeroed. */
  ghost function Taken(s: State): State
    requires s.frees != []
  {
    s.(mem := s.mem[s.frees[0] := Zeros()],
       freelist := if |s.frees| > 1 then s.frees[1] else 0,
       kind := s.kind[s.frees[0] := Data],
       frees := s.frees[1..])
  }

  lemma TakeKeepsFreeList(s: State)
    requires FreeList(s) && s.frees != []
    ensures FreeList(Taken(s))
    ensures s.freelist == s.frees[0] && Entry(s.mem, s.freelist, 0) == Taken(s).freelist
    ensures s.frees[0] in s.kind && s.kind[s.frees[0]].Free?
  {
    var b := Taken(s);
    var p := s.frees[0];
    assert p in s.frees;
    assert s.frees == [p] + b.frees;
    assert Entry(s.mem, p, 0) == Following(s.frees, 0);
    forall k | 0 <= k < |b.frees|
      ensures Entry(b.mem, b.frees[k], 0) == Following(b.frees, k)
    {
      assert b.frees[k] == s.frees[k + 1] && b.frees[k] != p;
      assert Entry(b.mem, b.frees[k], 0) == Entry(s.mem, s.frees[k + 1], 0) == Following(s.frees, k + 1);
    }
  }

  lemma TakeKeepsInv(s: State)
    requires Inv(s) && s.frees != []
    ensures Inv(Taken(s))
    ensures KeepsMaps(s, Taken(s)) && KeepsData(s, Taken(s))
  {
    var b := Taken(s);
    TakeKeepsFreeList(s);
    RetireKeepsLinks(s, b, s.frees[0]);
    forall r, n | Reach(s, r, n) ensures Reach(b, r, n) && Trans(b.mem, r, n) == Trans(s.mem, r, n) {
      TransFrame(s, b, r, n);
    }
  }

  /** kfree of a held page: it is cleared and becomes the head of the list. */
  ghost function Given(s: State, p: nat): State
    requires s.freelist < WORD_LIMIT
  {
    var head: Word := s.freelist;
    var pg: Page := Zeros()[0 := head];
    s.(mem := s.mem[p := pg],
       freelist := p,
       kind := s.kind[p := Free],
       frees := [p] + s.frees)
  }

  lemma GiveKeepsFreeList(s: State, p: nat)
    requires FreeList(s) && s.freelist < WORD_LIMIT && p in s.mem
    requires p in s.kind && !s.kind[p].Free?
    ensures FreeList(Given(s, p))
  {
    var b := Given(s, p);
    assert p !in s.frees;
    forall k | 0 <= k < |b.frees|
      ensures Entry(b.mem, b.frees[k], 0) == Following(b.frees, k)
    {
      if k == 0 {
        assert b.mem[p][0] == s.freelist;
      } else {
        assert b.frees[k] == s.frees[k - 1] && s.frees[k - 1] in s.frees;
        assert Entry(b.mem, b.frees[k], 0) == Entry(s.mem, s.frees[k - 1], 0) == Following(s.frees, k - 1);
      }
    }
  }

  lemma GiveKeepsWf(s: State, p: nat)
    requires Wf(s) && p in s.kind && !s.kind[p].Free? && Unlinked(s, p)
    ensures s.freelist < WORD_LIMIT && Wf(Given(s, p))
  {
    if s.frees != [] { assert s.frees[0] in s.frees; }
    GiveKeepsFreeList(s, p);
    RetireKeepsLinks(s, Given(s, p), p);
  }

  lemma DataIsUnlinked(s: State, p: nat)
    requires p in s.kind && s.kind[p].Data?
    ensures Unlinked(s, p)
  {
  }

  lemma GiveWordRange(s: State)
    requires Shape(s) && FreeList(s)
    ensures s.freelist < WORD_LIMIT
  {
    if s.frees != [] { assert s.frees[0] in s.frees; }
  }

  lemma GiveKeepsMaps(s: State, p: nat)
    requires Inv(s) && p in s.kind && s.kind[p].Data?
    ensures s.freelist < WORD_LIMIT && Inv(Given(s, p)) && KeepsMaps(s, Given(s, p))
  {
    GiveKeepsWf(s, p);
    forall r, n | Reach(s, r, n) ensures Reach(Given(s, p), r, n) && Trans(Given(s, p).mem, r, n) == Trans(s.mem, r, n) {
      TransFrame(s, Given(s, p), r, n);
    }
  }

  /** Page `c`, held and clear, becomes the table that slot (p, i) points to. */
  ghost function Attached(s: State, p: nat, i: nat, c: nat): State
    requires c < WORD_LIMIT && IsTable(s, p) && s.kind[p].level > 0 && p in s.mem && i < |s.mem[p]|
  {
    s.(mem := SetEntry(s.mem, p, i, MkPte(c, PTE_V)),
       kind := s.kind[c := Table(s.kind[p].level - 1, Some(Slot(p, i)))])
  }

  ghost predicate CanAttach(s: State, p: nat, i: nat, c: nat) {
    && IsTable(s, p) && s.kind[p].level > 0 && i < ENTRIES && (s.kind[p].level == 2 ==> i < 256)
    && Slot(p, i) !in s.cut && !Valid(Entry(s.mem, p, i))
    && c in s.kind && s.kind[c].Data? && Clear(s.mem, c)
  }

  /** The free list only depends on the free pages. */
  lemma FreeListFrame(a: State, b: State)
    requires FreeList(a) && b.frees == a.frees && b.freelist == a.freelist
    requires forall p :: p in b.kind && b.kind[p].Free? <==> p in a.kind && a.kind[p].Free?
    requires forall p :: p in a.kind && a.kind[p].Free? ==> Entry(b.mem, p, 0) == Entry(a.mem, p, 0)
    ensures FreeList(b)
  {
    assert forall k :: 0 <= k < |a.frees| ==> a.frees[k] in a.frees;
  }

  lemma AttachKeepsLinked(s: State, p: nat, i: nat, c: nat)
    requires Shape(s) && Linked(s) && CanAttach(s, p, i, c)
    ensures Shape(Attached(s, p, i, c)) && Linked(Attached(s, p, i, c))
  {
    var b := Attached(s, p, i, c);
    PteRoundTrip(c, PTE_V);
    forall q: nat, j: nat | IsTable(b, q) && b.kind[q].level > 0 && j < ENTRIES
      && Slot(q, j) !in b.cut && Valid(Entry(b.mem, q, j))
      ensures var d := Pte2Pa(Entry(b.mem, q, j));
              d in b.kind && b.kind[d] == Table(b.kind[q].level - 1, Some(Slot(q, j)))
    {
      assert Entry(s.mem, c, j) == 0;
      if q != p || j != i {
        assert IsTable(s, q) && Entry(b.mem, q, j) == Entry(s.mem, q, j);
      }
    }
  }

  lemma AttachKeepsOwned(s: State, p: nat, i: nat, c: nat)
    requires Shape(s) && Owned(s) && CanAttach(s, p, i, c)
    ensures Owned(Attached(s, p, i, c))
  {
    var b := Attached(s, p, i, c);
    forall q, sl | Hangs(b, q, sl) ensures LinkedFrom(b, q, sl) {
      if q != c {
        assert LinkedFrom(s, q, sl);
        assert sl != Slot(p, i);
      }
    }
  }

  lemma AttachKeepsTrans(s: State, p: nat, i: nat, c: nat, r: nat, n: nat)
    requires Inv(s) && CanAttach(s, p, i, c) && Reach(s, r, n)
    ensures Trans(Attached(s, p, i, c).mem, r, n) == Trans(s.mem, r, n)
  {
    var m, m' := s.mem, Attached(s, p, i, c).mem;
    WalkKinds(s, r, n);
    PteRoundTrip(c, PTE_V);
    assert Clear(m', c);
    if Slot(r, Idx(n, 2)) == Slot(p, i) {
      assert TableAt(m', r, n, 1) == Some(c);
      assert Trans(m', r, n) == None;
    } else {
      assert Next(m', r, Idx(n, 2)) == Next(m, r, Idx(n, 2));
      if TableAt(m, r, n, 1).Some? {
        var t1 := TableAt(m, r, n, 1).value;
        if Slot(t1, Idx(n, 1)) != Slot(p, i) {
          assert Next(m', t1, Idx(n, 1)) == Next(m, t1, Idx(n, 1));
        } else {
          assert Trans(m', r, n) == None;
        }
      }
    }
  }

  lemma AttachKeepsInv(s: State, p: nat, i: nat, c: nat)
    requires Inv(s) && CanAttach(s, p, i, c)
    ensures Inv(Attached(s, p, i, c)) && KeepsMaps(s, Attached(s, p, i, c))
  {
    AttachKeepsLinked(s, p, i, c);
    AttachKeepsOwned(s, p, i, c);
    FreeListFrame(s, Attached(s, p, i, c));
    forall r, n | Reach(s, r, n)
      ensures Reach(Attached(s, p, i, c), r, n) && Trans(Attached(s, p, i, c).mem, r, n) == Trans(s.mem, r, n)
    {
      AttachKeepsTrans(s, p, i, c, r, n);
    }
  }

  /** From `a` to `b` page `n0` of the table of `r0` was remapped to what `pte` says, and nothing else. */
  ghost predicate Remapped(a: State, b: State, r0: nat, n0: nat, pte: Word) {
    forall r, n :: Reach(a, r, n) ==>
      && Reach(b, r, n)
      && Trans(b.mem, r, n) == if r == r0 && n == n0 then Decode(pte) else Trans(a.mem, r, n)
  }

  ghost function LeafSet(s: State, sl: Slot, pte: Word): State
    requires sl.page in s.mem && sl.idx < |s.mem[sl.page]|
  {
    s.(mem := SetEntry(s.mem, sl.page, sl.idx, pte))
  }

  lemma SetLeafKeepsWf(s: State, sl: Slot, pte: Word)
    requires Wf(s) && IsTable(s, sl.page) && s.kind[sl.page].level == 0 && sl.idx < ENTRIES && pte < ENTRY_LIMIT
    ensures Wf(LeafSet(s, sl, pte)) && KeepsData(s, LeafSet(s, sl, pte))
  {
    var b := LeafSet(s, sl, pte);
    assert forall q :: IsTable(b, q) <==> IsTable(s, q);
    forall q, up | Hangs(b, q, up) ensures LinkedFrom(b, q, up) {
      assert LinkedFrom(s, q, up);
    }
    FreeListFrame(s, b);
  }

  /** Writing a leaf entry keeps the invariant and remaps exactly the page that the slot serves. */
  lemma SetLeafRemaps(s: State, r0: nat, n0: nat, pte: Word)
    requires Inv(s) && Reach(s, r0, n0) && PteSlot(s.mem, r0, n0).Some? && pte < ENTRY_LIMIT
    ensures var sl := PteSlot(s.mem, r0, n0).value;
            && sl.page in s.mem && sl.idx < |s.mem[sl.page]|
            && Inv(LeafSet(s, sl, pte)) && KeepsData(s, LeafSet(s, sl, pte))
            && Remapped(s, LeafSet(s, sl, pte), r0, n0, pte)
            && PteSlot(LeafSet(s, sl, pte).mem, r0, n0) == Some(sl)
  {
    var sl := PteSlot(s.mem, r0, n0).value;
    WalkKinds(s, r0, n0);
    SetLeafKeepsWf(s, sl, pte);
    var b := LeafSet(s, sl, pte);
    forall r, n | Reach(s, r, n)
      ensures PteSlot(b.mem, r, n) == PteSlot(s.mem, r, n)
      ensures Trans(b.mem, r, n) == if r == r0 && n == n0 then Decode(pte) else Trans(s.mem, r, n)
    {
      WalkKinds(s, r, n);
      if PteSlot(s.mem, r, n) == Some(sl) { SlotUnique(s, r, n, r0, n0); }
    }
  }

  lemma ClearRootIsEmpty(m: Memory, p: nat)
    requires Clear(m, p)
    ensures forall n :: Trans(m, p, n) == None
  {
  }

  ghost function Rooted(s: State, p: nat): State { s.(kind := s.kind[p := Table(2, None)]) }

  lemma RootKeepsLinks(s: State, p: nat)
    requires Shape(s) && Linked(s) && Owned(s) && p in s.kind && s.kind[p].Data? && Clear(s.mem, p)
    ensures Linked(Rooted(s, p)) && Owned(Rooted(s, p))
  {
    var b := Rooted(s, p);
    forall q, sl | Hangs(b, q, sl) ensures LinkedFrom(b, q, sl) {
      assert LinkedFrom(s, q, sl);
    }
    forall q: nat, j: nat | IsTable(b, q) && b.kind[q].level > 0 && j < ENTRIES
      && Slot(q, j) !in b.cut && Valid(Entry(b.mem, q, j))
      ensures var d := Pte2Pa(Entry(b.mem, q, j));
              d in b.kind && b.kind[d] == Table(b.kind[q].level - 1, Some(Slot(q, j)))
    {
      assert q != p && IsTable(s, q);
    }
  }

  /** A held, clear page becomes an empty root table. */
  lemma RootKeepsInv(s: State, p: nat)
    requires Inv(s) && p in s.kind && s.kind[p].Data? && Clear(s.mem, p)
    ensures Inv(Rooted(s, p))
  {
    assert Linked(Rooted(s, p)) && Owned(Rooted(s, p)) by { RootKeepsLinks(s, p); }
    assert FreeList(Rooted(s, p)) by { FreeListFrame(s, Rooted(s, p)); }
    hide Linked, Owned, FreeList, Clear;
  }

  /** uvmcreate: the page taken becomes an empty root that nothing else refers to. */
  lemma UvmcreateStep(s: State)
    requires Inv(s) && s.frees != []
    ensures var b := Rooted(Taken(s), s.frees[0]);
            && Inv(b) && KeepsMaps(s, b) && KeepsData(s, b)
            && (forall n: nat :: n < NPAGES ==> Reach(b, s.frees[0], n))
            && (forall n :: Trans(b.mem, s.frees[0], n) == None)
  {
    var t, p := Taken(s), s.frees[0];
    assert p in s.frees;
    TakeKeepsInv(s);
    ZerosClear(t.mem, p);
    RootKeepsInv(t, p);
    ClearRootIsEmpty(t.mem, p);
    assert !IsRoot(s, p);
    hide Wf, Trans, Clear;
    assert KeepsMaps(s, t);
  }

  // ----- growing a tree --------------------------------------------------------------------

  ghost predicate Under(s: State, q: nat, p: nat) {
    IsTable(s, q) && s.kind[q].up.Some? && s.kind[q].up.value.page == p
  }

  /** Table `q` belongs to the tree of tables rooted at `p`. */
  ghost predicate InTree(s: State, q: nat, p: nat) {
    && IsTable(s, q)
    && (q == p || Under(s, q, p) || (s.kind[q].up.Some? && Under(s, s.kind[q].up.value.page, p)))
  }

  /**
   * From `a` to `b` the tree of `root` may have gained tables, taken in order from the front of
   * the free list; no other page changed use, and no data page changed.
   */
  ghost predicate Extended(a: State, b: State, root: nat) {
    && b.cut == a.cut && b.kind.Keys == a.kind.Keys
    && |b.frees| <= |a.frees| && b.frees == a.frees[|a.frees| - |b.frees|..]
    && (forall q {:trigger b.kind[q]} :: q in a.kind && !a.kind[q].Free? ==> b.kind[q] == a.kind[q])
    && (forall q {:trigger b.kind[q]} :: q in a.kind && a.kind[q].Free? ==>
          b.kind[q].Free? || (InTree(b, q, root) && b.kind[q].up.Some?))
    && KeepsData(a, b)
  }

  /** The tree of `root` may have grown, and no translation changed. */
  ghost predicate Grew(a: State, b: State, root: nat) {
    Extended(a, b, root) && KeepsMaps(a, b)
  }

  lemma ExtendedTrans(a: State, b: State, c: State, root: nat)
    requires Extended(a, b, root) && Extended(b, c, root)
    ensures Extended(a, c, root)
  {
    forall q | q in a.kind && a.kind[q].Free?
      ensures c.kind[q].Free? || (InTree(c, q, root) && c.kind[q].up.Some?)
    {
      if !b.kind[q].Free? {
        assert c.kind[q] == b.kind[q];
        var u := b.kind[q].up.value.page;
        if u in b.kind { assert !b.kind[u].Free? ==> c.kind[u] == b.kind[u]; }
      }
    }
  }

  lemma GrewSelf(a: State, root: nat)
    ensures Grew(a, a, root)
  {
  }

  lemma GrewTrans(a: State, b: State, c: State, root: nat)
    requires Grew(a, b, root) && Grew(b, c, root)
    ensures Grew(a, c, root)
  {
    ExtendedTrans(a, b, c, root);
  }

  /** After attaching, the walk goes one level further, to the new table. */
  lemma AttachWalk(s: State, root: nat, n: nat, level: nat, table: nat, c: nat)
    requires Inv(s) && Reach(s, root, n) && 1 <= level <= 2
    requires TableAt(s.mem, root, n, level) == Some(table)
    requires CanAttach(s, table, Idx(n, level), c)
    ensures var m := Attached(s, table, Idx(n, level), c).mem;
            && TableAt(m, root, n, level - 1) == Some(c)
            && Missing(s.mem, root, n) == level && Missing(m, root, n) == level - 1
  {
    WalkKinds(s, root, n);
    var m := Attached(s, table, Idx(n, level), c).mem;
    PteRoundTrip(c, PTE_V);
    assert Clear(m, c);
  }

  lemma TakenCanAttach(s: State, root: nat, n: nat, level: nat, table: nat)
    requires Inv(s) && Reach(s, root, n) && 1 <= level <= 2
    requires TableAt(s.mem, root, n, level) == Some(table)
    requires !Valid(Entry(s.mem, table, Idx(n, level))) && s.frees != []
    ensures Inv(Taken(s)) && Reach(Taken(s), root, n) && s.frees[0] < WORD_LIMIT
    ensures TableAt(Taken(s).mem, root, n, level) == Some(table)
    ensures Missing(Taken(s).mem, root, n) == Missing(s.mem, root, n)
    ensures CanAttach(Taken(s), table, Idx(n, level), s.frees[0])
    ensures InTree(Taken(s), table, root) && (table == root || Under(Taken(s), table, root))
  {
    assert s.frees[0] in s.frees;
    TakeKeepsInv(s);
    WalkKinds(s, root, n);
    TransFrame(s, Taken(s), root, n);
    IdxInjective(n, n);
    ZerosClear(Taken(s).mem, s.frees[0]);
  }

  lemma KeepsMapsSelf(a: State)
    ensures KeepsMaps(a, a)
  {
  }

  lemma KeepsMapsTrans(a: State, b: State, c: State)
    requires KeepsMaps(a, b) && KeepsMaps(b, c)
    ensures KeepsMaps(a, c)
  {
  }

  /** Attaching a page just taken from the free list touches no data page of before. */
  lemma GrowKeepsData(s: State, p: nat, i: nat)
    requires Inv(s) && s.frees != [] && s.frees[0] < WORD_LIMIT && Shape(Taken(s))
    requires CanAttach(Taken(s), p, i, s.frees[0])
    ensures KeepsData(s, Attached(Taken(s), p, i, s.frees[0]))
  {
    assert s.frees[0] in s.frees;
  }

  lemma GrowKeepsKinds(s: State, p: nat, i: nat, root: nat)
    requires Inv(s) && s.frees != [] && s.frees[0] < WORD_LIMIT && Shape(Taken(s))
    requires CanAttach(Taken(s), p, i, s.frees[0])
    requires InTree(Taken(s), p, root) && (p == root || Under(Taken(s), p, root))
    ensures var b := Attached(Taken(s), p, i, s.frees[0]);
            && b.kind.Keys == s.kind.Keys
            && (forall q {:trigger b.kind[q]} :: q in s.kind && !s.kind[q].Free? ==> b.kind[q] == s.kind[q])
            && (forall q {:trigger b.kind[q]} :: q in s.kind && s.kind[q].Free? ==>
                 b.kind[q].Free? || (InTree(b, q, root) && b.kind[q].up.Some?))
  {
    assert s.frees[0] in s.frees;
  }

  /** One step of walk(alloc = 1): a missing table is taken from the free list and linked in. */
  lemma GrowStep(s: State, root: nat, n: nat, level: nat, table: nat)
    requires Inv(s) && Reach(s, root, n) && 1 <= level <= 2
    requires TableAt(s.mem, root, n, level) == Some(table)
    requires !Valid(Entry(s.mem, table, Idx(n, level))) && s.frees != []
    ensures CanAttach(Taken(s), table, Idx(n, level), s.frees[0]) && s.frees[0] < WORD_LIMIT
    ensures Shape(Taken(s)) && Inv(Attached(Taken(s), table, Idx(n, level), s.frees[0]))
    ensures Grew(s, Attached(Taken(s), table, Idx(n, level), s.frees[0]), root)
  {
    var c, i := s.frees[0], Idx(n, level);
    TakenCanAttach(s, root, n, level, table);
    TakeKeepsInv(s);
    AttachKeepsInv(Taken(s), table, i, c);
    KeepsMapsTrans(s, Taken(s), Attached(Taken(s), table, i, c));
    GrowKeepsData(s, table, i);
    GrowKeepsKinds(s, table, i, root);
  }

  /** The same step inside a walk that started in state `a`. */
  lemma WalkGrows(a: State, s: State, root: nat, n: nat, level: nat, table: nat)
    requires Inv(s) && Reach(s, root, n) && 1 <= level <= 2 && Grew(a, s, root)
    requires TableAt(s.mem, root, n, level) == Some(table)
    requires !Valid(Entry(s.mem, table, Idx(n, level))) && s.frees != []
    ensures CanAttach(Taken(s), table, Idx(n, level), s.frees[0]) && s.frees[0] < WORD_LIMIT && Shape(Taken(s))
    ensures var b := Attached(Taken(s), table, Idx(n, level), s.frees[0]);
            && Inv(b) && Grew(a, b, root) && Reach(b, root, n)
            && TableAt(b.mem, root, n, level - 1) == Some(s.frees[0])
            && |b.frees| + Missing(s.mem, root, n) == |s.frees| + Missing(b.mem, root, n)
  {
    hide Inv, Wf, Grew, KeepsMaps, KeepsData, Trans, PteSlot, TableAt, Next, Missing, Idx, Pte2Pa;
    GrowStep(s, root, n, level, table);
    TakenCanAttach(s, root, n, level, table);
    AttachWalk(Taken(s), root, n, level, table, s.frees[0]);
    GrewTrans(a, s, Attached(Taken(s), table, Idx(n, level), s.frees[0]), root);
  }

  // ----- mapping ranges --------------------------------------------------------------------

  /** The page of the `k`-th physical address of a range that starts at `pa`. */
  function PaAt(pa: Word, k: nat): nat {
    RoundDown((pa + k * PAGE_SIZE) % WORD_LIMIT)
  }

  /**
   * Refinement of the flat map: from `a` to `b` the table of `root` gained exactly the pages
   * lo .. lo+k-1, unmapped before, at consecutive physical pages with `perm` and V; every other
   * page and every other table keeps its translation.
   */
  ghost predicate Mapped(a: State, b: State, root: nat, lo: nat, k: nat, pa: Word, perm: nat) {
    && (forall r: nat, n: nat :: Reach(a, r, n) ==>
          && Reach(b, r, n)
          && Trans(b.mem, r, n) ==
             if r == root && lo <= n < lo + k then Some(Mapping(PaAt(pa, n - lo), SetBit0(perm)))
             else Trans(a.mem, r, n))
    && (forall n: nat :: lo <= n < lo + k ==> Reach(a, root, n) && Trans(a.mem, root, n) == None)
  }

  /** Mapping one page at an aligned address. */
  lemma MappedOne(a: State, b: State, root: nat, lo: nat, pa: Word, perm: nat)
    requires Mapped(a, b, root, lo, 1, pa, perm) && pa % PAGE_SIZE == 0
    ensures forall r: nat, n: nat :: Reach(a, r, n) ==>
              && Reach(b, r, n)
              && Trans(b.mem, r, n) == if r == root && n == lo then Some(Mapping(pa, SetBit0(perm))) else Trans(a.mem, r, n)
  {
    hide Reach, Trans, SetBit0;
    assert PaAt(pa, 0) == pa;
  }

  lemma MappedStep(a: State, s: State, w: State, b: State, root: nat, lo: nat, k: nat, pa: Word, perm: nat, pte: Word)
    requires perm < 1024 && pte == MkPte((pa + k * PAGE_SIZE) % WORD_LIMIT, SetBit0(perm))
    requires Mapped(a, s, root, lo, k, pa, perm) && Reach(a, root, lo + k)
    requires KeepsMaps(s, w) && Remapped(w, b, root, lo + k, pte)
    requires Trans(w.mem, root, lo + k) == None
    ensures Mapped(a, b, root, lo, k + 1, pa, perm)
  {
    hide Reach, Trans;
    PteRoundTrip((pa + k * PAGE_SIZE) % WORD_LIMIT, SetBit0(perm));
  }

  /** One page of mappages: `w` is the state after walk, and the slot walk found is written. */
  lemma MapStep(a: State, s: State, w: State, root: nat, lo: nat, k: nat, pa: Word, perm: nat, pte: Word)
    requires perm < 1024 && pte == MkPte((pa + k * PAGE_SIZE) % WORD_LIMIT, SetBit0(perm))
    requires Mapped(a, s, root, lo, k, pa, perm) && Extended(a, s, root) && Reach(a, root, lo + k)
    requires Inv(w) && Grew(s, w, root)
    requires PteSlot(w.mem, root, lo + k).Some? && Trans(w.mem, root, lo + k) == None
    ensures var sl := PteSlot(w.mem, root, lo + k).value;
            && sl.page in w.mem && sl.idx < |w.mem[sl.page]|
            && Inv(LeafSet(w, sl, pte)) && Extended(a, LeafSet(w, sl, pte), root)
            && Mapped(a, LeafSet(w, sl, pte), root, lo, k + 1, pa, perm)
            && PteSlot(LeafSet(w, sl, pte).mem, root, lo + k) == Some(sl)
  {
    hide Inv, Reach, Trans, PteSlot, Decode;
    assert Reach(s, root, lo + k) && Reach(w, root, lo + k);
    SetLeafRemaps(w, root, lo + k, pte);
    var b := LeafSet(w, PteSlot(w.mem, root, lo + k).value, pte);
    MappedStep(a, s, w, b, root, lo, k, pa, perm, pte);
    ExtendedTrans(a, s, w, root);
    assert Extended(w, b, root);
    ExtendedTrans(a, w, b, root);
  }

  /** An upper bound on the tables needed to map pages lo .. hi: one per 2 MiB and 1 GiB region. */
  function Spread(lo: nat, hi: nat): nat
    requires lo <= hi
  {
    (hi / 512 - lo / 512 + 1) + (hi / 0x4_0000 - lo / 0x4_0000 + 1)
  }

  lemma SpreadMonotone(lo: nat, n: nat, hi: nat)
    requires lo <= n <= hi
    ensures Spread(lo, n) <= Spread(lo, hi)
  {
  }

  /** Once page n-1 has its tables, page n needs new ones only where a region begins. */
  lemma MissingNext(m: Memory, root: nat, lo: nat, n: nat)
    requires lo < n && PteSlot(m, root, n - 1).Some?
    ensures Missing(m, root, n) + Spread(lo, n - 1) <= Spread(lo, n)
  {
    assert n / 0x4_0000 == n / 512 / 512 && (n - 1) / 0x4_0000 == (n - 1) / 512 / 512;
  }

  /** No page of lo .. hi is translated through a cut root slot. */
  ghost predicate Open(s: State, root: nat, lo: nat, hi: nat) {
    IsRoot(s, root) && forall n: nat :: lo <= n <= hi && n < NPAGES ==> Reach(s, root, n)
  }

  lemma MappedNothing(s: State, root: nat, lo: nat, pa: Word, perm: nat)
    requires IsRoot(s, root)
    ensures Extended(s, s, root) && Mapped(s, s, root, lo, 0, pa, perm)
  {
  }

  lemma NextPa(pa: Word, k: nat)
    ensures ((pa + k * PAGE_SIZE) % WORD_LIMIT + PAGE_SIZE) % WORD_LIMIT == (pa + (k + 1) * PAGE_SIZE) % WORD_LIMIT
  {
  }

  lemma StepOpen(a: State, s: State, root: nat, lo: nat, hi: nat, k: nat, pa: Word, perm: nat)
    requires Open(a, root, lo, hi) && Extended(a, s, root) && Mapped(a, s, root, lo, k, pa, perm) && lo + k <= hi
    ensures IsRoot(s, root)
    ensures lo + k < NPAGES ==> Reach(a, root, lo + k) && Reach(s, root, lo + k)
    ensures lo + k < NPAGES ==> Trans(s.mem, root, lo + k) == Trans(a.mem, root, lo + k)
  {
  }

  /** Growing tables after mapping `k` pages leaves what was mapped as it is. */
  lemma MappedGrew(a: State, s: State, w: State, root: nat, lo: nat, k: nat, pa: Word, perm: nat)
    requires Extended(a, s, root) && Mapped(a, s, root, lo, k, pa, perm) && Grew(s, w, root)
    ensures Extended(a, w, root) && Mapped(a, w, root, lo, k, pa, perm)
  {
    ExtendedTrans(a, s, w, root);
  }

  /** How many tables have been used once page lo + k has been walked. */
  lemma SpreadStep(a: State, s: State, w: State, root: nat, lo: nat, k: nat, hi: nat)
    requires lo + k <= hi
    requires k == 0 ==> s == a
    requires k > 0 ==> PteSlot(s.mem, root, lo + k - 1).Some? && |a.frees| <= |s.frees| + Spread(lo, lo + k - 1)
    requires |w.frees| + Missing(s.mem, root, lo + k) == |s.frees| + Missing(w.mem, root, lo + k)
    ensures PteSlot(w.mem, root, lo + k).Some? ==> |a.frees| <= |w.frees| + Spread(lo, lo + k)
    ensures PteSlot(w.mem, root, lo + k).None? && w.frees == [] ==> |a.frees| < Spread(lo, hi)
    ensures Spread(lo, lo + k) <= Spread(lo, hi)
  {
    if k > 0 { MissingNext(s.mem, root, lo, lo + k); }
    assert Missing(w.mem, root, lo + k) == 0 <==> PteSlot(w.mem, root, lo + k).Some?;
    SpreadMonotone(lo, lo + k, hi);
    assert Missing(s.mem, root, lo + k) <= 2 && (k == 0 ==> Spread(lo, lo + k) == 2);
    hide Missing, PteSlot, Spread;
  }

  lemma ReachIsUncut(s: State, root: nat, va: Word)
    requires Reach(s, root, va / PAGE_SIZE)
    ensures Slot(root, VpnL(2, va)) !in s.cut
  {
    VpnOfPage(va, 2);
  }

  lemma TransOfSlot(m: Memory, root: nat, n: nat, sl: Slot)
    requires PteSlot(m, root, n) == Some(sl)
    ensures Trans(m, root, n) == Decode(Entry(m, sl.page, sl.idx))
    ensures Trans(m, root, n).None? <==> !Valid(Entry(m, sl.page, sl.idx))
  {
  }

  lemma NoSlot(m: Memory, root: nat, n: nat)
    requires PteSlot(m, root, n) == None
    ensures Trans(m, root, n) == None
  {
  }

  lemma GrewKeeps(s: State, w: State, root: nat, n: nat)
    requires Grew(s, w, root) && Reach(s, root, n)
    ensures Reach(w, root, n) && Trans(w.mem, root, n) == Trans(s.mem, root, n)
  {
  }
}
