/** Tearing a tree of tables down (freewalk in kern/vm.c). */
module Teardown {
  import opened Outcomes
  import opened Mmu
  import opened PageTable

  /** Some level-0 table of the tree of `p` still maps a page. */
  ghost predicate LeafIn(s: State, p: nat) {
    exists q: nat, i: nat :: LeafAt(s, p, q, i)
  }

  ghost predicate LeafAt(s: State, p: nat, q: nat, i: nat) {
    InTree(s, q, p) && s.kind[q].level == 0 && i < ENTRIES && Valid(Entry(s.mem, q, i))
  }

  /** Every mapped leaf has one of R, W, X, as Sv39 asks of a leaf. */
  ghost predicate LeavesHaveRwx(s: State, p: nat) {
    forall q: nat, i: nat :: LeafAt(s, p, q, i) ==> AnyRwx(PteFlags(Entry(s.mem, q, i)))
  }

  ghost predicate NoCutsIn(s: State, p: nat) {
    forall sl :: sl in s.cut ==> !InTree(s, sl.page, p)
  }

  /** Exactly the tables of the tree of `p` went to the front of the free list; nothing else moved. */
  ghost predicate Freed(a: State, b: State, p: nat) {
    && b.cut == a.cut && b.kind.Keys == a.kind.Keys
    && (forall q {:trigger b.kind[q]} :: q in a.kind ==> b.kind[q] == if InTree(a, q, p) then Free else a.kind[q])
    && (forall q :: q in a.mem && !InTree(a, q, p) ==> q in b.mem && b.mem[q] == a.mem[q])
    && |a.frees| <= |b.frees| && b.frees[|b.frees| - |a.frees|..] == a.frees
  }

  /** Half way through freewalk(p): the subtrees below the first `i` entries are gone. */
  ghost predicate FreeingTo(a: State, s: State, p: nat, i: nat) {
    && s.cut == a.cut && s.kind.Keys == a.kind.Keys
    && IsTable(a, p) && IsTable(s, p) && s.kind[p] == a.kind[p]
    && (forall q {:trigger s.kind[q]} :: q in a.kind && s.kind[q] != a.kind[q] ==>
          s.kind[q].Free? && InTree(a, q, p) && q != p && (forall j :: !LeafAt(a, p, q, j)))
    && (forall q :: q in a.mem && q in a.kind && q in s.kind && s.kind[q] == a.kind[q] && q != p ==>
          q in s.mem && s.mem[q] == a.mem[q])
    && (forall j: nat :: i <= j || a.kind[p].level == 0 ==> Entry(s.mem, p, j) == Entry(a.mem, p, j))
    && (forall j: nat :: j < i && j < ENTRIES ==> !Valid(Entry(s.mem, p, j)))
    && |a.frees| <= |s.frees| && s.frees[|s.frees| - |a.frees|..] == a.frees
  }

  /** Before freewalk recurses, the link at (p, i) is cut and the child stands on its own. */
  ghost function Detached(s: State, p: nat, i: nat, c: nat): State
    requires IsTable(s, c)
  {
    s.(kind := s.kind[c := Table(s.kind[c].level, None)], cut := s.cut + {Slot(p, i)})
  }

  lemma DetachKeepsWf(s: State, p: nat, i: nat, c: nat)
    requires Wf(s) && Hangs(s, c, Slot(p, i)) && s.kind[c].level <= 1
    ensures Wf(Detached(s, p, i, c))
  {
    hide Linked, Owned;
    DetachKeepsLinked(s, p, i, c);
    DetachKeepsOwned(s, p, i, c);
    FreeListFrame(s, Detached(s, p, i, c));
  }

  lemma DetachKeepsLinked(s: State, p: nat, i: nat, c: nat)
    requires Wf(s) && Hangs(s, c, Slot(p, i)) && s.kind[c].level <= 1
    ensures Linked(Detached(s, p, i, c))
  {
    hide FreeList;
    var b := Detached(s, p, i, c);
    assert LinkedFrom(s, c, Slot(p, i));
    PteRoundTrip(c, PTE_V);
    forall q: nat, j: nat | IsTable(b, q) && b.kind[q].level > 0 && j < ENTRIES
      && Slot(q, j) !in b.cut && Valid(Entry(b.mem, q, j))
      ensures var d := Pte2Pa(Entry(b.mem, q, j));
              d in b.kind && b.kind[d] == Table(b.kind[q].level - 1, Some(Slot(q, j)))
    {
      assert IsTable(s, q) && Slot(q, j) !in s.cut;
    }
  }

  lemma DetachKeepsOwned(s: State, p: nat, i: nat, c: nat)
    requires Wf(s) && Hangs(s, c, Slot(p, i)) && s.kind[c].level <= 1
    ensures Owned(Detached(s, p, i, c))
  {
    hide FreeList, Linked;
    var b := Detached(s, p, i, c);
    forall q, up | Hangs(b, q, up) ensures LinkedFrom(b, q, up) {
      assert Hangs(s, q, up) && LinkedFrom(s, q, up);
    }
  }

  /** A table at level 1 or 0 has at most its direct children below it. */
  lemma ShallowTree(s: State, q: nat, c: nat)
    requires Owned(s) && IsTable(s, c) && s.kind[c].level <= 1 && InTree(s, q, c)
    ensures q == c || (Under(s, q, c) && s.kind[q].level == 0)
  {
    if q != c {
      var up := s.kind[q].up.value;
      assert Hangs(s, q, up) && LinkedFrom(s, q, up);
      if up.page != c {
        assert Hangs(s, up.page, s.kind[up.page].up.value);
      }
    }
  }

  /** The tree below the detached child lies in the tree of `p`, untouched so far. */
  lemma DetachedTree(a: State, s: State, p: nat, i: nat, c: nat, q: nat)
    requires Shape(a) && Owned(s) && FreeingTo(a, s, p, i) && i < ENTRIES && p in a.mem
    requires Hangs(s, c, Slot(p, i)) && s.kind[c].level <= 1 && Wf(Detached(s, p, i, c))
    requires InTree(Detached(s, p, i, c), q, c)
    ensures InTree(a, q, p) && q != p && s.kind[q] == a.kind[q] && q in a.mem && q in s.mem && s.mem[q] == a.mem[q]
    ensures q != c ==> Under(s, q, c) && s.kind[q].level == 0
  {
    var d := Detached(s, p, i, c);
    ShallowTree(d, q, c);
    assert LinkedFrom(s, c, Slot(p, i));
    assert s.kind[c] == a.kind[c];
    assert q != c ==> d.kind[q] == s.kind[q] == a.kind[q];
  }

  /** A leaf below the detached child is a leaf of the whole tree. */
  lemma DetachedLeaf(a: State, s: State, p: nat, i: nat, c: nat, q: nat, j: nat)
    requires Shape(a) && Owned(s) && FreeingTo(a, s, p, i) && i < ENTRIES && p in a.mem
    requires Hangs(s, c, Slot(p, i)) && s.kind[c].level <= 1 && Wf(Detached(s, p, i, c))
    requires LeafAt(Detached(s, p, i, c), c, q, j)
    ensures LeafAt(a, p, q, j) && Entry(Detached(s, p, i, c).mem, q, j) == Entry(a.mem, q, j)
  {
    DetachedTree(a, s, p, i, c, q);
    hide FreeingTo, Wf, Owned, Shape;
    assert q != c ==> Detached(s, p, i, c).kind[q] == s.kind[q];
  }

  /** Nothing below the detached child is cut. */
  lemma DetachedUncut(a: State, s: State, p: nat, i: nat, c: nat)
    requires Shape(a) && Owned(s) && FreeingTo(a, s, p, i) && i < ENTRIES && p in a.mem && NoCutsIn(a, p)
    requires Hangs(s, c, Slot(p, i)) && s.kind[c].level <= 1 && Wf(Detached(s, p, i, c))
    ensures NoCutsIn(Detached(s, p, i, c), c) && !InTree(Detached(s, p, i, c), p, c)
  {
    var d := Detached(s, p, i, c);
    assert s.cut == a.cut;
    hide FreeingTo, Wf, Owned, Shape, InTree;
    forall q | InTree(d, q, c) ensures InTree(a, q, p) && q != p {
      DetachedTree(a, s, p, i, c, q);
    }
  }

  lemma HangsBelow(s: State, c: nat, up: Slot)
    requires Wf(s) && Hangs(s, c, up)
    ensures IsTable(s, up.page) && s.kind[c].level == s.kind[up.page].level - 1 && s.kind[c].level <= 1
  {
    assert LinkedFrom(s, c, up);
  }

  /** The recursive call may be made: its own tree holds no cut and only proper leaves. */
  lemma DetachReady(a: State, s: State, p: nat, i: nat, c: nat)
    requires Wf(a) && Wf(s) && FreeingTo(a, s, p, i) && i < ENTRIES
    requires Hangs(s, c, Slot(p, i)) && a.kind[p].up.None?
    requires NoCutsIn(a, p) && LeavesHaveRwx(a, p)
    ensures s.kind[c].level == a.kind[p].level - 1
    ensures var d := Detached(s, p, i, c);
            && Wf(d) && IsTable(d, c) && d.kind[c].up.None?
            && NoCutsIn(d, c) && LeavesHaveRwx(d, c) && !InTree(d, p, c)
            && (LeafIn(d, c) ==> LeafIn(a, p))
  {
    HangsBelow(s, c, Slot(p, i));
    DetachKeepsWf(s, p, i, c);
    assert Shape(a) && Owned(s) && p in a.mem && s.kind[p] == a.kind[p];
    hide Wf, Shape, Owned, Linked, FreeList, FreeingTo, LeafAt, InTree, NoCutsIn, AnyRwx;
    DetachedUncut(a, s, p, i, c);
    var d := Detached(s, p, i, c);
    forall q: nat, j: nat | LeafAt(d, c, q, j)
      ensures LeafAt(a, p, q, j) && Entry(d.mem, q, j) == Entry(a.mem, q, j)
    {
      DetachedLeaf(a, s, p, i, c, q, j);
    }
  }

  /** After the recursive call the entry is cleared and the cut is closed. */
  ghost function Cleared(b: State, p: nat, i: nat): State
    requires p in b.mem && i < |b.mem[p]|
  {
    b.(mem := SetEntry(b.mem, p, i, 0), cut := b.cut - {Slot(p, i)})
  }

  lemma ClearKeepsWf(b: State, p: nat, i: nat)
    requires Wf(b) && IsTable(b, p) && i < ENTRIES && b.kind[p].level > 0 && Slot(p, i) in b.cut
    ensures Wf(Cleared(b, p, i))
  {
    var e := Cleared(b, p, i);
    FreeListFrame(b, e);
    assert Shape(e);
    assert Linked(e) by {
      forall q: nat, j: nat | IsTable(e, q) && e.kind[q].level > 0 && j < ENTRIES
        && Slot(q, j) !in e.cut && Valid(Entry(e.mem, q, j))
        ensures var d := Pte2Pa(Entry(e.mem, q, j));
                d in e.kind && e.kind[d] == Table(e.kind[q].level - 1, Some(Slot(q, j)))
      {
        assert IsTable(b, q) && Slot(q, j) !in b.cut;
      }
    }
    assert Owned(e) by {
      forall q, up | Hangs(e, q, up) ensures LinkedFrom(e, q, up) {
        assert Hangs(b, q, up) && LinkedFrom(b, q, up);
      }
    }
  }

  /** What one iteration needs to know: the child of (p, i) is a detached subtree that got freed. */
  ghost predicate ChildFreed(a: State, s: State, b: State, p: nat, i: nat, c: nat) {
    && Shape(a) && Owned(s) && FreeingTo(a, s, p, i) && i < ENTRIES && p in a.mem
    && Hangs(s, c, Slot(p, i)) && c != p && s.kind[c].level <= 1
    && Wf(Detached(s, p, i, c)) && Freed(Detached(s, p, i, c), b, c)
    && !LeafIn(Detached(s, p, i, c), c) && !InTree(Detached(s, p, i, c), p, c)
  }

  lemma FreeingKinds(a: State, s: State, b: State, p: nat, i: nat, c: nat, q: nat)
    requires ChildFreed(a, s, b, p, i, c) && q in a.kind && q in b.kind && b.kind[q] != a.kind[q]
    ensures b.kind[q].Free? && InTree(a, q, p) && q != p && (forall j :: !LeafAt(a, p, q, j))
  {
    hide Wf, Shape, Owned, FreeList, Linked;
    var d := Detached(s, p, i, c);
    if InTree(d, q, c) {
      DetachedTree(a, s, p, i, c, q);
      assert forall j :: LeafAt(a, p, q, j) ==> LeafAt(d, c, q, j);
    } else {
      assert q != c && d.kind[q] == s.kind[q];
    }
  }

  lemma FreeingMem(a: State, s: State, b: State, p: nat, i: nat, c: nat, q: nat)
    requires ChildFreed(a, s, b, p, i, c)
    requires q in a.mem && q in a.kind && q in b.kind && b.kind[q] == a.kind[q] && q != p
    ensures q in b.mem && b.mem[q] == a.mem[q]
  {
    hide Wf, Shape, Owned, FreeList, Linked;
    var d := Detached(s, p, i, c);
    if InTree(d, q, c) {
      DetachedTree(a, s, p, i, c, q);
    } else {
      assert q != c && d.kind[q] == s.kind[q];
    }
  }

  lemma SuffixTrans(x: seq<nat>, y: seq<nat>, z: seq<nat>)
    requires |x| <= |y| <= |z| && z[|z| - |y|..] == y && y[|y| - |x|..] == x
    ensures z[|z| - |x|..] == x
  {
  }

  lemma FreeingEntries(a: State, s: State, b: State, p: nat, i: nat, c: nat)
    requires ChildFreed(a, s, b, p, i, c) && Wf(b) && a.kind[p].level > 0 && Slot(p, i) !in a.cut
    ensures p in b.mem && i < |b.mem[p]| && Wf(Cleared(b, p, i))
    ensures Cleared(b, p, i).cut == a.cut && IsTable(b, p) && b.kind[p] == a.kind[p]
    ensures forall j: nat :: i + 1 <= j ==> Entry(Cleared(b, p, i).mem, p, j) == Entry(a.mem, p, j)
    ensures forall j: nat :: j < i + 1 && j < ENTRIES ==> !Valid(Entry(Cleared(b, p, i).mem, p, j))
  {
    hide Linked, Owned, FreeList, LeafIn, LeafAt;
    assert p in s.mem && p in b.mem && b.mem[p] == s.mem[p] && b.kind[p] == s.kind[p];
    assert forall j :: Entry(b.mem, p, j) == Entry(s.mem, p, j);
    ClearKeepsWf(b, p, i);
  }

  lemma SuffixCons(p: nat, x: seq<nat>)
    ensures |[p] + x| == |x| + 1 && ([p] + x)[|[p] + x| - |x|..] == x
  {
  }

  lemma FreeingStep(a: State, s: State, b: State, p: nat, i: nat, c: nat)
    requires ChildFreed(a, s, b, p, i, c) && Wf(b) && a.kind[p].level > 0 && Slot(p, i) !in a.cut
    ensures p in b.mem && i < |b.mem[p]| && Wf(Cleared(b, p, i))
    ensures FreeingTo(a, Cleared(b, p, i), p, i + 1)
  {
    hide Wf, Shape, Owned, FreeList, Linked, Entry, LeafAt, InTree;
    FreeingEntries(a, s, b, p, i, c);
    var e := Cleared(b, p, i);
    SuffixTrans(a.frees, s.frees, b.frees);
    forall q | q in a.kind && e.kind[q] != a.kind[q]
      ensures e.kind[q].Free? && InTree(a, q, p) && q != p && (forall j :: !LeafAt(a, p, q, j))
    {
      FreeingKinds(a, s, b, p, i, c, q);
    }
    forall q | q in a.mem && q in a.kind && q in e.kind && e.kind[q] == a.kind[q] && q != p
      ensures q in e.mem && e.mem[q] == a.mem[q]
    {
      FreeingMem(a, s, b, p, i, c, q);
    }
  }

  /** The iteration as freewalk sees it: recursion done, then the entry is cleared. */
  lemma FreeingAdvance(a: State, s: State, b: State, p: nat, i: nat, c: nat)
    requires Wf(a) && Wf(s) && FreeingTo(a, s, p, i) && i < ENTRIES
    requires a.kind[p].up.None? && NoCutsIn(a, p) && LeavesHaveRwx(a, p)
    requires Hangs(s, c, Slot(p, i)) && a.kind[p].level > 0 && c != p && Slot(p, i) !in a.cut
    requires Wf(b) && Freed(Detached(s, p, i, c), b, c) && !LeafIn(Detached(s, p, i, c), c)
    ensures IsTable(b, p) && p in b.mem && i < |b.mem[p]| && Wf(Cleared(b, p, i))
    ensures FreeingTo(a, Cleared(b, p, i), p, i + 1)
  {
    DetachReady(a, s, p, i, c);
    hide LeafAt, LeavesHaveRwx, LeafIn, Freed, FreeingTo, Linked, FreeList;
    FreeingStep(a, s, b, p, i, c);
    FreeingEntries(a, s, b, p, i, c);
  }

  lemma FreeingSkip(a: State, s: State, p: nat, i: nat)
    requires FreeingTo(a, s, p, i) && !Valid(Entry(s.mem, p, i))
    ensures FreeingTo(a, s, p, i + 1)
  {
  }

  lemma FreedChild(a: State, s: State, p: nat, q: nat)
    requires Owned(s) && FreeingTo(a, s, p, ENTRIES) && Under(a, q, p) && q != p
    ensures s.kind[q].Free?
  {
    if s.kind[q] == a.kind[q] { assert Hangs(s, q, s.kind[q].up.value); }
  }

  lemma FreedBelow(a: State, s: State, p: nat, q: nat)
    requires Owned(s) && FreeingTo(a, s, p, ENTRIES) && InTree(a, q, p) && q != p && a.kind[p].up.None?
    ensures s.kind[q].Free?
  {
    var u := a.kind[q].up.value.page;
    if u == p {
      FreedChild(a, s, p, q);
    } else {
      FreedChild(a, s, p, u);
      if s.kind[q] == a.kind[q] { assert Hangs(s, q, s.kind[q].up.value); }
    }
  }

  lemma NoLeafLeft(a: State, s: State, p: nat)
    requires Owned(s) && FreeingTo(a, s, p, ENTRIES) && a.kind[p].up.None?
    ensures !LeafIn(a, p)
  {
    hide Owned;
    forall q, j | LeafAt(a, p, q, j) ensures false {
      if q != p { FreedBelow(a, s, p, q); }
    }
  }

  lemma TreeFreed(a: State, s: State, p: nat, q: nat)
    requires Owned(s) && FreeingTo(a, s, p, ENTRIES) && a.kind[p].up.None? && q in a.kind && q != p
    ensures s.kind[q] == if InTree(a, q, p) then Free else a.kind[q]
  {
    hide Owned, InTree, LeafAt;
    if InTree(a, q, p) { FreedBelow(a, s, p, q); }
  }

  /** When every entry of `p` has been dealt with, only `p` itself is left of its tree. */
  lemma FreedAll(a: State, s: State, b: State, p: nat)
    requires Owned(s) && FreeingTo(a, s, p, ENTRIES) && a.kind[p].up.None? && a.kind.Keys == a.mem.Keys
    requires b.kind == s.kind[p := Free] && b.frees == [p] + s.frees && b.cut == s.cut
    requires forall q :: q in s.mem && q != p ==> q in b.mem && b.mem[q] == s.mem[q]
    ensures Freed(a, b, p)
  {
    hide Owned, LeafAt, Entry;
    forall q | q in a.kind ensures b.kind[q] == if InTree(a, q, p) then Free else a.kind[q] {
      if q != p { TreeFreed(a, s, p, q); }
    }
    forall q | q in a.mem && !InTree(a, q, p) ensures q in b.mem && b.mem[q] == a.mem[q] {
      assert InTree(a, p, p) && s.kind[q] == a.kind[q];
    }
    SuffixCons(p, s.frees);
    SuffixTrans(a.frees, s.frees, b.frees);
  }

  lemma FreeingDone(a: State, s: State, p: nat)
    requires Wf(a) && Wf(s) && FreeingTo(a, s, p, ENTRIES) && a.kind[p].up.None?
    ensures Unlinked(s, p) && IsPage(p) && s.freelist < WORD_LIMIT
    ensures Freed(a, Given(s, p), p) && !LeafIn(a, p)
  {
    GiveWordRange(s);
    NoLeafLeft(a, s, p);
    FreedAll(a, s, Given(s, p), p);
    hide Linked, Owned, FreeList, LeafIn, LeafAt, InTree, Freed;
  }

  /** What freewalk finds at a valid entry: a child table above level 0, a mapped leaf at level 0. */
  lemma FoundEntry(a: State, s: State, p: nat, i: nat)
    requires Wf(s) && FreeingTo(a, s, p, i) && i < ENTRIES && Valid(Entry(s.mem, p, i))
    requires NoCutsIn(a, p) && LeavesHaveRwx(a, p)
    ensures !AnyRwx(PteFlags(Entry(s.mem, p, i))) ==>
              var c := Pte2Pa(Entry(s.mem, p, i));
              && Hangs(s, c, Slot(p, i)) && a.kind[p].level > 0 && s.kind[c].level == a.kind[p].level - 1
              && c != p && Slot(p, i) !in a.cut
    ensures AnyRwx(PteFlags(Entry(s.mem, p, i))) ==> LeafIn(a, p)
  {
    assert InTree(a, p, p);
    if a.kind[p].level == 0 {
      hide Wf, AnyRwx;
      assert Entry(s.mem, p, i) == Entry(a.mem, p, i);
      assert LeafAt(a, p, p, i);
    } else {
      FoundChild(s, p, i);
    }
  }

  lemma FoundChild(s: State, p: nat, i: nat)
    requires Wf(s) && IsTable(s, p) && s.kind[p].level > 0 && Slot(p, i) !in s.cut
    requires i < ENTRIES && Valid(Entry(s.mem, p, i))
    ensures !AnyRwx(PteFlags(Entry(s.mem, p, i)))
    ensures var c := Pte2Pa(Entry(s.mem, p, i));
            Hangs(s, c, Slot(p, i)) && s.kind[c].level == s.kind[p].level - 1 && c != p
  {
    assert Hangs(s, Pte2Pa(Entry(s.mem, p, i)), Slot(p, i));
  }

  lemma FreeingStart(a: State, p: nat)
    requires IsTable(a, p)
    ensures FreeingTo(a, a, p, 0)
  {
  }

  /** Freeing a root's whole tree, self-mapped ones aside, ends in a state that meets the invariant again. */
  lemma FreedKeepsInv(a: State, b: State, p: nat)
    requires Inv(a) && IsTable(a, p) && a.kind[p].up.None? && NoCutsIn(a, p) && Freed(a, b, p) && Wf(b)
    ensures Inv(b)
  {
    hide Wf, InTree;
    forall sl | sl in b.cut ensures IsRoot(b, sl.page) {
      assert IsRoot(a, sl.page) && !InTree(a, sl.page, p);
    }
    forall q | IsTable(b, q) && b.kind[q].up.None? ensures b.kind[q].level == 2 {
      assert b.kind[q] == a.kind[q];
    }
  }

  /** The tables on a walk from another root are outside the tree of `p`. */
  lemma WalkOutside(a: State, p: nat, r: nat, n: nat)
    requires Inv(a) && IsTable(a, p) && a.kind[p].up.None? && Reach(a, r, n) && r != p
    ensures !InTree(a, r, p)
    ensures TableAt(a.mem, r, n, 1).Some? ==> !InTree(a, TableAt(a.mem, r, n, 1).value, p)
    ensures TableAt(a.mem, r, n, 0).Some? ==> !InTree(a, TableAt(a.mem, r, n, 0).value, p)
  {
    WalkKinds(a, r, n);
    hide Wf, CutsAtRoots, NoStrays, TableAt;
  }

  /** A table outside the tree keeps its entries. */
  lemma FreedEntry(a: State, b: State, p: nat, q: nat, i: nat)
    requires Inv(a) && Freed(a, b, p) && IsTable(a, q) && !InTree(a, q, p)
    ensures Entry(b.mem, q, i) == Entry(a.mem, q, i)
  {
    hide Linked, Owned, FreeList, InTree;
  }

  /** A walk depends on the three entries it reads. */
  lemma SameWalk(m: Memory, m': Memory, r: nat, n: nat)
    requires Entry(m', r, Idx(n, 2)) == Entry(m, r, Idx(n, 2))
    requires TableAt(m, r, n, 1).Some? ==>
               var t := TableAt(m, r, n, 1).value; Entry(m', t, Idx(n, 1)) == Entry(m, t, Idx(n, 1))
    requires TableAt(m, r, n, 0).Some? ==>
               var t := TableAt(m, r, n, 0).value; Entry(m', t, Idx(n, 0)) == Entry(m, t, Idx(n, 0))
    ensures Trans(m', r, n) == Trans(m, r, n)
  {
    hide Entry, Idx, Pte2Pa, Valid, PteFlags;
  }

  /** Freeing one root's tree leaves every other root's translations alone. */
  lemma FreedKeepsMaps(a: State, b: State, p: nat, r: nat, n: nat)
    requires Inv(a) && IsTable(a, p) && a.kind[p].up.None? && Freed(a, b, p)
    requires Reach(a, r, n) && r != p
    ensures Reach(b, r, n) && Trans(b.mem, r, n) == Trans(a.mem, r, n)
  {
    hide Wf, CutsAtRoots, NoStrays, InTree, TableAt, Trans, Entry, Idx;
    WalkKinds(a, r, n);
    WalkOutside(a, p, r, n);
    var t1, t0 := TableAt(a.mem, r, n, 1), TableAt(a.mem, r, n, 0);
    FreedEntry(a, b, p, r, Idx(n, 2));
    if t1.Some? { FreedEntry(a, b, p, t1.value, Idx(n, 1)); }
    if t0.Some? { FreedEntry(a, b, p, t0.value, Idx(n, 0)); }
    SameWalk(a.mem, b.mem, r, n);
  }
}
