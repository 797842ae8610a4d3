/**
 * The translation that the hardware performs (section 4.3.2 of the RISC-V Privileged Architecture,
 * version 20211203, with the Sv39 parameters of section 4.4), and when it agrees with the
 * kernel's own walk.
 */
module Sv39 {
  import opened Bits
  import opened Outcomes
  import opened Mmu
  import opened PageTable

  /** Physical page numbers have 44 bits; the entry bits above them are reserved and must be zero. */
  const PPN_LIMIT: nat := 0x1000_0000_0000

  /** Steps 3 and 4: an entry that is invalid, reserved (W without R) or malformed faults. */
  predicate Faults(pte: Word) {
    !Valid(pte) || (!HasR(PteFlags(pte)) && HasW(PteFlags(pte))) || pte / 1024 >= PPN_LIMIT
  }

  predicate IsLeaf(pte: Word) { HasR(PteFlags(pte)) || HasX(PteFlags(pte)) }

  /** Pages below one entry of a table at `level`. */
  function Span(level: nat): nat
    requires level <= 2
  {
    if level == 0 then 1 else if level == 1 then 512 else 0x4_0000
  }

  /**
   * Steps 2 to 8 from table `a` at `level`: the page that page number `n` translates to and the
   * flags that apply, or None for a page fault. Access-type checks and the A and D bits are left
   * to the caller of the flags.
   */
  function HwTranslate(m: Memory, a: nat, n: nat, level: nat): Option<Mapping>
    requires level <= 2
    decreases level
  {
    var pte := Entry(m, a, Idx(n, level));
    var ppn := pte / 1024;
    if Faults(pte) then None
    else if IsLeaf(pte) then
      if ppn % Span(level) != 0 then None
      else Some(Mapping((ppn + n % Span(level)) * PAGE_SIZE, PteFlags(pte)))
    else if level == 0 then None
    else HwTranslate(m, ppn * PAGE_SIZE, n, level - 1)
  }

  /** What makes a flat-map entry usable by the hardware. */
  predicate Usable(e: Mapping) {
    && (HasR(e.flags) || (HasX(e.flags) && !HasW(e.flags)))
    && e.pa < PPN_LIMIT * PAGE_SIZE
  }

  /** A tree link is an entry that the hardware follows to the same table. */
  lemma LinkIsPointer(c: Word)
    requires IsPage(c)
    ensures var pte := MkPte(c, PTE_V);
            !Faults(pte) && !IsLeaf(pte) && pte / 1024 * PAGE_SIZE == c && Pte2Pa(pte) == c
  {
  }

  lemma HwFollowsLink(s: State, t: nat, n: nat, level: nat)
    requires Inv(s) && 1 <= level <= 2 && IsTable(s, t) && s.kind[t].level == level && Slot(t, Idx(n, level)) !in s.cut
    ensures HwTranslate(s.mem, t, n, level) ==
              match Next(s.mem, t, Idx(n, level))
              case None => None
              case Some(c) => HwTranslate(s.mem, c, n, level - 1)
  {
    var pte := Entry(s.mem, t, Idx(n, level));
    if Valid(pte) {
      var c := Pte2Pa(pte);
      assert Hangs(s, c, Slot(t, Idx(n, level)));
      LinkIsPointer(c);
    }
  }

  /** An entry of a leaf table, seen by the hardware and by the kernel. */
  lemma HwAtLeaf(m: Memory, t: nat, n: nat)
    requires Entry(m, t, Idx(n, 0)) < ENTRY_LIMIT
    ensures HwTranslate(m, t, n, 0) ==
              match Decode(Entry(m, t, Idx(n, 0)))
              case None => None
              case Some(e) => if Usable(e) then Some(e) else None
  {
    var pte := Entry(m, t, Idx(n, 0));
    assert n % 1 == 0 && pte / 1024 % 1 == 0;
    assert Pte2Pa(pte) == pte / 1024 * PAGE_SIZE;
  }

  /**
   * For every page that the kernel's tables translate, the hardware finds the same page with the
   * same flags exactly when the mapping is a proper Sv39 leaf, and faults otherwise.
   */
  lemma HardwareAgrees(s: State, r: nat, n: nat)
    requires Inv(s) && Reach(s, r, n)
    ensures HwTranslate(s.mem, r, n, 2) ==
              match Trans(s.mem, r, n)
              case None => None
              case Some(e) => if Usable(e) then Some(e) else None
  {
    WalkKinds(s, r, n);
    HwFollowsLink(s, r, n, 2);
    var t1 := TableAt(s.mem, r, n, 1);
    if t1.Some? {
      assert Slot(t1.value, Idx(n, 1)) !in s.cut;
      HwFollowsLink(s, t1.value, n, 1);
      var t0 := TableAt(s.mem, r, n, 0);
      if t0.Some? { HwAtLeaf(s.mem, t0.value, n); }
    }
  }

  /** The hardware finds page `n` at `pa`, and the flag bits of the leaf are exactly `bits`. */
  ghost predicate HwMaps(m: Memory, root: nat, n: nat, pa: nat, bits: set<nat>) {
    match HwTranslate(m, root, n, 2)
    case None => false
    case Some(e) => e.pa == pa && BitsAre(e.flags, bits)
  }

  /** So a page that the flat map holds with these bits is one the hardware can use, if R, or X without W, is among them. */
  lemma FlatIsHw(s: State, r: nat, n: nat, pa: nat, flags: nat, bits: set<nat>)
    requires Inv(s) && Reach(s, r, n) && Trans(s.mem, r, n) == Some(Mapping(pa, flags)) && pa < PPN_LIMIT * PAGE_SIZE
    requires BitsAre(flags, bits)
    requires R_BIT in bits || (X_BIT in bits && W_BIT !in bits)
    ensures HwMaps(s.mem, r, n, pa, bits)
  {
    hide Inv, Reach, Trans, HwTranslate, Bit;
    FlagTests(flags);
    HardwareAgrees(s, r, n);
  }
}
