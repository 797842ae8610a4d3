/**
 * Sv39 address and page table entry arithmetic (include/mmu.h, include/types.h).
 *
 * Shifts and masks of the C macros are written as division, multiplication and remainder by the
 * corresponding powers of two; `|` of a page number field with a 10-bit flag field is addition.
 */
module Mmu {

  const WORD_LIMIT: nat := 0x1_0000_0000_0000_0000
  /** A 64-bit machine word (u_long). */
  type Word = w: nat | w < WORD_LIMIT

  type Byte = b: nat | b < 256

  const PAGE_SIZE: nat := 4096
  const ENTRIES: nat := 512
  const MAXVA: nat := 0x40_0000_0000
  /** Number of virtual pages below MAXVA. */
  const NPAGES: nat := 0x400_0000
  const KERNBASE_VA: nat := 0x8000_0000
  const KERNEND: nat := 0x8040_0000
  const PHYEND: nat := 0x8800_0000
  const UVPT: nat := MAXVA - PAGE_SIZE - 0x4000_0000

  const NENV: nat := 1024

  /** ENVS(i): the page of env structure `i`, counted down from UVPT. */
  function EnvsVa(i: nat): (va: Word)
    requires i < NENV
    ensures va / PAGE_SIZE == UVPT / PAGE_SIZE - 1 - i && va % PAGE_SIZE == 0 && va < MAXVA
  {
    UVPT - (i + 1) * PAGE_SIZE
  }

  const PTE_V: nat := 1
  const PTE_R: nat := 2
  const PTE_W: nat := 4
  const PTE_X: nat := 8
  const PTE_U: nat := 16

  function RoundDown(a: nat): (r: nat)
    ensures r <= a < r + PAGE_SIZE && r % PAGE_SIZE == 0
  {
    a / PAGE_SIZE * PAGE_SIZE
  }

  function RoundUp(a: nat): (r: nat)
    ensures a <= r < a + PAGE_SIZE && r % PAGE_SIZE == 0
  {
    (a + PAGE_SIZE - 1) / PAGE_SIZE * PAGE_SIZE
  }

  /** ROUND on a 64-bit address; the sum wraps. */
  function Round(a: Word): (r: Word)
    ensures r % PAGE_SIZE == 0
  {
    (a + PAGE_SIZE - 1) % WORD_LIMIT / PAGE_SIZE * PAGE_SIZE
  }

  /** Only within the last page of the address space does ROUND wrap, to zero. */
  lemma RoundIs(a: Word)
    ensures Round(a) == if a <= WORD_LIMIT - PAGE_SIZE then RoundUp(a) else 0
  {
    assert WORD_LIMIT % PAGE_SIZE == 0;
  }

  /** VPN_L(level, va): the 9-bit table index used at `level`. */
  function VpnL(level: nat, va: nat): (i: nat)
    requires level <= 2
    ensures i < ENTRIES
  {
    if level == 0 then va / 0x1000 % 512
    else if level == 1 then va / 0x20_0000 % 512
    else va / 0x4000_0000 % 512
  }

  /** The same index computed from the page number va / PAGE_SIZE. */
  function Idx(n: nat, level: nat): (i: nat)
    requires level <= 2
    ensures i < ENTRIES
  {
    if level == 0 then n % 512
    else if level == 1 then n / 512 % 512
    else n / 0x4_0000 % 512
  }

  lemma VpnOfPage(va: nat, level: nat)
    requires level <= 2
    ensures VpnL(level, va) == Idx(va / PAGE_SIZE, level)
  {
    assert va / 0x20_0000 == va / 0x1000 / 512;
    assert va / 0x4000_0000 == va / 0x1000 / 0x4_0000;
  }

  /** Below MAXVA the three indices determine the page number, and the top one is below 256. */
  lemma IdxInjective(n: nat, n': nat)
    requires n < NPAGES && n' < NPAGES
    ensures Idx(n, 2) < 256
    ensures Idx(n, 2) == Idx(n', 2) && Idx(n, 1) == Idx(n', 1) && Idx(n, 0) == Idx(n', 0) <==> n == n'
  {
    assert n / 0x4_0000 == n / 512 / 512 && n' / 0x4_0000 == n' / 512 / 512;
  }

  function SetBit0(f: nat): (r: nat)
    ensures r % 2 == 1 && r / 2 == f / 2
  {
    if f % 2 == 1 then f else f + 1
  }

  /** An address has at most 52 bits of page number, so the two top bits of an entry made from one are clear. */
  const ENTRY_LIMIT: nat := 0x4000_0000_0000_0000

  predicate Valid(pte: Word) { pte % 2 == 1 }

  function PteFlags(pte: Word): (f: nat)
    ensures f < 1024
  {
    pte % 1024
  }

  /** PA2PTE(pa) | flags, for a 10-bit flag field. */
  function MkPte(pa: Word, flags: nat): (pte: Word)
    requires flags < 1024
    ensures pte / 1024 == pa / PAGE_SIZE
    ensures PteFlags(pte) == flags
    ensures Valid(pte) <==> flags % 2 == 1
    ensures pte < ENTRY_LIMIT
  {
    pa / PAGE_SIZE * 1024 + flags
  }

  /** PTE2PA(pte); the left shift keeps the low 52 bits of the page number. */
  function Pte2Pa(pte: Word): (pa: Word)
    ensures pa % PAGE_SIZE == 0
  {
    pte / 1024 % 0x10_0000_0000_0000 * PAGE_SIZE
  }

  /** Encoding an address and reading it back gives its page. */
  lemma PteRoundTrip(pa: Word, flags: nat)
    requires flags < 1024
    ensures Pte2Pa(MkPte(pa, flags)) == RoundDown(pa)
  {
  }

  /** The bits R, W, X of a flag field. */
  predicate AnyRwx(flags: nat) { flags / 2 % 8 != 0 }
  predicate HasR(flags: nat) { flags / 2 % 2 == 1 }
  predicate HasW(flags: nat) { flags / 4 % 2 == 1 }
  predicate HasX(flags: nat) { flags / 8 % 2 == 1 }
  predicate HasU(flags: nat) { flags / 16 % 2 == 1 }

  /** The flag field with PTE_R set. */
  function SetR(f: nat): (r: nat)
    ensures HasR(r) && r % 2 == f % 2 && r / 4 == f / 4
  {
    if HasR(f) then f else f + PTE_R
  }

  /** The flag field with PTE_U set. */
  function SetU(f: nat): (r: nat)
    ensures HasU(r) && r % 16 == f % 16 && r / 32 == f / 32
  {
    if HasU(f) then f else f + PTE_U
  }

  /** PTE_R | PTE_U | perm */
  function OrRU(perm: nat): (f: nat)
    requires perm < 1024
    ensures f < 1024 && HasR(f) && HasU(f) && f % 2 == perm % 2
  {
    var p := SetR(perm);
    assert p < 1024;
    var f := SetU(p);
    assert f / 32 < 32 && f % 16 == p % 16;
    f
  }

  /** Together with V this is a proper leaf, never mistaken for a table link. */
  lemma OrRUIsLeaf(perm: nat)
    requires perm < 1024
    ensures SetBit0(OrRU(perm)) < 1024 && SetBit0(OrRU(perm)) != PTE_V && AnyRwx(SetBit0(OrRU(perm)))
  {
  }
}
