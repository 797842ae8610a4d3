/** Single bits and bytes of machine words. */
module Bits {
  import opened Mmu

  /** Bit `k` of a word. */
  predicate Bit(w: nat, k: nat) { if k == 0 then w % 2 == 1 else Bit(w / 2, k - 1) }

  /** w | (1 << k), or w & ~(1 << k). */
  function PutBit(w: nat, k: nat, b: bool): nat {
    if k == 0 then w / 2 * 2 + (if b then 1 else 0) else PutBit(w / 2, k - 1, b) * 2 + w % 2
  }

  /** Storing one bit changes that bit only. */
  lemma {:induction false} PutBitRead(w: nat, k: nat, b: bool, j: nat)
    ensures Bit(PutBit(w, k, b), j) <==> if j == k then b else Bit(w, j)
  {
    if k > 0 {
      assert PutBit(w, k, b) / 2 == PutBit(w / 2, k - 1, b) && PutBit(w, k, b) % 2 == w % 2;
      if j > 0 { PutBitRead(w / 2, k - 1, b, j - 1); }
    } else {
      assert PutBit(w, 0, b) / 2 == w / 2;
    }
  }

  lemma {:induction false} ZeroBit(k: nat)
    ensures !Bit(0, k)
  {
    if k > 0 { ZeroBit(k - 1); }
  }

  /** A word is determined by its bits. */
  lemma {:induction false} SameBits(v: nat, w: nat)
    requires forall k: nat :: Bit(v, k) == Bit(w, k)
    ensures v == w
    decreases v + w
  {
    if v + w > 0 {
      assert Bit(v, 0) == Bit(w, 0);
      forall k: nat ensures Bit(v / 2, k) == Bit(w / 2, k) {
        assert Bit(v, k + 1) == Bit(w, k + 1);
      }
      SameBits(v / 2, w / 2);
    }
  }

  function Pow2(k: nat): nat { if k == 0 then 1 else 2 * Pow2(k - 1) }

  lemma Pow2Byte(k: nat)
    ensures Pow2(k + 8) == 256 * Pow2(k)
  {
    assert Pow2(k + 2) == 4 * Pow2(k);
    assert Pow2(k + 4) == 4 * Pow2(k + 2);
    assert Pow2(k + 6) == 4 * Pow2(k + 4);
  }

  lemma WordPow()
    ensures Pow2(64) == WORD_LIMIT
  {
    Pow2Byte(0);
    Pow2Byte(8);
    Pow2Byte(16);
    Pow2Byte(24);
    Pow2Byte(32);
    Pow2Byte(40);
    Pow2Byte(48);
    Pow2Byte(56);
  }

  lemma {:induction false} PutBitRange(w: nat, k: nat, b: bool, n: nat)
    requires k < n && w < Pow2(n)
    ensures PutBit(w, k, b) < Pow2(n)
  {
    var q := w / 2;
    assert w == q * 2 + w % 2 && q < Pow2(n - 1);
    if k > 0 { PutBitRange(q, k - 1, b, n - 1); }
  }

  /** A word stays a word. */
  lemma PutBitWord(w: Word, k: nat, b: bool)
    requires k < 64
    ensures PutBit(w, k, b) < WORD_LIMIT
  {
    WordPow();
    PutBitRange(w, k, b, 64);
  }

  // ----- the flag bits of an entry -----------------------------------------------------------

  const V_BIT: nat := 0
  const R_BIT: nat := 1
  const W_BIT: nat := 2
  const X_BIT: nat := 3
  const U_BIT: nat := 4

  /** The bits set in a 10-bit flag field. */
  function BitsOf(f: nat): set<nat> { set k: nat | 0 <= k < 10 && Bit(f, k) }

  lemma {:induction false} BitBelow(w: nat, n: nat, k: nat)
    requires w < Pow2(n) && Bit(w, k)
    ensures k < n
  {
    if n == 0 {
      ZeroBit(k);
    } else if k > 0 {
      BitBelow(w / 2, n - 1, k - 1);
    }
  }

  lemma BitsOfIs(f: nat)
    requires f < 1024
    ensures BitsAre(f, BitsOf(f))
  {
    Pow2Byte(2);
    forall k: nat ensures Bit(f, k) <==> k in BitsOf(f) {
      if Bit(f, k) { BitBelow(f, 10, k); }
    }
  }

  /** Exactly these bits are set. */
  ghost predicate BitsAre(f: nat, bits: set<nat>) { forall k: nat :: Bit(f, k) <==> k in bits }

  /** What the flag tests of the source look at. */
  lemma FlagTests(f: nat)
    ensures f % 2 == 1 <==> Bit(f, V_BIT)
    ensures HasR(f) <==> Bit(f, R_BIT)
    ensures HasW(f) <==> Bit(f, W_BIT)
    ensures HasX(f) <==> Bit(f, X_BIT)
    ensures HasU(f) <==> Bit(f, U_BIT)
    ensures AnyRwx(f) <==> Bit(f, R_BIT) || Bit(f, W_BIT) || Bit(f, X_BIT)
  {
    assert f / 16 == f / 8 / 2 == f / 4 / 2 / 2 == f / 2 / 2 / 2 / 2;
  }

  /** Or-ing in a bit that is clear is adding it. */
  lemma {:induction false} AddBit(w: nat, b: nat, k: nat)
    requires !Bit(w, b)
    ensures Bit(w + Pow2(b), k) <==> k == b || Bit(w, k)
  {
    if b > 0 {
      assert (w + Pow2(b)) / 2 == w / 2 + Pow2(b - 1);
      if k > 0 { AddBit(w / 2, b - 1, k - 1); }
    } else {
      assert (w + 1) / 2 == w / 2;
    }
  }

  /** The permissions of uvmalloc: PTE_R, PTE_U and PTE_V are added to the caller's bits, and no bit is lost. */
  lemma OrRUBit(perm: nat, k: nat)
    requires perm < 1024
    ensures Bit(SetBit0(OrRU(perm)), k) <==> k == V_BIT || k == R_BIT || k == U_BIT || Bit(perm, k)
  {
    var p, f := SetR(perm), OrRU(perm);
    FlagTests(perm);
    FlagTests(p);
    FlagTests(f);
    assert Pow2(1) == 2 && Pow2(4) == 16;
    if !HasR(perm) { AddBit(perm, R_BIT, k); }
    if !HasU(p) { AddBit(p, U_BIT, k); }
    if f % 2 == 0 { AddBit(f, V_BIT, k); }
  }

  lemma OrRUBits(perm: nat)
    requires perm < 1024
    ensures BitsAre(SetBit0(OrRU(perm)), {V_BIT, R_BIT, U_BIT} + BitsOf(perm))
  {
    BitsOfIs(perm);
    forall k: nat ensures Bit(SetBit0(OrRU(perm)), k) <==> k in {V_BIT, R_BIT, U_BIT} + BitsOf(perm) {
      OrRUBit(perm, k);
    }
  }

  /** A permission written as a sum of masks, and the bits meant by it. */
  function Mask(r: bool, w: bool, x: bool, u: bool): nat {
    PTE_V + (if r then PTE_R else 0) + (if w then PTE_W else 0) + (if x then PTE_X else 0) + (if u then PTE_U else 0)
  }

  function MaskSet(r: bool, w: bool, x: bool, u: bool): set<nat> {
    {V_BIT} + (if r then {R_BIT} else {}) + (if w then {W_BIT} else {}) + (if x then {X_BIT} else {}) + (if u then {U_BIT} else {})
  }

  lemma MaskBits(r: bool, w: bool, x: bool, u: bool)
    ensures BitsAre(Mask(r, w, x, u), MaskSet(r, w, x, u))
  {
    var f := Mask(r, w, x, u);
    assert f < Pow2(5);
    FlagTests(f);
    forall k: nat | Bit(f, k) ensures k < 5 { BitBelow(f, 5, k); }
  }

  // ----- bytes -----------------------------------------------------------------------------

  /** Byte `k` of a word, least significant first. */
  function ByteOf(w: nat, k: nat): Byte {
    if k == 0 then w % 256 else ByteOf(w / 256, k - 1)
  }

  function SetByte(w: nat, k: nat, b: Byte): nat {
    if k == 0 then w / 256 * 256 + b else SetByte(w / 256, k - 1, b) * 256 + w % 256
  }

  function Pow256(k: nat): nat { if k == 0 then 1 else 256 * Pow256(k - 1) }

  lemma {:induction false} SetByteRange(w: nat, k: nat, b: Byte, n: nat)
    requires k < n && w < Pow256(n)
    ensures SetByte(w, k, b) < Pow256(n)
  {
    var q, low := w / 256, w % 256;
    assert w == q * 256 + low && q < Pow256(n - 1);
    if k > 0 {
      SetByteRange(q, k - 1, b, n - 1);
      assert SetByte(w, k, b) == SetByte(q, k - 1, b) * 256 + low;
    } else {
      assert SetByte(w, k, b) == q * 256 + b;
    }
  }

  lemma {:induction false} SetByteRead(w: nat, k: nat, b: Byte, j: nat)
    ensures ByteOf(SetByte(w, k, b), j) == if j == k then b else ByteOf(w, j)
  {
    if k > 0 && j > 0 { SetByteRead(w / 256, k - 1, b, j - 1); }
    if k > 0 { assert SetByte(w, k, b) % 256 == w % 256 && SetByte(w, k, b) / 256 == SetByte(w / 256, k - 1, b); }
    else { assert SetByte(w, 0, b) / 256 == w / 256; }
  }

  lemma {:induction false} ZeroByte(k: nat)
    ensures ByteOf(0, k) == 0
  {
    if k > 0 { ZeroByte(k - 1); }
  }

  // ----- bits and bytes as digits -----------------------------------------------------------

  lemma Regroup(h: nat, b: nat, p: nat, l: nat, r: nat)
    ensures (h * p + l) * b + r == h * (b * p) + (l * b + r)
  {
  }

  /** Bytes are numbered from the least significant one: byte `k` is the last base-256 digit of what lies above `low`. */
  lemma {:induction false} ByteAt(w: nat, k: nat) returns (high: nat, low: nat)
    ensures w == high * Pow256(k) + low && low < Pow256(k) && ByteOf(w, k) == high % 256
  {
    if k == 0 { return w, 0; }
    high, low := ByteAt(w / 256, k - 1);
    Regroup(high, 256, Pow256(k - 1), low, w % 256);
    low := low * 256 + w % 256;
  }

  /** And so are bits. */
  lemma {:induction false} BitAt(w: nat, k: nat) returns (high: nat, low: nat)
    ensures w == high * Pow2(k) + low && low < Pow2(k) && (Bit(w, k) <==> high % 2 == 1)
  {
    if k == 0 { return w, 0; }
    high, low := BitAt(w / 2, k - 1);
    Regroup(high, 2, Pow2(k - 1), low, w % 2);
    low := low * 2 + w % 2;
  }
}
