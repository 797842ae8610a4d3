/** memcpy and memset (lib/string.c) over a flat byte memory. */
module ByteMoves {
  import opened Bits
  import opened Mmu


  /** The forward byte-by-byte loop that memcpy stands for. */
  function ForwardCopy(m: seq<Byte>, dst: nat, src: nat, n: nat): (r: seq<Byte>)
    requires dst + n <= |m| && src + n <= |m|
    ensures |r| == |m|
    decreases n
  {
    if n == 0 then m else ForwardCopy(m[dst := m[src]], dst + 1, src + 1, n - 1)
  }

  /** One 32-bit load followed by one 32-bit store. */
  function MoveWord(m: seq<Byte>, dst: nat, src: nat): (r: seq<Byte>)
    requires dst + 4 <= |m| && src + 4 <= |m|
    ensures |r| == |m|
  {
    m[dst := m[src]][dst + 1 := m[src + 1]][dst + 2 := m[src + 2]][dst + 3 := m[src + 3]]
  }

  /** Equally aligned pointers are equal or at least a word apart, so a word move is four byte moves. */
  lemma WordIsFourBytes(m: seq<Byte>, dst: nat, src: nat, n: nat, words: int)
    requires n >= 4 && dst + n <= |m| && src + n <= |m| && src == dst + 4 * words
    ensures ForwardCopy(m, dst, src, n) == ForwardCopy(MoveWord(m, dst, src), dst + 4, src + 4, n - 4)
  {
    var m1 := m[dst := m[src]];
    var m2 := m1[dst + 1 := m1[src + 1]];
    var m3 := m2[dst + 2 := m2[src + 2]];
    var m4 := m3[dst + 3 := m3[src + 3]];
    assert dst == src || dst >= src + 4 || src >= dst + 4;
    assert m4 == MoveWord(m, dst, src);
    assert ForwardCopy(m, dst, src, n) == ForwardCopy(m1, dst + 1, src + 1, n - 1);
    assert ForwardCopy(m1, dst + 1, src + 1, n - 1) == ForwardCopy(m2, dst + 2, src + 2, n - 2);
    assert ForwardCopy(m2, dst + 2, src + 2, n - 2) == ForwardCopy(m3, dst + 3, src + 3, n - 3);
    assert ForwardCopy(m3, dst + 3, src + 3, n - 3) == ForwardCopy(m4, dst + 4, src + 4, n - 4);
  }

  method CopyByte(a: array<Byte>, dst: nat, src: nat, ghost n: nat)
    requires n > 0 && dst + n <= a.Length && src + n <= a.Length
    modifies a
    ensures ForwardCopy(a[..], dst + 1, src + 1, n - 1) == ForwardCopy(old(a[..]), dst, src, n)
  {
    a[dst] := a[src];
    assert a[..] == old(a[..])[dst := old(a[..])[src]];
  }

  method CopyWord(a: array<Byte>, dst: nat, src: nat, ghost n: nat, ghost words: int)
    requires n >= 4 && dst + n <= a.Length && src + n <= a.Length && src == dst + 4 * words
    modifies a
    ensures ForwardCopy(a[..], dst + 4, src + 4, n - 4) == ForwardCopy(old(a[..]), dst, src, n)
  {
    WordIsFourBytes(a[..], dst, src, n, words);
    a[dst], a[dst + 1], a[dst + 2], a[dst + 3] := a[src], a[src + 1], a[src + 2], a[src + 3];
    assert a[..] == MoveWord(old(a[..]), dst, src);
  }

  lemma CopyNothing(m: seq<Byte>, dst: nat, src: nat)
    requires dst <= |m| && src <= |m|
    ensures ForwardCopy(m, dst, src, 0) == m
  {
  }

  /** memcpy, for every alignment and every overlap. */
  method Memcpy(a: array<Byte>, dst0: nat, src0: nat, n: nat)
    requires dst0 + n <= a.Length && src0 + n <= a.Length
    modifies a
    ensures a[..] == ForwardCopy(old(a[..]), dst0, src0, n)
  {
    hide ForwardCopy;
    var dst, src := dst0, src0;
    var max := dst + n;
    ghost var goal := ForwardCopy(a[..], dst0, src0, n);
    if src % 4 != dst % 4 {
      while dst < max
        invariant dst0 <= dst <= max && src - src0 == dst - dst0
        invariant ForwardCopy(a[..], dst, src, max - dst) == goal
      {
        CopyByte(a, dst, src, max - dst);
        dst, src := dst + 1, src + 1;
      }
      CopyNothing(a[..], dst, src);
      return;
    }
    ghost var words := (src - dst) / 4;
    while dst % 4 != 0 && dst < max
      decreases max - dst
      invariant dst0 <= dst <= max && src == dst + 4 * words
      invariant ForwardCopy(a[..], dst, src, max - dst) == goal
    {
      CopyByte(a, dst, src, max - dst);
      dst, src := dst + 1, src + 1;
    }
    while dst + 4 <= max
      invariant dst0 <= dst <= max && src == dst + 4 * words
      invariant ForwardCopy(a[..], dst, src, max - dst) == goal
    {
      CopyWord(a, dst, src, max - dst, words);
      dst, src := dst + 4, src + 4;
    }
    while dst < max
      invariant dst0 <= dst <= max && src == dst + 4 * words
      invariant ForwardCopy(a[..], dst, src, max - dst) == goal
    {
      CopyByte(a, dst, src, max - dst);
      dst, src := dst + 1, src + 1;
    }
    CopyNothing(a[..], dst, src);
  }

  // ----- what the byte loop leaves in memory -----------------------------------------------

  lemma {:induction false} CopyLast(m: seq<Byte>, dst: nat, src: nat, n: nat)
    requires n > 0 && dst + n <= |m| && src + n <= |m|
    ensures var r := ForwardCopy(m, dst, src, n - 1);
            ForwardCopy(m, dst, src, n) == r[dst + n - 1 := r[src + n - 1]]
    decreases n
  {
    if n > 1 { CopyLast(m[dst := m[src]], dst + 1, src + 1, n - 1); }
  }

  /** Byte i of the destination: its source byte, or, once the source has been overwritten, an earlier copy. */
  function Copied(m: seq<Byte>, dst: nat, src: nat, i: nat): Byte
    requires src + i < |m|
    decreases i
  {
    if src < dst <= src + i then Copied(m, dst, src, i - (dst - src)) else m[src + i]
  }

  /** memcpy changes exactly the n destination bytes, each to what Copied says. */
  lemma {:induction false} CopyResult(m: seq<Byte>, dst: nat, src: nat, n: nat)
    requires dst + n <= |m| && src + n <= |m|
    ensures forall j :: 0 <= j < |m| ==>
              ForwardCopy(m, dst, src, n)[j] == if dst <= j < dst + n then Copied(m, dst, src, j - dst) else m[j]
    decreases n
  {
    if n > 0 {
      CopyResult(m, dst, src, n - 1);
      CopyLast(m, dst, src, n);
    }
  }

  predicate RepeatsAt(w: seq<Byte>, p: nat, i: nat)
    requires p <= i < |w|
  {
    w[i] == w[i - p]
  }

  /** The bytes repeat themselves with period `p`. */
  ghost predicate Periodic(w: seq<Byte>, p: nat) {
    forall i :: p <= i < |w| ==> RepeatsAt(w, p, i)
  }

  lemma {:induction false} CopiedPeriodic(m: seq<Byte>, dst: nat, src: nat, n: nat, i: nat)
    requires src < dst && src + n <= |m| && Periodic(m[src..src + n], dst - src) && i < n
    ensures Copied(m, dst, src, i) == m[src + i]
    decreases i
  {
    if dst <= src + i {
      assert RepeatsAt(m[src..src + n], dst - src, i);
      CopiedPeriodic(m, dst, src, n, i - (dst - src));
    }
  }

  /**
   * When memcpy is memmove: the destination receives the old source bytes exactly if the forward
   * copy does not run into its own output, or that output repeats the source anyway.
   */
  lemma MovesExactly(m: seq<Byte>, dst: nat, src: nat, n: nat)
    requires dst + n <= |m| && src + n <= |m|
    ensures ForwardCopy(m, dst, src, n)[dst..dst + n] == m[src..src + n]
            <==> (dst <= src || src + n <= dst || Periodic(m[src..src + n], dst - src))
  {
    CopyResult(m, dst, src, n);
    var got, want := ForwardCopy(m, dst, src, n)[dst..dst + n], m[src..src + n];
    assert forall i :: 0 <= i < n ==> got[i] == Copied(m, dst, src, i);
    if src < dst < src + n {
      var p := dst - src;
      if Periodic(want, p) {
        forall i | 0 <= i < n ensures got[i] == want[i] {
          CopiedPeriodic(m, dst, src, n, i);
        }
      } else {
        var i :| p <= i < n && !RepeatsAt(want, p, i);
        assert got[i] == got[i - p];
      }
    } else {
      assert forall i :: 0 <= i < n ==> got[i] == want[i];
    }
  }

  /** byte | byte << 8 | byte << 16 | byte << 24 */
  function FourTimes(b: Byte): nat { b + b * 0x100 + b * 0x1_0000 + b * 0x100_0000 }

  /** A 32-bit store, least significant byte first. */
  method StoreWord(a: array<Byte>, dst: nat, w: nat)
    requires dst + 4 <= a.Length
    modifies a
    ensures forall j :: 0 <= j < a.Length ==>
              a[j] == if dst <= j < dst + 4 then ByteOf(w, j - dst) else old(a[j])
  {
    a[dst], a[dst + 1], a[dst + 2], a[dst + 3] := ByteOf(w, 0), ByteOf(w, 1), ByteOf(w, 2), ByteOf(w, 3);
  }

  /** The word memset stores is its byte four times over. */
  lemma FourBytes(b: Byte)
    ensures forall k :: 0 <= k < 4 ==> ByteOf(FourTimes(b), k) == b
  {
    var two := b + b * 0x100;
    var three := two + b * 0x1_0000;
    Quotient(FourTimes(b), 0x100, three, b);
    Quotient(three, 0x100, two, b);
    Quotient(two, 0x100, b, b);
    ByteStep(FourTimes(b), three, 3);
    ByteStep(three, two, 2);
    ByteStep(two, b, 1);
  }

  lemma ByteStep(w: nat, q: nat, k: nat)
    requires w / 0x100 == q
    ensures forall j :: 0 < j <= k ==> ByteOf(w, j) == ByteOf(q, j - 1)
  {
  }

  lemma Quotient(w: nat, d: nat, q: nat, r: nat)
    requires r < d && w == q * d + r
    ensures w / d == q && w % d == r
  {
    var e := w / d;
    assert w == e * d + w % d;
    assert e > q ==> e * d >= (q + 1) * d;
    assert e < q ==> e * d <= (q - 1) * d;
  }

  /** memset: exactly the n bytes from dst0 on become the low byte of `c`. */
  method Memset(a: array<Byte>, dst0: nat, c: int, n: nat)
    requires dst0 + n <= a.Length
    modifies a
    ensures forall j :: 0 <= j < a.Length ==> a[j] == if dst0 <= j < dst0 + n then c % 256 else old(a[j])
  {
    var dst := dst0;
    var max := dst + n;
    var byte: Byte := c % 256;
    var word := FourTimes(byte);
    FourBytes(byte);
    hide FourTimes, ByteOf;
    while dst % 4 != 0 && dst < max
      decreases max - dst
      invariant dst0 <= dst <= max
      invariant forall j :: 0 <= j < a.Length ==> a[j] == if dst0 <= j < dst then byte else old(a[j])
    {
      a[dst] := byte;
      dst := dst + 1;
    }
    while dst + 4 <= max
      invariant dst0 <= dst <= max
      invariant forall j :: 0 <= j < a.Length ==> a[j] == if dst0 <= j < dst then byte else old(a[j])
    {
      StoreWord(a, dst, word);
      dst := dst + 4;
    }
    while dst < max
      invariant dst0 <= dst <= max
      invariant forall j :: 0 <= j < a.Length ==> a[j] == if dst0 <= j < dst then byte else old(a[j])
    {
      a[dst] := byte;
      dst := dst + 1;
    }
  }
}
