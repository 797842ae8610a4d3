/**
 * Trap entry and exit: SAVE_ALL of kern/kexcentry.S, RESTORE_ALL and the ebreak path of
 * kern/genex.S, do_ebreak of kern/traps.c, on a small register machine.
 *
 * A trap frame holds 36 words: x1..x31 in slots 1..31, then sstatus, sepc, stval and scause.
 * The register sscratch is zero while the kernel runs and holds the end of the kernel stack while
 * the user runs; SAVE_ALL tells the two apart by swapping it with sp.
 */
module Trap {
  import opened Bits
  import opened Mmu

  /** General registers; x0 is always zero. */
  type Regs = x: seq<Word> | |x| == 32 && x[0] == 0 witness seq(32, i => 0)

  type Ram = map<nat, Word>

  datatype Hart = Hart(
    x: Regs,
    sscratch: Word,
    sstatus: Word,
    sepc: Word,
    stval: Word,
    scause: Word,
    pc: Word,
    user: bool,
    mem: Ram)

  const SP: nat := 2
  const S0: nat := 8
  const S1: nat := 9
  const A0: nat := 10
  const S2: nat := 18
  const S3: nat := 19
  const S4: nat := 20

  const FRAME: nat := 36 * 8

  /** Doublewords; what was never written reads as zero. */
  function Load(m: Ram, a: nat): Word { if a in m then m[a] else 0 }

  // ----- status bits -------------------------------------------------------------------------

  const SIE: nat := 1
  const SPIE: nat := 5
  const SPP: nat := 8
  const BREAKPOINT: Word := 3

  /** The processor on a trap: remember the mode and the interrupt enable, then disable interrupts. */
  function EnterStatus(w: Word, user: bool): Word {
    PutBitWord(w, SPIE, Bit(w, SIE));
    var a: Word := PutBit(w, SPIE, Bit(w, SIE));
    PutBitWord(a, SIE, false);
    var b: Word := PutBit(a, SIE, false);
    PutBitWord(b, SPP, !user);
    PutBit(b, SPP, !user)
  }

  /** The processor on sret. */
  function LeaveStatus(w: Word): Word {
    PutBitWord(w, SIE, Bit(w, SPIE));
    var a: Word := PutBit(w, SIE, Bit(w, SPIE));
    PutBitWord(a, SPIE, true);
    var b: Word := PutBit(a, SPIE, true);
    PutBitWord(b, SPP, false);
    PutBit(b, SPP, false)
  }

  // ----- the instructions the two macros use -------------------------------------------------

  type Reg = r: nat | r < 32

  datatype Csr = Sscratch | Sstatus | Sepc | Stval | Scause

  datatype Instr =
    | Csrrw(rd: Reg, csr: Csr, rs: Reg)
    | Csrr(rd: Reg, csr: Csr)
    | Csrw(csr: Csr, rs: Reg)
    | Addi(rd: Reg, rs: Reg, imm: int)
    | AndiSpp(rd: Reg, rs: Reg)       // andi rd, rs, 1<<8
    | Store(rs: Reg, slot: nat)       // sd rs, slot*8(sp)
    | Fetch(rd: Reg, slot: nat)       // ld rd, slot*8(sp)
    | Bnez(rs: Reg, skip: nat)        // skip that many instructions unless rs is zero

  function SetReg(x: Regs, r: Reg, v: Word): Regs { if r == 0 then x else x[r := v] }

  function GetCsr(h: Hart, c: Csr): Word {
    match c
    case Sscratch => h.sscratch
    case Sstatus => h.sstatus
    case Sepc => h.sepc
    case Stval => h.stval
    case Scause => h.scause
  }

  function SetCsr(h: Hart, c: Csr, v: Word): Hart {
    match c
    case Sscratch => h.(sscratch := v)
    case Sstatus => h.(sstatus := v)
    case Sepc => h.(sepc := v)
    case Stval => h.(stval := v)
    case Scause => h.(scause := v)
  }

  function Wrap(a: int): Word { a % WORD_LIMIT }

  function Step(h: Hart, i: Instr): Hart {
    match i
    case Csrrw(rd, csr, rs) =>
      var was := GetCsr(h, csr);
      var g := SetCsr(h, csr, h.x[rs]);
      g.(x := SetReg(h.x, rd, was))
    case Csrr(rd, csr) => h.(x := SetReg(h.x, rd, GetCsr(h, csr)))
    case Csrw(csr, rs) => SetCsr(h, csr, h.x[rs])
    case Addi(rd, rs, imm) => h.(x := SetReg(h.x, rd, Wrap(h.x[rs] + imm)))
    case AndiSpp(rd, rs) => h.(x := SetReg(h.x, rd, if Bit(h.x[rs], SPP) then 256 else 0))
    case Store(rs, slot) => h.(mem := h.mem[Wrap(h.x[SP] + slot * 8) := h.x[rs]])
    case Fetch(rd, slot) => h.(x := SetReg(h.x, rd, Load(h.mem, Wrap(h.x[SP] + slot * 8))))
    case Bnez(_, _) => h
  }

  function Drop(prog: seq<Instr>, n: nat): (p: seq<Instr>)
    ensures |p| <= |prog|
  {
    if n <= |prog| then prog[n..] else []
  }

  function Run(prog: seq<Instr>, h: Hart): Hart
    decreases |prog|
  {
    if prog == [] then h
    else if prog[0].Bnez? then
      Run(if h.x[prog[0].rs] != 0 then Drop(prog[1..], prog[0].skip) else prog[1..], h)
    else Run(prog[1..], Step(h, prog[0]))
  }

  function StoreEach(regs: seq<Reg>): (p: seq<Instr>)
    ensures |p| == |regs|
  {
    seq(|regs|, i requires 0 <= i < |regs| => Store(regs[i], regs[i]))
  }

  function FetchEach(regs: seq<Reg>): (p: seq<Instr>)
    ensures |p| == |regs|
  {
    seq(|regs|, i requires 0 <= i < |regs| => Fetch(regs[i], regs[i]))
  }

  const SAVED: seq<Reg> :=
    [1, 3, 4, 5, 6, 7, 8, 9, 10, 11, 12, 13, 14, 15, 16, 17, 18, 19, 20, 21, 22, 23, 24, 25, 26, 27, 28, 29, 30, 31]

  const RESTORED: seq<Reg> :=
    [31, 30, 29, 28, 27, 26, 25, 24, 23, 22, 21, 20, 19, 18, 17, 16, 15, 14, 13, 12, 11, 10, 9, 8, 7, 6, 5, 4, 3, 1]

  const FIND_STACK: seq<Instr> := [
    Csrrw(SP, Sscratch, SP),
    Bnez(SP, 1),
    Csrr(SP, Sscratch),
    Addi(SP, SP, -36 * 8)]

  const SAVE_CSRS: seq<Instr> := [
    Csrrw(S0, Sscratch, 0),
    Csrr(S1, Sstatus),
    Csrr(S2, Sepc),
    Csrr(S3, Stval),
    Csrr(S4, Scause),
    Store(S0, 2),
    Store(S1, 32),
    Store(S2, 33),
    Store(S3, 34),
    Store(S4, 35)]

  const SAVE_ALL: seq<Instr> := FIND_STACK + (StoreEach(SAVED) + SAVE_CSRS)

  const RESTORE_CSRS: seq<Instr> := [
    Fetch(S2, 33),
    Fetch(S1, 32),
    AndiSpp(S0, S1),
    Bnez(S0, 2),
    Addi(S0, SP, 36 * 8),
    Csrw(Sscratch, S0),
    Csrw(Sepc, S2),
    Csrw(Sstatus, S1)]

  const RESTORE_ALL: seq<Instr> := RESTORE_CSRS + (FetchEach(RESTORED) + [Fetch(SP, 2)])

  /** The machine itself: registers updated in place, one instruction at a time. */
  class Machine {
    const x: array<Word>
    var sscratch: Word
    var sstatus: Word
    var sepc: Word
    var stval: Word
    var scause: Word
    var pc: Word
    var user: bool
    var mem: Ram

    constructor ()
      ensures Valid() && fresh(x)
      ensures State() == Hart(seq(32, i => 0), 0, 0, 0, 0, 0, 0, false, map[])
    {
      x := new Word[32](i => 0);
      sscratch, sstatus, sepc, stval, scause, pc, user, mem := 0, 0, 0, 0, 0, 0, false, map[];
      new;
      assert x[..] == seq(32, i => 0);
    }

    ghost predicate Valid()
      reads this, x
    {
      x.Length == 32 && x[0] == 0
    }

    ghost function State(): Hart
      requires Valid()
      reads this, x
    {
      Hart(x[..], sscratch, sstatus, sepc, stval, scause, pc, user, mem)
    }

    method WriteReg(r: Reg, v: Word)
      requires Valid()
      modifies x
      ensures Valid() && State() == old(State()).(x := SetReg(old(State()).x, r, v))
    {
      if r != 0 {
        x[r] := v;
      }
    }

    method WriteCsr(c: Csr, v: Word)
      requires Valid()
      modifies this
      ensures Valid() && State() == SetCsr(old(State()), c, v)
    {
      match c
      case Sscratch => sscratch := v;
      case Sstatus => sstatus := v;
      case Sepc => sepc := v;
      case Stval => stval := v;
      case Scause => scause := v;
    }

    method ReadCsr(c: Csr) returns (v: Word)
      requires Valid()
      ensures v == GetCsr(State(), c)
    {
      match c
      case Sscratch => v := sscratch;
      case Sstatus => v := sstatus;
      case Sepc => v := sepc;
      case Stval => v := stval;
      case Scause => v := scause;
    }

    method Exec(i: Instr)
      requires Valid()
      modifies this, x
      ensures Valid() && State() == Step(old(State()), i)
    {
      match i
      case Csrrw(rd, csr, rs) =>
        var was := ReadCsr(csr);
        WriteCsr(csr, x[rs]);
        WriteReg(rd, was);
      case Csrr(rd, csr) =>
        var v := ReadCsr(csr);
        WriteReg(rd, v);
      case Csrw(csr, rs) =>
        WriteCsr(csr, x[rs]);
      case Addi(rd, rs, imm) =>
        WriteReg(rd, Wrap(x[rs] + imm));
      case AndiSpp(rd, rs) =>
        WriteReg(rd, if Bit(x[rs], SPP) then 256 else 0);
      case Store(rs, slot) =>
        mem := mem[Wrap(x[SP] + slot * 8) := x[rs]];
      case Fetch(rd, slot) =>
        WriteReg(rd, Load(mem, Wrap(x[SP] + slot * 8)));
      case Bnez(_, _) =>
    }

    /** Straight through the text, with forward branches. */
    method Execute(prog: seq<Instr>)
      requires Valid()
      modifies this, x
      ensures Valid() && State() == Run(prog, old(State()))
    {
      hide Step;
      var i := 0;
      while i < |prog|
        invariant 0 <= i && Valid()
        invariant Run(Drop(prog, i), State()) == Run(prog, old(State()))
      {
        assert Drop(prog, i)[1..] == Drop(prog, i + 1);
        if prog[i].Bnez? {
          if x[prog[i].rs] != 0 {
            assert Drop(Drop(prog, i + 1), prog[i].skip) == Drop(prog, i + 1 + prog[i].skip);
            i := i + 1 + prog[i].skip;
          } else {
            i := i + 1;
          }
        } else {
          Exec(prog[i]);
          i := i + 1;
        }
      }
      assert Drop(prog, i) == [];
    }

    /** SAVE_ALL builds the frame below the stack it chose and leaves sscratch zero. */
    method SaveAll()
      requires Valid() && FRAME <= StackFor(State())
      modifies this, x
      ensures Valid() && Saved(old(State()), State()) && x[2] == old(StackFor(State())) - 288
    {
      SaveAllEffect(State());
      Execute(SAVE_ALL);
    }

    /** RESTORE_ALL reloads what a frame holds. */
    method RestoreAll()
      requires Valid() && x[SP] + FRAME < WORD_LIMIT
      modifies this, x
      ensures Valid() && Restored(old(State()), State())
    {
      RestoreAllEffect(State());
      Execute(RESTORE_ALL);
    }
  }

  // ----- what the two macros do --------------------------------------------------------------

  /** Where a trap puts its frame: below sscratch if that is set, else below sp. */
  function StackFor(h: Hart): Word { if h.sscratch != 0 then h.sscratch else h.x[SP] }

  function SlotAddr(f: nat, k: nat): nat { f + k * 8 }

  ghost predicate Frame(m: Ram, f: nat, h: Hart) {
    && (forall k :: 1 <= k < 32 ==> Load(m, SlotAddr(f, k)) == h.x[k])
    && Load(m, SlotAddr(f, 32)) == h.sstatus && Load(m, SlotAddr(f, 33)) == h.sepc
    && Load(m, SlotAddr(f, 34)) == h.stval && Load(m, SlotAddr(f, 35)) == h.scause
  }

  ghost predicate Outside(m: Ram, m': Ram, lo: nat, hi: nat) {
    forall a: nat :: a < lo || hi <= a ==> Load(m', a) == Load(m, a)
  }

  ghost predicate Saved(h: Hart, r: Hart)
    requires FRAME <= StackFor(h)
  {
    var f := StackFor(h) - FRAME;
    && r.x[SP] == f && r.sscratch == 0
    && Frame(r.mem, f, h) && Outside(h.mem, r.mem, f, f + FRAME)
    && r.sstatus == h.sstatus && r.pc == h.pc && r.user == h.user
  }

  ghost predicate Restored(h: Hart, r: Hart) {
    var f := h.x[SP];
    && (forall k :: 1 <= k < 32 ==> r.x[k] == Load(h.mem, SlotAddr(f, k)))
    && r.sstatus == Load(h.mem, SlotAddr(f, 32)) && r.sepc == Load(h.mem, SlotAddr(f, 33))
    && r.sscratch == (if !Bit(r.sstatus, SPP) then f + FRAME else h.sscratch)
    && r.mem == h.mem && r.pc == h.pc && r.user == h.user
  }

  ghost predicate Plain(prog: seq<Instr>) { forall i :: 0 <= i < |prog| ==> !prog[i].Bnez? }

  lemma {:induction false} RunConcat(a: seq<Instr>, b: seq<Instr>, h: Hart)
    requires Plain(a)
    ensures Run(a + b, h) == Run(b, Run(a, h))
    decreases |a|
  {
    hide Step;
    if a == [] {
      assert a + b == b;
    } else {
      assert (a + b)[0] == a[0] && (a + b)[1..] == a[1..] + b;
      RunConcat(a[1..], b, Step(h, a[0]));
    }
  }

  /** Storing a list of registers, each in its own slot. */
  lemma {:induction false} StoreBlock(regs: seq<Reg>, h: Hart)
    requires h.x[SP] + FRAME <= WORD_LIMIT
    ensures var r := Run(StoreEach(regs), h);
            && r == h.(mem := r.mem)
            && (forall k :: k in regs ==> Load(r.mem, SlotAddr(h.x[SP], k)) == h.x[k])
            && (forall a: nat :: (forall k :: k in regs ==> a != SlotAddr(h.x[SP], k)) ==> Load(r.mem, a) == Load(h.mem, a))
    decreases |regs|
  {
    if regs != [] {
      var first := Store(regs[0], regs[0]);
      var g := Step(h, first);
      assert StoreEach(regs)[0] == first;
      assert StoreEach(regs)[1..] == StoreEach(regs[1..]);
      StoreBlock(regs[1..], g);
      assert Wrap(SlotAddr(h.x[SP], regs[0])) == SlotAddr(h.x[SP], regs[0]);
      var r := Run(StoreEach(regs), h);
      forall k | k in regs ensures Load(r.mem, SlotAddr(h.x[SP], k)) == h.x[k] {
        if k !in regs[1..] {
          assert k == regs[0];
          assert forall j :: j in regs[1..] ==> SlotAddr(h.x[SP], k) != SlotAddr(h.x[SP], j);
        }
      }
    }
  }

  /** Loading a list of registers other than sp, each from its own slot. */
  lemma {:induction false} FetchBlock(regs: seq<Reg>, h: Hart)
    requires h.x[SP] + FRAME <= WORD_LIMIT && SP !in regs
    ensures var r := Run(FetchEach(regs), h);
            && r == h.(x := r.x)
            && (forall k :: 1 <= k < 32 && k in regs ==> r.x[k] == Load(h.mem, SlotAddr(h.x[SP], k)))
            && (forall k :: 0 <= k < 32 && k !in regs ==> r.x[k] == h.x[k])
    decreases |regs|
  {
    if regs != [] {
      var first := Fetch(regs[0], regs[0]);
      var g := Step(h, first);
      assert FetchEach(regs)[0] == first;
      assert FetchEach(regs)[1..] == FetchEach(regs[1..]);
      FetchBlock(regs[1..], g);
      assert Wrap(SlotAddr(h.x[SP], regs[0])) == SlotAddr(h.x[SP], regs[0]);
    }
  }

  lemma One(i: Instr, rest: seq<Instr>, h: Hart)
    requires !i.Bnez?
    ensures Run([i] + rest, h) == Run(rest, Step(h, i))
  {
    hide Step;
    assert ([i] + rest)[1..] == rest;
  }

  lemma FindStack(h: Hart)
    requires FRAME <= StackFor(h)
    ensures Run(SAVE_ALL, h) ==
            Run(StoreEach(SAVED) + SAVE_CSRS,
                h.(x := h.x[SP := StackFor(h) - FRAME], sscratch := h.x[SP]))
  {
    hide StoreEach, Step;
    var rest := StoreEach(SAVED) + SAVE_CSRS;
    var t3 := [Addi(SP, SP, -36 * 8)] + rest;
    var t2 := [Csrr(SP, Sscratch)] + t3;
    var t1 := [Bnez(SP, 1)] + t2;
    assert SAVE_ALL == [Csrrw(SP, Sscratch, SP)] + t1;
    One(Csrrw(SP, Sscratch, SP), t1, h);
    var g := Step(h, Csrrw(SP, Sscratch, SP));
    assert t1[1..] == t2 && Drop(t2, 1) == t3;
    One(Csrr(SP, Sscratch), t3, g);
    var k := if g.x[SP] != 0 then g else Step(g, Csrr(SP, Sscratch));
    assert Run(t1, g) == Run(t3, k);
    One(Addi(SP, SP, -36 * 8), rest, k);
    StackSteps(h);
  }

  lemma StackSteps(h: Hart)
    requires FRAME <= StackFor(h)
    ensures var g := Step(h, Csrrw(SP, Sscratch, SP));
            var k := if g.x[SP] != 0 then g else Step(g, Csrr(SP, Sscratch));
            Step(k, Addi(SP, SP, -36 * 8)) == h.(x := h.x[SP := StackFor(h) - FRAME], sscratch := h.x[SP])
  {
  }

  lemma Five(a: Instr, b: Instr, c: Instr, d: Instr, e: Instr, h: Hart)
    requires !a.Bnez? && !b.Bnez? && !c.Bnez? && !d.Bnez? && !e.Bnez?
    ensures Run([a, b, c, d, e], h) == Step(Step(Step(Step(Step(h, a), b), c), d), e)
  {
    hide Step;
    var p := [a, b, c, d, e];
    assert p == [a] + ([b] + ([c] + ([d] + ([e] + []))));
    One(a, [b] + ([c] + ([d] + ([e] + []))), h);
    var h1 := Step(h, a);
    One(b, [c] + ([d] + ([e] + [])), h1);
    var h2 := Step(h1, b);
    One(c, [d] + ([e] + []), h2);
    var h3 := Step(h2, c);
    One(d, [e] + [], h3);
    One(e, [], Step(h3, d));
  }

  const READ_CSRS: seq<Instr> := SAVE_CSRS[..5]
  const WRITE_CSRS: seq<Instr> := SAVE_CSRS[5..]

  lemma StepCsrr(h: Hart, rd: Reg, c: Csr)
    requires rd != 0
    ensures Step(h, Csrr(rd, c)) == h.(x := h.x[rd := GetCsr(h, c)])
  {
  }

  /** The five control registers, into s0..s4; sscratch becomes zero. */
  lemma ReadCsrs(h: Hart)
    ensures Run(READ_CSRS, h) ==
            h.(x := h.x[S0 := h.sscratch][S1 := h.sstatus][S2 := h.sepc][S3 := h.stval][S4 := h.scause], sscratch := 0)
  {
    hide Run, Step;
    var i0, i1, i2, i3, i4 := Csrrw(S0, Sscratch, 0), Csrr(S1, Sstatus), Csrr(S2, Sepc), Csrr(S3, Stval), Csrr(S4, Scause);
    assert READ_CSRS == [i0, i1, i2, i3, i4];
    Five(i0, i1, i2, i3, i4, h);
    ReadSteps(h);
  }

  lemma ReadSteps(h: Hart)
    ensures Step(Step(Step(Step(Step(h, Csrrw(S0, Sscratch, 0)), Csrr(S1, Sstatus)), Csrr(S2, Sepc)), Csrr(S3, Stval)), Csrr(S4, Scause)) ==
            h.(x := h.x[S0 := h.sscratch][S1 := h.sstatus][S2 := h.sepc][S3 := h.stval][S4 := h.scause], sscratch := 0)
  {
    hide Step;
    TakeScratch(h);
    var a := h.(x := h.x[S0 := h.sscratch], sscratch := 0);
    StepCsrr(a, S1, Sstatus);
    var b := a.(x := a.x[S1 := h.sstatus]);
    StepCsrr(b, S2, Sepc);
    var c := b.(x := b.x[S2 := h.sepc]);
    StepCsrr(c, S3, Stval);
    StepCsrr(c.(x := c.x[S3 := h.stval]), S4, Scause);
  }

  lemma TakeScratch(h: Hart)
    ensures Step(h, Csrrw(S0, Sscratch, 0)) == h.(x := h.x[S0 := h.sscratch], sscratch := 0)
  {
  }

  lemma WrapSmall(a: nat)
    requires a < WORD_LIMIT
    ensures Wrap(a) == a
  {
  }

  lemma StepStore(h: Hart, rs: Reg, slot: nat)
    requires h.x[SP] + FRAME <= WORD_LIMIT && slot < 36
    ensures Step(h, Store(rs, slot)) == h.(mem := h.mem[SlotAddr(h.x[SP], slot) := h.x[rs]])
  {
    hide Wrap;
    WrapSmall(h.x[SP] + slot * 8);
  }

  /** From there into the frame. */
  lemma WriteCsrs(h: Hart)
    requires h.x[SP] + FRAME <= WORD_LIMIT
    ensures var f := h.x[SP];
            Run(WRITE_CSRS, h) ==
            h.(mem := h.mem[SlotAddr(f, 2) := h.x[S0]][SlotAddr(f, 32) := h.x[S1]][SlotAddr(f, 33) := h.x[S2]]
                      [SlotAddr(f, 34) := h.x[S3]][SlotAddr(f, 35) := h.x[S4]])
  {
    hide Run, Step, SlotAddr;
    var p := WRITE_CSRS;
    assert p == [Store(S0, 2), Store(S1, 32), Store(S2, 33), Store(S3, 34), Store(S4, 35)];
    Five(p[0], p[1], p[2], p[3], p[4], h);
    StepStore(h, S0, 2);
    var a := Step(h, p[0]);
    StepStore(a, S1, 32);
    var b := Step(a, p[1]);
    StepStore(b, S2, 33);
    var c := Step(b, p[2]);
    StepStore(c, S3, 34);
    StepStore(Step(c, p[3]), S4, 35);
  }

  predicate AllButSp(regs: seq<Reg>) { SP !in regs && forall k :: 1 <= k < 32 && k != SP ==> k in regs }

  /** The frame is complete once the registers and the control registers are stored. */
  lemma FrameComplete(regs: seq<Reg>, h: Hart, f: nat, m: Ram, m': Ram)
    requires AllButSp(regs)
    requires forall k :: k in regs ==> Load(m, SlotAddr(f, k)) == h.x[k]
    requires forall a: nat :: (forall k :: k in regs ==> a != SlotAddr(f, k)) ==> Load(m, a) == Load(h.mem, a)
    requires m' == m[SlotAddr(f, 2) := h.x[SP]][SlotAddr(f, 32) := h.sstatus][SlotAddr(f, 33) := h.sepc]
                   [SlotAddr(f, 34) := h.stval][SlotAddr(f, 35) := h.scause]
    ensures Frame(m', f, h) && Outside(h.mem, m', f, f + FRAME)
  {
    forall k | 1 <= k < 32 ensures Load(m', SlotAddr(f, k)) == h.x[k] {
      if k != SP { assert Load(m, SlotAddr(f, k)) == h.x[k]; }
    }
    forall a: nat | a < f || f + FRAME <= a ensures Load(m', a) == Load(h.mem, a) {
      assert forall k :: k in regs ==> a != SlotAddr(f, k);
    }
  }

  lemma SaveAllEffect(h: Hart)
    requires FRAME <= StackFor(h)
    ensures Saved(h, Run(SAVE_ALL, h)) && Run(SAVE_ALL, h).x[2] == StackFor(h) - 288
  {
    hide Run, Step, StoreEach, Load, SlotAddr, Frame, Outside;
    var f := StackFor(h) - FRAME;
    FindStack(h);
    var g := h.(x := h.x[SP := f], sscratch := h.x[SP]);
    StoresPlain(SAVED);
    RunConcat(StoreEach(SAVED), SAVE_CSRS, g);
    var k := Run(StoreEach(SAVED), g);
    SavedRegisters(SAVED, h, g);
    SaveCsrs(k);
    RegisterLists();
    FrameComplete(SAVED, h, f, k.mem, Run(SAVE_CSRS, k).mem);
  }

  lemma SavedRegisters(regs: seq<Reg>, h: Hart, g: Hart)
    requires FRAME <= StackFor(h) && g == h.(x := h.x[SP := StackFor(h) - FRAME], sscratch := h.x[SP]) && SP !in regs
    ensures var r := Run(StoreEach(regs), g);
            && r == g.(mem := r.mem)
            && (forall k :: k in regs ==> Load(r.mem, SlotAddr(StackFor(h) - FRAME, k)) == h.x[k])
            && (forall a: nat :: (forall k :: k in regs ==> a != SlotAddr(StackFor(h) - FRAME, k)) ==> Load(r.mem, a) == Load(h.mem, a))
  {
    hide Run, StoreEach, Load, SlotAddr;
    StoreBlock(regs, g);
  }

  lemma SaveCsrs(k: Hart)
    requires k.x[SP] + FRAME <= WORD_LIMIT
    ensures var f := k.x[SP];
            var r := Run(SAVE_CSRS, k);
            && r.x[SP] == f && r.sscratch == 0 && r.sstatus == k.sstatus && r.pc == k.pc && r.user == k.user
            && r.mem == k.mem[SlotAddr(f, 2) := k.sscratch][SlotAddr(f, 32) := k.sstatus][SlotAddr(f, 33) := k.sepc]
                        [SlotAddr(f, 34) := k.stval][SlotAddr(f, 35) := k.scause]
  {
    hide Run, SlotAddr;
    assert SAVE_CSRS == READ_CSRS + WRITE_CSRS;
    ReadsPlain();
    RunConcat(READ_CSRS, WRITE_CSRS, k);
    ReadCsrs(k);
    WriteCsrs(Run(READ_CSRS, k));
  }

  lemma InSaved(k: nat)
    requires 1 <= k < 32 && k != SP
    ensures k in SAVED
  {
    assert SAVED[if k == 1 then 0 else k - 2] == k;
  }

  lemma InRestored(k: nat)
    requires 1 <= k < 32 && k != SP
    ensures k in RESTORED
  {
    assert RESTORED[if k == 1 then 29 else 31 - k] == k;
  }

  lemma AllSaved(k: nat)
    requires 1 <= k < 32
    ensures k == SP || (k in SAVED && k in RESTORED)
  {
    if k != SP {
      InSaved(k);
      InRestored(k);
    }
  }

  lemma RegisterLists()
    ensures AllButSp(SAVED) && AllButSp(RESTORED)
  {
    forall k | 1 <= k < 32 && k != SP ensures k in SAVED && k in RESTORED {
      AllSaved(k);
    }
  }

  lemma ReadsPlain()
    ensures Plain(READ_CSRS)
  {
  }

  lemma StoresPlain(regs: seq<Reg>)
    ensures Plain(StoreEach(regs)) && Plain(FetchEach(regs))
  {
  }

  /** After the first part of RESTORE_ALL. */
  function CsrsBack(h: Hart): Hart
    requires h.x[SP] + FRAME < WORD_LIMIT
  {
    var f := h.x[SP];
    var status, sepc := Load(h.mem, SlotAddr(f, 32)), Load(h.mem, SlotAddr(f, 33));
    var x := h.x[S2 := sepc][S1 := status];
    if Bit(status, SPP) then h.(x := x[S0 := 256], sepc := sepc, sstatus := status)
    else h.(x := x[S0 := f + FRAME], sscratch := f + FRAME, sepc := sepc, sstatus := status)
  }

  /** The branch on SPP: sscratch is set on the way to user code only. */
  function Branched(c: Hart): Hart {
    if c.x[S0] != 0 then c else Step(Step(c, Addi(S0, SP, 36 * 8)), Csrw(Sscratch, S0))
  }

  lemma RestoreBranch(c: Hart, rest: seq<Instr>)
    ensures Run([Bnez(S0, 2)] + ([Addi(S0, SP, 36 * 8)] + ([Csrw(Sscratch, S0)] + rest)), c) == Run(rest, Branched(c))
  {
    hide Step;
    var t2 := [Csrw(Sscratch, S0)] + rest;
    var t1 := [Addi(S0, SP, 36 * 8)] + t2;
    var t := [Bnez(S0, 2)] + t1;
    assert t[1..] == t1 && Drop(t1, 2) == rest;
    One(Addi(S0, SP, 36 * 8), t2, c);
    One(Csrw(Sscratch, S0), rest, Step(c, Addi(S0, SP, 36 * 8)));
  }

  lemma RestoreCsrs(h: Hart, rest: seq<Instr>)
    requires h.x[SP] + FRAME < WORD_LIMIT
    ensures Run(RESTORE_CSRS + rest, h) == Run(rest, CsrsBack(h))
  {
    hide Step, CsrsBack, Run, Branched;
    var t5 := [Csrw(Sstatus, S1)] + rest;
    var t4 := [Csrw(Sepc, S2)] + t5;
    var t3 := [Bnez(S0, 2)] + ([Addi(S0, SP, 36 * 8)] + ([Csrw(Sscratch, S0)] + t4));
    var t2 := [AndiSpp(S0, S1)] + t3;
    var t1 := [Fetch(S1, 32)] + t2;
    assert RESTORE_CSRS + rest == [Fetch(S2, 33)] + t1;
    One(Fetch(S2, 33), t1, h);
    var a := Step(h, Fetch(S2, 33));
    One(Fetch(S1, 32), t2, a);
    var b := Step(a, Fetch(S1, 32));
    One(AndiSpp(S0, S1), t3, b);
    var c := Step(b, AndiSpp(S0, S1));
    RestoreBranch(c, t4);
    One(Csrw(Sepc, S2), t5, Branched(c));
    One(Csrw(Sstatus, S1), rest, Step(Branched(c), Csrw(Sepc, S2)));
    RestoreSteps(h);
  }

  lemma RestoreSteps(h: Hart)
    requires h.x[SP] + FRAME < WORD_LIMIT
    ensures var c := Step(Step(Step(h, Fetch(S2, 33)), Fetch(S1, 32)), AndiSpp(S0, S1));
            Step(Step(Branched(c), Csrw(Sepc, S2)), Csrw(Sstatus, S1)) == CsrsBack(h)
  {
    hide Bit, Step;
    var f := h.x[SP];
    var status, sepc := Load(h.mem, SlotAddr(f, 32)), Load(h.mem, SlotAddr(f, 33));
    StepFetch(h, S2, 33);
    var a := h.(x := h.x[S2 := sepc]);
    StepFetch(a, S1, 32);
    var b := a.(x := a.x[S1 := status]);
    StepAndi(b, status);
    var c := b.(x := b.x[S0 := if Bit(status, SPP) then 256 else 0]);
    StepsToUser(c);
    StepsOut(Branched(c));
  }

  lemma StepFetch(h: Hart, rd: Reg, slot: nat)
    requires h.x[SP] + FRAME < WORD_LIMIT && slot < 36 && rd != 0
    ensures Step(h, Fetch(rd, slot)) == h.(x := h.x[rd := Load(h.mem, SlotAddr(h.x[SP], slot))])
  {
    hide Wrap;
    WrapSmall(h.x[SP] + slot * 8);
  }

  lemma StepAndi(h: Hart, w: Word)
    requires h.x[S1] == w
    ensures Step(h, AndiSpp(S0, S1)) == h.(x := h.x[S0 := if Bit(w, SPP) then 256 else 0])
  {
    hide Bit;
  }

  lemma StepsToUser(h: Hart)
    requires h.x[SP] + FRAME < WORD_LIMIT
    ensures Step(Step(h, Addi(S0, SP, 36 * 8)), Csrw(Sscratch, S0)) ==
            h.(x := h.x[S0 := h.x[SP] + FRAME], sscratch := h.x[SP] + FRAME)
  {
    hide Wrap;
    WrapSmall(h.x[SP] + FRAME);
  }

  lemma StepsOut(h: Hart)
    ensures Step(Step(h, Csrw(Sepc, S2)), Csrw(Sstatus, S1)) == h.(sepc := h.x[S2], sstatus := h.x[S1])
  {
  }

  lemma RestoreAllEffect(h: Hart)
    requires h.x[SP] + FRAME < WORD_LIMIT
    ensures Restored(h, Run(RESTORE_ALL, h))
    ensures Run(RESTORE_ALL, h).sscratch == if Bit(Run(RESTORE_ALL, h).sstatus, 8) then h.sscratch else h.x[2] + 288
  {
    hide Run, Step, FetchEach, Bit;
    RestoreCsrs(h, FetchEach(RESTORED) + [Fetch(SP, 2)]);
    RegisterLists();
    FetchAll(RESTORED, CsrsBack(h));
  }

  lemma FetchAll(regs: seq<Reg>, g: Hart)
    requires g.x[SP] + FRAME <= WORD_LIMIT && AllButSp(regs)
    ensures var r := Run(FetchEach(regs) + [Fetch(SP, 2)], g);
            r == g.(x := r.x) && forall k :: 1 <= k < 32 ==> r.x[k] == Load(g.mem, SlotAddr(g.x[SP], k))
  {
    hide FetchEach, Run, Step;
    StoresPlain(regs);
    RunConcat(FetchEach(regs), [Fetch(SP, 2)], g);
    FetchBlock(regs, g);
    var k := Run(FetchEach(regs), g);
    One(Fetch(SP, 2), [], k);
    assert [Fetch(SP, 2)] + [] == [Fetch(SP, 2)];
    FetchSp(k);
  }

  lemma FetchSp(k: Hart)
    requires k.x[SP] + FRAME <= WORD_LIMIT
    ensures Run([], Step(k, Fetch(SP, 2))) == k.(x := k.x[SP := Load(k.mem, SlotAddr(k.x[SP], 2))])
  {
    assert Wrap(k.x[SP] + 2 * 8) == SlotAddr(k.x[SP], 2);
  }
}
