/**
 * Well-nested ebreak traps: kexcentry, handle_ebreak with do_ebreak, ret_from_exception and sret,
 * to any depth, from user or from kernel code.
 */
module Nesting {
  import opened Bits
  import opened Mmu
  import opened Trap

  // ----- which handler kexcentry jumps to ----------------------------------------------------

  datatype Handler = Reserved | DoEbreak | SupervisorInt | BeyondTable

  const INTERRUPT: nat := 0x8000_0000_0000_0000

  /** (scause & 0x3f) + 16 * interrupt bit, looked up in exception_handlers. */
  function HandlerFor(cause: Word): Handler {
    var index := cause % 64 + 16 * (cause / INTERRUPT);
    if index >= 64 then BeyondTable
    else if index == 3 then DoEbreak
    else if index == 21 then SupervisorInt
    else Reserved
  }

  /** Interrupts never reach do_ebreak; the timer does reach the scheduler, and so would an exception numbered 21. */
  lemma Dispatch(cause: Word)
    ensures HandlerFor(cause) == DoEbreak <==> cause < INTERRUPT && cause % 64 == BREAKPOINT
    ensures HandlerFor(cause) == SupervisorInt <==> cause % 64 == if cause < INTERRUPT then 21 else 5
    ensures HandlerFor(cause) == BeyondTable <==> INTERRUPT <= cause && 48 <= cause % 64
  {
    assert cause / INTERRUPT == if cause < INTERRUPT then 0 else 1;
  }

  // ----- one trap ----------------------------------------------------------------------------

  /** The processor takes an ebreak trap. */
  function Enter(h: Hart, stval: Word): Hart {
    h.(sepc := h.pc, stval := stval, scause := BREAKPOINT, sstatus := EnterStatus(h.sstatus, h.user), user := false)
  }

  /** The processor executes sret. */
  function Sret(h: Hart): Hart {
    h.(pc := h.sepc, user := !Bit(h.sstatus, SPP), sstatus := LeaveStatus(h.sstatus))
  }

  /** kexcentry up to the call of do_ebreak: the frame, then a0 = sp and sixteen bytes more. */
  function Called(h: Hart, stval: Word): Hart {
    Step(Step(Run(SAVE_ALL, Enter(h, stval)), Addi(A0, SP, 0)), Addi(SP, SP, -16))
  }

  /** do_ebreak steps over a two-byte ebreak. */
  function StepOver(h: Hart, tf: nat): Hart {
    h.(mem := h.mem[SlotAddr(tf, 33) := Wrap(Load(h.mem, SlotAddr(tf, 33)) + 2)])
  }

  /** Back from do_ebreak through ret_from_exception. */
  function Return(h: Hart): Hart {
    Sret(Run(RESTORE_ALL, Step(h, Addi(SP, SP, 16))))
  }

  /**
   * What happens inside do_ebreak: kernel code runs up to some state, or is itself interrupted by
   * an ebreak whose handler does `inner`.
   */
  datatype Body =
    | Done
    | Work(to: Hart, rest: Body)
    | Ebreak(stval: Word, inner: Body, rest: Body)

  /** A whole trap. */
  function Handle(h: Hart, stval: Word, inner: Body): Hart
    decreases inner, 1
  {
    var c := Called(h, stval);
    Return(StepOver(Go(c, inner), c.x[A0]))
  }

  function Go(h: Hart, b: Body): Hart
    decreases b, 0
  {
    match b
    case Done => h
    case Work(to, rest) => Go(to, rest)
    case Ebreak(stval, inner, rest) => Go(Handle(h, stval, inner), rest)
  }

  // ----- the calling convention --------------------------------------------------------------

  /** The live part of the stack, from sp to its end, is untouched. */
  ghost predicate SameStack(m: Ram, m': Ram, lo: nat, top: nat) {
    forall a: nat :: lo <= a < top ==> Load(m', a) == Load(m, a)
  }

  /** Compiled kernel code: leaves trap state alone, does not write at or above its caller's sp. */
  ghost predicate KernelWork(h: Hart, to: Hart, floor: nat, top: nat) {
    && to.sscratch == h.sscratch && to.sstatus == h.sstatus && to.user == h.user
    && to.x[SP] <= floor && SameStack(h.mem, to.mem, floor, top)
  }

  /** The stack has room for a frame and the handler's call. */
  ghost predicate Room(h: Hart, top: nat) {
    FRAME + 16 <= StackFor(h) <= top && top < WORD_LIMIT
  }

  ghost predicate LegalTrap(h: Hart, stval: Word, inner: Body, top: nat)
    decreases inner, 1
  {
    Room(h, top) && LegalBody(Called(h, stval), inner, StackFor(h) - FRAME - 16, top)
  }

  /** `floor` is sp at the call of do_ebreak, and again when it returns. */
  ghost predicate LegalBody(h: Hart, b: Body, floor: nat, top: nat)
    decreases b, 0
  {
    match b
    case Done => h.x[SP] == floor
    case Work(to, rest) => KernelWork(h, to, floor, top) && LegalBody(to, rest, floor, top)
    case Ebreak(stval, inner, rest) =>
      LegalTrap(h, stval, inner, top) && LegalBody(Handle(h, stval, inner), rest, floor, top)
  }

  /** sscratch tells the two modes apart: the end of the stack in user mode, zero in the kernel. */
  ghost predicate Ready(h: Hart, top: nat) {
    h.sscratch == if h.user then top else 0
  }

  // ----- the theorems ------------------------------------------------------------------------

  lemma CalledEffect(h: Hart, stval: Word, top: nat)
    requires Room(h, top)
    ensures var c := Called(h, stval);
            var f := StackFor(h) - FRAME;
            && c.x[10] == f && c.x[2] == f - 16 && c.sscratch == 0 && !c.user
            && c.sstatus == EnterStatus(h.sstatus, h.user)
            && Frame(c.mem, f, Enter(h, stval)) && Outside(h.mem, c.mem, f, f + FRAME)
  {
    hide Run, Frame, Outside, EnterStatus, Wrap;
    SaveAllEffect(Enter(h, stval));
    WrapSmall(StackFor(h) - FRAME - 16);
    WrapSmall(StackFor(h) - FRAME);
  }

  /** SPIE set, SPP clear, everything else as before. */
  function AfterSret(w: Word): nat {
    PutBit(PutBit(w, SPIE, true), SPP, false)
  }

  lemma AfterEnter(w: Word, user: bool, k: nat)
    ensures Bit(EnterStatus(w, user), k) ==
            if k == SPP then !user else if k == SIE then false else if k == SPIE then Bit(w, SIE) else Bit(w, k)
  {
    hide Bit, PutBit;
    var a := PutBit(w, SPIE, Bit(w, SIE));
    PutBitRead(w, SPIE, Bit(w, SIE), k);
    PutBitRead(a, SIE, false, k);
    PutBitRead(PutBit(a, SIE, false), SPP, !user, k);
  }

  lemma AfterLeave(w: Word, k: nat)
    ensures Bit(LeaveStatus(w), k) ==
            if k == SPP then false else if k == SPIE then true else if k == SIE then Bit(w, SPIE) else Bit(w, k)
  {
    hide Bit, PutBit;
    var a := PutBit(w, SIE, Bit(w, SPIE));
    PutBitRead(w, SIE, Bit(w, SPIE), k);
    PutBitRead(a, SPIE, true, k);
    PutBitRead(PutBit(a, SPIE, true), SPP, false, k);
  }

  /** The status word survives the trap, but for the two bits sret itself defines; no interrupt gets in between. */
  lemma StatusRestored(w: Word, user: bool)
    ensures Bit(EnterStatus(w, user), SPP) == !user && !Bit(EnterStatus(w, user), SIE)
    ensures LeaveStatus(EnterStatus(w, user)) == AfterSret(w) && Bit(AfterSret(w), SIE) == Bit(w, SIE)
    ensures Bit(EnterStatus(w, user), 5) == Bit(w, 1) && Bit(EnterStatus(w, user), 8) == !user
    ensures !Bit(EnterStatus(w, user), 1)
    ensures forall k: nat :: Bit(AfterSret(w), k) <==> k == 5 || (k != 8 && Bit(w, k))
  {
    hide Bit, PutBit, EnterStatus, LeaveStatus;
    var e := EnterStatus(w, user);
    AfterEnter(w, user, SPP);
    AfterEnter(w, user, SIE);
    AfterEnter(w, user, SPIE);
    forall k: nat ensures Bit(LeaveStatus(e), k) == Bit(AfterSret(w), k) {
      AfterEnter(w, user, k);
      AfterLeave(e, k);
      PutBitRead(w, SPIE, true, k);
      PutBitRead(PutBit(w, SPIE, true), SPP, false, k);
    }
    SameBits(LeaveStatus(e), AfterSret(w));
    forall k: nat ensures Bit(AfterSret(w), k) <==> k == 5 || (k != 8 && Bit(w, k)) {
      PutBitRead(w, SPIE, true, k);
      PutBitRead(PutBit(w, SPIE, true), SPP, false, k);
    }
    PutBitRead(w, SPIE, true, SIE);
    PutBitRead(PutBit(w, SPIE, true), SPP, false, SIE);
  }

  lemma FrameKept(m: Ram, m': Ram, f: nat, h: Hart, floor: nat, top: nat)
    requires Frame(m, f, h) && SameStack(m, m', floor, top) && floor <= f && f + FRAME <= top
    ensures Frame(m', f, h)
  {
    forall k: nat | k < 36 ensures Load(m', SlotAddr(f, k)) == Load(m, SlotAddr(f, k)) {
      assert floor <= SlotAddr(f, k) < top;
    }
  }

  /** From an intact frame whose sepc was stepped over, everything comes back. */
  lemma ReturnEffect(e: Hart, g: Hart, f: nat)
    requires Frame(g.mem, f, e) && g.x[SP] == f - 16 && 16 <= f && f + FRAME < WORD_LIMIT
    ensures var r := Return(StepOver(g, f));
            && r.x == e.x && r.pc == Wrap(e.sepc + 2)
            && r.sstatus == LeaveStatus(e.sstatus) && r.user == !Bit(e.sstatus, SPP)
            && r.sscratch == (if r.user then f + FRAME else g.sscratch)
            && r.mem == StepOver(g, f).mem
  {
    hide Run, LeaveStatus, Bit, Wrap;
    WrapSmall(f);
    var k := Step(StepOver(g, f), Addi(SP, SP, 16));
    assert k.x[SP] == f;
    RestoreAllEffect(k);
    var r := Return(StepOver(g, f));
    forall i | 0 <= i < 32 ensures r.x[i] == e.x[i] {
      if i > 0 { assert Load(k.mem, SlotAddr(f, i)) == e.x[i]; }
    }
    assert r.x == e.x;
  }

  /**
   * Whatever happens in the handler, the interrupted code gets back all its registers, its mode,
   * sscratch and its stack, and goes on two bytes further.
   */
  lemma {:induction false} TrapReturns(h: Hart, stval: Word, inner: Body, top: nat)
    requires LegalTrap(h, stval, inner, top) && Ready(h, top)
    ensures var r := Handle(h, stval, inner);
            && r.x == h.x && r.pc == Wrap(h.pc + 2) && r.user == h.user && r.sscratch == h.sscratch
            && r.sstatus == AfterSret(h.sstatus)
            && SameStack(h.mem, r.mem, StackFor(h), top)
    decreases inner, 1
  {
    hide Called, EnterStatus, LeaveStatus, Return, StepOver, AfterSret, Frame, Outside, SameStack, Bit;
    var c := Called(h, stval);
    var f := StackFor(h) - FRAME;
    CalledEffect(h, stval, top);
    BodyKeeps(c, inner, f - 16, top);
    var g := Go(c, inner);
    FrameKept(c.mem, g.mem, f, Enter(h, stval), f - 16, top);
    ReturnEffect(Enter(h, stval), g, f);
    StatusRestored(h.sstatus, h.user);
    StackKept(h.mem, c.mem, g, f, top);
  }

  lemma StackKept(m: Ram, m1: Ram, g: Hart, f: nat, top: nat)
    requires Outside(m, m1, f, f + FRAME) && 16 <= f && SameStack(m1, g.mem, f - 16, top)
    ensures SameStack(m, StepOver(g, f).mem, f + FRAME, top)
  {
  }

  /** sscratch stays zero and the stack of the callers stays as it is while kernel code runs. */
  lemma {:induction false} BodyKeeps(h: Hart, b: Body, floor: nat, top: nat)
    requires LegalBody(h, b, floor, top) && !h.user && h.sscratch == 0 && h.x[SP] <= floor
    ensures var r := Go(h, b);
            !r.user && r.sscratch == 0 && r.x[SP] == floor && SameStack(h.mem, r.mem, floor, top)
    decreases b, 0
  {
    hide LegalTrap, Handle, AfterSret, Wrap;
    match b
    case Done =>
    case Work(to, rest) =>
      BodyKeeps(to, rest, floor, top);
    case Ebreak(stval, inner, rest) =>
      TrapReturns(h, stval, inner, top);
      BodyKeeps(Handle(h, stval, inner), rest, floor, top);
  }

  /** The frames opened while a body runs. */
  ghost function Frames(h: Hart, b: Body): seq<int>
    decreases b
  {
    match b
    case Done => []
    case Work(to, rest) => Frames(to, rest)
    case Ebreak(stval, inner, rest) =>
      [StackFor(h) - FRAME] + Frames(Called(h, stval), inner) + Frames(Handle(h, stval, inner), rest)
  }

  /** Every frame opened inside a handler lies below the handler's own stack, so live frames never overlap. */
  lemma {:induction false} FramesBelow(h: Hart, b: Body, floor: nat, top: nat)
    requires LegalBody(h, b, floor, top) && !h.user && h.sscratch == 0 && h.x[SP] <= floor
    ensures forall f :: f in Frames(h, b) ==> 0 <= f && f + FRAME <= floor
    decreases b
  {
    hide Called, Handle, AfterSret, Frame, Outside, SameStack, EnterStatus, Wrap;
    match b
    case Done =>
    case Work(to, rest) =>
      FramesBelow(to, rest, floor, top);
    case Ebreak(stval, inner, rest) =>
      CalledEffect(h, stval, top);
      FramesBelow(Called(h, stval), inner, StackFor(h) - FRAME - 16, top);
      TrapReturns(h, stval, inner, top);
      FramesBelow(Handle(h, stval, inner), rest, floor, top);
  }

  /** `c` lists the frames live at one moment while a body runs, the outermost trap's first. */
  ghost predicate LiveChain(h: Hart, b: Body, c: seq<int>)
    decreases b
  {
    c == [] ||
    match b
    case Done => false
    case Work(to, rest) => LiveChain(to, rest, c)
    case Ebreak(stval, inner, rest) =>
      || (c[0] == StackFor(h) - FRAME && LiveChain(Called(h, stval), inner, c[1..]))
      || LiveChain(Handle(h, stval, inner), rest, c)
  }

  /** Each frame of the chain ends at or below the start of every frame before it. */
  ghost predicate Stacked(c: seq<int>) {
    && (forall i :: 0 <= i < |c| ==> 0 <= c[i])
    && (forall i, j :: 0 <= i < j < |c| ==> c[j] + FRAME <= c[i])
  }

  lemma {:induction false} LiveFramesDisjoint(h: Hart, b: Body, c: seq<int>, floor: nat, top: nat)
    requires LegalBody(h, b, floor, top) && !h.user && h.sscratch == 0 && h.x[SP] <= floor && LiveChain(h, b, c)
    ensures Stacked(c) && forall i :: 0 <= i < |c| ==> c[i] + FRAME <= floor
    decreases b
  {
    hide Called, Handle, AfterSret, Frame, Outside, SameStack, EnterStatus, Wrap;
    if c != [] {
      match b
      case Done =>
      case Work(to, rest) =>
        LiveFramesDisjoint(to, rest, c, floor, top);
      case Ebreak(stval, inner, rest) =>
        CalledEffect(h, stval, top);
        TrapReturns(h, stval, inner, top);
        var f := StackFor(h) - FRAME;
        if c[0] == f && LiveChain(Called(h, stval), inner, c[1..]) {
          LiveFramesDisjoint(Called(h, stval), inner, c[1..], f - 16, top);
          OnTop(f, c[1..]);
          assert c == [f] + c[1..];
        } else {
          LiveFramesDisjoint(Handle(h, stval, inner), rest, c, floor, top);
        }
    }
  }

  lemma OnTop(f: nat, c: seq<int>)
    requires Stacked(c) && forall i :: 0 <= i < |c| ==> c[i] + FRAME <= f
    ensures Stacked([f] + c)
  {
  }

  /** The states at which kernel code runs between SAVE_ALL and RESTORE_ALL, at every depth. */
  ghost function KernelStates(h: Hart, b: Body): seq<Hart>
    decreases b
  {
    match b
    case Done => [h]
    case Work(to, rest) => [h] + KernelStates(to, rest)
    case Ebreak(stval, inner, rest) =>
      [h] + KernelStates(Called(h, stval), inner) + KernelStates(Handle(h, stval, inner), rest)
  }

  /** In all of them sscratch is zero and interrupts are off. */
  lemma {:induction false} ScratchZeroInKernel(h: Hart, b: Body, floor: nat, top: nat)
    requires LegalBody(h, b, floor, top) && !h.user && h.sscratch == 0 && h.x[SP] <= floor && !Bit(h.sstatus, SIE)
    ensures forall s :: s in KernelStates(h, b) ==> !s.user && s.sscratch == 0 && !Bit(s.sstatus, SIE)
    decreases b
  {
    hide Called, Handle, AfterSret, Frame, Outside, SameStack, EnterStatus, Wrap, Bit;
    match b
    case Done =>
    case Work(to, rest) =>
      ScratchZeroInKernel(to, rest, floor, top);
    case Ebreak(stval, inner, rest) =>
      CalledEffect(h, stval, top);
      StatusRestored(h.sstatus, h.user);
      ScratchZeroInKernel(Called(h, stval), inner, StackFor(h) - FRAME - 16, top);
      TrapReturns(h, stval, inner, top);
      ScratchZeroInKernel(Handle(h, stval, inner), rest, floor, top);
  }

  /**
   * A trap from user code or kernel code, everything inside it included: at every moment the live
   * frames are disjoint, one below the other, and the kernel states keep the sscratch protocol.
   */
  lemma TrapKeepsDiscipline(h: Hart, stval: Word, inner: Body, top: nat)
    requires LegalTrap(h, stval, inner, top) && Ready(h, top)
    ensures var f := StackFor(h) - FRAME;
            && (forall c :: LiveChain(Called(h, stval), inner, c) ==> Stacked([f] + c))
            && (forall s :: s in KernelStates(Called(h, stval), inner) ==>
                  !s.user && s.sscratch == 0 && !Bit(s.sstatus, SIE))
            && Ready(Handle(h, stval, inner), top)
  {
    hide Called, Handle, LiveChain, Stacked, KernelStates, AfterSret, Frame, Outside, SameStack, EnterStatus, Wrap, Bit;
    CalledEffect(h, stval, top);
    StatusRestored(h.sstatus, h.user);
    TrapReturns(h, stval, inner, top);
    var f := StackFor(h) - FRAME;
    forall c | LiveChain(Called(h, stval), inner, c) ensures Stacked([f] + c) {
      LiveFramesDisjoint(Called(h, stval), inner, c, f - 16, top);
      OnTop(f, c);
    }
    ScratchZeroInKernel(Called(h, stval), inner, f - 16, top);
  }
}
