/** The table of environments: free list, ASID bitmap and env ids (kern/env.c). */
module EnvTable {
  import opened Bits
  import opened Mmu
  import opened Outcomes

  const NASID: nat := 256
  const U32: nat := 0x1_0000_0000
  /** mkenvid shifts its counter by 11 bits, so ids are exact below this many calls. */
  const GENERATIONS: nat := 0x20_0000

  datatype Status = FREE | RUNNABLE
  /** The fields env_alloc sets; `sstatus` and `sp` (register 29) belong to the saved frame. */
  datatype Env = Env(id: nat, asid: nat, parent: nat, status: Status, runs: nat, sstatus: nat, sp: nat)

  const SSTATUS_SPIE: nat := 32
  const USTACKTOP: nat := KERNBASE_VA - PAGE_SIZE
  /** Room for argc and argv at the top of the user stack. */
  const ARGS: nat := 4 + 8

  const UNUSED: Env := Env(0, 0, 0, FREE, 0, 0, 0)

  // ----- the ASID bitmap -------------------------------------------------------------------

  /** ASID `a` is marked in the bitmap of 32-bit words. */
  predicate InUse(bitmap: seq<nat>, a: nat)
    requires |bitmap| == NASID / 32 && a < NASID
  {
    Bit(bitmap[a / 32], a % 32)
  }

  function Mark(bitmap: seq<nat>, a: nat): (b: seq<nat>)
    requires |bitmap| == NASID / 32 && a < NASID
    ensures |b| == |bitmap|
  {
    bitmap[a / 32 := PutBit(bitmap[a / 32], a % 32, true)]
  }

  function Unmark(bitmap: seq<nat>, a: nat): (b: seq<nat>)
    requires |bitmap| == NASID / 32 && a < NASID
    ensures |b| == |bitmap|
  {
    bitmap[a / 32 := PutBit(bitmap[a / 32], a % 32, false)]
  }

  lemma MarkRead(bitmap: seq<nat>, a: nat, b: nat)
    requires |bitmap| == NASID / 32 && a < NASID && b < NASID
    ensures InUse(Mark(bitmap, a), b) <==> b == a || InUse(bitmap, b)
    ensures InUse(Unmark(bitmap, a), b) <==> b != a && InUse(bitmap, b)
  {
    if a / 32 == b / 32 {
      PutBitRead(bitmap[a / 32], a % 32, true, b % 32);
      PutBitRead(bitmap[a / 32], a % 32, false, b % 32);
    }
  }

  /** The first free ASID from `i` on. */
  function FirstFree(bitmap: seq<nat>, i: nat): (r: Option<nat>)
    requires |bitmap| == NASID / 32 && i <= NASID
    ensures r.Some? ==> i <= r.value < NASID && !InUse(bitmap, r.value)
    ensures r.Some? ==> forall a :: i <= a < r.value ==> InUse(bitmap, a)
    ensures r.None? ==> forall a :: i <= a < NASID ==> InUse(bitmap, a)
    decreases NASID - i
  {
    if i == NASID then None
    else if !InUse(bitmap, i) then Some(i)
    else FirstFree(bitmap, i + 1)
  }

  // ----- the state and its steps -----------------------------------------------------------

  /**
   * envs has one slot more than the C array: env_init starts its loop at NENV and so puts
   * envs[NENV] on the free list too. `gen` is the static counter of mkenvid.
   */
  datatype EnvState = EnvState(free: seq<nat>, envs: seq<Env>, bitmap: seq<nat>, gen: nat)

  function EnvId(gen: nat, e: nat): nat
    requires e <= NENV
  {
    gen * 2048 % U32 + e
  }

  /**
   * env_alloc for a child of `parent`, and on success env_create's status update; `vmOk` is the
   * outcome of env_setup_vm.
   */
  function Alloc(t: EnvState, vmOk: bool, parent: nat): (EnvState, int)
    requires |t.bitmap| == NASID / 32 && (t.free != [] ==> t.free[0] <= NENV < |t.envs|)
  {
    if t.free == [] then (t, -E_NO_FREE_ENV)
    else if !vmOk then (t, -E_NO_MEM)
    else
      var e := t.free[0];
      var gen := (t.gen + 1) % U32;
      var id := EnvId(gen, e);
      match FirstFree(t.bitmap, 0)
      case None => (t.(gen := gen, envs := t.envs[e := t.envs[e].(id := id, runs := 0)]), -E_NO_FREE_ENV)
      case Some(a) =>
        (EnvState(t.free[1..], t.envs[e := Env(id, a, parent, RUNNABLE, 0, SSTATUS_SPIE, USTACKTOP - ARGS)], Mark(t.bitmap, a), gen), 0)
  }

  /** env_free, without its VM teardown. */
  function Free(t: EnvState, e: nat): EnvState
    requires |t.bitmap| == NASID / 32 && e < |t.envs| && t.envs[e].asid < NASID
  {
    EnvState([e] + t.free, t.envs[e := t.envs[e].(status := FREE)], Unmark(t.bitmap, t.envs[e].asid), t.gen)
  }

  /** envid2env with checkperm 0 and a nonzero id: the index of the env, or None for -E_BAD_ENV. */
  function Lookup(t: EnvState, id: nat): Option<nat>
    requires |t.envs| == NENV + 1
  {
    var e := id % NENV;
    if t.envs[e].status == FREE || t.envs[e].id != id then None else Some(e)
  }

  // ----- invariants ------------------------------------------------------------------------

  ghost predicate Live(t: EnvState, e: nat) { e < |t.envs| && t.envs[e].status == RUNNABLE }

  /** `n`, n+1, ..., NENV */
  function From(n: nat): (s: seq<nat>)
    requires n <= NENV + 1
    ensures |s| == NENV + 1 - n
    ensures forall k :: 0 <= k < |s| ==> s[k] == n + k
    decreases NENV + 1 - n
  {
    if n == NENV + 1 then [] else [n] + From(n + 1)
  }

  /**
   * The free list is a stack of returned slots, all below `m`, on top of the slots m .. NENV
   * that were never handed out.
   */
  ghost predicate Stacked(t: EnvState, m: nat) {
    && m <= NASID
    && |t.free| >= |From(m)| && t.free[|t.free| - |From(m)|..] == From(m)
    && (forall k :: 0 <= k < |t.free| - |From(m)| ==> t.free[k] < m)
  }

  /**
   * The free slots are the free list, each once; the ASIDs marked are exactly those of live envs,
   * one each.
   */
  ghost predicate Ok(t: EnvState, m: nat) {
    && |t.envs| == NENV + 1 && |t.bitmap| == NASID / 32 && Stacked(t, m)
    && (forall i, j :: 0 <= i < j < |t.free| ==> t.free[i] != t.free[j])
    && (forall e: nat :: e in t.free <==> e <= NENV && t.envs[e].status == FREE)
    && AsidsOk(t)
  }

  ghost predicate Sound(t: EnvState) { exists m :: Ok(t, m) }

  ghost predicate AsidsOk(t: EnvState)
    requires |t.envs| == NENV + 1 && |t.bitmap| == NASID / 32
  {
    && (forall e: nat :: Live(t, e) ==> t.envs[e].asid < NASID && InUse(t.bitmap, t.envs[e].asid))
    && (forall e: nat, f: nat :: Live(t, e) && Live(t, f) && e != f ==> t.envs[e].asid != t.envs[f].asid)
    && (forall a: nat :: a < NASID && InUse(t.bitmap, a) ==> exists e: nat :: Live(t, e) && t.envs[e].asid == a)
  }

  /** The numbers below `n`. */
  ghost function Below(n: nat): (xs: set<nat>)
    ensures |xs| == n
    ensures forall x: nat :: x in xs <==> x < n
  {
    if n == 0 then {} else Below(n - 1) + {n - 1}
  }

  ghost function AsidsBelow(t: EnvState, n: nat): set<nat>
    requires n <= |t.envs|
  {
    set e: nat | 0 <= e < n :: t.envs[e].asid
  }

  lemma {:induction false} AsidsBelowCard(t: EnvState, n: nat)
    requires n <= |t.envs| && forall e: nat, f: nat :: e < f < n ==> t.envs[e].asid != t.envs[f].asid
    ensures |AsidsBelow(t, n)| == n
  {
    if n > 0 {
      AsidsBelowCard(t, n - 1);
      var last := t.envs[n - 1].asid;
      forall a: nat ensures a in AsidsBelow(t, n) <==> a in AsidsBelow(t, n - 1) || a == last {
        if a in AsidsBelow(t, n) {
          var e: nat :| e < n && t.envs[e].asid == a;
        }
      }
      assert AsidsBelow(t, n) == AsidsBelow(t, n - 1) + {last};
      assert last !in AsidsBelow(t, n - 1);
    }
  }

  lemma SubsetCard(x: set<nat>, y: set<nat>)
    requires x <= y
    ensures |x| <= |y|
  {
    assert y == x + (y - x);
  }

  /** With every slot below `m` live and an ASID still free, `m` is below 256. */
  lemma RoomLeft(t: EnvState, m: nat, a: nat)
    requires Ok(t, m) && t.free == From(m) && a < NASID && !InUse(t.bitmap, a)
    ensures m < NASID
  {
    AllLive(t, m);
    OtherAsids(t, m, a);
    hide Ok, From, InUse, AsidsBelow;
    AsidsBelowCard(t, m);
    SubsetCard(AsidsBelow(t, m), Below(NASID) - {a});
  }

  lemma AllLive(t: EnvState, m: nat)
    requires Ok(t, m) && t.free == From(m)
    ensures m <= |t.envs| && forall e: nat :: e < m ==> Live(t, e)
    ensures forall e: nat, f: nat :: e < f < m ==> t.envs[e].asid != t.envs[f].asid
  {
    hide InUse;
    forall e: nat | e < m ensures Live(t, e) {
      assert e !in t.free;
    }
  }

  lemma OtherAsids(t: EnvState, m: nat, a: nat)
    requires Ok(t, m) && m <= |t.envs| && (forall e: nat :: e < m ==> Live(t, e)) && a < NASID && !InUse(t.bitmap, a)
    ensures AsidsBelow(t, m) <= Below(NASID) - {a}
  {
    hide InUse, From, Stacked;
    forall x | x in AsidsBelow(t, m) ensures x < NASID && x != a {
      var e: nat :| e < m && t.envs[e].asid == x;
      assert Live(t, e);
    }
  }

  lemma SlotInStack(t: EnvState, m: nat, e: nat)
    requires Stacked(t, m) && m <= e <= NENV
    ensures e in t.free
  {
    assert t.free[|t.free| - |From(m)|..][e - m] == e;
  }

  /** Every live env sits below the stack's base, so the extra slot NENV is never handed out. */
  lemma LiveBelow(t: EnvState, m: nat, e: nat)
    requires Ok(t, m) && Live(t, e)
    ensures e < m <= NASID < NENV
  {
    if e >= m { SlotInStack(t, m, e); }
  }

  lemma InitOk(t: EnvState)
    requires t.free == From(0) && |t.envs| == NENV + 1 && |t.bitmap| == NASID / 32
    requires forall e :: 0 <= e <= NENV ==> t.envs[e].status == FREE
    requires forall a: nat :: a < NASID ==> !InUse(t.bitmap, a)
    ensures Ok(t, 0)
  {
    forall e: nat ensures e in t.free <==> e <= NENV {
      if e <= NENV { assert t.free[e] == e; }
    }
  }

  lemma AllocAsids(t: EnvState, e: nat, x: Env)
    requires |t.envs| == NENV + 1 && |t.bitmap| == NASID / 32 && AsidsOk(t) && x.status == RUNNABLE
    requires e <= NENV && t.envs[e].status == FREE && x.asid < NASID && !InUse(t.bitmap, x.asid)
    ensures AsidsOk(t.(envs := t.envs[e := x], bitmap := Mark(t.bitmap, x.asid)))
  {
    var a := x.asid;
    var u := t.(envs := t.envs[e := x], bitmap := Mark(t.bitmap, a));
    forall b: nat | b < NASID ensures InUse(u.bitmap, b) <==> b == a || InUse(t.bitmap, b) {
      MarkRead(t.bitmap, a, b);
    }
    hide InUse, Mark;
    assert forall f: nat :: Live(u, f) <==> f == e || Live(t, f);
    forall b: nat | b < NASID && InUse(u.bitmap, b) ensures exists f: nat :: Live(u, f) && u.envs[f].asid == b {
      if b == a {
        assert Live(u, e) && u.envs[e].asid == b;
      } else {
        var f: nat :| Live(t, f) && t.envs[f].asid == b;
        assert Live(u, f) && u.envs[f].asid == b;
      }
    }
  }

  lemma FreeAsids(t: EnvState, e: nat)
    requires |t.envs| == NENV + 1 && |t.bitmap| == NASID / 32 && AsidsOk(t) && Live(t, e)
    ensures AsidsOk(Free(t, e))
  {
    var u, a := Free(t, e), t.envs[e].asid;
    forall b: nat | b < NASID ensures InUse(u.bitmap, b) <==> b != a && InUse(t.bitmap, b) {
      MarkRead(t.bitmap, a, b);
    }
    hide InUse, Unmark;
    assert forall f: nat :: Live(u, f) <==> f != e && Live(t, f);
    forall b: nat | b < NASID && InUse(u.bitmap, b) ensures exists f: nat :: Live(u, f) && u.envs[f].asid == b {
      var f: nat :| Live(t, f) && t.envs[f].asid == b;
      assert Live(u, f) && u.envs[f].asid == b;
    }
  }

  /** The free list never runs dry: the ASIDs do first. */
  lemma NeverEmpty(t: EnvState, m: nat)
    requires Ok(t, m)
    ensures t.free != [] && t.free[0] <= NENV && t.envs[t.free[0]].status == FREE
  {
    assert t.free[0] in t.free;
  }

  lemma TailElems(s: seq<nat>)
    requires s != [] && forall i, j :: 0 <= i < j < |s| ==> s[i] != s[j]
    ensures forall e :: e in s[1..] <==> e in s && e != s[0]
    ensures forall i, j :: 0 <= i < j < |s[1..]| ==> s[1..][i] != s[1..][j]
  {
    assert s == [s[0]] + s[1..];
  }

  lemma PopStack(t: EnvState, u: EnvState, m: nat)
    requires Stacked(t, m) && t.free != [] && u.free == t.free[1..]
    requires t.free == From(m) ==> m < NASID
    ensures Stacked(u, if t.free == From(m) then m + 1 else m)
  {
    if t.free == From(m) {
      assert From(m)[1..] == From(m + 1);
    } else {
      var d := |t.free| - |From(m)|;
      assert u.free[d - 1..] == t.free[d..];
      assert forall k :: 0 <= k < d - 1 ==> u.free[k] == t.free[k + 1];
    }
  }

  lemma AllocFree(t: EnvState, u: EnvState, e: nat)
    requires |t.envs| == |u.envs| == NENV + 1 && t.free != [] && t.free[0] == e <= NENV && u.free == t.free[1..]
    requires forall i, j :: 0 <= i < j < |t.free| ==> t.free[i] != t.free[j]
    requires forall f: nat :: f in t.free <==> f <= NENV && t.envs[f].status == FREE
    requires u.envs == t.envs[e := u.envs[e]] && u.envs[e].status == RUNNABLE
    ensures forall i, j :: 0 <= i < j < |u.free| ==> u.free[i] != u.free[j]
    ensures forall f: nat :: f in u.free <==> f <= NENV && u.envs[f].status == FREE
  {
    TailElems(t.free);
  }

  lemma AllocStack(t: EnvState, u: EnvState, m: nat, a: nat) returns (m': nat)
    requires Ok(t, m) && t.free != [] && u.free == t.free[1..] && a < NASID && !InUse(t.bitmap, a)
    ensures Stacked(u, m') && m <= m' <= m + 1 && t.free[0] < m'
  {
    hide InUse, From;
    m' := m;
    if t.free == From(m) {
      RoomLeft(t, m, a);
      m' := m + 1;
    }
    PopStack(t, u, m);
    FirstBelow(t, m);
  }

  lemma OkParts(t: EnvState, m: nat)
    requires Ok(t, m)
    ensures |t.envs| == NENV + 1 && |t.bitmap| == NASID / 32 && AsidsOk(t)
    ensures forall i, j :: 0 <= i < j < |t.free| ==> t.free[i] != t.free[j]
    ensures forall e: nat :: e in t.free <==> e <= NENV && t.envs[e].status == FREE
  {
  }

  lemma AllocSuccess(t: EnvState, u: EnvState, m: nat, e: nat, x: Env) returns (m': nat)
    requires Ok(t, m) && t.free != [] && t.free[0] == e <= NENV
    requires x.asid < NASID && !InUse(t.bitmap, x.asid) && x.status == RUNNABLE
    requires u.free == t.free[1..] && u.envs == t.envs[e := x] && u.bitmap == Mark(t.bitmap, x.asid)
    ensures Ok(u, m') && m <= m' <= m + 1 && e < m'
  {
    OkParts(t, m);
    NeverEmpty(t, m);
    m' := AllocStack(t, u, m, x.asid);
    hide InUse, Mark, From, AsidsOk, Stacked;
    AllocAsids(t, e, x);
    AsidsFrame(t.(envs := u.envs, bitmap := u.bitmap), u);
    AllocFree(t, u, e);
  }

  lemma AsidsFrame(t: EnvState, u: EnvState)
    requires |t.envs| == NENV + 1 && |t.bitmap| == NASID / 32 && AsidsOk(t)
    requires |u.envs| == |t.envs| && u.bitmap == t.bitmap
    requires forall f :: 0 <= f < |t.envs| ==> u.envs[f].asid == t.envs[f].asid && u.envs[f].status == t.envs[f].status
    ensures AsidsOk(u)
  {
    hide InUse;
    assert forall f: nat :: Live(u, f) <==> Live(t, f);
    forall a: nat | a < NASID && InUse(u.bitmap, a) ensures exists f: nat :: Live(u, f) && u.envs[f].asid == a {
      var f: nat :| Live(t, f) && t.envs[f].asid == a;
      assert Live(u, f) && u.envs[f].asid == a;
    }
  }

  /** env_alloc keeps the table sound, whatever its outcome; `m` grows when a new slot is opened. */
  lemma AllocKeepsOk(t: EnvState, m: nat, vmOk: bool, parent: nat) returns (m': nat)
    requires Ok(t, m)
    ensures t.free != [] && t.free[0] <= NENV && Ok(Alloc(t, vmOk, parent).0, m') && m <= m' <= m + 1
    ensures Alloc(t, vmOk, parent).1 == 0 ==> t.free[0] < m'
  {
    NeverEmpty(t, m);
    OkWidths(t, m);
    hide InUse, Mark, From, Ok;
    m' := m;
    var u := Alloc(t, vmOk, parent).0;
    if vmOk {
      var e := t.free[0];
      match FirstFree(t.bitmap, 0)
      case None =>
        NewIdKeepsOk(t, m, e, u);
      case Some(a) =>
        m' := AllocSuccess(t, u, m, e, u.envs[e]);
    }
  }

  lemma OkWidths(t: EnvState, m: nat)
    requires Ok(t, m)
    ensures |t.envs| == NENV + 1 && |t.bitmap| == NASID / 32
  {
  }

  /** Without an ASID to give, only the id of the slot has changed. */
  lemma NewIdKeepsOk(t: EnvState, m: nat, e: nat, u: EnvState)
    requires Ok(t, m) && e <= NENV < |u.envs| && u.free == t.free && u.bitmap == t.bitmap
    requires u.envs == t.envs[e := t.envs[e].(id := u.envs[e].id, runs := u.envs[e].runs)]
    ensures Ok(u, m)
  {
    hide InUse, From;
    AsidsFrame(t, u);
  }

  lemma FirstBelow(t: EnvState, m: nat)
    requires Stacked(t, m) && t.free != []
    ensures t.free[0] < if t.free == From(m) then m + 1 else m
  {
    if |t.free| == |From(m)| { assert t.free[0..] == t.free; }
  }

  lemma FreeKeepsOk(t: EnvState, m: nat, e: nat)
    requires Ok(t, m) && Live(t, e)
    ensures Ok(Free(t, e), m)
  {
    LiveBelow(t, m, e);
    FreeAsids(t, e);
    var u := Free(t, e);
    assert u.free[|u.free| - |From(m)|..] == t.free[|t.free| - |From(m)|..];
    assert e !in t.free;
    assert forall f :: f in u.free <==> f == e || f in t.free;
  }

  // ----- env ids ---------------------------------------------------------------------------

  /** Every id was made for its slot, or never. */
  ghost predicate IdSlots(t: EnvState) {
    |t.envs| == NENV + 1 && forall e: nat :: e <= NENV ==> t.envs[e].id == 0 || t.envs[e].id % 2048 == e
  }

  /** Every id was made for its slot in some generation up to now, or never. */
  ghost predicate IdsOk(t: EnvState) {
    && |t.envs| == NENV + 1 && t.gen < GENERATIONS
    && forall e: nat :: e <= NENV ==>
         t.envs[e].id == 0 || (t.envs[e].id % 2048 == e && 1 <= t.envs[e].id / 2048 <= t.gen)
  }

  lemma EnvIdParts(gen: nat, e: nat)
    requires e <= NENV && gen < GENERATIONS
    ensures EnvId(gen, e) / 2048 == gen && EnvId(gen, e) % 2048 == e && EnvId(gen, e) < U32
  {
  }

  /** An id holds its counter up to multiples of 2^21, and its slot. */
  lemma EnvIdAlways(gen: nat, e: nat)
    requires e <= NENV
    ensures EnvId(gen, e) / 2048 == gen % GENERATIONS && EnvId(gen, e) % 2048 == e
  {
    var q, r := gen / GENERATIONS, gen % GENERATIONS;
    assert gen * 2048 == q * U32 + r * 2048;
    assert gen * 2048 % U32 == r * 2048;
  }

  lemma LookupFinds(t: EnvState, id: nat, e: nat)
    requires Sound(t) && IdSlots(t) && id != 0 && Live(t, e) && t.envs[e].id == id
    ensures Lookup(t, id) == Some(e)
  {
    hide Ok;
    var m :| Ok(t, m);
    LiveBelow(t, m, e);
    assert id % 2048 == e;
    LowBits(id);
  }

  lemma LowBits(id: nat)
    ensures id % 2048 < NENV ==> id % NENV == id % 2048
  {
    var q, r := id / 2048, id % 2048;
    assert id == (q * 2) * 1024 + r;
  }

  /** envid2env accepts a nonzero id exactly if it is the current id of an env that is not free. */
  lemma LookupExact(t: EnvState, id: nat)
    requires Sound(t) && IdSlots(t) && id != 0
    ensures forall e: nat :: Lookup(t, id) == Some(e) <==> Live(t, e) && t.envs[e].id == id
  {
    hide Sound, IdSlots;
    IdsWidth(t);
    forall e: nat | Live(t, e) && t.envs[e].id == id ensures Lookup(t, id) == Some(e) {
      LookupFinds(t, id, e);
    }
  }

  lemma IdsWidth(t: EnvState)
    requires IdSlots(t)
    ensures |t.envs| == NENV + 1
  {
  }

  // ----- runs ------------------------------------------------------------------------------

  datatype Op = AllocOp(vmOk: bool, parent: nat) | FreeOp(e: nat)

  /** env_free is only called for live envs. */
  ghost predicate Legal(t: EnvState, op: Op) { op.FreeOp? ==> Live(t, op.e) }

  /** What Alloc and Free need in order to be defined. */
  ghost predicate Defined(t: EnvState, op: Op) {
    && |t.envs| == NENV + 1 && |t.bitmap| == NASID / 32 && t.free != [] && t.free[0] <= NENV
    && (op.FreeOp? ==> op.e <= NENV && t.envs[op.e].asid < NASID)
  }

  lemma LegalAlloc(t: EnvState, vmOk: bool, parent: nat)
    ensures Legal(t, AllocOp(vmOk, parent))
  {
  }

  lemma SoundIsDefined(t: EnvState, op: Op)
    requires Sound(t) && Legal(t, op)
    ensures Defined(t, op)
  {
    var m :| Ok(t, m);
    NeverEmpty(t, m);
  }

  ghost function Step(t: EnvState, op: Op): EnvState
    requires Sound(t) && Legal(t, op)
  {
    SoundIsDefined(t, op);
    match op
    case AllocOp(vmOk, parent) => Alloc(t, vmOk, parent).0
    case FreeOp(e) => Free(t, e)
  }

  /** env_init leaves a sound table. */
  lemma BootIsSound(t: EnvState)
    requires t.free == From(0) && |t.envs| == NENV + 1 && (forall e :: 0 <= e <= NENV ==> t.envs[e] == UNUSED)
    requires t.bitmap == seq(NASID / 32, _ => 0) && t.gen == 0
    ensures Sound(t) && IdsOk(t) && IdSlots(t)
  {
    forall a: nat | a < NASID ensures !InUse(t.bitmap, a) { ZeroBit(a % 32); }
    InitOk(t);
  }

  lemma StepIsSound(t: EnvState, op: Op)
    requires Sound(t) && Legal(t, op)
    ensures Sound(Step(t, op))
  {
    var m :| Ok(t, m);
    match op
    case AllocOp(vmOk, parent) => var m' := AllocKeepsOk(t, m, vmOk, parent);
    case FreeOp(e) => FreeKeepsOk(t, m, e);
  }

  /** The id made by a step, if env_alloc got as far as mkenvid. */
  ghost function Made(t: EnvState, op: Op): Option<nat>
    requires Sound(t) && Legal(t, op)
  {
    SoundIsDefined(t, op);
    if op.AllocOp? && op.vmOk then Some(EnvId((t.gen + 1) % U32, t.free[0])) else None
  }

  /** What a step does to ids: only env_alloc makes one, of the next generation. */
  lemma StepIds(t: EnvState, op: Op)
    requires Sound(t) && Legal(t, op) && IdsOk(t) && (Made(t, op).Some? ==> t.gen + 1 < GENERATIONS)
    ensures IdsOk(Step(t, op)) && Step(t, op).gen == t.gen + if Made(t, op).Some? then 1 else 0
    ensures Made(t, op).Some? ==> Made(t, op).value / 2048 == t.gen + 1
    ensures forall e: nat :: e <= NENV ==>
              || (Step(t, op).envs[e].id == t.envs[e].id && (Step(t, op).envs[e].status == RUNNABLE ==> t.envs[e].status == RUNNABLE))
              || (Made(t, op).Some? && Step(t, op).envs[e].id / 2048 == t.gen + 1)
  {
    hide Sound, FirstFree, Mark, Unmark, EnvId, InUse;
    SoundIsDefined(t, op);
    if Made(t, op).Some? {
      EnvIdParts(t.gen + 1, t.free[0]);
      assert (t.gen + 1) % U32 == t.gen + 1;
    }
  }

  /** A run frees only live envs. */
  ghost predicate LegalRun(t: EnvState, ops: seq<Op>)
    requires Sound(t)
    decreases |ops|
  {
    ops == [] ||
    (Legal(t, ops[0]) && (StepIsSound(t, ops[0]); LegalRun(Step(t, ops[0]), ops[1..])))
  }

  ghost function Final(t: EnvState, ops: seq<Op>): (u: EnvState)
    requires Sound(t) && LegalRun(t, ops)
    ensures Sound(u)
    decreases |ops|
  {
    if ops == [] then t else StepIsSound(t, ops[0]); Final(Step(t, ops[0]), ops[1..])
  }

  /** The ids made during a run, in order. */
  ghost function Issued(t: EnvState, ops: seq<Op>): seq<nat>
    requires Sound(t) && LegalRun(t, ops)
    decreases |ops|
  {
    if ops == [] then []
    else
      StepIsSound(t, ops[0]);
      var rest := Issued(Step(t, ops[0]), ops[1..]);
      match Made(t, ops[0])
      case None => rest
      case Some(id) => [id] + rest
  }

  /** One step of a run. */
  lemma Unfold(t: EnvState, ops: seq<Op>)
    requires Sound(t) && LegalRun(t, ops) && ops != []
    ensures Legal(t, ops[0]) && Sound(Step(t, ops[0])) && LegalRun(Step(t, ops[0]), ops[1..])
    ensures Final(t, ops) == Final(Step(t, ops[0]), ops[1..])
    ensures Issued(t, ops) ==
              (if Made(t, ops[0]).Some? then [Made(t, ops[0]).value] else []) + Issued(Step(t, ops[0]), ops[1..])
  {
    hide Sound, Legal, Step, Made;
    StepIsSound(t, ops[0]);
  }

  /** The generations of the ids made increase, and ids stay in order to the end of the run. */
  lemma {:induction false} IssuedIncrease(t: EnvState, ops: seq<Op>)
    requires Sound(t) && IdsOk(t) && LegalRun(t, ops) && t.gen + |Issued(t, ops)| < GENERATIONS
    ensures forall k :: 0 <= k < |Issued(t, ops)| ==> Issued(t, ops)[k] / 2048 > t.gen
    ensures forall j, k :: 0 <= j < k < |Issued(t, ops)| ==> Issued(t, ops)[j] / 2048 < Issued(t, ops)[k] / 2048
    ensures IdsOk(Final(t, ops)) && Final(t, ops).gen == t.gen + |Issued(t, ops)|
    decreases |ops|
  {
    hide Sound, Legal, Step, Made, IdsOk;
    if ops != [] {
      Unfold(t, ops);
      hide Issued, Final, LegalRun;
      StepIds(t, ops[0]);
      IssuedIncrease(Step(t, ops[0]), ops[1..]);
    }
  }

  lemma StepGen(t: EnvState, op: Op)
    requires Sound(t) && Legal(t, op)
    ensures Step(t, op).gen == if Made(t, op).Some? then (t.gen + 1) % U32 else t.gen
    ensures Made(t, op).Some? ==>
              Made(t, op).value / 2048 == (t.gen + 1) % GENERATIONS && Made(t, op).value % 2048 <= NENV
    ensures IdSlots(t) ==> IdSlots(Step(t, op))
  {
    hide Sound, FirstFree, Mark, Unmark, EnvId, InUse;
    SoundIsDefined(t, op);
    EnvIdAlways((t.gen + 1) % U32, t.free[0]);
    Wraps(t.gen + 1);
  }

  lemma AddTurns(m: nat, y: nat)
    ensures (m * GENERATIONS + y) % GENERATIONS == y % GENERATIONS
  {
    var p, r := y / GENERATIONS, y % GENERATIONS;
    assert m * GENERATIONS + y == (m + p) * GENERATIONS + r;
  }

  lemma Wraps(x: nat)
    ensures x % U32 % GENERATIONS == x % GENERATIONS
  {
    WrapsOn(x, 0);
  }

  lemma WrapsOn(x: nat, k: nat)
    ensures (x % U32 + k) % GENERATIONS == (x + k) % GENERATIONS
  {
    var q, r := x / U32, x % U32;
    assert x + k == (q * 2048) * GENERATIONS + (r + k);
    AddTurns(q * 2048, r + k);
  }

  /** Over any run, however long: the k-th id made carries the counter's value then, modulo 2^21. */
  lemma {:induction false} IssuedAt(t: EnvState, ops: seq<Op>, k: nat)
    requires Sound(t) && LegalRun(t, ops) && k < |Issued(t, ops)|
    ensures Issued(t, ops)[k] / 2048 == (t.gen + k + 1) % GENERATIONS && Issued(t, ops)[k] % 2048 <= NENV
    decreases |ops|
  {
    hide Sound, Legal, Step, Made;
    assert ops != [];
    Unfold(t, ops);
    hide Issued, LegalRun;
    StepGen(t, ops[0]);
    var u, made := Step(t, ops[0]), Made(t, ops[0]).Some?;
    if !made || k > 0 {
      var k' := if made then k - 1 else k;
      IssuedAt(u, ops[1..], k');
      WrapsOn(t.gen + 1, k' + 1);
    }
  }

  /** Exactly when two ids are equal: made for the same slot, a multiple of 2^21 calls apart. */
  lemma IdsEqualIff(t: EnvState, ops: seq<Op>, j: nat, k: nat)
    requires Sound(t) && LegalRun(t, ops) && j < k < |Issued(t, ops)|
    ensures var ids := Issued(t, ops);
            ids[j] == ids[k] <==> ids[j] % 2048 == ids[k] % 2048 && (k - j) % GENERATIONS == 0
  {
    hide Sound, LegalRun, Issued;
    IssuedAt(t, ops, j);
    IssuedAt(t, ops, k);
    SameRemainder(t.gen + j + 1, k - j);
  }

  lemma SameRemainder(x: nat, d: nat)
    ensures (x + d) % GENERATIONS == x % GENERATIONS <==> d % GENERATIONS == 0
  {
    var p, q := x / GENERATIONS, d / GENERATIONS;
    assert x + d == (p + q) * GENERATIONS + (x % GENERATIONS + d % GENERATIONS);
  }

  /** Exactly when an id is 0, which envid2env takes for the current env: slot 0, and the counter a multiple of 2^21. */
  lemma IdZeroIff(t: EnvState, ops: seq<Op>, k: nat)
    requires Sound(t) && LegalRun(t, ops) && k < |Issued(t, ops)|
    ensures Issued(t, ops)[k] == 0 <==> Issued(t, ops)[k] % 2048 == 0 && (t.gen + k + 1) % GENERATIONS == 0
  {
    hide Sound, LegalRun, Issued;
    IssuedAt(t, ops, k);
  }

  /** Over any run with at most 2^21 mkenvid calls all ids made are distinct, and up to the wrap none is zero. */
  lemma IdsNeverRepeat(t: EnvState, ops: seq<Op>)
    requires Sound(t) && LegalRun(t, ops) && |Issued(t, ops)| <= GENERATIONS
    ensures forall j, k :: 0 <= j < k < |Issued(t, ops)| ==> Issued(t, ops)[j] != Issued(t, ops)[k]
    ensures t.gen + |Issued(t, ops)| < GENERATIONS ==> 0 !in Issued(t, ops)
    ensures t.gen + |Issued(t, ops)| < GENERATIONS && IdsOk(t) ==> IdsOk(Final(t, ops))
  {
    hide Sound, LegalRun, Issued, IdsOk, Final;
    forall j, k | 0 <= j < k < |Issued(t, ops)| ensures Issued(t, ops)[j] != Issued(t, ops)[k] {
      IdsEqualIff(t, ops, j, k);
    }
    if t.gen + |Issued(t, ops)| < GENERATIONS {
      forall k | 0 <= k < |Issued(t, ops)| ensures Issued(t, ops)[k] != 0 {
        IdZeroIff(t, ops, k);
      }
      if IdsOk(t) { IssuedIncrease(t, ops); }
    }
  }

  /** At every moment an id names its slot, so envid2env's answer is exact for ever. */
  lemma {:induction false} SlotsAlways(t: EnvState, ops: seq<Op>)
    requires Sound(t) && LegalRun(t, ops) && IdSlots(t)
    ensures IdSlots(Final(t, ops))
    decreases |ops|
  {
    hide Sound, Legal, Step, Made, IdSlots;
    if ops != [] {
      Unfold(t, ops);
      hide Final, LegalRun;
      StepGen(t, ops[0]);
      SlotsAlways(Step(t, ops[0]), ops[1..]);
    }
  }

  lemma StaleStep(t: EnvState, op: Op, id: nat)
    requires Sound(t) && Legal(t, op) && |t.envs| == NENV + 1 && Lookup(t, id) == None && Made(t, op) != Some(id)
    ensures |Step(t, op).envs| == NENV + 1 && Lookup(Step(t, op), id) == None
  {
    hide Sound, FirstFree, Mark, Unmark, EnvId, InUse;
    SoundIsDefined(t, op);
  }

  /** Over any run, however long: an id that envid2env rejects is accepted later only if it was made anew. */
  lemma {:induction false} StaleUnlessReissued(t: EnvState, ops: seq<Op>, id: nat)
    requires Sound(t) && LegalRun(t, ops) && |t.envs| == NENV + 1 && Lookup(t, id) == None && id !in Issued(t, ops)
    ensures |Final(t, ops).envs| == NENV + 1 && Lookup(Final(t, ops), id) == None
    decreases |ops|
  {
    hide Sound, Step, Legal, Made, Lookup;
    if ops != [] {
      Unfold(t, ops);
      hide Issued, Final, LegalRun;
      StaleStep(t, ops[0], id);
      StaleUnlessReissued(Step(t, ops[0]), ops[1..], id);
    }
  }

  /** So below 2^21 calls it is never accepted again: ids of freed and reused slots stay dead. */
  lemma StaleStaysStale(t: EnvState, ops: seq<Op>, id: nat)
    requires Sound(t) && IdsOk(t) && LegalRun(t, ops) && t.gen + |Issued(t, ops)| < GENERATIONS
    requires id / 2048 <= t.gen && Lookup(t, id) == None
    ensures |Final(t, ops).envs| == NENV + 1 && Lookup(Final(t, ops), id) == None
  {
    hide Sound, LegalRun, Issued, Final, Lookup;
    if id in Issued(t, ops) {
      var k :| 0 <= k < |Issued(t, ops)| && Issued(t, ops)[k] == id;
      IssuedAt(t, ops, k);
      assert false;
    }
    StaleUnlessReissued(t, ops, id);
  }

  /**
   * Over any run from env_init the ASIDs marked are exactly those of the live envs, pairwise
   * distinct, and every live env has an index below 256: slot NENV is never handed out.
   */
  lemma RunsAreSound(t: EnvState, ops: seq<Op>)
    requires Sound(t) && LegalRun(t, ops)
    ensures var u := Final(t, ops);
            && |u.envs| == NENV + 1 && |u.bitmap| == NASID / 32 && AsidsOk(u)
            && forall e: nat :: Live(u, e) ==> e < 256
  {
    var u := Final(t, ops);
    var m :| Ok(u, m);
    forall e: nat | Live(u, e) ensures e < NASID { LiveBelow(u, m, e); }
  }

  // ----- what env_alloc and env_free leave -----------------------------------------------------

  /** None of the 256 ASIDs is free. */
  ghost predicate AsidsUsedUp(bitmap: seq<nat>)
    requires |bitmap| == NASID / 32
  {
    forall a: nat :: a < 256 ==> InUse(bitmap, a)
  }

  /** ASID `a` was the lowest free one in `was` and is the only one marked since. */
  ghost predicate LowestMarked(was: seq<nat>, now: seq<nat>, a: nat)
    requires |was| == NASID / 32
  {
    && |now| == NASID / 32 && a < NASID && !InUse(was, a)
    && (forall b: nat :: b < a ==> InUse(was, b))
    && (forall b: nat :: b < NASID ==> (InUse(now, b) <==> b == a || InUse(was, b)))
  }

  /**
   * What a new env starts from: its parent and no runs, user mode with interrupts on after sret (SPIE
   * and no other bit of sstatus), and a stack of which the top 12 bytes are taken.
   */
  ghost predicate Fresh(x: Env, parent: nat) {
    && x.parent == parent && x.runs == 0 && x.status == RUNNABLE
    && (forall k: nat :: Bit(x.sstatus, k) <==> k == 5)
    && x.sp == 0x7FFF_F000 - 12
  }

  /** From `t` to `u` slot `e`, the first free one, became a new env; no other env changed. */
  ghost predicate Handed(t: EnvState, u: EnvState, e: nat, parent: nat)
    requires |t.bitmap| == NASID / 32
  {
    && t.free == [e] + u.free && u.gen == (t.gen + 1) % U32
    && |u.envs| == |t.envs| && e < |u.envs| && Fresh(u.envs[e], parent)
    && u.envs[e].id % 2048 == e && u.envs[e].id / 2048 == u.gen % GENERATIONS
    && LowestMarked(t.bitmap, u.bitmap, u.envs[e].asid)
    && forall f :: 0 <= f < |t.envs| && f != e ==> u.envs[f] == t.envs[f]
  }

  lemma SpieBit(k: nat)
    ensures Bit(SSTATUS_SPIE, k) <==> k == 5
  {
    ZeroBit(5);
    ZeroBit(k);
    AddBit(0, 5, k);
    assert Pow2(5) == 32;
  }

  lemma NewIsFresh(id: nat, a: nat, parent: nat)
    ensures Fresh(Env(id, a, parent, RUNNABLE, 0, SSTATUS_SPIE, USTACKTOP - ARGS), parent)
  {
    forall k: nat ensures Bit(SSTATUS_SPIE, k) <==> k == 5 { SpieBit(k); }
  }

  lemma MarkedIs(was: seq<nat>, a: nat)
    requires |was| == NASID / 32 && FirstFree(was, 0) == Some(a)
    ensures LowestMarked(was, Mark(was, a), a)
  {
    forall b: nat | b < NASID ensures InUse(Mark(was, a), b) <==> b == a || InUse(was, b) {
      MarkRead(was, a, b);
    }
  }

  lemma NoneFree(bitmap: seq<nat>)
    requires |bitmap| == NASID / 32
    ensures AsidsUsedUp(bitmap) <==> FirstFree(bitmap, 0) == None
  {
    hide InUse;
  }

  lemma AllocHands(t: EnvState, parent: nat, a: nat)
    requires |t.bitmap| == NASID / 32 && t.free != [] && t.free[0] <= NENV < |t.envs| && FirstFree(t.bitmap, 0) == Some(a)
    ensures Alloc(t, true, parent).1 == 0 && Handed(t, Alloc(t, true, parent).0, t.free[0], parent)
  {
    hide FirstFree, Mark, EnvId, Fresh, LowestMarked;
    var e, gen := t.free[0], (t.gen + 1) % U32;
    EnvIdAlways(gen, e);
    MarkedIs(t.bitmap, a);
    NewIsFresh(EnvId(gen, e), a, parent);
    assert t.free == [e] + t.free[1..];
  }

  /** The three outcomes of env_alloc. */
  lemma AllocCases(t: EnvState, vmOk: bool, parent: nat)
    requires Sound(t)
    ensures |t.bitmap| == NASID / 32 && t.free != [] && t.free[0] <= NENV < |t.envs|
    ensures var (u, r) := Alloc(t, vmOk, parent);
            if !vmOk then r == -4 && u == t
            else if AsidsUsedUp(t.bitmap) then
              && r == -6 && u.free == t.free && u.bitmap == t.bitmap
              && |u.envs| == |t.envs| && forall f :: 0 <= f < |t.envs| && f != t.free[0] ==> u.envs[f] == t.envs[f]
            else r == 0 && Handed(t, u, t.free[0], parent)
  {
    hide Ok, EnvId, FirstFree, Mark, AsidsUsedUp, Handed;
    var m :| Ok(t, m);
    NeverEmpty(t, m);
    OkWidths(t, m);
    NoneFree(t.bitmap);
    if vmOk && !AsidsUsedUp(t.bitmap) { AllocHands(t, parent, FirstFree(t.bitmap, 0).value); }
  }

  // ----- the table as the kernel updates it ------------------------------------------------

  class Envs {
    var free: seq<nat>
    var envs: seq<Env>
    var bitmap: seq<nat>
    var gen: nat

    ghost function View(): EnvState
      reads this
    {
      EnvState(free, envs, bitmap, gen)
    }

    /** The statics at boot are all zero. */
    constructor ()
      ensures |envs| == NENV + 1 && (forall e :: 0 <= e <= NENV ==> envs[e] == UNUSED)
      ensures bitmap == seq(NASID / 32, _ => 0) && gen == 0
    {
      free := [];
      envs := seq(NENV + 1, _ => UNUSED);
      bitmap := seq(NASID / 32, _ => 0);
      gen := 0;
    }

    /** env_init: the loop runs from NENV down to 0, one slot more than there are envs. */
    method EnvInit()
      modifies this`free
      ensures free == From(0)
    {
      free := [];
      var i: int := NENV;
      while i >= 0
        invariant -1 <= i <= NENV && free == From(i + 1)
      {
        free := [i] + free;
        i := i - 1;
      }
    }

    method AsidAlloc() returns (r: int, asid: nat)
      requires |bitmap| == NASID / 32
      modifies this`bitmap
      ensures match FirstFree(old(bitmap), 0)
              case None => r == -E_NO_FREE_ENV && bitmap == old(bitmap)
              case Some(a) => r == 0 && asid == a && bitmap == Mark(old(bitmap), a)
    {
      var i := 0;
      while i < NASID
        invariant i <= NASID && bitmap == old(bitmap)
        invariant FirstFree(bitmap, 0) == FirstFree(bitmap, i)
      {
        var index, inner := i / 32, i % 32;
        if !Bit(bitmap[index], inner) {
          bitmap := bitmap[index := PutBit(bitmap[index], inner, true)];
          return 0, i;
        }
        i := i + 1;
      }
      return -E_NO_FREE_ENV, 0;
    }

    method AsidFree(i: nat)
      requires |bitmap| == NASID / 32 && i < NASID
      modifies this`bitmap
      ensures bitmap == Unmark(old(bitmap), i)
    {
      var index, inner := i / 32, i % 32;
      bitmap := bitmap[index := PutBit(bitmap[index], inner, false)];
    }

    method Mkenvid(e: nat) returns (id: nat)
      requires e <= NENV
      modifies this`gen
      ensures gen == (old(gen) + 1) % U32 && id == EnvId(gen, e)
    {
      gen := (gen + 1) % U32;
      return gen * 2048 % U32 + e;
    }

    /** env_alloc as env_create uses it; on success the env is marked runnable. */
    method EnvAlloc(vmOk: bool, parent: nat) returns (r: int, newEnv: nat)
      requires Sound(View())
      modifies this
      ensures !vmOk ==> r == -4 && View() == old(View())
      ensures vmOk && old(AsidsUsedUp(bitmap)) ==>
                && r == -6 && free == old(free) && bitmap == old(bitmap) && |envs| == |old(envs)|
                && forall f :: 0 <= f < |envs| && f != free[0] ==> envs[f] == old(envs)[f]
      ensures vmOk && !old(AsidsUsedUp(bitmap)) ==> r == 0 && Handed(old(View()), View(), newEnv, parent)
      ensures Defined(old(View()), AllocOp(vmOk, parent))
      ensures View() == Alloc(old(View()), vmOk, parent).0 && r == Alloc(old(View()), vmOk, parent).1
      ensures r == 0 ==> newEnv == old(free)[0]
      ensures Sound(View())
    {
      hide Sound, Legal, Mark, EnvId, FirstFree, Handed, AsidsUsedUp;
      ghost var t := View();
      AllocCases(t, vmOk, parent);
      LegalAlloc(t, vmOk, parent);
      SoundIsDefined(t, AllocOp(vmOk, parent));
      StepIsSound(t, AllocOp(vmOk, parent));
      newEnv := 0;
      if free == [] {
        r := -E_NO_FREE_ENV;
        return;
      }
      var e := free[0];
      if !vmOk {
        return -E_NO_MEM, e;
      }
      var id := Mkenvid(e);
      envs := envs[e := envs[e].(runs := 0)];
      envs := envs[e := envs[e].(id := id)];
      var o, asid := AsidAlloc();
      if o != 0 {
        return o, e;
      }
      envs := envs[e := envs[e].(asid := asid, parent := parent)];
      envs := envs[e := envs[e].(sstatus := SSTATUS_SPIE, sp := USTACKTOP - ARGS)];
      envs := envs[e := envs[e].(status := RUNNABLE)];
      free := free[1..];
      assert envs == t.envs[e := Env(id, asid, parent, RUNNABLE, 0, SSTATUS_SPIE, USTACKTOP - ARGS)];
      return 0, e;
    }

    /** env_free after its VM teardown. */
    method EnvFree(e: nat)
      requires Sound(View()) && Live(View(), e)
      modifies this
      ensures free == [e] + old(free) && gen == old(gen) && envs == old(envs)[e := old(envs)[e].(status := FREE)]
      ensures |old(bitmap)| == |bitmap| == NASID / 32
      ensures forall a: nat :: a < NASID ==> (InUse(bitmap, a) <==> a != envs[e].asid && InUse(old(bitmap), a))
      ensures Defined(old(View()), FreeOp(e)) && View() == Free(old(View()), e) && Sound(View())
    {
      hide Sound, Live, InUse, Unmark;
      SoundIsDefined(View(), FreeOp(e));
      StepIsSound(View(), FreeOp(e));
      ghost var a := envs[e].asid;
      forall b: nat | b < NASID ensures InUse(Unmark(bitmap, a), b) <==> b != a && InUse(bitmap, b) {
        MarkRead(bitmap, a, b);
      }
      AsidFree(envs[e].asid);
      envs := envs[e := envs[e].(status := FREE)];
      free := [e] + free;
    }

    /**
     * envid2env; None is -E_BAD_ENV, Some(p) success with *penv = p. With `checkperm` the env must
     * be the current one or its child, so there has to be a current env to compare with.
     */
    method Envid2env(envid: nat, curenv: Option<nat>, checkperm: bool) returns (r: Option<Option<nat>>)
      requires Sound(View()) && IdSlots(View())
      requires curenv.Some? ==> curenv.value < |envs|
      requires checkperm && envid != 0 ==> curenv.Some?
      ensures envid == 0 ==> r == Some(curenv)
      ensures envid != 0 ==>
                forall e: nat :: r == Some(Some(e)) <==>
                  && Live(View(), e) && envs[e].id == envid
                  && (checkperm ==> curenv == Some(e) || envs[e].parent == envs[curenv.value].id)
      ensures envid != 0 && r.Some? ==> r.value.Some?
    {
      if envid == 0 {
        return Some(curenv);
      }
      LookupExact(View(), envid);
      var e := envid % NENV;
      if envs[e].status == FREE || envs[e].id != envid {
        return None;
      }
      if checkperm {
        if !(Some(e) == curenv || envs[e].parent == envs[curenv.value].id) {
          return None;
        }
      }
      return Some(Some(e));
    }
  }
}
