/** The weighted round-robin scheduler (kern/sched.c) with the parts of env_run and env_destroy it drives. */
module Sched {
  import opened Outcomes

  /** An env is named by its index in envs[]. */
  type EnvId = nat

  /**
   * What scheduling depends on: the run queue, who is runnable, the slices left, the current
   * env, how often each env was run, and the priorities.
   */
  datatype SchedState = SchedState(list: seq<EnvId>, runnable: set<EnvId>, count: int, cur: Option<EnvId>,
                 runs: map<EnvId, nat>, pri: map<EnvId, nat>)

  function Pri(s: SchedState, e: EnvId): nat { if e in s.pri then s.pri[e] else 0 }
  function Runs(s: SchedState, e: EnvId): nat { if e in s.runs then s.runs[e] else 0 }

  /** TAILQ_REMOVE */
  function Without(list: seq<EnvId>, e: EnvId): seq<EnvId> {
    if list == [] then []
    else if list[0] == e then list[1..]
    else [list[0]] + Without(list[1..], e)
  }

  /** env_run */
  function Run(s: SchedState, e: EnvId): Outcome<SchedState> {
    if e !in s.runnable then Panicked(NotRunnable)
    else Returned(s.(cur := Some(e), runs := s.runs[e := Runs(s, e) + 1]))
  }

  /** The queue from which a new env is picked: a runnable current env has gone to the tail. */
  function Rotated(s: SchedState): seq<EnvId> {
    if s.cur.Some? && s.cur.value in s.runnable then Without(s.list, s.cur.value) + [s.cur.value] else s.list
  }

  predicate PicksNew(s: SchedState, yielding: bool) {
    yielding || s.count == 0 || s.cur.None? || s.cur.value !in s.runnable
  }

  /** One call of schedule. */
  function Schedule(s: SchedState, yielding: bool): Outcome<SchedState> {
    if PicksNew(s, yielding) then
      var list := Rotated(s);
      if list == [] then Panicked(NoRunnable)
      else Run(s.(list := list, count := Pri(s, list[0]) - 1), list[0])
    else Run(s.(count := s.count - 1), s.cur.value)
  }

  /** The tail of env_create: the env becomes runnable, at the head of the queue. */
  function Created(s: SchedState, e: EnvId, priority: nat): SchedState {
    s.(list := [e] + s.list, runnable := s.runnable + {e}, pri := s.pri[e := priority], runs := s.runs[e := 0])
  }

  /** Envs have been created, none was scheduled yet. */
  ghost predicate Booting(s: SchedState) {
    && s.cur == None && s.count == 0
    && (forall i, j :: 0 <= i < j < |s.list| ==> s.list[i] != s.list[j])
    && (forall e :: e in s.runnable <==> e in s.list)
    && (forall e :: e in s.list ==> Pri(s, e) >= 1 && Runs(s, e) == 0)
  }

  lemma CreatedIsBooting(s: SchedState, e: EnvId, priority: nat)
    requires Booting(s) && e !in s.list && priority >= 1
    ensures Booting(Created(s, e, priority))
  {
  }

  /** Before any env is created; `count` is a static 0. */
  const Nothing: SchedState := SchedState([], {}, 0, None, map[], map[])

  /** A call of env_create: the env it got and the priority it was given. */
  datatype Creation = Creation(env: EnvId, priority: nat)

  /** The calls of env_create at boot, in order. */
  function Boot(made: seq<Creation>): SchedState {
    if made == [] then Nothing
    else
      var c := made[|made| - 1];
      Created(Boot(made[..|made| - 1]), c.env, c.priority)
  }

  /** env_create never hands out the same env twice, and priorities are at least 1. */
  ghost predicate Distinct(made: seq<Creation>) {
    && (forall i, j :: 0 <= i < j < |made| ==> made[i].env != made[j].env)
    && (forall i :: 0 <= i < |made| ==> made[i].priority >= 1)
  }

  /** In `s` the queue is the reverse of the order of creation, and each env has the priority given. */
  ghost predicate InOrder(s: SchedState, made: seq<Creation>) {
    && |s.list| == |made|
    && (forall i :: 0 <= i < |made| ==> s.list[i] == made[|made| - 1 - i].env)
    && (forall i :: 0 <= i < |made| ==> Pri(s, made[i].env) == made[i].priority)
  }

  lemma CreatedInOrder(s: SchedState, front: seq<Creation>, c: Creation)
    requires InOrder(s, front) && forall i :: 0 <= i < |front| ==> front[i].env != c.env
    ensures InOrder(Created(s, c.env, c.priority), front + [c])
  {
    var made := front + [c];
    assert forall i :: 0 <= i < |front| ==> made[i] == front[i];
  }

  lemma NotQueued(s: SchedState, front: seq<Creation>, e: EnvId)
    requires InOrder(s, front) && forall i :: 0 <= i < |front| ==> front[i].env != e
    ensures e !in s.list
  {
    forall i | 0 <= i < |s.list| ensures s.list[i] != e {
      assert s.list[i] == front[|front| - 1 - i].env;
    }
  }

  /** After any envs were created, the one created last heads the queue. */
  lemma {:induction false} BootOrder(made: seq<Creation>)
    requires Distinct(made)
    ensures Booting(Boot(made)) && InOrder(Boot(made), made)
  {
    hide Booting, InOrder, Created;
    if made == [] {
      NothingBooted();
    } else {
      var front, c := made[..|made| - 1], made[|made| - 1];
      BootOrder(front);
      NotQueued(Boot(front), front, c.env);
      CreatedIsBooting(Boot(front), c.env, c.priority);
      CreatedInOrder(Boot(front), front, c);
      assert front + [c] == made;
    }
  }

  lemma NothingBooted()
    ensures Booting(Boot([])) && InOrder(Boot([]), [])
  {
  }

  /** env_free's effect on scheduling: the env leaves the queue and is no longer runnable. */
  function Free(s: SchedState, e: EnvId): SchedState { s.(list := Without(s.list, e), runnable := s.runnable - {e}) }

  /** env_destroy; destroying the current env ends in schedule(1). */
  function Destroy(s: SchedState, e: EnvId): Outcome<SchedState> {
    var t := Free(s, e);
    if s.cur == Some(e) then Schedule(t.(cur := None), true) else Returned(t)
  }

  /** The scheduler as the kernel runs it, on globals updated in place. */
  class Scheduler {
    var list: seq<EnvId>
    var runnable: set<EnvId>
    var count: int
    var curenv: Option<EnvId>
    var runs: map<EnvId, nat>
    var pri: map<EnvId, nat>

    ghost function View(): SchedState
      reads this
    {
      SchedState(list, runnable, count, curenv, runs, pri)
    }

    /** At boot nothing has been scheduled; `count` is a static 0. */
    constructor ()
      ensures View() == Boot([]) && Booting(View())
    {
      list, runnable, count, curenv, runs, pri := [], {}, 0, None, map[], map[];
    }

    /** The tail of env_create: the env becomes runnable at the head of the queue, with no runs yet. */
    method Create(e: EnvId, priority: nat)
      requires e !in list
      modifies this
      ensures list == [e] + old(list) && runnable == old(runnable) + {e}
      ensures pri == old(pri)[e := priority] && runs == old(runs)[e := 0]
      ensures count == old(count) && curenv == old(curenv)
      ensures View() == Created(old(View()), e, priority)
      ensures old(Booting(View())) && priority >= 1 ==> Booting(View())
    {
      ghost var s := View();
      if Booting(s) && priority >= 1 { CreatedIsBooting(s, e, priority); }
      runs := runs[e := 0];
      pri := pri[e := priority];
      runnable := runnable + {e};
      list := [e] + list;
    }

    method EnvRun(e: EnvId) returns (r: Outcome<EnvId>)
      modifies this
      ensures e in old(runnable) ==>
                && r == Returned(e) && curenv == Some(e) && runs == old(runs)[e := Runs(old(View()), e) + 1]
                && list == old(list) && runnable == old(runnable) && count == old(count) && pri == old(pri)
      ensures e !in old(runnable) ==> r == Panicked(NotRunnable) && View() == old(View())
    {
      if e !in runnable {
        return Panicked(NotRunnable);
      }
      curenv := Some(e);
      runs := runs[e := (if e in runs then runs[e] else 0) + 1];
      return Returned(e);
    }

    /** schedule: a call that returns adds one run to the env it picks, and to no other. */
    method DoSchedule(yielding: bool) returns (r: Outcome<EnvId>)
      modifies this
      ensures match Schedule(old(View()), yielding)
              case Returned(s) => View() == s && r.Returned? && s.cur == Some(r.value)
              case Panicked(w) => r == Panicked(w)
      ensures r.Returned? ==>
                && curenv == Some(r.value) && runs == old(runs)[r.value := Runs(old(View()), r.value) + 1]
                && pri == old(pri) && runnable == old(runnable)
    {
      hide Without;
      var e := curenv;
      if yielding || count == 0 || e == None || e.value !in runnable {
        if e != None && e.value in runnable {
          list := Without(list, e.value);
          list := list + [e.value];
        }
        if list == [] {
          return Panicked(NoRunnable);
        }
        e := Some(list[0]);
        count := if list[0] in pri then pri[list[0]] else 0;
      }
      count := count - 1;
      r := EnvRun(e.value);
    }

    /**
     * env_destroy. The env, wherever it stands in the queue, leaves it and the order of the others
     * stays; if it was the current one, the next in the queue runs, as a call of schedule(1) leaves it.
     */
    method EnvDestroy(e: EnvId) returns (r: Outcome<()>)
      modifies this
      ensures forall i :: 0 <= i < |old(list)| && old(list)[i] == e && old(Ok(View())) ==>
                if |old(list)| == 1 && old(curenv) == Some(e) then r == Panicked(NoRunnable)
                else r.Returned? && Departed(old(View()), View(), e, i)
      ensures match Destroy(old(View()), e)
              case Returned(s) => r.Returned? && View() == s
              case Panicked(w) => r == Panicked(w)
    {
      hide Ok, Departed, Without, Schedule, PicksNew, Rotated;
      ghost var s := View();
      forall i | 0 <= i < |list| && list[i] == e && Ok(s)
        ensures if |list| == 1 && curenv == Some(e) then Destroy(s, e) == Panicked(NoRunnable)
                else Destroy(s, e).Returned? && Departed(s, Destroy(s, e).value, e, i)
      {
        DestroyCases(s, e, i);
      }
      runnable := runnable - {e};
      list := Without(list, e);
      if curenv == Some(e) {
        curenv := None;
        var o := DoSchedule(true);
        if o.Panicked? {
          return Panicked(o.why);
        }
      }
      return Returned(());
    }
  }

  // ----- exact weighted share --------------------------------------------------------------

  /** Envs created, none scheduled yet. */
  ghost predicate AtBoot(s: SchedState, envs: seq<EnvId>) {
    && s.list == envs != [] && s.cur == None && s.count == 0
    && (forall i, j :: 0 <= i < j < |envs| ==> envs[i] != envs[j])
    && (forall i :: 0 <= i < |envs| ==> envs[i] in s.runnable && Pri(s, envs[i]) >= 1 && Runs(s, envs[i]) == 0)
  }

  /** Sum of the first `i` priorities in queue order. */
  function Prefix(s: SchedState, envs: seq<EnvId>, i: nat): nat
    requires i <= |envs|
  {
    if i == 0 then 0 else Prefix(s, envs, i - 1) + Pri(s, envs[i - 1])
  }

  function Total(s: SchedState, envs: seq<EnvId>): nat { Prefix(s, envs, |envs|) }

  /** The queue when the env at index `i` is current. */
  function Turn(envs: seq<EnvId>, i: nat): seq<EnvId>
    requires i <= |envs|
  {
    envs[i..] + envs[..i]
  }

  /** The state in round `q`, when env `i` has just been given its slice number `o`. */
  ghost predicate At(s0: SchedState, envs: seq<EnvId>, s: SchedState, q: nat, i: nat, o: nat) {
    && i < |envs| && o < Pri(s0, envs[i])
    && s.list == Turn(envs, i) && s.cur == Some(envs[i]) && s.count == Pri(s0, envs[i]) - 1 - o
    && s.runnable == s0.runnable && s.pri == s0.pri
    && (forall j :: 0 <= j < |envs| ==>
          Runs(s, envs[j]) ==
            q * Pri(s0, envs[j]) + (if j < i then Pri(s0, envs[j]) else if j == i then o + 1 else 0))
  }

  /** `n` calls of schedule(0). */
  function Iterate(s: SchedState, n: nat): Outcome<SchedState> {
    if n == 0 then Returned(s)
    else
      match Iterate(s, n - 1)
      case Returned(t) => Schedule(t, false)
      case Panicked(w) => Panicked(w)
  }

  lemma TurnNext(envs: seq<EnvId>, i: nat)
    requires i < |envs|
    ensures Turn(envs, i)[0] == envs[i]
    ensures Without(Turn(envs, i), envs[i]) + [envs[i]] == if i + 1 < |envs| then Turn(envs, i + 1) else Turn(envs, 0)
  {
    var t := Turn(envs, i);
    assert t[1..] == envs[i + 1..] + envs[..i];
    assert envs[..i] + [envs[i]] == envs[..i + 1];
  }

  /** The same env gets its next slice. */
  lemma AtSlice(s0: SchedState, envs: seq<EnvId>, s: SchedState, q: nat, i: nat, o: nat)
    requires AtBoot(s0, envs) && At(s0, envs, s, q, i, o) && o + 1 < Pri(s0, envs[i])
    ensures Schedule(s, false).Returned? && At(s0, envs, Schedule(s, false).value, q, i, o + 1)
  {
    hide Rotated, Turn;
  }

  /** The next env of the round gets its first slice. */
  lemma AtTurn(s0: SchedState, envs: seq<EnvId>, s: SchedState, q: nat, i: nat, o: nat)
    requires AtBoot(s0, envs) && At(s0, envs, s, q, i, o) && o + 1 == Pri(s0, envs[i]) && i + 1 < |envs|
    ensures Schedule(s, false).Returned? && At(s0, envs, Schedule(s, false).value, q, i + 1, 0)
  {
    hide Turn;
    TurnNext(envs, i);
    TurnNext(envs, i + 1);
  }

  /** The first env gets the first slice of the next round. */
  lemma AtRound(s0: SchedState, envs: seq<EnvId>, s: SchedState, q: nat, o: nat)
    requires AtBoot(s0, envs) && At(s0, envs, s, q, |envs| - 1, o) && o + 1 == Pri(s0, envs[|envs| - 1])
    ensures Schedule(s, false).Returned? && At(s0, envs, Schedule(s, false).value, q + 1, 0, 0)
  {
    hide Turn;
    TurnNext(envs, |envs| - 1);
    TurnNext(envs, 0);
    RoundDone(s0, envs, q);
  }

  /** The successor of slice (q, i, o): the next slice of the same env, the next env, or the next round. */
  lemma AtNext(s0: SchedState, envs: seq<EnvId>, s: SchedState, q: nat, i: nat, o: nat) returns (q': nat, i': nat, o': nat)
    requires AtBoot(s0, envs) && At(s0, envs, s, q, i, o)
    ensures Schedule(s, false).Returned? && At(s0, envs, Schedule(s, false).value, q', i', o')
    ensures q' * Total(s0, envs) + Prefix(s0, envs, i') + o' == q * Total(s0, envs) + Prefix(s0, envs, i) + o + 1
  {
    hide Schedule, AtBoot;
    if o + 1 < Pri(s0, envs[i]) {
      AtSlice(s0, envs, s, q, i, o);
      return q, i, o + 1;
    } else if i + 1 < |envs| {
      AtTurn(s0, envs, s, q, i, o);
      return q, i + 1, 0;
    } else {
      AtRound(s0, envs, s, q, o);
      RoundDone(s0, envs, q);
      return q + 1, 0, 0;
    }
  }

  lemma RoundDone(s0: SchedState, envs: seq<EnvId>, q: nat)
    ensures (q + 1) * Total(s0, envs) == q * Total(s0, envs) + Total(s0, envs)
    ensures forall j :: 0 <= j < |envs| ==> (q + 1) * Pri(s0, envs[j]) == q * Pri(s0, envs[j]) + Pri(s0, envs[j])
  {
  }

  /**
   * Turns in list order, slices consecutive: the call number t (from 0) runs env `i`, where
   * t = q * Total + Prefix(i) + o: rounds of fixed length, and within a round each env in list
   * order for exactly its priority.
   */
  lemma {:induction false} TurnsInOrder(s0: SchedState, envs: seq<EnvId>, t: nat) returns (q: nat, i: nat, o: nat)
    requires AtBoot(s0, envs)
    ensures Iterate(s0, t + 1).Returned? && At(s0, envs, Iterate(s0, t + 1).value, q, i, o)
    ensures t == q * Total(s0, envs) + Prefix(s0, envs, i) + o
  {
    if t == 0 {
      assert Iterate(s0, 0) == Returned(s0);
      assert Turn(envs, 0) == envs;
      return 0, 0, 0;
    }
    q, i, o := TurnsInOrder(s0, envs, t - 1);
    q, i, o := AtNext(s0, envs, Iterate(s0, t).value, q, i, o);
  }

  /** Sum of the priorities of the `i` envs created last. */
  function LastPriorities(made: seq<Creation>, i: nat): nat
    requires i <= |made|
  {
    if i == 0 then 0 else LastPriorities(made, i - 1) + made[|made| - i].priority
  }

  lemma {:induction false} PrefixIsLast(s: SchedState, made: seq<Creation>, i: nat)
    requires i <= |made| == |s.list|
    requires forall j :: 0 <= j < |made| ==> s.list[j] == made[|made| - 1 - j].env
    requires forall j :: 0 <= j < |made| ==> Pri(s, made[j].env) == made[j].priority
    ensures Prefix(s, s.list, i) == LastPriorities(made, i)
  {
    if i > 0 { PrefixIsLast(s, made, i - 1); }
  }

  /**
   * From the start of the kernel: after the calls of env_create in `made`, call t+1 of schedule(0)
   * runs the env created i before the last one, for its slice number o of round q, where t is q
   * times the sum of all priorities, plus the priorities of the envs created after it, plus o.
   */
  lemma BootTurns(made: seq<Creation>, t: nat) returns (q: nat, i: nat, o: nat)
    requires Distinct(made) && made != []
    ensures i < |made| && o < made[|made| - 1 - i].priority
    ensures t == q * LastPriorities(made, |made|) + LastPriorities(made, i) + o
    ensures Iterate(Boot(made), t + 1).Returned?
    ensures Iterate(Boot(made), t + 1).value.cur == Some(made[|made| - 1 - i].env)
  {
    hide Boot, LastPriorities, Prefix, Iterate, Turn;
    var s := Boot(made);
    BootOrder(made);
    BootIsOk(s);
    q, i, o := TurnsInOrder(s, s.list, t);
    PrefixIsLast(s, made, i);
    PrefixIsLast(s, made, |made|);
  }

  /** In particular the env created last runs first. */
  lemma LastCreatedFirst(made: seq<Creation>)
    requires Distinct(made) && made != []
    ensures Schedule(Boot(made), false).Returned?
    ensures Schedule(Boot(made), false).value.cur == Some(made[|made| - 1].env)
  {
    hide Boot;
    BootOrder(made);
    BootIsOk(Boot(made));
    ScheduleCases(Boot(made), false);
  }

  lemma {:induction false} PrefixMonotone(s: SchedState, envs: seq<EnvId>, i: nat, j: nat)
    requires i <= j <= |envs|
    ensures Prefix(s, envs, i) <= Prefix(s, envs, j)
    decreases j - i
  {
    if i < j { PrefixMonotone(s, envs, i, j - 1); }
  }

  lemma DivUnique(total: nat, k: nat, q: nat, r: nat)
    requires k >= 1 && r < total && k * total - 1 == q * total + r
    ensures q == k - 1 && r == total - 1
  {
    var d := k - 1 - q;
    assert (k - 1) * total == q * total + d * total && k * total == (k - 1) * total + total;
    assert r == d * total + total - 1;
    assert d < 0 ==> d * total <= -1 * total;
    assert d > 0 ==> d * total >= total;
  }

  /** The only slice with nothing after it in its round is the last slice of the last env. */
  lemma LastSlice(s0: SchedState, envs: seq<EnvId>, i: nat, o: nat)
    requires AtBoot(s0, envs) && i < |envs| && o < Pri(s0, envs[i])
    ensures Prefix(s0, envs, i) + o < Total(s0, envs)
    ensures Prefix(s0, envs, i) + o == Total(s0, envs) - 1 ==> i == |envs| - 1 && o == Pri(s0, envs[i]) - 1
  {
    PrefixMonotone(s0, envs, i + 1, |envs|);
    if i + 1 < |envs| { PrefixMonotone(s0, envs, i + 2, |envs|); }
  }

  /** Exact weighted share: after k * Total calls every env has run exactly k times its priority. */
  lemma ExactShare(s0: SchedState, envs: seq<EnvId>, k: nat)
    requires AtBoot(s0, envs)
    ensures var r := Iterate(s0, k * Total(s0, envs));
            r.Returned? && forall j :: 0 <= j < |envs| ==> Runs(r.value, envs[j]) == k * Pri(s0, envs[j])
  {
    hide Schedule, Turn, Prefix;
    var total := Total(s0, envs);
    LastSlice(s0, envs, 0, 0);
    if k > 0 {
      assert k * total >= 1;
      var q, i, o := TurnsInOrder(s0, envs, k * total - 1);
      LastSlice(s0, envs, i, o);
      DivUnique(total, k, q, Prefix(s0, envs, i) + o);
      RoundDone(s0, envs, q);
    } else {
      assert k * total == 0;
    }
  }

  // ----- bounded waiting -------------------------------------------------------------------

  /** What happens to a running system: timer ticks, voluntary yields, and envs being destroyed. */
  datatype Op = Tick | Yield | Kill(e: EnvId)

  function Step(s: SchedState, op: Op): Outcome<SchedState> {
    match op
    case Tick => Schedule(s, false)
    case Yield => Schedule(s, true)
    case Kill(e) => Destroy(s, e)
  }

  /** The invariant once envs are created: the current env, if any, heads the queue. */
  ghost predicate Ok(s: SchedState) {
    && (forall i, j :: 0 <= i < j < |s.list| ==> s.list[i] != s.list[j])
    && (forall e :: e in s.runnable <==> e in s.list)
    && (forall e :: e in s.list ==> Pri(s, e) >= 1)
    && (s.cur.Some? ==> s.list != [] && s.cur.value == s.list[0] && s.count >= 0)
  }

  /** The base case: before the first schedule call the invariant holds, and the shares can be counted from there. */
  lemma BootIsOk(s: SchedState)
    requires Booting(s)
    ensures Ok(s) && (s.list != [] ==> AtBoot(s, s.list))
  {
  }

  ghost predicate Legal(s: SchedState, op: Op) { op.Kill? ==> op.e in s.runnable }

  lemma WithoutHead(list: seq<EnvId>)
    requires list != []
    ensures Without(list, list[0]) == list[1..]
  {
  }

  lemma {:induction false} WithoutAt(list: seq<EnvId>, i: nat)
    requires i < |list| && forall j :: 0 <= j < i ==> list[j] != list[i]
    ensures Without(list, list[i]) == list[..i] + list[i + 1..]
  {
    if i > 0 {
      var rest := list[1..];
      assert list[0] != list[i] && rest[i - 1] == list[i];
      assert forall j :: 0 <= j < i - 1 ==> rest[j] == list[j + 1];
      WithoutAt(rest, i - 1);
      assert list[..i] + list[i + 1..] == [list[0]] + (rest[..i - 1] + rest[i..]);
    }
  }

  lemma {:induction false} WithoutElems(list: seq<EnvId>, e: EnvId)
    requires forall i, j :: 0 <= i < j < |list| ==> list[i] != list[j]
    ensures var l := Without(list, e);
            && (forall x :: x in l <==> x in list && x != e)
            && (forall i, j :: 0 <= i < j < |l| ==> l[i] != l[j])
  {
    if list != [] {
      var rest := list[1..];
      assert forall i :: 0 <= i < |rest| ==> rest[i] == list[i + 1];
      assert list[0] !in rest;
      assert forall x :: x in list <==> x == list[0] || x in rest;
      WithoutElems(rest, e);
    }
  }

  /**
   * What a schedule call that returns does to a sound state: the env that heads the queue then is
   * current and has run once more, and no other. It is the old head with one slice less, or the
   * next in the queue with its priority less one if the old head has no slice left or yields.
   */
  ghost predicate Picked(s: SchedState, t: SchedState, yielding: bool) {
    && s.list != [] && t.list != [] && t.cur == Some(t.list[0]) && t.runnable == s.runnable && t.pri == s.pri
    && t.runs == s.runs[t.list[0] := Runs(s, t.list[0]) + 1]
    && (if s.cur.Some? && s.count != 0 && !yielding then t.list == s.list && t.count == s.count - 1
        else
          && t.list == (if s.cur.Some? then s.list[1..] + [s.list[0]] else s.list)
          && t.count == Pri(s, t.list[0]) - 1)
  }

  /** A schedule call on a sound state: either the same env goes on, or the next one in the queue starts. */
  lemma ScheduleCases(s: SchedState, yielding: bool)
    requires Ok(s)
    ensures s.list == [] <==> Schedule(s, yielding).Panicked?
    ensures s.list == [] ==> Schedule(s, yielding) == Panicked(NoRunnable)
    ensures s.list != [] ==> Ok(Schedule(s, yielding).value) && Picked(s, Schedule(s, yielding).value, yielding)
  {
    CurrentRuns(s);
    hide Ok, Schedule;
    NoneToPick(s, yielding);
    if s.list != [] {
      if PicksNew(s, yielding) { PickNew(s, yielding); } else { GoOn(s, yielding); }
    }
  }

  lemma CurrentRuns(s: SchedState)
    requires Ok(s)
    ensures s.cur.Some? ==> s.cur.value in s.runnable && s.list != [] && s.cur.value == s.list[0]
  {
  }

  lemma NoneToPick(s: SchedState, yielding: bool)
    requires Ok(s)
    ensures s.list == [] ==> Schedule(s, yielding) == Panicked(NoRunnable)
    ensures s.list != [] && s.cur.Some? ==> Rotated(s) == s.list[1..] + [s.list[0]]
    ensures s.cur.None? ==> Rotated(s) == s.list
  {
    if s.list != [] {
      WithoutHead(s.list);
      assert s.list[0] in s.list;
    }
  }

  lemma GoOn(s: SchedState, yielding: bool)
    requires Ok(s) && s.list != [] && !PicksNew(s, yielding)
    ensures Schedule(s, yielding).Returned?
    ensures var t := Schedule(s, yielding).value;
            && Ok(t) && t.runnable == s.runnable && t.pri == s.pri && t.list == s.list && t.cur == s.cur
            && t.count == s.count - 1 && s.cur.Some? && t.runs == s.runs[s.cur.value := Runs(s, s.cur.value) + 1]
  {
  }

  /** The state after a new env was picked. */
  ghost function PickedState(s: SchedState): SchedState
    requires s.list != []
  {
    var list := if s.cur.Some? then s.list[1..] + [s.list[0]] else s.list;
    s.(list := list, count := Pri(s, list[0]) - 1, cur := Some(list[0]), runs := s.runs[list[0] := Runs(s, list[0]) + 1])
  }

  lemma PickNew(s: SchedState, yielding: bool)
    requires Ok(s) && s.list != [] && PicksNew(s, yielding)
    ensures Schedule(s, yielding) == Returned(PickedState(s)) && Ok(PickedState(s))
  {
    PickIsOk(s);
    NoneToPick(s, yielding);
    hide Rotated, Without, PicksNew, Runs, Pri, Ok;
    assert Rotated(s)[0] in PickedState(s).runnable;
  }

  lemma PickIsOk(s: SchedState)
    requires Ok(s) && s.list != []
    ensures Ok(PickedState(s)) && PickedState(s).list[0] in s.runnable
  {
    hide Runs;
    RotatedSame(s.list);
    assert PickedState(s).list[0] in PickedState(s).list;
  }

  lemma RotatedSame(list: seq<EnvId>)
    requires list != []
    ensures forall x :: x in list[1..] + [list[0]] <==> x in list
  {
    assert list == [list[0]] + list[1..];
  }

  /** From `s` to `t` the env at index `i` of the queue left it; if it was current, the next one in the queue runs. */
  ghost predicate Departed(s: SchedState, t: SchedState, e: EnvId, i: nat)
    requires i < |s.list|
  {
    && t.list == s.list[..i] + s.list[i + 1..] && t.runnable == s.runnable - {e} && t.pri == s.pri
    && if s.cur != Some(e) then t.cur == s.cur && t.count == s.count && t.runs == s.runs
       else
         && t.list != [] && t.cur == Some(t.list[0]) && t.count == Pri(s, t.list[0]) - 1
         && t.runs == s.runs[t.list[0] := Runs(s, t.list[0]) + 1]
  }

  lemma DestroyCases(s: SchedState, e: EnvId, i: nat)
    requires Ok(s) && i < |s.list| && s.list[i] == e
    ensures if |s.list| == 1 && s.cur == Some(e) then Destroy(s, e) == Panicked(NoRunnable)
            else Destroy(s, e).Returned? && Departed(s, Destroy(s, e).value, e, i)
  {
    hide Without, Schedule, PicksNew, Rotated, Ok;
    AtMostOnce(s, i);
    WithoutAt(s.list, i);
    FreeKeepsOk(s, e);
    if s.cur == Some(e) { ScheduleCases(Free(s, e).(cur := None), true); }
  }

  lemma AtMostOnce(s: SchedState, i: nat)
    requires Ok(s) && i < |s.list|
    ensures s.list[i] in s.runnable && (forall j :: 0 <= j < i ==> s.list[j] != s.list[i])
    ensures s.cur == Some(s.list[i]) ==> i == 0
  {
    assert s.list[i] in s.list;
  }

  lemma OneRunnable(s: SchedState)
    requires Ok(s) && |s.list| == 1
    ensures |s.runnable| == 1
  {
    assert s.runnable == {s.list[0]};
  }

  /** schedule(1) never picks the current env again while another one is runnable. */
  lemma YieldMovesOn(s: SchedState)
    requires Ok(s) && s.cur.Some? && |s.runnable| > 1
    ensures Schedule(s, true).Returned? && Schedule(s, true).value.cur != s.cur
  {
    ScheduleCases(s, true);
    if |s.list| == 1 { OneRunnable(s); }
  }

  lemma FreeKeepsOk(s: SchedState, e: EnvId)
    requires Ok(s) && e in s.runnable
    ensures Ok(if s.cur == Some(e) then Free(s, e).(cur := None) else Free(s, e))
  {
    WithoutElems(s.list, e);
    if s.cur.Some? && s.cur.value != e { assert Free(s, e).list[0] == s.list[0]; }
  }

  /** The only panic of a step is that no env is runnable. */
  lemma StepPanics(s: SchedState, op: Op)
    requires Ok(s) && Legal(s, op)
    ensures Step(s, op).Panicked? ==> Step(s, op).why == NoRunnable
  {
    match op
    case Tick => OnlyNoRunnable(s, false);
    case Yield => OnlyNoRunnable(s, true);
    case Kill(e) =>
      FreeKeepsOk(s, e);
      if s.cur == Some(e) { OnlyNoRunnable(Free(s, e).(cur := None), true); }
  }

  lemma OnlyNoRunnable(s: SchedState, yielding: bool)
    requires Ok(s)
    ensures Schedule(s, yielding).Panicked? ==> Schedule(s, yielding).why == NoRunnable
  {
    NoneToPick(s, yielding);
    if s.list != [] {
      if PicksNew(s, yielding) { PickNew(s, yielding); } else { GoOn(s, yielding); }
    }
  }

  /** The current env is NULL or the head of the queue, after any step. */
  lemma StepKeepsOk(s: SchedState, op: Op)
    requires Ok(s) && Legal(s, op) && Step(s, op).Returned?
    ensures Ok(Step(s, op).value)
  {
    match op
    case Tick => ScheduleCases(s, false);
    case Yield => ScheduleCases(s, true);
    case Kill(e) =>
      FreeKeepsOk(s, e);
      if s.cur == Some(e) { ScheduleCases(Free(s, e).(cur := None), true); }
  }

  /** Priorities of the envs ahead of `e` in `list`. */
  function Ahead(s: SchedState, list: seq<EnvId>, e: EnvId): nat {
    if list == [] || list[0] == e then 0 else Pri(s, list[0]) + Ahead(s, list[1..], e)
  }

  /** A run of steps; it ends early when a step panics. */
  function RunAll(s: SchedState, ops: seq<Op>): Outcome<SchedState>
    decreases |ops|
  {
    if ops == [] then Returned(s)
    else
      match Step(s, ops[0])
      case Returned(t) => RunAll(t, ops[1..])
      case Panicked(w) => Panicked(w)
  }

  ghost predicate LegalRun(s: SchedState, ops: seq<Op>)
    decreases |ops|
  {
    ops == [] || (Legal(s, ops[0]) && (Step(s, ops[0]).Returned? ==> LegalRun(Step(s, ops[0]).value, ops[1..])))
  }

  lemma {:induction false} RunKeepsOk(s: SchedState, ops: seq<Op>)
    requires Ok(s) && LegalRun(s, ops)
    ensures RunAll(s, ops).Returned? ==> Ok(RunAll(s, ops).value)
    ensures RunAll(s, ops).Panicked? ==> RunAll(s, ops).why == NoRunnable
    decreases |ops|
  {
    hide Ok, Legal, Step;
    if ops != [] {
      StepPanics(s, ops[0]);
      if Step(s, ops[0]).Returned? {
        StepKeepsOk(s, ops[0]);
        RunKeepsOk(Step(s, ops[0]).value, ops[1..]);
      }
    }
  }

  /**
   * From boot, with any envs created, and over any run of schedule(0), schedule(1) and
   * env_destroy: the current env is NULL or heads the queue, which holds exactly the runnable
   * envs; the only panic is that there is none.
   */
  lemma CurrentHeadsQueue(s: SchedState, ops: seq<Op>)
    requires Booting(s) && LegalRun(s, ops)
    ensures match RunAll(s, ops)
            case Panicked(w) => w == NoRunnable
            case Returned(t) =>
              && (t.cur == None || (t.list != [] && t.cur == Some(t.list[0])))
              && (forall e :: e in t.runnable <==> e in t.list)
  {
    BootIsOk(s);
    RunKeepsOk(s, ops);
  }

  /** How many schedule calls a runnable env waits at most: 0 while it is current. */
  function Wait(s: SchedState, e: EnvId): int {
    if s.cur == Some(e) then 0
    else if s.cur.Some? && s.list != [] then s.count + Ahead(s, s.list[1..], e) + 1
    else Ahead(s, s.list, e) + 1
  }

  lemma {:induction false} AheadAppend(s: SchedState, list: seq<EnvId>, x: EnvId, e: EnvId)
    requires e in list
    ensures Ahead(s, list + [x], e) == Ahead(s, list, e)
  {
    if list[0] != e {
      assert (list + [x])[1..] == list[1..] + [x];
      AheadAppend(s, list[1..], x, e);
    }
  }

  lemma {:induction false} AheadSame(s: SchedState, t: SchedState, list: seq<EnvId>, e: EnvId)
    requires s.pri == t.pri
    ensures Ahead(s, list, e) == Ahead(t, list, e)
  {
    if list != [] && list[0] != e { AheadSame(s, t, list[1..], e); }
  }

  lemma {:induction false} AheadWithout(s: SchedState, list: seq<EnvId>, x: EnvId, e: EnvId)
    requires x != e
    ensures Ahead(s, Without(list, x), e) <= Ahead(s, list, e)
  {
    if list != [] && list[0] != e && list[0] != x {
      AheadWithout(s, list[1..], x, e);
      assert Without(list, x)[1..] == Without(list[1..], x);
    }
  }

  /** A schedule call brings a waiting env at least one call closer, or runs it. */
  lemma ScheduleProgress(s: SchedState, yielding: bool, e: EnvId)
    requires Ok(s) && e in s.runnable && s.cur != Some(e)
    ensures Schedule(s, yielding).Returned?
    ensures Wait(Schedule(s, yielding).value, e) < Wait(s, e)
  {
    ScheduleCases(s, yielding);
    var t := Schedule(s, yielding).value;
    if PicksNew(s, yielding) {
      if s.cur.Some? {
        var rest := s.list[1..];
        assert e in rest;
        AheadAppend(s, rest, s.list[0], e);
        AheadSame(s, t, t.list, e);
        assert t.list[0] == rest[0];
      } else {
        AheadSame(s, t, t.list, e);
      }
      AheadSame(s, t, t.list[1..], e);
    } else {
      AheadSame(s, t, t.list[1..], e);
    }
  }

  /** schedule calls made by one step. */
  function Calls(s: SchedState, op: Op): nat { if op.Kill? && s.cur != Some(op.e) then 0 else 1 }

  lemma StepProgress(s: SchedState, op: Op, e: EnvId)
    requires Ok(s) && Legal(s, op) && op != Kill(e) && e in s.runnable && s.cur != Some(e)
    ensures Step(s, op).Returned? && e in Step(s, op).value.runnable
    ensures Wait(Step(s, op).value, e) + Calls(s, op) <= Wait(s, e)
  {
    match op
    case Tick => ScheduleCases(s, false); ScheduleProgress(s, false, e);
    case Yield => ScheduleCases(s, true); ScheduleProgress(s, true, e);
    case Kill(x) =>
      FreeKeepsOk(s, x);
      WithoutHead(s.list);
      if s.cur == Some(x) {
        var t := Free(s, x).(cur := None);
        AheadSame(s, t, t.list, e);
        ScheduleCases(t, true);
        ScheduleProgress(t, true, e);
      } else {
        var t := Free(s, x);
        AheadWithout(s, s.list, x, e);
        AheadWithout(s, s.list[1..], x, e);
        AheadSame(s, t, t.list, e);
        if s.cur.Some? {
          assert t.list[1..] == Without(s.list[1..], x);
          AheadSame(s, t, t.list[1..], e);
        }
      }
  }

  /** Some state of the run from `s` over `ops` has `e` current. */
  predicate GetsToRun(s: SchedState, ops: seq<Op>, e: EnvId)
    decreases |ops|
  {
    s.cur == Some(e) || (ops != [] && Step(s, ops[0]).Returned? && GetsToRun(Step(s, ops[0]).value, ops[1..], e))
  }

  /** Every step of the run is legal and none destroys `e`. */
  predicate Spares(s: SchedState, ops: seq<Op>, e: EnvId)
    decreases |ops|
  {
    ops == [] ||
    (&& (ops[0].Kill? ==> ops[0].e in s.runnable && ops[0].e != e)
     && (Step(s, ops[0]).Returned? ==> Spares(Step(s, ops[0]).value, ops[1..], e)))
  }

  function TotalCalls(s: SchedState, ops: seq<Op>): nat
    decreases |ops|
  {
    if ops == [] then 0
    else Calls(s, ops[0]) + (if Step(s, ops[0]).Returned? then TotalCalls(Step(s, ops[0]).value, ops[1..]) else 0)
  }

  /**
   * Bounded waiting: over any mix of ticks, yields and destructions of other envs, a runnable env
   * gets to run by the time Wait many schedule calls have been made.
   */
  lemma {:induction false} BoundedWaiting(s: SchedState, ops: seq<Op>, e: EnvId)
    requires Ok(s) && e in s.runnable && Spares(s, ops, e) && TotalCalls(s, ops) >= Wait(s, e)
    ensures GetsToRun(s, ops, e)
    decreases |ops|
  {
    if s.cur != Some(e) && ops != [] {
      StepProgress(s, ops[0], e);
      StepKeepsOk(s, ops[0]);
      BoundedWaiting(Step(s, ops[0]).value, ops[1..], e);
    }
  }
}
