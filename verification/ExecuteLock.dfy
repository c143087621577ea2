/**
 * The lock that keeps flood fills and single-chip executes apart, as a state
 * machine whose steps are the single actions of any number of threads.
 */
module ExecuteLock {
  import opened Common

  type Chip = (int, int)

  /** Where a thread is; the comments say which locks it has there. */
  datatype PC =
    | Idle
    // executing on a chip
    | WantTable(chip: Chip)
    | ReadTable(chip: Chip)   // condition
    | WantChip(chip: Chip)
    | WantCount(chip: Chip)   // chip
    | Counting(chip: Chip)    // chip, condition
    | Counted(chip: Chip)     // chip, condition; counter incremented
    | Executing(chip: Chip)   // chip
    | WantRelease(chip: Chip) // chip
    | Releasing(chip: Chip)   // chip, condition
    | Uncounting(chip: Chip)  // condition
    | Notifying(chip: Chip)   // condition; counter decremented
    | Leaving(chip: Chip)     // condition
    // flood filling
    | WantFlood
    | Checking                // condition
    | Sleeping                // waiting on the condition, not notified
    | Woken                   // notified, wants the condition back
    | Flooding                // condition
    | FloodDone               // condition

  /** `holder` has the lock of the condition; `chips` maps each held chip lock to its thread. */
  datatype State = State(threads: seq<PC>, holder: Option<nat>, chips: map<Chip, nat>, counter: int)

  function Start(n: nat): State {
    State(seq(n, i => Idle), None, map[], 0)
  }

  predicate HasCondition(pc: PC) {
    pc.ReadTable? || pc.Counting? || pc.Counted? || pc.Releasing? || pc.Uncounting? || pc.Notifying? || pc.Leaving?
    || pc.Checking? || pc.Flooding? || pc.FloodDone?
  }

  predicate HasChip(pc: PC) {
    pc.WantCount? || pc.Counting? || pc.Counted? || pc.Executing? || pc.WantRelease? || pc.Releasing?
  }

  predicate WantsCondition(pc: PC) {
    pc.WantTable? || pc.WantCount? || pc.WantRelease? || pc.WantFlood? || pc.Woken?
  }

  /** Between the increment and the decrement of the counter. */
  predicate IsCounted(pc: PC) {
    pc.Counted? || pc.Executing? || pc.WantRelease? || pc.Releasing? || pc.Uncounting?
  }

  // ---------------------------------------------------------------- steps

  datatype Action = ExecuteOn(chip: Chip) | FloodFill | Proceed

  predicate Enabled(s: State, t: nat, a: Action)
    requires t < |s.threads|
  {
    var pc := s.threads[t];
    if !a.Proceed? then pc.Idle?
    else if WantsCondition(pc) then s.holder.None?
    else if pc.WantChip? then pc.chip !in s.chips
    else !pc.Idle? && !pc.Sleeping?
  }

  function Move(s: State, t: nat, pc: PC): State
    requires t < |s.threads|
  {
    s.(threads := s.threads[t := pc])
  }

  function Acquire(s: State, t: nat): State { s.(holder := Some(t)) }
  function Release(s: State): State { s.(holder := None) }

  function NotifyAll(s: State): State {
    s.(threads := seq(|s.threads|, i requires 0 <= i < |s.threads| =>
         if s.threads[i].Sleeping? then Woken else s.threads[i]))
  }

  function Step(s: State, t: nat, a: Action): State
    requires t < |s.threads| && Enabled(s, t, a)
  {
    match a
    case ExecuteOn(chip) => Move(s, t, WantTable(chip))
    case FloodFill => Move(s, t, WantFlood)
    case Proceed =>
      match s.threads[t]
      case WantTable(c) => Move(Acquire(s, t), t, ReadTable(c))
      case ReadTable(c) => Move(Release(s), t, WantChip(c))
      case WantChip(c) => Move(s.(chips := s.chips[c := t]), t, WantCount(c))
      case WantCount(c) => Move(Acquire(s, t), t, Counting(c))
      case Counting(c) => Move(s.(counter := s.counter + 1), t, Counted(c))
      case Counted(c) => Move(Release(s), t, Executing(c))
      case Executing(c) => Move(s, t, WantRelease(c))
      case WantRelease(c) => Move(Acquire(s, t), t, Releasing(c))
      case Releasing(c) => Move(s.(chips := s.chips - {c}), t, Uncounting(c))
      case Uncounting(c) => Move(s.(counter := s.counter - 1), t, Notifying(c))
      case Notifying(c) => Move(NotifyAll(s), t, Leaving(c))
      case Leaving(_) => Move(Release(s), t, Idle)
      case WantFlood => Move(Acquire(s, t), t, Checking)
      case Checking => if s.counter < 1 then Move(s, t, Flooding) else Move(Release(s), t, Sleeping)
      case Woken => Move(Acquire(s, t), t, Checking)
      case Flooding => Move(s, t, FloodDone)
      case FloodDone => Move(Release(s), t, Idle)
  }

  // ---------------------------------------------------------------- invariant

  function CountedThreads(threads: seq<PC>): nat {
    if threads == [] then 0 else (if IsCounted(threads[0]) then 1 else 0) + CountedThreads(threads[1..])
  }

  /** The condition's lock is where the threads say it is. */
  ghost predicate ConditionOk(s: State) {
    && (forall t :: 0 <= t < |s.threads| ==> (HasCondition(s.threads[t]) <==> s.holder == Some(t)))
    && (s.holder.Some? ==> s.holder.value < |s.threads|)
  }

  /** So are the chip locks. */
  ghost predicate ChipsOk(s: State) {
    && (forall t :: 0 <= t < |s.threads| && HasChip(s.threads[t]) ==>
          s.threads[t].chip in s.chips && s.chips[s.threads[t].chip] == t)
    && (forall c :: c in s.chips ==>
          s.chips[c] < |s.threads| && HasChip(s.threads[s.chips[c]]) && s.threads[s.chips[c]].chip == c)
  }

  ghost predicate SomeoneNotifies(s: State) {
    s.holder.Some? && s.holder.value < |s.threads| && s.threads[s.holder.value].Notifying?
  }

  /** A flood runs only at count zero; one that sleeps un-notified has a notification coming. */
  ghost predicate FloodsOk(s: State) {
    && (forall t :: 0 <= t < |s.threads| && (s.threads[t].Flooding? || s.threads[t].FloodDone?) ==> s.counter == 0)
    && (forall t :: 0 <= t < |s.threads| && s.threads[t].Sleeping? ==> s.counter >= 1 || SomeoneNotifies(s))
  }

  ghost predicate Inv(s: State) {
    ConditionOk(s) && ChipsOk(s) && s.counter == CountedThreads(s.threads) && FloodsOk(s)
  }

  lemma {:induction false} CountedUpdate(threads: seq<PC>, t: nat, pc: PC)
    requires t < |threads|
    ensures CountedThreads(threads[t := pc]) + (if IsCounted(threads[t]) then 1 else 0)
            == CountedThreads(threads) + (if IsCounted(pc) then 1 else 0)
  {
    if t == 0 {
      assert threads[t := pc][1..] == threads[1..];
    } else {
      assert threads[t := pc][1..] == threads[1..][t - 1 := pc];
      CountedUpdate(threads[1..], t - 1, pc);
    }
  }

  lemma {:induction false} CountedAgree(a: seq<PC>, b: seq<PC>)
    requires |a| == |b| && forall i :: 0 <= i < |a| ==> (IsCounted(a[i]) <==> IsCounted(b[i]))
    ensures CountedThreads(a) == CountedThreads(b)
  {
    if a != [] {
      CountedAgree(a[1..], b[1..]);
    }
  }

  lemma {:induction false} CountedMember(threads: seq<PC>, t: nat)
    requires t < |threads| && IsCounted(threads[t])
    ensures CountedThreads(threads) >= 1
  {
    if t > 0 {
      CountedMember(threads[1..], t - 1);
    }
  }

  lemma {:induction false} CountedWitness(threads: seq<PC>) returns (t: nat)
    requires CountedThreads(threads) >= 1
    ensures t < |threads| && IsCounted(threads[t])
  {
    if IsCounted(threads[0]) {
      t := 0;
    } else {
      t := CountedWitness(threads[1..]);
      t := t + 1;
    }
  }

  lemma StepKeepsCondition(s: State, t: nat, a: Action)
    requires ConditionOk(s) && t < |s.threads| && Enabled(s, t, a)
    ensures ConditionOk(Step(s, t, a))
  {
  }

  /** A step that moves no chip lock. */
  lemma SameChips(s: State, s': State, t: nat)
    requires ChipsOk(s) && t < |s.threads| == |s'.threads| && s'.chips == s.chips
    requires HasChip(s'.threads[t]) <==> HasChip(s.threads[t])
    requires HasChip(s.threads[t]) ==> s'.threads[t].chip == s.threads[t].chip
    requires forall u :: 0 <= u < |s.threads| && u != t ==>
      s'.threads[u] == s.threads[u] || (!HasChip(s.threads[u]) && !HasChip(s'.threads[u]))
    ensures ChipsOk(s')
  {
  }

  lemma TakeChip(s: State, t: nat)
    requires ChipsOk(s) && t < |s.threads| && s.threads[t].WantChip? && s.threads[t].chip !in s.chips
    ensures ChipsOk(Step(s, t, Proceed))
  {
  }

  lemma DropChip(s: State, t: nat)
    requires ChipsOk(s) && t < |s.threads| && s.threads[t].Releasing?
    ensures ChipsOk(Step(s, t, Proceed))
  {
    var c := s.threads[t].chip;
    assert forall u :: 0 <= u < |s.threads| && u != t && HasChip(s.threads[u]) ==> s.threads[u].chip != c;
  }

  lemma StepKeepsChips(s: State, t: nat, a: Action)
    requires ChipsOk(s) && t < |s.threads| && Enabled(s, t, a)
    ensures ChipsOk(Step(s, t, a))
  {
    hide ChipsOk;
    if a.Proceed? && s.threads[t].WantChip? {
      TakeChip(s, t);
    } else if a.Proceed? && s.threads[t].Releasing? {
      DropChip(s, t);
    } else {
      SameChips(s, Step(s, t, a), t);
    }
  }

  lemma StepKeepsCount(s: State, t: nat, a: Action)
    requires s.counter == CountedThreads(s.threads) && t < |s.threads| && Enabled(s, t, a)
    ensures Step(s, t, a).counter == CountedThreads(Step(s, t, a).threads)
  {
    hide Step, CountedThreads;
    StepMovesOne(s, t, a);
    var pc := Step(s, t, a).threads[t];
    if a.Proceed? && s.threads[t].Notifying? {
      CountedAgree(s.threads, NotifyAll(s).threads);
      CountedUpdate(NotifyAll(s).threads, t, pc);
    } else {
      CountedUpdate(s.threads, t, pc);
    }
  }

  /** A step moves one thread, besides waking the sleepers, and moves the counter with it. */
  lemma StepMovesOne(s: State, t: nat, a: Action)
    requires t < |s.threads| && Enabled(s, t, a)
    ensures var s' := Step(s, t, a);
      && |s'.threads| == |s.threads|
      && s'.threads
         == (if a.Proceed? && s.threads[t].Notifying? then NotifyAll(s).threads else s.threads)[t := s'.threads[t]]
      && s'.counter + (if IsCounted(s.threads[t]) then 1 else 0)
         == s.counter + (if IsCounted(s'.threads[t]) then 1 else 0)
  {
  }

  /** A flood holds the condition, so that no other thread can move the counter. */
  lemma StepKeepsCounterFromFloods(s: State, t: nat, a: Action, u: nat)
    requires ConditionOk(s) && s.counter >= 0 && FloodsOk(s) && t < |s.threads| && u < |s.threads| && Enabled(s, t, a)
    requires var pc := Step(s, t, a).threads[u]; pc.Flooding? || pc.FloodDone?
    ensures Step(s, t, a).counter == 0
  {
    if u != t {
      StepMovesOne(s, t, a);
      assert s.threads[u] == Step(s, t, a).threads[u];
      assert s.holder == Some(u);
      assert !HasCondition(s.threads[t]);
    }
  }

  /** A sleeping flood is left asleep only by a step that leaves a counted thread or a notification coming. */
  lemma StepKeepsWakeUps(s: State, t: nat, a: Action, u: nat)
    requires ConditionOk(s) && s.counter >= 0 && FloodsOk(s) && t < |s.threads| && u < |s.threads| && Enabled(s, t, a)
    requires Step(s, t, a).threads[u].Sleeping?
    ensures Step(s, t, a).counter >= 1 || SomeoneNotifies(Step(s, t, a))
  {
    StepMovesOne(s, t, a);
    if u != t {
      assert !(a.Proceed? && s.threads[t].Notifying?);
      assert s.threads[u] == Step(s, t, a).threads[u];
    }
  }

  lemma StepKeepsFloods(s: State, t: nat, a: Action)
    requires ConditionOk(s) && s.counter >= 0 && FloodsOk(s) && t < |s.threads| && Enabled(s, t, a)
    ensures FloodsOk(Step(s, t, a))
  {
    hide ConditionOk, SomeoneNotifies, Step, Enabled;
    var s' := Step(s, t, a);
    StepKeepsThreads(s, t, a);
    forall u | 0 <= u < |s'.threads| && (s'.threads[u].Flooding? || s'.threads[u].FloodDone?) ensures s'.counter == 0 {
      StepKeepsCounterFromFloods(s, t, a, u);
    }
    forall u | 0 <= u < |s'.threads| && s'.threads[u].Sleeping? ensures s'.counter >= 1 || SomeoneNotifies(s') {
      StepKeepsWakeUps(s, t, a, u);
    }
  }

  lemma StepKeepsInv(s: State, t: nat, a: Action)
    requires Inv(s) && t < |s.threads| && Enabled(s, t, a)
    ensures Inv(Step(s, t, a))
  {
    hide ConditionOk, ChipsOk, FloodsOk, Step;
    StepKeepsCondition(s, t, a);
    StepKeepsChips(s, t, a);
    StepKeepsCount(s, t, a);
    StepKeepsFloods(s, t, a);
  }

  // ---------------------------------------------------------------- runs

  ghost predicate Run(s: State, actions: seq<(nat, Action)>, end: State)
    decreases |actions|
  {
    if actions == [] then s == end
    else
      var (t, a) := actions[0];
      t < |s.threads| && Enabled(s, t, a) && Run(Step(s, t, a), actions[1..], end)
  }

  lemma {:induction false} RunKeepsInv(s: State, actions: seq<(nat, Action)>, end: State)
    requires Inv(s) && Run(s, actions, end)
    ensures Inv(end) && |end.threads| == |s.threads|
    decreases |actions|
  {
    hide Inv, Step;
    if actions != [] {
      var (t, a) := actions[0];
      StepKeepsInv(s, t, a);
      StepKeepsThreads(s, t, a);
      RunKeepsInv(Step(s, t, a), actions[1..], end);
    }
  }

  lemma StepKeepsThreads(s: State, t: nat, a: Action)
    requires t < |s.threads| && Enabled(s, t, a)
    ensures |Step(s, t, a).threads| == |s.threads|
  {
  }

  lemma {:induction false} AllIdle(n: nat)
    ensures CountedThreads(Start(n).threads) == 0
  {
    if n > 0 {
      assert Start(n).threads[1..] == Start(n - 1).threads;
      AllIdle(n - 1);
    }
  }

  /**
   * In every state that any number of threads can reach: a flood overlaps no
   * execute and no other flood, a chip is executed on by at most one thread, the
   * counter is exact, and no sleeping flood has missed its wake-up.
   */
  lemma {:induction false} MutualExclusion(n: nat, actions: seq<(nat, Action)>, s: State, t: nat, u: nat)
    requires Run(Start(n), actions, s) && t < |s.threads| && u < |s.threads|
    ensures s.threads[t].Flooding? ==> !s.threads[u].Executing?
    ensures s.threads[t].Flooding? && s.threads[u].Flooding? ==> t == u
    ensures s.threads[t].Executing? && s.threads[u] == s.threads[t] ==> t == u
    ensures s.counter == CountedThreads(s.threads)
    ensures s.threads[t].Sleeping? ==> s.counter >= 1 || SomeoneNotifies(s)
  {
    AllIdle(n);
    RunKeepsInv(Start(n), actions, s);
    if s.threads[u].Executing? {
      CountedMember(s.threads, u);
    }
  }

  // ---------------------------------------------------------------- what was asked for is done

  /** How often thread `t` is asked for the operation. */
  function Asked(actions: seq<(nat, Action)>, t: nat, operation: Action): nat {
    if actions == [] then 0
    else (if actions[0] == (t, operation) then 1 else 0) + Asked(actions[1..], t, operation)
  }

  /** How often thread `t` comes to `pc` in the run. */
  ghost function Entered(s: State, actions: seq<(nat, Action)>, end: State, t: nat, pc: PC): nat
    requires Run(s, actions, end) && t < |s.threads|
    decreases |actions|
  {
    if actions == [] then 0
    else
      var (u, a) := actions[0];
      var s' := Step(s, u, a);
      StepKeepsThreads(s, u, a);
      (if s.threads[t] != pc && s'.threads[t] == pc then 1 else 0) + Entered(s', actions[1..], end, t, pc)
  }

  /** A flood has been asked for and has not yet begun. */
  predicate FloodPending(pc: PC) {
    pc == WantFlood || pc == Checking || pc == Sleeping || pc == Woken
  }

  /** An execute on the chip has been asked for and has not yet begun. */
  predicate ExecutePending(pc: PC, c: Chip) {
    pc == WantTable(c) || pc == ReadTable(c) || pc == WantChip(c) || pc == WantCount(c) || pc == Counting(c)
    || pc == Counted(c)
  }

  /** A step of one thread leaves another where it is, or wakes it. */
  lemma OtherThreads(s: State, u: nat, a: Action, t: nat)
    requires u < |s.threads| && Enabled(s, u, a) && t < |s.threads| && t != u
    ensures var s' := Step(s, u, a);
      t < |s'.threads| && (s'.threads[t] == s.threads[t] || (s.threads[t] == Sleeping && s'.threads[t] == Woken))
  {
    hide Step, Enabled;
    StepMovesOne(s, u, a);
  }

  lemma OwnFlood(s: State, t: nat, a: Action)
    requires t < |s.threads| && Enabled(s, t, a)
    ensures t < |Step(s, t, a).threads|
    ensures var (pc, pc') := (s.threads[t], Step(s, t, a).threads[t]);
      if a == FloodFill then !FloodPending(pc) && FloodPending(pc')
      else FloodPending(pc) <==> FloodPending(pc') || (pc != Flooding && pc' == Flooding)
  {
  }

  lemma OwnExecute(s: State, t: nat, a: Action, c: Chip)
    requires t < |s.threads| && Enabled(s, t, a)
    ensures t < |Step(s, t, a).threads|
    ensures var (pc, pc') := (s.threads[t], Step(s, t, a).threads[t]);
      if a == ExecuteOn(c) then !ExecutePending(pc, c) && ExecutePending(pc', c)
      else ExecutePending(pc, c) <==> ExecutePending(pc', c) || (pc != Executing(c) && pc' == Executing(c))
  {
  }

  lemma StepDoesFlood(s: State, u: nat, a: Action, t: nat)
    requires u < |s.threads| && Enabled(s, u, a) && t < |s.threads|
    ensures t < |Step(s, u, a).threads|
    ensures var (pc, pc') := (s.threads[t], Step(s, u, a).threads[t]);
      (if (u, a) == (t, FloodFill) then 1 else 0) + (if FloodPending(pc) then 1 else 0)
      == (if pc != Flooding && pc' == Flooding then 1 else 0) + if FloodPending(pc') then 1 else 0
  {
    hide Step, Enabled;
    if u == t {
      OwnFlood(s, t, a);
    } else {
      OtherThreads(s, u, a, t);
    }
  }

  lemma StepDoesExecute(s: State, u: nat, a: Action, t: nat, c: Chip)
    requires u < |s.threads| && Enabled(s, u, a) && t < |s.threads|
    ensures t < |Step(s, u, a).threads|
    ensures var (pc, pc') := (s.threads[t], Step(s, u, a).threads[t]);
      (if (u, a) == (t, ExecuteOn(c)) then 1 else 0) + (if ExecutePending(pc, c) then 1 else 0)
      == (if pc != Executing(c) && pc' == Executing(c) then 1 else 0) + if ExecutePending(pc', c) then 1 else 0
  {
    hide Step, Enabled;
    if u == t {
      OwnExecute(s, t, a, c);
    } else {
      OtherThreads(s, u, a, t);
    }
  }

  lemma {:induction false} RunDoesFloods(s: State, actions: seq<(nat, Action)>, end: State, t: nat)
    requires Run(s, actions, end) && t < |s.threads|
    ensures t < |end.threads|
    ensures Asked(actions, t, FloodFill) + (if FloodPending(s.threads[t]) then 1 else 0)
            == Entered(s, actions, end, t, Flooding) + if FloodPending(end.threads[t]) then 1 else 0
    decreases |actions|
  {
    hide Step, Enabled, FloodPending;
    if actions != [] {
      var (u, a) := actions[0];
      StepDoesFlood(s, u, a, t);
      RunDoesFloods(Step(s, u, a), actions[1..], end, t);
    }
  }

  lemma {:induction false} RunDoesExecutes(s: State, actions: seq<(nat, Action)>, end: State, t: nat, c: Chip)
    requires Run(s, actions, end) && t < |s.threads|
    ensures t < |end.threads|
    ensures Asked(actions, t, ExecuteOn(c)) + (if ExecutePending(s.threads[t], c) then 1 else 0)
            == Entered(s, actions, end, t, Executing(c)) + if ExecutePending(end.threads[t], c) then 1 else 0
    decreases |actions|
  {
    hide Step, Enabled, ExecutePending;
    if actions != [] {
      var (u, a) := actions[0];
      StepDoesExecute(s, u, a, t, c);
      RunDoesExecutes(Step(s, u, a), actions[1..], end, t, c);
    }
  }

  /**
   * Over every run, a thread has flooded as often as it was asked to, and executed
   * on each chip as often as it was asked to, but for the one operation that it may
   * not have come to yet.
   */
  lemma {:induction false} EveryOperationIsDone(n: nat, actions: seq<(nat, Action)>, s: State, t: nat, c: Chip)
    requires Run(Start(n), actions, s) && t < n
    ensures t < |s.threads|
    ensures var pc := s.threads[t];
      Asked(actions, t, FloodFill)
      == Entered(Start(n), actions, s, t, Flooding)
         + if pc == WantFlood || pc == Checking || pc == Sleeping || pc == Woken then 1 else 0
    ensures var pc := s.threads[t];
      Asked(actions, t, ExecuteOn(c))
      == Entered(Start(n), actions, s, t, Executing(c))
         + if pc == WantTable(c) || pc == ReadTable(c) || pc == WantChip(c) || pc == WantCount(c)
              || pc == Counting(c) || pc == Counted(c) then 1 else 0
  {
    hide Step, Run, Asked, Entered;
    RunDoesFloods(Start(n), actions, s, t);
    RunDoesExecutes(Start(n), actions, s, t, c);
  }

  // ---------------------------------------------------------------- progress

  /** Some thread that is doing something can always proceed: no reachable state is a deadlock. */
  lemma NoDeadlock(s: State, t: nat) returns (u: nat)
    requires Inv(s) && t < |s.threads| && !s.threads[t].Idle?
    ensures u < |s.threads| && Enabled(s, u, Proceed)
  {
    if s.holder.Some? {
      u := s.holder.value;
    } else if s.threads[t].WantChip? && s.threads[t].chip in s.chips {
      u := s.chips[s.threads[t].chip];
    } else if s.threads[t].Sleeping? {
      u := CountedWitness(s.threads);
    } else {
      u := t;
    }
  }

  /** Actions left in the execute a thread is in. */
  function ExecuteWork(pc: PC): nat {
    match pc
    case WantTable(_) => 12 case ReadTable(_) => 11 case WantChip(_) => 10 case WantCount(_) => 9
    case Counting(_) => 8 case Counted(_) => 7 case Executing(_) => 6 case WantRelease(_) => 5
    case Releasing(_) => 4 case Uncounting(_) => 3 case Notifying(_) => 2 case Leaving(_) => 1
    case _ => 0
  }

  /** Actions left in the flood a thread is in, if it is not put to sleep again. */
  function FloodWork(pc: PC): nat {
    match pc
    case WantFlood => 5 case Woken => 4 case Checking => 3 case Flooding => 2 case FloodDone => 1
    case _ => 0
  }

  function TotalWork(threads: seq<PC>, work: PC -> nat): nat {
    if threads == [] then 0 else work(threads[0]) + TotalWork(threads[1..], work)
  }

  lemma {:induction false} WorkUpdate(threads: seq<PC>, t: nat, pc: PC, work: PC -> nat)
    requires t < |threads|
    ensures TotalWork(threads[t := pc], work) + work(threads[t]) == TotalWork(threads, work) + work(pc)
  {
    if t == 0 {
      assert threads[t := pc][1..] == threads[1..];
    } else {
      assert threads[t := pc][1..] == threads[1..][t - 1 := pc];
      WorkUpdate(threads[1..], t - 1, pc, work);
    }
  }

  lemma {:induction false} WorkAgree(a: seq<PC>, b: seq<PC>, work: PC -> nat)
    requires |a| == |b| && forall i :: 0 <= i < |a| ==> work(a[i]) == work(b[i])
    ensures TotalWork(a, work) == TotalWork(b, work)
  {
    if a != [] {
      WorkAgree(a[1..], b[1..], work);
    }
  }

  lemma {:induction false} WorkBound(threads: seq<PC>, work: PC -> nat, most: nat)
    requires forall i :: 0 <= i < |threads| ==> work(threads[i]) <= most
    ensures TotalWork(threads, work) <= |threads| * most
  {
    if threads != [] {
      WorkBound(threads[1..], work, most);
      assert |threads| * most == |threads[1..]| * most + most;
    }
  }

  /** An execute's step may wake every flood, so its work weighs more than all of theirs. */
  function Potential(s: State): nat {
    TotalWork(s.threads, ExecuteWork) * (5 * |s.threads| + 1) + TotalWork(s.threads, FloodWork)
  }

  lemma Heavier(e: nat, e': nat, f: nat, f': nat, n: nat)
    requires e' < e && f' <= 5 * n
    ensures e' * (5 * n + 1) + f' < e * (5 * n + 1) + f
  {
    assert (e' + 1) * (5 * n + 1) <= e * (5 * n + 1);
  }

  /** A step leaves its own thread less to do; only being woken gives a sleeping flood work again. */
  lemma ProceedingShrinks(s: State, t: nat)
    requires t < |s.threads| && Enabled(s, t, Proceed)
    ensures var (pc, pc') := (s.threads[t], Step(s, t, Proceed).threads[t]);
      && ExecuteWork(pc') + FloodWork(pc') < ExecuteWork(pc) + FloodWork(pc)
      && ExecuteWork(pc') <= ExecuteWork(pc) && FloodWork(pc') <= FloodWork(pc)
    ensures !s.threads[t].Notifying? ==>
      Step(s, t, Proceed).threads == s.threads[t := Step(s, t, Proceed).threads[t]]
    ensures s.threads[t].Notifying? ==>
      ExecuteWork(s.threads[t]) == 2
      && Step(s, t, Proceed).threads == NotifyAll(s).threads[t := Step(s, t, Proceed).threads[t]]
  {
  }

  lemma ProceedingSpends(s: State, t: nat)
    requires t < |s.threads| && Enabled(s, t, Proceed)
    ensures var (a, b) := (s.threads, Step(s, t, Proceed).threads);
      && |b| == |a|
      && (|| TotalWork(b, ExecuteWork) < TotalWork(a, ExecuteWork)
          || (TotalWork(b, ExecuteWork) == TotalWork(a, ExecuteWork)
              && TotalWork(b, FloodWork) < TotalWork(a, FloodWork)))
  {
    hide Step, Enabled, TotalWork;
    ProceedingShrinks(s, t);
    var pc, pc' := s.threads[t], Step(s, t, Proceed).threads[t];
    if pc.Notifying? {
      WorkAgree(s.threads, NotifyAll(s).threads, ExecuteWork);
      WorkUpdate(NotifyAll(s).threads, t, pc', ExecuteWork);
    } else {
      WorkUpdate(s.threads, t, pc', ExecuteWork);
      WorkUpdate(s.threads, t, pc', FloodWork);
    }
  }

  lemma ProceedingSpendsWork(s: State, t: nat)
    requires t < |s.threads| && Enabled(s, t, Proceed)
    ensures Potential(Step(s, t, Proceed)) < Potential(s)
  {
    hide Step, Enabled, TotalWork;
    var s' := Step(s, t, Proceed);
    ProceedingSpends(s, t);
    WorkBound(s'.threads, FloodWork, 5);
    if TotalWork(s'.threads, ExecuteWork) < TotalWork(s.threads, ExecuteWork) {
      Heavier(TotalWork(s.threads, ExecuteWork), TotalWork(s'.threads, ExecuteWork),
              TotalWork(s.threads, FloodWork), TotalWork(s'.threads, FloodWork), |s.threads|);
    }
  }

  /**
   * When no new operation starts, every run is finite, and one that can go no
   * further has completed every execute and every flood.
   */
  lemma {:induction false} EveryOperationCompletes(s: State, actions: seq<(nat, Action)>, end: State)
    requires Inv(s) && Run(s, actions, end)
    requires forall k :: 0 <= k < |actions| ==> actions[k].1 == Proceed
    ensures |actions| <= Potential(s)
    ensures (forall t :: 0 <= t < |end.threads| ==> !Enabled(end, t, Proceed)) ==>
              forall t :: 0 <= t < |end.threads| ==> end.threads[t].Idle?
    decreases |actions|
  {
    hide Inv, Step, Potential;
    if actions == [] {
      forall t | 0 <= t < |end.threads| && !end.threads[t].Idle?
        ensures exists u :: 0 <= u < |end.threads| && Enabled(end, u, Proceed)
      {
        var u := NoDeadlock(end, t);
      }
    } else {
      var (t, a) := actions[0];
      assert a == actions[0].1 == Proceed;
      ProceedingSpendsWork(s, t);
      StepKeepsInv(s, t, a);
      EveryOperationCompletes(Step(s, t, a), actions[1..], end);
    }
  }

  /** In a run that can go no further, every flood and every execute asked for has been done. */
  lemma {:induction false} RunsThatEndHaveDoneAll(n: nat, actions: seq<(nat, Action)>, end: State, t: nat, c: Chip)
    requires Run(Start(n), actions, end) && t < n
    requires forall u :: 0 <= u < |end.threads| ==> !Enabled(end, u, Proceed)
    ensures Entered(Start(n), actions, end, t, Flooding) == Asked(actions, t, FloodFill)
    ensures Entered(Start(n), actions, end, t, Executing(c)) == Asked(actions, t, ExecuteOn(c))
  {
    hide Step, Run, Asked, Entered;
    AllIdle(n);
    RunKeepsInv(Start(n), actions, end);
    EveryOperationIsDone(n, actions, end, t, c);
    if !end.threads[t].Idle? {
      var u := NoDeadlock(end, t);
    }
  }
}
