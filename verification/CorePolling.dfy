/** Waiting for cores to be in one of some target states, while the cores go on running. */
module CorePolling {
  import opened Common

  type Core = (nat, nat, nat)
  type CpuState = nat

  /** The state of each core at each instant. */
  type History = (nat, Core) -> CpuState

  /** A core in a target state stays in that same state. */
  ghost predicate Sticky(history: History, cores: set<Core>, targets: set<CpuState>) {
    forall c, t, t' {:trigger history(t, c), history(t', c)} ::
      c in cores && t <= t' && history(t, c) in targets ==> history(t', c) == history(t, c)
  }

  ghost predicate AllIn(history: History, cores: set<Core>, targets: set<CpuState>, t: nat) {
    forall c :: c in cores ==> history(t, c) in targets
  }

  /** At some instant of an interval the core was in one of the states, or in none of them. */
  ghost predicate Once(history: History, c: Core, states: set<CpuState>, included: bool, from: nat, to: nat) {
    exists t: nat {:trigger history(t, c)} :: from <= t <= to && (history(t, c) in states) == included
  }

  /** From an instant on the core is in this state. */
  ghost predicate Stuck(history: History, c: Core, state: CpuState, from: nat) {
    forall t {:trigger history(t, c)} :: from <= t ==> history(t, c) == state
  }

  /** Each core was looked at once in the interval, and is among `found` if it was then in the states, or then not. */
  ghost predicate Observed(history: History, cores: set<Core>, found: set<Core>, states: set<CpuState>, included: bool,
                           from: nat, to: nat) {
    forall c :: c in cores ==> Once(history, c, states, included == (c in found), from, to)
  }

  lemma NothingObserved(history: History, states: set<CpuState>, included: bool, from: nat, to: nat)
    ensures Observed(history, {}, {}, states, included, from, to)
  {
  }

  lemma ObserveOne(history: History, cores: set<Core>, found: set<Core>, c: Core, states: set<CpuState>, included: bool,
                   from: nat, before: nat, now: nat)
    requires Observed(history, cores, found, states, included, from, before) && from <= before <= now
    requires c !in cores && found <= cores
    ensures var found' := if (history(now, c) in states) == included then found + {c} else found;
      Observed(history, cores + {c}, found', states, included, from, now)
  {
    forall d | d in cores ensures Once(history, d, states, included == (d in found), from, now) {
      var t: nat :| from <= t <= before && (history(t, d) in states) == (included == (d in found));
    }
  }

  /** No core can be missing when as many of the running cores as are listed are ready. */
  ghost predicate NoSlack(running: set<Core>, listed: set<Core>) {
    forall c :: c in listed ==> |running - {c}| < |listed|
  }

  /** It is enough that only listed cores run the application. */
  lemma OnlyListedCoresLeaveNoSlack(running: set<Core>, listed: set<Core>)
    requires running <= listed
    ensures NoSlack(running, listed)
  {
    forall c | c in listed ensures |running - {c}| < |listed| {
      SubsetSize(running - {c}, listed - {c});
    }
  }

  lemma {:induction false} SubsetSize(a: set<Core>, b: set<Core>)
    requires a <= b
    ensures |a| <= |b| && (|a| == |b| ==> a == b)
  {
    if a != {} {
      var c :| c in a;
      SubsetSize(a - {c}, b - {c});
    }
  }

  lemma EnoughMeansAll(running: set<Core>, listed: set<Core>, counted: set<Core>)
    requires NoSlack(running, listed) && counted <= running && |counted| >= |listed|
    ensures listed <= counted
  {
    forall c | c in listed ensures c in counted {
      if c !in counted {
        SubsetSize(counted, running - {c});
      }
    }
  }

  datatype Outcome = Ready | NotInState(offending: set<Core>) | StillPolling

  class Transceiver {
    const history: History
    const running: set<Core>       // the cores that run the application
    const delay: nat -> nat
    var now: nat
    var looks: nat

    constructor (history: History, running: set<Core>, delay: nat -> nat)
      ensures this.history == history && this.running == running && now == 0
    {
      this.history, this.running, this.delay, now, looks := history, running, delay, 0, 0;
    }

    /** Some time passes. */
    method Pass()
      modifies this`now, this`looks
      ensures old(now) <= now
    {
      now := now + delay(looks);
      looks := looks + 1;
    }

    /** How many running cores are in the state; each is looked at at an instant of its own. */
    method GetCoreStateCount(state: CpuState) returns (n: nat, ghost seen: set<Core>)
      modifies this`now, this`looks
      ensures old(now) <= now && n == |seen| && seen <= running
      ensures Observed(history, running, seen, {state}, true, old(now), now)
    {
      hide Observed;
      n, seen := 0, {};
      var rest := running;
      NothingObserved(history, {state}, true, now, now);
      assert running - rest == {};
      while rest != {}
        invariant old(now) <= now && n == |seen| && seen <= running - rest && rest <= running
        invariant Observed(history, running - rest, seen, {state}, true, old(now), now)
        decreases |rest|
      {
        var c :| c in rest;
        ghost var before := now;
        Pass();
        ObserveOne(history, running - rest, seen, c, {state}, true, old(now), before, now);
        if history(now, c) == state {
          n, seen := n + 1, seen + {c};
        }
        assert running - (rest - {c}) == running - rest + {c};
        rest := rest - {c};
      }
      assert running - rest == running;
    }

    /** The listed cores that are, or are not, in the states. */
    method GetCpuInfos(listed: set<Core>, states: set<CpuState>, included: bool) returns (found: set<Core>)
      modifies this`now, this`looks
      ensures old(now) <= now && found <= listed
      ensures Observed(history, listed, found, states, included, old(now), now)
    {
      hide Observed;
      found := {};
      var rest := listed;
      NothingObserved(history, states, included, now, now);
      assert listed - rest == {};
      while rest != {}
        invariant old(now) <= now && found <= listed - rest && rest <= listed
        invariant Observed(history, listed - rest, found, states, included, old(now), now)
        decreases |rest|
      {
        var c :| c in rest;
        ghost var before := now;
        Pass();
        ObserveOne(history, listed - rest, found, c, states, included, old(now), before, now);
        if (history(now, c) in states) == included {
          found := found + {c};
        }
        assert listed - (rest - {c}) == listed - rest + {c};
        rest := rest - {c};
      }
      assert listed - rest == listed;
    }

    /** The cores in any of the targets, counted state by state. */
    method CountReady(targets: set<CpuState>) returns (ready: nat, ghost counted: set<Core>)
      modifies this`now, this`looks
      ensures old(now) <= now
      ensures Sticky(history, running, targets) ==>
        && ready == |counted| && counted <= running && AllIn(history, counted, targets, now)
        && forall c :: c in running && history(old(now), c) in targets ==> c in counted
    {
      ready, counted := 0, {};
      var rest := targets;
      while rest != {}
        invariant old(now) <= now && rest <= targets
        invariant Sticky(history, running, targets) ==>
          && ready == |counted| && counted <= running && AllIn(history, counted, targets - rest, now)
          && forall c :: c in running && history(old(now), c) in targets - rest ==> c in counted
        decreases |rest|
      {
        hide Sticky, AllIn, Once, Observed;
        ghost var was, before := counted, now;
        var state :| state in rest;
        var n, seen := GetCoreStateCount(state);
        if Sticky(history, running, targets) {
          OneMoreState(history, running, targets, rest, state, counted, seen, old(now), before, now);
        }
        counted := counted + seen;
        ready := ready + n;
        rest := rest - {state};
      }
      assert targets - rest == targets;
    }

    /**
     * Poll until all listed cores are in a target state. `StillPolling` means that the
     * polls of this run, `budget` of them, are used up. The target states are gone through
     * once for the polls and once more for the final check; if they are not `reusable`,
     * as an iterator is not, they are then none.
     */
    method WaitForCoresToBeInState(listed: set<Core>, targets: set<CpuState>, reusable: bool,
                                   errorStates: set<CpuState>, timeout: Option<int>,
                                   countsBetweenFullCheck: int, budget: nat)
      returns (outcome: Outcome)
      modifies this`now, this`looks
      ensures old(now) <= now
      // soundness
      ensures outcome == Ready && Sticky(history, running + listed, targets) && NoSlack(running, listed) ==>
        AllIn(history, listed, targets, now)
      // a raise names cores that were in an error state, or in no target state
      ensures outcome.NotInState? ==> {} < outcome.offending <= listed
      ensures outcome.NotInState? && (reusable || timeout == None) ==>
        forall c :: c in outcome.offending ==>
          || Once(history, c, errorStates, true, old(now), now)
          || Once(history, c, targets, false, old(now), now)
      ensures outcome.NotInState? && (reusable || timeout == None) ==>
        targets !! errorStates && Sticky(history, running + listed, targets) ==>
          !AllIn(history, listed, targets, old(now))
      // without a timeout, error states are the only reason to raise
      ensures outcome.NotInState? && timeout == None ==>
        forall c :: c in outcome.offending ==> Once(history, c, errorStates, true, old(now), now)
      // with one, cores that are merely not ready are a reason only when the time is up
      ensures outcome.NotInState? && timeout.Some? && now < old(now) + timeout.value ==>
        forall c :: c in outcome.offending ==> Once(history, c, errorStates, true, old(now), now)
      // but it names every listed core if time is up and the states cannot be gone through again
      ensures outcome.NotInState? && !reusable ==>
        || outcome.offending == listed
        || forall c :: c in outcome.offending ==> Once(history, c, errorStates, true, old(now), now)
      ensures !reusable && listed != {} && timeout.Some? && timeout.value <= 0 ==> outcome == NotInState(listed)
      // as many ready cores as are listed end the wait at the first poll
      ensures timeout == None && budget > 0 && EnoughReady(listed, targets, old(now)) ==> outcome == Ready
      // listed cores that are all ready end it by the first full check, whatever the count says
      ensures timeout == None && budget > 0 && budget >= countsBetweenFullCheck && targets !! errorStates ==>
        Sticky(history, running + listed, targets) && AllIn(history, listed, targets, old(now)) ==> outcome == Ready
      // a listed core that runs and stays in an error state ends it at the first poll
      ensures timeout == None && budget > 0 && targets !! errorStates && Sound(listed, targets) ==>
        forall c, e :: Failed(listed, errorStates, c, e, old(now)) ==> outcome.NotInState?
    {
      hide Sticky, AllIn, Once, NoSlack, ReadyAt, Observed, Stuck;
      var ready: nat, tries, polls := 0, 0, 0;
      var start := now;
      NothingListed(history, listed, targets, now);
      FailedIsNotReady(history, listed, targets, errorStates, start, now);
      while true
        invariant start == old(now) <= now && polls <= budget
        invariant ready >= |listed| && Sound(listed, targets) ==> AllIn(history, listed, targets, now)
        invariant timeout == None && polls == 0 ==> now == start
        invariant timeout.Some? && timeout.value <= 0 ==> ready == 0 && polls == 0
        invariant timeout == None && polls > 0 && EnoughReady(listed, targets, start) ==> ready >= |listed|
        invariant Sticky(history, running + listed, targets) && AllIn(history, listed, targets, start) ==>
                    ready >= |listed| || (tries == polls && (polls == 0 || tries < countsBetweenFullCheck))
        invariant polls > 0 && targets !! errorStates && Sound(listed, targets) ==>
                    forall c, e :: !Failed(listed, errorStates, c, e, start)
        decreases budget - polls
      {
        if ready >= |listed| {
          break;
        }
        if timeout.Some? {
          Pass();
          if now >= start + timeout.value {
            break;
          }
        }
        if polls == budget {
          return StillPolling;
        }
        polls := polls + 1;

        // a poll: count the cores that are ready, state by state
        ghost var before, counted := now, {};
        ready, counted := CountReady(targets);
        Counted(history, running, listed, targets, counted, ready, before, now);
        FailedIsNotReady(history, listed, targets, errorStates, start, now);

        // too few: it may be that some have failed
        if ready < |listed| {
          StillStuck(history, start, now);
          var isError := AnyInState(errorStates);
          if isError {
            ghost var from := now;
            var errors := GetCpuInfos(listed, errorStates, true);
            FailedAreFound(history, listed, errors, errorStates, start, from, now);
            RaisedForErrors(history, listed, running + listed, targets, errorStates, errors, start, from, now);
            if |errors| > 0 {
              return NotInState(errors);
            }
          }

          // every so many polls without an error the listed cores are looked at one by one
          tries := tries + 1;
          if tries >= countsBetweenFullCheck {
            ghost var from := now;
            var inState := GetCpuInfos(listed, targets, true);
            FullCheck(history, listed, running + listed, targets, inState, from, now);
            ReadyAreFound(history, listed, running + listed, targets, inState, start, from, now);
            ready, tries := |inState|, 0;
          }
          if ready < |listed| {
            Pass();
          }
        }
      }

      // time is up: look at every listed core once more
      if ready < |listed| {
        ghost var from := now;
        var states := if reusable then targets else {};
        var notInState := GetCpuInfos(listed, states, false);
        if reusable {
          FinalCheck(history, listed, running + listed, targets, errorStates, notInState, start, from, now);
        } else {
          NoStatesFindAll(history, listed, notInState, from, now);
        }
        if |notInState| != 0 {
          return NotInState(notInState);
        }
      }
      return Ready;
    }

    ghost predicate Sound(listed: set<Core>, targets: set<CpuState>)
      reads this
    {
      Sticky(history, running + listed, targets) && NoSlack(running, listed)
    }

    ghost predicate EnoughReady(listed: set<Core>, targets: set<CpuState>, t: nat)
      reads this
    {
      Sticky(history, running, targets) && |ReadyAt(history, running, targets, t)| >= |listed|
    }

    ghost predicate Failed(listed: set<Core>, errorStates: set<CpuState>, c: Core, e: CpuState, from: nat)
      reads this
    {
      c in running && c in listed && e in errorStates && Stuck(history, c, e, from)
    }

    /** Whether any running core was in any of the states when they were counted. */
    method AnyInState(states: set<CpuState>) returns (any: bool)
      modifies this`now, this`looks
      ensures old(now) <= now
      ensures forall c, e :: c in running && e in states && Stuck(history, c, e, old(now)) ==> any
    {
      hide Stuck, Observed;
      any := false;
      var rest := states;
      while rest != {}
        invariant old(now) <= now
        invariant forall c, e :: c in running && e in states && e !in rest && Stuck(history, c, e, old(now)) ==> any
        decreases |rest|
      {
        ghost var before := now;
        var state :| state in rest;
        var n, seen := GetCoreStateCount(state);
        StuckAreSeen(history, running, seen, state, old(now), before, now);
        any := any || n > 0;
        rest := rest - {state};
      }
    }
  }

  function ReadyAt(history: History, cores: set<Core>, targets: set<CpuState>, t: nat): set<Core> {
    set c | c in cores && history(t, c) in targets
  }

  lemma NothingListed(history: History, listed: set<Core>, targets: set<CpuState>, t: nat)
    ensures |listed| == 0 ==> AllIn(history, listed, targets, t)
  {
  }

  /** The cores newly seen in a state were not counted for another. */
  lemma OneMoreState(history: History, running: set<Core>, targets: set<CpuState>, rest: set<CpuState>, state: CpuState,
                     counted: set<Core>, seen: set<Core>, start: nat, from: nat, to: nat)
    requires Sticky(history, running, targets) && state in rest && rest <= targets && start <= from <= to
    requires counted <= running && AllIn(history, counted, targets - rest, from)
    requires forall c :: c in running && history(start, c) in targets - rest ==> c in counted
    requires seen <= running && Observed(history, running, seen, {state}, true, from, to)
    ensures |counted + seen| == |counted| + |seen|
    ensures AllIn(history, counted + seen, targets - (rest - {state}), to)
    ensures forall c :: c in running && history(start, c) in targets - (rest - {state}) ==> c in counted + seen
  {
    forall c | c in seen ensures c !in counted && history(to, c) == state {
      assert Once(history, c, {state}, true, from, to);
      var t: nat :| from <= t <= to && (history(t, c) in {state}) == true;
    }
    assert counted !! seen;
    forall c | c in running && c !in seen ensures history(start, c) != state {
      var t: nat :| from <= t <= to && (history(t, c) in {state}) == false;
    }
  }

  lemma Counted(history: History, running: set<Core>, listed: set<Core>, targets: set<CpuState>, counted: set<Core>,
                ready: nat, from: nat, to: nat)
    requires Sticky(history, running, targets) ==>
      && ready == |counted| && counted <= running && AllIn(history, counted, targets, to)
      && forall c :: c in running && history(from, c) in targets ==> c in counted
    ensures Sticky(history, running + listed, targets) && NoSlack(running, listed) && ready >= |listed| ==>
      AllIn(history, listed, targets, to)
    ensures Sticky(history, running, targets) ==> ready >= |ReadyAt(history, running, targets, from)|
  {
    hide NoSlack;
    if Sticky(history, running + listed, targets) && NoSlack(running, listed) && ready >= |listed| {
      EnoughMeansAll(running, listed, counted);
    }
    if Sticky(history, running, targets) {
      SubsetSize(ReadyAt(history, running, targets, from), counted);
    }
  }

  lemma StuckAreSeen(history: History, running: set<Core>, seen: set<Core>, state: CpuState,
                     start: nat, from: nat, to: nat)
    requires Observed(history, running, seen, {state}, true, from, to) && start <= from
    ensures forall c :: c in running && Stuck(history, c, state, start) ==> c in seen
  {
    forall c | c in running && Stuck(history, c, state, start) ensures c in seen {
      assert Once(history, c, {state}, true == (c in seen), from, to);
    }
  }

  lemma StillStuck(history: History, from: nat, now: nat)
    requires from <= now
    ensures forall c, e :: Stuck(history, c, e, from) ==> Stuck(history, c, e, now)
  {
  }

  lemma FailedAreFound(history: History, listed: set<Core>, found: set<Core>, errorStates: set<CpuState>,
                       start: nat, from: nat, to: nat)
    requires Observed(history, listed, found, errorStates, true, from, to) && start <= from
    ensures forall c, e :: c in listed && e in errorStates && Stuck(history, c, e, start) ==> c in found
  {
    forall c, e | c in listed && e in errorStates && Stuck(history, c, e, start) ensures c in found {
      assert Once(history, c, errorStates, true == (c in found), from, to);
    }
  }

  lemma FailedIsNotReady(history: History, listed: set<Core>, targets: set<CpuState>, errorStates: set<CpuState>,
                         start: nat, now: nat)
    requires start <= now
    ensures targets !! errorStates && AllIn(history, listed, targets, now) ==>
      forall c, e :: c in listed && e in errorStates ==> !Stuck(history, c, e, start)
  {
  }

  lemma ReadyAreFound(history: History, listed: set<Core>, cores: set<Core>, targets: set<CpuState>, found: set<Core>,
                      start: nat, from: nat, to: nat)
    requires listed <= cores && found <= listed && start <= from
    requires Observed(history, listed, found, targets, true, from, to)
    ensures Sticky(history, cores, targets) && AllIn(history, listed, targets, start) ==> found == listed
  {
    if Sticky(history, cores, targets) && AllIn(history, listed, targets, start) {
      forall c | c in listed ensures c in found {
        assert Once(history, c, targets, true == (c in found), from, to);
        assert history(start, c) in targets;
      }
    }
  }

  lemma FullCheck(history: History, listed: set<Core>, cores: set<Core>, targets: set<CpuState>, found: set<Core>,
                  from: nat, to: nat)
    requires listed <= cores && found <= listed && from <= to
    requires Observed(history, listed, found, targets, true, from, to)
    ensures Sticky(history, cores, targets) && |found| >= |listed| ==> AllIn(history, listed, targets, to)
  {
    SubsetSize(found, listed);
    if Sticky(history, cores, targets) && |found| >= |listed| {
      forall c | c in listed ensures history(to, c) in targets {
        var t: nat :| from <= t <= to && (history(t, c) in targets) == true;
      }
    }
  }

  lemma RaisedForErrors(history: History, listed: set<Core>, cores: set<Core>, targets: set<CpuState>,
                        errorStates: set<CpuState>, errors: set<Core>, start: nat, from: nat, to: nat)
    requires listed <= cores && errors <= listed && start <= from <= to
    requires Observed(history, listed, errors, errorStates, true, from, to)
    ensures forall c :: c in errors ==> Once(history, c, errorStates, true, start, to)
    ensures errors != {} && targets !! errorStates && Sticky(history, cores, targets) ==>
      !AllIn(history, listed, targets, start)
  {
    forall c | c in errors
      ensures Once(history, c, errorStates, true, start, to)
      ensures targets !! errorStates && Sticky(history, cores, targets) ==> history(start, c) !in targets
    {
      var t: nat :| from <= t <= to && (history(t, c) in errorStates) == true;
      assert history(start, c) in targets && Sticky(history, cores, targets) ==> history(t, c) == history(start, c);
    }
  }

  /** Looking for cores in none of no states finds them all. */
  lemma NoStatesFindAll(history: History, listed: set<Core>, found: set<Core>, from: nat, to: nat)
    requires found <= listed && Observed(history, listed, found, {}, false, from, to)
    ensures found == listed && |found| == |listed|
  {
    forall c | c in listed ensures c in found {
      assert Once(history, c, {}, false == (c in found), from, to);
    }
  }

  lemma FinalCheck(history: History, listed: set<Core>, cores: set<Core>, targets: set<CpuState>,
                   errorStates: set<CpuState>, found: set<Core>, start: nat, from: nat, to: nat)
    requires listed <= cores && found <= listed && start <= from <= to
    requires Observed(history, listed, found, targets, false, from, to)
    ensures forall c :: c in found ==> Once(history, c, targets, false, start, to)
    ensures found != {} && Sticky(history, cores, targets) ==> !AllIn(history, listed, targets, start)
    ensures found == {} && Sticky(history, cores, targets) ==> AllIn(history, listed, targets, to)
  {
    forall c | c in found
      ensures Once(history, c, targets, false, start, to)
      ensures Sticky(history, cores, targets) ==> history(start, c) !in targets
    {
      var t: nat :| from <= t <= to && (history(t, c) in targets) == false;
      assert history(start, c) in targets && Sticky(history, cores, targets) ==> history(t, c) == history(start, c);
    }
    if found == {} && Sticky(history, cores, targets) {
      forall c | c in listed ensures history(to, c) in targets {
        var t: nat :| from <= t <= to && (history(t, c) in targets) == true;
      }
    }
  }

  /**
   * With slack the wait can be fooled: when every core but one listed core is ready
   * from the start, the count says that as many are ready as are listed.
   */
  method SlackFoolsTheWait(running: set<Core>, listed: set<Core>, missing: Core, target: CpuState,
                           errorStates: set<CpuState>, delay: nat -> nat)
    returns (t: Transceiver, outcome: Outcome)
    requires missing in listed && |running - {missing}| >= |listed|
    ensures fresh(t) && t.running == running && Sticky(t.history, running + listed, {target})
    ensures outcome == Ready && !AllIn(t.history, listed, {target}, t.now)
  {
    var history: History := (now: nat, c: Core) => if c == missing then target + 1 else target;
    t := new Transceiver(history, running, delay);
    assert ReadyAt(history, running, {target}, 0) == running - {missing};
    outcome := t.WaitForCoresToBeInState(listed, {target}, true, errorStates, None, 100, 1);
  }

  /** All listed cores are in the target state throughout, and yet all are reported when time is up. */
  method IteratorOfStatesRaises(listed: set<Core>, target: CpuState, errorStates: set<CpuState>, delay: nat -> nat)
    returns (t: Transceiver, outcome: Outcome)
    requires listed != {}
    ensures fresh(t) && t.running == listed && forall time: nat :: AllIn(t.history, listed, {target}, time)
    ensures outcome == NotInState(listed)
  {
    var history: History := (now: nat, c: Core) => target;
    t := new Transceiver(history, listed, delay);
    outcome := t.WaitForCoresToBeInState(listed, {target}, false, errorStates, Some(0), 100, 1);
  }
}
