/** The token bucket, in real arithmetic, over any clock that does not run backwards. */
module TokenBucket {

  datatype Bucket = Bucket(capacity: real, rate: real, tokens: real, timestamp: real)

  function Min(a: real, b: real): real { if a < b then a else b }

  /** Tokens that arrive in a time. */
  function Gain(rate: real, time: real): real {
    rate * time
  }

  lemma GainAdds(rate: real, a: real, b: real)
    ensures Gain(rate, a) + Gain(rate, b) == Gain(rate, a + b)
  {
  }

  lemma GainIs(rate: real, time: real)
    ensures Gain(rate, time) == rate * time
    ensures Gain(rate, time) == 0.0 <==> rate == 0.0 || time == 0.0
  {
  }

  lemma GainIsNotNegative(rate: real, time: real)
    requires rate >= 0.0 && time >= 0.0
    ensures Gain(rate, time) >= 0.0
  {
  }

  /** Looking at the tokens refills the bucket; a full bucket does not look at the clock. */
  function Refill(b: Bucket, now: real): Bucket {
    if b.tokens < b.capacity then
      b.(tokens := Min(b.capacity, b.tokens + Gain(b.rate, now - b.timestamp)), timestamp := now)
    else b
  }

  /** One look at the bucket at a time, with the tokens then granted, or none. */
  datatype Step = Step(now: real, granted: real)

  function After(b: Bucket, s: Step): Bucket {
    var r := Refill(b, s.now);
    r.(tokens := r.tokens - s.granted)
  }

  function AfterAll(b: Bucket, steps: seq<Step>): Bucket {
    if steps == [] then b else After(AfterAll(b, steps[..|steps| - 1]), steps[|steps| - 1])
  }

  function Granted(steps: seq<Step>): real {
    if steps == [] then 0.0 else Granted(steps[..|steps| - 1]) + steps[|steps| - 1].granted
  }

  function LastTime(from: real, steps: seq<Step>): real {
    if steps == [] then from else steps[|steps| - 1].now
  }

  /** The steps follow each other in time, and each grants no more than there is. */
  ghost predicate RunOk(b: Bucket, from: real, steps: seq<Step>) {
    if steps == [] then true
    else
      var before, last := steps[..|steps| - 1], steps[|steps| - 1];
      && RunOk(b, from, before)
      && LastTime(from, before) <= last.now
      && 0.0 <= last.granted <= Refill(AfterAll(b, before), last.now).tokens
  }

  ghost predicate BucketOk(b: Bucket, now: real) {
    b.rate >= 0.0 && 0.0 <= b.tokens <= b.capacity && b.timestamp <= now
  }

  ghost predicate NoneNegative(steps: seq<Step>) {
    forall k :: 0 <= k < |steps| ==> steps[k].granted >= 0.0
  }

  /** What the bucket has to spare when it was full and its timestamp is old. */
  function Stale(b: Bucket, now: real): real {
    if b.tokens < b.capacity then 0.0 else Min(b.capacity, Gain(b.rate, now - b.timestamp))
  }

  lemma RefillFacts(b: Bucket, now: real)
    requires BucketOk(b, now)
    ensures BucketOk(Refill(b, now), now) && b.tokens <= Refill(b, now).tokens
    ensures Refill(b, now).capacity == b.capacity && Refill(b, now).rate == b.rate
  {
    GainIsNotNegative(b.rate, now - b.timestamp);
  }

  lemma {:induction false} RunKeepsBucketOk(b: Bucket, from: real, steps: seq<Step>)
    requires BucketOk(b, from) && RunOk(b, from, steps)
    ensures from <= LastTime(from, steps) && BucketOk(AfterAll(b, steps), LastTime(from, steps))
    ensures AfterAll(b, steps).capacity == b.capacity && AfterAll(b, steps).rate == b.rate
  {
    if steps != [] {
      var before := steps[..|steps| - 1];
      RunKeepsBucketOk(b, from, before);
      RefillFacts(AfterAll(b, before), steps[|steps| - 1].now);
    }
  }

  /** Nothing was refilled yet since the window opened, and nothing could be granted from a bucket that was not full. */
  ghost predicate Untouched(b: Bucket, steps: seq<Step>) {
    && AfterAll(b, steps) == b.(tokens := b.tokens - Granted(steps))
    && (b.tokens < b.capacity ==> Granted(steps) == 0.0)
  }

  /** What was granted and what is left are what the bucket and its refills explain. */
  ghost predicate Explained(b: Bucket, from: real, steps: seq<Step>) {
    var now := AfterAll(b, steps);
    && from <= now.timestamp
    && now.tokens + Granted(steps) <= b.capacity + Stale(b, from) + Gain(b.rate, now.timestamp - from)
  }

  lemma {:induction false} RunIsExplained(b: Bucket, from: real, steps: seq<Step>)
    requires BucketOk(b, from) && RunOk(b, from, steps)
    ensures 0.0 <= Granted(steps) && (Untouched(b, steps) || Explained(b, from, steps))
  {
    if steps != [] {
      var before, last := steps[..|steps| - 1], steps[|steps| - 1];
      RunIsExplained(b, from, before);
      RunKeepsBucketOk(b, from, before);
      if Explained(b, from, before) {
        StaysExplained(b, from, before, last);
      } else {
        BecomesExplained(b, from, before, last);
      }
      assert before + [last] == steps;
    }
  }

  lemma {:induction false} OneMore(b: Bucket, before: seq<Step>, last: Step)
    ensures AfterAll(b, before + [last]) == After(AfterAll(b, before), last)
    ensures Granted(before + [last]) == Granted(before) + last.granted
  {
    assert (before + [last])[..|before|] == before;
  }

  lemma {:induction false} StaysExplained(b: Bucket, from: real, before: seq<Step>, last: Step)
    requires Explained(b, from, before) && AfterAll(b, before).rate == b.rate
    requires BucketOk(AfterAll(b, before), last.now)
    ensures Explained(b, from, before + [last])
  {
    hide Gain;
    OneMore(b, before, last);
    var now := AfterAll(b, before);
    GainAdds(b.rate, now.timestamp - from, last.now - now.timestamp);
  }

  lemma {:induction false} BecomesExplained(b: Bucket, from: real, before: seq<Step>, last: Step)
    requires BucketOk(b, from) && Untouched(b, before) && 0.0 <= Granted(before)
    requires BucketOk(AfterAll(b, before), last.now) && from <= last.now
    requires 0.0 <= last.granted
    ensures Untouched(b, before + [last]) || Explained(b, from, before + [last])
  {
    hide Gain;
    OneMore(b, before, last);
    var now := AfterAll(b, before);
    GainAdds(b.rate, from - b.timestamp, last.now - from);
    GainIsNotNegative(b.rate, from - b.timestamp);
    GainIsNotNegative(b.rate, last.now - from);
  }

  /**
   * Tokens granted in any window are at most the capacity, what a long full bucket has
   * to spare (never more than another capacity), and the refill of the window.
   */
  lemma {:induction false} WindowBound(b: Bucket, from: real, steps: seq<Step>)
    requires BucketOk(b, from) && RunOk(b, from, steps)
    ensures var spare := if b.tokens < b.capacity then 0.0 else b.rate * (from - b.timestamp);
      Granted(steps) <= b.capacity + spare + b.rate * (LastTime(from, steps) - from)
    ensures Granted(steps) <= 2.0 * b.capacity + b.rate * (LastTime(from, steps) - from)
  {
    hide RunOk, Granted;
    WindowIsBounded(b, from, steps);
  }

  lemma {:induction false} WindowIsBounded(b: Bucket, from: real, steps: seq<Step>)
    requires BucketOk(b, from) && RunOk(b, from, steps)
    ensures Granted(steps) <= b.capacity + Stale(b, from) + Gain(b.rate, LastTime(from, steps) - from)
    ensures Granted(steps) <= 2.0 * b.capacity + Gain(b.rate, LastTime(from, steps) - from)
  {
    hide Gain;
    RunIsExplained(b, from, steps);
    RunKeepsBucketOk(b, from, steps);
    var now, end := AfterAll(b, steps), LastTime(from, steps);
    GainIsNotNegative(b.rate, end - from);
    GainIsNotNegative(b.rate, from - b.timestamp);
    if Explained(b, from, steps) {
      GainAdds(b.rate, now.timestamp - from, end - now.timestamp);
      GainIsNotNegative(b.rate, end - now.timestamp);
    }
  }

  /** Tokens granted since a bucket was made are at most the capacity and the refill since. */
  lemma {:induction false} SinceCreation(capacity: real, rate: real, made: real, steps: seq<Step>)
    requires capacity >= 0.0 && rate >= 0.0 && RunOk(Bucket(capacity, rate, capacity, made), made, steps)
    ensures Granted(steps) <= capacity + rate * (LastTime(made, steps) - made)
  {
    hide RunOk, Granted;
    WindowIsBounded(Bucket(capacity, rate, capacity, made), made, steps);
  }

  ghost predicate OneCapacityBound(b: Bucket, from: real) {
    forall steps :: RunOk(b, from, steps) ==>
      Granted(steps) <= b.capacity + b.rate * (LastTime(from, steps) - from)
  }

  lemma {:induction false} NothingToSpare(b: Bucket, from: real, steps: seq<Step>)
    requires BucketOk(b, from) && RunOk(b, from, steps)
    requires b.tokens < b.capacity || b.capacity == 0.0 || b.rate == 0.0 || from == b.timestamp
    ensures Granted(steps) <= b.capacity + b.rate * (LastTime(from, steps) - from)
  {
    hide Gain, Granted, RunOk;
    GainIs(b.rate, from - b.timestamp);
    GainIs(b.rate, LastTime(from, steps) - from);
    WindowIsBounded(b, from, steps);
    assert Stale(b, from) == 0.0;
  }

  /** The usual bound of one capacity holds in every window exactly when the bucket has nothing to spare. */
  lemma OneCapacityBoundIff(b: Bucket, from: real)
    requires BucketOk(b, from)
    ensures OneCapacityBound(b, from) <==>
            b.tokens < b.capacity || b.capacity == 0.0 || b.rate == 0.0 || from == b.timestamp
  {
    hide Gain, Granted, RunOk;
    GainIs(b.rate, from - b.timestamp);
    GainIsNotNegative(b.rate, from - b.timestamp);
    if b.tokens < b.capacity || b.capacity == 0.0 || b.rate == 0.0 || from == b.timestamp {
      forall steps | RunOk(b, from, steps)
        ensures Granted(steps) <= b.capacity + b.rate * (LastTime(from, steps) - from)
      {
        NothingToSpare(b, from, steps);
      }
    } else {
      var steps := TwoGrants(b, from);
      assert RunOk(b, from, steps);
      assert b.rate * (LastTime(from, steps) - from) == 0.0;
    }
  }

  /** A long full bucket gives its spare tokens and then, at once, its capacity. */
  lemma TwoGrants(b: Bucket, from: real) returns (steps: seq<Step>)
    requires BucketOk(b, from)
    ensures RunOk(b, from, steps) && LastTime(from, steps) == from
    ensures Granted(steps) == b.tokens + Stale(b, from) || b.tokens < b.capacity
  {
    hide Gain;
    GainIsNotNegative(b.rate, from - b.timestamp);
    steps := [];
    assert RunOk(b, from, steps);
    if b.tokens == b.capacity {
      var first, second := Step(from, Stale(b, from)), Step(from, b.capacity);
      OneMore(b, [], first);
      assert [] + [first] == [first] && [first][..0] == [];
      assert RunOk(b, from, [first]);
      OneMore(b, [first], second);
      steps := [first] + [second];
      assert steps[..1] == [first];
      assert Refill(AfterAll(b, [first]), from).tokens == b.capacity;
    }
  }

  // ---------------------------------------------------------------- the objects

  /** A clock: some time, given by `delay`, may go by whenever it is looked at. */
  class Clock {
    const delay: nat -> real
    var looks: nat
    var now: real

    constructor (delay: nat -> real, start: real)
      ensures now == start
    {
      this.delay, this.now, looks := delay, start, 0;
    }

    method Time() returns (t: real)
      modifies this
      ensures old(now) <= t == now
    {
      if delay(looks) > 0.0 {
        now := now + delay(looks);
      }
      looks := looks + 1;
      t := now;
    }

    /** A sleep is not cut short. */
    method Sleep(time: real)
      requires time >= 0.0
      modifies this
      ensures now >= old(now) + time
    {
      now := now + time;
    }
  }

  datatype Answer = Yes | No | Raised | Asleep

  class TokenBucket {
    const capacity: real
    const fillRate: real
    const clock: Clock
    var tokens: real
    var timestamp: real
    ghost const made: real
    ghost var steps: seq<Step>   // every look at the bucket since it was made

    function Current(): Bucket
      reads this
    {
      Bucket(capacity, fillRate, tokens, timestamp)
    }

    /** Neither capacity nor rate nor any grant was negative. */
    ghost predicate Ordinary()
      reads this
    {
      capacity >= 0.0 && fillRate >= 0.0 && NoneNegative(steps)
    }

    /** The fields are what the steps make of a full bucket; ordinary steps are a run as described above. */
    ghost predicate Valid()
      reads this, clock
    {
      && Current() == AfterAll(Bucket(capacity, fillRate, capacity, made), steps)
      && LastTime(made, steps) <= clock.now && timestamp <= clock.now
      && (Ordinary() ==>
            && RunOk(Bucket(capacity, fillRate, capacity, made), made, steps)
            && BucketOk(Current(), LastTime(made, steps)))
    }

    constructor (clock: Clock, tokens: real, fillRate: real)
      modifies clock
      ensures Valid() && steps == [] && this.clock == clock && capacity == tokens && this.fillRate == fillRate
    {
      this.clock, this.capacity, this.tokens, this.fillRate := clock, tokens, tokens, fillRate;
      steps := [];
      var now := clock.Time();
      timestamp := now;
      made := now;
    }

    /** The tokens property. */
    method Tokens() returns (r: real)
      requires Valid()
      modifies this`tokens, this`timestamp, this`steps, clock
      ensures Valid() && r == tokens && old(clock.now) <= clock.now
      ensures fillRate >= 0.0 ==> old(tokens) <= tokens
      ensures old(tokens) <= capacity ==> tokens <= capacity
      ensures old(steps) <= steps && Granted(steps) == Granted(old(steps))
      ensures Current() == Refill(old(Current()), clock.now)
      ensures old(tokens) < capacity ==>
        tokens == Min(capacity, old(tokens) + fillRate * (clock.now - old(timestamp))) && timestamp == clock.now
      ensures old(tokens) >= capacity ==> tokens == old(tokens) && timestamp == old(timestamp)
    {
      hide RunOk, AfterAll, Granted, NoneNegative;
      if tokens < capacity {
        var now := clock.Time();
        var delta := Gain(fillRate, now - timestamp);
        tokens := Min(capacity, tokens + delta);
        timestamp := now;
      }
      RefillBounds(old(Current()), clock.now);
      ghost var last := Step(clock.now, 0.0);
      OneMore(Bucket(capacity, fillRate, capacity, made), steps, last);
      StaysOrdinary(steps, last);
      if Ordinary() {
        RefillFacts(old(Current()), clock.now);
        RunGrows(Bucket(capacity, fillRate, capacity, made), made, steps, last);
      }
      steps := steps + [last];
      return tokens;
    }

    method Take(wanted: real)
      requires Valid() && wanted <= tokens && Refill(Current(), clock.now) == Current()
      modifies this`tokens, this`steps
      ensures Valid() && tokens == old(tokens) - wanted
      ensures old(steps) <= steps && Granted(steps) == Granted(old(steps)) + wanted
    {
      hide RunOk, AfterAll, Granted, Gain, NoneNegative;
      ghost var last := Step(clock.now, wanted);
      OneMore(Bucket(capacity, fillRate, capacity, made), steps, last);
      StaysOrdinary(steps, last);
      if Ordinary() && wanted >= 0.0 {
        RunGrows(Bucket(capacity, fillRate, capacity, made), made, steps, last);
      }
      tokens := tokens - wanted;
      steps := steps + [last];
    }

    /** Sleep for as long as it takes the deficit to arrive. */
    method SleepOff(wanted: real) returns (delay: real, now: real)
      requires Valid() && tokens < wanted && fillRate > 0.0
      modifies this`tokens, this`timestamp, this`steps, clock
      ensures Valid() && now == tokens && old(steps) <= steps && Granted(steps) == Granted(old(steps))
      ensures old(tokens) <= tokens && (old(tokens) <= capacity ==> tokens <= capacity)
      ensures delay == (wanted - old(tokens)) / fillRate > 0.0
      ensures wanted <= capacity ==> wanted <= now
    {
      hide RunOk, AfterAll, Granted, Refill, NoneNegative;
      var deficit := wanted - tokens;
      delay := deficit / fillRate;
      clock.Sleep(delay);
      now := Tokens();
      if wanted <= capacity {
        EnoughSleep(old(Current()), deficit, clock.now);
      }
    }

    /**
     * `Asleep` means that `patience` sleeps were not enough. Tokens are taken only with
     * the answer yes, and then exactly those asked for. `asleep` is the time slept in all.
     */
    method Consume(wanted: real, block: bool, patience: nat) returns (answer: Answer, slept: nat, asleep: real)
      requires Valid()
      modifies this`tokens, this`timestamp, this`steps, clock
      ensures Valid() && old(steps) <= steps
      ensures Granted(steps) == Granted(old(steps)) + if answer == Yes then wanted else 0.0
      ensures answer == No ==> tokens < wanted && (!block || fillRate < 0.0)
      ensures answer == Raised ==> block && fillRate <= 0.0 && tokens < wanted
      ensures answer == Asleep ==> block && slept == patience
      ensures answer == Yes && old(tokens) <= capacity ==> wanted <= capacity
      ensures !block ==> slept == 0 && (answer == Yes || answer == No)
      ensures block && wanted <= capacity && fillRate > 0.0 && patience > 0 ==> answer == Yes && slept <= 1
      ensures slept == 0 ==> asleep == 0.0
      ensures block && wanted <= capacity && fillRate > 0.0 && slept > 0 ==>
        0.0 < asleep <= (wanted - old(tokens)) / fillRate
    {
      hide RunOk, AfterAll, Granted, Refill, NoneNegative;
      slept, asleep := 0, 0.0;
      if block {
        var now := Tokens();
        while wanted > now
          invariant Valid() && old(steps) <= steps && now == tokens && slept <= patience
          invariant Granted(steps) == Granted(old(steps))
          invariant old(tokens) <= capacity ==> tokens <= capacity
          invariant wanted <= capacity ==> slept <= 1 && (slept == 1 ==> wanted <= now)
          invariant slept == 0 ==> asleep == 0.0
          invariant fillRate >= 0.0 ==> old(tokens) <= tokens
          invariant wanted <= capacity && slept == 1 ==>
            fillRate > 0.0 && 0.0 < asleep <= (wanted - old(tokens)) / fillRate
          decreases patience - slept
        {
          // no division by zero, no sleep for a negative time
          if fillRate <= 0.0 {
            return Raised, slept, asleep;
          }
          if slept == patience {
            return Asleep, slept, asleep;
          }
          ShortestSleep(wanted - tokens, wanted - old(tokens), fillRate);
          var delay;
          delay, now := SleepOff(wanted);
          slept, asleep := slept + 1, asleep + delay;
        }
      }
      label looking:
      var now := Tokens();
      RefillOnce(old@looking(Current()), clock.now);
      if wanted <= now {
        Take(wanted);
        return Yes, slept, asleep;
      }
      return No, slept, asleep;
    }
  }

  lemma RefillBounds(b: Bucket, now: real)
    requires b.timestamp <= now
    ensures b.rate >= 0.0 ==> b.tokens <= Refill(b, now).tokens
    ensures b.tokens <= b.capacity ==> Refill(b, now).tokens <= b.capacity
  {
    if b.rate >= 0.0 {
      GainIsNotNegative(b.rate, now - b.timestamp);
    }
  }

  lemma {:induction false} RunGrows(b: Bucket, from: real, steps: seq<Step>, last: Step)
    requires RunOk(b, from, steps) && LastTime(from, steps) <= last.now
    requires 0.0 <= last.granted <= Refill(AfterAll(b, steps), last.now).tokens
    ensures RunOk(b, from, steps + [last])
  {
    assert (steps + [last])[..|steps|] == steps;
  }

  lemma StaysOrdinary(steps: seq<Step>, last: Step)
    ensures NoneNegative(steps + [last]) <==> NoneNegative(steps) && last.granted >= 0.0
  {
    var all := steps + [last];
    assert all[|steps|] == last;
    assert forall k :: 0 <= k < |steps| ==> all[k] == steps[k];
  }

  lemma ShortestSleep(deficit: real, most: real, rate: real)
    requires 0.0 < deficit <= most && rate > 0.0
    ensures 0.0 < deficit / rate <= most / rate
  {
    assert most / rate - deficit / rate == (most - deficit) / rate;
  }

  lemma RefillOnce(b: Bucket, now: real)
    ensures Refill(Refill(b, now), now) == Refill(b, now)
  {
  }

  /** After sleeping off the deficit there are enough tokens, if the bucket can hold as many. */
  lemma EnoughSleep(b: Bucket, deficit: real, now: real)
    requires b.rate > 0.0 && deficit > 0.0 && b.tokens + deficit <= b.capacity
    requires now - b.timestamp >= deficit / b.rate
    ensures Refill(b, now).tokens >= b.tokens + deficit
  {
    var short := deficit / b.rate;
    assert Gain(b.rate, short) == deficit;
    GainAdds(b.rate, short, now - b.timestamp - short);
    GainIsNotNegative(b.rate, now - b.timestamp - short);
  }
}
