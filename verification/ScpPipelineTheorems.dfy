/** What the pipeline promises its callers, for every run and every behaviour of the link. */
module ScpPipelineTheorems {
  import opened Common
  import opened ScpPipeline
  import opened ScpPipelineInvariants

  // ---------------------------------------------------------------- runs

  datatype Call =
    | SendCall(issue: Issue, ready: bool, events: seq<Event>, sendRaises: bool)
    | FinishCall(events: seq<Event>)

  function Perform(p: Pipe, c: Call): Progress
    requires p.nChannels.Some? ==> p.waits.Some?
  {
    match c
    case SendCall(issue, ready, events, sendRaises) => Send(p, issue, ready, events, sendRaises)
    case FinishCall(events) => Finish(p, events)
  }

  /** The calls of one user in order; a call that has not ended is the last one. */
  ghost predicate Reachable(p: Pipe, calls: seq<Call>, q: Pipe)
    decreases |calls|
  {
    if calls == [] then p == q
    else
      && (p.nChannels.Some? ==> p.waits.Some?)
      && var r := Perform(p, calls[0]);
      if r.status.Returned? || r.status.Raised? then Reachable(r.pipe, calls[1..], q) else r.pipe == q
  }

  lemma PerformKeepsInv(p: Pipe, c: Call)
    requires Inv(p)
    ensures Inv(Perform(p, c).pipe)
  {
    match c
    case SendCall(issue, ready, events, sendRaises) => SendKeepsInv(p, issue, ready, events, sendRaises);
    case FinishCall(events) => RetrieveKeepsInv(p, 0, events);
  }

  lemma {:induction false} ReachableKeepsInv(p: Pipe, calls: seq<Call>, q: Pipe)
    requires Inv(p) && Reachable(p, calls, q)
    ensures Inv(q)
    decreases |calls|
  {
    if calls != [] {
      PerformKeepsInv(p, calls[0]);
      var r := Perform(p, calls[0]);
      if r.status.Returned? || r.status.Raised? {
        ReachableKeepsInv(r.pipe, calls[1..], q);
      }
    }
  }

  /**
   * Exactly one of: still live, overwritten by a reused number (both without
   * any callback so far), or settled once; and never sent more than allowed.
   */
  ghost predicate Accounted(p: Pipe, id: nat)
    requires |p.wire| == |p.issues| == |p.outcomes| && id < |p.issues|
  {
    && 1 <= |p.wire[id]| <= Max0(p.nRetries) + 1
    && (forall b :: b in p.wire[id] ==> b == Encode(p.issues[id].request, p.issues[id].seqno))
    && (p.outcomes[id] == [] <==> Live(p, id) || id in p.lost)
    && !(Live(p, id) && id in p.lost)
    && (p.outcomes[id] != [] ==> Settles(p, id, p.outcomes[id]))
  }

  /**
   * Over every run: the credit is exactly explained; every issue is live with
   * its budget intact, or overwritten by a reused number, or settled once; it
   * was sent at most `nRetries + 1` times and always as the same bytes.
   */
  lemma {:induction false} EveryRunAccounts(nChannels: Option<int>, waits: Option<int>, nRetries: int,
                                            nonFail: set<ResultCode>, calls: seq<Call>, p: Pipe)
    requires Reachable(Initial(nChannels, waits, nRetries, nonFail), calls, p)
    ensures Inv(p)
    ensures p.inProgress == |p.table| + p.leaked + |p.lost| - p.unsent
    ensures forall s :: s in p.table ==> p.table[s].retries + |p.table[s].reasons| == p.nRetries
    ensures forall id :: 0 <= id < |p.issues| ==> Accounted(p, id)
  {
    ReachableKeepsInv(Initial(nChannels, waits, nRetries, nonFail), calls, p);
    OrderCountsTable(p.order, p.table.Keys);
    forall s | s in p.table ensures LiveOk(p, s) {
      assert LiveOk(p, s);
    }
    forall id | 0 <= id < |p.issues| ensures Accounted(p, id) {
      assert IssueOk(p, id);
      if Live(p, id) {
        assert LiveOk(p, p.issues[id].seqno);
      }
    }
  }

  lemma {:induction false} OrderCountsTable(order: seq<nat>, keys: set<nat>)
    requires Distinct(order) && forall s :: s in order <==> s in keys
    ensures |order| == |keys|
  {
    if order != [] {
      OrderCountsTable(order[1..], keys - {order[0]});
    }
  }

  // ---------------------------------------------------------------- finish

  /** An event enters no request and overwrites none; it can only leak credits. */
  ghost predicate SameIssues(p: Pipe, q: Pipe) {
    && q.issues == p.issues && q.lost == p.lost && q.unsent == p.unsent && q.leaked >= p.leaked
    && q.nChannels == p.nChannels && q.waits == p.waits && q.nRetries == p.nRetries
  }

  lemma {:induction false} ExpireAllKeepsIssues(p: Pipe, order: seq<nat>, raises: set<nat>)
    ensures SameIssues(p, ExpireAll(p, order, raises))
  {
    if order != [] {
      ExpireAllKeepsIssues(p, order[..|order| - 1], raises);
    }
  }

  lemma SettleKeepsIssues(p: Pipe, s: nat, payload: Bytes, handling: Handling)
    requires s in p.table
    ensures SameIssues(p, Settle(p, s, payload, handling))
  {
  }

  lemma ResendOrFailKeepsIssues(p: Pipe, s: nat, reason: Reason, raises: bool)
    requires s in p.table
    ensures SameIssues(p, ResendOrFail(p, s, reason, raises)) && SameIssues(p, Resend(p, s, reason, raises))
  {
  }

  lemma AnswerKeepsIssues(p: Pipe, s: nat, e: Event)
    requires e.Response? && s in p.table
    ensures SameIssues(p, Answer(p, s, e))
  {
    ResendOrFailKeepsIssues(p, s, Code(e.result), e.resendRaises);
    if e.result !in RETRY_CODES {
      SettleKeepsIssues(p, s, e.payload, e.handling);
    } else if ResendFailure(p, s, Code(e.result), e.resendRaises).Some? && e.result in p.nonFail {
      SettleKeepsIssues(Resend(p, s, Code(e.result), e.resendRaises), s, e.payload, e.handling);
    }
  }

  lemma ResponseKeepsIssues(p: Pipe, e: Event)
    requires e.Response?
    ensures SameIssues(p, AfterResponse(p, e))
  {
    if e.seqno in p.table {
      AnswerKeepsIssues(Uncredit(p), e.seqno, e);
    }
  }

  lemma EventKeepsIssues(p: Pipe, e: Event)
    ensures SameIssues(p, AfterEvent(p, e))
  {
    match e
    case TimedOut(raises) => ExpireAllKeepsIssues(p.(nTimeouts := p.nTimeouts + 1), p.order, raises);
    case Response(_, _, _, _, _) => ResponseKeepsIssues(p, e);
  }

  lemma {:induction false} RetrieveKeepsIssues(p: Pipe, n: int, events: seq<Event>)
    ensures SameIssues(p, Retrieve(p, n, events).pipe)
    ensures Retrieve(p, n, events).status.Returned? ==> Retrieve(p, n, events).pipe.inProgress <= n
    decreases |events|
  {
    if p.inProgress > n && events != [] {
      EventKeepsIssues(p, events[0]);
      RetrieveKeepsIssues(AfterEvent(p, events[0]), n, events[1..]);
    }
  }

  /**
   * When `finish` returns, no more requests are left unanswered than first
   * sends raised; with none raised, every issue has had its one outcome.
   */
  lemma FinishSettlesEverything(p: Pipe, events: seq<Event>)
    requires Inv(p) && Finish(p, events).status.Returned?
    ensures var q := Finish(p, events).pipe;
      && Inv(q) && q.issues == p.issues && q.unsent == p.unsent
      && |q.table| + q.leaked + |q.lost| <= q.unsent
      && (p.unsent == 0 ==>
            && q.table == map[] && q.lost == {} && q.leaked == 0
            && forall id :: 0 <= id < |q.issues| ==> Settles(q, id, q.outcomes[id]))
  {
    var q := Finish(p, events).pipe;
    RetrieveKeepsInv(p, 0, events);
    RetrieveKeepsIssues(p, 0, events);
    OrderCountsTable(q.order, q.table.Keys);
    assert |q.table| == |q.table.Keys|;
    if p.unsent == 0 {
      assert q.table == map[];
      forall id | 0 <= id < |q.issues| ensures Settles(q, id, q.outcomes[id]) {
        assert IssueOk(q, id);
      }
    }
  }

  // ---------------------------------------------------------------- termination

  function Weight(e: Entry): nat { Max0(e.retries) + 1 }

  function Weights(order: seq<nat>, table: map<nat, Entry>): nat {
    if order == [] then 0
    else (if order[0] in table then Weight(table[order[0]]) else 0) + Weights(order[1..], table)
  }

  /** Sends and failures the live requests still have left between them. */
  function Budget(p: Pipe): nat {
    Weights(p.order, p.table)
  }

  lemma {:induction false} WeightsAgree(order: seq<nat>, a: map<nat, Entry>, b: map<nat, Entry>)
    requires forall s :: s in order ==> (s in a <==> s in b) && (s in a ==> Weight(a[s]) == Weight(b[s]))
    ensures Weights(order, a) == Weights(order, b)
  {
    if order != [] {
      WeightsAgree(order[1..], a, b);
    }
  }

  lemma {:induction false} WeightsUpdate(order: seq<nat>, table: map<nat, Entry>, s: nat, e: Entry)
    requires Distinct(order) && s in order && s in table
    ensures Weights(order, table[s := e]) == Weights(order, table) - Weight(table[s]) + Weight(e)
  {
    if order[0] == s {
      WeightsAgree(order[1..], table, table[s := e]);
    } else {
      WeightsUpdate(order[1..], table, s, e);
    }
  }

  lemma {:induction false} WeightsRemove(order: seq<nat>, table: map<nat, Entry>, s: nat)
    requires Distinct(order) && s in order && s in table
    ensures Weights(Without(order, {s}), table - {s}) == Weights(order, table) - Weight(table[s])
  {
    if order[0] == s {
      WithoutNone(order[1..], {s});
      assert Without(order, {s}) == order[1..];
      WeightsAgree(order[1..], table, table - {s});
    } else {
      WeightsRemove(order[1..], table, s);
      var rest := Without(order[1..], {s});
      assert Without(order, {s}) == [order[0]] + rest;
      assert ([order[0]] + rest)[1..] == rest;
    }
  }

  lemma ForgetSpends(p: Pipe, s: nat)
    requires Shape(p) && s in p.table
    ensures Budget(Forget(p, {s})) == Budget(p) - Weight(p.table[s])
  {
    WeightsRemove(p.order, p.table, s);
  }

  /** Resending or failing a live request spends some of its budget. */
  lemma ResendOrFailSpends(p: Pipe, s: nat, reason: Reason, raises: bool)
    requires Core(p) && s in p.table
    ensures Budget(ResendOrFail(p, s, reason, raises)) < Budget(p)
  {
    assert LiveOk(p, s);
    var q := Resend(p, s, reason, raises);
    WeightsUpdate(p.order, p.table, s, q.table[s]);
    if ResendFailure(p, s, reason, raises).Some? {
      ForgetSpends(q, s);
    }
  }

  lemma FailSpends(p: Pipe, s: nat, f: Failure)
    requires Shape(p) && s in p.table
    ensures Budget(Fail(p, s, f)) == Budget(p) - Weight(p.table[s])
  {
    hide Forget, Report, Budget;
    var e := p.table[s];
    ReportKeeps(p, e.id, Failed(e.request, e.handler, f));
    ForgetSpends(Report(p, e.id, Failed(e.request, e.handler, f)), s);
  }

  lemma ReportKeeps(p: Pipe, id: nat, o: Outcome)
    requires Shape(p)
    ensures var q := Report(p, id, o); Shape(q) && q.table == p.table && Budget(q) == Budget(p)
  {
  }

  lemma SettleSpends(p: Pipe, s: nat, payload: Bytes, handling: Handling)
    requires Shape(p) && s in p.table
    ensures Budget(Settle(p, s, payload, handling)) == Budget(p) - Weight(p.table[s])
  {
    hide Forget, Report, Budget, Fail, Shape;
    if handling == ParseRaises {
      FailSpends(p, s, ParseRaised);
    } else {
      var e := p.table[s];
      var q := Report(p, e.id, Delivered(e.callback, payload));
      ReportKeeps(p, e.id, Delivered(e.callback, payload));
      if handling == CallbackRaises && e.callback.Some? {
        FailSpends(q, s, CallbackRaised);
      } else {
        ForgetSpends(q, s);
      }
    }
  }

  lemma ExpireSpends(p: Pipe, s: nat, raises: set<nat>)
    requires Inv(p)
    ensures Budget(Expire(p, s, raises)) <= Budget(p)
    ensures s in p.table ==> Budget(Expire(p, s, raises)) < Budget(p)
  {
    if s in p.table {
      SameCore(p, Uncredit(p));
      ResendOrFailSpends(Uncredit(p), s, Timeout, s in raises);
    }
  }

  lemma {:induction false} ExpireAllSpends(p: Pipe, order: seq<nat>, raises: set<nat>)
    requires Inv(p)
    ensures Budget(ExpireAll(p, order, raises)) <= Budget(p)
    ensures order != [] && order[0] in p.table ==> Budget(ExpireAll(p, order, raises)) < Budget(p)
  {
    if order != [] {
      var before := order[..|order| - 1];
      ExpireAllSpends(p, before, raises);
      ExpireAllKeepsInv(p, before, raises);
      ExpireSpends(ExpireAll(p, before, raises), order[|order| - 1], raises);
      if before == [] {
        assert ExpireAll(p, before, raises) == p;
      }
    }
  }

  predicate Effective(p: Pipe, e: Event) {
    match e
    case TimedOut(_) => p.order != []
    case Response(_, seqno, _, _, _) => seqno in p.table
  }

  lemma AnswerSpends(p: Pipe, s: nat, e: Event)
    requires Core(p) && e.Response? && s in p.table
    ensures Budget(Answer(p, s, e)) < Budget(p)
  {
    if e.result !in RETRY_CODES {
      SettleSpends(p, s, e.payload, e.handling);
    } else if ResendFailure(p, s, Code(e.result), e.resendRaises).Some? && e.result in p.nonFail {
      var q := Resend(p, s, Code(e.result), e.resendRaises);
      WeightsUpdate(p.order, p.table, s, q.table[s]);
      SettleSpends(q, s, e.payload, e.handling);
    } else {
      ResendOrFailSpends(p, s, Code(e.result), e.resendRaises);
    }
  }

  lemma ResponseSpends(p: Pipe, e: Event)
    requires Inv(p) && e.Response? && e.seqno in p.table
    ensures Budget(AfterResponse(p, e)) < Budget(p)
  {
    SameCore(p, Uncredit(p));
    AnswerSpends(Uncredit(p), e.seqno, e);
  }

  /** Every event that concerns a live request spends budget; the others change no request. */
  lemma EventSpends(p: Pipe, e: Event)
    requires Inv(p)
    ensures if Effective(p, e) then Budget(AfterEvent(p, e)) < Budget(p)
            else AfterEvent(p, e) == p.(nTimeouts := AfterEvent(p, e).nTimeouts)
  {
    match e
    case TimedOut(raises) =>
      var p0 := p.(nTimeouts := p.nTimeouts + 1);
      SameCore(p, p0);
      ExpireAllSpends(p0, p.order, raises);
    case Response(_, seqno, _, _, _) =>
      if seqno in p.table {
        ResponseSpends(p, e);
      }
  }

  /** How many of the events a retrieve reads concern a live request. */
  function EffectiveReads(p: Pipe, n: int, events: seq<Event>): nat
    decreases |events|
  {
    if p.inProgress <= n || events == [] then 0
    else (if Effective(p, events[0]) then 1 else 0) + EffectiveReads(AfterEvent(p, events[0]), n, events[1..])
  }

  lemma {:induction false} EffectiveReadsAreBounded(p: Pipe, n: int, events: seq<Event>)
    requires Inv(p)
    ensures EffectiveReads(p, n, events) <= Budget(p)
    decreases |events|
  {
    if p.inProgress > n && events != [] {
      EventSpends(p, events[0]);
      EventKeepsInv(p, events[0]);
      EffectiveReadsAreBounded(AfterEvent(p, events[0]), n, events[1..]);
    }
  }

  lemma {:induction false} WeightsAreBounded(order: seq<nat>, table: map<nat, Entry>, n: nat)
    requires forall s :: s in order && s in table ==> Weight(table[s]) <= n
    ensures Weights(order, table) <= |order| * n
  {
    if order != [] {
      WeightsAreBounded(order[1..], table, n);
      assert |order| * n == n + |order[1..]| * n;
    }
  }

  lemma BudgetIsBounded(p: Pipe)
    requires Inv(p)
    ensures Budget(p) <= |p.table| * (Max0(p.nRetries) + 1)
  {
    forall s | s in p.order && s in p.table ensures Weight(p.table[s]) <= Max0(p.nRetries) + 1 {
      assert LiveOk(p, s);
    }
    WeightsAreBounded(p.order, p.table, Max0(p.nRetries) + 1);
    OrderCountsTable(p.order, p.table.Keys);
  }

  /** Packets read by a retrieve that answer no live request. */
  function StaleReads(p: Pipe, n: int, events: seq<Event>): nat
    decreases |events|
  {
    if p.inProgress <= n || events == [] then 0
    else (if events[0].Response? && !Effective(p, events[0]) then 1 else 0)
         + StaleReads(AfterEvent(p, events[0]), n, events[1..])
  }

  lemma {:induction false} StarvingReadsEverything(p: Pipe, n: nat, events: seq<Event>)
    requires Inv(p) && Retrieve(p, n, events).status.Starved?
    requires Retrieve(p, n, events).pipe.leaked + |p.lost| <= p.unsent
    ensures |events| == EffectiveReads(p, n, events) + StaleReads(p, n, events)
    decreases |events|
  {
    if events != [] {
      var q := AfterEvent(p, events[0]);
      EventKeepsInv(p, events[0]);
      EventKeepsIssues(p, events[0]);
      RetrieveKeepsIssues(q, n, events[1..]);
      StarvingReadsEverything(q, n, events[1..]);
    }
  }

  /** With more credits leaked than sends withheld, something always seems outstanding. */
  lemma {:induction false} LeakStarvesFinish(p: Pipe, events: seq<Event>)
    requires Inv(p) && p.leaked + |p.lost| > p.unsent
    ensures Finish(p, events).status.Starved?
    decreases |events|
  {
    if events != [] {
      EventKeepsInv(p, events[0]);
      EventKeepsIssues(p, events[0]);
      LeakStarvesFinish(AfterEvent(p, events[0]), events[1..]);
    }
  }

  /** The requests, of those listed, that a timeout resends in a send that raises. */
  function Raising(p: Pipe, order: seq<nat>, sendRaises: set<nat>): set<nat> {
    set s | s in order && s in p.table && p.table[s].retries > 0 && s in sendRaises
  }

  /** How many resends of live requests, with a retry left, raise in their send because of the event. */
  function RaisedBy(p: Pipe, e: Event): nat {
    match e
    case TimedOut(sendRaises) => |Raising(p, p.order, sendRaises)|
    case Response(result, s, _, _, resendRaises) =>
      if s in p.table && result in RETRY_CODES && p.table[s].retries > 0 && resendRaises then 1 else 0
  }

  /** How many over all the events that a retrieve reads. */
  function RaisedOver(p: Pipe, n: int, events: seq<Event>): nat
    decreases |events|
  {
    if p.inProgress <= n || events == [] then 0
    else RaisedBy(p, events[0]) + RaisedOver(AfterEvent(p, events[0]), n, events[1..])
  }

  lemma ExpireLeaks(p: Pipe, s: nat, raises: set<nat>)
    ensures Expire(p, s, raises).leaked
            == p.leaked + if s in p.table && p.table[s].retries > 0 && s in raises then 1 else 0
  {
    hide Without, Encode;
  }

  lemma {:induction false} ExpireAllLeaks(p: Pipe, order: seq<nat>, raises: set<nat>)
    requires Distinct(order)
    ensures ExpireAll(p, order, raises).leaked == p.leaked + |Raising(p, order, raises)|
  {
    hide Expire;
    if order == [] {
      assert Raising(p, order, raises) == {};
    } else {
      var before, last := order[..|order| - 1], order[|order| - 1];
      assert order == before + [last];
      assert last !in before;
      ExpireAllLeaks(p, before, raises);
      var q := ExpireAll(p, before, raises);
      ExpireLeaks(q, last, raises);
      ExpireAllAddsNothing(p, before, raises);
      if last in p.table {
        ExpireAllReachesEach(p, before, raises, last);
        assert Lookup(q, last) == Some(p.table[last]);
      }
      var one := if last in p.table && p.table[last].retries > 0 && last in raises then {last} else {};
      assert Raising(p, order, raises) == Raising(p, before, raises) + one;
    }
  }

  lemma ResponseLeaks(p: Pipe, e: Event)
    requires e.Response?
    ensures AfterResponse(p, e).leaked == p.leaked + RaisedBy(p, e)
  {
    hide Without, Encode;
  }

  lemma EventLeaks(p: Pipe, e: Event)
    requires Inv(p)
    ensures AfterEvent(p, e).leaked == p.leaked + RaisedBy(p, e)
  {
    hide ExpireAll, AfterResponse;
    match e
    case TimedOut(raises) =>
      var p0 := p.(nTimeouts := p.nTimeouts + 1);
      ExpireAllLeaks(p0, p.order, raises);
      assert Raising(p0, p.order, raises) == Raising(p, p.order, raises);
    case Response(_, _, _, _, _) => ResponseLeaks(p, e);
  }

  /** The credits that leak are those of the resends that raise. */
  lemma {:induction false} RetrieveLeaks(p: Pipe, n: int, events: seq<Event>)
    requires Inv(p)
    ensures Retrieve(p, n, events).pipe.leaked == p.leaked + RaisedOver(p, n, events)
    decreases |events|
  {
    hide AfterEvent, Inv, RaisedBy;
    if p.inProgress > n && events != [] {
      EventLeaks(p, events[0]);
      EventKeepsInv(p, events[0]);
      RetrieveLeaks(AfterEvent(p, events[0]), n, events[1..]);
    }
  }

  /**
   * `finish` ends within `live * (nRetries + 1)` reads beyond the packets that
   * answer nothing if and only if the credits that leaked before, those that leak
   * to raising resends among the events that it reads, and those of overwritten
   * requests are no more than the credits that raising first sends withheld.
   */
  lemma {:induction false} FinishEndsUnlessSendsRaise(p: Pipe, events: seq<Event>)
    requires Inv(p)
    requires |events| > StaleReads(p, 0, events) + |p.table| * (Max0(p.nRetries) + 1)
    ensures Finish(p, events).status.Returned? <==> p.leaked + RaisedOver(p, 0, events) + |p.lost| <= p.unsent
  {
    RetrieveLeaks(p, 0, events);
    if Finish(p, events).status.Returned? {
      RetrieveKeepsIssues(p, 0, events);
      FinishSettlesEverything(p, events);
    } else if Finish(p, events).pipe.leaked + |p.lost| <= p.unsent {
      StarvingReadsEverything(p, 0, events);
      EffectiveReadsAreBounded(p, 0, events);
      BudgetIsBounded(p);
    }
  }

  /** No resend that the event leads to raises in its send. */
  predicate Quiet(e: Event) {
    match e
    case TimedOut(sendRaises) => sendRaises == {}
    case Response(_, _, _, _, resendRaises) => !resendRaises
  }

  lemma {:induction false} QuietExpireAll(p: Pipe, order: seq<nat>)
    ensures ExpireAll(p, order, {}).leaked == p.leaked
  {
    hide Without, Encode;
    if order != [] {
      QuietExpireAll(p, order[..|order| - 1]);
    }
  }

  lemma {:induction false} QuietRetrieve(p: Pipe, n: int, events: seq<Event>)
    requires forall e :: e in events ==> Quiet(e)
    ensures Retrieve(p, n, events).pipe.leaked == p.leaked
    decreases |events|
  {
    hide Without, Encode, ExpireAll;
    if p.inProgress > n && events != [] {
      if events[0].TimedOut? {
        QuietExpireAll(p.(nTimeouts := p.nTimeouts + 1), p.order);
      }
      assert Quiet(events[0]);
      assert AfterEvent(p, events[0]).leaked == p.leaked;
      QuietRetrieve(AfterEvent(p, events[0]), n, events[1..]);
    }
  }

  /**
   * While resends work, `finish` ends unless credits are already missing; when no
   * first send raised either, each issue has then had its outcome.
   */
  lemma {:induction false} FinishEnds(p: Pipe, events: seq<Event>)
    requires Inv(p) && p.leaked + |p.lost| <= p.unsent
    requires |events| > StaleReads(p, 0, events) + |p.table| * (Max0(p.nRetries) + 1)
    requires forall e :: e in events ==> Quiet(e)
    ensures Finish(p, events).status.Returned?
    ensures var q := Finish(p, events).pipe;
      && Inv(q) && q.issues == p.issues
      && (p.unsent == 0 ==> q.table == map[] && forall id :: 0 <= id < |q.issues| ==> Settles(q, id, q.outcomes[id]))
  {
    hide Retrieve;
    QuietRetrieve(p, 0, events);
    FinishEndsUnlessSendsRaise(p, events);
    RetrieveLeaks(p, 0, events);
    FinishSettlesEverything(p, events);
  }

  /** Once more resends have raised than there are withheld credits, no further events make `finish` return. */
  lemma {:induction false} RaisingSendHangsFinish(p: Pipe, events: seq<Event>, more: seq<Event>)
    requires Inv(p) && p.leaked + RaisedOver(p, 0, events) + |p.lost| > p.unsent
    ensures Finish(Finish(p, events).pipe, more).status.Starved?
  {
    RetrieveLeaks(p, 0, events);
    RetrieveKeepsInv(p, 0, events);
    RetrieveKeepsIssues(p, 0, events);
    LeakStarvesFinish(Finish(p, events).pipe, more);
  }

  /** A pipeline with one request out. */
  function OneRequest(request: Request, handler: ErrorCallback): Pipe {
    Send(Initial(Some(8), Some(7), 10, {}), Issue(request, None, handler, 0), false, [], false).pipe
  }

  lemma OneRequestFacts(request: Request, handler: ErrorCallback)
    ensures var p := OneRequest(request, handler);
      && Inv(p) && p.order == [0] && p.inProgress == 1 && p.outcomes == [[]]
      && p.leaked == 0 && p.lost == {} && p.unsent == 0
      && p.table == map[0 := Entry(0, request, Encode(request, 0), 10, None, handler, [])]
  {
    EnterKeepsInv(Initial(Some(8), Some(7), 10, {}), Issue(request, None, handler, 0), false);
  }

  lemma OneExpires(p: Pipe, request: Request, handler: ErrorCallback)
    requires p.order == [0] && p.outcomes == [[]]
    requires p.table == map[0 := Entry(0, request, Encode(request, 0), 10, None, handler, [])]
    ensures var q := Expire(p, 0, {0});
      && q.table == map[] && q.inProgress == p.inProgress && q.leaked == p.leaked + 1
      && q.outcomes == [[Failed(request, handler, SendRaised)]]
  {
    hide Without, Encode;
    var o := Failed(request, handler, SendRaised);
    assert p.outcomes[0] == [] && p.outcomes[0] + [o] == [o];
    assert ResendFailure(Uncredit(p), 0, Timeout, true) == Some(SendRaised);
    assert Resend(Uncredit(p), 0, Timeout, true).outcomes == p.outcomes;
  }

  /** A concrete instance: one request, one timeout, and the one resend raises in its send. */
  lemma OneRaisingResendHangs(request: Request, handler: ErrorCallback, more: seq<Event>)
    ensures var q := Finish(OneRequest(request, handler), [TimedOut({0})]).pipe;
      q.table == map[] && q.outcomes == [[Failed(request, handler, SendRaised)]] && Finish(q, more).status.Starved?
  {
    hide OneRequest, Expire, Core, Encode;
    var p, e := OneRequest(request, handler), TimedOut({0});
    OneRequestFacts(request, handler);
    var p0 := p.(nTimeouts := p.nTimeouts + 1);
    assert p.order[..0] == [] && ExpireAll(p0, [], {0}) == p0;
    assert AfterEvent(p, e) == Expire(p0, 0, {0});
    OneExpires(p0, request, handler);
    assert [e][1..] == [];
    assert Retrieve(AfterEvent(p, e), 0, []).pipe == AfterEvent(p, e);
    assert Retrieve(p, 0, [e]) == Retrieve(AfterEvent(p, [e][0]), 0, [e][1..]);
    EventKeepsInv(p, e);
    EventKeepsIssues(p, e);
    LeakStarvesFinish(AfterEvent(p, e), more);
  }

  // ---------------------------------------------------------------- timeouts and responses

  lemma ResendAddsNothing(p: Pipe, s: nat, reason: Reason, raises: bool)
    requires s in p.table
    ensures Resend(p, s, reason, raises).table.Keys == p.table.Keys
    ensures ResendOrFail(p, s, reason, raises).table.Keys <= p.table.Keys
  {
    hide Without, AllTimeouts;
  }

  lemma SettleAddsNothing(p: Pipe, s: nat, payload: Bytes, handling: Handling)
    requires s in p.table
    ensures Settle(p, s, payload, handling).table.Keys <= p.table.Keys
  {
    hide Without;
  }

  lemma AnswerAddsNothing(p: Pipe, s: nat, e: Event)
    requires e.Response? && s in p.table
    ensures Answer(p, s, e).table.Keys <= p.table.Keys
  {
    hide ResendFailure, Resend, ResendOrFail, Settle;
    ResendAddsNothing(p, s, Code(e.result), e.resendRaises);
    if e.result !in RETRY_CODES {
      SettleAddsNothing(p, s, e.payload, e.handling);
    } else if ResendFailure(p, s, Code(e.result), e.resendRaises).Some? && e.result in p.nonFail {
      SettleAddsNothing(Resend(p, s, Code(e.result), e.resendRaises), s, e.payload, e.handling);
    }
  }

  lemma {:induction false} RetrieveAddsNothing(p: Pipe, n: int, events: seq<Event>)
    ensures Retrieve(p, n, events).pipe.table.Keys <= p.table.Keys
    decreases |events|
  {
    hide Answer, ExpireAll;
    if p.inProgress > n && events != [] {
      var e := events[0];
      if e.TimedOut? {
        ExpireAllAddsNothing(p.(nTimeouts := p.nTimeouts + 1), p.order, e.sendRaises);
      } else if e.seqno in p.table {
        AnswerAddsNothing(Uncredit(p), e.seqno, e);
      }
      RetrieveAddsNothing(AfterEvent(p, e), n, events[1..]);
    }
  }

  /** What one timeout makes of the entry of a live request; `None` when it is dropped. */
  function Retried(p: Pipe, s: nat, raises: set<nat>): Option<Entry>
    requires s in p.table
  {
    var e := p.table[s];
    if e.retries > 0 && s !in raises then Some(e.(retries := e.retries - 1, reasons := e.reasons + [Timeout])) else None
  }

  function Lookup(p: Pipe, s: nat): Option<Entry> {
    if s in p.table then Some(p.table[s]) else None
  }

  lemma ExpireReachesOne(p: Pipe, x: nat, raises: set<nat>, s: nat)
    ensures x != s ==> Lookup(Expire(p, x, raises), s) == Lookup(p, s)
    ensures s in p.table ==> Lookup(Expire(p, s, raises), s) == Retried(p, s, raises)
  {
    hide Without;
  }

  lemma {:induction false} ExpireAllReachesEach(p: Pipe, order: seq<nat>, raises: set<nat>, s: nat)
    requires s in p.table && Distinct(order)
    ensures Lookup(ExpireAll(p, order, raises), s) == if s in order then Retried(p, s, raises) else Lookup(p, s)
  {
    hide Expire;
    if order != [] {
      var before, last := order[..|order| - 1], order[|order| - 1];
      assert order == before + [last];
      assert last !in before;
      ExpireAllReachesEach(p, before, raises, s);
      ExpireReachesOne(ExpireAll(p, before, raises), last, raises, s);
    }
  }

  lemma {:induction false} ExpireAllAddsNothing(p: Pipe, order: seq<nat>, raises: set<nat>)
    ensures ExpireAll(p, order, raises).table.Keys <= p.table.Keys
  {
    if order != [] {
      ExpireAllAddsNothing(p, order[..|order| - 1], raises);
    }
  }

  /** A timeout retries every live request that has a retry left and fails every other one. */
  lemma TimeoutReachesEveryRequest(p: Pipe, raises: set<nat>)
    requires Inv(p)
    ensures var q := AfterTimeout(p, raises);
      q.table.Keys <= p.table.Keys && forall s :: s in p.table ==> Lookup(q, s) == Retried(p, s, raises)
  {
    hide ExpireAll;
    var p0 := p.(nTimeouts := p.nTimeouts + 1);
    ExpireAllAddsNothing(p0, p.order, raises);
    forall s | s in p.table ensures Lookup(AfterTimeout(p, raises), s) == Retried(p, s, raises) {
      ExpireAllReachesEach(p0, p.order, raises, s);
    }
  }

  /** `q` has the history of `p` but for issue `id`, whose new deliveries carry `payload`. */
  ghost predicate OnlyIssue(p: Pipe, q: Pipe, id: nat, payload: Bytes) {
    && |q.outcomes| == |p.outcomes| && |q.wire| == |p.wire|
    && (forall i :: 0 <= i < |p.outcomes| && i != id ==> q.outcomes[i] == p.outcomes[i])
    && (forall i :: 0 <= i < |p.wire| && i != id ==> q.wire[i] == p.wire[i])
    && (id < |p.outcomes| && p.outcomes[id] == [] ==>
          forall o :: o in q.outcomes[id] && o.Delivered? ==> o.payload == payload)
  }

  lemma SettleReachesOnlyItsIssue(p: Pipe, s: nat, payload: Bytes, handling: Handling)
    requires s in p.table
    ensures OnlyIssue(p, Settle(p, s, payload, handling), p.table[s].id, payload)
  {
  }

  lemma ResendReachesOnlyItsIssue(p: Pipe, s: nat, reason: Reason, raises: bool, payload: Bytes)
    requires s in p.table
    ensures OnlyIssue(p, Resend(p, s, reason, raises), p.table[s].id, payload)
    ensures Resend(p, s, reason, raises).outcomes == p.outcomes
    ensures Resend(p, s, reason, raises).table.Keys == p.table.Keys
    ensures Resend(p, s, reason, raises).table[s].id == p.table[s].id
    ensures OnlyIssue(p, ResendOrFail(p, s, reason, raises), p.table[s].id, payload)
  {
  }

  lemma AnswerReachesOnlyItsIssue(p: Pipe, s: nat, e: Event)
    requires e.Response? && s in p.table
    ensures OnlyIssue(p, Answer(p, s, e), p.table[s].id, e.payload)
  {
    ResendReachesOnlyItsIssue(p, s, Code(e.result), e.resendRaises, e.payload);
    if e.result !in RETRY_CODES {
      SettleReachesOnlyItsIssue(p, s, e.payload, e.handling);
    } else if ResendFailure(p, s, Code(e.result), e.resendRaises).Some? && e.result in p.nonFail {
      SettleReachesOnlyItsIssue(Resend(p, s, Code(e.result), e.resendRaises), s, e.payload, e.handling);
    }
  }

  /**
   * A response reaches no issue but the live one that was given its sequence
   * number, and hands that one its own payload; any other packet is ignored.
   */
  lemma ResponseReachesOnlyItsIssue(p: Pipe, e: Event, id: nat)
    requires Inv(p) && e.Response? && id < |p.issues|
    ensures var q := AfterResponse(p, e);
      && |q.outcomes| == |p.outcomes|
      && (q.outcomes[id] != p.outcomes[id] ==>
            && Live(p, id) && p.issues[id].seqno == e.seqno
            && forall o :: o in q.outcomes[id] && o.Delivered? ==> o.payload == e.payload)
      && (e.seqno !in p.table ==> q == p)
  {
    if e.seqno in p.table {
      assert LiveOk(p, e.seqno);
      AnswerReachesOnlyItsIssue(Uncredit(p), e.seqno, e);
    }
  }

  // ---------------------------------------------------------------- the window

  /** With the receive threshold below the window, the window holds and no send spins. */
  lemma SendKeepsWindow(p: Pipe, issue: Issue, ready: bool, events: seq<Event>, sendRaises: bool)
    requires Inv(p)
    requires var m := Measure(p, ready); m.nChannels.Some? && m.waits.value < m.nChannels.value
    ensures var r := Send(p, issue, ready, events, sendRaises);
      && !r.status.Spinning?
      && r.pipe.nChannels == Measure(p, ready).nChannels && r.pipe.waits == Measure(p, ready).waits
      && (r.status.Returned? || r.status.Raised? ==> r.pipe.inProgress <= r.pipe.nChannels.value)
  {
    var m := Measure(p, ready);
    RetrieveKeepsIssues(m, m.waits.value, events);
  }

  /** Measuring fixes, once, a window of 8 more than what is in flight and of at least 12, and waits 8 below it. */
  lemma MeasureFixesTheWindow(p: Pipe, issue: Issue, ready: bool, events: seq<Event>, sendRaises: bool)
    requires Inv(p)
    ensures var q := Send(p, issue, ready, events, sendRaises).pipe;
      && (p.nChannels.Some? ==> q.nChannels == p.nChannels && q.waits == p.waits)
      && (p.nChannels.None? && !ready ==> q.nChannels.None?)
      && (p.nChannels.None? && ready ==>
            && (p.inProgress <= 4 ==> q.nChannels == Some(12) && q.waits == Some(4))
            && (p.inProgress > 4 ==> q.nChannels == Some(p.inProgress + 8) && q.waits == Some(p.inProgress))
            && q.inProgress <= q.nChannels.value)
  {
    var m := Measure(p, ready);
    if m.nChannels.Some? {
      RetrieveKeepsIssues(m, m.waits.value, events);
    }
  }

  /**
   * A threshold at or above the window makes a send loop for ever without
   * receiving as soon as the window is full; a lower threshold never does, nor
   * does room in the window.
   */
  lemma SendSpinsOnlyWhenMisconfigured(p: Pipe, issue: Issue, ready: bool, events: seq<Event>, sendRaises: bool)
    requires Inv(p) && p.nChannels.Some?
    ensures var r := Send(p, issue, ready, events, sendRaises);
      && (r.status.Spinning? ==> p.nChannels.value <= p.waits.value)
      && (p.inProgress < p.nChannels.value ==> !r.status.Spinning?)
      && (p.nChannels.value <= p.inProgress <= p.waits.value ==> r == Progress(p, events, Spinning))
  {
    RetrieveKeepsIssues(p, p.waits.value, events);
  }
}
