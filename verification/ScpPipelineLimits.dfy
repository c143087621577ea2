/** Exactly when the pipeline falls short of what its callers expect. */
module ScpPipelineLimits {
  import opened Common
  import opened ScpPipeline
  import opened ScpPipelineInvariants
  import opened ScpPipelineTheorems

  // ---------------------------------------------------------------- requests left behind by finish

  /** Whatever the link does, `finish` returns only when no request is left. */
  ghost predicate FinishLeavesNothing(p: Pipe) {
    forall events :: Finish(p, events).status.Returned? ==> Finish(p, events).pipe.table == map[]
  }

  /**
   * `finish` can be relied on to leave no request exactly when there is none, or
   * when no more first sends raised than credits leaked or were overwritten.
   */
  lemma FinishLeavesNothingIff(p: Pipe)
    requires Inv(p)
    ensures FinishLeavesNothing(p) <==> p.table == map[] || p.unsent <= p.leaked + |p.lost|
  {
    hide Retrieve, Core;
    if p.table == map[] {
      forall events ensures Finish(p, events).pipe.table == map[] {
        RetrieveAddsNothing(p, 0, events);
      }
    } else if p.unsent <= p.leaked + |p.lost| {
      forall events | Finish(p, events).status.Returned? ensures Finish(p, events).pipe.table == map[] {
        FinishSettlesEverything(p, events);
        RetrieveKeepsIssues(p, 0, events);
      }
    } else {
      OrderHoldsTable(p);
      var events := EarlyReturn(p);
      assert Finish(p, events).status.Returned?;
    }
  }

  lemma OrderHoldsTable(p: Pipe)
    requires Inv(p)
    ensures p.order == [] <==> p.table == map[]
  {
    assert p.order != [] ==> p.order[0] in p.table;
  }

  /** The response that settles the oldest request. */
  function OldestAnswered(p: Pipe): Event
    requires p.order != []
  {
    Response(RC_OK, p.order[0], [], Accepted, false)
  }

  lemma OldestIsAnswered(p: Pipe)
    requires Inv(p) && p.order != []
    ensures var q := AfterEvent(p, OldestAnswered(p));
      && Inv(q) && |q.order| == |p.order| - 1 && q.inProgress == p.inProgress - 1
  {
    hide Core;
    EventKeepsInv(p, OldestAnswered(p));
    EventKeepsIssues(p, OldestAnswered(p));
    OldestIsForgotten(p);
  }

  lemma OldestIsForgotten(p: Pipe)
    requires Inv(p) && p.order != []
    ensures var q := AfterEvent(p, OldestAnswered(p));
      && |q.order| == |p.order| - 1 && q.inProgress == p.inProgress - 1
  {
    WithoutOne(p.order, p.order[0]);
  }

  /** With fewer credits than requests, answers in order let `finish` return too early. */
  lemma {:induction false} EarlyReturn(p: Pipe) returns (events: seq<Event>)
    requires Inv(p) && p.order != [] && |p.order| > p.inProgress
    ensures Finish(p, events).status.Returned? && Finish(p, events).pipe.table != map[]
    decreases |p.order|
  {
    hide Core, AfterEvent;
    OrderHoldsTable(p);
    if p.inProgress <= 0 {
      events := [];
    } else {
      OldestIsAnswered(p);
      var rest := EarlyReturn(AfterEvent(p, OldestAnswered(p)));
      events := [OldestAnswered(p)] + rest;
      assert events[1..] == rest;
    }
  }

  /** A concrete instance: the only send raises, and `finish` returns at once without an outcome. */
  lemma OneRaisingSendIsLeftBehind(request: Request, handler: ErrorCallback)
    ensures var r := Send(Initial(Some(8), Some(7), 10, {}), Issue(request, None, handler, 0), false, [], true);
      && r.status.Raised?
      && Finish(r.pipe, []).status.Returned? && 0 in Finish(r.pipe, []).pipe.table
      && Finish(r.pipe, []).pipe.outcomes == [[]]
  {
    hide Encode;
  }

  // ---------------------------------------------------------------- what a send records

  /** The sequence number is in the bytes of the request, its low byte first, and nothing else depends on it. */
  lemma NumberIsInTheBytes(r: Request, s: nat)
    requires s < MAX_SEQUENCE
    ensures var (data, n) := (Encode(r, s), |r.head|);
      && |data| == n + 2 + |r.tail| && data[..n] == r.head && data[n + 2..] == r.tail
      && (data[n] as int) + 0x100 * (data[n + 1] as int) == s
  {
  }

  /** A send, whether or not it raises, makes the request live with all of its retries, and puts it on the wire once. */
  lemma WhatASendRecords(p: Pipe, issue: Issue, ready: bool, events: seq<Event>, sendRaises: bool)
    requires Inv(p)
    requires var s := Send(p, issue, ready, events, sendRaises).status; s.Returned? || s.Raised?
    ensures var (r, id) := (Send(p, issue, ready, events, sendRaises), |p.issues|);
      && (r.status.Raised? <==> sendRaises)
      && r.pipe.issues == p.issues + [issue] && |r.pipe.outcomes| == |r.pipe.wire| == id + 1
      && r.pipe.outcomes[id] == [] && r.pipe.wire[id] == [Encode(issue.request, issue.seqno)]
      && Live(r.pipe, id)
      && r.pipe.table[issue.seqno].retries == p.nRetries && r.pipe.table[issue.seqno].reasons == []
  {
    hide Encode, Inv, Admit;
    AdmitKeepsHistory(p, ready, events);
  }

  /** Waiting for a channel issues nothing. */
  lemma AdmitKeepsHistory(p: Pipe, ready: bool, events: seq<Event>)
    requires Inv(p)
    ensures p.nChannels.Some? ==> p.waits.Some?
    ensures !Admit(Measure(p, ready), events).status.Raised?
    ensures var q := Admit(Measure(p, ready), events).pipe;
      q.issues == p.issues && |q.wire| == |q.outcomes| == |q.issues| && q.nRetries == p.nRetries
  {
    hide Core;
    var m := Measure(p, ready);
    WindowIsKnown(p);
    SameCore(p, m);
    if m.nChannels.Some? {
      RetrieveKeepsInv(m, m.waits.value, events);
      RetrieveKeepsIssues(m, m.waits.value, events);
      SizesAgree(Retrieve(m, m.waits.value, events).pipe);
    }
    SizesAgree(p);
  }

  lemma WindowIsKnown(p: Pipe)
    requires Inv(p)
    ensures p.nChannels.Some? ==> p.waits.Some?
  {
  }

  lemma SizesAgree(p: Pipe)
    requires Inv(p)
    ensures |p.issues| == |p.wire| == |p.outcomes|
  {
  }

  // ---------------------------------------------------------------- how much is received

  function AfterEvents(p: Pipe, events: seq<Event>): Pipe {
    if events == [] then p else AfterEvent(AfterEvents(p, events[..|events| - 1]), events[|events| - 1])
  }

  /** The first `k` events bring the responses outstanding down to `n`, and fewer do not. */
  ghost predicate FirstDownTo(p: Pipe, n: int, events: seq<Event>, k: nat) {
    && k <= |events|
    && AfterEvents(p, events[..k]).inProgress <= n
    && forall j :: 0 <= j < k ==> AfterEvents(p, events[..j]).inProgress > n
  }

  lemma {:induction false} AfterOneMore(p: Pipe, events: seq<Event>, k: nat)
    requires events != [] && k < |events|
    ensures AfterEvents(p, events[..k + 1]) == AfterEvents(AfterEvent(p, events[0]), events[1..][..k])
  {
    hide AfterEvent;
    if k == 0 {
      assert events[..1][..0] == [];
      assert AfterEvents(p, []) == p;
    } else {
      AfterOneMore(p, events, k - 1);
      assert events[..k + 1][..k] == events[..k];
      assert events[1..][..k][..k - 1] == events[1..][..k - 1];
    }
  }

  /** Receiving takes the events that it needs and no more. */
  lemma {:induction false} RetrieveReads(p: Pipe, n: int, events: seq<Event>) returns (k: nat)
    ensures k <= |events|
    ensures var r := Retrieve(p, n, events);
      && r.rest == events[k..] && r.pipe == AfterEvents(p, events[..k])
      && (r.status.Returned? ==> FirstDownTo(p, n, events, k))
      && (r.status.Starved? ==> k == |events| && forall j :: 0 <= j <= k ==> AfterEvents(p, events[..j]).inProgress > n)
    decreases |events|
  {
    hide AfterEvent;
    assert AfterEvents(p, events[..0]) == p;
    if p.inProgress <= n || events == [] {
      k := 0;
    } else {
      var q := AfterEvent(p, events[0]);
      var k' := RetrieveReads(q, n, events[1..]);
      k := k' + 1;
      forall j | 0 <= j <= k' ensures AfterEvents(p, events[..j + 1]) == AfterEvents(q, events[1..][..j]) {
        AfterOneMore(p, events, j);
      }
      forall j | 1 <= j <= k ensures AfterEvents(p, events[..j]) == AfterEvents(q, events[1..][..j - 1]) {
        assert events[..j] == events[..(j - 1) + 1];
      }
    }
  }

  /**
   * A send that finds room receives nothing; one that finds the window full takes
   * the events that bring it down to the waits, and no more, and then sends.
   */
  lemma SendReceivesWhatItNeeds(p: Pipe, issue: Issue, ready: bool, events: seq<Event>, sendRaises: bool)
    returns (k: nat)
    requires Inv(p)
    requires var s := Send(p, issue, ready, events, sendRaises).status; s.Returned? || s.Raised?
    ensures var (m, r) := (Measure(p, ready), Send(p, issue, ready, events, sendRaises));
      && k <= |events| && r.rest == events[k..]
      && r.pipe == Enter(AfterEvents(m, events[..k]), issue, sendRaises)
      && (if m.nChannels.None? || p.inProgress < m.nChannels.value then k == 0
          else FirstDownTo(m, m.waits.value, events, k))
  {
    hide Enter, AfterEvent, Core, Retrieve;
    WindowIsKnown(p);
    var m := Measure(p, ready);
    assert AfterEvents(m, events[..0]) == m;
    if m.nChannels.None? || p.inProgress < m.nChannels.value {
      k := 0;
    } else {
      k := RetrieveReads(m, m.waits.value, events);
    }
  }

  /** So does `finish`, which waits for all. */
  lemma FinishReceivesWhatItNeeds(p: Pipe, events: seq<Event>) returns (k: nat)
    ensures k <= |events|
    ensures var r := Finish(p, events);
      && r.rest == events[k..] && r.pipe == AfterEvents(p, events[..k])
      && (if r.status.Returned? then FirstDownTo(p, 0, events, k)
          else k == |events| && forall j :: 0 <= j <= k ==> AfterEvents(p, events[..j]).inProgress > 0)
  {
    hide AfterEvents, Retrieve, FirstDownTo;
    k := RetrieveReads(p, 0, events);
    RetrieveEnds(p, events);
  }

  lemma {:induction false} RetrieveEnds(p: Pipe, events: seq<Event>)
    ensures Finish(p, events).status.Returned? || Finish(p, events).status.Starved?
  {
  }

  // ---------------------------------------------------------------- how many callbacks a request gets

  /** The codes that ask for the request again. */
  predicate AsksAgain(c: ResultCode) {
    c.RC_LEN? || c.RC_TIMEOUT? || c.RC_P2P_NOREPLY? || c.RC_P2P_TIMEOUT? || c.RC_P2P_BUSY?
  }

  /** The response makes the pipeline resend the live request, and that does not raise. */
  predicate IsResent(e: Event, entry: Entry) {
    e.Response? && AsksAgain(e.result) && entry.retries > 0 && !e.resendRaises
  }

  /** The response is read: its code is no retry code, or it cannot be retried and that is no failure. */
  predicate IsRead(p: Pipe, e: Event, entry: Entry) {
    && e.Response?
    && (!AsksAgain(e.result) || (e.result in p.nonFail && (entry.retries <= 0 || e.resendRaises)))
  }

  /**
   * What a response makes of a live request: no callback if it is resent, both
   * if it is read and its response callback raises, and in every other case one.
   */
  lemma CallbacksOfAResponse(p: Pipe, e: Event)
    requires Inv(p) && e.Response? && e.seqno in p.table
    ensures var entry := p.table[e.seqno];
      && entry.id < |p.outcomes| == |AfterResponse(p, e).outcomes|
      && |AfterResponse(p, e).outcomes[entry.id]|
         == if IsResent(e, entry) then 0
            else if IsRead(p, e, entry) && e.handling == CallbackRaises && entry.callback.Some? then 2
            else 1
  {
    assert LiveOk(p, e.seqno);
    assert AsksAgain(e.result) <==> e.result in RETRY_CODES;
  }

  lemma SettleTells(p: Pipe, s: nat, payload: Bytes, handling: Handling)
    requires s in p.table && p.table[s].id < |p.outcomes| && p.outcomes[p.table[s].id] == []
    ensures var (q, e) := (Settle(p, s, payload, handling), p.table[s]);
      && s !in q.table && |q.outcomes| == |p.outcomes|
      && (handling == Accepted || (handling == CallbackRaises && e.callback.None?) ==>
            q.outcomes[e.id] == [Delivered(e.callback, payload)])
      && (handling == ParseRaises ==> q.outcomes[e.id] == [Failed(e.request, e.handler, ParseRaised)])
      && (handling == CallbackRaises && e.callback.Some? ==>
            q.outcomes[e.id] == [Delivered(e.callback, payload), Failed(e.request, e.handler, CallbackRaised)])
  {
    hide Without;
  }

  /** What trying to resend leaves as it was. */
  lemma ResendTellsNothing(p: Pipe, s: nat, reason: Reason, raises: bool)
    requires s in p.table
    ensures var (q, e) := (Resend(p, s, reason, raises), p.table[s]);
      && q.outcomes == p.outcomes && s in q.table
      && q.table[s] == e.(retries := q.table[s].retries, reasons := q.table[s].reasons)
  {
  }

  /**
   * A response that is read is handed to the callback of its issue; the error
   * callback learns of one that cannot be parsed, or whose callback raises.
   */
  lemma WhatAReadResponseTells(p: Pipe, e: Event)
    requires Inv(p) && e.Response? && e.seqno in p.table && IsRead(p, e, p.table[e.seqno])
    ensures var (q, id) := (AfterResponse(p, e), p.table[e.seqno].id);
      && id < |p.issues| && |q.outcomes| == |p.outcomes| == |p.issues| && p.issues[id].seqno == e.seqno
      && e.seqno !in q.table
      && var issue := p.issues[id];
        && (e.handling == Accepted || (e.handling == CallbackRaises && issue.callback.None?) ==>
              q.outcomes[id] == [Delivered(issue.callback, e.payload)])
        && (e.handling == ParseRaises ==> q.outcomes[id] == [Failed(issue.request, issue.handler, ParseRaised)])
        && (e.handling == CallbackRaises && issue.callback.Some? ==>
              q.outcomes[id]
              == [Delivered(issue.callback, e.payload), Failed(issue.request, issue.handler, CallbackRaised)])
  {
    hide Encode, Settle, Resend;
    assert LiveOk(p, e.seqno);
    ResendTellsNothing(Uncredit(p), e.seqno, Code(e.result), e.resendRaises);
    SettleTells(Uncredit(p), e.seqno, e.payload, e.handling);
    SettleTells(Resend(Uncredit(p), e.seqno, Code(e.result), e.resendRaises), e.seqno, e.payload, e.handling);
    assert AsksAgain(e.result) <==> e.result in RETRY_CODES;
  }

  /** A response that is to be retried but cannot be, and is not read, tells the error callback why. */
  lemma WhatAFailedRetryTells(p: Pipe, e: Event)
    requires Inv(p) && e.Response? && e.seqno in p.table
    requires !IsRead(p, e, p.table[e.seqno]) && !IsResent(e, p.table[e.seqno])
    ensures var (q, entry) := (AfterResponse(p, e), p.table[e.seqno]);
      && entry.id < |p.issues| && |q.outcomes| == |p.outcomes| == |p.issues|
      && e.seqno !in q.table
      && var (issue, reasons) := (p.issues[entry.id], entry.reasons + [Code(e.result)]);
        && (entry.retries > 0 ==> q.outcomes[entry.id] == [Failed(issue.request, issue.handler, SendRaised)])
        && (entry.retries <= 0 ==>
              q.outcomes[entry.id] == [Failed(issue.request, issue.handler, Exhausted(reasons, false))])
  {
    hide Encode;
    var reasons := p.table[e.seqno].reasons + [Code(e.result)];
    assert LiveOk(p, e.seqno);
    assert AsksAgain(e.result) <==> e.result in RETRY_CODES;
    assert reasons[|reasons| - 1] in reasons;
  }

  /** A resend leaves the request live, spends a retry, notes the reason, and sends the same bytes again. */
  lemma WhatAResendRecords(p: Pipe, e: Event)
    requires Inv(p) && e.Response? && e.seqno in p.table && IsResent(e, p.table[e.seqno])
    ensures var (q, entry) := (AfterResponse(p, e), p.table[e.seqno]);
      && entry.id < |p.issues| == |p.wire| && p.issues[entry.id].seqno == e.seqno
      && q.outcomes == p.outcomes && q.order == p.order && q.inProgress == p.inProgress
      && q.table
         == p.table[e.seqno :=
              entry.(retries := entry.retries - 1, reasons := entry.reasons + [Code(e.result)])]
      && q.wire == p.wire[entry.id := p.wire[entry.id] + [Encode(p.issues[entry.id].request, e.seqno)]]
      && q.nResent == p.nResent + 1 && q.nRetryCodeResent == p.nRetryCodeResent + 1 && q.leaked == p.leaked
  {
    hide Encode;
    assert LiveOk(p, e.seqno);
    assert AsksAgain(e.result) <==> e.result in RETRY_CODES;
  }

  // ---------------------------------------------------------------- what a timeout tells

  /** What is added to the history of a live request by a timeout. */
  function TimeoutTells(entry: Entry, sendRaises: bool): seq<Outcome> {
    var reasons := entry.reasons + [Timeout];
    if entry.retries <= 0 then
      [Failed(entry.request, entry.handler, Exhausted(reasons, AllTimeouts(reasons)))]
    else if sendRaises then [Failed(entry.request, entry.handler, SendRaised)]
    else []
  }

  function TimeoutSends(entry: Entry): seq<Bytes> {
    if entry.retries <= 0 then [] else [entry.data]
  }

  lemma ExpireTells(p: Pipe, x: nat, raises: set<nat>, id: nat)
    requires id < |p.outcomes| == |p.wire|
    ensures var q := Expire(p, x, raises);
      && |q.outcomes| == |q.wire| == |p.wire|
      && (x in p.table && p.table[x].id == id ==>
            && q.outcomes[id] == p.outcomes[id] + TimeoutTells(p.table[x], x in raises)
            && q.wire[id] == p.wire[id] + TimeoutSends(p.table[x]))
      && (x in p.table && p.table[x].id != id ==> q.outcomes[id] == p.outcomes[id] && q.wire[id] == p.wire[id])
  {
    hide Without, Encode, AllTimeouts;
  }

  lemma LastTimeout(reasons: seq<Reason>)
    ensures AllTimeouts(reasons + [Timeout]) <==> forall r :: r in reasons ==> r == Timeout
  {
    if AllTimeouts(reasons + [Timeout]) {
      assert forall r :: r in reasons ==> r in reasons + [Timeout];
    }
  }

  /** Each live request has its own history, so that the others are told nothing of it. */
  lemma {:induction false} ExpireAllTells(p: Pipe, order: seq<nat>, raises: set<nat>, s: nat)
    requires s in p.table && p.table[s].id < |p.outcomes| == |p.wire|
    requires Distinct(order) && forall x :: x in order ==> x in p.table && (x != s ==> p.table[x].id != p.table[s].id)
    ensures var (q, entry) := (ExpireAll(p, order, raises), p.table[s]);
      && |q.outcomes| == |q.wire| == |p.wire|
      && q.outcomes[entry.id] == p.outcomes[entry.id] + (if s in order then TimeoutTells(entry, s in raises) else [])
      && q.wire[entry.id] == p.wire[entry.id] + if s in order then TimeoutSends(entry) else []
  {
    hide Expire, TimeoutTells, TimeoutSends;
    if order != [] {
      var before, last := order[..|order| - 1], order[|order| - 1];
      assert order == before + [last];
      assert last in order && last !in before;
      ExpireAllTells(p, before, raises, s);
      ExpireAllReachesEach(p, before, raises, last);
      ExpireTells(ExpireAll(p, before, raises), last, raises, p.table[s].id);
    }
  }

  /**
   * A timeout resends the same bytes for each live request that has a retry left,
   * and tells the error callbacks of those alone that could not be resent, and why.
   */
  lemma WhatATimeoutTells(p: Pipe, s: nat, raises: set<nat>)
    requires Inv(p) && s in p.table
    ensures var (q, entry) := (AfterTimeout(p, raises), p.table[s]);
      && entry.id < |p.issues| == |p.wire| == |p.outcomes| && |q.wire| == |q.outcomes| == |p.wire|
      && p.issues[entry.id].seqno == s
      && var (issue, reasons) := (p.issues[entry.id], entry.reasons + [Timeout]);
        && (entry.retries > 0 && s !in raises ==> q.outcomes[entry.id] == [])
        && (entry.retries > 0 && s in raises ==>
              q.outcomes[entry.id] == [Failed(issue.request, issue.handler, SendRaised)])
        && (entry.retries <= 0 ==>
              q.outcomes[entry.id]
              == [Failed(issue.request, issue.handler,
                         Exhausted(reasons, forall r :: r in entry.reasons ==> r == Timeout))])
        && q.wire[entry.id]
           == p.wire[entry.id] + if entry.retries > 0 then [Encode(issue.request, s)] else []
  {
    hide ExpireAll, Encode;
    var p0 := p.(nTimeouts := p.nTimeouts + 1);
    assert LiveOk(p, s);
    forall x | x in p.order && x != s ensures p.table[x].id != p.table[s].id {
      assert LiveOk(p, x);
    }
    ExpireAllTells(p0, p.order, raises, s);
    LastTimeout(p.table[s].reasons);
  }

  /** A timeout makes one error callback for each live request that it does not resend, and no other. */
  lemma CallbacksOfATimeout(p: Pipe, s: nat, raises: set<nat>)
    requires Inv(p) && s in p.table
    ensures var entry := p.table[s];
      && entry.id < |p.outcomes| == |AfterTimeout(p, raises).outcomes|
      && |AfterTimeout(p, raises).outcomes[entry.id]| == if entry.retries > 0 && s !in raises then 0 else 1
  {
    hide AfterTimeout;
    assert LiveOk(p, s);
    WhatATimeoutTells(p, s, raises);
  }

  // ---------------------------------------------------------------- the window

  ghost predicate InWindow(p: Pipe) {
    p.nChannels.Some? ==> p.inProgress <= p.nChannels.value
  }

  lemma {:induction false} ExpireAllTakesNoCredit(p: Pipe, order: seq<nat>, raises: set<nat>)
    ensures ExpireAll(p, order, raises).inProgress <= p.inProgress
  {
    hide Without, Encode;
    if order != [] {
      ExpireAllTakesNoCredit(p, order[..|order| - 1], raises);
    }
  }

  lemma {:induction false} RetrieveTakesNoCredit(p: Pipe, n: int, events: seq<Event>)
    ensures Retrieve(p, n, events).pipe.inProgress <= p.inProgress
    decreases |events|
  {
    hide Without, Encode, ExpireAll;
    if p.inProgress > n && events != [] {
      if events[0].TimedOut? {
        ExpireAllTakesNoCredit(p.(nTimeouts := p.nTimeouts + 1), p.order, events[0].sendRaises);
      }
      assert AfterEvent(p, events[0]).inProgress <= p.inProgress;
      RetrieveTakesNoCredit(AfterEvent(p, events[0]), n, events[1..]);
    }
  }

  /** No call, however it ends, takes the pipeline out of its window. */
  lemma PerformKeepsWindow(p: Pipe, c: Call)
    requires Inv(p) && InWindow(p)
    ensures InWindow(Perform(p, c).pipe)
  {
    hide Retrieve;
    if c.FinishCall? {
      RetrieveTakesNoCredit(p, 0, c.events);
      RetrieveKeepsIssues(p, 0, c.events);
    } else {
      var m := Measure(p, c.ready);
      if m.nChannels.Some? {
        RetrieveTakesNoCredit(m, m.waits.value, c.events);
        RetrieveKeepsIssues(m, m.waits.value, c.events);
      }
    }
  }

  /** Over every run of a pipeline the window holds, whether given or measured. */
  lemma {:induction false} WindowHoldsOverRuns(p: Pipe, calls: seq<Call>, q: Pipe)
    requires Inv(p) && InWindow(p) && Reachable(p, calls, q)
    ensures InWindow(q)
    decreases |calls|
  {
    hide Inv, InWindow, Perform;
    if calls != [] {
      PerformKeepsInv(p, calls[0]);
      PerformKeepsWindow(p, calls[0]);
      var r := Perform(p, calls[0]);
      if r.status.Returned? || r.status.Raised? {
        WindowHoldsOverRuns(r.pipe, calls[1..], q);
      }
    }
  }

  /** A send loops without receiving exactly when the waits are not below the window and the window is full. */
  lemma SendSpinsIff(p: Pipe, issue: Issue, ready: bool, events: seq<Event>, sendRaises: bool)
    requires Inv(p) && InWindow(p)
    ensures Send(p, issue, ready, events, sendRaises).status.Spinning? <==>
            p.nChannels.Some? && p.nChannels.value <= p.waits.value && p.inProgress == p.nChannels.value
  {
    var m := Measure(p, ready);
    if m.nChannels.Some? {
      RetrieveKeepsIssues(m, m.waits.value, events);
    }
  }

  /** A concrete instance: one channel, one wait, and the second send spins whatever arrives. */
  lemma SecondSendSpins(first: Issue, second: Issue, events: seq<Event>)
    ensures var r := Send(Initial(Some(1), Some(1), 10, {}), first, false, [], false);
      r.status.Returned? && Send(r.pipe, second, false, events, false).status.Spinning?
  {
    hide Encode;
  }
}
