/** What every run of the pipeline keeps, whatever the link does. */
module ScpPipelineInvariants {
  import opened Common
  import opened ScpPipeline

  function Max0(n: int): nat { if n < 0 then 0 else n }

  ghost predicate Shape(p: Pipe) {
    && |p.wire| == |p.issues| == |p.outcomes|
    && Distinct(p.order)
    && (forall s :: s in p.order <==> s in p.table)
    && (p.nChannels.Some? ==> p.waits.Some?)
  }

  /** A live request: its budget, its history and its identity are all accounted for. */
  ghost predicate LiveOk(p: Pipe, s: nat)
    requires Shape(p) && s in p.table
  {
    var e := p.table[s];
    && e.id < |p.issues|
    && e.id !in p.lost
    && p.issues[e.id] == Issue(e.request, e.callback, e.handler, s)
    && e.data == Encode(e.request, s)
    && e.retries + |e.reasons| == p.nRetries
    && (0 <= p.nRetries ==> 0 <= e.retries)
    && |p.wire[e.id]| == |e.reasons| + 1
    && p.outcomes[e.id] == []
  }

  ghost predicate FailureOk(p: Pipe, id: nat, o: Outcome)
    requires id < |p.issues| == |p.wire|
  {
    && o.Failed?
    && o.request == p.issues[id].request && o.handler == p.issues[id].handler
    && (o.failure.Exhausted? ==>
          && |o.failure.reasons| == Max0(p.nRetries) + 1 == |p.wire[id]|
          && (o.failure.asTimeout <==> AllTimeouts(o.failure.reasons)))
  }

  /**
   * The outcome of a request that leaves the table: one response or one error,
   * and both only when it was the response callback itself that raised.
   */
  ghost predicate Settles(p: Pipe, id: nat, o: seq<Outcome>)
    requires id < |p.issues| == |p.wire|
  {
    || (|o| == 1 && o[0].Delivered? && o[0].callback == p.issues[id].callback)
    || (|o| == 1 && FailureOk(p, id, o[0]) && o[0].failure != CallbackRaised)
    || (|o| == 2 && o[0].Delivered? && o[0].callback == p.issues[id].callback && o[0].callback.Some?
        && FailureOk(p, id, o[1]) && o[1].failure == CallbackRaised)
  }

  /** Every send of an issue carries the same bytes, and there are at most `nRetries + 1`. */
  ghost predicate SameBytes(p: Pipe, id: nat)
    requires Shape(p) && id < |p.issues|
  {
    && 1 <= |p.wire[id]| <= Max0(p.nRetries) + 1
    && forall b :: b in p.wire[id] ==> b == Encode(p.issues[id].request, p.issues[id].seqno)
  }

  ghost predicate Live(p: Pipe, id: nat)
    requires id < |p.issues|
  {
    p.issues[id].seqno in p.table && p.table[p.issues[id].seqno].id == id
  }

  /** Each issue is exactly one of: live, lost to a reused number, or settled. */
  ghost predicate IssueOk(p: Pipe, id: nat)
    requires Shape(p) && id < |p.issues|
  {
    && SameBytes(p, id)
    && (if p.outcomes[id] == [] then id in p.lost || Live(p, id) else id !in p.lost && Settles(p, id, p.outcomes[id]))
  }

  ghost predicate Core(p: Pipe) {
    && Shape(p)
    && (forall s {:trigger LiveOk(p, s)} :: s in p.table ==> LiveOk(p, s))
    && (forall id :: id in p.lost ==> id < |p.issues|)
    && (forall id {:trigger IssueOk(p, id)} :: 0 <= id < |p.issues| ==> IssueOk(p, id))
  }

  /** Credit beyond what the table, the raising sends and the reused numbers explain. */
  function Surplus(p: Pipe): int {
    p.inProgress - (|p.order| + p.leaked + |p.lost| - p.unsent)
  }

  ghost predicate Inv(p: Pipe) {
    Core(p) && Surplus(p) == 0
  }

  // ---------------------------------------------------------------- one request

  /** `q` differs from `p` at most in request `s`, its issue, and in counters. */
  ghost predicate Elsewhere(p: Pipe, q: Pipe, s: nat)
    requires s in p.table
  {
    var id := p.table[s].id;
    && q.nRetries == p.nRetries && q.issues == p.issues && q.lost == p.lost
    && q.nChannels == p.nChannels && q.waits == p.waits
    && |q.wire| == |p.wire| && |q.outcomes| == |p.outcomes|
    && (forall t :: t != s ==> (t in q.table <==> t in p.table))
    && (forall t :: t in p.table && t != s ==> q.table[t] == p.table[t])
    && (forall i :: 0 <= i < |p.wire| && i != id ==> q.wire[i] == p.wire[i])
    && (forall i :: 0 <= i < |p.outcomes| && i != id ==> q.outcomes[i] == p.outcomes[i])
  }

  lemma OnlyOneChanged(p: Pipe, q: Pipe, s: nat)
    requires Core(p) && s in p.table && Elsewhere(p, q, s) && Shape(q)
    requires s in q.table ==> q.table[s].id == p.table[s].id && LiveOk(q, s)
    requires p.table[s].id < |p.issues| && IssueOk(q, p.table[s].id)
    ensures Core(q)
  {
    assert LiveOk(p, s);
    forall t | t in q.table && t != s ensures LiveOk(q, t) {
      assert LiveOk(p, t);
    }
    forall i | 0 <= i < |q.issues| ensures IssueOk(q, i) {
      assert IssueOk(p, i);
    }
  }

  lemma ForgetKeepsShape(p: Pipe, s: nat)
    requires Shape(p) && s in p.table
    ensures Shape(Forget(p, {s})) && |Forget(p, {s}).order| == |p.order| - 1
  {
    WithoutDistinct(p.order, {s});
    WithoutOne(p.order, s);
  }

  /** A resend that does not raise restores the credit that was taken back. */
  lemma ResendKeepsCore(p: Pipe, s: nat, reason: Reason)
    requires Core(p) && s in p.table && p.table[s].retries > 0
    ensures var q := Resend(p, s, reason, false);
      Core(q) && Surplus(q) == Surplus(p) + 1 && q.order == p.order && q.leaked == p.leaked
  {
    assert LiveOk(p, s) && IssueOk(p, p.table[s].id);
    var q := Resend(p, s, reason, false);
    OnlyOneChanged(p, q, s);
  }

  /** `q` is `p` after at most a raising resend of `s`: the record is still there to be closed. */
  ghost predicate Closable(p: Pipe, q: Pipe, s: nat) {
    && Core(p) && s in p.table && Shape(q) && s in q.table && Elsewhere(p, q, s)
    && q.order == p.order && q.outcomes == p.outcomes
    && q.table[s].id == p.table[s].id
    && q.table[s].request == p.table[s].request
    && q.table[s].callback == p.table[s].callback
    && q.table[s].handler == p.table[s].handler
    && LiveOk(p, s)
    && SameBytes(q, p.table[s].id)
  }

  lemma CloseKeepsCore(p: Pipe, q: Pipe, s: nat, o: seq<Outcome>)
    requires Closable(p, q, s) && Settles(q, p.table[s].id, o)
    ensures var r := Forget(q.(outcomes := q.outcomes[p.table[s].id := o]), {s});
      Core(r) && Surplus(r) == Surplus(q) + 1
  {
    var r := Forget(q.(outcomes := q.outcomes[p.table[s].id := o]), {s});
    ForgetKeepsShape(q, s);
    assert r.order == Without(q.order, {s});
    OnlyOneChanged(p, r, s);
  }

  lemma FailKeepsCore(p: Pipe, q: Pipe, s: nat, f: Failure)
    requires Closable(p, q, s) && f != CallbackRaised
    requires FailureOk(q, p.table[s].id, Failed(p.table[s].request, p.table[s].handler, f))
    ensures Core(Fail(q, s, f)) && Surplus(Fail(q, s, f)) == Surplus(q) + 1
  {
    var o := [Failed(p.table[s].request, p.table[s].handler, f)];
    CloseKeepsCore(p, q, s, o);
    assert q.outcomes[p.table[s].id] + o == o;
  }

  lemma SettleKeepsCore(p: Pipe, q: Pipe, s: nat, payload: Bytes, handling: Handling)
    requires Closable(p, q, s)
    ensures var r := Settle(q, s, payload, handling);
      Core(r) && Surplus(r) == Surplus(q) + 1
  {
    hide Core, Without, SameBytes;
    var e := p.table[s];
    if handling == ParseRaises {
      FailKeepsCore(p, q, s, ParseRaised);
    } else {
      var o := [Delivered(e.callback, payload)];
      assert q.outcomes[e.id] + o == o;
      if handling == CallbackRaises && e.callback.Some? {
        var f := Failed(e.request, e.handler, CallbackRaised);
        CloseKeepsCore(p, q, s, o + [f]);
        assert q.outcomes[e.id := o][e.id := o + [f]] == q.outcomes[e.id := o + [f]];
      } else {
        CloseKeepsCore(p, q, s, o);
      }
    }
  }

  /** A resend that raises spends nothing but, when it is the send that raised, a credit. */
  lemma RaisingResend(p: Pipe, s: nat, reason: Reason, sendRaises: bool)
    requires Core(p) && s in p.table && ResendFailure(p, s, reason, sendRaises).Some?
    ensures var q := Resend(p, s, reason, sendRaises);
      var f := ResendFailure(p, s, reason, sendRaises).value;
      && Closable(p, q, s) && f != CallbackRaised && Surplus(q) == Surplus(p)
      && FailureOk(q, p.table[s].id, Failed(p.table[s].request, p.table[s].handler, f))
  {
    assert LiveOk(p, s) && IssueOk(p, p.table[s].id);
  }

  /** Resending one request, or failing it, gives back exactly one credit. */
  lemma ResendOrFailKeepsCore(p: Pipe, s: nat, reason: Reason, sendRaises: bool)
    requires Core(p) && s in p.table
    ensures var r := ResendOrFail(p, s, reason, sendRaises);
      Core(r) && Surplus(r) == Surplus(p) + 1
  {
    if ResendFailure(p, s, reason, sendRaises).None? {
      ResendKeepsCore(p, s, reason);
    } else {
      RaisingResend(p, s, reason, sendRaises);
      FailKeepsCore(p, Resend(p, s, reason, sendRaises), s, ResendFailure(p, s, reason, sendRaises).value);
    }
  }

  lemma CoreIsClosable(p: Pipe, s: nat)
    requires Core(p) && s in p.table
    ensures Closable(p, p, s)
  {
    assert LiveOk(p, s) && IssueOk(p, p.table[s].id);
  }

  // ---------------------------------------------------------------- events

  /** `Core` does not look at the counters. */
  lemma SameCore(p: Pipe, q: Pipe)
    requires Core(p)
    requires q.order == p.order && q.table == p.table && q.issues == p.issues && q.wire == p.wire
    requires q.outcomes == p.outcomes && q.lost == p.lost && q.nRetries == p.nRetries
    requires q.nChannels.Some? ==> q.waits.Some?
    ensures Core(q)
  {
    forall t | t in q.table ensures LiveOk(q, t) { assert LiveOk(p, t); }
    forall i | 0 <= i < |q.issues| ensures IssueOk(q, i) { assert IssueOk(p, i); }
  }

  lemma ExpireKeepsInv(p: Pipe, s: nat, sendRaises: set<nat>)
    requires Inv(p)
    ensures Inv(Expire(p, s, sendRaises))
  {
    if s in p.table {
      SameCore(p, Uncredit(p));
      ResendOrFailKeepsCore(Uncredit(p), s, Timeout, s in sendRaises);
    }
  }

  lemma {:induction false} ExpireAllKeepsInv(p: Pipe, order: seq<nat>, sendRaises: set<nat>)
    requires Inv(p)
    ensures Inv(ExpireAll(p, order, sendRaises))
  {
    if order != [] {
      ExpireAllKeepsInv(p, order[..|order| - 1], sendRaises);
      ExpireKeepsInv(ExpireAll(p, order[..|order| - 1], sendRaises), order[|order| - 1], sendRaises);
    }
  }

  lemma AnswerKeepsCore(p: Pipe, s: nat, e: Event)
    requires Core(p) && e.Response? && s in p.table
    ensures Core(Answer(p, s, e)) && Surplus(Answer(p, s, e)) == Surplus(p) + 1
  {
    var failure := ResendFailure(p, s, Code(e.result), e.resendRaises);
    if e.result !in RETRY_CODES {
      CoreIsClosable(p, s);
      SettleKeepsCore(p, p, s, e.payload, e.handling);
    } else if failure.Some? && e.result in p.nonFail {
      RaisingResend(p, s, Code(e.result), e.resendRaises);
      SettleKeepsCore(p, Resend(p, s, Code(e.result), e.resendRaises), s, e.payload, e.handling);
    } else {
      ResendOrFailKeepsCore(p, s, Code(e.result), e.resendRaises);
      var q := ResendOrFail(p, s, Code(e.result), e.resendRaises);
      SameCore(q, q.(nRetryCodeResent := q.nRetryCodeResent + 1));
    }
  }

  lemma ResponseKeepsInv(p: Pipe, e: Event)
    requires Inv(p) && e.Response?
    ensures Inv(AfterResponse(p, e))
  {
    if e.seqno in p.table {
      SameCore(p, Uncredit(p));
      AnswerKeepsCore(Uncredit(p), e.seqno, e);
    }
  }

  lemma EventKeepsInv(p: Pipe, e: Event)
    requires Inv(p)
    ensures Inv(AfterEvent(p, e))
  {
    match e
    case TimedOut(raises) =>
      SameCore(p, p.(nTimeouts := p.nTimeouts + 1));
      ExpireAllKeepsInv(p.(nTimeouts := p.nTimeouts + 1), p.order, raises);
    case Response(_, _, _, _, _) =>
      ResponseKeepsInv(p, e);
  }

  lemma {:induction false} RetrieveKeepsInv(p: Pipe, n: int, events: seq<Event>)
    requires Inv(p)
    ensures Inv(Retrieve(p, n, events).pipe)
    decreases |events|
  {
    if p.inProgress > n && events != [] {
      EventKeepsInv(p, events[0]);
      RetrieveKeepsInv(AfterEvent(p, events[0]), n, events[1..]);
    }
  }

  lemma EnterKeepsInv(p: Pipe, issue: Issue, sendRaises: bool)
    requires Inv(p)
    ensures Inv(Enter(p, issue, sendRaises))
  {
    hide Encode;
    var q := Enter(p, issue, sendRaises);
    var s := issue.seqno;
    assert forall t :: t in q.order <==> t in q.table;
    if s in p.table {
      assert LiveOk(p, s);
      assert p.table[s].id !in p.lost;
      assert |q.lost| == |p.lost| + 1;
    }
    assert Shape(q);
    forall t | t in q.table ensures LiveOk(q, t) {
      EnterKeepsLive(p, issue, sendRaises, t);
    }
    forall i | 0 <= i < |q.issues| ensures IssueOk(q, i) {
      hide Enter;
      EnterKeepsIssues(p, issue, sendRaises, i);
    }
  }

  lemma EnterKeepsLive(p: Pipe, issue: Issue, sendRaises: bool, t: nat)
    requires Inv(p) && Shape(Enter(p, issue, sendRaises)) && t in Enter(p, issue, sendRaises).table
    ensures LiveOk(Enter(p, issue, sendRaises), t)
  {
    hide Encode, IssueOk;
    if issue.seqno in p.table { assert LiveOk(p, issue.seqno); }
    if t != issue.seqno { assert LiveOk(p, t); assert p.issues[p.table[t].id].seqno == t; }
  }

  lemma EnterKeepsIssues(p: Pipe, issue: Issue, sendRaises: bool, i: nat)
    requires Inv(p) && Shape(Enter(p, issue, sendRaises)) && i < |Enter(p, issue, sendRaises).issues|
    ensures IssueOk(Enter(p, issue, sendRaises), i)
  {
    hide Encode;
    if issue.seqno in p.table { assert LiveOk(p, issue.seqno); }
    if i < |p.issues| { assert IssueOk(p, i); }
  }

  lemma SendKeepsInv(p: Pipe, issue: Issue, ready: bool, events: seq<Event>, sendRaises: bool)
    requires Inv(p)
    ensures Inv(Send(p, issue, ready, events, sendRaises).pipe)
  {
    var m := Measure(p, ready);
    SameCore(p, m);
    if m.nChannels.Some? {
      RetrieveKeepsInv(m, m.waits.value, events);
    }
    EnterKeepsInv(Admit(m, events).pipe, issue, sendRaises);
  }
}
