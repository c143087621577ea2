/**
 * The pipeline as the source has it: six dictionaries keyed by sequence number
 * and a handful of counters, updated in place. Every method is tied to the
 * state machine of module ScpPipeline.
 */
module ScpPipelineObject {
  import opened Common
  import opened ScpPipeline
  import opened ScpPipelineInvariants
  import opened ScpPipelineTheorems

  /** The allocator shared by all pipelines of the program. */
  class SequenceCounter {
    var next: nat

    constructor ()
      ensures next == 0
    {
      next := 0;
    }

    method GetNext() returns (sequence: nat)
      modifies this
      ensures sequence == old(next) && next == (old(next) + 1) % MAX_SEQUENCE
    {
      sequence := next;
      next := (sequence + 1) % MAX_SEQUENCE;
    }
  }

  /** The six dictionaries of the source. */
  datatype Dictionaries = Dictionaries(
    requests: map<nat, Request>, data: map<nat, Bytes>, retries: map<nat, int>,
    callbacks: map<nat, Option<Callback>>, handlers: map<nat, ErrorCallback>, reasons: map<nat, seq<Reason>>)

  function Column<V>(table: map<nat, Entry>, field: Entry -> V): map<nat, V> {
    map s | s in table :: field(table[s])
  }

  lemma ColumnUpdate<V>(table: map<nat, Entry>, field: Entry -> V, s: nat, e: Entry)
    ensures Column(table[s := e], field) == Column(table, field)[s := field(e)]
    ensures s in table && field(e) == field(table[s]) ==> Column(table[s := e], field) == Column(table, field)
  {
  }

  lemma ColumnMinus<V>(table: map<nat, Entry>, field: Entry -> V, s: nat)
    ensures Column(table - {s}, field) == Column(table, field) - {s}
  {
  }

  function RequestOf(e: Entry): Request { e.request }
  function DataOf(e: Entry): Bytes { e.data }
  function RetriesOf(e: Entry): int { e.retries }
  function CallbackOf(e: Entry): Option<Callback> { e.callback }
  function HandlerOf(e: Entry): ErrorCallback { e.handler }
  function ReasonsOf(e: Entry): seq<Reason> { e.reasons }

  /** All six dictionaries have the keys of the table. */
  function Columns(table: map<nat, Entry>): Dictionaries {
    Dictionaries(
      Column(table, RequestOf), Column(table, DataOf), Column(table, RetriesOf),
      Column(table, CallbackOf), Column(table, HandlerOf), Column(table, ReasonsOf))
  }

  lemma ColumnsMinus(table: map<nat, Entry>, s: nat)
    ensures var d := Columns(table);
      Columns(table - {s})
      == Dictionaries(d.requests - {s}, d.data - {s}, d.retries - {s},
                      d.callbacks - {s}, d.handlers - {s}, d.reasons - {s})
  {
    ColumnMinus(table, RequestOf, s);
    ColumnMinus(table, DataOf, s);
    ColumnMinus(table, RetriesOf, s);
    ColumnMinus(table, CallbackOf, s);
    ColumnMinus(table, HandlerOf, s);
    ColumnMinus(table, ReasonsOf, s);
  }

  lemma ColumnsUpdate(table: map<nat, Entry>, s: nat, e: Entry)
    ensures var d := Columns(table);
      Columns(table[s := e])
      == Dictionaries(d.requests[s := e.request], d.data[s := e.data], d.retries[s := e.retries],
                      d.callbacks[s := e.callback], d.handlers[s := e.handler], d.reasons[s := e.reasons])
  {
    ColumnUpdate(table, RequestOf, s, e);
    ColumnUpdate(table, DataOf, s, e);
    ColumnUpdate(table, RetriesOf, s, e);
    ColumnUpdate(table, CallbackOf, s, e);
    ColumnUpdate(table, HandlerOf, s, e);
    ColumnUpdate(table, ReasonsOf, s, e);
  }

  /** What the dictionaries hold for one live request. */
  ghost predicate ColumnsAt(table: map<nat, Entry>, s: nat)
    requires s in table
  {
    var d := Columns(table);
    && s in d.requests && s in d.data && s in d.retries && s in d.callbacks && s in d.handlers && s in d.reasons
    && d.requests[s] == table[s].request && d.data[s] == table[s].data && d.retries[s] == table[s].retries
    && d.callbacks[s] == table[s].callback && d.handlers[s] == table[s].handler && d.reasons[s] == table[s].reasons
  }

  lemma KeysAgree(table: map<nat, Entry>, s: nat)
    ensures s in Columns(table).requests <==> s in table
    ensures s in table ==> ColumnsAt(table, s)
  {
  }

  lemma ColumnsRetry(table: map<nat, Entry>, s: nat, e: Entry)
    requires s in table && e == table[s].(retries := e.retries, reasons := e.reasons)
    ensures var d := Columns(table);
      && Columns(table[s := e]) == d.(retries := d.retries[s := e.retries], reasons := d.reasons[s := e.reasons])
      && (e.retries == table[s].retries ==> Columns(table[s := e]) == d.(reasons := d.reasons[s := e.reasons]))
      && ColumnsAt(table, s)
      && d.requests[s := d.requests[s]] == d.requests
  {
    ColumnUpdate(table, RequestOf, s, e);
    ColumnUpdate(table, DataOf, s, e);
    ColumnUpdate(table, RetriesOf, s, e);
    ColumnUpdate(table, CallbackOf, s, e);
    ColumnUpdate(table, HandlerOf, s, e);
    ColumnUpdate(table, ReasonsOf, s, e);
  }

  lemma ResendFields(p: Pipe, s: nat, reason: Reason, sendRaises: bool)
    requires s in p.table
    ensures var q := Resend(p, s, reason, sendRaises);
      var e := p.table[s];
      && q.order == p.order && q.nChannels == p.nChannels && q.waits == p.waits && q.nRetries == p.nRetries
      && q.nonFail == p.nonFail && q.nTimeouts == p.nTimeouts && q.nRetryCodeResent == p.nRetryCodeResent
      && (if e.retries <= 0 then
            && q.inProgress == p.inProgress && q.nResent == p.nResent
            && q.table == p.table[s := e.(reasons := e.reasons + [reason])]
          else
            && q.inProgress == p.inProgress + 1
            && q.nResent == p.nResent + (if sendRaises then 0 else 1)
            && q.table == p.table[s := e.(retries := e.retries - 1, reasons := e.reasons + [reason])])
  {
  }

  lemma WindowKnown(p: Pipe)
    requires Inv(p)
    ensures p.nChannels.Some? ==> p.waits.Some?
  {
  }

  lemma SameInv(p: Pipe, ready: bool)
    requires Inv(p)
    ensures Inv(Measure(p, ready))
  {
    SameCore(p, Measure(p, ready));
  }

  lemma ShapeFacts(p: Pipe)
    requires Shape(p)
    ensures Distinct(p.order) && (forall s :: s in p.order <==> s in p.table)
  {
  }

  lemma ReportFields(p: Pipe, id: nat, o: Outcome)
    ensures Report(p, id, o).table == p.table && Report(p, id, o).order == p.order
  {
  }

  // The timeout handler drops its failed records after the loop over them; the
  // state machine drops each at once. These lemmas say that it makes no difference.

  lemma ForgetTwice(p: Pipe, a: set<nat>, b: set<nat>)
    ensures Forget(Forget(p, a), b) == Forget(p, a + b)
  {
    WithoutTwice(p.order, a, b);
    assert p.table - a - b == p.table - (a + b);
  }

  lemma ForgetNothing(p: Pipe)
    ensures Forget(p, {}) == p
  {
    WithoutNone(p.order, {});
    assert p.table - {} == p.table;
  }

  lemma ForgetThenResend(p: Pipe, gone: set<nat>, s: nat, reason: Reason, raises: bool)
    requires s in p.table && s !in gone
    ensures ResendFailure(Forget(p, gone), s, reason, raises) == ResendFailure(p, s, reason, raises)
    ensures Resend(Forget(p, gone), s, reason, raises) == Forget(Resend(p, s, reason, raises), gone)
  {
    hide Without, AllTimeouts;
    var e := p.table[s].(reasons := p.table[s].reasons + [reason]);
    var e' := e.(retries := e.retries - 1);
    assert (p.table - gone)[s := e] == p.table[s := e] - gone;
    assert (p.table - gone)[s := e'] == p.table[s := e'] - gone;
  }

  lemma ForgetThenFail(p: Pipe, gone: set<nat>, s: nat, failure: Failure)
    requires s in p.table && s !in gone
    ensures Fail(Forget(p, gone), s, failure)
            == Forget(Report(p, p.table[s].id, Failed(p.table[s].request, p.table[s].handler, failure)), gone + {s})
  {
    var q := Report(p, p.table[s].id, Failed(p.table[s].request, p.table[s].handler, failure));
    assert Report(Forget(p, gone), p.table[s].id, Failed(p.table[s].request, p.table[s].handler, failure))
        == Forget(q, gone);
    ForgetTwice(q, gone, {s});
  }

  lemma ForgetThenExpire(p: Pipe, gone: set<nat>, s: nat, raises: set<nat>)
    requires s in p.table && s !in gone
    ensures var q := Resend(Uncredit(p), s, Timeout, s in raises);
      var f := ResendFailure(Uncredit(p), s, Timeout, s in raises);
      Expire(Forget(p, gone), s, raises)
      == if f.None? then Forget(q, gone)
         else Forget(Report(q, p.table[s].id, Failed(p.table[s].request, p.table[s].handler, f.value)), gone + {s})
  {
    hide Resend, ResendFailure, Report, Fail;
    assert Uncredit(Forget(p, gone)) == Forget(Uncredit(p), gone);
    ForgetThenResend(Uncredit(p), gone, s, Timeout, s in raises);
    ResendFields(Uncredit(p), s, Timeout, s in raises);
    var f := ResendFailure(Uncredit(p), s, Timeout, s in raises);
    if f.Some? {
      ForgetThenFail(Resend(Uncredit(p), s, Timeout, s in raises), gone, s, f.value);
    }
  }

  lemma {:induction false} NoneExpired(p: Pipe, raises: set<nat>)
    ensures ExpireAll(p, [], raises) == p
  {
  }

  lemma {:induction false} NextExpired(p: Pipe, items: seq<nat>, i: nat, raises: set<nat>)
    requires i < |items|
    ensures ExpireAll(p, items[..i + 1], raises) == Expire(ExpireAll(p, items[..i], raises), items[i], raises)
  {
    assert items[..i + 1][..i] == items[..i];
  }

  /** The next request is not yet listed as failed, and would be the only one to be added. */
  lemma NotYetListed(listed: seq<nat>, items: seq<nat>, i: nat)
    requires Distinct(items) && i < |items| && Distinct(listed) && forall s :: s in listed ==> s in items[..i]
    ensures items[i] !in listed && Distinct(listed + [items[i]])
    ensures Elements(listed + [items[i]]) == Elements(listed) + {items[i]}
    ensures forall s :: s in listed + [items[i]] ==> s in items[..i + 1]
    ensures forall s :: s in listed ==> s in items[..i + 1]
  {
    assert items[..i + 1] == items[..i] + [items[i]];
  }

  class SCPRequestPipeLine {
    var nChannels: Option<int>
    var waits: Option<int>
    const nRetries: int
    const nonFail: set<ResultCode>
    var d: Dictionaries
    var order: seq<nat>  // the insertion order that Python keeps for the requests
    var inProgress: int
    var nTimeouts: nat
    var nResent: nat
    var nRetryCodeResent: nat

    ghost var state: Pipe  // the abstract state, with the history

    /** The fields are the abstract state's. */
    ghost predicate Consistent()
      reads this
    {
      && d == Columns(state.table) && order == state.order
      && nChannels == state.nChannels && waits == state.waits && nRetries == state.nRetries && nonFail == state.nonFail
      && inProgress == state.inProgress
      && nTimeouts == state.nTimeouts && nResent == state.nResent && nRetryCodeResent == state.nRetryCodeResent
    }

    ghost predicate Valid()
      reads this
    {
      Consistent() && Inv(state)
    }

    constructor (nChannels: Option<int>, waits: Option<int>, nRetries: int, nonFail: set<ResultCode>)
      ensures Valid() && state == Initial(nChannels, waits, nRetries, nonFail)
      ensures this.nChannels == nChannels && inProgress == 0 && (waits.Some? || nChannels.None? ==> this.waits == waits)
      ensures waits.None? && nChannels.Some? ==>
        this.waits == Some(if nChannels.value >= 8 then nChannels.value - 8 else 0)
    {
      this.nChannels := nChannels;
      if nChannels.Some? && waits.None? {
        var w := nChannels.value - 8;
        if w < 0 { w := 0; }
        this.waits := Some(w);
      } else {
        this.waits := waits;
      }
      this.nRetries, this.nonFail := nRetries, nonFail;
      d := Dictionaries(map[], map[], map[], map[], map[], map[]);
      order, inProgress, nTimeouts, nResent, nRetryCodeResent := [], 0, 0, 0, 0;
      state := Initial(nChannels, waits, nRetries, nonFail);
    }

    method RemoveRecord(seqno: nat)
      requires Consistent() && seqno in d.requests
      modifies this
      ensures Consistent() && state == Forget(old(state), {seqno})
    {
      hide Columns, Column;
      ColumnsMinus(state.table, seqno);
      if seqno in d.requests {
        order := Without(order, {seqno});
        d := d.(requests := d.requests - {seqno});
      }
      d := d.(data := d.data - {seqno});
      d := d.(retries := d.retries - {seqno});
      d := d.(callbacks := d.callbacks - {seqno});
      d := d.(handlers := d.handlers - {seqno});
      d := d.(reasons := d.reasons - {seqno});
      state := Forget(state, {seqno});
    }

    method TryResend(seqno: nat, request: Request, reason: Reason, sendRaises: bool) returns (raised: Option<Failure>)
      requires Consistent() && seqno in state.table && seqno in d.requests && request == d.requests[seqno]
      modifies this
      ensures Consistent() && d.requests == old(d).requests
      ensures state == Resend(old(state), seqno, reason, sendRaises)
      ensures raised == ResendFailure(old(state), seqno, reason, sendRaises)
    {
      hide Resend, Columns, Column;
      state := Resend(state, seqno, reason, sendRaises);
      ResendFields(old(state), seqno, reason, sendRaises);
      ColumnsRetry(old(state).table, seqno, state.table[seqno]);
      if d.retries[seqno] <= 0 {
        d := d.(reasons := d.reasons[seqno := d.reasons[seqno] + [reason]]);
        return Some(Exhausted(d.reasons[seqno], AllTimeouts(d.reasons[seqno])));
      }
      d := d.(retries := d.retries[seqno := d.retries[seqno] - 1]);
      inProgress := inProgress + 1;
      d := d.(requests := d.requests[seqno := request]);
      d := d.(reasons := d.reasons[seqno := d.reasons[seqno] + [reason]]);
      if sendRaises {
        return Some(SendRaised);
      }
      nResent := nResent + 1;
      return None;
    }

    /** A callback of the issue has been called. */
    ghost method RecordOutcome(id: nat, o: Outcome)
      requires Consistent()
      modifies this`state
      ensures Consistent() && state == Report(old(state), id, o)
    {
      state := Report(state, id, o);
    }

    method CallError(seqno: nat, request: Request, failure: Failure)
      requires Consistent() && seqno in state.table && request == state.table[seqno].request
      modifies this`state
      ensures Consistent()
      ensures var e := old(state).table[seqno];
        state == Report(old(state), e.id, Failed(request, e.handler, failure))
    {
      hide Columns, Column;
      KeysAgree(state.table, seqno);
      var handler := d.handlers[seqno];
      RecordOutcome(state.table[seqno].id, Failed(request, handler, failure));
    }

    /** Parse the response, hand it to the callback, and drop the record. */
    method ConstructResponse(seqno: nat, request: Request, payload: Bytes, handling: Handling)
      requires Consistent() && seqno in state.table && request == state.table[seqno].request
      modifies this
      ensures Consistent() && state == Settle(old(state), seqno, payload, handling)
    {
      hide Columns, Column;
      KeysAgree(state.table, seqno);
      if handling == ParseRaises {
        CallError(seqno, request, ParseRaised);
      } else {
        var callback := d.callbacks[seqno];
        RecordOutcome(state.table[seqno].id, Delivered(callback, payload));
        if callback.Some? && handling == CallbackRaises {
          CallError(seqno, request, CallbackRaised);
        }
      }
      RemoveRecord(seqno);
    }

    method SingleRetrieve(e: Event)
      requires Consistent() && e.Response?
      modifies this
      ensures Consistent() && state == AfterResponse(old(state), e)
    {
      hide Columns, Column, Resend, Settle, Report, Forget, ResendFailure;
      var seqno := e.seqno;
      KeysAgree(state.table, seqno);
      if seqno in d.requests {
        inProgress := inProgress - 1;
        state := Uncredit(state);
        var request := d.requests[seqno];
        if e.result in RETRY_CODES {
          ResendFields(state, seqno, Code(e.result), e.resendRaises);
          var raised := TryResend(seqno, request, Code(e.result), e.resendRaises);
          if raised.None? {
            nRetryCodeResent := nRetryCodeResent + 1;
            state := state.(nRetryCodeResent := state.nRetryCodeResent + 1);
            return;
          }
          if e.result !in nonFail {
            CallError(seqno, request, raised.value);
            RemoveRecord(seqno);
            return;
          }
        }
        ConstructResponse(seqno, request, e.payload, e.handling);
      }
    }

    /** Resend one request after a timeout, or report that it could not be. */
    method ResendOne(seqno: nat, sendRaises: set<nat>, ghost gone: set<nat>) returns (failed: bool)
      requires Consistent() && seqno in state.table && seqno !in gone
      modifies this
      ensures Consistent() && state.table.Keys == old(state).table.Keys
      ensures Expire(Forget(old(state), gone), seqno, sendRaises)
              == Forget(state, if failed then gone + {seqno} else gone)
    {
      hide Columns, Column, Resend, ResendFailure, Report, Forget, Expire;
      KeysAgree(state.table, seqno);
      ForgetThenExpire(state, gone, seqno, sendRaises);
      ResendFields(Uncredit(state), seqno, Timeout, seqno in sendRaises);
      var request := d.requests[seqno];
      inProgress := inProgress - 1;
      state := Uncredit(state);
      var raised := TryResend(seqno, request, Timeout, seqno in sendRaises);
      failed := raised.Some?;
      if failed {
        ReportFields(state, state.table[seqno].id, Failed(request, state.table[seqno].handler, raised.value));
        CallError(seqno, request, raised.value);
      }
    }

    /** Resend every request; the ones that could not be are reported and listed. */
    method ResendAll(sendRaises: set<nat>) returns (toRemove: seq<nat>)
      requires Consistent() && Shape(state)
      modifies this
      ensures Consistent() && Distinct(toRemove) && forall s :: s in toRemove ==> s in state.table
      ensures Forget(state, Elements(toRemove)) == ExpireAll(old(state), old(state).order, sendRaises)
    {
      hide Columns, Column, Forget, Expire, ExpireAll, Shape;
      ShapeFacts(state);
      NoneExpired(state, sendRaises);
      ghost var start := state;
      ForgetNothing(state);
      toRemove := [];
      assert Elements(toRemove) == {};
      var items := order;
      assert items[..0] == [];
      var i := 0;
      while i < |items|
        invariant 0 <= i <= |items|
        invariant Consistent() && state.table.Keys == start.table.Keys
        invariant Distinct(toRemove) && forall s :: s in toRemove ==> s in items[..i]
        invariant Forget(state, Elements(toRemove)) == ExpireAll(start, items[..i], sendRaises)
      {
        var seqno := items[i];
        ghost var gone := Elements(toRemove);
        NotYetListed(toRemove, items, i);
        var failed := ResendOne(seqno, sendRaises, gone);
        NextExpired(start, items, i, sendRaises);
        if failed {
          toRemove := toRemove + [seqno];
        }
        i := i + 1;
      }
      assert items[..i] == items;
    }

    method RemoveAll(toRemove: seq<nat>)
      requires Consistent() && Distinct(toRemove) && forall s :: s in toRemove ==> s in state.table
      modifies this
      ensures Consistent() && state == Forget(old(state), Elements(toRemove))
    {
      hide Columns, Column;
      var i := 0;
      while i < |toRemove|
        invariant 0 <= i <= |toRemove|
        invariant Consistent()
        invariant forall k :: i <= k < |toRemove| ==> toRemove[k] in state.table
        invariant Forget(state, Elements(toRemove[i..])) == Forget(old(state), Elements(toRemove))
      {
        KeysAgree(state.table, toRemove[i]);
        ForgetTwice(state, {toRemove[i]}, Elements(toRemove[i + 1..]));
        assert Elements(toRemove[i..]) == {toRemove[i]} + Elements(toRemove[i + 1..]);
        RemoveRecord(toRemove[i]);
        i := i + 1;
      }
      assert Elements(toRemove[i..]) == {};
      ForgetNothing(state);
    }

    method HandleReceiveTimeout(sendRaises: set<nat>)
      requires Valid()
      modifies this
      ensures Valid() && state == AfterTimeout(old(state), sendRaises)
    {
      hide Columns, Column, Forget, ExpireAll;
      EventKeepsInv(state, TimedOut(sendRaises));
      nTimeouts := nTimeouts + 1;
      state := state.(nTimeouts := state.nTimeouts + 1);
      var toRemove := ResendAll(sendRaises);
      RemoveAll(toRemove);
    }

    /** Receive until at most `n` responses are outstanding, or there are no more events to see. */
    method DoRetrieve(n: int, events: seq<Event>) returns (rest: seq<Event>, status: Status)
      requires Valid()
      modifies this
      ensures Valid() && Retrieve(old(state), n, events) == Progress(state, rest, status)
    {
      hide Columns, Column, AfterTimeout, AfterResponse, Core;
      rest := events;
      while inProgress > n && rest != []
        invariant Valid()
        invariant Retrieve(state, n, rest) == Retrieve(old(state), n, events)
        decreases |rest|
      {
        var e := rest[0];
        EventKeepsInv(state, e);
        if e.TimedOut? {
          HandleReceiveTimeout(e.sendRaises);
        } else {
          SingleRetrieve(e);
        }
        rest := rest[1..];
      }
      status := if inProgress <= n then Returned else Starved;
    }

    /**
     * If all the channels are used, receive packets. The loop is left as soon as
     * it can be seen that it will never receive again (`Spinning`).
     */
    method WaitForChannel(events: seq<Event>) returns (rest: seq<Event>, status: Status)
      requires Valid()
      modifies this
      ensures Valid() && Admit(old(state), events) == Progress(state, rest, status) && status != Raised
    {
      hide Columns, Column, Core, AfterEvent;
      WindowKnown(state);
      rest, status := events, Returned;
      while nChannels.Some? && inProgress >= nChannels.value
        invariant Valid() && status == Returned
        invariant nChannels == old(state).nChannels && waits == old(state).waits
        invariant nChannels.Some? ==> waits.Some?
        invariant (state == old(state) && rest == events)
                  || (&& old(state).nChannels.Some? && old(state).nChannels.value <= old(state).inProgress
                      && inProgress <= waits.value
                      && Retrieve(old(state), waits.value, events) == Progress(state, rest, Returned))
        decreases nChannels.Some? && inProgress > waits.value
      {
        if inProgress <= waits.value {
          return rest, Spinning;
        }
        RetrieveKeepsIssues(state, waits.value, rest);
        rest, status := DoRetrieve(waits.value, rest);
        if status.Starved? {
          return;
        }
      }
    }

    /** Enter the request in the six dictionaries and send it. */
    method Register(request: Request, callback: Option<Callback>, handler: ErrorCallback, sequence: nat,
                    sendRaises: bool)
      returns (status: Status)
      requires Consistent()
      modifies this
      ensures Consistent() && state == Enter(old(state), Issue(request, callback, handler, sequence), sendRaises)
      ensures status == if sendRaises then Raised else Returned
    {
      hide Columns, Column;
      ghost var issue := Issue(request, callback, handler, sequence);
      ColumnsUpdate(state.table, sequence, Enter(state, issue, sendRaises).table[sequence]);
      KeysAgree(state.table, sequence);
      var requestData := Encode(request, sequence);
      if sequence !in d.requests {
        order := order + [sequence];
      }
      d := d.(requests := d.requests[sequence := request]);
      d := d.(data := d.data[sequence := requestData]);
      d := d.(retries := d.retries[sequence := nRetries]);
      d := d.(callbacks := d.callbacks[sequence := callback]);
      d := d.(handlers := d.handlers[sequence := handler]);
      d := d.(reasons := d.reasons[sequence := []]);
      state := Enter(state, issue, sendRaises);
      if sendRaises {
        return Raised;
      }
      inProgress := inProgress + 1;
      return Returned;
    }

    method SendRequest(counter: SequenceCounter, request: Request, callback: Option<Callback>, handler: ErrorCallback,
                       ready: bool, events: seq<Event>, sendRaises: bool)
      returns (rest: seq<Event>, status: Status)
      requires Valid()
      modifies this, counter
      ensures Valid()
      ensures Send(old(state), Issue(request, callback, handler, old(counter.next)), ready, events, sendRaises)
              == Progress(state, rest, status)
      ensures counter.next == if status.Returned? || status.Raised? then (old(counter.next) + 1) % MAX_SEQUENCE
                              else old(counter.next)
    {
      hide Columns, Column, Core, Admit, Enter;
      SendKeepsInv(state, Issue(request, callback, handler, counter.next), ready, events, sendRaises);
      SameInv(state, ready);
      // fix the window at the first response
      if nChannels.None? {
        if ready {
          nChannels := Some(inProgress + 8);
          if nChannels.value < 12 {
            nChannels := Some(12);
          }
          waits := Some(nChannels.value - 8);
        }
      }
      state := Measure(state, ready);
      rest, status := WaitForChannel(events);
      if status.Returned? {
        var sequence := counter.GetNext();
        status := Register(request, callback, handler, sequence, sendRaises);
      }
    }

    method Finish(events: seq<Event>) returns (rest: seq<Event>, status: Status)
      requires Valid()
      modifies this
      ensures Valid() && ScpPipeline.Finish(old(state), events) == Progress(state, rest, status)
    {
      rest, status := events, Returned;
      while inProgress > 0
        invariant Valid() && status == Returned
        invariant ScpPipeline.Finish(old(state), events) == Retrieve(state, 0, rest)
        decreases inProgress
      {
        RetrieveKeepsIssues(state, 0, rest);
        rest, status := DoRetrieve(0, rest);
        if status.Starved? {
          return;
        }
      }
    }
  }
}
