/**
 * The request pipeline as a state machine over values: one table of live
 * requests, and a history of what was issued, put on the wire and reported.
 * Module ScpPipelineObject refines it with the six dictionaries of the source.
 */
module ScpPipeline {
  import opened Common

  const MAX_SEQUENCE := 65536

  datatype ResultCode =
    | RC_OK | RC_LEN | RC_SUM | RC_CMD | RC_ARG | RC_PORT | RC_TIMEOUT | RC_ROUTE
    | RC_CPU | RC_DEAD | RC_BUF | RC_P2P_NOREPLY | RC_P2P_REJECT | RC_P2P_BUSY
    | RC_P2P_TIMEOUT | RC_PKT_TX

  const RETRY_CODES: set<ResultCode> :=
    {RC_TIMEOUT, RC_P2P_TIMEOUT, RC_LEN, RC_P2P_NOREPLY, RC_P2P_BUSY}

  /** A request: the bytes before and after the sequence number of its header. */
  datatype Request = Request(head: Bytes, tail: Bytes)

  /** The bytes that `get_scp_data` produces once the header holds `seqno`. */
  function Encode(r: Request, seqno: nat): Bytes {
    r.head + [seqno % 256, seqno / 256 % 256] + r.tail
  }

  /** Callbacks are known to the pipeline by name only. */
  type Callback = nat
  type ErrorCallback = nat

  datatype Reason = Timeout | Code(result: ResultCode)

  predicate AllTimeouts(reasons: seq<Reason>) {
    forall r :: r in reasons ==> r == Timeout
  }

  datatype Failure =
    | Exhausted(reasons: seq<Reason>, asTimeout: bool)
    | SendRaised
    | ParseRaised
    | CallbackRaised

  datatype Outcome =
    | Delivered(callback: Option<Callback>, payload: Bytes)
    | Failed(request: Request, handler: ErrorCallback, failure: Failure)

  /** What reading a matching response leads to. */
  datatype Handling = Accepted | ParseRaises | CallbackRaises

  /**
   * One return of the connection's receive: nothing arrived in time (with the
   * sequence numbers whose resend will raise), or a packet arrived.
   */
  datatype Event =
    | TimedOut(sendRaises: set<nat>)
    | Response(result: ResultCode, seqno: nat, payload: Bytes, handling: Handling, resendRaises: bool)

  datatype Entry = Entry(
    id: nat, request: Request, data: Bytes, retries: int,
    callback: Option<Callback>, handler: ErrorCallback, reasons: seq<Reason>)

  /** What a call of `send_request` was given, and the number it was allocated. */
  datatype Issue = Issue(request: Request, callback: Option<Callback>, handler: ErrorCallback, seqno: nat)

  datatype Pipe = Pipe(
    nChannels: Option<int>, waits: Option<int>, nRetries: int, nonFail: set<ResultCode>,
    inProgress: int,
    order: seq<nat>,              // keys of the table in insertion order
    table: map<nat, Entry>,
    nTimeouts: nat, nResent: nat, nRetryCodeResent: nat,
    // history, by issue index
    issues: seq<Issue>,
    wire: seq<seq<Bytes>>,        // the sends attempted for each issue
    outcomes: seq<seq<Outcome>>,  // the callbacks made for each issue
    lost: set<nat>,               // issues whose table entry was overwritten by a later one
    leaked: nat,                  // resends that raised after the credit was taken
    unsent: nat)                  // first sends that raised before the credit was taken

  function Initial(nChannels: Option<int>, waits: Option<int>, nRetries: int, nonFail: set<ResultCode>): Pipe {
    var w := if nChannels.Some? && waits.None?
             then Some(if nChannels.value - 8 < 0 then 0 else nChannels.value - 8)
             else waits;
    Pipe(nChannels, w, nRetries, nonFail, 0, [], map[], 0, 0, 0, [], [], [], {}, 0, 0)
  }

  // ---------------------------------------------------------------- one request

  function Report(p: Pipe, id: nat, o: Outcome): Pipe {
    if id < |p.outcomes| then p.(outcomes := p.outcomes[id := p.outcomes[id] + [o]]) else p
  }

  function Transmit(p: Pipe, id: nat, data: Bytes): Pipe {
    if id < |p.wire| then p.(wire := p.wire[id := p.wire[id] + [data]]) else p
  }

  function Forget(p: Pipe, gone: set<nat>): Pipe {
    p.(order := Without(p.order, gone), table := p.table - gone)
  }

  /** What `_resend` raises, if anything. */
  function ResendFailure(p: Pipe, s: nat, reason: Reason, sendRaises: bool): Option<Failure>
    requires s in p.table
  {
    var reasons := p.table[s].reasons + [reason];
    if p.table[s].retries <= 0 then Some(Exhausted(reasons, AllTimeouts(reasons)))
    else if sendRaises then Some(SendRaised)
    else None
  }

  /** What `_resend` does to the pipeline, whether or not it raises. */
  function Resend(p: Pipe, s: nat, reason: Reason, sendRaises: bool): Pipe
    requires s in p.table
  {
    var e := p.table[s];
    if e.retries <= 0 then p.(table := p.table[s := e.(reasons := e.reasons + [reason])])
    else
      Transmit(
        p.(table := p.table[s := e.(retries := e.retries - 1, reasons := e.reasons + [reason])],
           inProgress := p.inProgress + 1,
           leaked := if sendRaises then p.leaked + 1 else p.leaked,
           nResent := if sendRaises then p.nResent else p.nResent + 1),
        e.id, e.data)
  }

  /** Call the error callback of `s` and drop its record. */
  function Fail(p: Pipe, s: nat, failure: Failure): Pipe
    requires s in p.table
  {
    var e := p.table[s];
    Forget(Report(p, e.id, Failed(e.request, e.handler, failure)), {s})
  }

  function ResendOrFail(p: Pipe, s: nat, reason: Reason, sendRaises: bool): Pipe
    requires s in p.table
  {
    var q := Resend(p, s, reason, sendRaises);
    var failure := ResendFailure(p, s, reason, sendRaises);
    if failure.None? then q else Fail(q, s, failure.value)
  }

  /** Read a response that is not to be retried, and drop the record of `s`. */
  function Settle(p: Pipe, s: nat, payload: Bytes, handling: Handling): Pipe
    requires s in p.table
  {
    var e := p.table[s];
    if handling == ParseRaises then
      Fail(p, s, ParseRaised)
    else
      var p1 := Report(p, e.id, Delivered(e.callback, payload));
      if handling == CallbackRaises && e.callback.Some? then Fail(p1, s, CallbackRaised)
      else Forget(p1, {s})
  }

  // ---------------------------------------------------------------- one event

  /** Take back the credit of a request that has been answered or has timed out. */
  function Uncredit(p: Pipe): Pipe {
    p.(inProgress := p.inProgress - 1)
  }

  /** Handle the response to live request `s`, whose credit has been taken back. */
  function Answer(p: Pipe, s: nat, e: Event): Pipe
    requires e.Response? && s in p.table
  {
    var failure := ResendFailure(p, s, Code(e.result), e.resendRaises);
    if e.result !in RETRY_CODES then Settle(p, s, e.payload, e.handling)
    else if failure.Some? && e.result in p.nonFail then
      Settle(Resend(p, s, Code(e.result), e.resendRaises), s, e.payload, e.handling)
    else
      var q := ResendOrFail(p, s, Code(e.result), e.resendRaises);
      if failure.None? then q.(nRetryCodeResent := q.nRetryCodeResent + 1) else q
  }

  function AfterResponse(p: Pipe, e: Event): Pipe
    requires e.Response?
  {
    if e.seqno in p.table then Answer(Uncredit(p), e.seqno, e) else p
  }

  /** What a timeout does to one live request. */
  function Expire(p: Pipe, s: nat, sendRaises: set<nat>): Pipe {
    if s !in p.table then p
    else ResendOrFail(Uncredit(p), s, Timeout, s in sendRaises)
  }

  function ExpireAll(p: Pipe, order: seq<nat>, sendRaises: set<nat>): Pipe {
    if order == [] then p
    else Expire(ExpireAll(p, order[..|order| - 1], sendRaises), order[|order| - 1], sendRaises)
  }

  function AfterTimeout(p: Pipe, sendRaises: set<nat>): Pipe {
    ExpireAll(p.(nTimeouts := p.nTimeouts + 1), p.order, sendRaises)
  }

  function AfterEvent(p: Pipe, e: Event): Pipe {
    match e
    case TimedOut(sendRaises) => AfterTimeout(p, sendRaises)
    case Response(_, _, _, _, _) => AfterResponse(p, e)
  }

  // ---------------------------------------------------------------- calls

  /**
   * How a call ended: it returned, its first send raised, it had seen all the
   * events and was still receiving, or it was looping without receiving.
   */
  datatype Status = Returned | Raised | Starved | Spinning

  datatype Progress = Progress(pipe: Pipe, rest: seq<Event>, status: Status)

  /** Receive until at most `n` responses are outstanding. */
  function Retrieve(p: Pipe, n: int, events: seq<Event>): (r: Progress)
    ensures r.status.Returned? || r.status.Starved?
    decreases |events|
  {
    if p.inProgress <= n then Progress(p, events, Returned)
    else if events == [] then Progress(p, [], Starved)
    else Retrieve(AfterEvent(p, events[0]), n, events[1..])
  }

  /** Fix the window, once, when the first response is ready to be read. */
  function Measure(p: Pipe, ready: bool): Pipe {
    if p.nChannels.None? && ready then
      var n := if p.inProgress + 8 < 12 then 12 else p.inProgress + 8;
      p.(nChannels := Some(n), waits := Some(n - 8))
    else p
  }

  /** Wait for a free channel. */
  function Admit(p: Pipe, events: seq<Event>): Progress
    requires p.nChannels.Some? ==> p.waits.Some?
  {
    if p.nChannels.None? || p.inProgress < p.nChannels.value then Progress(p, events, Returned)
    else
      var r := Retrieve(p, p.waits.value, events);
      if r.status.Returned? && p.nChannels.value <= r.pipe.inProgress then r.(status := Spinning) else r
  }

  /** Enter a request in the table under `seqno` and send it. */
  function Enter(p: Pipe, issue: Issue, sendRaises: bool): Pipe {
    var s := issue.seqno;
    var data := Encode(issue.request, s);
    var e := Entry(|p.issues|, issue.request, data, p.nRetries, issue.callback, issue.handler, []);
    p.(order := if s in p.table then p.order else p.order + [s],
       table := p.table[s := e],
       inProgress := if sendRaises then p.inProgress else p.inProgress + 1,
       issues := p.issues + [issue],
       wire := p.wire + [[data]],
       outcomes := p.outcomes + [[]],
       lost := if s in p.table then p.lost + {p.table[s].id} else p.lost,
       unsent := if sendRaises then p.unsent + 1 else p.unsent)
  }

  function Send(p: Pipe, issue: Issue, ready: bool, events: seq<Event>, sendRaises: bool): Progress
    requires p.nChannels.Some? ==> p.waits.Some?
  {
    var r := Admit(Measure(p, ready), events);
    if !r.status.Returned? then r
    else Progress(Enter(r.pipe, issue, sendRaises), r.rest, if sendRaises then Raised else Returned)
  }

  function Finish(p: Pipe, events: seq<Event>): Progress {
    Retrieve(p, 0, events)
  }
}
