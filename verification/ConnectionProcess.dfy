/** A process that spreads its requests over several connections, one pipeline for each. */
module ConnectionProcess {
  import opened Common
  import opened ScpPipeline
  import opened ScpPipelineInvariants
  import opened ScpPipelineTheorems
  import opened ScpPipelineObject

  /** The error callback that adds to the process's lists of errors. */
  const RECEIVE_ERROR: ErrorCallback := 0

  /** What an error callback adds to the lists: the request, what was raised, and where. */
  datatype Error = Error(connection: nat, id: nat, request: Request, failure: Failure)

  datatype Verdict = Normal | GenericError(error: Error) | GroupedError(errors: seq<Error>) | StillWaiting

  /** Issue `id` left this error with the process. */
  ghost predicate Received(pipelines: map<nat, Pipe>, e: Error) {
    && e.connection in pipelines
    && var p := pipelines[e.connection];
      && e.id < |p.issues| == |p.outcomes|
      && p.issues[e.id].request == e.request && p.issues[e.id].handler == RECEIVE_ERROR
      && Failed(e.request, RECEIVE_ERROR, e.failure) in p.outcomes[e.id]
  }

  /** A response was handed to the callback of the issue, and nothing else happened. */
  ghost predicate DeliveredOnce(p: Pipe, id: nat)
    requires id < |p.issues| == |p.outcomes|
  {
    |p.outcomes[id]| == 1 && p.outcomes[id][0].Delivered? && p.outcomes[id][0].callback == p.issues[id].callback
  }

  /** Every issue whose errors go to the process was delivered; the others had their outcome. */
  ghost predicate AllDelivered(p: Pipe) {
    && |p.outcomes| == |p.issues| == |p.wire|
    && forall id :: 0 <= id < |p.issues| ==>
         if p.issues[id].handler == RECEIVE_ERROR then DeliveredOnce(p, id) else Settles(p, id, p.outcomes[id])
  }

  /** A pipeline with no request left has given the process no error exactly when all was delivered. */
  lemma NoExceptionsMeansDelivered(pipelines: map<nat, Pipe>, c: nat)
    requires c in pipelines && Inv(pipelines[c]) && pipelines[c].table == map[] && pipelines[c].lost == {}
    ensures (forall e: Error :: Received(pipelines, e) ==> e.connection != c) <==> AllDelivered(pipelines[c])
  {
    var p := pipelines[c];
    forall id | 0 <= id < |p.issues| ensures Settles(p, id, p.outcomes[id]) {
      assert IssueOk(p, id);
    }
    if forall e: Error :: Received(pipelines, e) ==> e.connection != c {
      forall id | 0 <= id < |p.issues| && p.issues[id].handler == RECEIVE_ERROR ensures DeliveredOnce(p, id) {
        var o := p.outcomes[id];
        var last := o[|o| - 1];
        assert last.Failed? ==> Received(pipelines, Error(c, id, last.request, last.failure));
      }
    }
  }

  // ---------------------------------------------------------------- the lists of errors

  /** The error that issue `id` left with the process, if any. */
  function ErrorAt(c: nat, p: Pipe, id: nat): seq<Error>
    requires id < |p.outcomes|
  {
    var o := p.outcomes[id];
    if o != [] && o[|o| - 1].Failed? && o[|o| - 1].handler == RECEIVE_ERROR
    then [Error(c, id, o[|o| - 1].request, o[|o| - 1].failure)] else []
  }

  function ErrorsOf(c: nat, p: Pipe, n: nat): seq<Error>
    requires n <= |p.outcomes|
  {
    if n == 0 then [] else ErrorsOf(c, p, n - 1) + ErrorAt(c, p, n - 1)
  }

  /** All errors, pipeline by pipeline in the order of the issues. */
  function AllErrors(connections: seq<nat>, pipelines: map<nat, Pipe>): seq<Error> {
    if connections == [] then []
    else
      var c := connections[|connections| - 1];
      AllErrors(connections[..|connections| - 1], pipelines)
      + if c in pipelines then ErrorsOf(c, pipelines[c], |pipelines[c].outcomes|) else []
  }

  lemma {:induction false} ErrorsOfHas(c: nat, p: Pipe, n: nat, e: Error)
    requires n <= |p.outcomes|
    ensures e in ErrorsOf(c, p, n) <==> e.id < n && ErrorAt(c, p, e.id) == [e]
  {
    if n > 0 {
      ErrorsOfHas(c, p, n - 1, e);
    }
  }

  lemma {:induction false} AllErrorsHas(connections: seq<nat>, pipelines: map<nat, Pipe>, e: Error)
    ensures e in AllErrors(connections, pipelines) <==>
      && e.connection in connections && e.connection in pipelines && e.id < |pipelines[e.connection].outcomes|
      && ErrorAt(e.connection, pipelines[e.connection], e.id) == [e]
  {
    hide ErrorsOf;
    if connections != [] {
      var before, c := connections[..|connections| - 1], connections[|connections| - 1];
      assert connections == before + [c];
      AllErrorsHas(before, pipelines, e);
      if c in pipelines {
        ErrorsOfHas(c, pipelines[c], |pipelines[c].outcomes|, e);
      }
    }
  }

  /** No error is listed twice. */
  lemma {:induction false} ErrorsOfAreDistinct(c: nat, p: Pipe, n: nat)
    requires n <= |p.outcomes|
    ensures Distinct(ErrorsOf(c, p, n))
  {
    if n > 0 {
      ErrorsOfAreDistinct(c, p, n - 1);
      var before, last := ErrorsOf(c, p, n - 1), ErrorAt(c, p, n - 1);
      forall k | 0 <= k < |before| ensures before[k].id < n - 1 {
        ErrorsOfHas(c, p, n - 1, before[k]);
      }
    }
  }

  lemma {:induction false} AllErrorsAreDistinct(connections: seq<nat>, pipelines: map<nat, Pipe>)
    requires Distinct(connections)
    ensures Distinct(AllErrors(connections, pipelines))
  {
    hide ErrorsOf;
    if connections != [] {
      var before, c := connections[..|connections| - 1], connections[|connections| - 1];
      AllErrorsAreDistinct(before, pipelines);
      if c in pipelines {
        var errors, last := AllErrors(before, pipelines), ErrorsOf(c, pipelines[c], |pipelines[c].outcomes|);
        ErrorsOfAreDistinct(c, pipelines[c], |pipelines[c].outcomes|);
        forall i | 0 <= i < |errors| ensures errors[i].connection in before {
          AllErrorsHas(before, pipelines, errors[i]);
        }
        forall i | 0 <= i < |last| ensures last[i].connection == c {
          ErrorsOfHas(c, pipelines[c], |pipelines[c].outcomes|, last[i]);
        }
      }
    }
  }

  /** The lists hold exactly the errors that the issues left. */
  lemma {:induction false} ListsAreReceived(connections: seq<nat>, pipelines: map<nat, Pipe>, e: Error)
    requires forall c :: c in connections <==> c in pipelines
    requires forall c :: c in pipelines ==> Inv(pipelines[c])
    ensures e in AllErrors(connections, pipelines) <==> Received(pipelines, e)
  {
    hide AllErrors;
    AllErrorsHas(connections, pipelines, e);
    if e.connection in pipelines && e.id < |pipelines[e.connection].outcomes| {
      assert IssueOk(pipelines[e.connection], e.id);
    }
  }

  // ---------------------------------------------------------------- the process

  class Process {
    const nChannels: Option<int>
    const waits: Option<int>
    const nRetries: int
    const nonFail: set<ResultCode>
    var connections: seq<nat>      // keys of the dictionary of pipelines, in insertion order
    var pipelines: map<nat, Pipe>

    ghost predicate Valid()
      reads this
    {
      && Distinct(connections) && (forall c :: c in connections <==> c in pipelines)
      && forall c :: c in pipelines ==> Inv(pipelines[c])
    }

    constructor (nChannels: Option<int>, waits: Option<int>, nRetries: int, nonFail: set<ResultCode>)
      ensures Valid() && pipelines == map[]
    {
      this.nChannels, this.waits, this.nRetries, this.nonFail := nChannels, waits, nRetries, nonFail;
      connections, pipelines := [], map[];
    }

    /**
     * Send over the pipeline of `connection`, making one if there is none. Errors go
     * to the process unless the caller has an error callback of its own.
     */
    method SendRequest(counter: SequenceCounter, connection: nat, request: Request, callback: Option<Callback>,
                       handler: Option<ErrorCallback>, ready: bool, events: seq<Event>, sendRaises: bool)
      returns (status: Status)
      requires Valid()
      modifies this, counter
      ensures Valid()
      ensures var before := if connection in old(pipelines) then old(pipelines)[connection]
                            else Initial(nChannels, waits, nRetries, nonFail);
        var issue :=
          Issue(request, callback, if handler.Some? then handler.value else RECEIVE_ERROR, old(counter.next));
        var r := Send(before, issue, ready, events, sendRaises);
        status == r.status && pipelines == old(pipelines)[connection := r.pipe]
      ensures counter.next == if status.Returned? || status.Raised? then (old(counter.next) + 1) % MAX_SEQUENCE
                              else old(counter.next)
    {
      hide Core, Send, Admit, Initial;
      if connection !in pipelines {
        connections := connections + [connection];
        InitialIsOk(nChannels, waits, nRetries, nonFail);
        pipelines := pipelines[connection := Initial(nChannels, waits, nRetries, nonFail)];
      }
      var p := pipelines[connection];
      var issue := Issue(request, callback, if handler.Some? then handler.value else RECEIVE_ERROR, counter.next);
      WindowKnown(p);
      SendKeepsInv(p, issue, ready, events, sendRaises);
      var r := Send(p, issue, ready, events, sendRaises);
      if r.status.Returned? || r.status.Raised? {
        var _ := counter.GetNext();
      }
      pipelines := pipelines[connection := r.pipe];
      status := r.status;
    }

    /**
     * Finish every pipeline in turn. One that goes on receiving keeps those after
     * it from being finished.
     */
    method Finish(events: map<nat, seq<Event>>) returns (ended: bool)
      requires Valid()
      modifies this`pipelines
      ensures Valid() && pipelines.Keys == old(pipelines).Keys
      ensures ended <==> forall c :: c in pipelines ==> Finishes(old(pipelines)[c], events, c)
      ensures ended ==> FinishedTo(connections, old(pipelines), pipelines, events, |connections|)
      ensures !ended ==> exists k ::
        0 <= k < |connections| && !Finishes(old(pipelines)[connections[k]], events, connections[k])
        && FinishedTo(connections, old(pipelines), pipelines, events, k + 1)
    {
      hide Core, Inv, ScpPipeline.Finish, FinishedTo;
      var i := 0;
      NoneFinished(connections, pipelines, events);
      while i < |connections|
        invariant 0 <= i <= |connections|
        invariant Valid() && pipelines.Keys == old(pipelines).Keys
        invariant forall k :: 0 <= k < i ==> Finishes(old(pipelines)[connections[k]], events, connections[k])
        invariant FinishedTo(connections, old(pipelines), pipelines, events, i)
      {
        var c := connections[i];
        FinishCollects(pipelines[c], EventsOf(events, c));
        var r := ScpPipeline.Finish(pipelines[c], EventsOf(events, c));
        OneMoreFinished(connections, old(pipelines), pipelines, events, i);
        pipelines := pipelines[c := r.pipe];
        if r.status != Returned {
          return false;
        }
        i := i + 1;
      }
      return true;
    }

    /** Finish every pipeline, then raise if there was any error. */
    method CollectResponses(events: map<nat, seq<Event>>) returns (verdict: Verdict)
      requires Valid()
      modifies this`pipelines
      ensures Valid() && pipelines.Keys == old(pipelines).Keys
      ensures forall c :: c in pipelines ==> SameIssues(old(pipelines)[c], pipelines[c])
      ensures verdict == StillWaiting <==> exists c :: c in pipelines && !Finishes(old(pipelines)[c], events, c)
      ensures verdict != StillWaiting ==>
        forall c :: c in pipelines ==> pipelines[c] == AfterFinish(old(pipelines)[c], events, c)
      ensures verdict == StillWaiting ==> exists k ::
        0 <= k < |connections| && !Finishes(old(pipelines)[connections[k]], events, connections[k])
        && FinishedTo(connections, old(pipelines), pipelines, events, k + 1)
      ensures (forall c :: c in pipelines ==> EnoughIsQuiet(old(pipelines)[c], EventsOf(events, c))) ==>
        verdict != StillWaiting
      ensures verdict == Normal ==> forall e: Error :: !Received(pipelines, e)
      ensures verdict == Normal ==>
        forall c :: c in pipelines && pipelines[c].unsent == 0 ==> AllDelivered(pipelines[c])
      ensures verdict.GenericError? ==>
        Received(pipelines, verdict.error) && forall e :: Received(pipelines, e) ==> e == verdict.error
      ensures verdict.GroupedError? ==>
        |verdict.errors| > 1 && Distinct(verdict.errors) && forall e :: e in verdict.errors <==> Received(pipelines, e)
      ensures verdict.GenericError? || verdict.GroupedError? ==>
        exists e: Error :: Received(pipelines, e) && e.connection in pipelines && !AllDelivered(pipelines[e.connection])
    {
      hide Core, Inv, ScpPipeline.Finish, AllDelivered, Received, SameIssues, EnoughIsQuiet, FinishedTo;
      QuietPipelinesFinish(pipelines, events);
      var ended := Finish(events);
      WhatFinishLeaves(connections, old(pipelines), pipelines, events);
      if !ended {
        return StillWaiting;
      }
      verdict := CheckForError();
      DeliveredOrReceived(pipelines);
    }

    /** Nothing, the one error there is, or all of them. */
    method CheckForError() returns (verdict: Verdict)
      requires Valid()
      ensures verdict == Normal <==> forall e: Error :: !Received(pipelines, e)
      ensures verdict.GenericError? ==>
        Received(pipelines, verdict.error) && forall e :: Received(pipelines, e) ==> e == verdict.error
      ensures verdict.GroupedError? ==>
        |verdict.errors| > 1 && Distinct(verdict.errors) && forall e :: e in verdict.errors <==> Received(pipelines, e)
      ensures verdict != StillWaiting
    {
      hide Inv, AllErrors, Received;
      var errors := AllErrors(connections, pipelines);
      forall e: Error ensures e in errors <==> Received(pipelines, e) {
        ListsAreReceived(connections, pipelines, e);
      }
      AllErrorsAreDistinct(connections, pipelines);
      assert errors != [] ==> errors[0] in errors;
      if |errors| == 1 {
        verdict := GenericError(errors[0]);
      } else if errors != [] {
        verdict := GroupedError(errors);
      } else {
        verdict := Normal;
      }
    }
  }

  /** What arrives on a connection. */
  function EventsOf(events: map<nat, seq<Event>>, c: nat): seq<Event> {
    if c in events then events[c] else []
  }

  ghost predicate Finishes(p: Pipe, events: map<nat, seq<Event>>, c: nat) {
    Finish(p, EventsOf(events, c)).status.Returned?
  }

  ghost function AfterFinish(p: Pipe, events: map<nat, seq<Event>>, c: nat): Pipe {
    Finish(p, EventsOf(events, c)).pipe
  }

  /** No credit is missing, no resend raises, and events enough for every retry arrive. */
  ghost predicate EnoughIsQuiet(p: Pipe, events: seq<Event>) {
    && p.leaked + |p.lost| <= p.unsent
    && |events| > StaleReads(p, 0, events) + |p.table| * (Max0(p.nRetries) + 1)
    && forall e :: e in events ==> Quiet(e)
  }

  lemma QuietPipelinesFinish(pipelines: map<nat, Pipe>, events: map<nat, seq<Event>>)
    requires forall c :: c in pipelines ==> Inv(pipelines[c])
    ensures forall c :: c in pipelines && EnoughIsQuiet(pipelines[c], EventsOf(events, c)) ==>
              Finishes(pipelines[c], events, c)
  {
    hide Inv;
    forall c | c in pipelines && EnoughIsQuiet(pipelines[c], EventsOf(events, c))
      ensures Finishes(pipelines[c], events, c)
    {
      FinishEnds(pipelines[c], EventsOf(events, c));
    }
  }

  /** The first `n` connections have been finished with, and the others not yet. */
  ghost predicate FinishedTo(connections: seq<nat>, before: map<nat, Pipe>, after: map<nat, Pipe>,
                             events: map<nat, seq<Event>>, n: nat)
  {
    forall k {:trigger connections[k]} ::
      0 <= k < |connections| && connections[k] in before && connections[k] in after ==>
        after[connections[k]]
        == if k < n then AfterFinish(before[connections[k]], events, connections[k]) else before[connections[k]]
  }

  lemma NoneFinished(connections: seq<nat>, pipelines: map<nat, Pipe>, events: map<nat, seq<Event>>)
    ensures FinishedTo(connections, pipelines, pipelines, events, 0)
  {
  }

  lemma OneMoreFinished(connections: seq<nat>, before: map<nat, Pipe>, after: map<nat, Pipe>,
                        events: map<nat, seq<Event>>, k: nat)
    requires Distinct(connections) && k < |connections| && connections[k] in before && connections[k] in after
    requires FinishedTo(connections, before, after, events, k)
    ensures var c := connections[k];
      && after[c] == before[c]
      && FinishedTo(connections, before, after[c := AfterFinish(before[c], events, c)], events, k + 1)
  {
    hide AfterFinish;
  }

  /** The issues are the same, and a pipeline that has been finished with owes nothing. */
  lemma WhatFinishLeaves(connections: seq<nat>, before: map<nat, Pipe>, after: map<nat, Pipe>,
                         events: map<nat, seq<Event>>)
    requires after.Keys == before.Keys && forall c :: c in connections <==> c in before
    requires forall c :: c in before ==> Inv(before[c])
    requires exists n: nat :: FinishedTo(connections, before, after, events, n)
    ensures forall c :: c in after ==> SameIssues(before[c], after[c])
    ensures FinishedTo(connections, before, after, events, |connections|) ==> forall c :: c in after ==>
              && after[c] == AfterFinish(before[c], events, c)
              && (Finishes(before[c], events, c) ==> Collected(after[c]))
  {
    hide Inv, SameIssues, ScpPipeline.Finish;
    forall c | c in after
      ensures SameIssues(before[c], after[c])
      ensures FinishedTo(connections, before, after, events, |connections|) ==>
                && after[c] == AfterFinish(before[c], events, c)
                && (Finishes(before[c], events, c) ==> Collected(after[c]))
    {
      var k :| 0 <= k < |connections| && connections[k] == c;
      SameAsBefore(before[c]);
      FinishCollects(before[c], EventsOf(events, c));
    }
  }

  lemma SameAsBefore(p: Pipe)
    ensures SameIssues(p, p)
  {
  }

  lemma DeliveredOrReceived(pipelines: map<nat, Pipe>)
    requires forall c :: c in pipelines ==> Inv(pipelines[c]) && Collected(pipelines[c])
    ensures (forall e: Error :: !Received(pipelines, e)) ==>
      forall c :: c in pipelines && pipelines[c].unsent == 0 ==> AllDelivered(pipelines[c])
    ensures forall e: Error :: Received(pipelines, e) ==>
      e.connection in pipelines && !AllDelivered(pipelines[e.connection])
  {
    hide Inv, Received, AllDelivered;
    if forall e: Error :: !Received(pipelines, e) {
      forall c | c in pipelines && pipelines[c].unsent == 0 ensures AllDelivered(pipelines[c]) {
        NoExceptionsMeansDelivered(pipelines, c);
      }
    }
    ReceivedIsNotDelivered(pipelines);
  }

  /** `finish` has returned, and if all of its first sends worked then no request is left. */
  ghost predicate Collected(p: Pipe) {
    p.unsent == 0 ==> p.table == map[] && p.lost == {}
  }

  lemma ReceivedIsNotDelivered(pipelines: map<nat, Pipe>)
    ensures forall e: Error :: Received(pipelines, e) ==>
      e.connection in pipelines && !AllDelivered(pipelines[e.connection])
  {
    forall e: Error | Received(pipelines, e) ensures !AllDelivered(pipelines[e.connection]) {
      assert AllDelivered(pipelines[e.connection]) ==> DeliveredOnce(pipelines[e.connection], e.id);
    }
  }

  lemma InitialIsOk(c: Option<int>, w: Option<int>, n: int, f: set<ResultCode>)
    ensures Inv(Initial(c, w, n, f))
  {
  }

  lemma FinishCollects(p: Pipe, events: seq<Event>)
    requires Inv(p)
    ensures var r := Finish(p, events);
      Inv(r.pipe) && SameIssues(p, r.pipe) && (r.status == Returned ==> Collected(r.pipe))
  {
    hide Core, Retrieve;
    RetrieveKeepsInv(p, 0, events);
    RetrieveKeepsIssues(p, 0, events);
    if Finish(p, events).status == Returned {
      FinishSettlesEverything(p, events);
    }
  }
}
