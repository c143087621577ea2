/**
 * All pipelines of the program draw their sequence numbers from one counter of
 * 16 bits. This module follows any number of pipelines that share it.
 */
module SequenceNumbers {
  import opened Common
  import opened ScpPipeline
  import opened ScpPipelineInvariants
  import opened ScpPipelineTheorems

  /** `total` numbers have been allocated; `stamps[i][id]` is the ordinal of issue `id` of pipeline `i`. */
  datatype World = World(next: nat, total: nat, pipes: seq<Pipe>, stamps: seq<seq<nat>>)

  ghost predicate PipeOk(w: World, i: nat)
    requires i < |w.pipes| == |w.stamps|
  {
    && Inv(w.pipes[i]) && |w.stamps[i]| == |w.pipes[i].issues|
    && forall id :: 0 <= id < |w.stamps[i]| ==>
         && w.stamps[i][id] < w.total
         && w.pipes[i].issues[id].seqno == w.stamps[i][id] % MAX_SEQUENCE
  }

  ghost predicate WorldOk(w: World) {
    && w.next == w.total % MAX_SEQUENCE
    && |w.stamps| == |w.pipes|
    && (forall i {:trigger PipeOk(w, i)} :: 0 <= i < |w.pipes| ==> PipeOk(w, i))
    && (forall i, j, a, b ::
          (0 <= i < |w.stamps| && 0 <= j < |w.stamps| && 0 <= a < |w.stamps[i]| && 0 <= b < |w.stamps[j]|
           && w.stamps[i][a] == w.stamps[j][b]) ==> i == j && a == b)
  }

  /** Fewer than 65536 numbers have been allocated since issue `id` of pipeline `i`, counting its own. */
  ghost predicate Recent(w: World, i: nat, id: nat)
    requires i < |w.stamps| && id < |w.stamps[i]|
  {
    w.total - w.stamps[i][id] < MAX_SEQUENCE
  }

  /** Every live request is recent. */
  ghost predicate Fresh(w: World)
    requires WorldOk(w)
  {
    forall i, s :: 0 <= i < |w.pipes| && s in w.pipes[i].table ==>
      w.pipes[i].table[s].id < |w.stamps[i]| && Recent(w, i, w.pipes[i].table[s].id)
  }

  lemma SameResidue(a: nat, b: nat, total: nat)
    requires a < total && b < total && a % MAX_SEQUENCE == b % MAX_SEQUENCE
    requires total - a <= MAX_SEQUENCE && total - b <= MAX_SEQUENCE
    ensures a == b
  {
  }

  /** While fresh, the next number is held by no live request, and no two live requests share a number. */
  lemma FreshNumbersAreUnique(w: World)
    requires WorldOk(w) && Fresh(w)
    ensures forall i :: 0 <= i < |w.pipes| ==> w.next !in w.pipes[i].table
    ensures forall i, j, s :: 0 <= i < |w.pipes| && 0 <= j < |w.pipes| && i != j && s in w.pipes[i].table ==>
              s !in w.pipes[j].table
  {
    forall i | 0 <= i < |w.pipes| ensures w.next !in w.pipes[i].table {
      assert PipeOk(w, i);
      if w.next in w.pipes[i].table {
        assert LiveOk(w.pipes[i], w.next);
        NumberIsNotNext(w.stamps[i][w.pipes[i].table[w.next].id], w.total);
      }
    }
    forall i, j, s | 0 <= i < |w.pipes| && 0 <= j < |w.pipes| && i != j && s in w.pipes[i].table
      ensures s !in w.pipes[j].table
    {
      assert PipeOk(w, i) && PipeOk(w, j);
      assert LiveOk(w.pipes[i], s);
      if s in w.pipes[j].table {
        assert LiveOk(w.pipes[j], s);
        SameResidue(w.stamps[i][w.pipes[i].table[s].id], w.stamps[j][w.pipes[j].table[s].id], w.total);
      }
    }
  }

  /**
   * The next number is held by a live request of a pipeline exactly when some live
   * request of it is a multiple of 65536 allocations old: then it is overwritten.
   */
  lemma NextNumberIsLiveIff(w: World, i: nat)
    requires WorldOk(w) && i < |w.pipes|
    ensures w.next in w.pipes[i].table <==>
      exists s :: s in w.pipes[i].table && w.pipes[i].table[s].id < |w.stamps[i]|
                  && (w.total - w.stamps[i][w.pipes[i].table[s].id]) % MAX_SEQUENCE == 0
  {
    assert PipeOk(w, i);
    var p := w.pipes[i];
    forall s | s in p.table
      ensures p.table[s].id < |w.stamps[i]|
      ensures s == w.next <==> (w.total - w.stamps[i][p.table[s].id]) % MAX_SEQUENCE == 0
    {
      assert LiveOk(p, s);
      SameNumberIff(w.stamps[i][p.table[s].id], w.total);
    }
  }

  lemma SameNumberIff(stamp: nat, total: nat)
    requires stamp < total
    ensures stamp % MAX_SEQUENCE == total % MAX_SEQUENCE <==> (total - stamp) % MAX_SEQUENCE == 0
  {
  }

  lemma NumberIsNotNext(stamp: nat, total: nat)
    requires stamp < total && total - stamp < MAX_SEQUENCE
    ensures stamp % MAX_SEQUENCE != total % MAX_SEQUENCE
  {
  }

  /**
   * A late or duplicated response to a request that is no longer live changes
   * nothing in any pipeline until its number has been allocated again.
   */
  lemma LateResponseIsIgnored(w: World, i: nat, id: nat, j: nat, e: Event)
    requires WorldOk(w) && Fresh(w) && i < |w.pipes| && j < |w.pipes|
    requires id < |w.stamps[i]| == |w.pipes[i].issues| && !Live(w.pipes[i], id)
    requires w.total <= w.stamps[i][id] + MAX_SEQUENCE
    requires e.Response? && e.seqno == w.pipes[i].issues[id].seqno
    ensures AfterEvent(w.pipes[j], e) == w.pipes[j]
  {
    assert PipeOk(w, i) && PipeOk(w, j);
    var p := w.pipes[j];
    if e.seqno in p.table {
      assert LiveOk(p, e.seqno);
      SameResidue(w.stamps[i][id], w.stamps[j][p.table[e.seqno].id], w.total);
    }
  }

  // ---------------------------------------------------------------- runs

  /** A pipeline is started, or the user of pipeline `i` makes a call. */
  datatype Step =
    | Starts(nChannels: Option<int>, waits: Option<int>, nRetries: int, nonFail: set<ResultCode>)
    | Sends(i: nat, request: Request, callback: Option<Callback>, handler: ErrorCallback,
            ready: bool, events: seq<Event>, sendRaises: bool)
    | Finishes(i: nat, events: seq<Event>)

  predicate Allowed(w: World, step: Step) {
    && |w.stamps| == |w.pipes|
    && match step
       case Starts(_, _, _, _) => true
       case Sends(i, _, _, _, _, _, _) => i < |w.pipes| && (w.pipes[i].nChannels.Some? ==> w.pipes[i].waits.Some?)
       case Finishes(i, _) => i < |w.pipes|
  }

  function Update(w: World, i: nat, p: Pipe): World
    requires i < |w.pipes|
  {
    w.(pipes := w.pipes[i := p])
  }

  function Allocate(w: World, i: nat, p: Pipe): World
    requires i < |w.pipes| == |w.stamps|
  {
    World((w.next + 1) % MAX_SEQUENCE, w.total + 1, w.pipes[i := p], w.stamps[i := w.stamps[i] + [w.total]])
  }

  function Take(w: World, step: Step): World
    requires Allowed(w, step)
  {
    match step
    case Starts(c, r, n, f) => w.(pipes := w.pipes + [Initial(c, r, n, f)], stamps := w.stamps + [[]])
    case Sends(i, request, callback, handler, ready, events, raises) =>
      var r := Send(w.pipes[i], Issue(request, callback, handler, w.next), ready, events, raises);
      if r.status.Returned? || r.status.Raised? then Allocate(w, i, r.pipe) else Update(w, i, r.pipe)
    case Finishes(i, events) => Update(w, i, Finish(w.pipes[i], events).pipe)
  }

  lemma AdmitKeepsIssues(p: Pipe, events: seq<Event>)
    requires p.nChannels.Some? ==> p.waits.Some?
    ensures var q := Admit(p, events).pipe;
      q.issues == p.issues && q.lost == p.lost && q.table.Keys <= p.table.Keys
  {
    if p.nChannels.Some? {
      RetrieveKeepsIssues(p, p.waits.value, events);
      RetrieveAddsNothing(p, p.waits.value, events);
    }
  }

  lemma EnterIssues(p: Pipe, issue: Issue, raises: bool)
    ensures Enter(p, issue, raises).issues == p.issues + [issue]
    ensures issue.seqno !in p.table ==> Enter(p, issue, raises).lost == p.lost
  {
  }

  lemma SendIssues(p: Pipe, issue: Issue, ready: bool, events: seq<Event>, raises: bool)
    requires Inv(p)
    ensures var r := Send(p, issue, ready, events, raises);
      && Inv(r.pipe)
      && (if r.status.Returned? || r.status.Raised? then r.pipe.issues == p.issues + [issue]
          else r.pipe.issues == p.issues)
      && (issue.seqno !in p.table ==> r.pipe.lost == p.lost)
  {
    hide Core, Admit, Enter;
    SendKeepsInv(p, issue, ready, events, raises);
    InvWindow(p);
    AdmitKeepsIssues(Measure(p, ready), events);
    AdmitNeverRaises(Measure(p, ready), events);
    EnterIssues(Admit(Measure(p, ready), events).pipe, issue, raises);
  }

  lemma InvWindow(p: Pipe)
    requires Inv(p)
    ensures p.nChannels.Some? ==> p.waits.Some?
  {
  }

  lemma AdmitNeverRaises(p: Pipe, events: seq<Event>)
    requires p.nChannels.Some? ==> p.waits.Some?
    ensures Admit(p, events).status != Raised
  {
  }

  lemma UpdateKeepsWorld(w: World, i: nat, p: Pipe)
    requires WorldOk(w) && i < |w.pipes| && Inv(p) && p.issues == w.pipes[i].issues
    ensures WorldOk(Update(w, i, p))
  {
    hide Core;
    forall j | 0 <= j < |w.pipes| ensures PipeOk(Update(w, i, p), j) {
      assert PipeOk(w, j);
    }
  }

  lemma AllocateKeepsWorld(w: World, i: nat, p: Pipe, issue: Issue)
    requires WorldOk(w) && i < |w.pipes| && Inv(p)
    requires p.issues == w.pipes[i].issues + [issue] && issue.seqno == w.next
    ensures WorldOk(Allocate(w, i, p))
  {
    hide Core;
    var q := Allocate(w, i, p);
    forall j | 0 <= j < |w.pipes| ensures PipeOk(w, j) && PipeOk(q, j) {
      assert PipeOk(w, j);
    }
    forall j, k, a, b | 0 <= j < |q.stamps| && 0 <= k < |q.stamps| && 0 <= a < |q.stamps[j]| && 0 <= b < |q.stamps[k]|
      && q.stamps[j][a] == q.stamps[k][b]
      ensures j == k && a == b
    {
      assert PipeOk(w, j) && PipeOk(w, k);
      assert a < |w.stamps[j]| ==> q.stamps[j][a] == w.stamps[j][a] < w.total;
      assert b < |w.stamps[k]| ==> q.stamps[k][b] == w.stamps[k][b] < w.total;
    }
  }

  lemma StepKeepsWorld(w: World, step: Step)
    requires WorldOk(w) && Allowed(w, step)
    ensures WorldOk(Take(w, step))
  {
    hide Core, Send, Finish, Allocate, Update;
    match step
    case Starts(c, r, n, f) =>
      InitialInv(c, r, n, f);
      StartKeepsWorld(w, Initial(c, r, n, f));
    case Sends(i, request, callback, handler, ready, events, raises) =>
      assert PipeOk(w, i);
      var issue := Issue(request, callback, handler, w.next);
      SendIssues(w.pipes[i], issue, ready, events, raises);
      var r := Send(w.pipes[i], issue, ready, events, raises);
      if r.status.Returned? || r.status.Raised? {
        AllocateKeepsWorld(w, i, r.pipe, issue);
      } else {
        UpdateKeepsWorld(w, i, r.pipe);
      }
    case Finishes(i, events) =>
      assert PipeOk(w, i);
      FinishKeeps(w.pipes[i], events);
      UpdateKeepsWorld(w, i, Finish(w.pipes[i], events).pipe);
  }

  lemma FinishKeeps(p: Pipe, events: seq<Event>)
    requires Inv(p)
    ensures var q := Finish(p, events).pipe; Inv(q) && q.issues == p.issues && q.lost == p.lost
  {
    hide Core, Retrieve;
    RetrieveKeepsInv(p, 0, events);
    RetrieveKeepsIssues(p, 0, events);
  }

  lemma InitialInv(c: Option<int>, r: Option<int>, n: int, f: set<ResultCode>)
    ensures Inv(Initial(c, r, n, f))
  {
  }

  lemma StartKeepsWorld(w: World, p: Pipe)
    requires WorldOk(w) && Inv(p) && p.issues == []
    ensures WorldOk(w.(pipes := w.pipes + [p], stamps := w.stamps + [[]]))
  {
    hide Core;
    var q := w.(pipes := w.pipes + [p], stamps := w.stamps + [[]]);
    forall j | 0 <= j < |q.pipes| ensures PipeOk(q, j) {
      assert j < |w.pipes| ==> PipeOk(w, j);
    }
  }

  ghost predicate NothingLost(w: World) {
    forall i :: 0 <= i < |w.pipes| ==> w.pipes[i].lost == {}
  }

  /** A run in which every send finds the live requests fresh. */
  ghost predicate FreshRun(w: World, steps: seq<Step>, end: World)
    decreases |steps|
  {
    if steps == [] then w == end
    else
      && WorldOk(w) && Allowed(w, steps[0]) && (steps[0].Sends? ==> Fresh(w))
      && FreshRun(Take(w, steps[0]), steps[1..], end)
  }

  lemma StepLosesNothing(w: World, step: Step)
    requires WorldOk(w) && Allowed(w, step) && (step.Sends? ==> Fresh(w)) && NothingLost(w)
    ensures NothingLost(Take(w, step))
  {
    hide Core, Send, Finish;
    if step.Sends? {
      FreshNumbersAreUnique(w);
      assert PipeOk(w, step.i);
      SendIssues(w.pipes[step.i], Issue(step.request, step.callback, step.handler, w.next),
                 step.ready, step.events, step.sendRaises);
    } else if step.Finishes? {
      assert PipeOk(w, step.i);
      FinishKeeps(w.pipes[step.i], step.events);
    }
  }

  /**
   * Over every fresh run of any number of pipelines no request is overwritten,
   * so that (module ScpPipelineTheorems) each of them is live or settled once.
   */
  lemma {:induction false} FreshRunsLoseNothing(w: World, steps: seq<Step>, end: World)
    requires WorldOk(w) && NothingLost(w) && FreshRun(w, steps, end)
    ensures WorldOk(end) && NothingLost(end)
    decreases |steps|
  {
    hide Core, Take;
    if steps != [] {
      StepKeepsWorld(w, steps[0]);
      StepLosesNothing(w, steps[0]);
      FreshRunsLoseNothing(Take(w, steps[0]), steps[1..], end);
    }
  }
}
