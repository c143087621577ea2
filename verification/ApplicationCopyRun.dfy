/** Broadcasting a binary from the boot chip down the tree of parent links, round by round. */
module ApplicationCopyRun {
  import opened Common

  type XY = (int, int)

  /** A chip: its board (by nearest Ethernet chip), where the links of its router lead, and which one to its parent. */
  datatype Chip = Chip(ethernet: XY, links: map<nat, XY>, parentLink: Option<nat>)

  /** `order` lists the chips as the machine iterates over them. */
  datatype Machine = Machine(chips: map<XY, Chip>, order: seq<XY>, boot: XY)

  ghost predicate MachineOk(m: Machine) {
    && Distinct(m.order) && (forall c :: c in m.order <==> c in m.chips)
    && m.boot in m.chips && m.chips[m.boot].ethernet == m.boot
    && forall c :: c in m.chips && m.chips[c].parentLink.Some? ==> m.chips[c].parentLink.value in m.chips[c].links
  }

  /** The chip that a link of `c` leads to. */
  function Over(m: Machine, c: XY, link: nat): Option<XY> {
    if c in m.chips && link in m.chips[c].links then Some(m.chips[c].links[link]) else None
  }

  /** The chip that the parent link of `c` leads to. */
  function Parent(m: Machine, c: XY): Option<XY> {
    if c in m.chips && m.chips[c].parentLink.Some? then Over(m, c, m.chips[c].parentLink.value) else None
  }

  predicate ChildOf(m: Machine, c: XY, p: XY) {
    c in m.chips && Parent(m, c) == Some(p)
  }

  predicate OnSameBoard(m: Machine, a: XY, b: XY)
    requires a in m.chips && b in m.chips
  {
    m.chips[a].ethernet == m.chips[b].ethernet
  }

  // ---------------------------------------------------------------- what a round is

  /** Chip `c` is copied to from a chip that is done. */
  ghost predicate Copies(m: Machine, done: set<XY>, c: XY) {
    c in m.chips && c !in done && Parent(m, c).Some? && Parent(m, c).value in done
  }

  /** Chip `c` is copied to from another board, the one of `board`. */
  ghost predicate CrossesFrom(m: Machine, c: XY, board: XY) {
    && c in m.chips && Parent(m, c).Some? && Parent(m, c).value in m.chips
    && m.chips[Parent(m, c).value].ethernet == board != m.chips[c].ethernet
  }

  /** No chip is the source of two copies and no board of two copies to other boards. */
  ghost predicate Polite(m: Machine, next: seq<XY>) {
    forall i, j :: 0 <= i < j < |next| && next[i] in m.chips && next[j] in m.chips ==>
      && Parent(m, next[i]) != Parent(m, next[j])
      && forall b :: !(CrossesFrom(m, next[i], b) && CrossesFrom(m, next[j], b))
  }

  ghost predicate BoardCrosses(m: Machine, next: seq<XY>, board: XY) {
    exists k :: 0 <= k < |next| && CrossesFrom(m, next[k], board)
  }

  /** If `p` has a child left to do, it is used, or only its board's one off-board copy kept it from that. */
  ghost predicate Served(m: Machine, done: set<XY>, next: seq<XY>, p: XY) {
    forall d :: ChildOf(m, d, p) && d !in done && p in m.chips ==>
      || (exists k :: 0 <= k < |next| && ChildOf(m, next[k], p))
      || (!OnSameBoard(m, d, p) && BoardCrosses(m, next, m.chips[p].ethernet))
  }

  ghost predicate Round(m: Machine, done: set<XY>, next: seq<XY>) {
    && (forall c :: c in next ==> Copies(m, done, c))
    && Polite(m, next)
    && (forall p :: p in done ==> Served(m, done, next, p))
  }

  // ---------------------------------------------------------------- the code

  /** `done` as the source keeps it: for each board, in order of first use, its chips in order. */
  ghost predicate DoneOk(m: Machine, boards: seq<XY>, done: map<XY, seq<XY>>) {
    && Distinct(boards) && (forall e :: e in boards <==> e in done)
    && (forall e :: e in done ==> Distinct(done[e]))
    && forall e, c :: e in done && c in done[e] ==> c in m.chips && m.chips[c].ethernet == e
  }

  function DoneSet(done: map<XY, seq<XY>>): set<XY> {
    set e, c | e in done && c in done[e] :: c
  }

  /** The chips of `order` whose parent is `p`, in order. */
  function Children(m: Machine, order: seq<XY>, p: XY): (r: seq<XY>)
    ensures forall c :: c in r <==> c in order && ChildOf(m, c, p)
  {
    if order == [] then []
    else
      var last := order[|order| - 1];
      Children(m, order[..|order| - 1], p) + (if ChildOf(m, last, p) then [last] else [])
  }

  /** Every chip's children among those of `order`. */
  ghost predicate Grouped(m: Machine, order: seq<XY>, parents: map<XY, seq<XY>>) {
    forall p :: (if p in parents then parents[p] else []) == Children(m, order, p)
  }

  lemma NoChildren(m: Machine)
    ensures Grouped(m, m.order[..0], map[])
  {
  }

  lemma AnotherChild(m: Machine, order: seq<XY>, i: nat, parents: map<XY, seq<XY>>)
    requires i < |order| && order[i] in m.chips
    requires Grouped(m, order[..i], parents)
    ensures var c := order[i];
      var after := if Parent(m, c).None? then parents else
        var p := Parent(m, c).value;
        parents[p := (if p in parents then parents[p] else []) + [c]];
      Grouped(m, order[..i + 1], after)
  {
    var last := order[..i + 1];
    assert last[..i] == order[..i];
    forall p
      ensures Children(m, last, p) == Children(m, order[..i], p) + if ChildOf(m, order[i], p) then [order[i]] else []
    {
    }
  }

  method ComputeParentChips(m: Machine) returns (parents: map<XY, seq<XY>>)
    requires MachineOk(m)
    ensures Grouped(m, m.order, parents)
  {
    hide Grouped;
    parents := map[];
    NoChildren(m);
    var i := 0;
    while i < |m.order|
      invariant 0 <= i <= |m.order|
      invariant Grouped(m, m.order[..i], parents)
    {
      var c := m.order[i];
      AnotherChild(m, m.order, i, parents);
      if m.chips[c].parentLink.Some? {
        var p := m.chips[c].links[m.chips[c].parentLink.value];
        parents := parents[p := (if p in parents then parents[p] else []) + [c]];
      }
      i := i + 1;
    }
    assert m.order[..i] == m.order;
  }

  /** The first child that is still to do and that the board's off-board copy allows. */
  method PickChild(m: Machine, done: map<XY, seq<XY>>, children: seq<XY>, c: XY, offBoardCopyDone: bool)
    returns (pick: Option<XY>)
    requires c in m.chips && forall d :: d in children ==> d in m.chips
    requires forall e, x :: e in done && x in done[e] ==> x in m.chips && m.chips[x].ethernet == e
    ensures pick.Some? ==>
      pick.value in children && pick.value !in DoneSet(done) && (OnSameBoard(m, pick.value, c) || !offBoardCopyDone)
    ensures pick.None? ==>
      forall d :: d in children ==> d in DoneSet(done) || (!OnSameBoard(m, d, c) && offBoardCopyDone)
  {
    var i := 0;
    while i < |children|
      invariant 0 <= i <= |children|
      invariant forall d :: d in children[..i] ==> d in DoneSet(done) || (!OnSameBoard(m, d, c) && offBoardCopyDone)
    {
      var chip := children[i];
      var onSameBoard := OnSameBoard(m, chip, c);
      var eth := m.chips[chip].ethernet;
      if eth !in done || chip !in done[eth] {
        if onSameBoard || !offBoardCopyDone {
          return Some(chip);
        }
      }
      i := i + 1;
    }
    return None;
  }

  /** The part of a round that has been chosen after looking at the chips of `seen`. */
  ghost predicate PartRound(m: Machine, done: set<XY>, next: seq<XY>, seen: set<XY>) {
    && (forall c :: c in next ==> Copies(m, done, c) && Parent(m, c).value in seen)
    && Polite(m, next)
    && (forall p :: p in seen ==> Served(m, done, next, p))
  }

  lemma PickExtends(m: Machine, done: set<XY>, next: seq<XY>, seen: set<XY>, c: XY, d: XY)
    requires PartRound(m, done, next, seen) && seen <= done && c in done && c !in seen && c in m.chips
    requires ChildOf(m, d, c) && d !in done
    requires OnSameBoard(m, d, c) || !BoardCrosses(m, next, m.chips[c].ethernet)
    ensures PartRound(m, done, next + [d], seen + {c})
  {
    var next' := next + [d];
    forall i, j | 0 <= i < j < |next'| && next'[i] in m.chips && next'[j] in m.chips
      ensures Parent(m, next'[i]) != Parent(m, next'[j])
      ensures forall b :: !(CrossesFrom(m, next'[i], b) && CrossesFrom(m, next'[j], b))
    {
      if j == |next| {
        assert next[i] in next;
      }
    }
    forall p | p in seen + {c} ensures Served(m, done, next', p) {
      assert next'[|next|] == d;
      if p in seen {
        assert Served(m, done, next, p);
        ServedGrows(m, done, next, d, p);
      }
    }
  }

  lemma ServedGrows(m: Machine, done: set<XY>, next: seq<XY>, d: XY, p: XY)
    requires Served(m, done, next, p)
    ensures Served(m, done, next + [d], p)
  {
    var next' := next + [d];
    assert forall k :: 0 <= k < |next| ==> next'[k] == next[k];
    forall x | ChildOf(m, x, p) && x !in done && p in m.chips
      ensures (exists k :: 0 <= k < |next'| && ChildOf(m, next'[k], p))
              || (!OnSameBoard(m, x, p) && BoardCrosses(m, next', m.chips[p].ethernet))
    {
      if k :| 0 <= k < |next| && ChildOf(m, next[k], p) {
        assert ChildOf(m, next'[k], p);
      } else {
        var k :| 0 <= k < |next| && CrossesFrom(m, next[k], m.chips[p].ethernet);
        assert CrossesFrom(m, next'[k], m.chips[p].ethernet);
      }
    }
  }

  lemma NothingExtends(m: Machine, done: set<XY>, next: seq<XY>, seen: set<XY>, c: XY, offBoardCopyDone: bool)
    requires PartRound(m, done, next, seen) && c in m.chips
    requires offBoardCopyDone ==> BoardCrosses(m, next, m.chips[c].ethernet)
    requires forall d :: ChildOf(m, d, c) ==> d in done || (!OnSameBoard(m, d, c) && offBoardCopyDone)
    ensures PartRound(m, done, next, seen + {c})
  {
    assert Served(m, done, next, c);
  }

  lemma CrossingGrows(m: Machine, next: seq<XY>, d: XY, board: XY)
    ensures BoardCrosses(m, next + [d], board) <==> BoardCrosses(m, next, board) || CrossesFrom(m, d, board)
  {
    var next' := next + [d];
    if CrossesFrom(m, d, board) {
      assert CrossesFrom(m, next'[|next|], board);
    } else if BoardCrosses(m, next, board) {
      var k :| 0 <= k < |next| && CrossesFrom(m, next[k], board);
      assert CrossesFrom(m, next'[k], board);
    }
  }

  lemma OtherBoardsDoNotCross(m: Machine, done: set<XY>, next: seq<XY>, seen: set<XY>, board: XY)
    requires PartRound(m, done, next, seen)
    requires forall c :: c in seen ==> c in m.chips && m.chips[c].ethernet != board
    ensures !BoardCrosses(m, next, board)
  {
    assert forall k :: 0 <= k < |next| ==> next[k] in next;
  }

  /** Choose the copies whose sources are on one board. */
  method ScanBoard(m: Machine, done: map<XY, seq<XY>>, parents: map<XY, seq<XY>>, eth: XY, chosen: seq<XY>,
                   ghost before: set<XY>)
    returns (next: seq<XY>)
    requires MachineOk(m) && eth in done && Distinct(done[eth])
    requires forall e, x :: e in done && x in done[e] ==> x in m.chips && m.chips[x].ethernet == e
    requires Grouped(m, m.order, parents)
    requires PartRound(m, DoneSet(done), chosen, before) && before <= DoneSet(done)
    requires forall c :: c in before ==> c in m.chips && m.chips[c].ethernet != eth
    ensures PartRound(m, DoneSet(done), next, before + Elements(done[eth]))
  {
    hide PartRound, BoardCrosses, DoneSet, Children;
    ghost var all := DoneSet(done);
    AllDone(done, eth);
    OtherBoardsDoNotCross(m, all, chosen, before, eth);
    next := chosen;
    var offBoardCopyDone := false;
    var chips := done[eth];
    var i := 0;
    assert before + Elements(chips[..0]) == before;
    while i < |chips|
      invariant 0 <= i <= |chips|
      invariant PartRound(m, all, next, before + Elements(chips[..i]))
      invariant offBoardCopyDone <==> BoardCrosses(m, next, eth)
    {
      var c := chips[i];
      ghost var seen := before + Elements(chips[..i]);
      assert before + Elements(chips[..i + 1]) == seen + {c};
      assert c !in seen;
      var children := if c in parents then parents[c] else [];
      assert children == Children(m, m.order, c);
      var pick := PickChild(m, done, children, c, offBoardCopyDone);
      if pick.Some? {
        PickExtends(m, all, next, seen, c, pick.value);
        CrossingGrows(m, next, pick.value, eth);
        next := next + [pick.value];
        if !OnSameBoard(m, pick.value, c) {
          offBoardCopyDone := true;
        }
      } else {
        NothingExtends(m, all, next, seen, c, offBoardCopyDone);
      }
      i := i + 1;
    }
    assert chips[..i] == chips;
  }

  lemma AllDone(done: map<XY, seq<XY>>, eth: XY)
    requires eth in done
    ensures forall c :: c in done[eth] ==> c in DoneSet(done)
  {
  }

  method GetNextChips(m: Machine, boards: seq<XY>, done: map<XY, seq<XY>>, parents: map<XY, seq<XY>>)
    returns (next: seq<XY>)
    requires MachineOk(m) && DoneOk(m, boards, done)
    requires Grouped(m, m.order, parents)
    ensures Round(m, DoneSet(done), next)
  {
    next := [];
    ghost var seen: set<XY> := {};
    var b := 0;
    while b < |boards|
      invariant 0 <= b <= |boards|
      invariant PartRound(m, DoneSet(done), next, seen) && seen <= DoneSet(done)
      invariant forall c :: c in seen <==> exists k :: 0 <= k < b && c in done[boards[k]]
    {
      next := ScanBoard(m, done, parents, boards[b], next, seen);
      AllDone(done, boards[b]);
      seen := seen + Elements(done[boards[b]]);
      b := b + 1;
    }
    assert DoneSet(done) <= seen;
  }

  // ---------------------------------------------------------------- the whole broadcast

  /** The chips that are done after these rounds. */
  function After(m: Machine, rounds: seq<seq<XY>>): set<XY> {
    {m.boot} + Elements(Flatten(rounds))
  }

  /** Every round copies only from chips done in earlier rounds, politely. */
  ghost predicate Rounds(m: Machine, rounds: seq<seq<XY>>) {
    rounds == []
    || (var before := rounds[..|rounds| - 1];
        Rounds(m, before) && Round(m, After(m, before), rounds[|rounds| - 1]))
  }

  /** The chain of parent links from `c` reaches the boot chip in `k` links. */
  predicate ReachesIn(m: Machine, c: XY, k: nat)
    decreases k
  {
    && c in m.chips
    && if k == 0 then c == m.boot
       else Parent(m, c).Some? && ReachesIn(m, Parent(m, c).value, k - 1)
  }

  ghost predicate Reaches(m: Machine, c: XY) {
    exists k: nat :: ReachesIn(m, c, k)
  }

  lemma PoliteIsDistinct(m: Machine, done: set<XY>, next: seq<XY>)
    requires Round(m, done, next)
    ensures Distinct(next)
  {
    forall i, j | 0 <= i < j < |next| ensures next[i] != next[j] {
      assert next[i] in next && next[j] in next;
    }
  }

  lemma RoundReaches(m: Machine, done: set<XY>, next: seq<XY>)
    requires Round(m, done, next) && forall c :: c in done ==> Reaches(m, c)
    ensures forall c :: c in next ==> c in m.chips && Reaches(m, c) && c !in done
  {
    forall c | c in next ensures c in m.chips && Reaches(m, c) && c !in done {
      var k: nat :| ReachesIn(m, Parent(m, c).value, k);
      assert ReachesIn(m, c, k + 1);
    }
  }

  lemma AppendDistinct(a: seq<XY>, b: seq<XY>)
    requires Distinct(a) && Distinct(b) && forall x :: x in b ==> x !in a
    ensures Distinct(a + b)
  {
    assert forall j :: 0 <= j < |b| ==> b[j] in b;
    assert forall i :: 0 <= i < |a| ==> a[i] in a;
  }

  /** Each chip is sent at most one copy, none is sent to the boot chip, and all done chips reach it. */
  lemma {:induction false} RoundsFacts(m: Machine, rounds: seq<seq<XY>>)
    requires MachineOk(m) && Rounds(m, rounds)
    ensures Distinct(Flatten(rounds)) && m.boot !in Flatten(rounds)
    ensures forall c :: c in After(m, rounds) ==> c in m.chips && Reaches(m, c)
  {
    hide Round, Reaches, Distinct;
    if rounds == [] {
      BootReaches(m);
    } else {
      var before, last := rounds[..|rounds| - 1], rounds[|rounds| - 1];
      RoundsFacts(m, before);
      PoliteIsDistinct(m, After(m, before), last);
      RoundReaches(m, After(m, before), last);
      AppendDistinct(Flatten(before), last);
    }
  }

  lemma BootReaches(m: Machine)
    requires MachineOk(m)
    ensures Reaches(m, m.boot) && Distinct(Flatten<XY>([]))
  {
    assert ReachesIn(m, m.boot, 0);
  }

  /** A round that copies nothing leaves nothing to copy. */
  lemma {:induction false} EmptyRoundMeansClosed(m: Machine, done: set<XY>, c: XY, k: nat)
    requires Round(m, done, []) && m.boot in done && done <= m.chips.Keys && ReachesIn(m, c, k)
    ensures c in done
    decreases k
  {
    if k > 0 {
      var p := Parent(m, c).value;
      EmptyRoundMeansClosed(m, done, p, k - 1);
      assert Served(m, done, [], p);
      assert ChildOf(m, c, p);
    }
  }

  lemma {:induction false} AppendRound(m: Machine, rounds: seq<seq<XY>>, next: seq<XY>)
    requires Rounds(m, rounds) && Round(m, After(m, rounds), next)
    ensures Rounds(m, rounds + [next]) && After(m, rounds + [next]) == After(m, rounds) + Elements(next)
    ensures Flatten(rounds + [next]) == Flatten(rounds) + next
  {
    assert (rounds + [next])[..|rounds|] == rounds;
  }

  lemma NewBoard(m: Machine, boards: seq<XY>, done: map<XY, seq<XY>>, eth: XY)
    requires DoneOk(m, boards, done)
    ensures eth !in done ==> DoneOk(m, boards + [eth], done[eth := []]) && DoneSet(done[eth := []]) == DoneSet(done)
  {
    if eth !in done {
      var new' := done[eth := []];
      assert forall e, c :: e in new' && c in new'[e] ==> e in done && c in done[e];
      assert forall e, c :: e in done && c in done[e] ==> c in new'[e];
    }
  }

  lemma ChipIsNoted(m: Machine, boards: seq<XY>, done: map<XY, seq<XY>>, chip: XY)
    requires DoneOk(m, boards, done) && chip in m.chips && m.chips[chip].ethernet in done && chip !in DoneSet(done)
    ensures var eth := m.chips[chip].ethernet; DoneOk(m, boards, done[eth := done[eth] + [chip]])
  {
    var eth := m.chips[chip].ethernet;
    assert chip !in done[eth];
  }

  /** What is to be copied and run: the same everywhere but for the cores of each chip. */
  datatype Job = Job(size: int, appId: nat, processors: XY -> seq<nat>, checksum: nat, wait: bool)

  datatype Request = AppCopyRun(
    chip: XY, link: nat, size: int, appId: nat, processors: seq<nat>, checksum: nat, wait: bool)

  /** The request tells chip `c` to copy over its parent link, for its own cores, and all else as in the job. */
  ghost predicate Asks(m: Machine, job: Job, r: Request, c: XY) {
    && c in m.chips && r.chip == c && Some(r.link) == m.chips[c].parentLink
    && r.processors == job.processors(c)
    && r.size == job.size && r.appId == job.appId && r.checksum == job.checksum && r.wait == job.wait
  }

  /** One request for each of the chips, in their order. */
  ghost predicate SentTo(m: Machine, job: Job, sent: seq<Request>, chips: seq<XY>) {
    |sent| == |chips| && forall k :: 0 <= k < |chips| ==> Asks(m, job, sent[k], chips[k])
  }

  class CopyRunProcess {
    var boards: seq<XY>
    var done: map<XY, seq<XY>>
    var sent: seq<Request>

    constructor (m: Machine)
      requires MachineOk(m)
      ensures DoneOk(m, boards, done) && DoneSet(done) == {m.boot} && sent == []
    {
      boards, done, sent := [m.boot], map[m.boot := [m.boot]], [];
      new;
      assert m.boot in done[m.boot];
    }

    /** Send the request for one chip and note the chip as done; a size that is not whole words raises first. */
    method CopyTo(m: Machine, job: Job, chip: XY) returns (raised: bool)
      requires MachineOk(m) && DoneOk(m, boards, done) && chip in m.chips && chip !in DoneSet(done)
      requires m.chips[chip].parentLink.Some?
      modifies this
      ensures raised <==> job.size % 4 != 0
      ensures DoneOk(m, boards, done) && DoneSet(done) == old(DoneSet(done)) + if raised then {} else {chip}
      ensures raised ==> sent == old(sent)
      ensures !raised ==>
        |sent| == |old(sent)| + 1 && sent[..|old(sent)|] == old(sent) && Asks(m, job, sent[|old(sent)|], chip)
    {
      hide DoneOk, DoneSet;
      if job.size % 4 != 0 {
        return true;
      }
      var link := m.chips[chip].parentLink.value;
      sent := sent + [AppCopyRun(chip, link, job.size, job.appId, job.processors(chip), job.checksum, job.wait)];
      var eth := m.chips[chip].ethernet;
      NewBoard(m, boards, done, eth);
      if eth !in done {
        boards := boards + [eth];
        done := done[eth := []];
      }
      ghost var was := done;
      done := done[eth := done[eth] + [chip]];
      DoneGrows(was, eth, chip);
      ChipIsNoted(m, boards, was, chip);
      raised := false;
    }

    /** Send the requests of a round. */
    method RunRound(m: Machine, job: Job, next: seq<XY>, ghost before: set<XY>, ghost chips: seq<XY>)
      returns (raised: bool)
      requires MachineOk(m) && DoneOk(m, boards, done) && DoneSet(done) == before && Round(m, before, next)
      requires SentTo(m, job, sent, chips)
      modifies this
      ensures raised <==> next != [] && job.size % 4 != 0
      ensures DoneOk(m, boards, done) && DoneSet(done) == before + if raised then {} else Elements(next)
      ensures SentTo(m, job, sent, if raised then chips else chips + next)
    {
      hide Round, DoneOk, DoneSet, SentTo;
      RoundTargets(m, before, next);
      assert chips + next[..0] == chips;
      for i := 0 to |next|
        invariant DoneOk(m, boards, done) && DoneSet(done) == before + Elements(next[..i])
        invariant SentTo(m, job, sent, chips + next[..i])
        invariant i > 0 ==> job.size % 4 == 0
      {
        assert next[i] !in next[..i];
        ghost var before := sent;
        raised := CopyTo(m, job, next[i]);
        if raised {
          return;
        }
        OneMoreSent(m, job, before, sent, chips, next, i);
        assert Elements(next[..i + 1]) == Elements(next[..i]) + {next[i]};
      }
      assert next[..|next|] == next;
      raised := false;
    }

    /**
     * Run the rounds; `fails` says of each whether one of its requests failed, on
     * which the source raises. Returned normally, exactly the chips whose parent
     * chain reaches the boot chip are done, each but the boot chip by one copy.
     */
    method Run(m: Machine, job: Job, fails: seq<bool>) returns (raised: bool, rounds: seq<seq<XY>>)
      requires MachineOk(m) && DoneOk(m, boards, done) && DoneSet(done) == {m.boot} && sent == []
      modifies this
      ensures Rounds(m, rounds) && SentTo(m, job, sent, Flatten(rounds))
      ensures Distinct(Flatten(rounds)) && m.boot !in Flatten(rounds)
      ensures !raised ==> forall c :: c in Flatten(rounds) <==> c != m.boot && Reaches(m, c)
      ensures raised ==> job.size % 4 != 0 || (0 < |rounds| <= |fails| && fails[|rounds| - 1])
      ensures job.size % 4 != 0 ==> rounds == [] && (raised <==> exists c :: c != m.boot && Reaches(m, c))
      ensures forall k :: 0 <= k < |rounds| - (if raised then 1 else 0) ==>
        rounds[k] != [] && (k < |fails| ==> !fails[k])
    {
      hide Round, DoneOk, DoneSet, Rounds, Copies, SentTo, Flatten;
      var parents := ComputeParentChips(m);
      rounds := [];
      RoundsStart(m);
      NothingSent(m, job);
      var next := GetNextChips(m, boards, done, parents);
      while next != []
        invariant DoneOk(m, boards, done) && DoneSet(done) == After(m, rounds)
        invariant Rounds(m, rounds) && SentTo(m, job, sent, Flatten(rounds))
        invariant job.size % 4 != 0 ==> rounds == []
        invariant Round(m, After(m, rounds), next)
        invariant forall k :: 0 <= k < |rounds| ==> rounds[k] != [] && (k < |fails| ==> !fails[k])
        decreases m.chips.Keys - After(m, rounds)
      {
        var badSize := RunRound(m, job, next, After(m, rounds), Flatten(rounds));
        SomeTargetReaches(m, rounds, next);
        if badSize {
          return true, rounds;
        }
        AppendRound(m, rounds, next);
        assert next[0] in After(m, rounds + [next]);
        rounds := rounds + [next];
        RoundsFacts(m, rounds);
        if |rounds| <= |fails| && fails[|rounds| - 1] {
          return true, rounds;
        }
        next := GetNextChips(m, boards, done, parents);
      }
      RoundsFacts(m, rounds);
      forall c | Reaches(m, c) ensures c in After(m, rounds) {
        var k: nat :| ReachesIn(m, c, k);
        EmptyRoundMeansClosed(m, After(m, rounds), c, k);
      }
      raised := false;
    }
  }

  lemma {:induction false} SomeTargetReaches(m: Machine, rounds: seq<seq<XY>>, next: seq<XY>)
    requires MachineOk(m) && Rounds(m, rounds) && Round(m, After(m, rounds), next) && next != []
    ensures next[0] != m.boot && next[0] !in After(m, rounds) && next[0] in m.chips && Reaches(m, next[0])
  {
    hide Round, Rounds;
    RoundsFacts(m, rounds);
    RoundReaches(m, After(m, rounds), next);
    assert next[0] in next;
  }

  lemma NothingSent(m: Machine, job: Job)
    ensures SentTo(m, job, [], Flatten<XY>([]))
  {
  }

  lemma OneMoreSent(m: Machine, job: Job, sent: seq<Request>, more: seq<Request>, before: seq<XY>, next: seq<XY>,
                    i: nat)
    requires i < |next| && SentTo(m, job, sent, before + next[..i])
    requires |more| == |sent| + 1 && more[..|sent|] == sent && Asks(m, job, more[|sent|], next[i])
    ensures SentTo(m, job, more, before + next[..i + 1])
  {
    hide Asks;
    assert before + next[..i + 1] == before + next[..i] + [next[i]];
    assert forall k :: 0 <= k < |sent| ==> more[k] == sent[k];
  }

  lemma {:induction false} RoundsStart(m: Machine)
    ensures Rounds(m, []) && After(m, []) == {m.boot}
  {
  }

  lemma DoneGrows(done: map<XY, seq<XY>>, eth: XY, chip: XY)
    requires eth in done
    ensures DoneSet(done[eth := done[eth] + [chip]]) == DoneSet(done) + {chip}
  {
    var done' := done[eth := done[eth] + [chip]];
    assert chip in done'[eth];
    forall e, c | e in done && c in done[e] ensures c in DoneSet(done') {
      assert c in done'[e];
    }
  }

  lemma RoundTargets(m: Machine, done: set<XY>, next: seq<XY>)
    requires Round(m, done, next)
    ensures Distinct(next) && forall k :: 0 <= k < |next| ==>
              next[k] in m.chips && next[k] !in done && m.chips[next[k]].parentLink.Some?
  {
    PoliteIsDistinct(m, done, next);
    assert forall k :: 0 <= k < |next| ==> next[k] in next;
  }

  // ---------------------------------------------------------------- what the copies leave

  /** A copy request taking effect: its chip gets what the chip over its link has at that moment. */
  function Effect<Image>(m: Machine, images: map<XY, Image>, r: Request): map<XY, Image> {
    var from := Over(m, r.chip, r.link);
    if from.Some? && from.value in images then images[r.chip := images[from.value]] else images
  }

  function Effects<Image>(m: Machine, images: map<XY, Image>, effects: seq<Request>): map<XY, Image> {
    if effects == [] then images
    else Effect(m, Effects(m, images, effects[..|effects| - 1]), effects[|effects| - 1])
  }

  ghost predicate AllHold<Image>(images: map<XY, Image>, chips: set<XY>, image: Image) {
    forall c :: c in chips ==> c in images && images[c] == image
  }

  /** Every done chip but the boot chip has its parent done too. */
  ghost predicate Closed(m: Machine, done: set<XY>) {
    forall c :: c in done && c != m.boot ==> c in m.chips && Parent(m, c).Some? && Parent(m, c).value in done
  }

  lemma {:induction false} RoundsAreClosed(m: Machine, rounds: seq<seq<XY>>)
    requires Rounds(m, rounds)
    ensures Closed(m, After(m, rounds))
  {
    if rounds != [] {
      var before := rounds[..|rounds| - 1];
      RoundsAreClosed(m, before);
      assert After(m, rounds) == After(m, before) + Elements(rounds[|rounds| - 1]);
    }
  }

  /** The request reads over the parent link of its chip. */
  ghost predicate FromParent(m: Machine, r: Request) {
    Over(m, r.chip, r.link) == Parent(m, r.chip)
  }

  ghost predicate Reached(effects: seq<Request>, c: XY) {
    exists k :: 0 <= k < |effects| && effects[k].chip == c
  }

  /**
   * The requests of a round may take effect in any order, any of them several
   * times, and late duplicates of earlier rounds may take effect among them.
   */
  lemma {:induction false} EffectsOfARound<Image>(m: Machine, done: set<XY>, next: seq<XY>, effects: seq<Request>,
                                                  images: map<XY, Image>, image: Image)
    requires Closed(m, done) && Round(m, done, next)
    requires forall r :: r in effects ==>
      FromParent(m, r) && ((r.chip in done && r.chip != m.boot) || r.chip in next)
    requires AllHold(images, done, image)
    ensures AllHold(Effects(m, images, effects), done, image)
    ensures forall c :: Reached(effects, c) ==>
      c in Effects(m, images, effects) && Effects(m, images, effects)[c] == image
  {
    if effects != [] {
      var last := effects[|effects| - 1];
      var before := effects[..|effects| - 1];
      assert effects == before + [last];
      EffectsOfARound(m, done, next, before, images, image);
      assert last in effects;
      assert Parent(m, last.chip).value in done;
      forall c | Reached(effects, c) ensures c == last.chip || Reached(before, c) {
        var k :| 0 <= k < |effects| && effects[k].chip == c;
        assert k < |before| ==> before[k] == effects[k];
      }
    }
  }

  /** How many requests have been sent by the end of the first `r` rounds. */
  function SentBy(rounds: seq<seq<XY>>, r: nat): nat
    requires r <= |rounds|
  {
    |Flatten(rounds[..r])|
  }

  /** Each round's requests have all taken effect by its end, and nothing but requests already sent has. */
  ghost predicate EffectsOk(rounds: seq<seq<XY>>, sent: seq<Request>, effects: seq<seq<Request>>) {
    && |effects| == |rounds| && |sent| == SentBy(rounds, |rounds|)
    && (forall r, k :: 0 <= r < |rounds| && SentBy(rounds, r) <= k < SentBy(rounds, r + 1) && k < |sent| ==>
          sent[k] in effects[r])
    && forall r, e :: 0 <= r < |rounds| && e in effects[r] ==>
         exists k :: 0 <= k < SentBy(rounds, r + 1) && k < |sent| && sent[k] == e
  }

  function AllEffects<Image>(m: Machine, images: map<XY, Image>, effects: seq<seq<Request>>): map<XY, Image> {
    if effects == [] then images
    else Effects(m, AllEffects(m, images, effects[..|effects| - 1]), effects[|effects| - 1])
  }

  /** The requests of all rounds but the last. */
  lemma {:induction false} EarlierRounds(m: Machine, job: Job, rounds: seq<seq<XY>>, sent: seq<Request>,
                                         effects: seq<seq<Request>>)
    requires SentTo(m, job, sent, Flatten(rounds)) && EffectsOk(rounds, sent, effects) && rounds != []
    ensures var n := |rounds| - 1;
      && |effects| == n + 1 && SentBy(rounds, n) <= |sent| && Flatten(rounds) == Flatten(rounds[..n]) + rounds[n]
      && SentTo(m, job, sent[..SentBy(rounds, n)], Flatten(rounds[..n]))
      && EffectsOk(rounds[..n], sent[..SentBy(rounds, n)], effects[..n])
  {
    var n := |rounds| - 1;
    assert rounds[..n + 1] == rounds;
    var before, first := rounds[..n], sent[..SentBy(rounds, n)];
    assert forall r :: 0 <= r <= n ==> before[..r] == rounds[..r];
    forall r | 0 <= r <= n ensures SentBy(before, r) == SentBy(rounds, r) <= SentBy(rounds, n) {
      FlattenGrows(rounds, r, n);
    }
    forall r, e | 0 <= r < n && e in effects[..n][r]
      ensures exists k :: 0 <= k < SentBy(before, r + 1) && k < |first| && first[k] == e
    {
      var k :| 0 <= k < SentBy(rounds, r + 1) && k < |sent| && sent[k] == e;
      assert first[k] == e;
    }
  }

  lemma {:induction false} FlattenGrows(rounds: seq<seq<XY>>, r: nat, n: nat)
    requires r <= n <= |rounds|
    ensures SentBy(rounds, r) <= SentBy(rounds, n)
  {
    if r < n {
      FlattenGrows(rounds, r, n - 1);
      assert rounds[..n][..n - 1] == rounds[..n - 1];
    }
  }

  /** What takes effect in the last round: requests of all rounds, those of the last among them. */
  lemma {:induction false} LastRound(m: Machine, job: Job, rounds: seq<seq<XY>>, sent: seq<Request>,
                                     effects: seq<seq<Request>>)
    requires MachineOk(m) && Rounds(m, rounds) && rounds != []
    requires SentTo(m, job, sent, Flatten(rounds)) && EffectsOk(rounds, sent, effects)
    ensures var n := |rounds| - 1;
      && n < |effects|
      && (forall r :: r in effects[n] ==>
            FromParent(m, r) && ((r.chip in After(m, rounds[..n]) && r.chip != m.boot) || r.chip in rounds[n]))
      && forall c :: c in rounds[n] ==> Reached(effects[n], c)
  {
    hide Round, Rounds;
    var n := |rounds| - 1;
    RoundsFacts(m, rounds);
    EarlierRounds(m, job, rounds, sent, effects);
    assert rounds[..n + 1] == rounds;
    forall r | r in effects[n]
      ensures FromParent(m, r) && ((r.chip in After(m, rounds[..n]) && r.chip != m.boot) || r.chip in rounds[n])
    {
      var k :| 0 <= k < SentBy(rounds, n + 1) && k < |sent| && sent[k] == r;
      assert Asks(m, job, sent[k], Flatten(rounds)[k]);
      assert r.chip in Flatten(rounds);
    }
    forall c | c in rounds[n] ensures Reached(effects[n], c) {
      var i :| 0 <= i < |rounds[n]| && rounds[n][i] == c;
      var k := SentBy(rounds, n) + i;
      assert Asks(m, job, sent[k], Flatten(rounds)[k]);
      assert sent[k] in effects[n];
    }
  }

  /** The requests sent for the rounds leave, at the end of every round, the boot chip's binary on every done chip. */
  lemma {:induction false} BroadcastIsSafe<Image>(m: Machine, job: Job, rounds: seq<seq<XY>>, sent: seq<Request>,
                                                  effects: seq<seq<Request>>, images: map<XY, Image>)
    requires MachineOk(m) && Rounds(m, rounds) && SentTo(m, job, sent, Flatten(rounds))
    requires EffectsOk(rounds, sent, effects) && m.boot in images
    ensures AllHold(AllEffects(m, images, effects), After(m, rounds), images[m.boot])
  {
    hide Round, SentTo, Effects;
    if rounds != [] {
      var n := |rounds| - 1;
      var before, image := rounds[..n], images[m.boot];
      EarlierRounds(m, job, rounds, sent, effects);
      BroadcastIsSafe(m, job, before, sent[..SentBy(rounds, n)], effects[..n], images);
      RoundsAreClosed(m, before);
      LastRound(m, job, rounds, sent, effects);
      EffectsOfARound(m, After(m, before), rounds[n], effects[n], AllEffects(m, images, effects[..n]), image);
      assert After(m, rounds) == After(m, before) + Elements(rounds[n]);
      assert forall c :: c in rounds[n] ==> Reached(effects[n], c);
    }
  }
}
