/** What every step of reading the IOBUF keeps, and the work it takes off. */
module ReadIobufInvariants {
  import opened Common
  import opened ReadIobuf

  // ---------------------------------------------------------------- weights of requests

  function TailItems(ts: seq<Tail>): (r: seq<Request>)
    ensures |r| == |ts| && forall i :: 0 <= i < |ts| ==> r[i] == TailRead(ts[i])
  {
    seq(|ts|, i requires 0 <= i < |ts| => TailRead(ts[i]))
  }

  function NextItems(rs: seq<Region>): (r: seq<Request>)
    ensures |r| == |rs| && forall i :: 0 <= i < |rs| ==> r[i] == FirstRead(rs[i])
  {
    seq(|rs|, i requires 0 <= i < |rs| => FirstRead(rs[i]))
  }

  /** Every request that is still to be issued or answered. */
  function Items(s: State): seq<Request> {
    TailItems(s.extra) + NextItems(s.next) + s.outstanding
  }

  function Total(items: seq<Request>, weight: Request -> nat): nat {
    if items == [] then 0 else weight(items[0]) + Total(items[1..], weight)
  }

  lemma {:induction false} TotalAppend(a: seq<Request>, b: seq<Request>, weight: Request -> nat)
    ensures Total(a + b, weight) == Total(a, weight) + Total(b, weight)
  {
    if a == [] {
      assert a + b == b;
    } else {
      assert (a + b)[1..] == a[1..] + b;
      TotalAppend(a[1..], b, weight);
    }
  }

  lemma TotalOne(r: Request, weight: Request -> nat)
    ensures Total([r], weight) == weight(r)
  {
    assert [r][1..] == [];
  }

  lemma {:induction false} TotalZero(items: seq<Request>, weight: Request -> nat)
    ensures Total(items, weight) == 0 <==> forall r :: r in items ==> weight(r) == 0
  {
    if items != [] {
      TotalZero(items[1..], weight);
      assert forall r :: r in items <==> r == items[0] || r in items[1..];
    }
  }

  /** The weight of all items is that of the two lists and of the outstanding requests. */
  lemma TotalItems(s: State, weight: Request -> nat)
    ensures Total(Items(s), weight)
            == Total(TailItems(s.extra), weight) + Total(NextItems(s.next), weight) + Total(s.outstanding, weight)
  {
    TotalAppend(TailItems(s.extra) + NextItems(s.next), s.outstanding, weight);
    TotalAppend(TailItems(s.extra), NextItems(s.next), weight);
  }

  lemma {:induction false} TotalWithout(items: seq<Request>, i: nat, weight: Request -> nat)
    requires i < |items|
    ensures Total(items[..i] + items[i + 1..], weight) == Total(items, weight) - weight(items[i])
  {
    TotalAppend(items[..i], items[i + 1..], weight);
    TotalOne(items[i], weight);
    TotalAppend(items[..i], [items[i]] + items[i + 1..], weight);
    TotalAppend([items[i]], items[i + 1..], weight);
    assert items == items[..i] + ([items[i]] + items[i + 1..]);
  }

  /** `r` continues the reading of core `c`. */
  function Token(c: Core): Request -> nat {
    (r: Request) => match r
      case AddressRead(c', _) => if c' == c then 1 else 0
      case FirstRead(g) => if g.core == c then 1 else 0
      case TailRead(_) => 0
  }

  /** `r` will fill byte `j` of block `n` of core `c`. */
  function Covers(c: Core, n: nat, j: nat): Request -> nat {
    (r: Request) => match r
      case TailRead(t) => if t.core == c && t.n == n && t.offset <= j < t.offset + t.size then 1 else 0
      case _ => 0
  }

  function Tokens(s: State, c: Core): nat { Total(Items(s), Token(c)) }
  function Cover(s: State, c: Core, n: nat, j: nat): nat { Total(Items(s), Covers(c, n, j)) }

  // ---------------------------------------------------------------- the invariant

  ghost predicate ItemOk(s: State, chains: Chains, iobufSize: nat, r: Request) {
    match r
    case AddressRead(c, size) => c in chains && size == iobufSize && BuffersOf(s, c) == []
    case FirstRead(g) =>
      && g.core in chains && g.n == |BuffersOf(s, g.core)| < |chains[g.core]|
      && g.address == chains[g.core][g.n].address
      && g.firstReadSize == Min(iobufSize + 16, UDP_MESSAGE_MAX_SIZE)
    case TailRead(t) =>
      && t.core in chains && t.n < |BuffersOf(s, t.core)| <= |chains[t.core]|
      && 1 <= t.size <= UDP_MESSAGE_MAX_SIZE
      && t.address == chains[t.core][t.n].address + 16 + t.offset
      && t.offset + t.size <= |chains[t.core][t.n].payload|
  }

  /** A byte of a discovered block is stored, or exactly one read that will fill it is on its way. */
  ghost predicate ByteOk(s: State, chains: Chains, c: Core, n: nat, j: nat)
    requires c in chains && n < |chains[c]| && n < |BuffersOf(s, c)|
    requires j < |chains[c][n].payload| == |BuffersOf(s, c)[n].1|
  {
    Cover(s, c, n, j) == 1 || (Cover(s, c, n, j) == 0 && BuffersOf(s, c)[n].1[j] == chains[c][n].payload[j])
  }

  /** The buffers of a core are its first blocks, in order. */
  ghost predicate BuffersOk(s: State, chains: Chains, c: Core)
    requires c in chains
  {
    && |BuffersOf(s, c)| <= |chains[c]|
    && forall n :: 0 <= n < |BuffersOf(s, c)| ==>
         BuffersOf(s, c)[n].0 == n && |BuffersOf(s, c)[n].1| == |chains[c][n].payload|
  }

  ghost predicate BytesOk(s: State, chains: Chains, c: Core)
    requires c in chains && BuffersOk(s, chains, c)
  {
    forall n, j {:trigger ByteOk(s, chains, c, n, j)} ::
      0 <= n < |BuffersOf(s, c)| && 0 <= j < |chains[c][n].payload| ==> ByteOk(s, chains, c, n, j)
  }

  /** Either one request continues the reading of an asked core, or all its blocks have been found. */
  ghost predicate TokenOk(s: State, chains: Chains, asked: set<Core>, c: Core)
    requires c in chains
  {
    if c in asked then Tokens(s, c) == 1 || (Tokens(s, c) == 0 && |BuffersOf(s, c)| == |chains[c]|)
    else Tokens(s, c) == 0 && BuffersOf(s, c) == []
  }

  ghost predicate CoreOk(s: State, chains: Chains, asked: set<Core>, c: Core)
    requires c in chains
  {
    BuffersOk(s, chains, c) && BytesOk(s, chains, c) && TokenOk(s, chains, asked, c)
  }

  ghost predicate Inv(s: State, chains: Chains, iobufSize: nat, asked: set<Core>) {
    && (forall r :: r in Items(s) ==> ItemOk(s, chains, iobufSize, r))
    && (forall c {:trigger CoreOk(s, chains, asked, c)} :: c in chains ==> CoreOk(s, chains, asked, c))
  }

  // ---------------------------------------------------------------- steps keep it

  /** The items are the same up to order, and so are the buffers. */
  lemma SameWork(s: State, s': State, chains: Chains, iobufSize: nat, asked: set<Core>)
    requires Inv(s, chains, iobufSize, asked) && s'.iobuf == s.iobuf
    requires forall r :: r in Items(s') ==> r in Items(s)
    requires forall weight: Request -> nat :: Total(Items(s'), weight) == Total(Items(s), weight)
    ensures Inv(s', chains, iobufSize, asked)
  {
    forall c | c in chains ensures CoreOk(s', chains, asked, c) {
      assert CoreOk(s, chains, asked, c);
      forall n, j | 0 <= n < |BuffersOf(s', c)| && 0 <= j < |chains[c][n].payload| ensures ByteOk(s', chains, c, n, j) {
        assert ByteOk(s, chains, c, n, j);
      }
    }
  }

  lemma IssueTailTotals(s: State, weight: Request -> nat)
    requires s.extra != []
    ensures Total(Items(IssueTail(s)), weight) == Total(Items(s), weight)
  {
    var s' := IssueTail(s);
    var r := TailRead(s.extra[|s.extra| - 1]);
    TotalItems(s, weight);
    TotalItems(s', weight);
    assert TailItems(s.extra) == TailItems(s'.extra) + [r];
    TotalAppend(TailItems(s'.extra), [r], weight);
    TotalAppend(s.outstanding, [r], weight);
  }

  lemma IssueNextTotals(s: State, weight: Request -> nat)
    requires s.next != []
    ensures Total(Items(IssueNext(s)), weight) == Total(Items(s), weight)
  {
    var s' := IssueNext(s);
    var r := FirstRead(s.next[|s.next| - 1]);
    TotalItems(s, weight);
    TotalItems(s', weight);
    assert NextItems(s.next) == NextItems(s'.next) + [r];
    TotalAppend(NextItems(s'.next), [r], weight);
    TotalAppend(s.outstanding, [r], weight);
  }

  lemma IssueKeepsInv(s: State, chains: Chains, iobufSize: nat, asked: set<Core>)
    requires Inv(s, chains, iobufSize, asked)
    ensures s.extra != [] ==> Inv(IssueTail(s), chains, iobufSize, asked)
    ensures s.next != [] ==> Inv(IssueNext(s), chains, iobufSize, asked)
  {
    hide Inv, Total;
    if s.extra != [] {
      forall weight: Request -> nat ensures Total(Items(IssueTail(s)), weight) == Total(Items(s), weight) {
        IssueTailTotals(s, weight);
      }
      SameWork(s, IssueTail(s), chains, iobufSize, asked);
    }
    if s.next != [] {
      forall weight: Request -> nat ensures Total(Items(IssueNext(s)), weight) == Total(Items(s), weight) {
        IssueNextTotals(s, weight);
      }
      SameWork(s, IssueNext(s), chains, iobufSize, asked);
    }
  }

  lemma {:induction false} PutAppends(d: Buffers, n: nat, data: Bytes)
    requires forall k :: 0 <= k < |d| ==> d[k].0 != n
    ensures Put(d, n, data) == d + [(n, data)]
  {
    if d != [] {
      PutAppends(d[1..], n, data);
    }
  }

  lemma {:induction false} PatchAt(d: Buffers, k: nat, n: nat, offset: nat, data: Bytes)
    requires k < |d| && d[k].0 == n && (forall i :: 0 <= i < k ==> d[i].0 != n)
    requires offset + |data| <= |d[k].1|
    ensures Patch(d, n, offset, data) == d[k := (n, d[k].1[..offset] + data + d[k].1[offset + |data|..])]
  {
    if k > 0 {
      PatchAt(d[1..], k - 1, n, offset, data);
    }
  }

  /** State `s` without outstanding request `i`. */
  function Answered(s: State, i: nat): State
    requires i < |s.outstanding|
  {
    s.(outstanding := s.outstanding[..i] + s.outstanding[i + 1..])
  }

  lemma AnsweredItems(s: State, i: nat, weight: Request -> nat)
    requires i < |s.outstanding|
    ensures Total(Items(Answered(s, i)), weight) == Total(Items(s), weight) - weight(s.outstanding[i])
    ensures forall r :: r in Items(Answered(s, i)) ==> r in Items(s)
    ensures s.outstanding[i] in Items(s)
  {
    TotalItems(s, weight);
    TotalItems(Answered(s, i), weight);
    TotalWithout(s.outstanding, i, weight);
    assert Items(s)[|s.extra| + |s.next| + i] == s.outstanding[i];
  }

  lemma AddedItems(s: State, tails: seq<Tail>, regions: seq<Region>, iobuf: map<Core, Buffers>, weight: Request -> nat)
    ensures var s' := s.(extra := s.extra + tails, next := s.next + regions, iobuf := iobuf);
      && Total(Items(s'), weight)
         == Total(Items(s), weight) + Total(TailItems(tails), weight) + Total(NextItems(regions), weight)
      && forall r :: r in Items(s') ==> r in Items(s) || r in TailItems(tails) || r in NextItems(regions)
  {
    var s' := s.(extra := s.extra + tails, next := s.next + regions, iobuf := iobuf);
    TotalItems(s, weight);
    TotalItems(s', weight);
    assert TailItems(s.extra + tails) == TailItems(s.extra) + TailItems(tails);
    assert NextItems(s.next + regions) == NextItems(s.next) + NextItems(regions);
    TotalAppend(TailItems(s.extra), TailItems(tails), weight);
    TotalAppend(NextItems(s.next), NextItems(regions), weight);
  }

  lemma NextItemTotal(regions: seq<Region>, weight: Request -> nat)
    requires |regions| <= 1
    ensures Total(NextItems(regions), weight) == if regions == [] then 0 else weight(FirstRead(regions[0]))
  {
    if regions != [] {
      assert NextItems(regions) == [FirstRead(regions[0])];
      TotalOne(FirstRead(regions[0]), weight);
    } else {
      assert NextItems(regions) == [];
    }
  }

  /** A core whose last token is being answered has no other. */
  lemma NoOtherToken(s: State, i: nat, c: Core)
    requires i < |s.outstanding| && Token(c)(s.outstanding[i]) == 1 && Tokens(s, c) <= 1
    ensures Tokens(s, c) == 1 && Tokens(Answered(s, i), c) == 0
    ensures forall r :: r in Items(Answered(s, i)) ==> Token(c)(r) == 0
  {
    AnsweredItems(s, i, Token(c));
    TotalZero(Items(Answered(s, i)), Token(c));
  }

  // A tail arrives.

  lemma TailKeepsBytes(s: State, s': State, chains: Chains, t: Tail, mem: Memory, i: nat, n: nat, j: nat)
    requires ChainsOk(mem, chains) && t.core in chains && BuffersOk(s, chains, t.core)
    requires i < |s.outstanding| && s.outstanding[i] == TailRead(t) && ItemOk(s, chains, 0, TailRead(t))
    requires s' == HandleTail(Answered(s, i), t, Read(mem, t.core, t.address, t.size))
    requires n < |BuffersOf(s, t.core)| && j < |chains[t.core][n].payload| && ByteOk(s, chains, t.core, n, j)
    ensures BuffersOk(s', chains, t.core) && |BuffersOf(s', t.core)| == |BuffersOf(s, t.core)|
    ensures ByteOk(s', chains, t.core, n, j)
  {
    hide Chain;
    var c := t.core;
    var d := BuffersOf(s, c);
    var data := Read(mem, c, t.address, t.size);
    PatchAt(d, t.n, t.n, t.offset, data);
    var d' := BuffersOf(s', c);
    assert d' == d[t.n := (t.n, d[t.n].1[..t.offset] + data + d[t.n].1[t.offset + t.size..])];
    assert Items(s') == Items(Answered(s, i));
    AnsweredItems(s, i, Covers(c, n, j));
    ChainAt(mem, c, Word(Read(mem, c, PointerAddress(c), 4), 0), chains[c], t.n);
    if n == t.n && t.offset <= j < t.offset + t.size {
      assert Covers(c, n, j)(TailRead(t)) == 1;
      assert d'[n].1[j] == data[j - t.offset] == mem(c.x, c.y, t.address + (j - t.offset));
      assert chains[c][n].payload[j] == mem(c.x, c.y, chains[c][n].address + 16 + j);
    } else {
      assert Covers(c, n, j)(TailRead(t)) == 0;
      if n == t.n {
        assert d'[n].1[j] == d[n].1[j];
      }
    }
  }

  /** Nothing has changed for core `c`: not its buffers, its tokens or the bytes on their way. */
  lemma OtherCore(s: State, s': State, chains: Chains, asked: set<Core>, asked': set<Core>, c: Core)
    requires c in chains && CoreOk(s, chains, asked, c) && (c in asked <==> c in asked')
    requires BuffersOf(s', c) == BuffersOf(s, c) && Tokens(s', c) == Tokens(s, c)
    requires forall n, j {:trigger Cover(s', c, n, j)} :: 0 <= n && 0 <= j ==> Cover(s', c, n, j) == Cover(s, c, n, j)
    ensures CoreOk(s', chains, asked', c)
  {
    hide Cover, Tokens;
    forall n, j | 0 <= n < |BuffersOf(s', c)| && 0 <= j < |chains[c][n].payload| ensures ByteOk(s', chains, c, n, j) {
      assert ByteOk(s, chains, c, n, j);
      assert Cover(s', c, n, j) == Cover(s, c, n, j);
    }
  }

  lemma TailKeepsInv(s: State, mem: Memory, chains: Chains, iobufSize: nat, asked: set<Core>, i: nat)
    requires Inv(s, chains, iobufSize, asked) && ChainsOk(mem, chains)
    requires i < |s.outstanding| && s.outstanding[i].TailRead?
    ensures Inv(Deliver(s, mem, i), chains, iobufSize, asked)
  {
    hide ChainsOk, Total, ByteOk;
    var t := s.outstanding[i].tail;
    var s' := Deliver(s, mem, i);
    AnsweredItems(s, i, Token(t.core));
    assert ItemOk(s, chains, iobufSize, TailRead(t));
    assert Items(s') == Items(Answered(s, i));
    assert CoreOk(s, chains, asked, t.core);
    TailBuffers(s, s', chains, t, mem, i);
    forall c | c in chains ensures CoreOk(s', chains, asked, c) {
      assert CoreOk(s, chains, asked, c);
      AnsweredItems(s, i, Token(c));
      if c == t.core {
        forall n, j | 0 <= n < |BuffersOf(s', c)| && 0 <= j < |chains[c][n].payload|
          ensures ByteOk(s', chains, c, n, j)
        {
          assert ByteOk(s, chains, c, n, j);
          TailKeepsBytes(s, s', chains, t, mem, i, n, j);
        }
      } else {
        forall n: nat, j: nat ensures Cover(s', c, n, j) == Cover(s, c, n, j) {
          AnsweredItems(s, i, Covers(c, n, j));
        }
        OtherCore(s, s', chains, asked, asked, c);
      }
    }
  }

  lemma TailBuffers(s: State, s': State, chains: Chains, t: Tail, mem: Memory, i: nat)
    requires t.core in chains && BuffersOk(s, chains, t.core) && i < |s.outstanding|
    requires ItemOk(s, chains, 0, TailRead(t))
    requires s' == HandleTail(Answered(s, i), t, Read(mem, t.core, t.address, t.size))
    ensures BuffersOk(s', chains, t.core)
    ensures forall c :: |BuffersOf(s', c)| == |BuffersOf(s, c)| && (c != t.core ==> BuffersOf(s', c) == BuffersOf(s, c))
  {
    PatchAt(BuffersOf(s, t.core), t.n, t.n, t.offset, Read(mem, t.core, t.address, t.size));
  }

  // The address of a core's first block arrives.

  lemma AddressKeepsInv(s: State, mem: Memory, chains: Chains, iobufSize: nat, asked: set<Core>, i: nat)
    requires Inv(s, chains, iobufSize, asked) && ChainsOk(mem, chains)
    requires i < |s.outstanding| && s.outstanding[i].AddressRead?
    ensures Inv(Deliver(s, mem, i), chains, iobufSize, asked)
  {
    hide Total, ByteOk, Word;
    var c0, s0, s' := s.outstanding[i].core, Answered(s, i), Deliver(s, mem, i);
    AnsweredItems(s, i, Token(c0));
    assert ItemOk(s, chains, iobufSize, s.outstanding[i]);
    var address := Word(Read(mem, c0, PointerAddress(c0), 4), 0);
    assert Chain(mem, c0, address, chains[c0]);
    var regions := if address == 0 then [] else [Region(c0, 0, address, Min(iobufSize + 16, UDP_MESSAGE_MAX_SIZE))];
    assert s' == s0.(extra := s0.extra + [], next := s0.next + regions, iobuf := s0.iobuf);
    assert CoreOk(s, chains, asked, c0);
    NoOtherToken(s, i, c0);
    AddedItems(s0, [], regions, s0.iobuf, Token(c0));
    AddressKeepsItems(s, mem, chains, iobufSize, asked, i);
    forall c | c in chains ensures CoreOk(s', chains, asked, c) {
      assert CoreOk(s, chains, asked, c);
      AddressTotals(s, s', i, regions, Token(c));
      forall n: nat, j: nat ensures Cover(s', c, n, j) == Cover(s, c, n, j) {
        AddressTotals(s, s', i, regions, Covers(c, n, j));
      }
      if c != c0 {
        OtherCore(s, s', chains, asked, asked, c);
      }
    }
  }

  lemma AddressKeepsItems(s: State, mem: Memory, chains: Chains, iobufSize: nat, asked: set<Core>, i: nat)
    requires Inv(s, chains, iobufSize, asked) && ChainsOk(mem, chains)
    requires i < |s.outstanding| && s.outstanding[i].AddressRead?
    ensures forall r :: r in Items(Deliver(s, mem, i)) ==> ItemOk(Deliver(s, mem, i), chains, iobufSize, r)
  {
    hide Total, ByteOk, Word;
    var c0, s0, s' := s.outstanding[i].core, Answered(s, i), Deliver(s, mem, i);
    AnsweredItems(s, i, Token(c0));
    assert ItemOk(s, chains, iobufSize, s.outstanding[i]);
    var address := Word(Read(mem, c0, PointerAddress(c0), 4), 0);
    assert Chain(mem, c0, address, chains[c0]);
    var regions := if address == 0 then [] else [Region(c0, 0, address, Min(iobufSize + 16, UDP_MESSAGE_MAX_SIZE))];
    assert s' == s0.(extra := s0.extra + [], next := s0.next + regions, iobuf := s0.iobuf);
    assert CoreOk(s, chains, asked, c0);
    NoOtherToken(s, i, c0);
    AddedItems(s0, [], regions, s0.iobuf, Token(c0));
    forall r | r in Items(s') ensures ItemOk(s', chains, iobufSize, r) {
      if r in Items(s0) {
        assert ItemOk(s, chains, iobufSize, r);
      }
    }
  }

  lemma AddressTotals(s: State, s': State, i: nat, regions: seq<Region>, weight: Request -> nat)
    requires i < |s.outstanding| && |regions| <= 1
    requires var s0 := Answered(s, i); s' == s0.(extra := s0.extra + [], next := s0.next + regions, iobuf := s0.iobuf)
    ensures Total(Items(s'), weight) == Total(Items(s), weight) - weight(s.outstanding[i])
                                        + (if regions == [] then 0 else weight(FirstRead(regions[0])))
  {
    hide Items;
    AnsweredItems(s, i, weight);
    AddedItems(Answered(s, i), [], regions, s.iobuf, weight);
    NextItemTotal(regions, weight);
    assert TailItems([]) == [] && Total([], weight) == 0;
  }

  // The first part of a block arrives.

  lemma {:induction false} TailsFacts(g: Region, address: nat, remaining: nat, offset: nat)
    ensures forall t :: t in Tails(g, address, remaining, offset) ==>
      && t.core == g.core && t.n == g.n && 1 <= t.size <= UDP_MESSAGE_MAX_SIZE
      && t.offset + t.size <= offset + remaining && t.address + offset == address + t.offset
    decreases remaining
  {
    if remaining > 0 {
      var k := Min(remaining, UDP_MESSAGE_MAX_SIZE);
      TailsFacts(g, address + k, remaining - k, offset + k);
    }
  }

  /** The tails cover each byte that is still to be read exactly once, and nothing else. */
  lemma {:induction false} TailsCover(g: Region, address: nat, remaining: nat, offset: nat, c: Core, n: nat, j: nat)
    ensures Total(TailItems(Tails(g, address, remaining, offset)), Covers(c, n, j))
            == if c == g.core && n == g.n && offset <= j < offset + remaining then 1 else 0
    ensures Total(TailItems(Tails(g, address, remaining, offset)), Token(c)) == 0
    decreases remaining
  {
    var ts := Tails(g, address, remaining, offset);
    if remaining == 0 {
      assert TailItems(ts) == [];
    } else {
      var k := Min(remaining, UDP_MESSAGE_MAX_SIZE);
      TailsCover(g, address + k, remaining - k, offset + k, c, n, j);
      assert TailItems(ts)[1..] == TailItems(Tails(g, address + k, remaining - k, offset + k));
    }
  }

  /** What the first response for block `g.n` puts where. */
  ghost predicate FirstFacts(s: State, s': State, mem: Memory, chains: Chains, g: Region, i: nat,
                             tails: seq<Tail>, regions: seq<Region>, packet: nat)
    requires g.core in chains && g.n < |chains[g.core]| && i < |s.outstanding| && 16 <= g.firstReadSize
  {
    var blocks, s0 := chains[g.core], Answered(s, i);
    var payload := blocks[g.n].payload;
    && packet == Min(g.firstReadSize - 16, |payload|)
    && tails == Tails(g, g.address + packet + 16, |payload| - packet, packet)
    && regions == (if g.n + 1 < |blocks| then [g.NextAt(blocks[g.n + 1].address)] else [])
    && (exists buffer ::
          && |buffer| == |payload| && buffer[..packet] == payload[..packet]
          && s' == s0.(extra := s0.extra + tails, next := s0.next + regions,
                       iobuf := s0.iobuf[g.core := BuffersOf(s, g.core) + [(g.n, buffer)]]))
  }

  /** The first response holds the block's header and the start of its payload. */
  lemma FirstBuffer(mem: Memory, c: Core, address: nat, size: nat, payload: Bytes, packet: nat)
    requires size >= 16 && packet == Min(size - 16, |payload|)
    requires payload == Read(mem, c, address + 16, |payload|)
    ensures var data, header := Read(mem, c, address, size), Read(mem, c, address, 16);
      var buffer := data[16..16 + packet] + Zeros(|payload| - packet);
      && Word(data, 0) == Word(header, 0) && Word(data, 12) == Word(header, 12)
      && |buffer| == |payload| && buffer[..packet] == payload[..packet]
  {
    hide Word;
    var data, header := Read(mem, c, address, size), Read(mem, c, address, 16);
    SameWord(data, header, 0);
    SameWord(data, header, 12);
    forall k | 0 <= k < packet ensures data[16 + k] == payload[k] {
      assert payload[k] == mem(c.x, c.y, address + 16 + k);
      assert data[16 + k] == mem(c.x, c.y, address + (16 + k));
    }
    var buffer := data[16..16 + packet] + Zeros(|payload| - packet);
    assert buffer[..packet] == data[16..16 + packet];
  }

  lemma FirstResponse(s: State, mem: Memory, chains: Chains, iobufSize: nat, i: nat)
    returns (tails: seq<Tail>, regions: seq<Region>, packet: nat)
    requires ChainsOk(mem, chains)
    requires i < |s.outstanding| && s.outstanding[i].FirstRead? && ItemOk(s, chains, iobufSize, s.outstanding[i])
    requires BuffersOk(s, chains, s.outstanding[i].region.core)
    ensures FirstFacts(s, Deliver(s, mem, i), mem, chains, s.outstanding[i].region, i, tails, regions, packet)
  {
    hide Chain, Tails, Items, Word, Zeros, Put;
    var g := s.outstanding[i].region;
    var c, blocks := g.core, chains[g.core];
    var data := Read(mem, c, g.address, g.firstReadSize);
    ChainAt(mem, c, Word(Read(mem, c, PointerAddress(c), 4), 0), blocks, g.n);
    var payload := blocks[g.n].payload;
    packet := Min(|data| - 16, |payload|);
    FirstBuffer(mem, c, g.address, g.firstReadSize, payload, packet);
    tails := Tails(g, g.address + packet + 16, |payload| - packet, packet);
    regions := if g.n + 1 < |blocks| then [g.NextAt(blocks[g.n + 1].address)] else [];
    var buffer := data[16..16 + packet] + Zeros(|payload| - packet);
    PutAppends(BuffersOf(s, c), g.n, buffer);
  }

  lemma SameWord(a: Bytes, b: Bytes, offset: nat)
    requires offset + 4 <= |a| && offset + 4 <= |b| && a[offset..offset + 4] == b[offset..offset + 4]
    ensures Word(a, offset) == Word(b, offset)
  {
    var x, y := a[offset..offset + 4], b[offset..offset + 4];
    assert x[0] == y[0] && x[1] == y[1] && x[2] == y[2] && x[3] == y[3];
  }

  lemma FirstTotals(s: State, s': State, mem: Memory, chains: Chains, g: Region, i: nat,
                    tails: seq<Tail>, regions: seq<Region>, packet: nat, weight: Request -> nat)
    requires g.core in chains && g.n < |chains[g.core]| && i < |s.outstanding| && s.outstanding[i] == FirstRead(g)
    requires 16 <= g.firstReadSize
    requires FirstFacts(s, s', mem, chains, g, i, tails, regions, packet)
    ensures Total(Items(s'), weight)
            == Total(Items(s), weight) - weight(FirstRead(g)) + Total(TailItems(tails), weight)
               + (if regions == [] then 0 else weight(FirstRead(regions[0])))
    ensures forall r :: r in Items(s') ==>
      r in Items(Answered(s, i)) || r in TailItems(tails) || r in NextItems(regions)
    ensures forall r :: r in Items(Answered(s, i)) ==> r in Items(s)
  {
    hide Items, Tails;
    AnsweredItems(s, i, weight);
    AddedItems(Answered(s, i), tails, regions, s'.iobuf, weight);
    NextItemTotal(regions, weight);
  }

  lemma NewBlockIsUncovered(s: State, chains: Chains, iobufSize: nat, c: Core, n: nat, j: nat)
    requires forall r :: r in Items(s) ==> ItemOk(s, chains, iobufSize, r)
    requires n >= |BuffersOf(s, c)|
    ensures Cover(s, c, n, j) == 0
  {
    TotalZero(Items(s), Covers(c, n, j));
    forall r | r in Items(s) ensures Covers(c, n, j)(r) == 0 {
      assert ItemOk(s, chains, iobufSize, r);
    }
  }

  lemma FirstKeepsItems(s: State, s': State, mem: Memory, chains: Chains, iobufSize: nat, asked: set<Core>,
                        g: Region, i: nat, tails: seq<Tail>, regions: seq<Region>, packet: nat)
    requires Inv(s, chains, iobufSize, asked) && g.core in chains
    requires i < |s.outstanding| && s.outstanding[i] == FirstRead(g) && ItemOk(s, chains, iobufSize, FirstRead(g))
    requires FirstFacts(s, s', mem, chains, g, i, tails, regions, packet)
    ensures forall r :: r in Items(s') ==> ItemOk(s', chains, iobufSize, r)
  {
    hide Items, ByteOk, Tails, BytesOk, Total;
    var c := g.core;
    assert CoreOk(s, chains, asked, c);
    NoOtherToken(s, i, c);
    FirstTotals(s, s', mem, chains, g, i, tails, regions, packet, Token(c));
    TailsFacts(g, g.address + packet + 16, |chains[c][g.n].payload| - packet, packet);
    forall r | r in Items(s') ensures ItemOk(s', chains, iobufSize, r) {
      if r in Items(Answered(s, i)) {
        assert ItemOk(s, chains, iobufSize, r);
        assert Token(c)(r) == 0;
      }
    }
  }

  lemma FirstKeepsBytes(s: State, s': State, mem: Memory, chains: Chains, iobufSize: nat, asked: set<Core>,
                        g: Region, i: nat, tails: seq<Tail>, regions: seq<Region>, packet: nat, n: nat, j: nat)
    requires Inv(s, chains, iobufSize, asked) && g.core in chains
    requires i < |s.outstanding| && s.outstanding[i] == FirstRead(g) && ItemOk(s, chains, iobufSize, FirstRead(g))
    requires FirstFacts(s, s', mem, chains, g, i, tails, regions, packet)
    requires BuffersOk(s', chains, g.core) && n < |BuffersOf(s', g.core)| && j < |chains[g.core][n].payload|
    ensures ByteOk(s', chains, g.core, n, j)
  {
    hide Items, Tails, Total;
    var c := g.core;
    assert CoreOk(s, chains, asked, c);
    FirstTotals(s, s', mem, chains, g, i, tails, regions, packet, Covers(c, n, j));
    TailsCover(g, g.address + packet + 16, |chains[c][g.n].payload| - packet, packet, c, n, j);
    if n < g.n {
      assert ByteOk(s, chains, c, n, j);
      assert BuffersOf(s', c)[n] == BuffersOf(s, c)[n];
    } else {
      NewBlockIsUncovered(s, chains, iobufSize, c, n, j);
      if j < packet {
        assert BuffersOf(s', c)[n].1[..packet][j] == chains[c][n].payload[..packet][j];
      }
    }
  }

  lemma FirstKeepsCore(s: State, s': State, mem: Memory, chains: Chains, iobufSize: nat, asked: set<Core>,
                       g: Region, i: nat, tails: seq<Tail>, regions: seq<Region>, packet: nat, c: Core)
    requires Inv(s, chains, iobufSize, asked) && g.core in chains && c in chains
    requires i < |s.outstanding| && s.outstanding[i] == FirstRead(g) && ItemOk(s, chains, iobufSize, FirstRead(g))
    requires FirstFacts(s, s', mem, chains, g, i, tails, regions, packet)
    requires BuffersOk(s, chains, g.core)
    ensures CoreOk(s', chains, asked, c)
  {
    hide Total, ByteOk, Tails, Items;
    assert CoreOk(s, chains, asked, c);
    FirstTotals(s, s', mem, chains, g, i, tails, regions, packet, Token(c));
    TailsCover(g, g.address + packet + 16, |chains[g.core][g.n].payload| - packet, packet, c, 0, 0);
    if c == g.core {
      NoOtherToken(s, i, c);
      assert BuffersOk(s', chains, c);
      forall n, j | 0 <= n < |BuffersOf(s', c)| && 0 <= j < |chains[c][n].payload| ensures ByteOk(s', chains, c, n, j) {
        FirstKeepsBytes(s, s', mem, chains, iobufSize, asked, g, i, tails, regions, packet, n, j);
      }
    } else {
      forall n: nat, j: nat ensures Cover(s', c, n, j) == Cover(s, c, n, j) {
        FirstTotals(s, s', mem, chains, g, i, tails, regions, packet, Covers(c, n, j));
        TailsCover(g, g.address + packet + 16, |chains[g.core][g.n].payload| - packet, packet, c, n, j);
      }
      OtherCore(s, s', chains, asked, asked, c);
    }
  }

  lemma FirstKeepsInv(s: State, mem: Memory, chains: Chains, iobufSize: nat, asked: set<Core>, i: nat)
    requires Inv(s, chains, iobufSize, asked) && ChainsOk(mem, chains)
    requires i < |s.outstanding| && s.outstanding[i].FirstRead?
    ensures RequestOk(s.outstanding[i])
    ensures Inv(Deliver(s, mem, i), chains, iobufSize, asked)
  {
    hide Total, ByteOk, Tails, FirstFacts, BytesOk, TokenOk, Items, ChainsOk, HandleFirst;
    var g := s.outstanding[i].region;
    AnsweredItems(s, i, Token(g.core));
    assert ItemOk(s, chains, iobufSize, FirstRead(g));
    assert CoreOk(s, chains, asked, g.core);
    var s' := Deliver(s, mem, i);
    var tails, regions, packet := FirstResponse(s, mem, chains, iobufSize, i);
    FirstKeepsItems(s, s', mem, chains, iobufSize, asked, g, i, tails, regions, packet);
    forall c | c in chains ensures CoreOk(s', chains, asked, c) {
      FirstKeepsCore(s, s', mem, chains, iobufSize, asked, g, i, tails, regions, packet, c);
    }
  }

  lemma DeliverKeepsInv(s: State, mem: Memory, chains: Chains, iobufSize: nat, asked: set<Core>, i: nat)
    requires Inv(s, chains, iobufSize, asked) && ChainsOk(mem, chains) && i < |s.outstanding|
    ensures RequestOk(s.outstanding[i]) && Inv(Deliver(s, mem, i), chains, iobufSize, asked)
  {
    hide Inv, ChainsOk, Deliver;
    match s.outstanding[i]
    case AddressRead(_, _) => AddressKeepsInv(s, mem, chains, iobufSize, asked, i);
    case FirstRead(_) => FirstKeepsInv(s, mem, chains, iobufSize, asked, i);
    case TailRead(_) => TailKeepsInv(s, mem, chains, iobufSize, asked, i);
  }

  /** A core is asked for the address of its first block. */
  lemma AskKeepsInv(s: State, chains: Chains, iobufSize: nat, asked: set<Core>, c: Core)
    requires Inv(s, chains, iobufSize, asked) && c in chains && c !in asked
    ensures Inv(Ask(s, c, iobufSize), chains, iobufSize, asked + {c})
  {
    hide Total, ByteOk;
    var s' := Ask(s, c, iobufSize);
    var r := AddressRead(c, iobufSize);
    assert CoreOk(s, chains, asked, c);
    forall x | x in Items(s') ensures ItemOk(s', chains, iobufSize, x) {
      if x in Items(s) {
        assert ItemOk(s, chains, iobufSize, x);
      }
    }
    forall c' | c' in chains ensures CoreOk(s', chains, asked + {c}, c') {
      assert CoreOk(s, chains, asked, c');
      AskTotals(s, r, Token(c'));
      forall n: nat, j: nat ensures Cover(s', c', n, j) == Cover(s, c', n, j) {
        AskTotals(s, r, Covers(c', n, j));
      }
      if c' != c {
        OtherCore(s, s', chains, asked, asked + {c}, c');
      }
    }
  }

  lemma AskTotals(s: State, r: Request, weight: Request -> nat)
    ensures Total(Items(s.(outstanding := s.outstanding + [r])), weight) == Total(Items(s), weight) + weight(r)
  {
    assert Items(s.(outstanding := s.outstanding + [r])) == Items(s) + [r];
    TotalAppend(Items(s), [r], weight);
    TotalOne(r, weight);
  }

  // ---------------------------------------------------------------- the work that is left

  /** How many requests the rest of a block needs after its first response. */
  function TailCount(remaining: nat): nat {
    if remaining == 0 then 0 else 1 + TailCount(remaining - Min(remaining, UDP_MESSAGE_MAX_SIZE))
  }

  /** Sends and responses needed for these blocks once the first has been sent for. */
  function ChainCost(blocks: seq<Block>, firstReadSize: nat): nat
    requires 16 <= firstReadSize
    decreases |blocks|
  {
    if blocks == [] then 0
    else
      var n := |blocks[0].payload|;
      1 + 2 * TailCount(n - Min(firstReadSize - 16, n))
      + (if |blocks| > 1 then 1 + ChainCost(blocks[1..], firstReadSize) else 0)
  }

  function Cost(chains: Chains, firstReadSize: nat): Request -> nat
    requires 16 <= firstReadSize
  {
    (r: Request) => match r
      case AddressRead(c, _) =>
        1 + (if c in chains && chains[c] != [] then 1 + ChainCost(chains[c], firstReadSize) else 0)
      case FirstRead(g) =>
        if g.core in chains && g.n <= |chains[g.core]| then ChainCost(chains[g.core][g.n..], firstReadSize) else 0
      case TailRead(_) => 1
  }

  /** Every send and every response takes exactly one off this. */
  function Work(s: State, chains: Chains, iobufSize: nat): nat {
    |s.extra| + |s.next| + Total(Items(s), Cost(chains, Min(iobufSize + 16, UDP_MESSAGE_MAX_SIZE)))
  }

  lemma {:induction false} TailsCost(g: Region, address: nat, remaining: nat, offset: nat, chains: Chains, first: nat)
    requires 16 <= first
    ensures |Tails(g, address, remaining, offset)| == TailCount(remaining)
    ensures Total(TailItems(Tails(g, address, remaining, offset)), Cost(chains, first)) == TailCount(remaining)
    decreases remaining
  {
    var ts := Tails(g, address, remaining, offset);
    if remaining == 0 {
      assert TailItems(ts) == [];
    } else {
      var k := Min(remaining, UDP_MESSAGE_MAX_SIZE);
      TailsCost(g, address + k, remaining - k, offset + k, chains, first);
      assert TailItems(ts)[1..] == TailItems(Tails(g, address + k, remaining - k, offset + k));
      assert TailItems(ts)[0] == TailRead(ts[0]);
    }
  }

  lemma IssueSpendsWork(s: State, chains: Chains, iobufSize: nat)
    ensures s.extra != [] ==> Work(IssueTail(s), chains, iobufSize) == Work(s, chains, iobufSize) - 1
    ensures s.next != [] ==> Work(IssueNext(s), chains, iobufSize) == Work(s, chains, iobufSize) - 1
  {
    var weight := Cost(chains, Min(iobufSize + 16, UDP_MESSAGE_MAX_SIZE));
    if s.extra != [] {
      IssueTailTotals(s, weight);
    }
    if s.next != [] {
      IssueNextTotals(s, weight);
    }
  }

  lemma AddressSpendsWork(s: State, mem: Memory, chains: Chains, iobufSize: nat, i: nat)
    requires ChainsOk(mem, chains) && i < |s.outstanding| && s.outstanding[i].AddressRead?
    requires ItemOk(s, chains, iobufSize, s.outstanding[i])
    ensures Work(Deliver(s, mem, i), chains, iobufSize) == Work(s, chains, iobufSize) - 1
  {
    hide Total, Items, Chain, Word, Read;
    var first := Min(iobufSize + 16, UDP_MESSAGE_MAX_SIZE);
    var c, s0, s' := s.outstanding[i].core, Answered(s, i), Deliver(s, mem, i);
    var address := Word(Read(mem, c, PointerAddress(c), 4), 0);
    FirstBlock(mem, c, address, chains[c]);
    var regions := if address == 0 then [] else [Region(c, 0, address, first)];
    assert s' == s0.(extra := s0.extra + [], next := s0.next + regions, iobuf := s0.iobuf);
    AddressTotals(s, s', i, regions, Cost(chains, first));
    assert chains[c][0..] == chains[c];
  }

  lemma FirstSpendsWork(s: State, mem: Memory, chains: Chains, iobufSize: nat, i: nat)
    requires ChainsOk(mem, chains) && i < |s.outstanding| && s.outstanding[i].FirstRead?
    requires ItemOk(s, chains, iobufSize, s.outstanding[i])
    requires BuffersOk(s, chains, s.outstanding[i].region.core)
    ensures Work(Deliver(s, mem, i), chains, iobufSize) == Work(s, chains, iobufSize) - 1
  {
    hide Total, Items, ChainsOk, Tails, HandleFirst, Read, TailCount;
    var g, s' := s.outstanding[i].region, Deliver(s, mem, i);
    var tails, regions, packet := FirstResponse(s, mem, chains, iobufSize, i);
    FirstTotals(s, s', mem, chains, g, i, tails, regions, packet, Cost(chains, g.firstReadSize));
    TailsCost(g, g.address + packet + 16, |chains[g.core][g.n].payload| - packet, packet, chains, g.firstReadSize);
    var rest := chains[g.core][g.n..];
    assert rest[1..] == chains[g.core][g.n + 1..];
  }

  lemma TailSpendsWork(s: State, mem: Memory, chains: Chains, iobufSize: nat, i: nat)
    requires i < |s.outstanding| && s.outstanding[i].TailRead?
    ensures Work(Deliver(s, mem, i), chains, iobufSize) == Work(s, chains, iobufSize) - 1
  {
    hide Total, Items, Read;
    AnsweredItems(s, i, Cost(chains, Min(iobufSize + 16, UDP_MESSAGE_MAX_SIZE)));
    ItemsIgnoreBuffers(Answered(s, i), Deliver(s, mem, i).iobuf);
  }

  lemma DeliverSpendsWork(s: State, mem: Memory, chains: Chains, iobufSize: nat, asked: set<Core>, i: nat)
    requires Inv(s, chains, iobufSize, asked) && ChainsOk(mem, chains) && i < |s.outstanding|
    requires RequestOk(s.outstanding[i])
    ensures Work(Deliver(s, mem, i), chains, iobufSize) == Work(s, chains, iobufSize) - 1
  {
    hide Total, Items, Inv, ChainsOk, Deliver, ItemOk, Work, BuffersOk;
    AnsweredItems(s, i, Token(Core(0, 0, 0)));
    InvFacts(s, chains, iobufSize, asked, s.outstanding[i]);
    match s.outstanding[i]
    case AddressRead(_, _) => AddressSpendsWork(s, mem, chains, iobufSize, i);
    case FirstRead(g) => RegionKnown(s, chains, iobufSize, g); FirstSpendsWork(s, mem, chains, iobufSize, i);
    case TailRead(_) => TailSpendsWork(s, mem, chains, iobufSize, i);
  }

  lemma RegionKnown(s: State, chains: Chains, iobufSize: nat, g: Region)
    requires ItemOk(s, chains, iobufSize, FirstRead(g))
    ensures g.core in chains
  {
  }

  lemma ItemsIgnoreBuffers(s: State, iobuf: map<Core, Buffers>)
    ensures Items(s.(iobuf := iobuf)) == Items(s)
  {
  }

  lemma {:induction false} FirstBlock(mem: Memory, c: Core, address: nat, blocks: seq<Block>)
    requires Chain(mem, c, address, blocks)
    ensures address == 0 <==> blocks == []
  {
  }

  lemma InvFacts(s: State, chains: Chains, iobufSize: nat, asked: set<Core>, r: Request)
    requires Inv(s, chains, iobufSize, asked) && r in Items(s)
    ensures ItemOk(s, chains, iobufSize, r)
    ensures forall c :: c in chains ==> BuffersOk(s, chains, c)
  {
    assert ItemOk(s, chains, iobufSize, r);
    forall c | c in chains ensures BuffersOk(s, chains, c) {
      assert CoreOk(s, chains, asked, c);
    }
  }

  // ---------------------------------------------------------------- the result

  function Concat(d: Buffers): Bytes {
    if d == [] then [] else d[0].1 + Concat(d[1..])
  }

  lemma {:induction false} ConcatGrows(d: Buffers, k: nat)
    requires k < |d|
    ensures Concat(d[..k + 1]) == Concat(d[..k]) + d[k].1
  {
    if k == 0 {
      assert d[..1][1..] == [];
    } else {
      assert d[..k + 1][1..] == d[1..][..k] && d[..k][1..] == d[1..][..k - 1];
      ConcatGrows(d[1..], k - 1);
    }
  }

  /** A part that cannot be decoded spoils the whole. */
  lemma {:induction false} PartsAreAscii(d: Buffers, k: nat)
    requires k < |d| && Ascii(Concat(d))
    ensures Ascii(d[k].1)
  {
    var first, rest := d[0].1, Concat(d[1..]);
    assert forall i :: 0 <= i < |first| ==> Concat(d)[i] == first[i];
    assert forall i :: 0 <= i < |rest| ==> Concat(d)[|first| + i] == rest[i];
    if k > 0 {
      PartsAreAscii(d[1..], k - 1);
    }
  }

  lemma {:induction false} ConcatIsText(d: Buffers, blocks: seq<Block>)
    requires |d| == |blocks| && forall n :: 0 <= n < |d| ==> d[n].1 == blocks[n].payload
    ensures Concat(d) == Text(blocks)
  {
    if d != [] {
      ConcatIsText(d[1..], blocks[1..]);
    }
  }

  /** With nothing left to send or receive, every asked core has its whole text, block by block. */
  lemma NothingLeftMeansComplete(s: State, chains: Chains, iobufSize: nat, asked: set<Core>, c: Core)
    requires Inv(s, chains, iobufSize, asked) && c in chains && c in asked
    requires s.extra == [] && s.next == [] && s.outstanding == []
    ensures Concat(BuffersOf(s, c)) == Text(chains[c])
  {
    assert Items(s) == [];
    assert CoreOk(s, chains, asked, c);
    var d := BuffersOf(s, c);
    forall n | 0 <= n < |d| ensures d[n].1 == chains[c][n].payload {
      forall j | 0 <= j < |d[n].1| ensures d[n].1[j] == chains[c][n].payload[j] {
        assert ByteOk(s, chains, c, n, j);
      }
    }
    ConcatIsText(d, chains[c]);
  }

  lemma StartOk(chains: Chains, iobufSize: nat)
    ensures Inv(State([], [], [], map[]), chains, iobufSize, {})
  {
    var s := State([], [], [], map[]);
    assert Items(s) == [];
    forall c | c in chains ensures CoreOk(s, chains, {}, c) {
    }
  }
}
