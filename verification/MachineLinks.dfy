/** Keeping the links of a machine symmetric while ignoring chips and links. */
module MachineLinks {
  import opened Common

  type XY = (int, int)

  /** Where a link leads, on a machine with or without wrap-arounds. */
  type Over = (XY, nat) -> XY

  /** The working links of each known chip, in the order of their numbers. */
  type ChipInfo = map<XY, seq<nat>>

  function Inverse(link: nat): nat {
    (link + 3) % 6
  }

  /** From a known chip, going over a link and back over its inverse ends where it began. */
  ghost predicate Undone(info: ChipInfo, over: Over) {
    forall c: XY, l: nat {:trigger over(over(c, l), Inverse(l))} ::
      c in info && l < 6 ==> over(over(c, l), Inverse(l)) == c
  }

  /** The six directions of the links. */
  function Direction(link: nat): XY {
    match link % 6
    case 0 => (1, 0)
    case 1 => (1, 1)
    case 2 => (0, 1)
    case 3 => (-1, 0)
    case 4 => (-1, -1)
    case _ => (0, -1)
  }

  /** Links on a grid that may wrap around either way, both, or neither. */
  function GridOver(width: int, height: int, wrapsX: bool, wrapsY: bool): Over
    requires width > 0 && height > 0
  {
    (c: XY, l: nat) =>
      (Along(wrapsX, width, c.0 + Direction(l).0), Along(wrapsY, height, c.1 + Direction(l).1))
  }

  function Along(wraps: bool, size: int, x: int): int
    requires size > 0
  {
    if wraps then x % size else x
  }

  /** On such a grid, wherever it wraps around, the way back undoes each link. */
  lemma GridIsUndone(info: ChipInfo, width: int, height: int, wrapsX: bool, wrapsY: bool)
    requires width > 0 && height > 0
    requires forall c :: c in info ==> 0 <= c.0 < width && 0 <= c.1 < height
    ensures Undone(info, GridOver(width, height, wrapsX, wrapsY))
  {
    hide Along;
    var over := GridOver(width, height, wrapsX, wrapsY);
    forall c: XY, l: nat | c in info && l < 6 ensures over(over(c, l), Inverse(l)) == c {
      var d := Direction(l);
      assert Direction(Inverse(l)) == (-d.0, -d.1);
      AlongAndBack(wrapsX, width, c.0, d.0);
      AlongAndBack(wrapsY, height, c.1, d.1);
    }
  }

  lemma AlongAndBack(wraps: bool, size: int, x: int, d: int)
    requires 0 <= x < size && -1 <= d <= 1
    ensures Along(wraps, size, Along(wraps, size, x + d) - d) == x
  {
    AroundAndBack(x, d, size);
  }

  lemma AroundAndBack(x: int, d: int, n: int)
    requires 0 <= x < n && -1 <= d <= 1
    ensures ((x + d) % n - d) % n == x
  {
    if x + d == n {
      assert (x + d) % n == 0;
      assert n - 1 == x;
      EndOfTheRow(n);
    } else if x + d < 0 {
      EndOfTheRow(n);
      assert n % n == 0;
    } else {
      Inside(x + d, n);
      Inside(x, n);
    }
  }

  lemma Inside(x: int, n: int)
    requires 0 <= x < n
    ensures x % n == x
  {
  }

  lemma EndOfTheRow(n: int)
    requires n > 0
    ensures -1 % n == n - 1
  {
    assert -1 == (-1) * n + (n - 1);
  }

  predicate Works(info: ChipInfo, c: XY, l: nat) {
    c in info && l in info[c]
  }

  ghost predicate LinksOk(info: ChipInfo) {
    && (forall c :: c in info ==> Distinct(info[c]))
    && forall c: XY, l: nat :: Works(info, c, l) ==> l < 6
  }

  ghost predicate Symmetric(info: ChipInfo, over: Over) {
    forall c: XY, l: nat {:trigger over(c, l)} ::
      Works(info, c, l) && over(c, l) in info ==> Works(info, over(c, l), Inverse(l))
  }

  /** Python's `list.remove`: the first occurrence goes. */
  function Remove(s: seq<nat>, x: nat): (r: seq<nat>)
    requires x in s
  {
    if s[0] == x then s[1..] else [s[0]] + Remove(s[1..], x)
  }

  lemma {:induction false} RemoveIsWithout(s: seq<nat>, x: nat)
    requires Distinct(s) && x in s
    ensures Remove(s, x) == Without(s, {x})
  {
    if s[0] == x {
      WithoutNone(s[1..], {x});
    } else {
      RemoveIsWithout(s[1..], x);
    }
  }

  // ---------------------------------------------------------------- ignoring chips

  /** The links of `c` that are inverse to one of `links` out of `xy`. */
  function Inverses(over: Over, xy: XY, links: seq<nat>, c: XY): set<nat> {
    set l: nat | 0 <= l < 6 && Inverse(l) in links && over(xy, Inverse(l)) == c
  }

  function Pruned(info: ChipInfo, over: Over, xy: XY, links: seq<nat>): ChipInfo {
    map c | c in info :: Without(info[c], Inverses(over, xy, links, c))
  }

  function IgnoreChip(info: ChipInfo, over: Over, xy: XY): ChipInfo {
    if xy in info then Pruned(info - {xy}, over, xy, info[xy]) else info
  }

  function IgnoreChips(info: ChipInfo, over: Over, ignores: seq<XY>): ChipInfo {
    if ignores == [] then info
    else IgnoreChip(IgnoreChips(info, over, ignores[..|ignores| - 1]), over, ignores[|ignores| - 1])
  }

  lemma IgnoreChipKeepsLinksOk(info: ChipInfo, over: Over, xy: XY)
    requires LinksOk(info)
    ensures LinksOk(IgnoreChip(info, over, xy))
  {
    var r := IgnoreChip(info, over, xy);
    if xy in info {
      forall c | c in r ensures Distinct(r[c]) {
        WithoutDistinct(info[c], Inverses(over, xy, info[xy], c));
      }
      assert forall c: XY, l: nat :: Works(r, c, l) ==> Works(info, c, l);
    }
  }

  lemma {:induction false} IgnoreChipsKeepLinksOk(info: ChipInfo, over: Over, ignores: seq<XY>)
    requires LinksOk(info)
    ensures LinksOk(IgnoreChips(info, over, ignores))
  {
    if ignores != [] {
      IgnoreChipsKeepLinksOk(info, over, ignores[..|ignores| - 1]);
      IgnoreChipKeepsLinksOk(IgnoreChips(info, over, ignores[..|ignores| - 1]), over, ignores[|ignores| - 1]);
    }
  }

  lemma {:induction false} IgnoreLinksKeepLinksOk(info: ChipInfo, over: Over, ignores: seq<(XY, nat)>)
    requires LinksOk(info)
    ensures LinksOk(IgnoreLinks(info, over, ignores))
  {
    if ignores != [] {
      var last := ignores[|ignores| - 1];
      IgnoreLinksKeepLinksOk(info, over, ignores[..|ignores| - 1]);
      IgnoreLinkCuts(IgnoreLinks(info, over, ignores[..|ignores| - 1]), over, last.0, last.1);
    }
  }

  lemma IgnoreChipExactly(info: ChipInfo, over: Over, xy: XY)
    requires Undone(info, over) && LinksOk(info) && Symmetric(info, over)
    ensures var r := IgnoreChip(info, over, xy);
      && LinksOk(r) && Symmetric(r, over) && r.Keys == info.Keys - {xy}
      && forall c: XY, l: nat :: Works(r, c, l) <==> Works(info, c, l) && c != xy && (xy in info ==> over(c, l) != xy)
  {
    var r := IgnoreChip(info, over, xy);
    IgnoreChipKeepsLinksOk(info, over, xy);
    if xy in info {
      forall c: XY, l: nat ensures Works(r, c, l) <==> Works(info, c, l) && c != xy && over(c, l) != xy {
        hide Undone;
        if Works(info, c, l) {
          InverseTwice(info, over, c, l);
          InverseTwice(info, over, xy, Inverse(l));
          assert over(c, l) == xy ==> Works(info, xy, Inverse(l));
        }
      }
    }
  }

  /** Ignoring chips takes them away, and with them exactly the links that lead to one of them. */
  lemma {:induction false} IgnoreChipsExactly(info: ChipInfo, over: Over, ignores: seq<XY>)
    requires Undone(info, over) && LinksOk(info) && Symmetric(info, over)
    ensures var r := IgnoreChips(info, over, ignores);
      && LinksOk(r) && Symmetric(r, over) && r.Keys == info.Keys - Elements(ignores)
      && forall c: XY, l: nat :: Works(r, c, l) <==>
           Works(info, c, l) && c !in ignores && !(over(c, l) in ignores && over(c, l) in info)
  {
    hide IgnoreChip, Symmetric, Works;
    if ignores != [] {
      var before, last := ignores[..|ignores| - 1], ignores[|ignores| - 1];
      assert ignores == before + [last];
      IgnoreChipsExactly(info, over, before);
      IgnoreChipExactly(IgnoreChips(info, over, before), over, last);
    }
  }

  // ---------------------------------------------------------------- ignoring links

  function Cut(info: ChipInfo, c: XY, l: nat): ChipInfo {
    if Works(info, c, l) then info[c := Without(info[c], {l})] else info
  }

  /** The inverse link goes too, if it leads back from a known chip. */
  function IgnoreLink(info: ChipInfo, over: Over, c: XY, l: nat): ChipInfo {
    if Works(info, c, l) then Cut(Cut(info, c, l), over(c, l), Inverse(l)) else info
  }

  function IgnoreLinks(info: ChipInfo, over: Over, ignores: seq<(XY, nat)>): ChipInfo {
    if ignores == [] then info
    else
      var last := ignores[|ignores| - 1];
      IgnoreLink(IgnoreLinks(info, over, ignores[..|ignores| - 1]), over, last.0, last.1)
  }

  lemma CutExactly(info: ChipInfo, c: XY, l: nat)
    requires LinksOk(info)
    ensures var r := Cut(info, c, l);
      && LinksOk(r) && r.Keys == info.Keys
      && forall c': XY, l': nat :: Works(r, c', l') <==> Works(info, c', l') && (c', l') != (c, l)
  {
    if Works(info, c, l) {
      WithoutDistinct(info[c], {l});
      forall c': XY, l': nat | Works(Cut(info, c, l), c', l') ensures l' < 6 {
        assert Works(info, c', l');
      }
    }
  }

  /** The link and its inverse, when they work, are what is cut. */
  lemma IgnoreLinkCuts(info: ChipInfo, over: Over, c: XY, l: nat)
    requires LinksOk(info)
    ensures var r := IgnoreLink(info, over, c, l);
      && LinksOk(r) && r.Keys == info.Keys
      && forall c': XY, l': nat :: Works(r, c', l') <==>
           Works(info, c', l')
           && !(Works(info, c, l) && ((c', l') == (c, l) || (c', l') == (over(c, l), Inverse(l))))
  {
    hide Cut;
    if Works(info, c, l) {
      CutExactly(info, c, l);
      CutExactly(Cut(info, c, l), over(c, l), Inverse(l));
    }
  }

  lemma InverseIsMutual(info: ChipInfo, over: Over, c: XY, l: nat, c': XY, l': nat)
    requires Undone(info, over) && c in info && c' in info && l < 6 && l' < 6
    ensures (c', l') == (over(c, l), Inverse(l)) <==> (c, l) == (over(c', l'), Inverse(l'))
  {
    hide Undone;
    InverseTwice(info, over, c, l);
    InverseTwice(info, over, c', l');
  }

  lemma IgnoreLinkExactly(info: ChipInfo, over: Over, c: XY, l: nat)
    requires Undone(info, over) && LinksOk(info) && Symmetric(info, over)
    ensures var r := IgnoreLink(info, over, c, l);
      && LinksOk(r) && Symmetric(r, over) && r.Keys == info.Keys
      && forall c': XY, l': nat :: Works(r, c', l') <==>
           Works(info, c', l') && (c', l') != (c, l) && !(c in info && (over(c', l'), Inverse(l')) == (c, l))
  {
    hide IgnoreLink;
    var r := IgnoreLink(info, over, c, l);
    IgnoreLinkCuts(info, over, c, l);
    forall c': XY, l': nat
      ensures Works(r, c', l') <==>
        Works(info, c', l') && (c', l') != (c, l) && !(c in info && (over(c', l'), Inverse(l')) == (c, l))
    {
      if Works(info, c', l') {
        assert over(c', l') in info ==> Works(info, over(c', l'), Inverse(l'));
        if Works(info, c, l) {
          InverseIsMutual(info, over, c, l, c', l');
        }
      }
    }
    forall c': XY, l': nat | Works(r, c', l') && over(c', l') in r ensures Works(r, over(c', l'), Inverse(l')) {
      hide Undone;
      InverseTwice(info, over, c', l');
      assert Works(info, over(c', l'), Inverse(l'));
    }
  }

  lemma InverseTwice(info: ChipInfo, over: Over, c: XY, l: nat)
    requires Undone(info, over) && c in info && l < 6
    ensures over(over(c, l), Inverse(l)) == c && Inverse(Inverse(l)) == l
  {
  }

  /** A link goes exactly when it or its inverse is ignored, the latter on a known chip. */
  lemma {:induction false} IgnoreLinksExactly(info: ChipInfo, over: Over, ignores: seq<(XY, nat)>)
    requires Undone(info, over) && LinksOk(info) && Symmetric(info, over)
    ensures var r := IgnoreLinks(info, over, ignores);
      && LinksOk(r) && Symmetric(r, over) && r.Keys == info.Keys
      && forall c: XY, l: nat :: Works(r, c, l) <==>
           Works(info, c, l) && (c, l) !in ignores && !(over(c, l) in info && (over(c, l), Inverse(l)) in ignores)
  {
    hide IgnoreLink, Symmetric, Works;
    if ignores != [] {
      var before, last := ignores[..|ignores| - 1], ignores[|ignores| - 1];
      assert ignores == before + [last];
      IgnoreLinksExactly(info, over, before);
      IgnoreLinkExactly(IgnoreLinks(info, over, before), over, last.0, last.1);
    }
  }

  // ---------------------------------------------------------------- routers

  datatype RouterLink = RouterLink(source: XY, link: nat, destination: XY)

  /** The links of a chip that lead to known chips. */
  function RouterLinks(info: ChipInfo, over: Over, c: XY, links: seq<nat>): (r: seq<RouterLink>)
    ensures forall k :: k in r <==>
      k.source == c && k.link in links && k.destination == over(c, k.link) && k.destination in info
  {
    if links == [] then []
    else
      var init, l := links[..|links| - 1], links[|links| - 1];
      assert links == init + [l];
      RouterLinks(info, over, c, init) + if over(c, l) in info then [RouterLink(c, l, over(c, l))] else []
  }

  predicate InRouter(info: ChipInfo, over: Over, c: XY, k: RouterLink) {
    c in info && k in RouterLinks(info, over, c, info[c])
  }

  /**
   * From symmetric links, whatever chips and then links are ignored: the routers hold
   * exactly the working links between chips that are known and not ignored, neither
   * themselves nor by their inverse being ignored. Each is matched by its inverse in the
   * router at its other end.
   */
  lemma {:induction false} RoutersAreSymmetric(info: ChipInfo, over: Over, chips: seq<XY>, links: seq<(XY, nat)>,
                                               c: XY, k: RouterLink)
    requires Undone(info, over) && LinksOk(info) && Symmetric(info, over)
    ensures var last := IgnoreLinks(IgnoreChips(info, over, chips), over, links);
      && (InRouter(last, over, c, k) <==>
            && Works(info, c, k.link) && k.source == c && k.destination == over(c, k.link)
            && c !in chips && k.destination in info && k.destination !in chips
            && (c, k.link) !in links && (k.destination, Inverse(k.link)) !in links)
      && (InRouter(last, over, c, k) ==>
            && k.destination in last
            && InRouter(last, over, k.destination, RouterLink(k.destination, Inverse(k.link), c)))
  {
    hide IgnoreChips, IgnoreLinks;
    IgnoreChipsExactly(info, over, chips);
    var middle := IgnoreChips(info, over, chips);
    IgnoreLinksExactly(middle, over, links);
    var last := IgnoreLinks(middle, over, links);
    assert InRouter(last, over, c, k) ==> Works(last, c, k.link);
    assert k.destination in Elements(chips) <==> k.destination in chips;
    assert c in Elements(chips) <==> c in chips;
    if InRouter(last, over, c, k) {
      assert Works(last, over(c, k.link), Inverse(k.link));
      assert over(over(c, k.link), Inverse(k.link)) == c;
    }
  }

  // ---------------------------------------------------------------- the process

  class GetMachineProcess {
    var chipInfo: ChipInfo

    constructor (chipInfo: ChipInfo)
      ensures this.chipInfo == chipInfo
    {
      this.chipInfo := chipInfo;
    }

    /** `None` is an ignore that no chip of this machine answers to. */
    method PreprocessIgnoreChips(over: Over, ignores: seq<Option<XY>>)
      requires LinksOk(chipInfo)
      modifies this
      ensures chipInfo == IgnoreChips(old(chipInfo), over, Known(ignores))
    {
      hide IgnoreChip, Inverses;
      var i := 0;
      while i < |ignores|
        invariant 0 <= i <= |ignores|
        invariant chipInfo == IgnoreChips(old(chipInfo), over, Known(ignores[..i]))
      {
        assert ignores[..i + 1][..i] == ignores[..i];
        if ignores[i].Some? {
          var known := Known(ignores[..i]);
          assert Known(ignores[..i + 1]) == known + [ignores[i].value];
          assert (known + [ignores[i].value])[..|known|] == known;
          IgnoreChipsKeepLinksOk(old(chipInfo), over, known);
          IgnoreOneChip(over, ignores[i].value);
        } else {
          assert Known(ignores[..i + 1]) == Known(ignores[..i]);
        }
        i := i + 1;
      }
      assert ignores[..i] == ignores;
    }

    method IgnoreOneChip(over: Over, globalXY: XY)
      requires LinksOk(chipInfo)
      modifies this
      ensures chipInfo == IgnoreChip(old(chipInfo), over, globalXY)
    {
      if globalXY !in chipInfo {
        return;
      }
      var links := chipInfo[globalXY];
      chipInfo := chipInfo - {globalXY};
      ghost var popped := chipInfo;
      NothingPruned(popped, over, globalXY);
      var i := 0;
      while i < |links|
        invariant 0 <= i <= |links|
        invariant chipInfo == Pruned(popped, over, globalXY, links[..i])
      {
        var link := links[i];
        assert Works(old(chipInfo), globalXY, link);
        var invXY, invLink := over(globalXY, link), Inverse(link);
        PruneOne(popped, over, globalXY, links, i);
        if invXY in chipInfo {
          if invLink in chipInfo[invXY] {
            WithoutDistinct(popped[invXY], Inverses(over, globalXY, links[..i], invXY));
            RemoveIsWithout(chipInfo[invXY], invLink);
            chipInfo := chipInfo[invXY := Remove(chipInfo[invXY], invLink)];
          }
        }
        i := i + 1;
      }
      assert links[..i] == links;
    }

    method ProcessIgnoreLinks(over: Over, ignores: seq<(XY, nat)>)
      requires LinksOk(chipInfo)
      modifies this
      ensures chipInfo == IgnoreLinks(old(chipInfo), over, ignores)
    {
      var i := 0;
      while i < |ignores|
        invariant 0 <= i <= |ignores|
        invariant chipInfo == IgnoreLinks(old(chipInfo), over, ignores[..i])
      {
        IgnoreLinksKeepLinksOk(old(chipInfo), over, ignores[..i]);
        assert ignores[..i + 1][..i] == ignores[..i];
        var (globalXY, link) := ignores[i];
        if globalXY in chipInfo && link in chipInfo[globalXY] {
          CutExactly(chipInfo, globalXY, link);
          RemoveIsWithout(chipInfo[globalXY], link);
          chipInfo := chipInfo[globalXY := Remove(chipInfo[globalXY], link)];
          // the way back goes with it
          var invXY, invLink := over(globalXY, link), Inverse(link);
          if invXY in chipInfo && invLink in chipInfo[invXY] {
            RemoveIsWithout(chipInfo[invXY], invLink);
            chipInfo := chipInfo[invXY := Remove(chipInfo[invXY], invLink)];
          }
        }
        i := i + 1;
      }
      assert ignores[..i] == ignores;
    }

    method MakeRouter(over: Over, c: XY) returns (links: seq<RouterLink>)
      requires c in chipInfo
      ensures links == RouterLinks(chipInfo, over, c, chipInfo[c])
    {
      var working := chipInfo[c];
      links := [];
      for i := 0 to |working|
        invariant links == RouterLinks(chipInfo, over, c, working[..i])
      {
        assert working[..i + 1][..i] == working[..i];
        var destination := over(c, working[i]);
        if destination in chipInfo {
          links := links + [RouterLink(c, working[i], destination)];
        }
      }
      assert working[..|working|] == working;
    }
  }

  function Known(ignores: seq<Option<XY>>): seq<XY> {
    if ignores == [] then []
    else
      Known(ignores[..|ignores| - 1])
      + match ignores[|ignores| - 1] case Some(c) => [c] case None => []
  }

  /** The ignores that a chip answers to, each with its chip; the others leave nothing. */
  lemma {:induction false} KnownAreThoseThatAnswer(ignores: seq<Option<XY>>, c: XY)
    ensures c in Known(ignores) <==> Some(c) in ignores
  {
    if ignores != [] {
      var before, last := ignores[..|ignores| - 1], ignores[|ignores| - 1];
      assert ignores == before + [last];
      KnownAreThoseThatAnswer(before, c);
    }
  }

  lemma {:induction false} OneMoreKnown(ignores: seq<Option<XY>>, last: Option<XY>)
    ensures Known(ignores + [last]) == Known(ignores) + if last.Some? then [last.value] else []
  {
    assert (ignores + [last])[..|ignores|] == ignores;
  }

  /** They keep their order and their number. */
  lemma {:induction false} KnownKeepsOrder(ignores: seq<Option<XY>>, more: seq<Option<XY>>)
    ensures Known(ignores + more) == Known(ignores) + Known(more)
    ensures forall c :: Known([Some(c)]) == [c]
  {
    hide Known;
    NoneKnown();
    forall c ensures Known([Some(c)]) == [c] {
      OneMoreKnown([], Some(c));
      assert [] + [Some(c)] == [Some(c)];
    }
    if more == [] {
      assert ignores + more == ignores;
    } else {
      var before, last := more[..|more| - 1], more[|more| - 1];
      assert more == before + [last];
      assert ignores + more == (ignores + before) + [last];
      KnownKeepsOrder(ignores, before);
      OneMoreKnown(ignores + before, last);
      OneMoreKnown(before, last);
    }
  }

  lemma {:induction false} NoneKnown()
    ensures Known([]) == []
  {
  }

  lemma NothingPruned(info: ChipInfo, over: Over, xy: XY)
    ensures Pruned(info, over, xy, []) == info
  {
    forall c | c in info ensures Without(info[c], Inverses(over, xy, [], c)) == info[c] {
      WithoutNone(info[c], Inverses(over, xy, [], c));
    }
  }

  lemma PruneOne(info: ChipInfo, over: Over, xy: XY, links: seq<nat>, i: nat)
    requires i < |links| && links[i] < 6
    ensures var before, after := Pruned(info, over, xy, links[..i]), Pruned(info, over, xy, links[..i + 1]);
      after == Cut(before, over(xy, links[i]), Inverse(links[i]))
  {
    hide Inverses, Without;
    var before, after := Pruned(info, over, xy, links[..i]), Pruned(info, over, xy, links[..i + 1]);
    var c0, l0 := over(xy, links[i]), Inverse(links[i]);
    forall c | c in info ensures after[c] == Cut(before, c0, l0)[c] {
      var old', new' := Inverses(over, xy, links[..i], c), Inverses(over, xy, links[..i + 1], c);
      InversesGrow(over, xy, links, i, c);
      if c == c0 {
        WithoutTwice(info[c], old', {l0});
        if l0 !in before[c] {
          WithoutNone(before[c], {l0});
        }
      } else {
        assert old' + {} == old';
      }
    }
  }

  lemma InversesGrow(over: Over, xy: XY, links: seq<nat>, i: nat, c: XY)
    requires i < |links| && links[i] < 6
    ensures Inverses(over, xy, links[..i + 1], c) ==
      Inverses(over, xy, links[..i], c) + if c == over(xy, links[i]) then {Inverse(links[i])} else {}
  {
    assert links[..i + 1] == links[..i] + [links[i]];
    assert Inverse(Inverse(links[i])) == links[i];
    forall l: nat | l < 6 && Inverse(l) == links[i] ensures l == Inverse(links[i]) {
    }
  }
}
