/** The process that reads the IOBUF of many cores. */
module ReadIobufProcess {
  import opened Common
  import opened ReadIobuf
  import opened ReadIobufInvariants

  class ReadIOBufProcess {
    var extraReads: seq<Tail>
    var nextReads: seq<Region>
    var iobuf: map<Core, Buffers>
    var outstanding: seq<Request>  // what the pipelines have been given and not yet answered

    function Current(): State
      reads this
    {
      State(extraReads, nextReads, outstanding, iobuf)
    }

    constructor ()
      ensures Current() == State([], [], [], map[])
    {
      extraReads, nextReads, iobuf, outstanding := [], [], map[], [];
    }

    method HandleAddressResponse(core: Core, iobufSize: nat, data: Bytes)
      requires |data| == 4
      modifies this
      ensures Current() == HandleAddress(old(Current()), core, iobufSize, data)
    {
      var address := Word(data, 0);
      if address != 0 {
        var firstReadSize := Min(iobufSize + 16, UDP_MESSAGE_MAX_SIZE);
        nextReads := nextReads + [Region(core, 0, address, firstReadSize)];
      }
    }

    method HandleExtraResponse(tail: Tail, data: Bytes)
      modifies this
      ensures Current() == HandleTail(old(Current()), tail, data)
    {
      var buffers := if tail.core in iobuf then iobuf[tail.core] else [];
      iobuf := iobuf[tail.core := Patch(buffers, tail.n, tail.offset, data)];
    }

    method HandleFirstResponse(region: Region, data: Bytes)
      requires 16 <= |data|
      modifies this
      ensures Current() == HandleFirst(old(Current()), region, data)
    {
      hide Word, Put, Zeros;
      var baseAddress := region.address;

      // the first and the last word of the header
      var nextAddress, bytesToRead := Word(data, 0), Word(data, 12);

      // what this packet has of the payload, then room for the rest
      var packetBytes := |data| - 16;
      if packetBytes > bytesToRead {
        packetBytes := bytesToRead;
      }
      var buffer := data[16..16 + packetBytes] + Zeros(bytesToRead - packetBytes);
      var buffers := if region.core in iobuf then iobuf[region.core] else [];
      iobuf := iobuf[region.core := Put(buffers, region.n, buffer)];

      bytesToRead := bytesToRead - packetBytes;
      baseAddress := baseAddress + packetBytes + 16;
      var readOffset := packetBytes;

      // the rest in pieces, to be sent for later
      ghost var tails := Tails(region, baseAddress, bytesToRead, readOffset);
      while bytesToRead > 0
        invariant 0 <= bytesToRead && 0 <= baseAddress && 0 <= readOffset
        invariant nextReads == old(nextReads) && outstanding == old(outstanding)
        invariant iobuf == old(iobuf)[region.core := Put(buffers, region.n, buffer)]
        invariant extraReads + Tails(region, baseAddress, bytesToRead, readOffset) == old(extraReads) + tails
        decreases bytesToRead
      {
        var nextBytes := Min(bytesToRead, UDP_MESSAGE_MAX_SIZE);
        extraReads := extraReads + [region.TailAt(baseAddress, nextBytes, readOffset)];
        baseAddress := baseAddress + nextBytes;
        readOffset := readOffset + nextBytes;
        bytesToRead := bytesToRead - nextBytes;
      }

      // a chain ends at address zero
      if nextAddress != 0 {
        nextReads := nextReads + [region.NextAt(nextAddress)];
      }
    }

    /** The pipelines handle any one of the responses that are outstanding. */
    method HandleSomeResponse(mem: Memory, i: nat)
      requires i < |outstanding| && RequestOk(outstanding[i])
      modifies this
      ensures Current() == Deliver(old(Current()), mem, i)
    {
      var request := outstanding[i];
      outstanding := outstanding[..i] + outstanding[i + 1..];
      match request
      case AddressRead(c, iobufSize) =>
        HandleAddressResponse(c, iobufSize, Read(mem, c, PointerAddress(c), 4));
      case FirstRead(r) =>
        HandleFirstResponse(r, Read(mem, r.core, r.address, r.firstReadSize));
      case TailRead(t) =>
        HandleExtraResponse(t, Read(mem, t.core, t.address, t.size));
    }

    /** Handle outstanding responses, in any order: all of them, or any number. */
    method HandleResponses(mem: Memory, all: bool, ghost chains: Chains, iobufSize: nat, ghost asked: set<Core>)
      requires Inv(Current(), chains, iobufSize, asked) && ChainsOk(mem, chains)
      modifies this
      ensures Inv(Current(), chains, iobufSize, asked)
      ensures Work(Current(), chains, iobufSize) <= old(Work(Current(), chains, iobufSize))
      ensures all ==> outstanding == []
    {
      hide Inv, ChainsOk, Work, Deliver;
      var more: bool := *;
      while outstanding != [] && (all || more)
        invariant Inv(Current(), chains, iobufSize, asked)
        invariant Work(Current(), chains, iobufSize) <= old(Work(Current(), chains, iobufSize))
        decreases Work(Current(), chains, iobufSize)
      {
        var i: nat :| i < |outstanding|;
        DeliverKeepsInv(Current(), mem, chains, iobufSize, asked, i);
        DeliverSpendsWork(Current(), mem, chains, iobufSize, asked, i);
        HandleSomeResponse(mem, i);
        more := *;
      }
    }

    /** Ask every core where its first block is. */
    method RequestAddresses(mem: Memory, iobufSize: nat, cores: seq<Core>, ghost chains: Chains)
      requires Current() == State([], [], [], map[])
      requires Distinct(cores) && (forall c :: c in cores ==> c in chains) && ChainsOk(mem, chains)
      modifies this
      ensures Inv(Current(), chains, iobufSize, Elements(cores)) && outstanding == []
    {
      hide Inv, ChainsOk, Work;
      ghost var asked: set<Core> := {};
      StartOk(chains, iobufSize);
      var k := 0;
      while k < |cores|
        invariant 0 <= k <= |cores|
        invariant asked == Elements(cores[..k]) && Inv(Current(), chains, iobufSize, asked)
      {
        AskKeepsInv(Current(), chains, iobufSize, asked, cores[k]);
        outstanding := outstanding + [AddressRead(cores[k], iobufSize)];
        asked := asked + {cores[k]};
        HandleResponses(mem, false, chains, iobufSize, asked);
        k := k + 1;
      }
      assert cores[..k] == cores;
      HandleResponses(mem, true, chains, iobufSize, asked);
    }

    /** Send for what the two lists hold, and wait for all the responses. */
    method RunRound(mem: Memory, iobufSize: nat, ghost chains: Chains, ghost asked: set<Core>)
      requires Inv(Current(), chains, iobufSize, asked) && ChainsOk(mem, chains)
      requires extraReads != [] || nextReads != []
      modifies this
      ensures Inv(Current(), chains, iobufSize, asked) && outstanding == []
      ensures Work(Current(), chains, iobufSize) < old(Work(Current(), chains, iobufSize))
    {
      hide Inv, ChainsOk, Work;
      // tails of blocks already begun
      while extraReads != []
        invariant Inv(Current(), chains, iobufSize, asked)
        invariant Work(Current(), chains, iobufSize) <= old(Work(Current(), chains, iobufSize))
        invariant extraReads == [] && nextReads == [] ==>
          Work(Current(), chains, iobufSize) < old(Work(Current(), chains, iobufSize))
        decreases Work(Current(), chains, iobufSize)
      {
        IssueKeepsInv(Current(), chains, iobufSize, asked);
        IssueSpendsWork(Current(), chains, iobufSize);
        var tail := extraReads[|extraReads| - 1];
        extraReads := extraReads[..|extraReads| - 1];
        outstanding := outstanding + [TailRead(tail)];
        HandleResponses(mem, false, chains, iobufSize, asked);
      }
      // then the blocks behind them
      while nextReads != []
        invariant Inv(Current(), chains, iobufSize, asked)
        invariant Work(Current(), chains, iobufSize) <= old(Work(Current(), chains, iobufSize))
        invariant nextReads == [] ==> Work(Current(), chains, iobufSize) < old(Work(Current(), chains, iobufSize))
        decreases Work(Current(), chains, iobufSize)
      {
        IssueKeepsInv(Current(), chains, iobufSize, asked);
        IssueSpendsWork(Current(), chains, iobufSize);
        var region := nextReads[|nextReads| - 1];
        nextReads := nextReads[..|nextReads| - 1];
        outstanding := outstanding + [FirstRead(region)];
        HandleResponses(mem, false, chains, iobufSize, asked);
      }
      HandleResponses(mem, true, chains, iobufSize, asked);
    }

    /** Decode the buffers of a core one after another; `None` if one cannot be. */
    method DecodeBuffers(buffers: Buffers) returns (text: Option<string>)
      ensures text == if Ascii(Concat(buffers)) then Some(Decoded(Concat(buffers))) else None
    {
      var iobuf := "";
      for k := 0 to |buffers|
        invariant Ascii(Concat(buffers[..k])) && iobuf == Decoded(Concat(buffers[..k]))
      {
        var item := buffers[k].1;
        ConcatGrows(buffers, k);
        if !Ascii(item) {
          if Ascii(Concat(buffers)) {
            PartsAreAscii(buffers, k);
          }
          return None;
        }
        iobuf := iobuf + Decoded(item);
      }
      assert buffers[..|buffers|] == buffers;
      return Some(iobuf);
    }

    /**
     * Read the IOBUF of each core. While requests are being sent, and at the end
     * of each round, responses are handled in any order whatever. The texts are
     * given one by one, until one cannot be decoded.
     */
    method ReadIobuf(mem: Memory, iobufSize: nat, cores: seq<Core>, ghost chains: Chains)
      returns (texts: seq<(Core, string)>, raised: bool)
      requires Current() == State([], [], [], map[])
      requires Distinct(cores) && (forall c :: c in cores ==> c in chains) && ChainsOk(mem, chains)
      modifies this
      ensures |texts| <= |cores| && (raised <==> |texts| < |cores|)
      ensures forall k :: 0 <= k < |texts| ==>
        Ascii(Text(chains[cores[k]])) && texts[k] == (cores[k], Decoded(Text(chains[cores[k]])))
      ensures raised ==> !Ascii(Text(chains[cores[|texts|]]))
    {
      hide Inv, ChainsOk, Work;
      RequestAddresses(mem, iobufSize, cores, chains);
      // each round may discover more
      while extraReads != [] || nextReads != []
        invariant Inv(Current(), chains, iobufSize, Elements(cores)) && outstanding == []
        decreases Work(Current(), chains, iobufSize)
      {
        RunRound(mem, iobufSize, chains, Elements(cores));
      }
      texts := [];
      var k := 0;
      while k < |cores|
        invariant 0 <= k <= |cores| && |texts| == k
        invariant Inv(Current(), chains, iobufSize, Elements(cores))
        invariant extraReads == [] && nextReads == [] && outstanding == []
        invariant forall i :: 0 <= i < k ==>
          Ascii(Text(chains[cores[i]])) && texts[i] == (cores[i], Decoded(Text(chains[cores[i]])))
      {
        NothingLeftMeansComplete(Current(), chains, iobufSize, Elements(cores), cores[k]);
        var buffers := if cores[k] in iobuf then iobuf[cores[k]] else [];
        var text := DecodeBuffers(buffers);
        if text.None? {
          return texts, true;
        }
        texts := texts + [(cores[k], text.value)];
        k := k + 1;
      }
      raised := false;
    }
  }

  // ---------------------------------------------------------------- a concrete machine

  const FIRST_ADDRESS: Bytes := [0x10, 0x01, 0, 0]
  const FIRST_BLOCK: Bytes := [0x20, 0x02, 0, 0, 7, 7, 7, 7, 7, 7, 7, 7, 3, 0, 0, 0, 97, 98, 99]
  const LAST_BLOCK: Bytes := [0, 0, 0, 0, 7, 7, 7, 7, 7, 7, 7, 7, 2, 0, 0, 0, 100, 101]

  /**
   * Core 3 of chip (1, 2) has two blocks, at 0x110 with "abc" and at 0x220 with
   * "de"; its pointer is at 0xe50071d8. Other chips hold nothing but zeros.
   */
  function TwoBlocks(x: nat, y: nat, address: nat): Byte {
    if x != 1 || y != 2 then 0
    else if 0xe50071d8 <= address < 0xe50071d8 + |FIRST_ADDRESS| then FIRST_ADDRESS[address - 0xe50071d8]
    else if 0x110 <= address < 0x110 + |FIRST_BLOCK| then FIRST_BLOCK[address - 0x110]
    else if 0x220 <= address < 0x220 + |LAST_BLOCK| then LAST_BLOCK[address - 0x220]
    else 255
  }

  /** The blocks of that core, and those of the core of the same number on chip (2, 1), of which there are none. */
  function TwoChains(): Chains {
    map[Core(1, 2, 3) := [Block(0x110, [97, 98, 99]), Block(0x220, [100, 101])], Core(2, 1, 3) := []]
  }

  lemma WhatIsRead(mem: Memory, c: Core, address: nat, data: Bytes)
    requires forall i :: 0 <= i < |data| ==> mem(c.x, c.y, address + i) == data[i]
    ensures Read(mem, c, address, |data|) == data
  {
  }

  lemma WordsOfTheBlocks()
    ensures Word(FIRST_ADDRESS, 0) == 0x110 && Word([0, 0, 0, 0], 0) == 0
    ensures Word(FIRST_BLOCK[0..16], 0) == 0x220 && Word(FIRST_BLOCK[0..16], 12) == 3
    ensures Word(LAST_BLOCK[0..16], 0) == 0 && Word(LAST_BLOCK[0..16], 12) == 2
    ensures FIRST_BLOCK[16..19] == [97, 98, 99] && LAST_BLOCK[16..18] == [100, 101]
    ensures FIRST_ADDRESS[0..4] == FIRST_ADDRESS
  {
  }

  lemma TheirBytes()
    ensures var c := Core(1, 2, 3);
      && Read(TwoBlocks, c, 0xe50071d8, 4) == FIRST_ADDRESS
      && Read(TwoBlocks, c, 0x110, 16) == FIRST_BLOCK[0..16] && Read(TwoBlocks, c, 0x120, 3) == FIRST_BLOCK[16..19]
      && Read(TwoBlocks, c, 0x220, 16) == LAST_BLOCK[0..16] && Read(TwoBlocks, c, 0x230, 2) == LAST_BLOCK[16..18]
    ensures Read(TwoBlocks, Core(2, 1, 3), 0xe50071d8, 4) == [0, 0, 0, 0]
  {
    var c := Core(1, 2, 3);
    WhatIsRead(TwoBlocks, c, 0xe50071d8, FIRST_ADDRESS);
    WhatIsRead(TwoBlocks, c, 0x110, FIRST_BLOCK[0..16]);
    WhatIsRead(TwoBlocks, c, 0x120, FIRST_BLOCK[16..19]);
    WhatIsRead(TwoBlocks, c, 0x220, LAST_BLOCK[0..16]);
    WhatIsRead(TwoBlocks, c, 0x230, LAST_BLOCK[16..18]);
    WhatIsRead(TwoBlocks, Core(2, 1, 3), 0xe50071d8, [0, 0, 0, 0]);
  }

  lemma TwoChainsAreThere()
    ensures ChainsOk(TwoBlocks, TwoChains())
  {
    hide TwoBlocks, Read, Word, FIRST_ADDRESS, FIRST_BLOCK, LAST_BLOCK;
    var c := Core(1, 2, 3);
    var blocks := TwoChains()[c];
    WordsOfTheBlocks();
    TheirBytes();
    assert Chain(TwoBlocks, c, 0, blocks[1..][1..]);
    assert Chain(TwoBlocks, c, 0x220, blocks[1..]);
    assert Chain(TwoBlocks, c, 0x110, blocks);
  }

  lemma TheirText()
    ensures Text(TwoChains()[Core(1, 2, 3)]) == [97, 98, 99, 100, 101] && Text(TwoChains()[Core(2, 1, 3)]) == []
    ensures Decoded([97, 98, 99, 100, 101]) == "abcde"
  {
    var blocks := TwoChains()[Core(1, 2, 3)];
    assert Text(blocks[1..][1..]) == [];
    assert Text(blocks[1..]) == [100, 101];
  }

  /** Reading both cores, whatever the size of the first read. */
  method ReadTwoBlocks(iobufSize: nat) returns (texts: seq<(Core, string)>, raised: bool)
    ensures texts == [(Core(1, 2, 3), "abcde"), (Core(2, 1, 3), "")] && !raised
  {
    hide ChainsOk, Text, Decoded, TwoBlocks;
    TwoChainsAreThere();
    TheirText();
    var process := new ReadIOBufProcess();
    var cores := [Core(1, 2, 3), Core(2, 1, 3)];
    texts, raised := process.ReadIobuf(TwoBlocks, iobufSize, cores, TwoChains());
  }
}
