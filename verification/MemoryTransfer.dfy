/** Writing and reading memory in packets of at most 256 bytes, answered in any order. */
module MemoryTransfer {
  import opened Common

  const WORD_LIMIT := 0x1_0000_0000

  type Memory = int -> Byte

  /** Where Python puts an index of a slice: a negative one counts from the end. */
  function SliceIndex(i: int, length: nat): (r: nat)
    ensures r <= length
  {
    if i >= 0 then Min(i, length) else if i + length < 0 then 0 else i + length
  }

  /** Python's `data[from:to]`. */
  function Slice(data: Bytes, from: int, to: int): (r: Bytes)
    ensures 0 <= from <= to <= |data| ==> r == data[from..to]
    ensures -|data| <= from <= to < 0 ==> r == data[|data| + from..|data| + to]
  {
    var a, b := SliceIndex(from, |data|), SliceIndex(to, |data|);
    if a <= b then data[a..b] else []
  }

  /** A slice whose parts are slices too: it starts inside the data and does not run past its end to the start. */
  predicate Plain(data: Bytes, from: int, to: int) {
    from >= 0 || (-|data| <= from && to < 0)
  }

  lemma SliceGrows(data: Bytes, a: int, b: int, c: int)
    requires a <= b <= c && Plain(data, a, c)
    ensures Slice(data, a, b) + Slice(data, b, c) == Slice(data, a, c)
    ensures Slice(data, b, c) == [] || |Slice(data, a, b)| == b - a
  {
  }

  // ---------------------------------------------------------------- what writes do to memory

  datatype Write = Write(address: int, data: Bytes)

  function Apply(mem: Memory, w: Write): Memory {
    (a: int) => if w.address <= a < w.address + |w.data| then w.data[a - w.address] else mem(a)
  }

  ghost predicate Indices(effects: seq<nat>, n: nat) {
    forall i :: 0 <= i < |effects| ==> effects[i] < n
  }

  /** What the pipelines guarantee when they finish without errors: each write took effect, maybe more than once. */
  ghost predicate EachTookEffect(effects: seq<nat>, n: nat) {
    Indices(effects, n) && forall k: nat :: k < n ==> k in effects
  }

  /** The writes with these indices take effect one after another. */
  function ApplyAll(mem: Memory, writes: seq<Write>, effects: seq<nat>): Memory
    requires Indices(effects, |writes|)
  {
    if effects == [] then mem
    else Apply(ApplyAll(mem, writes, effects[..|effects| - 1]), writes[effects[|effects| - 1]])
  }

  /** The writes hold `data` at `base` and up, in consecutive packets; packets with no data go anywhere. */
  ghost predicate Consecutive(writes: seq<Write>, base: int, data: Bytes) {
    if writes == [] then data == []
    else
      var last, n := writes[|writes| - 1], |data| - |writes[|writes| - 1].data|;
      && |last.data| <= UDP_MESSAGE_MAX_SIZE && 0 <= n
      && (last.data == [] || last.address == base + n)
      && last.data == data[n..]
      && Consecutive(writes[..|writes| - 1], base, data[..n])
  }

  ghost predicate In(w: Write, a: int) {
    w.address <= a < w.address + |w.data|
  }

  lemma {:induction false} ConsecutiveInside(writes: seq<Write>, base: int, data: Bytes, k: nat, a: int)
    requires Consecutive(writes, base, data) && k < |writes| && In(writes[k], a)
    ensures base <= a < base + |data| && writes[k].data[a - writes[k].address] == data[a - base]
  {
    var n := |writes| - 1;
    if k < n {
      ConsecutiveInside(writes[..n], base, data[..|data| - |writes[n].data|], k, a);
    }
  }

  lemma {:induction false} ConsecutiveCovers(writes: seq<Write>, base: int, data: Bytes, a: int) returns (k: nat)
    requires Consecutive(writes, base, data) && base <= a < base + |data|
    ensures k < |writes| && In(writes[k], a)
  {
    var n := |writes| - 1;
    if In(writes[n], a) {
      k := n;
    } else {
      k := ConsecutiveCovers(writes[..n], base, data[..|data| - |writes[n].data|], a);
    }
  }

  lemma {:induction false} EffectsAt(mem: Memory, writes: seq<Write>, effects: seq<nat>, base: int, data: Bytes, a: int)
    requires Consecutive(writes, base, data) && Indices(effects, |writes|)
    ensures var b := ApplyAll(mem, writes, effects)(a);
      if exists i :: 0 <= i < |effects| && In(writes[effects[i]], a)
      then base <= a < base + |data| && b == data[a - base] else b == mem(a)
  {
    if effects != [] {
      var before, last := effects[..|effects| - 1], effects[|effects| - 1];
      EffectsAt(mem, writes, before, base, data, a);
      if In(writes[last], a) {
        ConsecutiveInside(writes, base, data, last, a);
      } else if exists i :: 0 <= i < |effects| && In(writes[effects[i]], a) {
        var i :| 0 <= i < |effects| && In(writes[effects[i]], a);
        assert before[i] == effects[i];
      } else {
        assert forall i :: 0 <= i < |before| ==> before[i] == effects[i];
      }
    }
  }

  /**
   * Each write takes effect at least once, in any order and any number of times:
   * memory ends up holding the data at its place, and is otherwise unchanged.
   */
  lemma {:induction false} WritesLandExactly(mem: Memory, writes: seq<Write>, effects: seq<nat>,
                                             base: int, data: Bytes, a: int)
    requires Consecutive(writes, base, data) && EachTookEffect(effects, |writes|)
    ensures ApplyAll(mem, writes, effects)(a) == if base <= a < base + |data| then data[a - base] else mem(a)
  {
    EffectsAt(mem, writes, effects, base, data, a);
    if base <= a < base + |data| {
      var k := ConsecutiveCovers(writes, base, data, a);
      assert k in effects;
    }
  }

  /** What `size` bytes from `address` hold. */
  function Fetch(mem: Memory, address: int, size: nat): (r: Bytes)
    ensures |r| == size
  {
    seq<Byte>(size, i requires 0 <= i < size => mem(address + i))
  }

  /** Writing and then reading the same range gives back what was written. */
  lemma {:induction false} WriteThenRead(mem: Memory, writes: seq<Write>, effects: seq<nat>, base: int, data: Bytes)
    requires Consecutive(writes, base, data) && EachTookEffect(effects, |writes|)
    ensures Fetch(ApplyAll(mem, writes, effects), base, |data|) == data
  {
    var got := Fetch(ApplyAll(mem, writes, effects), base, |data|);
    forall i | 0 <= i < |data| ensures got[i] == data[i] {
      WritesLandExactly(mem, writes, effects, base, data, base + i);
    }
  }

  /** A packet for the next bytes may follow. */
  lemma {:induction false} ExtendConsecutive(writes: seq<Write>, base: int, data: Bytes, address: int, chunk: Bytes)
    requires Consecutive(writes, base, data) && |chunk| <= UDP_MESSAGE_MAX_SIZE
    requires chunk == [] || address == base + |data|
    ensures Consecutive(writes + [Write(address, chunk)], base, data + chunk)
  {
    var all := writes + [Write(address, chunk)];
    assert all[..|all| - 1] == writes;
    assert (data + chunk)[..|data|] == data && (data + chunk)[|data|..] == chunk;
  }

  // ---------------------------------------------------------------- checksums

  /** The sum of the little-endian words of the data, unbounded. */
  function WordSum(data: Bytes): (r: nat)
    requires |data| % 4 == 0
  {
    if data == [] then 0
    else
      (data[0] as int) + 0x100 * (data[1] as int) + 0x1_0000 * (data[2] as int) + 0x100_0000 * (data[3] as int)
      + WordSum(data[4..])
  }

  lemma {:induction false} WordSumAppend(a: Bytes, b: Bytes)
    requires |a| % 4 == 0 && |b| % 4 == 0
    ensures |a + b| % 4 == 0 && WordSum(a + b) == WordSum(a) + WordSum(b)
  {
    if a == [] {
      assert a + b == b;
    } else {
      assert (a + b)[4..] == a[4..] + b;
      WordSumAppend(a[4..], b);
    }
  }

  ghost predicate AllAligned(chunks: seq<Bytes>) {
    forall i :: 0 <= i < |chunks| ==> |chunks[i]| % 4 == 0
  }

  /** The running sum of the reader's loop, masked after every chunk. */
  function RunningSum(chunks: seq<Bytes>): (r: nat)
    requires AllAligned(chunks)
    ensures r < WORD_LIMIT
  {
    if chunks == [] then 0
    else (RunningSum(chunks[..|chunks| - 1]) + WordSum(chunks[|chunks| - 1])) % WORD_LIMIT
  }

  /** Masking after every chunk or once at the end is the same, however the data is cut. */
  lemma {:induction false} RunningSumIsOneShot(chunks: seq<Bytes>)
    requires AllAligned(chunks)
    ensures |Flatten(chunks)| % 4 == 0 && RunningSum(chunks) == WordSum(Flatten(chunks)) % WORD_LIMIT
  {
    hide WordSum;
    if chunks == [] {
      NoWords();
    } else {
      var before, last := chunks[..|chunks| - 1], chunks[|chunks| - 1];
      RunningSumIsOneShot(before);
      WordSumAppend(Flatten(before), last);
      MaskEarly(WordSum(Flatten(before)), WordSum(last));
    }
  }

  lemma NoWords()
    ensures WordSum([]) == 0
  {
  }

  lemma MaskEarly(a: nat, b: nat)
    ensures (a % WORD_LIMIT + b) % WORD_LIMIT == (a + b) % WORD_LIMIT
  {
  }

  /** The array writer takes both, but only the first is read as an array of its bytes. */
  datatype Kind = Bytearray | BytesObject

  /**
   * What the array writer returns; `Misaligned` is the exception of viewing odd bytes
   * as words, `Unreadable` that of reading bytes that are taken for one string.
   */
  datatype Checksum = Checksum(value: nat) | Misaligned | Unreadable

  /** The sum that the array writer returns: of all of `data`, whatever part of it was written. */
  function ArraySum(kind: Kind, data: Bytes, getSum: bool): Checksum {
    if !getSum then Checksum(0)
    else if kind == BytesObject then Unreadable
    else if |data| % 4 != 0 then Misaligned
    else Checksum(WordSum(data) % WORD_LIMIT)
  }

  /** The two writers agree on a bytearray written whole, if every chunk read is whole words. */
  lemma {:induction false} WritersAgree(data: Bytes, chunks: seq<Bytes>)
    requires AllAligned(chunks) && Flatten(chunks) == data
    ensures ArraySum(Bytearray, data, true) == Checksum(RunningSum(chunks))
  {
    RunningSumIsOneShot(chunks);
  }

  /** What a byte at this place counts for in the sum of words. */
  function Place(at: nat): nat {
    if at % 4 == 0 then 1 else if at % 4 == 1 then 0x100 else if at % 4 == 2 then 0x1_0000 else 0x100_0000
  }

  /** The sum of the bytes, each for what it counts when the first is at this place. */
  function Placed(data: Bytes, at: nat): (r: nat) {
    if data == [] then 0 else (data[0] as int) * Place(at) + Placed(data[1..], at + 1)
  }

  lemma {:induction false} PlacedAppend(a: Bytes, b: Bytes, at: nat)
    ensures Placed(a + b, at) == Placed(a, at) + Placed(b, at + |a|)
  {
    if a == [] {
      assert a + b == b;
    } else {
      assert (a + b)[1..] == a[1..] + b;
      PlacedAppend(a[1..], b, at + 1);
    }
  }

  lemma {:induction false} WordSumIsPlaced(data: Bytes, at: nat)
    requires |data| % 4 == 0 && at % 4 == 0
    ensures WordSum(data) == Placed(data, at)
  {
    if data != [] {
      var word, rest := data[..4], data[4..];
      assert data == word + rest;
      PlacedAppend(word, rest, at);
      WordSumIsPlaced(rest, at + 4);
      OneWord(word, at);
    }
  }

  lemma {:induction false} OneWord(word: Bytes, at: nat)
    requires |word| == 4 && at % 4 == 0
    ensures Placed(word, at)
            == (word[0] as int) + 0x100 * (word[1] as int) + 0x1_0000 * (word[2] as int) + 0x100_0000 * (word[3] as int)
  {
    assert Place(at) == 1 && Place(at + 1) == 0x100 && Place(at + 2) == 0x1_0000 && Place(at + 3) == 0x100_0000;
    assert word[1..][1..] == word[2..] && word[2..][1..] == word[3..] && word[3..][1..] == [];
    assert Placed(word[3..], at + 3) == (word[3] as int) * 0x100_0000;
    assert Placed(word[2..], at + 2) == (word[2] as int) * 0x1_0000 + Placed(word[3..], at + 3);
    assert Placed(word[1..], at + 1) == (word[1] as int) * 0x100 + Placed(word[2..], at + 2);
  }

  /**
   * For any slice written of whole words of data: the array writer's sum is never
   * that of a slice that is not whole words, and of any other exactly when the
   * bytes that were not written, and the shift of those that were, come to nothing.
   */
  lemma {:induction false} ArraySumIsOfTheSliceIff(data: Bytes, from: nat, to: nat)
    requires from <= to <= |data|
    ensures |data| % 4 != 0 ==> ArraySum(Bytearray, data, true) == Misaligned
    ensures |data| % 4 == 0 && (to - from) % 4 != 0 ==>
      ArraySum(Bytearray, data, true) != ArraySum(Bytearray, data[from..to], true)
    ensures |data| % 4 == 0 && (to - from) % 4 == 0 ==>
      (ArraySum(Bytearray, data, true) == ArraySum(Bytearray, data[from..to], true) <==>
        (Placed(data[..from], 0) + Placed(data[to..], to) + Placed(data[from..to], from) - Placed(data[from..to], 0))
        % WORD_LIMIT == 0)
  {
    hide WordSum, Placed;
    if |data| % 4 == 0 && (to - from) % 4 == 0 {
      var before, middle, after := data[..from], data[from..to], data[to..];
      assert data == before + middle + after;
      WordSumIsPlaced(data, 0);
      WordSumIsPlaced(middle, 0);
      PlacedAppend(before + middle, after, 0);
      PlacedAppend(before, middle, 0);
      assert Placed(data, 0) == Placed(before, 0) + Placed(middle, from) + Placed(after, to);
      SameRemainder(Placed(middle, 0), Placed(data, 0) - Placed(middle, 0));
    }
  }

  lemma SameRemainder(a: nat, b: int)
    requires a + b >= 0
    ensures (a + b) % WORD_LIMIT == a % WORD_LIMIT <==> b % WORD_LIMIT == 0
  {
  }

  /** For a slice of whole words from a word boundary, exactly when the words that were not written come to nothing. */
  lemma ArraySumIsOfTheWordsIff(data: Bytes, from: nat, to: nat)
    requires from <= to <= |data| && |data| % 4 == 0 && from % 4 == 0 && to % 4 == 0
    ensures ArraySum(Bytearray, data, true) == ArraySum(Bytearray, data[from..to], true) <==>
            (WordSum(data[..from]) + WordSum(data[to..])) % WORD_LIMIT == 0
  {
    hide WordSum;
    var before, middle, after := data[..from], data[from..to], data[to..];
    assert data == before + middle + after;
    ThreeParts(before, middle, after);
    SameRemainder(WordSum(middle), WordSum(before) + WordSum(after));
  }

  lemma {:induction false} ThreeParts(a: Bytes, b: Bytes, c: Bytes)
    requires |a| % 4 == 0 && |b| % 4 == 0 && |c| % 4 == 0
    ensures |a + b + c| % 4 == 0 && WordSum(a + b + c) == WordSum(b) + (WordSum(a) + WordSum(c))
  {
    hide WordSum;
    WordSumAppend(a, b);
    WordSumAppend(a + b, c);
  }

  /** Writing the second of two words gives the sum of both. */
  lemma ArraySumOfAPart()
    ensures var data: Bytes := [1, 0, 0, 0, 2, 0, 0, 0];
      ArraySum(Bytearray, data, true) == Checksum(3) && ArraySum(Bytearray, data[4..8], true) == Checksum(2)
  {
    var data: Bytes := [1, 0, 0, 0, 2, 0, 0, 0];
    assert data[4..] == data[4..8] == [2, 0, 0, 0];
    assert data[4..][4..] == [] && data[4..8][4..] == [];
    assert WordSum(data[4..8]) == 2;
    assert WordSum(data) == 1 + WordSum(data[4..]);
  }

  // ---------------------------------------------------------------- writers

  /** The packets of the array writer, whatever the offset. */
  function ArrayWrites(base: int, data: Bytes, from: int, left: int): seq<Write>
    decreases left
  {
    if left <= 0 then []
    else
      var n := Min(left, UDP_MESSAGE_MAX_SIZE);
      [Write(base, Slice(data, from, from + n))] + ArrayWrites(base + n, data, from + n, left - n)
  }

  /** Packets for the rest of a plain slice may follow those for its start. */
  lemma {:induction false} ArrayWritesExtend(writes: seq<Write>, base: int, data: Bytes, start: int, from: int,
                                             left: nat)
    requires start <= from && Plain(data, start, from + left) && Consecutive(writes, base, Slice(data, start, from))
    ensures Consecutive(writes + ArrayWrites(base + (from - start), data, from, left), base,
                        Slice(data, start, from + left))
    decreases left
  {
    hide Consecutive, Slice, Plain;
    if left == 0 {
      assert writes + [] == writes;
    } else {
      var n := Min(left, UDP_MESSAGE_MAX_SIZE);
      var w := Write(base + (from - start), Slice(data, from, from + n));
      var rest := ArrayWrites(base + (from + n - start), data, from + n, left - n);
      SliceIsShort(data, from, n);
      PartIsPlain(data, start, from + n, from + left);
      SliceGrows(data, start, from, from + n);
      ExtendConsecutive(writes, base, Slice(data, start, from), w.address, w.data);
      ArrayWritesExtend(writes + [w], base, data, start, from + n, left - n);
      assert writes + [w] + rest == writes + ([w] + rest);
    }
  }

  /** The packets of a plain slice hold it. */
  lemma {:induction false} ArrayWritesHoldTheSlice(base: int, data: Bytes, from: int, left: int)
    requires Plain(data, from, from + if left < 0 then 0 else left)
    ensures Consecutive(ArrayWrites(base, data, from, left), base,
                        Slice(data, from, from + if left < 0 then 0 else left))
  {
    hide Consecutive, Slice;
    NothingSliced(base, data, from);
    if left >= 0 {
      ArrayWritesExtend([], base, data, from, from, left);
    }
    assert [] + ArrayWrites(base, data, from, left) == ArrayWrites(base, data, from, left);
  }

  lemma {:induction false} EndIsNotReached(base: int, data: Bytes, from: int, left: nat, k: nat)
    requires from + left == 0 < left && k < |ArrayWrites(base, data, from, left)|
    ensures var w := ArrayWrites(base, data, from, left)[k]; w.address + |w.data| < base + left
    decreases left
  {
    hide Slice;
    var n := Min(left, UDP_MESSAGE_MAX_SIZE);
    SliceIsShort(data, from, n);
    if k == 0 {
      SliceToTheStart(data, from);
    } else {
      assert ArrayWrites(base, data, from, left)[k] == ArrayWrites(base + n, data, from + n, left - n)[k - 1];
      EndIsNotReached(base + n, data, from + n, left - n, k - 1);
    }
  }

  lemma SliceToTheStart(data: Bytes, from: int)
    ensures from < 0 ==> Slice(data, from, 0) == []
  {
  }

  /**
   * From an offset that counts from the end, the packets hold the bytes wanted
   * exactly when those stop before the end of the data.
   */
  lemma {:induction false} NegativeOffsetWorksIff(base: int, data: Bytes, from: int, n: nat)
    requires -|data| <= from && 0 < n <= -from
    ensures Consecutive(ArrayWrites(base, data, from, n), base, data[|data| + from..|data| + from + n]) <==>
            from + n < 0
  {
    hide Consecutive;
    var wanted := data[|data| + from..|data| + from + n];
    if from + n < 0 {
      ArrayWritesHoldTheSlice(base, data, from, n);
    } else if Consecutive(ArrayWrites(base, data, from, n), base, wanted) {
      var k := ConsecutiveCovers(ArrayWrites(base, data, from, n), base, wanted, base + n - 1);
      EndIsNotReached(base, data, from, n, k);
    }
  }

  /** From an offset in the data the packets hold the slice; so they do from the end, if they stop before it. */
  method WriteFromBytearray(base: int, kind: Kind, data: Bytes, dataOffset: int, nBytes: int, getSum: bool)
    returns (writes: seq<Write>, sum: Checksum)
    ensures writes == ArrayWrites(base, data, dataOffset, nBytes)
    ensures var end := dataOffset + if nBytes < 0 then 0 else nBytes;
      Plain(data, dataOffset, end) ==> Consecutive(writes, base, Slice(data, dataOffset, end))
    ensures sum == ArraySum(kind, data, getSum)
  {
    hide Consecutive, Slice, Plain, ArrayWrites, ArraySum;
    var offset, from, left := 0, dataOffset, nBytes;
    ghost var end := dataOffset + if nBytes < 0 then 0 else nBytes;
    writes := [];
    while left > 0
      invariant from == dataOffset + offset
      invariant writes + ArrayWrites(base + offset, data, from, left) == ArrayWrites(base, data, dataOffset, nBytes)
    {
      var bytesToSend := Min(left, UDP_MESSAGE_MAX_SIZE);
      var dataArray := Slice(data, from, from + bytesToSend);
      NextArrayWrite(writes, base + offset, data, from, left);
      writes := writes + [Write(base + offset, dataArray)];
      left := left - bytesToSend;
      offset := offset + bytesToSend;
      from := from + bytesToSend;
    }
    NoArrayWrites(writes, base + offset, data, from, left);
    if Plain(data, dataOffset, end) {
      ArrayWritesHoldTheSlice(base, data, dataOffset, nBytes);
    }
    sum := ArraySum(kind, data, getSum);
  }

  lemma NextArrayWrite(writes: seq<Write>, base: int, data: Bytes, from: int, left: int)
    requires left > 0
    ensures var n := Min(left, UDP_MESSAGE_MAX_SIZE);
      writes + [Write(base, Slice(data, from, from + n))] + ArrayWrites(base + n, data, from + n, left - n)
      == writes + ArrayWrites(base, data, from, left)
  {
    hide Slice;
  }

  lemma {:induction false} NoArrayWrites(writes: seq<Write>, base: int, data: Bytes, from: int, left: int)
    requires left <= 0
    ensures writes + ArrayWrites(base, data, from, left) == writes
  {
  }

  lemma {:induction false} NothingSliced(base: int, data: Bytes, from: int)
    ensures Consecutive([], base, Slice(data, from, from))
  {
  }

  lemma PartIsPlain(data: Bytes, from: int, to: int, end: int)
    requires Plain(data, from, end) && to <= end
    ensures Plain(data, from, to)
  {
  }

  /** A packet is no longer than what it was cut for, even when it was cut across the end of the data. */
  lemma SliceIsShort(data: Bytes, from: int, n: nat)
    ensures |Slice(data, from, from + n)| <= n
  {
  }

  /** Writing the last four bytes, from four before the end, sends nothing: the slice runs from there to the start. */
  lemma {:induction false} LastBytesAreNotWritten(base: int, data: Bytes)
    requires |data| >= 4
    ensures ArrayWrites(base, data, -4, 4) == [Write(base, [])]
    ensures Slice(data, |data| - 4, |data|) != []
  {
    assert ArrayWrites(base + 4, data, 0, 0) == [];
  }

  lemma {:induction false} NothingIsConsecutive(base: int, nothing: Bytes)
    requires nothing == []
    ensures Consecutive([], base, nothing)
  {
  }

  datatype Status = Returned | Raised | Starved

  /** A readable: its k-th read returns at most `sizes[k]` bytes, at most those asked, and none past the end. */
  class Reader {
    const content: Bytes
    const sizes: seq<nat>
    var calls: nat
    var position: nat

    ghost predicate Valid()
      reads this
    {
      position <= |content| && calls <= |sizes|
    }

    constructor (content: Bytes, sizes: seq<nat>)
      ensures Valid() && calls == position == 0 && this.content == content && this.sizes == sizes
    {
      this.content, this.sizes, this.calls, this.position := content, sizes, 0, 0;
    }

    method Read(asked: nat) returns (chunk: Bytes)
      requires Valid() && calls < |sizes|
      modifies this
      ensures Valid() && calls == old(calls) + 1
      ensures position == old(position) + |chunk|
      ensures |chunk| == Min(Min(asked, sizes[old(calls)]), |content| - old(position))
      ensures chunk == content[old(position)..position]
    {
      var n := Min(Min(asked, sizes[calls]), |content| - position);
      chunk := content[position..position + n];
      calls, position := calls + 1, position + n;
    }
  }

  // What the reader's loop does follows from how much there is to read, how much is
  // wanted, and how much each read gives.

  /** The size of the next piece read. */
  function Piece(available: nat, left: int, size: nat): nat
    requires left > 0
  {
    Min(Min(Min(left, UDP_MESSAGE_MAX_SIZE), size), available)
  }

  function ReaderStatus(available: nat, left: int, sizes: seq<nat>, withSum: bool): Status
    decreases |sizes|
  {
    if left <= 0 then Returned
    else if sizes == [] then Starved
    else
      var n := Piece(available, left, sizes[0]);
      if withSum && n % 4 != 0 then Raised else ReaderStatus(available - n, left - n, sizes[1..], withSum)
  }

  /** All the pieces of a run that no piece ends early. */
  function Pieces(available: nat, left: int, sizes: seq<nat>): seq<nat>
    decreases |sizes|
  {
    if left <= 0 || sizes == [] then []
    else
      var n := Piece(available, left, sizes[0]);
      [n] + Pieces(available - n, left - n, sizes[1..])
  }

  /** A reader that ends early keeps the writer in its loop, however often it is read. */
  lemma {:induction false} ShortReaderNeverReturns(available: nat, left: int, sizes: seq<nat>, withSum: bool)
    requires available < left
    ensures ReaderStatus(available, left, sizes, withSum) != Returned
    decreases |sizes|
  {
    if sizes != [] {
      var n := Piece(available, left, sizes[0]);
      ShortReaderNeverReturns(available - n, left - n, sizes[1..], withSum);
    }
  }

  /** One that has enough, and gives something on each of enough reads, lets the writer out of its loop. */
  lemma {:induction false} GivingReaderNeverStarves(available: nat, left: int, sizes: seq<nat>, withSum: bool)
    requires left <= available && left <= |sizes| && forall k :: 0 <= k < |sizes| ==> sizes[k] >= 1
    ensures ReaderStatus(available, left, sizes, withSum) != Starved
    decreases |sizes|
  {
    if left > 0 {
      var n := Piece(available, left, sizes[0]);
      GivingReaderNeverStarves(available - n, left - n, sizes[1..], withSum);
    }
  }

  lemma {:induction false} NothingRaisesWithoutSum(available: nat, left: int, sizes: seq<nat>)
    ensures ReaderStatus(available, left, sizes, false) != Raised
    decreases |sizes|
  {
    if left > 0 && sizes != [] {
      var n := Piece(available, left, sizes[0]);
      NothingRaisesWithoutSum(available - n, left - n, sizes[1..]);
    }
  }

  /** Over enough reads that each give something, the writer returns exactly when there is as much as is wanted. */
  lemma {:induction false} WriterReturnsIff(available: nat, left: int, sizes: seq<nat>)
    requires left <= |sizes| && forall k :: 0 <= k < |sizes| ==> sizes[k] >= 1
    ensures ReaderStatus(available, left, sizes, false) == Returned <==> left <= available
  {
    NothingRaisesWithoutSum(available, left, sizes);
    if left <= available {
      GivingReaderNeverStarves(available, left, sizes, false);
    } else {
      ShortReaderNeverReturns(available, left, sizes, false);
    }
  }

  ghost predicate SomeOdd(pieces: seq<nat>) {
    exists k :: 0 <= k < |pieces| && pieces[k] % 4 != 0
  }

  lemma FirstOrRestOdd(n: nat, rest: seq<nat>)
    ensures SomeOdd([n] + rest) <==> n % 4 != 0 || SomeOdd(rest)
  {
    var all := [n] + rest;
    assert all[0] == n;
    if k :| 0 <= k < |rest| && rest[k] % 4 != 0 {
      assert all[k + 1] % 4 != 0;
    }
  }

  /** With a sum, the writer raises exactly when some piece is not whole words. */
  lemma {:induction false} WriterRaisesIff(available: nat, left: int, sizes: seq<nat>)
    ensures ReaderStatus(available, left, sizes, true) == Raised <==> SomeOdd(Pieces(available, left, sizes))
    decreases |sizes|
  {
    hide SomeOdd, Piece;
    if left > 0 && sizes != [] {
      var n := Piece(available, left, sizes[0]);
      PieceIsThere(available, left, sizes[0]);
      FirstOrRestOdd(n, Pieces(available - n, left - n, sizes[1..]));
      WriterRaisesIff(available - n, left - n, sizes[1..]);
    } else {
      NoneOdd();
    }
  }

  lemma NoneOdd()
    ensures !SomeOdd([])
  {
  }

  lemma PieceIsThere(available: nat, left: int, size: nat)
    requires left > 0
    ensures Piece(available, left, size) <= available
  {
  }

  /** What is left after a piece that is all that was asked for: nothing, or as many whole words fewer. */
  lemma PieceDecides(available: nat, left: nat, size: nat)
    requires left > 0 && size >= UDP_MESSAGE_MAX_SIZE
    ensures var n, all := Piece(available, left, size), Min(left, available);
      && n <= available && n <= left && (n == 0 ==> available == 0)
      && Min(left - n, available - n) == all - n
      && (n % 4 != 0 ==> n == all)
      && (n % 4 == 0 ==> (all - n) % 4 == all % 4)
  {
  }

  /** When reads give all that is asked of them, it is the length that decides. */
  lemma {:induction false} WholeReadsRaiseIff(available: nat, left: nat, sizes: seq<nat>)
    requires left <= |sizes| && forall k :: 0 <= k < |sizes| ==> sizes[k] >= UDP_MESSAGE_MAX_SIZE
    ensures ReaderStatus(available, left, sizes, true) == Raised <==> Min(left, available) % 4 != 0
    decreases |sizes|
  {
    hide Piece;
    if left > 0 {
      var n := Piece(available, left, sizes[0]);
      PieceDecides(available, left, sizes[0]);
      if n == 0 {
        NothingToReadNeverRaises(left, sizes);
      } else if n % 4 == 0 {
        assert forall k :: 0 <= k < |sizes[1..]| ==> sizes[1..][k] == sizes[k + 1];
        WholeReadsRaiseIff(available - n, left - n, sizes[1..]);
      }
    }
  }

  lemma {:induction false} NothingToReadNeverRaises(left: int, sizes: seq<nat>)
    ensures ReaderStatus(0, left, sizes, true) != Raised
    decreases |sizes|
  {
    if left > 0 && sizes != [] {
      NothingToReadNeverRaises(left, sizes[1..]);
    }
  }

  /** A concrete short reader: of four bytes wanted there are three, and the writer never returns. */
  method ThreeBytesOfFour(base: int, sizes: seq<nat>) returns (status: Status, writes: seq<Write>)
    ensures status == Starved && |writes| == |sizes|
  {
    var reader := new Reader([1, 2, 3], sizes);
    NothingRaisesWithoutSum(3, 4, sizes);
    assert sizes[0..] == sizes;
    ghost var chunks;
    var sum;
    status, writes, sum, chunks := WriteFromReader(base, reader, 4, false);
  }

  /** Send the next piece read. */
  method SendNext(base: int, reader: Reader, offset: nat, left: int, writes: seq<Write>, ghost chunks: seq<Bytes>,
                  ghost start: nat)
    returns (dataArray: Bytes, sent: seq<Write>)
    requires reader.Valid() && reader.calls < |reader.sizes| && left > 0 && start + offset == reader.position
    requires Written(writes, chunks, base, reader.content, start, reader.position)
    modifies reader
    ensures reader.Valid() && reader.calls == old(reader.calls) + 1
    ensures reader.position == old(reader.position) + |dataArray| && |dataArray| <= left
    ensures |dataArray| == Piece(|reader.content| - old(reader.position), left, reader.sizes[old(reader.calls)])
    ensures sent == writes + [Write(base + offset, dataArray)]
    ensures Written(sent, chunks + [dataArray], base, reader.content, start, reader.position)
  {
    hide Written, Piece, Min;
    PieceIs(|reader.content| - reader.position, left, reader.sizes[reader.calls]);
    ghost var position := reader.position;
    dataArray := reader.Read(Min(left, UDP_MESSAGE_MAX_SIZE));
    PieceWritten(writes, chunks, base, reader.content, start, position, dataArray);
    sent := writes + [Write(base + offset, dataArray)];
  }

  /**
   * Write what the reader gives from where it is. `Starved` means that the reader's answers of this
   * run are used up while bytes are still wanted.
   */
  method WriteFromReader(base: int, reader: Reader, nBytes: int, withSum: bool)
    returns (status: Status, writes: seq<Write>, sum: nat, ghost chunks: seq<Bytes>)
    requires reader.Valid()
    modifies reader
    ensures reader.Valid() && old(reader.position) <= reader.position
    ensures Flatten(chunks) == reader.content[old(reader.position)..reader.position]
    ensures Consecutive(writes, base, reader.content[old(reader.position)..reader.position])
    ensures status == Returned ==>
      var data := reader.content[old(reader.position)..reader.position];
      && |data| == (if nBytes < 0 then 0 else nBytes)
      && (withSum ==> AllAligned(chunks) && |data| % 4 == 0 && sum == WordSum(data) % WORD_LIMIT)
      && (!withSum ==> sum == 0)
    ensures status == Raised ==> withSum && !AllAligned(chunks)
    ensures status ==
      StatusFrom(|reader.content|, old(reader.position), nBytes, reader.sizes, old(reader.calls), withSum)
    ensures |reader.content| - old(reader.position) < nBytes ==> status != Returned
    ensures |reader.content| - old(reader.position) >= nBytes && |reader.sizes| - old(reader.calls) >= nBytes ==>
      (forall k :: old(reader.calls) <= k < |reader.sizes| ==> reader.sizes[k] >= 1) ==> status != Starved
    ensures status == Starved ==>
      reader.position - old(reader.position) < nBytes && |writes| == |reader.sizes| - old(reader.calls)
  {
    hide Written, Summed, WordSum, ReaderStatus, StatusFrom, Piece, Min;
    ghost var ending := StatusFrom(|reader.content|, reader.position, nBytes, reader.sizes, reader.calls, withSum);
    StatusFollows(|reader.content|, reader.position, nBytes, reader.sizes, reader.calls, withSum);
    var offset, left := 0, nBytes;
    sum, writes, chunks := 0, [], [];
    ghost var start := reader.position;
    NothingWritten(base, reader.content, start, withSum);
    while left > 0
      invariant reader.Valid() && start + offset == reader.position && reader.calls == old(reader.calls) + |writes|
      invariant 0 <= offset && if nBytes < 0 then left == nBytes && offset == 0 else 0 <= left == nBytes - offset
      invariant Written(writes, chunks, base, reader.content, start, reader.position) && Summed(chunks, sum, withSum)
      invariant StatusFrom(|reader.content|, reader.position, left, reader.sizes, reader.calls, withSum) == ending
      decreases |reader.sizes| - reader.calls
    {
      OneRead(|reader.content|, reader.position, left, reader.sizes, reader.calls, withSum);
      if reader.calls == |reader.sizes| {
        WrittenFacts(writes, chunks, base, reader.content, start, reader.position, sum, withSum);
        status := Starved;
        return;
      }
      var dataArray;
      dataArray, writes := SendNext(base, reader, offset, left, writes, chunks, start);
      var bytesToSend := |dataArray|;
      PieceSummed(chunks, sum, withSum, dataArray);
      chunks := chunks + [dataArray];

      left := left - bytesToSend;
      offset := offset + bytesToSend;

      if withSum {
        if |dataArray| % 4 != 0 {
          WrittenFacts(writes, chunks, base, reader.content, start, reader.position, sum, withSum);
          status := Raised;
          return;
        }
        sum := (sum + WordSum(dataArray)) % WORD_LIMIT;
      }
    }
    WrittenFacts(writes, chunks, base, reader.content, start, reader.position, sum, withSum);
    Finished(|reader.content|, reader.position, left, reader.sizes, reader.calls, withSum);
    status := Returned;
  }

  /** The packets, and the pieces they carry, hold this part of what can be read. */
  ghost predicate Written(writes: seq<Write>, chunks: seq<Bytes>, base: int, content: Bytes,
                          start: nat, position: nat)
  {
    && start <= position <= |content|
    && Consecutive(writes, base, content[start..position]) && Flatten(chunks) == content[start..position]
  }

  ghost predicate Summed(chunks: seq<Bytes>, sum: nat, withSum: bool) {
    if withSum then AllAligned(chunks) && sum == RunningSum(chunks) else sum == 0
  }

  lemma NothingWritten(base: int, content: Bytes, start: nat, withSum: bool)
    requires start <= |content|
    ensures Written([], [], base, content, start, start) && Summed([], 0, withSum)
  {
  }

  lemma PieceWritten(writes: seq<Write>, chunks: seq<Bytes>, base: int, content: Bytes, start: nat, position: nat,
                     chunk: Bytes)
    requires Written(writes, chunks, base, content, start, position) && |chunk| <= UDP_MESSAGE_MAX_SIZE
    requires position + |chunk| <= |content| && chunk == content[position..position + |chunk|]
    ensures Written(writes + [Write(base + (position - start), chunk)], chunks + [chunk], base, content, start,
                    position + |chunk|)
  {
    hide Consecutive, Flatten;
    TwoPieces(content, start, position, position + |chunk|);
    ExtendConsecutive(writes, base, content[start..position], base + (position - start), chunk);
    AnotherChunk(chunks, chunk);
  }

  lemma {:induction false} PieceSummed(chunks: seq<Bytes>, sum: nat, withSum: bool, chunk: Bytes)
    requires Summed(chunks, sum, withSum)
    ensures !withSum ==> Summed(chunks + [chunk], sum, withSum)
    ensures withSum && |chunk| % 4 == 0 ==> Summed(chunks + [chunk], (sum + WordSum(chunk)) % WORD_LIMIT, withSum)
    ensures |chunk| % 4 != 0 ==> !AllAligned(chunks + [chunk])
  {
    hide AllAligned, RunningSum, WordSum;
    AnotherChunk(chunks, chunk);
  }

  lemma {:induction false} WrittenFacts(writes: seq<Write>, chunks: seq<Bytes>, base: int, content: Bytes,
                                        start: nat, position: nat, sum: nat, withSum: bool)
    requires Written(writes, chunks, base, content, start, position)
    ensures start <= position <= |content| && Flatten(chunks) == content[start..position]
    ensures Consecutive(writes, base, content[start..position])
    ensures Summed(chunks, sum, withSum) ==>
      if withSum then
        var data := content[start..position];
        AllAligned(chunks) && |data| % 4 == 0 && sum == WordSum(data) % WORD_LIMIT
      else sum == 0
  {
    hide Consecutive, RunningSum, WordSum;
    if withSum && Summed(chunks, sum, withSum) {
      RunningSumIsOneShot(chunks);
    }
  }

  /** How the loop ends from here, in the reader's own terms. */
  function StatusFrom(length: nat, position: nat, left: int, sizes: seq<nat>, calls: nat, withSum: bool): Status
    requires position <= length && calls <= |sizes|
  {
    ReaderStatus(length - position, left, sizes[calls..], withSum)
  }

  lemma {:induction false} StatusFollows(length: nat, position: nat, left: int, sizes: seq<nat>, calls: nat,
                                         withSum: bool)
    requires position <= length && calls <= |sizes|
    ensures var status := StatusFrom(length, position, left, sizes, calls, withSum);
      && status == ReaderStatus(length - position, left, sizes[calls..], withSum)
      && (length - position < left ==> status != Returned)
      && (left <= length - position && left <= |sizes| - calls ==>
            (forall k :: calls <= k < |sizes| ==> sizes[k] >= 1) ==> status != Starved)
  {
    hide ReaderStatus;
    if length - position < left {
      ShortReaderNeverReturns(length - position, left, sizes[calls..], withSum);
    } else if left <= |sizes| - calls && forall k :: calls <= k < |sizes| ==> sizes[k] >= 1 {
      GivingReaderNeverStarves(length - position, left, sizes[calls..], withSum);
    }
  }

  lemma {:induction false} OneRead(length: nat, position: nat, left: int, sizes: seq<nat>, calls: nat, withSum: bool)
    requires position <= length && calls <= |sizes| && left > 0
    ensures StatusFrom(length, position, left, sizes, calls, withSum) ==
      if calls == |sizes| then Starved
      else
        var n := Piece(length - position, left, sizes[calls]);
        if withSum && n % 4 != 0 then Raised
        else StatusFrom(length, position + n, left - n, sizes, calls + 1, withSum)
  {
    assert calls < |sizes| ==> sizes[calls..][1..] == sizes[calls + 1..];
  }

  lemma {:induction false} Finished(length: nat, position: nat, left: int, sizes: seq<nat>, calls: nat, withSum: bool)
    requires position <= length && calls <= |sizes| && left <= 0
    ensures StatusFrom(length, position, left, sizes, calls, withSum) == Returned
  {
  }

  lemma TwoPieces(data: Bytes, a: nat, b: nat, c: nat)
    requires a <= b <= c <= |data|
    ensures data[a..b] + data[b..c] == data[a..c]
  {
  }

  lemma PieceIs(available: nat, left: int, size: nat)
    requires left > 0
    ensures Piece(available, left, size) == Min(Min(Min(left, UDP_MESSAGE_MAX_SIZE), size), available)
    ensures Piece(available, left, size) <= left && Piece(available, left, size) <= UDP_MESSAGE_MAX_SIZE
    ensures Min(left, UDP_MESSAGE_MAX_SIZE) >= 0
  {
  }

  lemma {:induction false} AnotherChunk(chunks: seq<Bytes>, chunk: Bytes)
    ensures Flatten(chunks + [chunk]) == Flatten(chunks) + chunk
    ensures AllAligned(chunks) && |chunk| % 4 == 0 ==>
      && AllAligned(chunks + [chunk])
      && RunningSum(chunks + [chunk]) == (RunningSum(chunks) + WordSum(chunk)) % WORD_LIMIT
    ensures |chunk| % 4 != 0 ==> !AllAligned(chunks + [chunk])
  {
    var all := chunks + [chunk];
    assert all[..|all| - 1] == chunks && all[|chunks|] == chunk;
    if AllAligned(chunks) && |chunk| % 4 == 0 {
      assert forall i :: 0 <= i < |all| ==> |all[i]| % 4 == 0;
    }
  }

  // ---------------------------------------------------------------- reading

  datatype ReadRequest = ReadRequest(address: int, size: nat, offset: nat)

  /** Byte `j` of the view is still to be filled by an unanswered request. */
  ghost predicate Awaited(outstanding: seq<ReadRequest>, j: int) {
    exists i :: 0 <= i < |outstanding| && outstanding[i].offset <= j < outstanding[i].offset + outstanding[i].size
  }

  class ReadMemoryProcess {
    var view: array<Byte>
    var outstanding: seq<ReadRequest>  // sent and not yet answered

    constructor ()
      ensures fresh(view) && view.Length == 0 && outstanding == []
    {
      view := new Byte[0];
      outstanding := [];
    }

    /** The requests fit the view, and each byte up to `sent` is right or awaited. */
    ghost predicate Filling(mem: Memory, base: int, sent: nat)
      reads this, view
    {
      && sent <= view.Length
      && (forall i :: 0 <= i < |outstanding| ==>
            && outstanding[i].offset + outstanding[i].size <= view.Length
            && outstanding[i].address == base + outstanding[i].offset && outstanding[i].size <= UDP_MESSAGE_MAX_SIZE)
      && forall j :: 0 <= j < sent ==> view[j] == mem(base + j) || Awaited(outstanding, j)
    }

    method HandleResponse(offset: nat, data: Bytes)
      requires offset + |data| <= view.Length
      modifies view
      ensures view[..] == old(view[..offset]) + data + old(view[offset + |data|..])
    {
      forall i | 0 <= i < |data| {
        view[offset + i] := data[i];
      }
    }

    /** The pipelines receive the response to any one of the outstanding requests. */
    method HandleSomeResponse(mem: Memory, i: nat, ghost base: int, ghost sent: nat)
      requires i < |outstanding| && Filling(mem, base, sent)
      modifies this`outstanding, view
      ensures Filling(mem, base, sent) && |outstanding| == old(|outstanding|) - 1
    {
      var request := outstanding[i];
      ghost var was, bytes := outstanding, view[..];
      outstanding := outstanding[..i] + outstanding[i + 1..];
      var data := Fetch(mem, request.address, request.size);
      HandleResponse(request.offset, data);
      forall j | 0 <= j < sent ensures view[j] == mem(base + j) || Awaited(outstanding, j) {
        var o := request.offset;
        assert view[..][j] == if j < o then bytes[j] else if j < o + |data| then data[j - o] else bytes[j];
        if !(o <= j < o + request.size) && Awaited(was, j) {
          var k :| 0 <= k < |was| && was[k].offset <= j < was[k].offset + was[k].size;
          assert outstanding[if k < i then k else k - 1] == was[k];
        }
      }
    }

    /** Responses are handled in any order, some while requests are still being sent. */
    method ReadMemory(mem: Memory, base: int, length: nat, order: nat -> nat, eager: nat -> bool)
      returns (data: array<Byte>)
      requires outstanding == []
      modifies this
      ensures fresh(data) && data[..] == Fetch(mem, base, length) && outstanding == []
    {
      data := new Byte[length];
      view := data;
      var nBytes, offset, turn := length, 0, 0;
      while nBytes > 0
        invariant 0 <= nBytes && offset + nBytes == length == view.Length
        invariant view == data && fresh(data) && Filling(mem, base, offset)
      {
        var bytesToGet := Min(nBytes, UDP_MESSAGE_MAX_SIZE);
        Send(mem, base, offset, bytesToGet);
        nBytes := nBytes - bytesToGet;
        offset := offset + bytesToGet;
        while |outstanding| > 0 && eager(turn)
          invariant view == data && fresh(data) && Filling(mem, base, offset)
          decreases |outstanding|
        {
          HandleSomeResponse(mem, order(turn) % |outstanding|, base, offset);
          turn := turn + 1;
        }
        turn := turn + 1;
      }
      while |outstanding| > 0
        invariant view == data && fresh(data) && Filling(mem, base, length)
      {
        HandleSomeResponse(mem, order(turn) % |outstanding|, base, length);
        turn := turn + 1;
      }
    }

    method Send(ghost mem: Memory, base: int, offset: nat, size: nat)
      requires Filling(mem, base, offset) && offset + size <= view.Length && size <= UDP_MESSAGE_MAX_SIZE
      modifies this`outstanding
      ensures Filling(mem, base, offset + size)
      ensures outstanding == old(outstanding) + [ReadRequest(base + offset, size, offset)]
    {
      ghost var was := outstanding;
      outstanding := outstanding + [ReadRequest(base + offset, size, offset)];
      forall j | 0 <= j < offset + size ensures view[j] == mem(base + j) || Awaited(outstanding, j) {
        if j >= offset {
          assert outstanding[|was|].offset <= j;
        } else if Awaited(was, j) {
          var k :| 0 <= k < |was| && was[k].offset <= j < was[k].offset + was[k].size;
          assert outstanding[k] == was[k];
        }
      }
    }
  }
}
