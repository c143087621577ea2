/**
 * Reading the IOBUF of many cores: linked lists of memory blocks are followed
 * and their payloads reassembled from responses that arrive in any order.
 */
module ReadIobuf {
  import opened Common

  const CPU_INFO_OFFSET := 0xe5007000
  const CPU_INFO_BYTES := 128
  const CPU_IOBUF_ADDRESS_OFFSET := 88

  datatype Core = Core(x: nat, y: nat, p: nat)

  /** What each chip's memory holds. */
  type Memory = (nat, nat, nat) -> Byte

  function Read(mem: Memory, c: Core, address: nat, size: nat): (r: Bytes)
    ensures |r| == size
  {
    seq<Byte>(size, i requires 0 <= i < size => mem(c.x, c.y, address + i))
  }

  /** A little-endian word. */
  function Word(data: Bytes, offset: nat): nat
    requires offset + 4 <= |data|
  {
    data[offset] as int + 0x100 * (data[offset + 1] as int) + 0x1_0000 * (data[offset + 2] as int)
    + 0x100_0000 * (data[offset + 3] as int)
  }

  /** The bytes of a word in memory, its lowest first. */
  function BytesOf(n: nat): Bytes
    requires n < 0x1_0000_0000
  {
    [n % 256, n / 256 % 256, n / 65536 % 256, n / 16777216]
  }

  /** Every number is made of its bytes, and of no other four bytes. */
  lemma FourBytes(a: int, b: int, c: int, d: int, n: nat)
    requires 0 <= a < 256 && 0 <= b < 256 && 0 <= c < 256 && 0 <= d < 256
    ensures a + 0x100 * b + 0x1_0000 * c + 0x100_0000 * d == n <==>
            a == n % 256 && b == n / 256 % 256 && c == n / 65536 % 256 && d == n / 16777216
  {
    assert n / 65536 == n / 256 / 256 && n / 16777216 == n / 256 / 256 / 256;
    if a + 0x100 * b + 0x1_0000 * c + 0x100_0000 * d == n {
      assert n / 256 == b + 256 * c + 65536 * d;
      assert n / 256 / 256 == c + 256 * d;
    }
  }

  /** A word is read as `n` exactly where the bytes of `n` are. */
  lemma WordIsLittleEndian(data: Bytes, offset: nat, n: nat)
    requires offset + 4 <= |data| && n < 0x1_0000_0000
    ensures Word(data, offset) == n <==> data[offset..offset + 4] == BytesOf(n)
  {
    var w := data[offset..offset + 4];
    FourBytes(w[0], w[1], w[2], w[3], n);
    assert w == [w[0], w[1], w[2], w[3]];
  }

  function PointerAddress(c: Core): nat {
    CPU_INFO_OFFSET + CPU_INFO_BYTES * c.p + CPU_IOBUF_ADDRESS_OFFSET
  }

  // ---------------------------------------------------------------- the reader's records

  datatype Tail = Tail(core: Core, n: nat, address: nat, size: nat, offset: nat)

  datatype Region = Region(core: Core, n: nat, address: nat, firstReadSize: nat) {
    function NextAt(next: nat): Region {
      Region(core, n + 1, next, firstReadSize)
    }
    function TailAt(base: nat, size: nat, offset: nat): Tail {
      Tail(core, n, base, size, offset)
    }
  }

  datatype Request =
    | AddressRead(core: Core, iobufSize: nat)
    | FirstRead(region: Region)
    | TailRead(tail: Tail)

  /** A dictionary of buffers by block number, in insertion order. */
  type Buffers = seq<(nat, Bytes)>

  datatype State = State(
    extra: seq<Tail>, next: seq<Region>, outstanding: seq<Request>, iobuf: map<Core, Buffers>)

  function BuffersOf(s: State, c: Core): Buffers {
    if c in s.iobuf then s.iobuf[c] else []
  }

  function Put(d: Buffers, n: nat, data: Bytes): Buffers {
    if d == [] then [(n, data)]
    else if d[0].0 == n then [(n, data)] + d[1..]
    else [d[0]] + Put(d[1..], n, data)
  }

  /** Overwrite part of a buffer; a write that does not fit its view changes nothing. */
  function Patch(d: Buffers, n: nat, offset: nat, data: Bytes): Buffers {
    if d == [] then []
    else if d[0].0 == n then
      var b := d[0].1;
      [(n, if offset + |data| <= |b| then b[..offset] + data + b[offset + |data|..] else b)] + d[1..]
    else [d[0]] + Patch(d[1..], n, offset, data)
  }

  // ---------------------------------------------------------------- responses

  /** The reads that are still needed for a block after its first `offset` bytes. */
  function Tails(region: Region, address: nat, remaining: nat, offset: nat): seq<Tail>
    decreases remaining
  {
    if remaining == 0 then []
    else
      var k := Min(remaining, UDP_MESSAGE_MAX_SIZE);
      [region.TailAt(address, k, offset)] + Tails(region, address + k, remaining - k, offset + k)
  }

  function HandleAddress(s: State, c: Core, iobufSize: nat, data: Bytes): State
    requires |data| == 4
  {
    var address := Word(data, 0);
    if address == 0 then s
    else s.(next := s.next + [Region(c, 0, address, Min(iobufSize + 16, UDP_MESSAGE_MAX_SIZE))])
  }

  function Zeros(n: nat): Bytes {
    seq(n, i => 0)
  }

  function HandleFirst(s: State, r: Region, data: Bytes): State
    requires 16 <= |data|
  {
    var nextAddress, bytesToRead := Word(data, 0), Word(data, 12);
    var packet := Min(|data| - 16, bytesToRead);
    var buffer := data[16..16 + packet] + Zeros(bytesToRead - packet);
    s.(iobuf := s.iobuf[r.core := Put(BuffersOf(s, r.core), r.n, buffer)],
       extra := s.extra + Tails(r, r.address + packet + 16, bytesToRead - packet, packet),
       next := if nextAddress == 0 then s.next else s.next + [r.NextAt(nextAddress)])
  }

  function HandleTail(s: State, t: Tail, data: Bytes): State {
    s.(iobuf := s.iobuf[t.core := Patch(BuffersOf(s, t.core), t.n, t.offset, data)])
  }

  /** The response to outstanding request `i` arrives. */
  function Deliver(s: State, mem: Memory, i: nat): State
    requires i < |s.outstanding| && RequestOk(s.outstanding[i])
  {
    var s' := s.(outstanding := s.outstanding[..i] + s.outstanding[i + 1..]);
    match s.outstanding[i]
    case AddressRead(c, iobufSize) => HandleAddress(s', c, iobufSize, Read(mem, c, PointerAddress(c), 4))
    case FirstRead(r) => HandleFirst(s', r, Read(mem, r.core, r.address, r.firstReadSize))
    case TailRead(t) => HandleTail(s', t, Read(mem, t.core, t.address, t.size))
  }

  predicate RequestOk(r: Request) {
    r.FirstRead? ==> 16 <= r.region.firstReadSize
  }

  function IssueTail(s: State): State
    requires s.extra != []
  {
    s.(extra := s.extra[..|s.extra| - 1], outstanding := s.outstanding + [TailRead(s.extra[|s.extra| - 1])])
  }

  function IssueNext(s: State): State
    requires s.next != []
  {
    s.(next := s.next[..|s.next| - 1], outstanding := s.outstanding + [FirstRead(s.next[|s.next| - 1])])
  }

  function Ask(s: State, c: Core, iobufSize: nat): State {
    s.(outstanding := s.outstanding + [AddressRead(c, iobufSize)])
  }

  // ---------------------------------------------------------------- what is in memory

  datatype Block = Block(address: nat, payload: Bytes)

  /** From `address` on, memory holds this finite list of blocks. */
  ghost predicate Chain(mem: Memory, c: Core, address: nat, blocks: seq<Block>)
    decreases |blocks|
  {
    if blocks == [] then address == 0
    else
      && address == blocks[0].address != 0
      && |blocks[0].payload| == Word(Read(mem, c, address, 16), 12)
      && blocks[0].payload == Read(mem, c, address + 16, |blocks[0].payload|)
      && Chain(mem, c, Word(Read(mem, c, address, 16), 0), blocks[1..])
  }

  type Chains = map<Core, seq<Block>>

  ghost predicate ChainsOk(mem: Memory, chains: Chains) {
    forall c :: c in chains ==> Chain(mem, c, Word(Read(mem, c, PointerAddress(c), 4), 0), chains[c])
  }

  function Text(blocks: seq<Block>): Bytes {
    if blocks == [] then [] else blocks[0].payload + Text(blocks[1..])
  }

  /** What can be decoded; the strict ASCII of the source raises on anything else. */
  predicate Ascii(data: Bytes) {
    forall i :: 0 <= i < |data| ==> data[i] < 128
  }

  function Decoded(data: Bytes): (r: string)
    requires Ascii(data)
    ensures |r| == |data|
  {
    seq(|data|, i requires 0 <= i < |data| => data[i] as char)
  }

  /** What the header and the payload of block `n` are in memory. */
  lemma {:induction false} ChainAt(mem: Memory, c: Core, address: nat, blocks: seq<Block>, n: nat)
    requires Chain(mem, c, address, blocks) && n < |blocks|
    ensures var b := blocks[n];
      && b.address != 0
      && |b.payload| == Word(Read(mem, c, b.address, 16), 12)
      && b.payload == Read(mem, c, b.address + 16, |b.payload|)
      && Word(Read(mem, c, b.address, 16), 0) == (if n + 1 < |blocks| then blocks[n + 1].address else 0)
      && (n + 1 < |blocks| ==> blocks[n + 1].address != 0)
    decreases n
  {
    if n == 0 {
      var next := Word(Read(mem, c, address, 16), 0);
      assert Chain(mem, c, next, blocks[1..]);
      assert |blocks| > 1 ==> blocks[1..][0] == blocks[1];
    } else {
      ChainAt(mem, c, Word(Read(mem, c, address, 16), 0), blocks[1..], n - 1);
    }
  }
}
