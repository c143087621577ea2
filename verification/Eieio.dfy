/** The EIEIO packet format: data headers, key and payload elements, and command headers. */
module Eieio {
  import opened Common

  datatype Error = InvalidParameter | InvalidPacket | StructError
  datatype Result<+T> = Ok(value: T) | Err(error: Error)

  // ---------------------------------------------------------------- bits and bytes

  /** Bitwise or, on integers of any size and either sign; all bits of -1 are set. */
  function BitOr(a: int, b: int): (r: int)
    ensures r >= 0 <==> a >= 0 && b >= 0
    decreases if a < 0 then -a else a
  {
    if a == 0 then b
    else if b == 0 then a
    else if a == -1 || b == -1 then -1
    else 2 * BitOr(a / 2, b / 2) + (if a % 2 == 1 || b % 2 == 1 then 1 else 0)
  }

  function Pow2(k: nat): (r: nat)
    ensures 0 < r
  {
    if k == 0 then 1 else 2 * Pow2(k - 1)
  }

  /** Or-ing in bits below the lowest bit of a number is adding them. */
  lemma {:induction false} BitOrIsSum(q: nat, b: nat, k: nat)
    requires b < Pow2(k)
    ensures BitOr(Pow2(k) * q, b) == Pow2(k) * q + b
  {
    hide BitOr;
    if q == 0 {
      BitOrZero(b);
    } else if b == 0 {
      ZeroBitOr(Pow2(k) * q);
    } else {
      var part := Pow2(k - 1) * q;
      TwiceTimes(Pow2(k - 1), q);
      BitOrEven(part, b);
      BitOrIsSum(q, b / 2, k - 1);
    }
  }

  lemma TwiceTimes(m: nat, q: nat)
    ensures (2 * m) * q == 2 * (m * q) && 0 <= m * q
  {
  }

  lemma {:induction false} BitOrEven(a: nat, b: nat)
    ensures BitOr(2 * a, b) == 2 * BitOr(a, b / 2) + b % 2
  {
  }

  lemma {:induction false} ZeroBitOr(a: int)
    ensures BitOr(a, 0) == a
  {
  }

  lemma {:induction false} BitOrZero(b: int)
    ensures BitOr(0, b) == b
  {
  }

  lemma Powers()
    ensures Pow2(2) == 4 && Pow2(4) == 16 && Pow2(5) == 32 && Pow2(6) == 64 && Pow2(7) == 128
    ensures Pow2(14) == 0x4000 && Pow2(16) == 0x1_0000
  {
    assert Pow2(4) == 16;
    assert Pow2(7) == 8 * Pow2(4);
    assert Pow2(10) == 8 * Pow2(7);
    assert Pow2(13) == 8 * Pow2(10);
    assert Pow2(16) == 8 * Pow2(13);
  }

  function U16(n: nat): (r: Bytes)
    requires n < 0x1_0000
    ensures |r| == 2 && Read16(r, 0) == n
  {
    [n % 256, n / 256]
  }

  function U32(n: nat): (r: Bytes)
    requires n < 0x1_0000_0000
    ensures |r| == 4 && Read32(r, 0) == n
  {
    U16(n % 0x1_0000) + U16(n / 0x1_0000)
  }

  function Read16(data: Bytes, at: nat): (r: nat)
    requires at + 2 <= |data|
    ensures r < 0x1_0000
  {
    data[at] as int + 0x100 * (data[at + 1] as int)
  }

  function Read32(data: Bytes, at: nat): (r: nat)
    requires at + 4 <= |data|
    ensures r < 0x1_0000_0000
  {
    Read16(data, at) + 0x1_0000 * Read16(data, at + 2)
  }

  lemma WriteWhatWasRead(data: Bytes, at: nat)
    ensures at + 2 <= |data| ==> U16(Read16(data, at)) == data[at..at + 2]
    ensures at + 4 <= |data| ==> U32(Read32(data, at)) == data[at..at + 4]
  {
    if at + 2 <= |data| {
      WriteTwoBytes(data, at);
    }
    if at + 4 <= |data| {
      hide U16, Read16;
      WriteTwoBytes(data, at + 2);
      HalvesOf(Read16(data, at), Read16(data, at + 2));
      assert data[at..at + 4] == data[at..at + 2] + data[at + 2..at + 4];
    }
  }

  lemma WriteTwoBytes(data: Bytes, at: nat)
    requires at + 2 <= |data|
    ensures U16(Read16(data, at)) == data[at..at + 2]
  {
    var low, high := data[at] as int, data[at + 1] as int;
    assert (low + 0x100 * high) / 0x100 == high;
  }

  lemma HalvesOf(low: nat, high: nat)
    requires low < 0x1_0000
    ensures (low + 0x1_0000 * high) % 0x1_0000 == low && (low + 0x1_0000 * high) / 0x1_0000 == high
  {
  }

  /** `struct.pack` of one field of 2 or 4 bytes, which raises when the value does not fit. */
  function Pack(bytes: nat, n: int): (r: Result<Bytes>)
    requires bytes == 2 || bytes == 4
    ensures r.Ok? ==> |r.value| == bytes
  {
    if bytes == 2 then if 0 <= n < 0x1_0000 then Ok(U16(n)) else Err(StructError)
    else if 0 <= n < 0x1_0000_0000 then Ok(U32(n)) else Err(StructError)
  }

  function Unpack(bytes: nat, data: Bytes, at: nat): (r: Result<nat>)
    requires bytes == 2 || bytes == 4
    ensures r.Ok? <==> at + bytes <= |data|
    ensures r.Ok? ==> Pack(bytes, r.value).Ok?
  {
    if at + bytes > |data| then Err(StructError)
    else Ok(if bytes == 2 then Read16(data, at) else Read32(data, at))
  }

  /** Packing and unpacking are inverse to each other wherever either is defined. */
  lemma PackUnpack(bytes: nat, n: int, before: Bytes, after: Bytes)
    requires (bytes == 2 || bytes == 4) && Pack(bytes, n).Ok?
    ensures Unpack(bytes, before + Pack(bytes, n).value + after, |before|) == Ok(n)
  {
    var field := Pack(bytes, n).value;
    var data := before + field + after;
    assert forall i :: 0 <= i < bytes ==> data[|before| + i] == field[i];
  }

  lemma UnpackPack(bytes: nat, data: Bytes, at: nat)
    requires (bytes == 2 || bytes == 4) && at + bytes <= |data|
    ensures Pack(bytes, Unpack(bytes, data, at).value) == Ok(data[at..at + bytes])
  {
    WriteWhatWasRead(data, at);
  }

  // ---------------------------------------------------------------- headers

  datatype EieioType = Key16 | KeyPayload16 | Key32 | KeyPayload32 {
    function EncodedValue(): nat {
      match this case Key16 => 0 case KeyPayload16 => 1 case Key32 => 2 case KeyPayload32 => 3
    }
    function KeyBytes(): nat { if Key16? || KeyPayload16? then 2 else 4 }
    function PayloadBytes(): nat {
      match this case KeyPayload16 => 2 case KeyPayload32 => 4 case _ => 0
    }
    function MaxValue(): nat { if KeyBytes() == 2 then 0xffff else 0xffff_ffff }
  }

  datatype Prefix = LowerHalfWord | UpperHalfWord

  datatype Header = Header(eieioType: EieioType, tag: int, prefix: Option<int>, prefixType: Prefix,
                           payloadBase: Option<int>, isTime: bool, count: int)
  {
    /** The tag fits its two bits, and a header without a prefix has the default prefix type. */
    predicate WellFormed() {
      0 <= tag < 4 && (prefix.None? ==> prefixType == LowerHalfWord)
    }

    function Size(): nat {
      2 + (if prefix.Some? then 2 else 0) + (if payloadBase.Some? then eieioType.KeyBytes() else 0)
    }
  }

  function Flags(h: Header): int {
    var data := if h.prefix.Some? then BitOr(BitOr(0, 128), if h.prefixType.UpperHalfWord? then 64 else 0) else 0;
    var data := if h.payloadBase.Some? then BitOr(data, 32) else data;
    var data := if h.isTime then BitOr(data, 16) else data;
    BitOr(BitOr(data, h.eieioType.EncodedValue() * 4), h.tag)
  }

  function PackOption(bytes: nat, field: Option<int>): (r: Result<Bytes>)
    requires bytes == 2 || bytes == 4
    ensures r.Ok? ==> |r.value| == if field.Some? then bytes else 0
  {
    if field.None? then Ok([]) else Pack(bytes, field.value)
  }

  function EncodeHeader(h: Header): (r: Result<Bytes>)
    ensures r.Ok? ==> |r.value| == h.Size()
  {
    // a negative tag makes all of the flags negative
    if !(0 <= Flags(h) < 256) || !(0 <= h.count < 256) then Err(StructError)
    else
      var prefix := PackOption(2, h.prefix);
      var base := PackOption(h.eieioType.KeyBytes(), h.payloadBase);
      if prefix.Err? || base.Err? then Err(StructError)
      else Ok([h.count, Flags(h)] + prefix.value + base.value)
  }

  function TypeOf(bits: nat): EieioType {
    if bits == 0 then Key16 else if bits == 1 then KeyPayload16 else if bits == 2 then Key32 else KeyPayload32
  }

  function UnpackOption(present: bool, bytes: nat, data: Bytes, at: nat): (r: Result<Option<int>>)
    requires bytes == 2 || bytes == 4
    ensures r.Ok? ==> r.value.Some? == present
  {
    if !present then Ok(None)
    else
      var r := Unpack(bytes, data, at);
      if r.Ok? then Ok(Some(r.value)) else Err(r.error)
  }

  function DecodeHeader(data: Bytes, offset: nat): Result<Header> {
    if offset + 2 > |data| then Err(StructError)
    else
      var count, flags := data[offset], data[offset + 1];
      var prefixFlag, formatFlag, payloadFlag := flags / 128 % 2 == 1, flags / 64 % 2 == 1, flags / 32 % 2 == 1;
      if !prefixFlag && formatFlag then Err(InvalidPacket)
      else
        var eieioType := TypeOf(flags / 4 % 4);
        var prefix := UnpackOption(prefixFlag, 2, data, offset + 2);
        var base := UnpackOption(payloadFlag, eieioType.KeyBytes(), data, offset + (if prefixFlag then 4 else 2));
        if prefix.Err? || base.Err? then Err(StructError)
        else
          Ok(Header(eieioType, flags % 4, prefix.value, if formatFlag then UpperHalfWord else LowerHalfWord,
                    base.value, flags / 16 % 2 == 1, count))
  }

  /** The flags of a header with a two-bit tag never overlap. */
  lemma FlagsAreFields(h: Header)
    requires 0 <= h.tag < 4
    ensures Flags(h) ==
      (if h.prefix.Some? then if h.prefixType.UpperHalfWord? then 192 else 128 else 0)
      + (if h.payloadBase.Some? then 32 else 0) + (if h.isTime then 16 else 0)
      + h.eieioType.EncodedValue() * 4 + h.tag
  {
    hide BitOr;
    var prefix := if h.prefix.None? then 0 else if h.prefixType.UpperHalfWord? then 3 else 2;
    PrefixBits(h.prefixType.UpperHalfWord?);
    OrFive(prefix);
    var base := 2 * prefix + if h.payloadBase.Some? then 1 else 0;
    OrFour(base);
    var time := 2 * base + if h.isTime then 1 else 0;
    OrTwo(time, h.eieioType.EncodedValue());
    OrNone(4 * time + h.eieioType.EncodedValue(), h.tag);
  }

  // Or-ing a field in at its place: each is below the lowest bit so far.

  lemma PrefixBits(upper: bool)
    ensures BitOr(BitOr(0, 128), if upper then 64 else 0) == if upper then 192 else 128
  {
    hide BitOr;
    Powers();
    BitOrZero(128);
    BitOrIsSum(1, if upper then 64 else 0, 7);
  }

  lemma {:induction false} OrFive(q: nat)
    ensures BitOr(64 * q, 32) == 64 * q + 32
  {
    hide BitOr;
    Powers();
    BitOrIsSum(q, 32, 6);
  }

  lemma {:induction false} OrFour(q: nat)
    ensures BitOr(32 * q, 16) == 32 * q + 16
  {
    hide BitOr;
    Powers();
    BitOrIsSum(q, 16, 5);
  }

  lemma {:induction false} OrTwo(q: nat, b: nat)
    requires b < 4
    ensures BitOr(16 * q, b * 4) == 16 * q + b * 4
  {
    hide BitOr;
    Powers();
    BitOrIsSum(q, b * 4, 4);
  }

  lemma {:induction false} OrNone(q: nat, b: nat)
    requires b < 4
    ensures BitOr(4 * q, b) == 4 * q + b
  {
    hide BitOr;
    Powers();
    BitOrIsSum(q, b, 2);
  }

  lemma OptionComesBack(bytes: nat, field: Option<int>, before: Bytes, after: Bytes)
    requires (bytes == 2 || bytes == 4) && PackOption(bytes, field).Ok?
    ensures UnpackOption(field.Some?, bytes, before + PackOption(bytes, field).value + after, |before|) == Ok(field)
  {
    if field.Some? {
      PackUnpack(bytes, field.value, before, after);
    }
  }

  lemma OptionGoesBack(present: bool, bytes: nat, data: Bytes, at: nat)
    requires (bytes == 2 || bytes == 4) && UnpackOption(present, bytes, data, at).Ok? && at <= |data|
    ensures var field := UnpackOption(present, bytes, data, at).value;
      (present ==> at + bytes <= |data|)
      && PackOption(bytes, field) == Ok(data[at..at + if present then bytes else 0])
  {
    if present {
      UnpackPack(bytes, data, at);
    } else {
      assert data[at..at] == [];
    }
  }

  lemma FlagsAreBits(f: nat)
    requires f < 256
    ensures f == 128 * (f / 128 % 2) + 64 * (f / 64 % 2) + 32 * (f / 32 % 2)
                 + 16 * (f / 16 % 2) + 4 * (f / 4 % 4) + f % 4
  {
    var g := f / 16;
    HighBits(g);
    assert f / 128 == g / 8 && f / 64 == g / 4 && f / 32 == g / 2;
    assert f / 4 == 4 * g + f / 4 % 4;
  }

  lemma HighBits(g: nat)
    requires g < 16
    ensures g == 8 * (g / 8 % 2) + 4 * (g / 4 % 2) + 2 * (g / 2 % 2) + g % 2
  {
    var h := g / 4;
    assert g / 8 == h / 2;
    assert g / 2 == 2 * h + g / 2 % 2;
  }

  /** The fields of a sum of flags, type and tag. */
  lemma SumHasFields(prefix: nat, upper: nat, base: nat, time: nat, kind: nat, tag: nat)
    requires prefix < 2 && upper < 2 && base < 2 && time < 2 && kind < 4 && tag < 4
    ensures var f := 128 * prefix + 64 * upper + 32 * base + 16 * time + 4 * kind + tag;
      && f / 128 % 2 == prefix && f / 64 % 2 == upper && f / 32 % 2 == base && f / 16 % 2 == time
      && f / 4 % 4 == kind && f % 4 == tag
  {
    var f := 128 * prefix + 64 * upper + 32 * base + 16 * time + 4 * kind + tag;
    assert f / 128 == prefix;
    assert f / 64 == 2 * prefix + upper;
    assert f / 32 == 4 * prefix + 2 * upper + base;
    assert f / 16 == 8 * prefix + 4 * upper + 2 * base + time;
    assert f / 4 == 4 * (8 * prefix + 4 * upper + 2 * base + time) + kind;
  }

  /** Each field can be read off the flags. */
  lemma FieldsOfFlags(h: Header)
    requires 0 <= h.tag < 4
    ensures var f := Flags(h);
      && (f / 128 % 2 == 1 <==> h.prefix.Some?)
      && (f / 64 % 2 == 1 <==> h.prefix.Some? && h.prefixType.UpperHalfWord?)
      && (f / 32 % 2 == 1 <==> h.payloadBase.Some?)
      && (f / 16 % 2 == 1 <==> h.isTime)
      && TypeOf(f / 4 % 4) == h.eieioType && f % 4 == h.tag
  {
    hide BitOr, Flags;
    FlagsAreFields(h);
    SumHasFields(if h.prefix.Some? then 1 else 0, if h.prefix.Some? && h.prefixType.UpperHalfWord? then 1 else 0,
                 if h.payloadBase.Some? then 1 else 0, if h.isTime then 1 else 0, h.eieioType.EncodedValue(), h.tag);
  }

  lemma HeaderComesBack(h: Header, before: Bytes, after: Bytes)
    requires EncodeHeader(h).Ok? && h.WellFormed()
    ensures DecodeHeader(before + EncodeHeader(h).value + after, |before|) == Ok(h)
  {
    hide BitOr, Flags, PackOption, UnpackOption, EieioType.EncodedValue, TypeOf;
    FieldsOfFlags(h);
    var prefix, base := PackOption(2, h.prefix).value, PackOption(h.eieioType.KeyBytes(), h.payloadBase).value;
    var start: Bytes := [h.count, Flags(h)];
    var data := before + EncodeHeader(h).value + after;
    assert data == before + start + prefix + base + after;
    assert data == (before + start) + prefix + (base + after);
    assert data == (before + start + prefix) + base + after;
    OptionComesBack(2, h.prefix, before + start, base + after);
    OptionComesBack(h.eieioType.KeyBytes(), h.payloadBase, before + start + prefix, after);
    assert data[|before|] == start[0] && data[|before| + 1] == start[1];
  }

  /** A header that can be encoded comes back from its bytes exactly when it is well formed. */
  lemma HeaderComesBackIff(h: Header, before: Bytes, after: Bytes)
    requires EncodeHeader(h).Ok?
    ensures DecodeHeader(before + EncodeHeader(h).value + after, |before|) == Ok(h) <==> h.WellFormed()
  {
    hide Flags, EncodeHeader, DecodeHeader;
    if h.WellFormed() {
      HeaderComesBack(h, before, after);
    } else if DecodeHeader(before + EncodeHeader(h).value + after, |before|).Ok? {
      DecodedIsWellFormed(before + EncodeHeader(h).value + after, |before|);
    }
  }

  lemma DecodedIsWellFormed(data: Bytes, offset: nat)
    requires DecodeHeader(data, offset).Ok?
    ensures DecodeHeader(data, offset).value.WellFormed()
  {
  }

  lemma FlagsGoBack(data: Bytes, offset: nat)
    requires DecodeHeader(data, offset).Ok?
    ensures Flags(DecodeHeader(data, offset).value) == data[offset + 1]
  {
    hide BitOr, Flags, PackOption, UnpackOption;
    FlagsAreFields(DecodeHeader(data, offset).value);
    FlagsAreBits(data[offset + 1]);
  }

  /** Whatever header is read from data, writing it gives the data it was read from. */
  lemma HeaderGoesBack(data: Bytes, offset: nat)
    requires DecodeHeader(data, offset).Ok?
    ensures var h := DecodeHeader(data, offset).value;
      && offset + h.Size() <= |data|
      && EncodeHeader(h) == Ok(data[offset..offset + h.Size()])
  {
    hide BitOr, Flags, PackOption, UnpackOption, EieioType.EncodedValue, TypeOf;
    var h := DecodeHeader(data, offset).value;
    FlagsGoBack(data, offset);
    var at := offset + if h.prefix.Some? then 4 else 2;
    OptionGoesBack(h.prefix.Some?, 2, data, offset + 2);
    OptionGoesBack(h.payloadBase.Some?, h.eieioType.KeyBytes(), data, at);
    assert data[offset..offset + 2] == [h.count, Flags(h)];
    assert data[offset..offset + h.Size()]
        == data[offset..offset + 2] + data[offset + 2..at] + data[at..offset + h.Size()];
  }

  // ---------------------------------------------------------------- elements

  datatype Element = KeyData(key: int) | KeyPayloadData(key: int, payload: int, isTime: bool)

  function ElementBytes(t: EieioType): nat {
    t.KeyBytes() + t.PayloadBytes()
  }

  function EncodeElement(t: EieioType, e: Element): (r: Result<Bytes>)
    ensures r.Ok? ==> |r.value| == ElementBytes(t)
  {
    if e.KeyData? != (t.PayloadBytes() == 0) then Err(InvalidParameter)
    else
      var key := Pack(t.KeyBytes(), e.key);
      if e.KeyData? then key
      else
        var payload := Pack(t.KeyBytes(), e.payload);
        if key.Err? || payload.Err? then Err(StructError) else Ok(key.value + payload.value)
  }

  /** The element as a reader of the message sees it: prefix and payload base are or-ed in. */
  function Extended(h: Header, key: int, payload: Option<int>): Element {
    var k := if h.prefix.None? then key
             else if h.prefixType.UpperHalfWord? then BitOr(key, h.prefix.value * 0x1_0000)
             else BitOr(key, h.prefix.value);
    if h.payloadBase.Some? then
      var base := h.payloadBase.value;
      KeyPayloadData(k, if payload.Some? then BitOr(payload.value, base) else base, h.isTime)
    else if payload.Some? then KeyPayloadData(k, payload.value, h.isTime)
    else KeyData(k)
  }

  function DecodeElement(h: Header, data: Bytes, offset: nat): (r: Result<Element>)
    ensures r.Ok? <==> offset + ElementBytes(h.eieioType) <= |data|
  {
    var n := h.eieioType.KeyBytes();
    if offset + ElementBytes(h.eieioType) > |data| then Err(StructError)
    else
      var key := Unpack(n, data, offset).value;
      if h.eieioType.PayloadBytes() == 0 then Ok(Extended(h, key, None))
      else Ok(Extended(h, key, Some(Unpack(n, data, offset + n).value)))
  }

  /** An element read without prefix and payload base is written as the bytes it was read from. */
  lemma ElementGoesBack(h: Header, data: Bytes, offset: nat)
    requires h.prefix.None? && h.payloadBase.None? && DecodeElement(h, data, offset).Ok?
    ensures EncodeElement(h.eieioType, DecodeElement(h, data, offset).value)
            == Ok(data[offset..offset + ElementBytes(h.eieioType)])
  {
    hide Pack, Unpack;
    var n := h.eieioType.KeyBytes();
    UnpackPack(n, data, offset);
    if h.eieioType.PayloadBytes() != 0 {
      UnpackPack(n, data, offset + n);
      assert data[offset..offset + n] + data[offset + n..offset + n + n] == data[offset..offset + n + n];
    }
  }

  /** A 16-bit key with an upper prefix reads as the word made of the two. */
  lemma UpperPrefixMakesAWord(h: Header, key: nat, payload: Option<int>)
    requires h.prefix.Some? && h.prefix.value >= 0 && h.prefixType.UpperHalfWord? && key < 0x1_0000
    ensures Extended(h, key, payload).key == h.prefix.value * 0x1_0000 + key
  {
    Powers();
    BitOrIsSum(h.prefix.value, key, 16);
    BitOrCommutes(key, h.prefix.value * 0x1_0000);
  }

  /** Bit `k` of a number, of which a negative one has infinitely many. */
  predicate Bit(a: int, k: nat)
    decreases k
  {
    if k == 0 then a % 2 == 1 else Bit(a / 2, k - 1)
  }

  lemma {:induction false} BitOrBits(a: int, b: int, k: nat)
    ensures Bit(BitOr(a, b), k) <==> Bit(a, k) || Bit(b, k)
    decreases k
  {
    hide BitOr;
    BitOrHalves(a, b);
    if k > 0 {
      BitOrBits(a / 2, b / 2, k - 1);
    }
  }

  lemma {:induction false} ShiftedBits(a: int, n: nat, k: nat)
    ensures Bit(a * Pow2(n), k) <==> k >= n && Bit(a, k - n)
    decreases n
  {
    if n > 0 {
      assert a * Pow2(n) == 2 * (a * Pow2(n - 1));
      if k > 0 {
        ShiftedBits(a, n - 1, k - 1);
      }
    }
  }

  /**
   * What a reader sees of an element: the bits of its key and those of the prefix,
   * in the half of the word that the prefix is for; and, if the element or the
   * header has any, a payload with the bits of the element's own and of the base.
   */
  lemma BitsOfAnElement(h: Header, key: int, payload: Option<int>, k: nat)
    ensures var e := Extended(h, key, payload);
      && (Bit(e.key, k) <==>
            || Bit(key, k)
            || (h.prefix.Some? && h.prefixType.UpperHalfWord? && k >= 16 && Bit(h.prefix.value, k - 16))
            || (h.prefix.Some? && !h.prefixType.UpperHalfWord? && Bit(h.prefix.value, k)))
      && (e.KeyPayloadData? <==> payload.Some? || h.payloadBase.Some?)
      && (e.KeyPayloadData? ==>
            && e.isTime == h.isTime
            && (Bit(e.payload, k) <==>
                  || (payload.Some? && Bit(payload.value, k))
                  || (h.payloadBase.Some? && Bit(h.payloadBase.value, k))))
  {
    hide BitOr, Bit;
    if h.prefix.Some? {
      Powers();
      ShiftedBits(h.prefix.value, 16, k);
      BitOrBits(key, h.prefix.value * 0x1_0000, k);
      BitOrBits(key, h.prefix.value, k);
    }
    if h.payloadBase.Some? && payload.Some? {
      BitOrBits(payload.value, h.payloadBase.value, k);
    }
  }

  /** Numbers with the same bits are the same. */
  lemma {:induction false} BitsMakeTheNumber(a: int, b: int)
    requires forall k: nat :: Bit(a, k) <==> Bit(b, k)
    ensures a == b
    decreases (if a < 0 then -a else a) + if b < 0 then -b else b
  {
    assert Bit(a, 0) <==> Bit(b, 0);
    if a / 2 != a || b / 2 != b {
      forall k: nat ensures Bit(a / 2, k) <==> Bit(b / 2, k) {
        assert Bit(a, k + 1) <==> Bit(b, k + 1);
      }
      BitsMakeTheNumber(a / 2, b / 2);
    }
  }

  lemma {:induction false} BitOrCommutes(a: nat, b: nat)
    ensures BitOr(a, b) == BitOr(b, a)
  {
    if a != 0 && b != 0 {
      BitOrCommutes(a / 2, b / 2);
    }
  }

  // ---------------------------------------------------------------- whole messages

  ghost predicate Fit(t: EieioType, es: seq<Element>) {
    forall i :: 0 <= i < |es| ==> EncodeElement(t, es[i]).Ok?
  }

  function EncodeAll(t: EieioType, es: seq<Element>): (r: Bytes)
    requires Fit(t, es)
    ensures |r| == |es| * ElementBytes(t)
  {
    if es == [] then []
    else
      var last := |es| - 1;
      TimesNext(last, ElementBytes(t));
      EncodeAll(t, es[..last]) + EncodeElement(t, es[last]).value
  }

  lemma TimesNext(k: nat, n: nat)
    ensures (k + 1) * n == k * n + n
  {
  }

  /** The elements that `next_element` returns, from the `done`-th on. */
  function ReadAll(h: Header, data: Bytes, offset: nat, done: nat): Result<seq<Element>>
    decreases h.count - done
  {
    if done >= h.count then Ok([])
    else
      var first := DecodeElement(h, data, offset);
      if first.Err? then Err(first.error)
      else
        var rest := ReadAll(h, data, offset + ElementBytes(h.eieioType), done + 1);
        if rest.Err? then rest else Ok([first.value] + rest.value)
  }

  function Seen(h: Header, e: Element): Element
  {
    Extended(h, e.key, if e.KeyData? then None else Some(e.payload))
  }

  lemma ElementComesBack(h: Header, e: Element, before: Bytes, after: Bytes)
    requires EncodeElement(h.eieioType, e).Ok?
    ensures DecodeElement(h, before + EncodeElement(h.eieioType, e).value + after, |before|) == Ok(Seen(h, e))
  {
    hide Extended, Pack, Unpack;
    var n := h.eieioType.KeyBytes();
    var key := Pack(n, e.key).value;
    var data := before + EncodeElement(h.eieioType, e).value + after;
    if e.KeyData? {
      PackUnpack(n, e.key, before, after);
    } else {
      var payload := Pack(n, e.payload).value;
      assert data == before + key + (payload + after) == (before + key) + payload + after;
      PackUnpack(n, e.key, before, payload + after);
      PackUnpack(n, e.payload, before + key, after);
    }
  }

  lemma {:induction false} EncodeAllSplits(t: EieioType, es: seq<Element>, k: nat)
    requires Fit(t, es) && k < |es|
    ensures var n := ElementBytes(t);
      && 0 <= k * n <= k * n + n <= |EncodeAll(t, es)|
      && EncodeAll(t, es)[k * n..k * n + n] == EncodeElement(t, es[k]).value
  {
    hide EncodeElement, ElementBytes, EieioType.KeyBytes, EieioType.PayloadBytes;
    var n, last := ElementBytes(t), |es| - 1;
    TimesNext(last, n);
    assert EncodeAll(t, es) == EncodeAll(t, es[..last]) + EncodeElement(t, es[last]).value;
    assert |EncodeAll(t, es[..last])| == last * n;
    if k < last {
      EncodeAllSplits(t, es[..last], k);
      assert EncodeAll(t, es)[k * n..k * n + n] == EncodeAll(t, es[..last])[k * n..k * n + n];
    }
  }

  /** The elements of a message of this header, as its readers should see them. */
  function AllSeen(h: Header, es: seq<Element>): (r: seq<Element>)
    ensures |r| == |es| && forall i :: 0 <= i < |es| ==> r[i] == Seen(h, es[i])
  {
    seq(|es|, i requires 0 <= i < |es| => Seen(h, es[i]))
  }

  /** Reading from the `k`-th element of an encoded message on gives the remaining elements. */
  lemma {:induction false} ElementsComeBack(h: Header, es: seq<Element>, head: Bytes, k: nat)
    requires Fit(h.eieioType, es) && k <= |es| == h.count
    ensures 0 <= k * ElementBytes(h.eieioType)
    ensures ReadAll(h, head + EncodeAll(h.eieioType, es), |head| + k * ElementBytes(h.eieioType), k)
      == Ok(AllSeen(h, es)[k..])
    decreases |es| - k
  {
    hide Extended, Seen, EncodeElement, DecodeElement, EncodeAll, EieioType.KeyBytes, EieioType.PayloadBytes;
    hide ElementBytes, AllSeen;
    var t, n := h.eieioType, ElementBytes(h.eieioType);
    var body, all := EncodeAll(t, es), AllSeen(h, es);
    if k == |es| {
      assert all[k..] == [];
    } else {
      ElementsComeBack(h, es, head, k + 1);
      EncodeAllSplits(t, es, k);
      ElementComesBack(h, es[k], head + body[..k * n], body[k * n + n..]);
      assert head + body == head + body[..k * n] + body[k * n..k * n + n] + body[k * n + n..];
      assert (k + 1) * n == k * n + n;
      assert |head + body[..k * n]| == |head| + k * n;
      assert [all[k]] + all[k + 1..] == all[k..];
    }
  }

  lemma {:induction false} ReadAllCounts(h: Header, data: Bytes, offset: nat, done: nat)
    requires ReadAll(h, data, offset, done).Ok?
    ensures |ReadAll(h, data, offset, done).value| == if done < h.count then h.count - done else 0
    decreases h.count - done
  {
    if done < h.count {
      ReadAllCounts(h, data, offset + ElementBytes(h.eieioType), done + 1);
    }
  }

  function MessageSize(h: Header): int {
    h.Size() + ElementBytes(h.eieioType) * h.count
  }

  function EncodeMessage(h: Header, es: seq<Element>): Bytes
    requires EncodeHeader(h).Ok? && Fit(h.eieioType, es)
  {
    EncodeHeader(h).value + EncodeAll(h.eieioType, es)
  }

  lemma {:induction false} AllComesBack(h: Header, es: seq<Element>, head: Bytes)
    requires Fit(h.eieioType, es) && h.count == |es|
    ensures ReadAll(h, head + EncodeAll(h.eieioType, es), |head|, 0) == Ok(AllSeen(h, es))
  {
    hide ReadAll, Seen, EncodeAll, EncodeElement, ElementBytes;
    ElementsComeBack(h, es, head, 0);
    assert |head| + 0 * ElementBytes(h.eieioType) == |head|;
    assert AllSeen(h, es)[0..] == AllSeen(h, es);
  }

  lemma CountFits(h: Header)
    requires EncodeHeader(h).Ok?
    ensures 0 <= h.count < 256
  {
  }

  /**
   * The header of an encoded message comes back. All of its elements come back, and its
   * size is its length, exactly when the count was zero before the elements were added.
   */
  lemma {:induction false} MessageComesBackIff(h: Header, es: seq<Element>, start: int)
    requires EncodeHeader(h).Ok? && h.WellFormed() && Fit(h.eieioType, es) && h.count == start + |es|
    ensures DecodeHeader(EncodeMessage(h, es), 0) == Ok(h)
    ensures ReadAll(h, EncodeMessage(h, es), h.Size(), 0) == Ok(AllSeen(h, es)) <==> start == 0
    ensures |EncodeMessage(h, es)| == MessageSize(h) <==> start == 0
  {
    hide EncodeHeader, DecodeHeader, Extended, EncodeElement, DecodeElement, ReadAll, Seen, EncodeAll, Header.Size;
    CountFits(h);
    var head, message := EncodeHeader(h).value, EncodeMessage(h, es);
    assert [] + head + EncodeAll(h.eieioType, es) == message;
    HeaderComesBack(h, [], EncodeAll(h.eieioType, es));
    if start == 0 {
      AllComesBack(h, es, head);
    } else if ReadAll(h, message, h.Size(), 0).Ok? {
      ReadAllCounts(h, message, h.Size(), 0);
      assert |AllSeen(h, es)| == |es|;
    }
  }

  /** The largest number of elements for which the message is at most 256 bytes, and then the count fits a byte. */
  function MaxNElements(h: Header): nat {
    (UDP_MESSAGE_MAX_SIZE - h.Size()) / ElementBytes(h.eieioType)
  }

  lemma MaxNElementsIsTheLimit(h: Header)
    requires h.count >= 0
    ensures h.count <= MaxNElements(h) <==> MessageSize(h) <= UDP_MESSAGE_MAX_SIZE
    ensures h.count <= MaxNElements(h) ==> h.count < 128
  {
    var n, room := ElementBytes(h.eieioType), UDP_MESSAGE_MAX_SIZE - h.Size();
    assert n == 2 || n == 4 || n == 8;
    if n == 2 {
    } else if n == 4 {
    } else {
    }
  }

  // ---------------------------------------------------------------- command headers

  const COMMAND_LIMIT := 16384

  function EncodeCommand(command: int): (r: Result<Bytes>)
  {
    if command < 0 || command >= COMMAND_LIMIT then Err(InvalidParameter)
    else Pack(2, BitOr(0x4000, command))
  }

  /** The low fourteen bits. */
  function DecodeCommand(data: Bytes, offset: nat): Result<int> {
    var word := Unpack(2, data, offset);
    if word.Err? then Err(word.error) else Ok(word.value % COMMAND_LIMIT)
  }

  /** The test `word & 0xC000 == 0x4000` that a receiver makes. */
  predicate IsCommand(data: Bytes)
    requires 2 <= |data|
  {
    Read16(data, 0) / 0x4000 % 4 == 1
  }

  /** A command comes back, and is taken for a command. */
  lemma CommandComesBack(command: int)
    requires 0 <= command < COMMAND_LIMIT
    ensures EncodeCommand(command).Ok? && |EncodeCommand(command).value| == 2
    ensures DecodeCommand(EncodeCommand(command).value, 0) == Ok(command)
    ensures IsCommand(EncodeCommand(command).value)
  {
    hide BitOr, Pow2, U16, Read16;
    Powers();
    BitOrIsSum(1, command, 14);
    assert 0x4000 + command < 0x1_0000;
    assert Read16(U16(0x4000 + command), 0) == 0x4000 + command;
  }

  /** On any data the receiver's test says command exactly when the data header's parser would refuse it as one. */
  lemma ReceiverAndParserAgree(data: Bytes)
    requires 2 <= |data|
    ensures IsCommand(data) <==> DecodeHeader(data, 0) == Err(InvalidPacket)
  {
    var word, flags := Read16(data, 0), data[1] as int;
    assert word / 0x4000 == flags / 64;
  }

  lemma {:induction false} BitOrHalves(a: int, b: int)
    ensures BitOr(a, b) / 2 == BitOr(a / 2, b / 2)
    ensures BitOr(a, b) % 2 == 1 <==> a % 2 == 1 || b % 2 == 1
  {
  }

  lemma {:induction false} BitOrTopBits(a: int, b: int)
    ensures BitOr(a, b) / 64 == BitOr(a / 64, b / 64)
  {
    hide BitOr;
    BitOrHalves(a, b);
    BitOrHalves(a / 2, b / 2);
    BitOrHalves(a / 4, b / 4);
    BitOrHalves(a / 8, b / 8);
    BitOrHalves(a / 16, b / 16);
    BitOrHalves(a / 32, b / 32);
    HalfSixTimes(a);
    HalfSixTimes(b);
    HalfSixTimes(BitOr(a, b));
  }

  lemma HalfSixTimes(n: int)
    ensures n / 2 / 2 == n / 4 && n / 4 / 2 == n / 8 && n / 8 / 2 == n / 16
    ensures n / 16 / 2 == n / 32 && n / 32 / 2 == n / 64
  {
  }

  lemma {:induction false} BitOrGrows(a: nat, b: nat)
    ensures BitOr(a, b) >= a
  {
    if a != 0 && b != 0 {
      BitOrGrows(a / 2, b / 2);
    }
  }

  /** The top two bits of the flags: those of the tag alone, or at least the prefix flag. */
  lemma TopOfFlags(h: Header)
    requires 0 <= Flags(h) < 256
    ensures if h.prefix.None? then Flags(h) / 64 == h.tag / 64 else Flags(h) / 64 >= 2
  {
    hide BitOr;
    var top := Flags(h.(tag := 0));
    FlagsAreFields(h.(tag := 0));
    FlagsWithTag(h);
    BitOrTopBits(top, h.tag);
    if h.prefix.None? {
      assert top / 64 == 0;
      BitOrZero(h.tag / 64);
    } else {
      assert top / 64 >= 2;
      BitOrGrows(top / 64, h.tag / 64);
    }
  }

  lemma FlagsWithTag(h: Header)
    ensures Flags(h) == BitOr(Flags(h.(tag := 0)), h.tag)
    ensures Flags(h) >= 0 ==> h.tag >= 0
  {
  }

  /**
   * An encoded data message is taken for a command exactly when it
   * has no prefix, and bit six of its tag is set but not bit seven.
   */
  lemma MessageIsCommandIff(h: Header, es: seq<Element>)
    requires EncodeHeader(h).Ok? && Fit(h.eieioType, es)
    ensures |EncodeMessage(h, es)| >= 2
    ensures IsCommand(EncodeMessage(h, es)) <==> h.prefix.None? && 64 <= h.tag < 128
  {
    hide EncodeAll, Flags;
    var message := EncodeMessage(h, es);
    assert message[1] == Flags(h);
    TopOfFlags(h);
    assert Read16(message, 0) / 0x4000 == Flags(h) / 64;
  }

  // ---------------------------------------------------------------- the message objects

  class EIEIODataHeader {
    const eieioType: EieioType
    const tag: int
    const prefix: Option<int>
    const prefixType: Prefix
    const payloadBase: Option<int>
    const isTime: bool
    var count: int

    function Value(): Header
      reads this
    {
      Header(eieioType, tag, prefix, prefixType, payloadBase, isTime, count)
    }

    constructor (h: Header)
      ensures Value() == h
    {
      eieioType, tag, prefix, prefixType := h.eieioType, h.tag, h.prefix, h.prefixType;
      payloadBase, isTime, count := h.payloadBase, h.isTime, h.count;
    }

    method IncrementCount()
      modifies this
      ensures Value() == old(Value()).(count := old(count) + 1)
    {
      count := count + 1;
    }
  }

  class EIEIODataMessage {
    const header: EIEIODataHeader
    const data: Option<Bytes>
    var elements: Bytes
    var offset: nat
    var elementsRead: nat
    ghost const start: int          // the header's count when the message was made
    ghost var added: seq<Element>   // the elements added since

    ghost predicate Valid()
      reads this, header
    {
      && Fit(header.eieioType, added) && elements == EncodeAll(header.eieioType, added)
      && header.count == start + |added|
      && (data.Some? ==> added == [])
    }

    constructor (header: EIEIODataHeader, data: Option<Bytes>, offset: nat)
      ensures Valid() && this.header == header && this.data == data && this.offset == offset
      ensures elements == [] && elementsRead == 0 && added == [] && start == header.count
    {
      this.header, this.data, this.offset, elements, elementsRead := header, data, offset, [], 0;
      added, start := [], header.count;
    }

    /** A timestamp takes the place of any payload prefix, and marks the payloads as times. */
    static method Create(eieioType: EieioType, count: int, data: Option<Bytes>, offset: nat, keyPrefix: Option<int>,
                         payloadPrefix: Option<int>, timestamp: Option<int>, prefixType: Prefix)
      returns (message: EIEIODataMessage)
      ensures fresh(message) && fresh(message.header) && message.Valid() && message.data == data
      ensures message.offset == offset && message.elementsRead == 0 && message.added == []
      ensures message.header.Value() ==
        Header(eieioType, 0, keyPrefix, prefixType, if timestamp.Some? then timestamp else payloadPrefix,
               timestamp.Some?, count)
    {
      var payloadBase := payloadPrefix;
      if timestamp.Some? {
        payloadBase := timestamp;
      }
      var header := new EIEIODataHeader(
        Header(eieioType, 0, keyPrefix, prefixType, payloadBase, timestamp.Some?, count));
      message := new EIEIODataMessage(header, data, offset);
    }

    method AddElement(element: Element) returns (r: Result<()>)
      requires Valid()
      modifies this, header
      ensures Valid()
      ensures r.Ok? <==> data.None? && EncodeElement(header.eieioType, element).Ok?
      ensures r.Err? ==> r.error == if data.Some? then InvalidPacket else EncodeElement(header.eieioType, element).error
      ensures added == old(added) + if r.Ok? then [element] else []
      ensures offset == old(offset) && elementsRead == old(elementsRead)
    {
      if data.Some? {
        return Err(InvalidPacket);
      }
      var bytes := EncodeElement(header.eieioType, element);
      if bytes.Err? {
        return Err(bytes.error);
      }
      added := added + [element];
      assert added[..|added| - 1] == old(added);
      elements := elements + bytes.value;
      header.IncrementCount();
      return Ok(());
    }

    method AddKey(key: int) returns (r: Result<()>)
      requires Valid()
      modifies this, header
      ensures Valid()
      ensures r.Ok? <==>
        data.None? && 0 <= key <= header.eieioType.MaxValue() && header.eieioType.PayloadBytes() == 0
      ensures added == old(added) + if r.Ok? then [KeyData(key)] else []
      ensures offset == old(offset) && elementsRead == old(elementsRead)
    {
      if key > header.eieioType.MaxValue() {
        return Err(InvalidParameter);
      }
      r := AddElement(KeyData(key));
    }

    method AddKeyAndPayload(key: int, payload: int) returns (r: Result<()>)
      requires Valid()
      modifies this, header
      ensures Valid()
      ensures r.Ok? <==>
        && data.None? && 0 <= key <= header.eieioType.MaxValue() && 0 <= payload <= header.eieioType.MaxValue()
        && header.eieioType.PayloadBytes() != 0
      ensures added == old(added) + if r.Ok? then [KeyPayloadData(key, payload, header.isTime)] else []
      ensures offset == old(offset) && elementsRead == old(elementsRead)
    {
      if key > header.eieioType.MaxValue() || payload > header.eieioType.MaxValue() {
        return Err(InvalidParameter);
      }
      r := AddElement(KeyPayloadData(key, payload, header.isTime));
    }

    predicate IsNextElement()
      reads this, header
    {
      data.Some? && elementsRead < header.count
    }

    /** The elements still to be read. */
    ghost function Rest(): Result<seq<Element>>
      reads this, header
    {
      if data.None? then Ok([]) else ReadAll(header.Value(), data.value, offset, elementsRead)
    }

    /** Reading takes the first of the remaining elements; past the end of the data it raises. */
    method NextElement() returns (r: Result<Option<Element>>)
      requires Valid()
      modifies this
      ensures Valid() && added == old(added) && elements == old(elements)
      ensures r == Ok(None) <==> !old(IsNextElement())
      ensures r == Ok(None) ==> Rest() == old(Rest()) == Ok([])
      ensures r.Ok? && r.value.Some? && old(Rest()).Ok? ==>
        Rest().Ok? && old(Rest()).value == [r.value.value] + Rest().value
      ensures r.Err? ==> old(Rest()) == Err(StructError) && offset == old(offset)
      ensures elementsRead == old(elementsRead) + if old(IsNextElement()) then 1 else 0
    {
      if !IsNextElement() {
        return Ok(None);
      }
      elementsRead := elementsRead + 1;
      var element := DecodeElement(header.Value(), data.value, offset);
      if element.Err? {
        return Err(element.error);
      }
      offset := offset + ElementBytes(header.eieioType);
      return Ok(Some(element.value));
    }

    method Bytestring() returns (r: Result<Bytes>)
      requires Valid()
      ensures r == if EncodeHeader(header.Value()).Ok? then Ok(EncodeMessage(header.Value(), added))
                   else EncodeHeader(header.Value())
    {
      var head := EncodeHeader(header.Value());
      if head.Err? {
        return head;
      }
      return Ok(head.value + elements);
    }
  }

  /** Parse a message; its elements are read from behind its header. */
  method ReadEieioDataMessage(data: Bytes, offset: nat) returns (r: Result<EIEIODataMessage>)
    ensures r.Ok? <==> DecodeHeader(data, offset).Ok?
    ensures r.Err? ==> r.error == DecodeHeader(data, offset).error
    ensures r.Ok? ==>
      && fresh(r.value) && fresh(r.value.header) && r.value.Valid()
      && r.value.header.Value() == DecodeHeader(data, offset).value
      && r.value.Rest() == ReadAll(r.value.header.Value(), data, offset + r.value.header.Value().Size(), 0)
  {
    var decoded := DecodeHeader(data, offset);
    if decoded.Err? {
      r := Err(decoded.error);
    } else {
      HeaderGoesBack(data, offset);
      CountFits(decoded.value);
      var header := new EIEIODataHeader(decoded.value);
      var message := new EIEIODataMessage(header, Some(data), offset + decoded.value.Size());
      r := Ok(message);
    }
  }
}
