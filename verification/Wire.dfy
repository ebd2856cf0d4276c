/** The wire format: varints, little-endian numbers, tags and unknown fields. */
module Wire {
  type byte = x: int | 0 <= x < 256

  const Two31: nat := 0x8000_0000
  const Two32: nat := 0x1_0000_0000
  const Two64: nat := 0x1_0000_0000_0000_0000
  const MaxFieldNumber: nat := 0x1FFF_FFFF

  /** How deep messages and groups may nest, and how many bytes a stream gives out. */
  const RecursionLimit: nat := 100
  const TotalBytesLimit: nat := 0x400_0000

  /** What a reader takes off the front of its input. */
  datatype Reading<+T> = Fail | Take(value: T, rest: seq<byte>)

  // ---------- varints ----------

  function Varint(v: nat): (s: seq<byte>)
    ensures |s| > 0
  {
    if v < 128 then [v] else [v % 128 + 128] + Varint(v / 128)
  }

  /** Reads at most `k` bytes of a varint, with no bound on its value. */
  function RawVarint(s: seq<byte>, k: nat): (r: Reading<nat>)
    ensures r.Take? ==> |r.rest| < |s|
    decreases k
  {
    if s == [] || k == 0 then Fail
    else if s[0] < 128 then Take(s[0], s[1..])
    else match RawVarint(s[1..], k - 1)
      case Fail => Fail
      case Take(high, rest) => Take(s[0] - 128 + 128 * high, rest)
  }

  /** CodedInputStream::ReadVarint64: ten bytes at most, modulo 2^64. */
  function ReadVarint64(s: seq<byte>): (r: Reading<nat>)
    ensures r.Take? ==> |r.rest| < |s| && r.value < Two64
  {
    match RawVarint(s, 10)
    case Fail => Fail
    case Take(v, rest) => Take(v % Two64, rest)
  }

  /** CodedInputStream::ReadVarint32 accepts longer varints and drops their high bits; tags are read the same way. */
  function ReadVarint32(s: seq<byte>): (r: Reading<nat>)
    ensures r.Take? ==> |r.rest| < |s| && r.value < Two32
  {
    match RawVarint(s, 10)
    case Fail => Fail
    case Take(v, rest) => Take(v % Two32, rest)
  }

  lemma {:induction false} RawVarintRoundTrip(v: nat, k: nat, t: seq<byte>)
    requires |Varint(v)| <= k
    ensures RawVarint(Varint(v) + t, k) == Take(v, t)
  {
    if v < 128 {
      assert (Varint(v) + t)[1..] == t;
    } else {
      RawVarintRoundTrip(v / 128, k - 1, t);
      assert (Varint(v) + t)[1..] == Varint(v / 128) + t;
    }
  }

  /** What follows a complete varint does not matter. */
  lemma {:induction false} RawVarintAppend(s: seq<byte>, t: seq<byte>, k: nat)
    requires RawVarint(s, k).Take?
    ensures RawVarint(s + t, k) == Take(RawVarint(s, k).value, RawVarint(s, k).rest + t)
  {
    assert (s + t)[0] == s[0] && (s + t)[1..] == s[1..] + t;
    if s[0] >= 128 {
      RawVarintAppend(s[1..], t, k - 1);
    }
  }

  /** 128 to the power `k`. */
  function Pow128(k: nat): (p: nat)
    ensures p > 0
  {
    if k == 0 then 1 else 128 * Pow128(k - 1)
  }

  /** A varint has `k` bytes exactly when its value needs `k` groups of seven bits. */
  lemma {:induction false} VarintLength(v: nat, k: nat)
    requires k > 0
    ensures |Varint(v)| <= k <==> v < Pow128(k)
    decreases k
  {
    if v >= 128 {
      if k == 1 {
        assert Pow128(1) == 128 * Pow128(0);
      } else {
        VarintLength(v / 128, k - 1);
        assert v / 128 < Pow128(k - 1) <==> v < 128 * Pow128(k - 1);
      }
    } else {
      Pow128AtLeast(k);
    }
  }

  lemma {:induction false} Pow128AtLeast(k: nat)
    requires k > 0
    ensures Pow128(k) >= 128
  {
  }

  lemma Pow128Values()
    ensures Pow128(1) == 0x80 && Pow128(2) == 0x4000 && Pow128(3) == 0x20_0000 && Pow128(4) == 0x1000_0000
    ensures Pow128(5) == 0x8_0000_0000 && Pow128(6) == 0x400_0000_0000 && Pow128(7) == 0x2_0000_0000_0000
    ensures Pow128(8) == 0x100_0000_0000_0000 && Pow128(9) == 0x8000_0000_0000_0000
    ensures Pow128(10) == 0x40_0000_0000_0000_0000
  {
    assert Pow128(0) == 1;
    assert Pow128(1) == 128 * Pow128(0);
    assert Pow128(2) == 128 * Pow128(1);
    assert Pow128(3) == 128 * Pow128(2);
    assert Pow128(4) == 128 * Pow128(3);
    assert Pow128(5) == 128 * Pow128(4);
    assert Pow128(6) == 128 * Pow128(5);
    assert Pow128(7) == 128 * Pow128(6);
    assert Pow128(8) == 128 * Pow128(7);
    assert Pow128(9) == 128 * Pow128(8);
    assert Pow128(10) == 128 * Pow128(9);
  }

  lemma ReadVarint64Back(v: nat, t: seq<byte>)
    requires v < Two64
    ensures ReadVarint64(Varint(v) + t) == Take(v, t)
  {
    hide Varint, RawVarint;
    Pow128Values();
    VarintLength(v, 10);
    RawVarintRoundTrip(v, 10, t);
  }

  lemma ReadVarint32Back(v: nat, t: seq<byte>)
    requires v < Two64
    ensures ReadVarint32(Varint(v) + t) == Take(v % Two32, t)
  {
    hide Varint, RawVarint;
    Pow128Values();
    VarintLength(v, 10);
    RawVarintRoundTrip(v, 10, t);
  }

  /** CodedOutputStream::VarintSize32. */
  function VarintSize32(v: nat): nat
    requires v < Two32
  {
    if v < 0x80 then 1
    else if v < 0x4000 then 2
    else if v < 0x20_0000 then 3
    else if v < 0x1000_0000 then 4
    else 5
  }

  /** CodedOutputStream::VarintSize64. */
  function VarintSize64(v: nat): nat
    requires v < Two64
  {
    if v < 0x8_0000_0000 then
      if v < 0x80 then 1
      else if v < 0x4000 then 2
      else if v < 0x20_0000 then 3
      else if v < 0x1000_0000 then 4
      else 5
    else
      if v < 0x400_0000_0000 then 6
      else if v < 0x2_0000_0000_0000 then 7
      else if v < 0x100_0000_0000_0000 then 8
      else if v < 0x8000_0000_0000_0000 then 9
      else 10
  }

  lemma VarintSize64Exact(v: nat)
    requires v < Two64
    ensures VarintSize64(v) == |Varint(v)|
  {
  }

  lemma VarintSize32Exact(v: nat)
    requires v < Two32
    ensures VarintSize32(v) == |Varint(v)|
  {
  }

  // ---------- 32-bit integers ----------

  type int32 = x: int | -0x8000_0000 <= x < 0x8000_0000

  /** A negative int32 is written as the 64-bit number that extends its sign. */
  function SignExtend(v: int32): uint64
  {
    if v < 0 then v + Two64 else v
  }

  /** The conversion of an unsigned 32-bit number to int32. */
  function ToInt32(v: nat): int32
    requires v < Two32
  {
    if v < Two31 then v else v - Two32
  }

  /** Reading back what was written for an int32: ten bytes when it is negative. */
  lemma Int32Back(v: int32, t: seq<byte>)
    ensures ReadVarint32(Varint(SignExtend(v)) + t).Take?
    ensures ReadVarint32(Varint(SignExtend(v)) + t).rest == t
    ensures ToInt32(ReadVarint32(Varint(SignExtend(v)) + t).value) == v
    ensures v < 0 ==> |Varint(SignExtend(v))| == 10
  {
    hide Varint, RawVarint;
    ReadVarint32Back(SignExtend(v), t);
    VarintSize64Exact(SignExtend(v));
  }

  // ---------- fixed-size numbers and byte strings ----------

  function LittleEndian(v: nat, n: nat): (s: seq<byte>)
    ensures |s| == n
  {
    if n == 0 then [] else [v % 256] + LittleEndian(v / 256, n - 1)
  }

  function FromLittleEndian(s: seq<byte>): (v: nat)
  {
    if s == [] then 0 else s[0] + 256 * FromLittleEndian(s[1..])
  }

  function Pow256(n: nat): (p: nat)
    ensures p > 0
  {
    if n == 0 then 1 else 256 * Pow256(n - 1)
  }

  lemma {:induction false} LittleEndianBack(v: nat, n: nat)
    requires v < Pow256(n)
    ensures FromLittleEndian(LittleEndian(v, n)) == v
  {
    if n > 0 {
      LittleEndianBack(v / 256, n - 1);
    }
  }

  lemma {:induction false} FromLittleEndianBound(s: seq<byte>)
    ensures FromLittleEndian(s) < Pow256(|s|)
  {
    if s != [] {
      FromLittleEndianBound(s[1..]);
    }
  }

  lemma Pow256Values()
    ensures Pow256(4) == Two32 && Pow256(8) == Two64
  {
    assert Pow256(0) == 1;
    assert Pow256(1) == 256 * Pow256(0);
    assert Pow256(2) == 256 * Pow256(1);
    assert Pow256(3) == 256 * Pow256(2);
    assert Pow256(4) == 256 * Pow256(3);
    assert Pow256(5) == 256 * Pow256(4);
    assert Pow256(6) == 256 * Pow256(5);
    assert Pow256(7) == 256 * Pow256(6);
    assert Pow256(8) == 256 * Pow256(7);
  }

  function ReadFixed(s: seq<byte>, n: nat): (r: Reading<nat>)
    ensures r.Take? ==> |r.rest| <= |s| && r.value < Pow256(n)
  {
    if |s| < n then Fail
    else
      FromLittleEndianBound(s[..n]);
      Take(FromLittleEndian(s[..n]), s[n..])
  }

  /** A length and that many bytes; lengths that are negative as int are refused. */
  function ReadString(s: seq<byte>): (r: Reading<seq<byte>>)
    ensures r.Take? ==> |r.rest| < |s|
  {
    match ReadVarint32(s)
    case Fail => Fail
    case Take(n, rest) => if n >= Two31 || |rest| < n then Fail else Take(rest[..n], rest[n..])
  }

  function Prefixed(data: seq<byte>): seq<byte> {
    Varint(|data|) + data
  }

  lemma ReadStringBack(data: seq<byte>, t: seq<byte>)
    requires |data| < Two31
    ensures ReadString(Prefixed(data) + t) == Take(data, t)
  {
    hide Varint, RawVarint;
    assert Prefixed(data) + t == Varint(|data|) + (data + t);
    ReadVarint32Back(|data|, data + t);
  }

  lemma ReadFixedBack(v: nat, n: nat, t: seq<byte>)
    requires v < Pow256(n)
    ensures ReadFixed(LittleEndian(v, n) + t, n) == Take(v, t)
  {
  }

  // ---------- tags ----------

  const VarintType: nat := 0
  const Fixed64Type: nat := 1
  const LengthDelimitedType: nat := 2
  const StartGroupType: nat := 3
  const EndGroupType: nat := 4
  const Fixed32Type: nat := 5

  function MakeTag(number: nat, wireType: nat): nat {
    8 * number + wireType
  }

  /** Tags at which a message or a group stops being read. */
  predicate StopTag(tag: nat) {
    tag == 0 || tag % 8 == EndGroupType
  }

  // ---------- unknown fields ----------

  type FieldNumber = n: int | 0 <= n <= 0x1FFF_FFFF
  type uint32 = n: int | 0 <= n < 0x1_0000_0000
  type uint64 = n: int | 0 <= n < 0x1_0000_0000_0000_0000

  datatype UnknownField =
    | UVarint(number: FieldNumber, varint: uint64)
    | UFixed32(number: FieldNumber, fixed32: uint32)
    | UFixed64(number: FieldNumber, fixed64: uint64)
    | UBytes(number: FieldNumber, data: seq<byte>)
    | UGroup(number: FieldNumber, fields: seq<UnknownField>)

  function WireTypeOf(u: UnknownField): nat {
    match u
    case UVarint(_, _) => VarintType
    case UFixed32(_, _) => Fixed32Type
    case UFixed64(_, _) => Fixed64Type
    case UBytes(_, _) => LengthDelimitedType
    case UGroup(_, _) => StartGroupType
  }

  function TagOf(u: UnknownField): nat {
    MakeTag(u.number, WireTypeOf(u))
  }

  /** What is written after the tag of an unknown field. */
  function Payload(u: UnknownField): seq<byte>
    decreases u, 1
  {
    match u
    case UVarint(_, v) => Varint(v)
    case UFixed32(_, v) => LittleEndian(v, 4)
    case UFixed64(_, v) => LittleEndian(v, 8)
    case UBytes(_, data) => Prefixed(data)
    case UGroup(n, fields) => EncodeUnknown(fields) + Varint(MakeTag(n, EndGroupType))
  }

  /** WireFormat::SerializeUnknownFields. */
  function EncodeUnknown(us: seq<UnknownField>): seq<byte>
    decreases us
  {
    if us == [] then []
    else Varint(TagOf(us[0])) + Payload(us[0]) + EncodeUnknown(us[1..])
  }

  /** The unknown fields that can be read with `depth` levels of nesting left. */
  predicate Storable(u: UnknownField, depth: nat)
    decreases u
  {
    match u
    case UVarint(n, _) => n > 0
    case UBytes(_, data) => |data| < Two31
    case UGroup(_, fields) => depth > 0 && AllStorable(fields, depth - 1)
    case _ => true
  }

  predicate AllStorable(us: seq<UnknownField>, depth: nat) {
    forall u :: u in us ==> Storable(u, depth)
  }

  /** WireFormat::SkipField, storing what it skips. */
  function SkipField(tag: nat, s: seq<byte>, depth: nat): (r: Reading<UnknownField>)
    requires tag < Two32
    ensures r.Take? ==> |r.rest| <= |s|
    decreases |s|, 1
  {
    var number, wireType := tag / 8, tag % 8;
    Pow256Values();
    if wireType == VarintType then
      match ReadVarint64(s)
      case Fail => Fail
      case Take(v, rest) => Take(UVarint(number, v), rest)
    else if wireType == Fixed64Type then
      match ReadFixed(s, 8)
      case Fail => Fail
      case Take(v, rest) => Take(UFixed64(number, v), rest)
    else if wireType == LengthDelimitedType then
      match ReadString(s)
      case Fail => Fail
      case Take(data, rest) => Take(UBytes(number, data), rest)
    else if wireType == StartGroupType then
      if depth == 0 then Fail
      else
        match SkipGroup(s, depth - 1, number)
        case Fail => Fail
        case Take(fields, rest) => Take(UGroup(number, fields), rest)
    else if wireType == Fixed32Type then
      match ReadFixed(s, 4)
      case Fail => Fail
      case Take(v, rest) => Take(UFixed32(number, v), rest)
    else Fail
  }

  /** The fields of a group up to its own end tag. */
  function SkipGroup(s: seq<byte>, depth: nat, number: nat): (r: Reading<seq<UnknownField>>)
    ensures r.Take? ==> |r.rest| < |s|
    decreases |s|, 0
  {
    match ReadVarint32(s)
    case Fail => Fail
    case Take(tag, rest) =>
      if StopTag(tag) then
        if tag == MakeTag(number, EndGroupType) then Take([], rest) else Fail
      else
        match SkipField(tag, rest, depth)
        case Fail => Fail
        case Take(field, rest') =>
          match SkipGroup(rest', depth, number)
          case Fail => Fail
          case Take(fields, rest'') => Take([field] + fields, rest'')
  }

  lemma SplitTag(number: nat, wireType: nat)
    requires wireType < 8
    ensures MakeTag(number, wireType) / 8 == number && MakeTag(number, wireType) % 8 == wireType
    ensures number <= MaxFieldNumber ==> MakeTag(number, wireType) < Two32
  {
  }

  lemma ReadTagBack(number: nat, wireType: nat, t: seq<byte>)
    requires number <= MaxFieldNumber && wireType < 8
    ensures ReadVarint32(Varint(MakeTag(number, wireType)) + t) == Take(MakeTag(number, wireType), t)
  {
    hide Varint, ReadVarint32, MakeTag;
    SplitTag(number, wireType);
    ReadVarint32Back(MakeTag(number, wireType), t);
  }

  lemma StorableTag(u: UnknownField, depth: nat)
    requires Storable(u, depth)
    ensures TagOf(u) < Two32 && !StopTag(TagOf(u))
    ensures TagOf(u) / 8 == u.number && TagOf(u) % 8 == WireTypeOf(u)
  {
  }

  /** Reading a written unknown field gives it back. */
  lemma {:induction false} SkipFieldBack(u: UnknownField, t: seq<byte>, depth: nat)
    requires Storable(u, depth)
    ensures TagOf(u) < Two32 && SkipField(TagOf(u), Payload(u) + t, depth) == Take(u, t)
    decreases u, 1
  {
    hide Varint, RawVarint, ReadVarint64, ReadString, ReadFixed;
    StorableTag(u, depth);
    Pow256Values();
    match u {
      case UVarint(_, v) => ReadVarint64Back(v, t);
      case UFixed32(_, v) => ReadFixedBack(v, 4, t);
      case UFixed64(_, v) => ReadFixedBack(v, 8, t);
      case UBytes(_, data) => ReadStringBack(data, t);
      case UGroup(n, fields) =>
        SkipGroupBack(fields, t, depth - 1, n);
        assert Payload(u) + t == EncodeUnknown(fields) + (Varint(MakeTag(n, EndGroupType)) + t);
    }
  }

  lemma {:induction false} SkipGroupBack(us: seq<UnknownField>, t: seq<byte>, depth: nat, number: nat)
    requires AllStorable(us, depth) && number <= MaxFieldNumber
    ensures SkipGroup(EncodeUnknown(us) + (Varint(MakeTag(number, EndGroupType)) + t), depth, number) == Take(us, t)
    decreases us
  {
    var end := Varint(MakeTag(number, EndGroupType)) + t;
    if us == [] {
      ReadTagBack(number, EndGroupType, t);
      SplitTag(number, EndGroupType);
      assert EncodeUnknown(us) + end == end;
    } else {
      var u := us[0];
      var tail := EncodeUnknown(us[1..]) + end;
      assert EncodeUnknown(us) + end == Varint(TagOf(u)) + (Payload(u) + tail);
      StorableTag(u, depth);
      ReadTagBack(u.number, WireTypeOf(u), Payload(u) + tail);
      SkipFieldBack(u, tail, depth);
      SkipGroupBack(us[1..], t, depth, number);
      assert [u] + us[1..] == us;
    }
  }

  /** Whatever is stored while reading is storable, under the tag it was read with. */
  lemma {:induction false} SkipFieldStorable(tag: nat, s: seq<byte>, depth: nat)
    requires tag < Two32 && !StopTag(tag) && SkipField(tag, s, depth).Take?
    ensures Storable(SkipField(tag, s, depth).value, depth) && TagOf(SkipField(tag, s, depth).value) == tag
    decreases |s|, 1
  {
    Pow256Values();
    var wireType := tag % 8;
    if wireType == StartGroupType {
      SkipGroupStorable(s, depth - 1, tag / 8);
    }
  }

  lemma {:induction false} SkipGroupStorable(s: seq<byte>, depth: nat, number: nat)
    requires SkipGroup(s, depth, number).Take?
    ensures AllStorable(SkipGroup(s, depth, number).value, depth)
    decreases |s|, 0
  {
    var tag, rest := ReadVarint32(s).value, ReadVarint32(s).rest;
    if !StopTag(tag) {
      SkipFieldStorable(tag, rest, depth);
      SkipGroupStorable(SkipField(tag, rest, depth).rest, depth, number);
    }
  }

  // ---------- what follows a complete item does not matter ----------

  lemma ReadStringAppend(s: seq<byte>, t: seq<byte>)
    requires ReadString(s).Take?
    ensures ReadString(s + t) == Take(ReadString(s).value, ReadString(s).rest + t)
  {
    RawVarintAppend(s, t, 10);
    var n, rest := ReadVarint32(s).value, ReadVarint32(s).rest;
    assert (rest + t)[..n] == rest[..n] && (rest + t)[n..] == rest[n..] + t;
  }

  lemma {:induction false} SkipFieldAppend(tag: nat, s: seq<byte>, depth: nat, t: seq<byte>)
    requires tag < Two32 && SkipField(tag, s, depth).Take?
    ensures SkipField(tag, s + t, depth)
         == Take(SkipField(tag, s, depth).value, SkipField(tag, s, depth).rest + t)
    decreases |s|, 1
  {
    var wireType := tag % 8;
    if wireType == VarintType {
      RawVarintAppend(s, t, 10);
    } else if wireType == Fixed64Type {
      assert (s + t)[..8] == s[..8] && (s + t)[8..] == s[8..] + t;
    } else if wireType == Fixed32Type {
      assert (s + t)[..4] == s[..4] && (s + t)[4..] == s[4..] + t;
    } else if wireType == LengthDelimitedType {
      ReadStringAppend(s, t);
    } else {
      SkipGroupAppend(s, depth - 1, tag / 8, t);
    }
  }

  lemma {:induction false} SkipGroupAppend(s: seq<byte>, depth: nat, number: nat, t: seq<byte>)
    requires SkipGroup(s, depth, number).Take?
    ensures SkipGroup(s + t, depth, number)
         == Take(SkipGroup(s, depth, number).value, SkipGroup(s, depth, number).rest + t)
    decreases |s|, 0
  {
    RawVarintAppend(s, t, 10);
    var tag, rest := ReadVarint32(s).value, ReadVarint32(s).rest;
    if !StopTag(tag) {
      SkipFieldAppend(tag, rest, depth, t);
      SkipGroupAppend(SkipField(tag, rest, depth).rest, depth, number, t);
    }
  }
}
