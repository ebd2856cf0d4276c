/** The size pass with its cached sizes, and the two serializers that rely on them. */
module Serializing {
  import opened Wrappers
  import opened Wire
  import opened Messages
  import opened Writing
  import RoundTrips
  import Parsing

  // ---------- unknown fields ----------

  lemma UnknownStep(us: seq<UnknownField>, i: nat)
    requires i < |us|
    ensures EncodeUnknown(us[i..])
         == Varint(MakeTag(us[i].number, WireTypeOf(us[i]))) + Payload(us[i]) + EncodeUnknown(us[i + 1..])
  {
  }

  /** WireFormat::ComputeUnknownFieldsSize. */
  method ComputeUnknownFieldsSize(us: seq<UnknownField>) returns (size: nat)
    requires |EncodeUnknown(us)| < Two31
    ensures size == |EncodeUnknown(us)|
    decreases us
  {
    hide Varint, EncodeUnknown, Payload;
    size := 0;
    var i := 0;
    assert us[0..] == us;
    while i < |us|
      invariant 0 <= i <= |us|
      invariant size + |EncodeUnknown(us[i..])| == |EncodeUnknown(us)|
    {
      UnknownStep(us, i);
      var tag := MakeTag(us[i].number, WireTypeOf(us[i]));
      VarintSize32Exact(tag);
      var n := PayloadSize(us[i]);
      size := size + VarintSize32(tag) + n;
      i := i + 1;
    }
    NoUnknown(us[i..]);
  }

  lemma NoUnknown(us: seq<UnknownField>)
    requires us == []
    ensures EncodeUnknown(us) == []
  {
  }

  method PayloadSize(u: UnknownField) returns (size: nat)
    requires |Payload(u)| < Two31
    ensures size == |Payload(u)|
    decreases u, 0
  {
    hide Varint, EncodeUnknown;
    match u {
      case UVarint(_, v) =>
        VarintSize64Exact(v);
        size := VarintSize64(v);
      case UFixed32(_, _) =>
        size := 4;
      case UFixed64(_, _) =>
        size := 8;
      case UBytes(_, data) =>
        VarintSize32Exact(|data|);
        size := VarintSize32(|data|) + |data|;
      case UGroup(n, fields) =>
        VarintSize32Exact(MakeTag(n, EndGroupType));
        size := ComputeUnknownFieldsSize(fields);
        size := size + VarintSize32(MakeTag(n, EndGroupType));
    }
  }

  /** WireFormat::SerializeUnknownFieldsToArray. */
  method SerializeUnknownFieldsToArray(us: seq<UnknownField>, target: array<byte>, at: nat) returns (end: nat)
    requires at + |EncodeUnknown(us)| <= target.Length && |EncodeUnknown(us)| < Two31
    modifies target
    ensures end == at + |EncodeUnknown(us)| && Wrote(old(target[..]), target[..], at, EncodeUnknown(us))
    decreases us
  {
    hide Varint, EncodeUnknown, Payload, Wrote;
    ghost var done: seq<byte> := [];
    WroteNothing(target[..], at);
    end := at;
    var i := 0;
    assert us[0..] == us;
    while i < |us|
      invariant 0 <= i <= |us|
      invariant end == at + |done| && done + EncodeUnknown(us[i..]) == EncodeUnknown(us)
      invariant Wrote(old(target[..]), target[..], at, done)
    {
      UnknownStep(us, i);
      ghost var tag := Varint(MakeTag(us[i].number, WireTypeOf(us[i])));
      ghost var p, tail := Payload(us[i]), EncodeUnknown(us[i + 1..]);
      assert done + (tag + p + tail) == done + tag + p + tail;
      ghost var mid := target[..];
      end := WriteVarint32ToArray(MakeTag(us[i].number, WireTypeOf(us[i])), target, end);
      WroteTrans(old(target[..]), mid, target[..], at, done, tag);
      mid := target[..];
      end := WritePayloadToArray(us[i], target, end);
      WroteTrans(old(target[..]), mid, target[..], at, done + tag, p);
      done := done + tag + p;
      i := i + 1;
    }
    NoUnknown(us[i..]);
    assert done + [] == done;
  }

  method WritePayloadToArray(u: UnknownField, target: array<byte>, at: nat) returns (end: nat)
    requires at + |Payload(u)| <= target.Length && |Payload(u)| < Two31
    modifies target
    ensures end == at + |Payload(u)| && Wrote(old(target[..]), target[..], at, Payload(u))
    decreases u, 0
  {
    hide Varint, EncodeUnknown, Wrote, LittleEndian;
    match u {
      case UVarint(_, v) =>
        end := WriteVarint64ToArray(v, target, at);
      case UFixed32(_, v) =>
        end := WriteRawToArray(LittleEndian(v, 4), target, at);
      case UFixed64(_, v) =>
        end := WriteRawToArray(LittleEndian(v, 8), target, at);
      case UBytes(_, data) =>
        end := WritePrefixedToArray(data, target, at);
      case UGroup(n, fields) =>
        end := SerializeUnknownFieldsToArray(fields, target, at);
        ghost var mid := target[..];
        end := WriteVarint32ToArray(MakeTag(n, EndGroupType), target, end);
        WroteTrans(old(target[..]), mid, target[..], at, EncodeUnknown(fields), Varint(MakeTag(n, EndGroupType)));
    }
  }

  /** A length and the bytes. */
  method WritePrefixedToArray(data: seq<byte>, target: array<byte>, at: nat) returns (end: nat)
    requires at + |Prefixed(data)| <= target.Length && |data| < Two31
    modifies target
    ensures end == at + |Prefixed(data)| && Wrote(old(target[..]), target[..], at, Prefixed(data))
  {
    hide Varint, Wrote;
    end := WriteVarint32ToArray(|data|, target, at);
    ghost var mid := target[..];
    end := WriteRawToArray(data, target, end);
    WroteTrans(old(target[..]), mid, target[..], at, Varint(|data|), data);
  }

  /** WireFormat::SerializeUnknownFields. */
  method SerializeUnknownFields(us: seq<UnknownField>, output: CodedOutputStream)
    requires |EncodeUnknown(us)| < Two31
    requires output.Valid()
    modifies output
    ensures output.Valid() && output.State() == Put(old(output.State()), EncodeUnknown(us))
    decreases us
  {
    hide Varint, EncodeUnknown, Payload;
    var i := 0;
    assert us[0..] == us;
    while i < |us|
      invariant 0 <= i <= |us|
      invariant |EncodeUnknown(us[i..])| <= |EncodeUnknown(us)|
      invariant output.Valid()
      invariant Put(output.State(), EncodeUnknown(us[i..])) == Put(old(output.State()), EncodeUnknown(us))
    {
      UnknownStep(us, i);
      ghost var tag := Varint(MakeTag(us[i].number, WireTypeOf(us[i])));
      ghost var p, tail := Payload(us[i]), EncodeUnknown(us[i + 1..]);
      assert tag + p + tail == tag + (p + tail);
      PutTwice(output.State(), tag, p + tail);
      output.WriteVarint32(MakeTag(us[i].number, WireTypeOf(us[i])));
      PutTwice(output.State(), p, tail);
      WritePayload(us[i], output);
      i := i + 1;
    }
    NoUnknown(us[i..]);
    PutNothing(output.State());
  }

  method WritePayload(u: UnknownField, output: CodedOutputStream)
    requires |Payload(u)| < Two31
    requires output.Valid()
    modifies output
    ensures output.Valid() && output.State() == Put(old(output.State()), Payload(u))
    decreases u, 0
  {
    hide Varint, EncodeUnknown, LittleEndian;
    match u {
      case UVarint(_, v) =>
        output.WriteVarint64(v);
      case UFixed32(_, v) =>
        output.WriteRaw(LittleEndian(v, 4));
      case UFixed64(_, v) =>
        output.WriteRaw(LittleEndian(v, 8));
      case UBytes(_, data) =>
        WritePrefixed(data, output);
      case UGroup(n, fields) =>
        PutTwice(output.State(), EncodeUnknown(fields), Varint(MakeTag(n, EndGroupType)));
        SerializeUnknownFields(fields, output);
        output.WriteVarint32(MakeTag(n, EndGroupType));
    }
  }

  method WritePrefixed(data: seq<byte>, output: CodedOutputStream)
    requires |data| < Two31
    requires output.Valid()
    modifies output
    ensures output.Valid() && output.State() == Put(old(output.State()), Prefixed(data))
  {
    hide Varint;
    PutTwice(output.State(), Varint(|data|), data);
    output.WriteVarint32(|data|);
    output.WriteRaw(data);
  }

  // ---------- sizes ----------

  /** The `_cached_size_` of a message, and those of the sub-messages in each of its fields. */
  datatype Cached = Cached(size: nat, parts: seq<seq<Cached>>)

  /** What every cached size should be: the number of bytes that the message takes. */
  ghost function Sizes(schema: Schema, m: Message): Cached
    requires Shaped(schema, m)
    decreases m, 1
  {
    Cached(|Encode(schema, m)|,
           seq(|m.fields|, i requires 0 <= i < |m.fields| => SizesIn(schema.fields[i].kind, m.fields[i])))
  }

  ghost function SizesIn(kind: Kind, v: Value): seq<Cached>
    requires ShapedValue(kind, v)
    decreases v, 0
  {
    match v
    case Sub(m) => [Sizes(kind.schema, m)]
    case Many(ms) => seq(|ms|, j requires 0 <= j < |ms| => Sizes(kind.schema, ms[j]))
    case _ => []
  }

  lemma TagSize(schema: Schema, i: nat)
    requires SmallSchema(schema) && i < |schema.fields|
    ensures |Varint(FieldTag(schema, i))| == 1
  {
  }

  lemma FieldShaped(schema: Schema, m: Message, i: nat)
    requires Shaped(schema, m) && i < |m.fields|
    ensures SmallSchema(schema) && |m.fields| == |schema.fields| && ShapedValue(schema.fields[i].kind, m.fields[i])
    ensures EncodeFrom(schema, m, i)
         == EncodeValue(schema.fields[i].kind, FieldTag(schema, i), m.fields[i]) + EncodeFrom(schema, m, i + 1)
  {
  }

  lemma EncodeEnds(schema: Schema, m: Message)
    requires Shaped(schema, m)
    ensures Encode(schema, m) == EncodeFrom(schema, m, 0)
    ensures EncodeFrom(schema, m, |m.fields|) == EncodeUnknown(m.unknown)
  {
  }

  /** ByteSize: the size of the message, cached on the way in it and in all its sub-messages. */
  method ByteSize(schema: Schema, m: Message) returns (size: nat, cache: Cached)
    requires Shaped(schema, m) && |Encode(schema, m)| < Two31
    ensures size == |Encode(schema, m)| && cache == Sizes(schema, m)
    decreases m, 1
  {
    hide Shaped, ShapedValue, Encode, EncodeFrom, EncodeValue, EncodeUnknown, SizesIn, FieldTag;
    EncodeEnds(schema, m);
    size := 0;
    var parts := [];
    var i := 0;
    while i < |m.fields|
      invariant 0 <= i <= |m.fields| && |parts| == i
      invariant size + |EncodeFrom(schema, m, i)| == |Encode(schema, m)|
      invariant parts == Sizes(schema, m).parts[..i]
    {
      FieldShaped(schema, m, i);
      var n, part := FieldSize(schema, i, m.fields[i]);
      assert part == Sizes(schema, m).parts[i];
      size := size + n;
      parts := parts + [part];
      i := i + 1;
    }
    if m.unknown != [] {
      var n := ComputeUnknownFieldsSize(m.unknown);
      size := size + n;
    } else {
      NoUnknown(m.unknown);
    }
    cache := Cached(size, parts);
  }

  method FieldSize(schema: Schema, i: nat, v: Value) returns (size: nat, part: seq<Cached>)
    requires SmallSchema(schema) && i < |schema.fields| && ShapedValue(schema.fields[i].kind, v)
    requires |EncodeValue(schema.fields[i].kind, FieldTag(schema, i), v)| < Two31
    ensures size == |EncodeValue(schema.fields[i].kind, FieldTag(schema, i), v)|
    ensures part == SizesIn(schema.fields[i].kind, v)
    decreases v, 0
  {
    hide Encode, EncodeItems, Sizes, Varint, Shaped, FieldTag;
    TagSize(schema, i);
    size, part := 0, [];
    match v {
      case Absent =>
      case Number(n) =>
        VarintSize64Exact(SignExtend(n));
        size := 1 + (if n < 0 then 10 else VarintSize32(n));
      case Text(data) =>
        VarintSize32Exact(|data|);
        size := 1 + VarintSize32(|data|) + |data|;
      case Sub(m) =>
        var n, cache := ByteSize(schema.fields[i].kind.schema, m);
        VarintSize32Exact(n);
        size := 1 + VarintSize32(n) + n;
        part := [cache];
      case Many(ms) =>
        size, part := ItemsSize(schema.fields[i].kind.schema, FieldTag(schema, i), ms);
    }
  }

  lemma ItemStep(schema: Schema, tag: nat, ms: seq<Message>, j: nat)
    requires (forall m :: m in ms ==> Shaped(schema, m)) && j < |ms|
    ensures Shaped(schema, ms[j])
    ensures EncodeItems(schema, tag, ms[j..])
         == Varint(tag) + Prefixed(Encode(schema, ms[j])) + EncodeItems(schema, tag, ms[j + 1..])
  {
  }

  lemma NoItems(schema: Schema, tag: nat, ms: seq<Message>)
    requires ms == []
    ensures EncodeItems(schema, tag, ms) == []
  {
  }

  /** One byte for the tag of every item, and what each item takes with its length. */
  method ItemsSize(schema: Schema, ghost tag: nat, ms: seq<Message>) returns (size: nat, part: seq<Cached>)
    requires forall m :: m in ms ==> Shaped(schema, m)
    requires |Varint(tag)| == 1 && |EncodeItems(schema, tag, ms)| < Two31
    ensures size == |EncodeItems(schema, tag, ms)|
    ensures part == seq(|ms|, j requires 0 <= j < |ms| => Sizes(schema, ms[j]))
    decreases ms
  {
    hide Encode, EncodeItems, Sizes, Varint, Shaped;
    assert ms[0..] == ms;
    size, part := |ms|, [];
    var j := 0;
    while j < |ms|
      invariant 0 <= j <= |ms| && |part| == j
      invariant |EncodeItems(schema, tag, ms[j..])| <= |EncodeItems(schema, tag, ms)|
      invariant size + |EncodeItems(schema, tag, ms[j..])| == |EncodeItems(schema, tag, ms)| + |ms| - j
      invariant forall k :: 0 <= k < j ==> ms[k] in ms && part[k] == Sizes(schema, ms[k])
    {
      ItemStep(schema, tag, ms, j);
      var n, cache := ByteSize(schema, ms[j]);
      VarintSize32Exact(n);
      size := size + VarintSize32(n) + n;
      part := part + [cache];
      j := j + 1;
    }
    NoItems(schema, tag, ms[j..]);
  }

  // ---------- serializing into an array ----------

  /** SerializeWithCachedSizesToArray. */
  method SerializeWithCachedSizesToArray(schema: Schema, m: Message, cache: Cached, target: array<byte>, at: nat)
    returns (end: nat)
    requires Shaped(schema, m) && |Encode(schema, m)| < Two31 && cache == Sizes(schema, m)
    requires at + |Encode(schema, m)| <= target.Length
    modifies target
    ensures end == at + |Encode(schema, m)| && Wrote(old(target[..]), target[..], at, Encode(schema, m))
    decreases m, 2
  {
    hide Shaped, ShapedValue, Encode, EncodeFrom, EncodeValue, EncodeUnknown, SizesIn, FieldTag, Wrote;
    EncodeEnds(schema, m);
    ghost var done: seq<byte> := [];
    WroteNothing(target[..], at);
    end := at;
    var i := 0;
    while i < |m.fields|
      invariant 0 <= i <= |m.fields|
      invariant end == at + |done| && done + EncodeFrom(schema, m, i) == Encode(schema, m)
      invariant Wrote(old(target[..]), target[..], at, done)
    {
      FieldShaped(schema, m, i);
      ghost var e := EncodeValue(schema.fields[i].kind, FieldTag(schema, i), m.fields[i]);
      assert done + (e + EncodeFrom(schema, m, i + 1)) == done + e + EncodeFrom(schema, m, i + 1);
      ghost var mid := target[..];
      end := WriteFieldToArray(schema, i, m.fields[i], cache.parts[i], target, end);
      WroteTrans(old(target[..]), mid, target[..], at, done, e);
      done := done + e;
      i := i + 1;
    }
    if m.unknown != [] {
      ghost var mid := target[..];
      end := SerializeUnknownFieldsToArray(m.unknown, target, end);
      WroteTrans(old(target[..]), mid, target[..], at, done, EncodeUnknown(m.unknown));
    } else {
      NoUnknown(m.unknown);
      assert done + [] == done;
    }
  }

  method WriteFieldToArray(schema: Schema, i: nat, v: Value, part: seq<Cached>, target: array<byte>, at: nat)
    returns (end: nat)
    requires SmallSchema(schema) && i < |schema.fields| && ShapedValue(schema.fields[i].kind, v)
    requires |EncodeValue(schema.fields[i].kind, FieldTag(schema, i), v)| < Two31
    requires part == SizesIn(schema.fields[i].kind, v)
    requires at + |EncodeValue(schema.fields[i].kind, FieldTag(schema, i), v)| <= target.Length
    modifies target
    ensures end == at + |EncodeValue(schema.fields[i].kind, FieldTag(schema, i), v)|
    ensures Wrote(old(target[..]), target[..], at, EncodeValue(schema.fields[i].kind, FieldTag(schema, i), v))
    decreases v, 0
  {
    hide Encode, EncodeItems, Sizes, Varint, Shaped, Wrote;
    var tag := FieldTag(schema, i);
    hide FieldTag;
    end := at;
    match v {
      case Absent =>
        WroteNothing(target[..], at);
      case Number(n) =>
        end := WriteVarint32ToArray(tag, target, at);
        ghost var mid := target[..];
        end := WriteVarint32SignExtendedToArray(n, target, end);
        WroteTrans(old(target[..]), mid, target[..], at, Varint(tag), Varint(SignExtend(n)));
      case Text(data) =>
        end := WriteVarint32ToArray(tag, target, at);
        ghost var mid := target[..];
        end := WritePrefixedToArray(data, target, end);
        WroteTrans(old(target[..]), mid, target[..], at, Varint(tag), Prefixed(data));
      case Sub(m) =>
        end := WriteMessageToArray(schema.fields[i].kind.schema, tag, m, part[0], target, at);
      case Many(ms) =>
        end := WriteItemsToArray(schema.fields[i].kind.schema, tag, ms, part, target, at);
    }
  }

  /** WriteMessageNoVirtualToArray: the length prefix is the cached size. */
  method WriteMessageToArray(schema: Schema, tag: uint32, m: Message, cache: Cached, target: array<byte>, at: nat)
    returns (end: nat)
    requires Shaped(schema, m) && |Encode(schema, m)| < Two31 && cache == Sizes(schema, m)
    requires at + |Varint(tag) + Prefixed(Encode(schema, m))| <= target.Length
    modifies target
    ensures end == at + |Varint(tag) + Prefixed(Encode(schema, m))|
    ensures Wrote(old(target[..]), target[..], at, Varint(tag) + Prefixed(Encode(schema, m)))
    decreases m, 3
  {
    hide Encode, Varint, Shaped, Wrote;
    end := WriteVarint32ToArray(tag, target, at);
    ghost var mid := target[..];
    end := WriteVarint32ToArray(cache.size, target, end);
    WroteTrans(old(target[..]), mid, target[..], at, Varint(tag), Varint(cache.size));
    mid := target[..];
    end := SerializeWithCachedSizesToArray(schema, m, cache, target, end);
    WroteTrans(old(target[..]), mid, target[..], at, Varint(tag) + Varint(cache.size), Encode(schema, m));
    assert Varint(tag) + Varint(cache.size) + Encode(schema, m) == Varint(tag) + Prefixed(Encode(schema, m));
  }

  method WriteItemsToArray(schema: Schema, tag: uint32, ms: seq<Message>, part: seq<Cached>, target: array<byte>,
                           at: nat)
    returns (end: nat)
    requires forall m :: m in ms ==> Shaped(schema, m)
    requires |EncodeItems(schema, tag, ms)| < Two31
    requires part == seq(|ms|, j requires 0 <= j < |ms| => Sizes(schema, ms[j]))
    requires at + |EncodeItems(schema, tag, ms)| <= target.Length
    modifies target
    ensures end == at + |EncodeItems(schema, tag, ms)|
    ensures Wrote(old(target[..]), target[..], at, EncodeItems(schema, tag, ms))
    decreases ms
  {
    hide Encode, EncodeItems, Sizes, Varint, Shaped, Wrote;
    ghost var done: seq<byte> := [];
    WroteNothing(target[..], at);
    assert ms[0..] == ms;
    end := at;
    var j := 0;
    while j < |ms|
      invariant 0 <= j <= |ms|
      invariant end == at + |done| && done + EncodeItems(schema, tag, ms[j..]) == EncodeItems(schema, tag, ms)
      invariant Wrote(old(target[..]), target[..], at, done)
    {
      ItemStep(schema, tag, ms, j);
      ghost var e, tail := Varint(tag) + Prefixed(Encode(schema, ms[j])), EncodeItems(schema, tag, ms[j + 1..]);
      assert done + (e + tail) == done + e + tail;
      ghost var mid := target[..];
      end := WriteMessageToArray(schema, tag, ms[j], part[j], target, end);
      WroteTrans(old(target[..]), mid, target[..], at, done, e);
      done := done + e;
      j := j + 1;
    }
    NoItems(schema, tag, ms[j..]);
    assert done + [] == done;
  }

  // ---------- serializing into a stream ----------

  /** SerializeWithCachedSizes. */
  method SerializeWithCachedSizes(schema: Schema, m: Message, cache: Cached, output: CodedOutputStream)
    requires Shaped(schema, m) && |Encode(schema, m)| < Two31 && cache == Sizes(schema, m)
    requires output.Valid()
    modifies output
    ensures output.Valid() && output.State() == Put(old(output.State()), Encode(schema, m))
    decreases m, 2
  {
    hide Shaped, ShapedValue, Encode, EncodeFrom, EncodeValue, EncodeUnknown, SizesIn, FieldTag;
    EncodeEnds(schema, m);
    var i := 0;
    while i < |m.fields|
      invariant 0 <= i <= |m.fields|
      invariant |EncodeFrom(schema, m, i)| <= |Encode(schema, m)|
      invariant output.Valid()
      invariant Put(output.State(), EncodeFrom(schema, m, i)) == Put(old(output.State()), Encode(schema, m))
    {
      FieldShaped(schema, m, i);
      ghost var e := EncodeValue(schema.fields[i].kind, FieldTag(schema, i), m.fields[i]);
      PutTwice(output.State(), e, EncodeFrom(schema, m, i + 1));
      WriteField(schema, i, m.fields[i], cache.parts[i], output);
      i := i + 1;
    }
    if m.unknown != [] {
      SerializeUnknownFields(m.unknown, output);
    } else {
      NoUnknown(m.unknown);
      PutNothing(output.State());
    }
  }

  method WriteField(schema: Schema, i: nat, v: Value, part: seq<Cached>, output: CodedOutputStream)
    requires SmallSchema(schema) && i < |schema.fields| && ShapedValue(schema.fields[i].kind, v)
    requires |EncodeValue(schema.fields[i].kind, FieldTag(schema, i), v)| < Two31
    requires part == SizesIn(schema.fields[i].kind, v)
    requires output.Valid()
    modifies output
    ensures output.Valid()
    ensures output.State()
         == Put(old(output.State()), EncodeValue(schema.fields[i].kind, FieldTag(schema, i), v))
    decreases v, 0
  {
    hide Encode, EncodeItems, Sizes, Varint, Shaped;
    var tag := FieldTag(schema, i);
    hide FieldTag;
    match v {
      case Absent =>
        PutNothing(output.State());
      case Number(n) =>
        PutTwice(output.State(), Varint(tag), Varint(SignExtend(n)));
        output.WriteVarint32(tag);
        output.WriteVarint32SignExtended(n);
      case Text(data) =>
        PutTwice(output.State(), Varint(tag), Prefixed(data));
        output.WriteVarint32(tag);
        WritePrefixed(data, output);
      case Sub(m) =>
        WriteMessageMaybeToArray(schema.fields[i].kind.schema, tag, m, part[0], output);
      case Many(ms) =>
        WriteItems(schema.fields[i].kind.schema, tag, ms, part, output);
    }
  }

  /** Goes through the array serializer when the current buffer has room for the whole sub-message. */
  method WriteMessageMaybeToArray(schema: Schema, tag: uint32, m: Message, cache: Cached, output: CodedOutputStream)
    requires Shaped(schema, m) && |Encode(schema, m)| < Two31 && cache == Sizes(schema, m)
    requires output.Valid()
    modifies output
    ensures output.Valid() && output.State() == Put(old(output.State()), Varint(tag) + Prefixed(Encode(schema, m)))
    decreases m, 3
  {
    hide Encode, Varint, Shaped, Wrote, Put;
    ghost var e := Encode(schema, m);
    PutTwice(output.State(), Varint(tag), Varint(|e|) + e);
    output.WriteVarint32(tag);
    PutTwice(output.State(), Varint(|e|), e);
    output.WriteVarint32(cache.size);
    if output.bufferSize >= cache.size {
      var buffer := new byte[cache.size];
      ghost var before := buffer[..];
      var end := SerializeWithCachedSizesToArray(schema, m, cache, buffer, 0);
      WroteAll(before, buffer[..], Encode(schema, m));
      output.Advance(buffer[..]);
    } else {
      SerializeWithCachedSizes(schema, m, cache, output);
    }
  }

  method WriteItems(schema: Schema, tag: uint32, ms: seq<Message>, part: seq<Cached>, output: CodedOutputStream)
    requires forall m :: m in ms ==> Shaped(schema, m)
    requires |EncodeItems(schema, tag, ms)| < Two31
    requires part == seq(|ms|, j requires 0 <= j < |ms| => Sizes(schema, ms[j]))
    requires output.Valid()
    modifies output
    ensures output.Valid() && output.State() == Put(old(output.State()), EncodeItems(schema, tag, ms))
    decreases ms
  {
    hide Encode, EncodeItems, Sizes, Varint, Shaped;
    assert ms[0..] == ms;
    var j := 0;
    while j < |ms|
      invariant 0 <= j <= |ms|
      invariant |EncodeItems(schema, tag, ms[j..])| <= |EncodeItems(schema, tag, ms)|
      invariant output.Valid()
      invariant Put(output.State(), EncodeItems(schema, tag, ms[j..]))
                == Put(old(output.State()), EncodeItems(schema, tag, ms))
    {
      ItemStep(schema, tag, ms, j);
      ghost var e, tail := Varint(tag) + Prefixed(Encode(schema, ms[j])), EncodeItems(schema, tag, ms[j + 1..]);
      PutTwice(output.State(), e, tail);
      WriteMessageMaybeToArray(schema, tag, ms[j], part[j], output);
      j := j + 1;
    }
    NoItems(schema, tag, ms[j..]);
    PutNothing(output.State());
  }

  // ---------- whole messages ----------

  /** SerializeToString: the size pass, then the array serializer into exactly that many bytes. */
  method SerializeToString(schema: Schema, m: Message) returns (data: seq<byte>)
    requires Shaped(schema, m) && |Encode(schema, m)| < Two31
    ensures data == Encode(schema, m)
  {
    hide Encode, Shaped, Wrote;
    var size, cache := ByteSize(schema, m);
    var target := new byte[size];
    ghost var before := target[..];
    var end := SerializeWithCachedSizesToArray(schema, m, cache, target, 0);
    WroteAll(before, target[..], Encode(schema, m));
    data := target[..end];
  }

  /** SerializePartialToCodedStream: into the current buffer if there is room, and otherwise buffer by buffer. It
      succeeds exactly when the stream has room for the whole message, which is then in it. */
  method SerializePartialToCodedStream(schema: Schema, m: Message, output: CodedOutputStream) returns (ok: bool)
    requires Shaped(schema, m) && |Encode(schema, m)| < Two31
    requires output.Valid() && !output.hadError
    modifies output
    ensures output.Valid() && output.State() == Put(old(output.State()), Encode(schema, m))
    ensures ok == (|Encode(schema, m)| <= old(output.State().room))
    ensures ok ==> output.written == old(output.written) + Encode(schema, m)
  {
    hide Encode, Shaped, Wrote, Put, Sum;
    PutAll(output.State(), Encode(schema, m));
    var size, cache := ByteSize(schema, m);
    if output.bufferSize >= size {
      var target := new byte[size];
      ghost var before := target[..];
      var end := SerializeWithCachedSizesToArray(schema, m, cache, target, 0);
      WroteAll(before, target[..], Encode(schema, m));
      output.Advance(target[..]);
      ok := true;
    } else {
      SerializeWithCachedSizes(schema, m, cache, output);
      ok := !output.hadError;
    }
  }

  /** What one side serializes, the other side parses back. */
  method SendAndReceive(schema: Schema, m: Message) returns (received: Message)
    requires ValidSchema(schema) && Shaped(schema, m)
    requires Initialized(schema, m) && Readable(schema, m, RecursionLimit)
    requires |Encode(schema, m)| <= TotalBytesLimit
    ensures received == m
  {
    hide Encode, Shaped, ValidSchema, Parse, Initialized, Readable;
    var data := SerializeToString(schema, m);
    RoundTrips.ParseBack(schema, m);
    var ok;
    ok, received := Parsing.ParseFromArray(schema, data);
  }
}
