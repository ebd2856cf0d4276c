/** Messages of generated classes: what parsing, serializing and merging mean, for any schema. A field has the number
    of its position plus one. */
module Messages {
  import opened Wrappers
  import opened Wire

  // ---------- schemas and messages ----------

  datatype Kind =
    | Int32Kind
    | EnumKind(values: set<int32>, default: int32)
    | BytesKind
    | MessageKind(schema: Schema)
    | RepeatedKind(schema: Schema)

  datatype FieldSpec = FieldSpec(kind: Kind, required: bool)

  datatype Schema = Schema(fields: seq<FieldSpec>)

  /** A field whose has-bit is clear is Absent; a repeated field is a list, possibly empty. */
  datatype Value =
    | Absent
    | Number(n: int32)
    | Text(data: seq<byte>)
    | Sub(m: Message)
    | Many(ms: seq<Message>)

  datatype Message = Message(fields: seq<Value>, unknown: seq<UnknownField>)

  /** All tags of the schema fit in one byte. */
  predicate SmallSchema(schema: Schema) {
    |schema.fields| <= 15
  }

  predicate Shaped(schema: Schema, m: Message)
    decreases m
  {
    && SmallSchema(schema)
    && |m.fields| == |schema.fields|
    && forall i :: 0 <= i < |m.fields| ==> ShapedValue(schema.fields[i].kind, m.fields[i])
  }

  predicate ShapedValue(kind: Kind, v: Value)
    decreases v
  {
    match v
    case Absent => !kind.RepeatedKind?
    case Number(n) => kind.Int32Kind? || (kind.EnumKind? && n in kind.values)
    case Text(_) => kind.BytesKind?
    case Sub(m) => kind.MessageKind? && Shaped(kind.schema, m)
    case Many(ms) => kind.RepeatedKind? && forall m :: m in ms ==> Shaped(kind.schema, m)
  }

  /** Sub-message types are small too. */
  predicate ValidSchema(schema: Schema) {
    SmallSchema(schema) && forall f :: f in schema.fields ==> ValidKind(f.kind)
  }

  predicate ValidKind(kind: Kind) {
    match kind
    case EnumKind(values, default) => default in values
    case MessageKind(schema) => ValidSchema(schema)
    case RepeatedKind(schema) => ValidSchema(schema)
    case _ => true
  }

  function EmptyValue(kind: Kind): Value {
    if kind.RepeatedKind? then Many([]) else Absent
  }

  function Empty(schema: Schema): (m: Message)
    ensures ValidSchema(schema) ==> Shaped(schema, m)
  {
    var fields := seq(|schema.fields|, i requires 0 <= i < |schema.fields| => EmptyValue(schema.fields[i].kind));
    var m := Message(fields, []);
    assert ValidSchema(schema) ==> Shaped(schema, m) by {
      if ValidSchema(schema) {
        forall i | 0 <= i < |m.fields| ensures ShapedValue(schema.fields[i].kind, m.fields[i]) {
          assert schema.fields[i] in schema.fields;
          assert m.fields[i] == EmptyValue(schema.fields[i].kind);
        }
      }
    }
    m
  }

  predicate Initialized(schema: Schema, m: Message)
    requires Shaped(schema, m)
    decreases m
  {
    forall i :: 0 <= i < |m.fields| ==>
      (schema.fields[i].required ==> !m.fields[i].Absent?) && InitializedValue(schema.fields[i].kind, m.fields[i])
  }

  predicate InitializedValue(kind: Kind, v: Value)
    requires ShapedValue(kind, v)
    decreases v
  {
    match v
    case Sub(m) => Initialized(kind.schema, m)
    case Many(ms) => forall m :: m in ms ==> Initialized(kind.schema, m)
    case _ => true
  }

  // ---------- tags ----------

  function KindWireType(kind: Kind): nat {
    if kind.Int32Kind? || kind.EnumKind? then VarintType else LengthDelimitedType
  }

  function FieldTag(schema: Schema, i: nat): (tag: nat)
    requires i < |schema.fields|
    ensures tag / 8 == i + 1 && !StopTag(tag)
    ensures SmallSchema(schema) ==> tag < 128
  {
    MakeTag(i + 1, KindWireType(schema.fields[i].kind))
  }

  /** Which field a tag belongs to. */
  function FieldOf(schema: Schema, tag: nat): (f: Option<nat>)
    ensures f.Some? ==> f.value < |schema.fields| && tag == FieldTag(schema, f.value)
  {
    if 0 < tag / 8 <= |schema.fields| && tag == FieldTag(schema, tag / 8 - 1) then Some(tag / 8 - 1) else None
  }

  lemma FieldOfTag(schema: Schema, i: nat)
    requires i < |schema.fields|
    ensures FieldOf(schema, FieldTag(schema, i)) == Some(i)
  {
  }

  // ---------- parsing, by plain dispatch on tags ----------

  /** PushLimit: a length that is negative as int, or more than what is left, stands for all that is left. */
  function Clamp(length: nat, available: nat): (k: nat)
    ensures k <= available
  {
    if length < Two31 && length <= available then length else available
  }

  /** The sub-message that parsing a field merges into. */
  function Base(kind: Kind, v: Value): (m: Message)
    requires kind.MessageKind? && ValidKind(kind) && ShapedValue(kind, v)
    ensures Shaped(kind.schema, m)
  {
    if v.Sub? then v.m else Empty(kind.schema)
  }

  /** Reads all of `s` into `m`. */
  function ParseFields(schema: Schema, s: seq<byte>, depth: nat, m: Message): (r: Option<Message>)
    requires ValidSchema(schema) && Shaped(schema, m)
    ensures r.Some? ==> Shaped(schema, r.value)
    decreases |s|, 3
  {
    if s == [] then Some(m)
    else
      match ReadVarint32(s)
      case Fail => None
      case Take(tag, rest) =>
        if StopTag(tag) then None
        else
          match ReadField(schema, tag, rest, depth, m)
          case Fail => None
          case Take(m', rest') => ParseFields(schema, rest', depth, m')
  }

  function ReadField(schema: Schema, tag: nat, s: seq<byte>, depth: nat, m: Message): (r: Reading<Message>)
    requires ValidSchema(schema) && Shaped(schema, m) && tag < Two32
    ensures r.Take? ==> Shaped(schema, r.value) && |r.rest| <= |s|
    decreases |s|, 2
  {
    match FieldOf(schema, tag)
    case Some(i) => ReadValue(schema, i, s, depth, m)
    case None =>
      match SkipField(tag, s, depth)
      case Fail => Fail
      case Take(u, rest) => Take(WithUnknown(schema, m, u), rest)
  }

  /** Reads the value of field `i` and stores it; an unknown enum value goes to the unknown fields. */
  function ReadValue(schema: Schema, i: nat, s: seq<byte>, depth: nat, m: Message): (r: Reading<Message>)
    requires ValidSchema(schema) && Shaped(schema, m) && i < |schema.fields|
    ensures r.Take? ==> Shaped(schema, r.value) && |r.rest| <= |s|
    decreases |s|, 1
  {
    var kind, v := schema.fields[i].kind, m.fields[i];
    assert ValidKind(kind) by { assert schema.fields[i] in schema.fields; }
    assert ShapedValue(kind, v);
    match kind
    case Int32Kind =>
      (match ReadVarint32(s)
       case Fail => Fail
       case Take(n, rest) => Take(With(schema, m, i, Number(ToInt32(n))), rest))
    case EnumKind(_, _) =>
      (match ReadVarint32(s)
       case Fail => Fail
       case Take(n, rest) => Take(StoreEnum(schema, m, i, ToInt32(n)), rest))
    case BytesKind =>
      (match ReadString(s)
       case Fail => Fail
       case Take(data, rest) => Take(With(schema, m, i, Text(data)), rest))
    case MessageKind(sub) =>
      (match ReadMessage(sub, s, depth, Base(kind, v))
       case Fail => Fail
       case Take(x, rest) => Take(With(schema, m, i, Sub(x)), rest))
    case RepeatedKind(sub) =>
      (match ReadMessage(sub, s, depth, Empty(sub))
       case Fail => Fail
       case Take(x, rest) => Take(With(schema, m, i, Many(v.ms + [x])), rest))
  }

  function With(schema: Schema, m: Message, i: nat, v: Value): (m': Message)
    requires Shaped(schema, m) && i < |schema.fields| && ShapedValue(schema.fields[i].kind, v)
    ensures Shaped(schema, m')
  {
    m.(fields := m.fields[i := v])
  }

  /** An enum value that the schema does not know is kept as an unknown varint. */
  function StoreEnum(schema: Schema, m: Message, i: nat, v: int32): (m': Message)
    requires Shaped(schema, m) && i < |schema.fields| && schema.fields[i].kind.EnumKind?
    ensures Shaped(schema, m')
  {
    if v in schema.fields[i].kind.values then With(schema, m, i, Number(v))
    else WithUnknown(schema, m, UVarint(i + 1, SignExtend(v)))
  }

  function WithUnknown(schema: Schema, m: Message, u: UnknownField): (m': Message)
    requires Shaped(schema, m)
    ensures Shaped(schema, m')
  {
    m.(unknown := m.unknown + [u])
  }

  /** WireFormatLite::ReadMessageNoVirtual. */
  function ReadMessage(schema: Schema, s: seq<byte>, depth: nat, m: Message): (r: Reading<Message>)
    requires ValidSchema(schema) && Shaped(schema, m)
    ensures r.Take? ==> Shaped(schema, r.value) && |r.rest| <= |s|
    decreases |s|, 0
  {
    match ReadVarint32(s)
    case Fail => Fail
    case Take(length, rest) =>
      if depth == 0 then Fail
      else
        var k := Clamp(length, |rest|);
        match ParseFields(schema, rest[..k], depth - 1, m)
        case None => Fail
        case Some(x) => Take(x, rest[k..])
  }

  /** No field is a message. */
  predicate Flat(schema: Schema) {
    forall f :: f in schema.fields ==> !f.kind.MessageKind? && !f.kind.RepeatedKind?
  }

  /** The inputs whose parsing is described: up to the total limit of a stream, and beyond it while no sub-message
      sets another limit. */
  predicate Covered(schema: Schema, size: nat) {
    size <= TotalBytesLimit || Flat(schema)
  }

  /** The field with the highest number, after which the generated parser expects the end of the message. */
  predicate IsLastField(schema: Schema, f: Option<nat>) {
    f.Some? && f.value + 1 == |schema.fields|
  }

  /** The last record of `s` is one of that field; `last` says so of what came before. */
  predicate EndsBehindLast(schema: Schema, s: seq<byte>, depth: nat, m: Message, last: bool)
    requires ValidSchema(schema) && Shaped(schema, m)
    decreases |s|
  {
    if s == [] then last
    else
      match ReadVarint32(s)
      case Fail => false
      case Take(tag, rest) =>
        !StopTag(tag) &&
        match ReadField(schema, tag, rest, depth, m)
        case Fail => false
        case Take(m', rest') => EndsBehindLast(schema, rest', depth, m', IsLastField(schema, FieldOf(schema, tag)))
  }

  /** Reading all of `s` to where the message may end. When the input goes beyond the total limit of the stream, it may
      only end where its end is expected, behind the last field. */
  function ParseToEnd(schema: Schema, s: seq<byte>, depth: nat, m: Message, beyond: bool, last: bool)
    : (r: Option<Message>)
    requires ValidSchema(schema) && Shaped(schema, m)
    ensures r.Some? ==> Shaped(schema, r.value)
  {
    if beyond && !EndsBehindLast(schema, s, depth, m, last) then None else ParseFields(schema, s, depth, m)
  }

  /** MessageLite::ParseFromArray. */
  function Parse(schema: Schema, s: seq<byte>): (r: Option<Message>)
    requires ValidSchema(schema) && Covered(schema, |s|)
    ensures r.Some? ==> Shaped(schema, r.value)
  {
    var r := ParseToEnd(schema, s, RecursionLimit, Empty(schema), |s| > TotalBytesLimit, false);
    if r.Some? && Initialized(schema, r.value) then r else None
  }

  // ---------- serializing ----------

  function Encode(schema: Schema, m: Message): seq<byte>
    requires Shaped(schema, m)
    decreases m, |m.fields| + 1
  {
    EncodeFrom(schema, m, 0)
  }

  /** The fields from number `i + 1` on, then the unknown fields. */
  function EncodeFrom(schema: Schema, m: Message, i: nat): seq<byte>
    requires Shaped(schema, m) && i <= |m.fields|
    decreases m, |m.fields| - i
  {
    if i == |m.fields| then EncodeUnknown(m.unknown)
    else EncodeValue(schema.fields[i].kind, FieldTag(schema, i), m.fields[i]) + EncodeFrom(schema, m, i + 1)
  }

  function EncodeValue(kind: Kind, tag: nat, v: Value): seq<byte>
    requires ShapedValue(kind, v)
    decreases v
  {
    match v
    case Absent => []
    case Number(n) => Varint(tag) + Varint(SignExtend(n))
    case Text(data) => Varint(tag) + Prefixed(data)
    case Sub(m) => Varint(tag) + Prefixed(Encode(kind.schema, m))
    case Many(ms) => EncodeItems(kind.schema, tag, ms)
  }

  function EncodeItems(schema: Schema, tag: nat, ms: seq<Message>): seq<byte>
    requires forall m :: m in ms ==> Shaped(schema, m)
    decreases ms
  {
    if ms == [] then []
    else Varint(tag) + Prefixed(Encode(schema, ms[0])) + EncodeItems(schema, tag, ms[1..])
  }

  // ---------- merging ----------

  /** MergeFrom: singular scalars are replaced, sub-messages merged, lists and unknown fields appended. */
  function Merge(schema: Schema, a: Message, b: Message): (m: Message)
    requires ValidSchema(schema) && Shaped(schema, a) && Shaped(schema, b)
    ensures Shaped(schema, m)
    decreases b
  {
    Message(seq(|schema.fields|, i requires 0 <= i < |schema.fields| =>
                  assert schema.fields[i] in schema.fields;
                  MergeValue(schema.fields[i].kind, a.fields[i], b.fields[i])),
            a.unknown + b.unknown)
  }

  function MergeValue(kind: Kind, a: Value, b: Value): (v: Value)
    requires ValidKind(kind) && ShapedValue(kind, a) && ShapedValue(kind, b)
    ensures ShapedValue(kind, v)
    decreases b
  {
    match b
    case Absent => a
    case Sub(m) => Sub(Merge(kind.schema, Base(kind, a), m))
    case Many(ms) => Many(a.ms + ms)
    case _ => b
  }

  // ---------- what can be read back ----------

  /** An unknown field that the parser of this schema leaves unknown. */
  predicate LeftUnknown(schema: Schema, u: UnknownField) {
    var f := FieldOf(schema, TagOf(u));
    f.Some? ==>
      && schema.fields[f.value].kind.EnumKind?
      && u.UVarint?
      && exists v: int32 :: u.varint == SignExtend(v) && v !in schema.fields[f.value].kind.values
  }

  /** The messages that parsing with `depth` levels of nesting left can produce. */
  predicate Readable(schema: Schema, m: Message, depth: nat)
    requires Shaped(schema, m)
    decreases m
  {
    && (forall u :: u in m.unknown ==> Storable(u, depth) && LeftUnknown(schema, u))
    && forall i :: 0 <= i < |m.fields| ==> ReadableValue(schema.fields[i].kind, m.fields[i], depth)
  }

  predicate ReadableValue(kind: Kind, v: Value, depth: nat)
    requires ShapedValue(kind, v)
    decreases v
  {
    match v
    case Text(data) => |data| < Two31
    case Sub(m) => depth > 0 && Readable(kind.schema, m, depth - 1)
    case Many(ms) => forall m :: m in ms ==> depth > 0 && Readable(kind.schema, m, depth - 1)
    case _ => true
  }
}
