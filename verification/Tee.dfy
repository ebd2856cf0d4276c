/** The five TEE messages. */
module Tee {
  import opened Wrappers
  import opened Wire
  import opened Messages
  import opened RoundTrips
  import opened Merging

  function Required(kind: Kind): FieldSpec {
    FieldSpec(kind, true)
  }

  function Optional(kind: Kind): FieldSpec {
    FieldSpec(kind, false)
  }

  function TeecValue(): Schema {
    Schema([Required(Int32Kind), Required(Int32Kind), Required(EnumKind({1, 2, 3}, 1))])
  }

  function TeecSharedMemory(): Schema {
    Schema([Required(BytesKind), Required(Int32Kind), Required(Int32Kind), Optional(Int32Kind), Optional(Int32Kind)])
  }

  function TeecSharedMemoryReference(): Schema {
    Schema([Required(MessageKind(TeecSharedMemory())), Required(Int32Kind), Required(EnumKind({13, 14, 15}, 13))])
  }

  function TeecParameter(): Schema {
    Schema([Required(EnumKind({1, 2, 3}, 1)), Optional(MessageKind(TeecSharedMemoryReference())),
            Optional(MessageKind(TeecValue())), Optional(Int32Kind)])
  }

  function TeecOperation(): Schema {
    Schema([Required(Int32Kind), Optional(RepeatedKind(TeecParameter()))])
  }

  lemma ValidSchemas()
    ensures ValidSchema(TeecValue()) && ValidSchema(TeecSharedMemory()) && ValidSchema(TeecSharedMemoryReference())
    ensures ValidSchema(TeecParameter()) && ValidSchema(TeecOperation())
  {
  }

  /** The tags that the generated parsers compare with. */
  lemma GeneratedTags()
    ensures FieldTag(TeecOperation(), 0) == 8 && FieldTag(TeecOperation(), 1) == 18
    ensures FieldTag(TeecParameter(), 0) == 8 && FieldTag(TeecParameter(), 1) == 18
    ensures FieldTag(TeecParameter(), 2) == 26 && FieldTag(TeecParameter(), 3) == 32
    ensures FieldTag(TeecSharedMemory(), 0) == 10 && FieldTag(TeecSharedMemory(), 1) == 16
    ensures FieldTag(TeecSharedMemory(), 2) == 24 && FieldTag(TeecSharedMemory(), 3) == 32
    ensures FieldTag(TeecSharedMemory(), 4) == 40
    ensures FieldTag(TeecSharedMemoryReference(), 0) == 10 && FieldTag(TeecSharedMemoryReference(), 1) == 16
    ensures FieldTag(TeecSharedMemoryReference(), 2) == 24
    ensures FieldTag(TeecValue(), 0) == 8 && FieldTag(TeecValue(), 1) == 16 && FieldTag(TeecValue(), 2) == 24
  {
  }

  // ---------- messages without unknown fields ----------

  /** No unknown fields anywhere, and no byte string that is too long for its length. */
  predicate Plain(schema: Schema, m: Message)
    requires Shaped(schema, m)
    decreases m
  {
    m.unknown == [] && forall i :: 0 <= i < |m.fields| ==> PlainValue(schema.fields[i].kind, m.fields[i])
  }

  predicate PlainValue(kind: Kind, v: Value)
    requires ShapedValue(kind, v)
    decreases v
  {
    match v
    case Text(data) => |data| < Two31
    case Sub(m) => Plain(kind.schema, m)
    case Many(ms) => forall m :: m in ms ==> Plain(kind.schema, m)
    case _ => true
  }

  /** Messages of the schema nest at most `depth` levels below it. */
  predicate NestsWithin(schema: Schema, depth: nat) {
    forall f :: f in schema.fields ==>
      match f.kind
      case MessageKind(sub) => depth > 0 && NestsWithin(sub, depth - 1)
      case RepeatedKind(sub) => depth > 0 && NestsWithin(sub, depth - 1)
      case _ => true
  }

  lemma {:induction false} PlainReadable(schema: Schema, m: Message, depth: nat)
    requires Shaped(schema, m) && Plain(schema, m) && NestsWithin(schema, depth)
    ensures Readable(schema, m, depth)
    decreases m
  {
    forall i | 0 <= i < |m.fields| ensures ReadableValue(schema.fields[i].kind, m.fields[i], depth) {
      assert schema.fields[i] in schema.fields;
      assert PlainValue(schema.fields[i].kind, m.fields[i]) && ShapedValue(schema.fields[i].kind, m.fields[i]);
      match m.fields[i] {
        case Sub(x) => PlainReadable(schema.fields[i].kind.schema, x, depth - 1);
        case Many(ms) =>
          forall x | x in ms ensures depth > 0 && Readable(schema.fields[i].kind.schema, x, depth - 1) {
            PlainReadable(schema.fields[i].kind.schema, x, depth - 1);
          }
        case _ =>
      }
    }
  }

  lemma TeeNesting()
    ensures NestsWithin(TeecOperation(), 3)
  {
    assert NestsWithin(TeecSharedMemory(), 0);
    assert NestsWithin(TeecValue(), 1);
    assert NestsWithin(TeecSharedMemoryReference(), 1);
    assert NestsWithin(TeecParameter(), 2);
  }

  lemma {:induction false} DeeperStill(schema: Schema, depth: nat, more: nat)
    requires NestsWithin(schema, depth) && depth <= more
    ensures NestsWithin(schema, more)
    decreases depth
  {
    forall f | f in schema.fields
      ensures match f.kind
              case MessageKind(sub) => more > 0 && NestsWithin(sub, more - 1)
              case RepeatedKind(sub) => more > 0 && NestsWithin(sub, more - 1)
              case _ => true
    {
      match f.kind {
        case MessageKind(sub) => DeeperStill(sub, depth - 1, more - 1);
        case RepeatedKind(sub) => DeeperStill(sub, depth - 1, more - 1);
        case _ =>
      }
    }
  }

  /** Every initialized operation without unknown fields survives serializing and parsing. */
  lemma PlainOperationBack(m: Message)
    requires Shaped(TeecOperation(), m) && Initialized(TeecOperation(), m) && Plain(TeecOperation(), m)
    requires |Encode(TeecOperation(), m)| <= TotalBytesLimit
    ensures ValidSchema(TeecOperation())
    ensures Parse(TeecOperation(), Encode(TeecOperation(), m)) == Some(m)
  {
    ValidSchemas();
    TeeNesting();
    hide Shaped, Initialized, Plain, NestsWithin, TeecOperation, Encode, Parse, Readable, ValidSchema;
    DeeperStill(TeecOperation(), 3, RecursionLimit);
    PlainReadable(TeecOperation(), m, RecursionLimit);
    ParseBack(TeecOperation(), m);
  }

  // ---------- a memory that is too long ----------

  /** A shared memory with an identifier, or without one. */
  function MemoryOf(data: seq<byte>, flag: int32, size: int32, id: Value): Message {
    Message([Text(data), Number(flag), Number(size), Absent, id], [])
  }

  lemma MemorySize(data: seq<byte>, flag: int32, size: int32, id: Value)
    requires |data| < Two31 && (id == Absent || id.Number?)
    ensures Shaped(TeecSharedMemory(), MemoryOf(data, flag, size, id))
    ensures |data| < |Encode(TeecSharedMemory(), MemoryOf(data, flag, size, id))| <= |data| + 39
  {
    var schema, m := TeecSharedMemory(), MemoryOf(data, flag, size, id);
    ShortTag(schema, 0);
    ShortTag(schema, 1);
    ShortTag(schema, 2);
    ShortTag(schema, 4);
    VarintSize32Exact(|data|);
    VarintSize64Exact(SignExtend(flag));
    VarintSize64Exact(SignExtend(size));
    if id.Number? {
      VarintSize64Exact(SignExtend(id.n));
    }
    EncodeThis(schema, m, 0);
    EncodeThis(schema, m, 1);
    EncodeThis(schema, m, 2);
    EncodeThis(schema, m, 3);
    EncodeThis(schema, m, 4);
    hide Varint, FieldTag, VarintSize32, VarintSize64, EncodeFrom;
    assert |EncodeFrom(schema, m, 5)| == 0 by {
      NothingMore(schema, m);
    }
  }

  lemma EncodeThis(schema: Schema, m: Message, i: nat)
    requires Shaped(schema, m) && i < |m.fields|
    ensures ShapedValue(schema.fields[i].kind, m.fields[i])
    ensures |EncodeFrom(schema, m, i)|
         == |EncodeValue(schema.fields[i].kind, FieldTag(schema, i), m.fields[i])| + |EncodeFrom(schema, m, i + 1)|
  {
  }

  lemma NothingMore(schema: Schema, m: Message)
    requires Shaped(schema, m) && m.unknown == []
    ensures EncodeFrom(schema, m, |m.fields|) == []
  {
  }

  lemma ShortTag(schema: Schema, i: nat)
    requires SmallSchema(schema) && i < |schema.fields|
    ensures |Varint(FieldTag(schema, i))| == 1
  {
  }

  lemma MemorySound(data: seq<byte>, flag: int32, size: int32, id: Value)
    requires |data| < Two31 && (id == Absent || id.Number?)
    ensures var schema, m := TeecSharedMemory(), MemoryOf(data, flag, size, id);
            && Flat(schema) && Shaped(schema, m) && Initialized(schema, m) && Readable(schema, m, RecursionLimit)
            && LastIsLast(schema, m) == (id != Absent)
  {
    var schema, m := TeecSharedMemory(), MemoryOf(data, flag, size, id);
    MemorySize(data, flag, size, id);
    hide Encode, FieldOf;
    forall i | 0 <= i < |m.fields|
      ensures ReadableValue(schema.fields[i].kind, m.fields[i], RecursionLimit)
              && InitializedValue(schema.fields[i].kind, m.fields[i])
    {
    }
  }

  /** A memory of 64 MB or more is serialized, and parsed back if its last field is there, which makes the parser expect
      the end; without that field the parser runs into the total limit. */
  lemma LongMemory(data: seq<byte>, flag: int32, size: int32, id: int32)
    requires TotalBytesLimit <= |data| < Two31 - 39
    ensures ValidSchema(TeecSharedMemory())
    ensures var m := MemoryOf(data, flag, size, Absent);
            && Shaped(TeecSharedMemory(), m) && Initialized(TeecSharedMemory(), m)
            && Readable(TeecSharedMemory(), m, RecursionLimit)
            && Covered(TeecSharedMemory(), |Encode(TeecSharedMemory(), m)|)
            && Parse(TeecSharedMemory(), Encode(TeecSharedMemory(), m)) == None
    ensures var m := MemoryOf(data, flag, size, Number(id));
            && Shaped(TeecSharedMemory(), m) && Covered(TeecSharedMemory(), |Encode(TeecSharedMemory(), m)|)
            && Parse(TeecSharedMemory(), Encode(TeecSharedMemory(), m)) == Some(m)
  {
    ValidSchemas();
    var schema := TeecSharedMemory();
    var short, long := MemoryOf(data, flag, size, Absent), MemoryOf(data, flag, size, Number(id));
    MemorySize(data, flag, size, Absent);
    MemorySize(data, flag, size, Number(id));
    MemorySound(data, flag, size, Absent);
    MemorySound(data, flag, size, Number(id));
    hide Encode, EndsBehindLast, ParseFields, Readable, Initialized, LastIsLast, Shaped, TeecSharedMemory, ValidSchema,
         Flat;
    EncodedTail(schema, short);
    SurvivesExactly(schema, long);
  }

  // ---------- an operation that is cut short ----------

  /** An operation whose only parameter claims three bytes where there are two. */
  const CutShortOperation: seq<byte> := [18, 3, 8, 1]

  /** The two bytes that are there are a parameter of type 1. */
  lemma CutShortTags()
    ensures ReadVarint32([3, 8, 1]) == Take(3, [8, 1]) && ReadVarint32([8, 1]) == Take(8, [1])
    ensures ReadVarint32([1]) == Take(1, [])
  {
    var none: seq<byte> := [];
    assert [3, 8, 1][1..] == [8, 1] && [8, 1][1..] == [1] && [1][1..] == none;
  }

  lemma CutShortParameter()
    ensures ValidSchema(TeecParameter())
    ensures var p := Empty(TeecParameter());
            ReadMessage(TeecParameter(), [3, 8, 1], 100, p) == Take(With(TeecParameter(), p, 0, Number(1)), [])
  {
    ValidSchemas();
    var sub := TeecParameter();
    var none: seq<byte> := [];
    var p := Empty(sub);
    var p' := With(sub, p, 0, Number(1));
    CutShortTags();
    hide RawVarint, ReadVarint32;
    assert FieldOf(sub, 8) == Some(0);
    assert ReadValue(sub, 0, [1], 99, p) == Take(p', none);
    assert ReadField(sub, 8, [1], 99, p) == Take(p', none);
    assert ParseFields(sub, none, 99, p') == Some(p');
    assert ParseFields(sub, [8, 1], 99, p) == Some(p');
    assert [8, 1][..2] == [8, 1] && [8, 1][2..] == none;
  }

  /** It parses, although its parameter is cut short, so that what follows it would go into the parameter. */
  lemma CutShortParses()
    ensures ValidSchema(TeecOperation())
    ensures ParseFields(TeecOperation(), CutShortOperation, RecursionLimit, Empty(TeecOperation())).Some?
    ensures !Records(CutShortOperation, RecursionLimit)
    ensures exists b :: !ParsesApart(TeecOperation(), CutShortOperation, b, RecursionLimit)
  {
    ValidSchemas();
    CutShortField();
    CutShortLength();
    var op, m := TeecOperation(), Empty(TeecOperation());
    hide ReadField, RawVarint, ReadVarint32, ReadString;
    var m' := ReadField(op, 18, [3, 8, 1], 100, m).value;
    assert ParseFields(op, [], 100, m') == Some(m');
    assert SkipField(18, [3, 8, 1], 100) == Fail;
    ConcatenationIsMerging(op, CutShortOperation, RecursionLimit);
  }

  lemma CutShortField()
    ensures ValidSchema(TeecOperation())
    ensures var r := ReadField(TeecOperation(), 18, [3, 8, 1], 100, Empty(TeecOperation()));
            r.Take? && r.rest == []
  {
    ValidSchemas();
    CutShortParameter();
    var op, m := TeecOperation(), Empty(TeecOperation());
    hide ReadMessage;
    assert FieldOf(op, 18) == Some(1);
    assert ReadValue(op, 1, [3, 8, 1], 100, m).Take? && ReadValue(op, 1, [3, 8, 1], 100, m).rest == [];
  }

  lemma CutShortLength()
    ensures ReadVarint32(CutShortOperation) == Take(18, [3, 8, 1]) && ReadString([3, 8, 1]) == Fail
  {
  }
}
