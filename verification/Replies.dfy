/** Operations as bytes: a request is parsed, exchanged with the TEE, and the reply serialized. */
module Replies {
  import opened Wrappers
  import opened Wire
  import opened Messages
  import opened Tee
  import opened Bridge
  import RoundTrips
  import Leftovers
  import Parsing
  import Serializing

  /** What the operation holds after parsing a request, whether that succeeds or not. */
  function Received(request: seq<byte>): (op: Message)
    ensures IsOperation(op)
  {
    ValidSchemas();
    Leftovers.Left(TeecOperation(), request, RecursionLimit, Empty(TeecOperation()))
  }

  /** A reply differs from its operation in the start flag and, unless it names an unknown memory, in what its
      parameters were opened for. */
  ghost predicate Replied(op: Message, op': Message, memories: map<int32, RegisteredMemory>)
    requires IsOperation(op)
    reads memories.Values
  {
    && IsOperation(op') && |Params(op')| == |Params(op)| && op'.unknown == op.unknown
    && op'.fields[MStarted].Number?
    && if AllKnown(Params(op), memories.Keys)
       then forall i :: 0 <= i < |Params(op)| ==> ConfinedParam(Params(op)[i], Params(op')[i], memories)
       else Params(op') == Params(op)
  }

  ghost predicate ConfinedParam(p: Message, p': Message, memories: map<int32, RegisteredMemory>)
    reads memories.Values
  {
    IsParameter(p) && (HasReference(p) ==> MemoryId(p) in memories)
    && Confined(p, p', memories, FinalBuffer(p, memories))
  }

  ghost predicate RepliedParam(p: Message, p': Message, memories: map<int32, RegisteredMemory>)
    reads memories.Values
  {
    p' == p || ConfinedParam(p, p', memories)
  }

  lemma RepliedParams(op: Message, op': Message, memories: map<int32, RegisteredMemory>)
    requires IsOperation(op) && Replied(op, op', memories)
    ensures forall i :: 0 <= i < |Params(op)| ==> RepliedParam(Params(op)[i], Params(op')[i], memories)
  {
    hide ConfinedParam, AllKnown;
  }

  /** The memories are no larger than `bound`. */
  ghost predicate Bounded(memories: map<int32, RegisteredMemory>, bound: nat) {
    forall k :: k in memories ==> memories[k].size <= bound
  }

  lemma FinalBufferBounded(p: Message, memories: map<int32, RegisteredMemory>, bound: nat)
    requires IsParameter(p) && Bounded(memories, bound) && forall k :: k in memories ==> memories[k].Valid()
    ensures |FinalBuffer(p, memories)| <= bound
  {
  }

  // ---------- what can be sent can be answered ----------

  lemma BaseReadable(schema: Schema, m: Message, i: nat, depth: nat)
    requires Shaped(schema, m) && ValidSchema(schema) && Readable(schema, m, depth) && i < |schema.fields| && depth > 0
    requires schema.fields[i].kind.MessageKind?
    ensures ValidKind(schema.fields[i].kind) && ShapedValue(schema.fields[i].kind, m.fields[i])
    ensures Readable(schema.fields[i].kind.schema, Base(schema.fields[i].kind, m.fields[i]), depth - 1)
  {
    RoundTrips.FieldReadable(schema, m, i, depth);
    assert schema.fields[i] in schema.fields;
    RoundTrips.EmptyReadable(schema.fields[i].kind.schema, depth - 1);
  }

  lemma WithBufferReadable(s: Message, data: seq<byte>, size: int32, depth: nat)
    requires Shaped(TeecSharedMemory(), s) && Readable(TeecSharedMemory(), s, depth) && |data| < Two31
    ensures Readable(TeecSharedMemory(), WithBuffer(s, data, size), depth)
  {
    hide Readable;
    var schema := TeecSharedMemory();
    RoundTrips.WithReadable(schema, s, BufferField, Text(data), depth);
    RoundTrips.WithReadable(schema, With(schema, s, BufferField, Text(data)), ReturnSizeField, Number(size), depth);
  }

  lemma WithParentReadable(p: Message, s: Message, depth: nat)
    requires IsParameter(p) && Readable(TeecParameter(), p, depth) && depth >= 2
    requires Shaped(TeecSharedMemory(), s) && Readable(TeecSharedMemory(), s, depth - 2)
    ensures Readable(TeecParameter(), WithParent(p, s), depth)
  {
    ValidSchemas();
    hide Readable, Shaped;
    BaseReadable(TeecParameter(), p, ReferenceField, depth);
    var r := With(TeecSharedMemoryReference(), Reference(p), ParentField, Sub(s));
    RoundTrips.WithReadable(TeecSharedMemoryReference(), Reference(p), ParentField, Sub(s), depth - 1);
    RoundTrips.WithReadable(TeecParameter(), p, ReferenceField, Sub(r), depth);
  }

  lemma WithValueReadable(p: Message, a: int32, b: int32, depth: nat)
    requires IsParameter(p) && Readable(TeecParameter(), p, depth) && depth >= 1
    ensures Readable(TeecParameter(), WithValue(p, a, b), depth)
  {
    ValidSchemas();
    hide Readable, Shaped;
    BaseReadable(TeecParameter(), p, ValueField, depth);
    var v := With(TeecValue(), ValueOf(p), A, Number(a));
    RoundTrips.WithReadable(TeecValue(), ValueOf(p), A, Number(a), depth - 1);
    RoundTrips.WithReadable(TeecValue(), v, B, Number(b), depth - 1);
    RoundTrips.WithReadable(TeecParameter(), p, ValueField, Sub(With(TeecValue(), v, B, Number(b))), depth);
  }

  lemma ParentReadable(p: Message, depth: nat)
    requires IsParameter(p) && Readable(TeecParameter(), p, depth) && depth >= 2
    ensures Readable(TeecSharedMemory(), ParentOf(Reference(p)), depth - 2)
  {
    ValidSchemas();
    hide Readable, Shaped;
    BaseReadable(TeecParameter(), p, ReferenceField, depth);
    BaseReadable(TeecSharedMemoryReference(), Reference(p), ParentField, depth - 1);
  }

  lemma ConfinedReadable(p: Message, p': Message, memories: map<int32, RegisteredMemory>, buffer: seq<byte>, depth: nat)
    requires IsParameter(p) && (HasReference(p) ==> MemoryId(p) in memories) && Confined(p, p', memories, buffer)
    requires Readable(TeecParameter(), p, depth) && depth >= 2 && |buffer| < Two31
    ensures IsParameter(p') && Readable(TeecParameter(), p', depth)
  {
    hide Readable, IsParameter, RequestedType, WithValue, WithParent, WithBuffer, HasReference, MemoryId;
    TypeShowsMember(p);
    if Returned(RequestedType(p)) {
      var a: int32, b: int32 :| p' == WithValue(p, a, b);
      WithValueReadable(p, a, b, depth);
    } else if Shared(RequestedType(p)) {
      var s := ParentOf(Reference(p));
      ParentReadable(p, depth);
      if memories[MemoryId(p)].flags >= TEEC_MEM_OUTPUT {
        var size: int32 :| p' == WithParent(p, WithBuffer(s, buffer, size));
        WithBufferReadable(s, buffer, size, depth - 2);
        WithParentReadable(p, WithBuffer(s, buffer, size), depth);
      } else {
        WithParentReadable(p, s, depth);
      }
    }
  }

  /** One parameter of a reply, seen from the parameter that was sent. */
  lemma RepliedParamSound(p: Message, p': Message, memories: map<int32, RegisteredMemory>, bound: nat, depth: nat)
    requires IsParameter(p) && Initialized(TeecParameter(), p) && Readable(TeecParameter(), p, depth) && depth >= 2
    requires RepliedParam(p, p', memories) && Bounded(memories, bound) && bound < Two31
    requires forall k :: k in memories ==> memories[k].Valid()
    ensures IsParameter(p') && Initialized(TeecParameter(), p') && Readable(TeecParameter(), p', depth)
  {
    hide Readable, Initialized, IsParameter, Confined, HasReference, MemoryId;
    if p' != p {
      FinalBufferBounded(p, memories, bound);
      ConfinedReadable(p, p', memories, FinalBuffer(p, memories), depth);
      ReplyAsksTheSame(p, p', memories, FinalBuffer(p, memories));
    }
  }

  lemma ParamsInitialized(op: Message)
    requires IsOperation(op) && Initialized(TeecOperation(), op) && Readable(TeecOperation(), op, RecursionLimit)
    ensures forall p :: p in Params(op) ==>
              Initialized(TeecParameter(), p) && Readable(TeecParameter(), p, RecursionLimit - 1)
  {
    RoundTrips.FieldReadable(TeecOperation(), op, MParams, RecursionLimit);
    assert InitializedValue(TeecOperation().fields[MParams].kind, op.fields[MParams]);
  }

  /** The reply to an initialized operation that parsing can produce is another one. */
  lemma ReplySound(op: Message, op': Message, memories: map<int32, RegisteredMemory>, bound: nat)
    requires IsOperation(op) && Initialized(TeecOperation(), op) && Readable(TeecOperation(), op, RecursionLimit)
    requires Replied(op, op', memories) && Bounded(memories, bound) && bound < Two31
    requires forall k :: k in memories ==> memories[k].Valid()
    ensures Initialized(TeecOperation(), op') && Readable(TeecOperation(), op', RecursionLimit)
  {
    hide Readable, Initialized, RepliedParam, ConfinedParam, Shaped;
    ParamsInitialized(op);
    RepliedParams(op, op', memories);
    forall q | q in Params(op')
      ensures IsParameter(q) && Initialized(TeecParameter(), q) && Readable(TeecParameter(), q, RecursionLimit - 1)
    {
      var i :| 0 <= i < |Params(op')| && Params(op')[i] == q;
      assert Params(op)[i] in Params(op);
      RepliedParamSound(Params(op)[i], q, memories, bound, RecursionLimit - 1);
    }
    Assembled(op, op');
  }

  /** An operation is sound when its unknown fields and all its parameters are. */
  lemma Assembled(op: Message, op': Message)
    requires IsOperation(op) && IsOperation(op') && Readable(TeecOperation(), op, RecursionLimit)
    requires op'.unknown == op.unknown && op'.fields[MStarted].Number?
    requires forall q :: q in Params(op') ==>
               IsParameter(q) && Initialized(TeecParameter(), q) && Readable(TeecParameter(), q, RecursionLimit - 1)
    ensures Initialized(TeecOperation(), op') && Readable(TeecOperation(), op', RecursionLimit)
  {
    var schema := TeecOperation();
    assert ShapedValue(schema.fields[MParams].kind, op'.fields[MParams]);
    assert op'.fields[MParams] == Many(Params(op'));
    assert schema.fields[MParams].kind == RepeatedKind(TeecParameter());
    forall i | 0 <= i < |op'.fields|
      ensures (schema.fields[i].required ==> !op'.fields[i].Absent?)
              && InitializedValue(schema.fields[i].kind, op'.fields[i])
              && ReadableValue(schema.fields[i].kind, op'.fields[i], RecursionLimit)
    {
      assert ShapedValue(schema.fields[i].kind, op'.fields[i]);
      if i == MParams {
        ManySound(Params(op'));
      }
    }
  }

  lemma ManySound(qs: seq<Message>)
    requires forall q :: q in qs ==>
               IsParameter(q) && Initialized(TeecParameter(), q) && Readable(TeecParameter(), q, RecursionLimit - 1)
    ensures ShapedValue(RepeatedKind(TeecParameter()), Many(qs))
    ensures InitializedValue(RepeatedKind(TeecParameter()), Many(qs))
    ensures ReadableValue(RepeatedKind(TeecParameter()), Many(qs), RecursionLimit)
  {
    forall q | q in qs ensures Shaped(TeecParameter(), q) {
      assert IsParameter(q);
    }
  }

  // ---------- how long a reply can be ----------

  lemma {:induction false} EncodedFromWith(schema: Schema, m: Message, i: nat, v: Value, j: nat)
    requires Shaped(schema, m) && i < |schema.fields| && ShapedValue(schema.fields[i].kind, v) && j <= |schema.fields|
    ensures ShapedValue(schema.fields[i].kind, m.fields[i])
    ensures var after := |EncodeFrom(schema, With(schema, m, i, v), j)|;
            if j > i then after == |EncodeFrom(schema, m, j)|
            else after + |EncodeValue(schema.fields[i].kind, FieldTag(schema, i), m.fields[i])|
                 == |EncodeFrom(schema, m, j)| + |EncodeValue(schema.fields[i].kind, FieldTag(schema, i), v)|
    decreases |schema.fields| - j
  {
    hide EncodeValue, FieldTag;
    if j < |schema.fields| {
      EncodedFromWith(schema, m, i, v, j + 1);
    }
  }

  /** Setting a field takes no more than its new value. */
  lemma EncodedWith(schema: Schema, m: Message, i: nat, v: Value)
    requires Shaped(schema, m) && i < |schema.fields| && ShapedValue(schema.fields[i].kind, v)
    ensures ShapedValue(schema.fields[i].kind, m.fields[i])
    ensures |Encode(schema, With(schema, m, i, v))|
            + |EncodeValue(schema.fields[i].kind, FieldTag(schema, i), m.fields[i])|
         == |Encode(schema, m)| + |EncodeValue(schema.fields[i].kind, FieldTag(schema, i), v)|
  {
    EncodedFromWith(schema, m, i, v, 0);
  }

  lemma {:induction false} EmptyEncodes(schema: Schema, j: nat)
    requires ValidSchema(schema) && j <= |schema.fields|
    ensures EncodeFrom(schema, Empty(schema), j) == []
    decreases |schema.fields| - j
  {
    if j < |schema.fields| {
      EmptyEncodes(schema, j + 1);
    }
  }

  lemma ShortLength(n: nat)
    requires n < Two32
    ensures 1 <= |Varint(n)| <= 5
  {
    VarintSize32Exact(n);
  }

  lemma NumberSize(schema: Schema, i: nat, n: int32)
    requires SmallSchema(schema) && i < |schema.fields| && ShapedValue(schema.fields[i].kind, Number(n))
    ensures |EncodeValue(schema.fields[i].kind, FieldTag(schema, i), Number(n))| <= 11
  {
    Serializing.TagSize(schema, i);
    VarintSize64Exact(SignExtend(n));
    hide Varint, FieldTag;
  }

  /** A sub-message that grows by `n` bytes takes at most six more with its tag and its length. */
  lemma SubSize(schema: Schema, m: Message, i: nat, x: Message, n: nat)
    requires Shaped(schema, m) && ValidSchema(schema) && i < |schema.fields| && schema.fields[i].kind.MessageKind?
    requires Shaped(schema.fields[i].kind.schema, x) && |Encode(schema.fields[i].kind.schema, x)| < Two32
    requires ValidKind(schema.fields[i].kind) && ShapedValue(schema.fields[i].kind, m.fields[i])
    requires |Encode(schema.fields[i].kind.schema, x)|
          <= |Encode(schema.fields[i].kind.schema, Base(schema.fields[i].kind, m.fields[i]))| + n
    ensures |Encode(schema, With(schema, m, i, Sub(x)))| <= |Encode(schema, m)| + n + 6
  {
    var kind, v := schema.fields[i].kind, m.fields[i];
    EncodedWith(schema, m, i, Sub(x));
    Serializing.TagSize(schema, i);
    ShortLength(|Encode(kind.schema, x)|);
    hide Varint, FieldTag, Shaped;
    if v == Absent {
      EmptyEncodes(kind.schema, 0);
    }
  }

  lemma SubSmaller(schema: Schema, m: Message, i: nat)
    requires Shaped(schema, m) && ValidSchema(schema) && i < |schema.fields| && schema.fields[i].kind.MessageKind?
    ensures ValidKind(schema.fields[i].kind) && ShapedValue(schema.fields[i].kind, m.fields[i])
    ensures |Encode(schema.fields[i].kind.schema, Base(schema.fields[i].kind, m.fields[i]))| <= |Encode(schema, m)|
  {
    assert schema.fields[i] in schema.fields;
    if m.fields[i] == Absent {
      EmptyEncodes(schema.fields[i].kind.schema, 0);
    } else {
      EncodedWith(schema, m, i, Absent);
    }
  }

  lemma WithBufferSize(s: Message, data: seq<byte>, size: int32)
    requires Shaped(TeecSharedMemory(), s) && |data| < Two31
    ensures |Encode(TeecSharedMemory(), WithBuffer(s, data, size))| <= |Encode(TeecSharedMemory(), s)| + |data| + 17
  {
    var schema := TeecSharedMemory();
    EncodedWith(schema, s, BufferField, Text(data));
    Serializing.TagSize(schema, BufferField);
    ShortLength(|data|);
    var t := With(schema, s, BufferField, Text(data));
    EncodedWith(schema, t, ReturnSizeField, Number(size));
    NumberSize(schema, ReturnSizeField, size);
    hide Varint, FieldTag, Encode, Shaped;
  }

  lemma WithParentSize(p: Message, s: Message, n: nat)
    requires IsParameter(p) && Shaped(TeecSharedMemory(), s) && |Encode(TeecParameter(), p)| + n + 12 < Two32
    requires |Encode(TeecSharedMemory(), s)| <= |Encode(TeecSharedMemory(), ParentOf(Reference(p)))| + n
    ensures |Encode(TeecParameter(), WithParent(p, s))| <= |Encode(TeecParameter(), p)| + n + 12
  {
    ValidSchemas();
    hide Encode, Shaped, ValidSchema;
    SubSmaller(TeecParameter(), p, ReferenceField);
    SubSmaller(TeecSharedMemoryReference(), Reference(p), ParentField);
    SubSize(TeecSharedMemoryReference(), Reference(p), ParentField, s, n);
    SubSize(TeecParameter(), p, ReferenceField,
            With(TeecSharedMemoryReference(), Reference(p), ParentField, Sub(s)), n + 6);
  }

  lemma WithValueSize(p: Message, a: int32, b: int32)
    requires IsParameter(p) && |Encode(TeecParameter(), p)| + 28 < Two32
    ensures |Encode(TeecParameter(), WithValue(p, a, b))| <= |Encode(TeecParameter(), p)| + 28
  {
    ValidSchemas();
    hide Encode, Shaped, ValidSchema, EncodeValue, FieldTag;
    SubSmaller(TeecParameter(), p, ValueField);
    var schema, v := TeecValue(), ValueOf(p);
    EncodedWith(schema, v, A, Number(a));
    NumberSize(schema, A, a);
    EncodedWith(schema, With(schema, v, A, Number(a)), B, Number(b));
    NumberSize(schema, B, b);
    SubSize(TeecParameter(), p, ValueField, With(schema, With(schema, v, A, Number(a)), B, Number(b)), 22);
  }

  lemma RepliedParamSize(p: Message, p': Message, memories: map<int32, RegisteredMemory>, bound: nat)
    requires IsParameter(p) && RepliedParam(p, p', memories) && Bounded(memories, bound)
    requires |Encode(TeecParameter(), p)| + bound + 29 < Two31
    requires forall k :: k in memories ==> memories[k].Valid()
    ensures IsParameter(p') && |Encode(TeecParameter(), p')| <= |Encode(TeecParameter(), p)| + bound + 29
  {
    hide IsParameter, RequestedType, WithValue, WithParent, WithBuffer, HasReference, MemoryId, Encode, FinalBuffer;
    if p' != p {
      var buffer := FinalBuffer(p, memories);
      FinalBufferBounded(p, memories, bound);
      TypeShowsMember(p);
      if Returned(RequestedType(p)) {
        var a: int32, b: int32 :| p' == WithValue(p, a, b);
        WithValueSize(p, a, b);
      } else if Shared(RequestedType(p)) {
        var s := ParentOf(Reference(p));
        if memories[MemoryId(p)].flags >= TEEC_MEM_OUTPUT {
          var size: int32 :| p' == WithParent(p, WithBuffer(s, buffer, size));
          WithBufferSize(s, buffer, size);
          WithParentSize(p, WithBuffer(s, buffer, size), |buffer| + 17);
        } else {
          WithParentSize(p, s, 0);
        }
      }
    }
  }

  lemma {:induction false} ItemsGrow(tag: nat, ps: seq<Message>, qs: seq<Message>, n: nat)
    requires |qs| == |ps|
    requires (forall p :: p in ps ==> Shaped(TeecParameter(), p))
             && (forall q :: q in qs ==> Shaped(TeecParameter(), q))
    requires forall i :: 0 <= i < |ps| ==> ItemGrows(ps[i], qs[i], n)
    ensures |EncodeItems(TeecParameter(), tag, qs)| <= |EncodeItems(TeecParameter(), tag, ps)| + |ps| * (n + 4)
    decreases |ps|
  {
    hide Encode, Shaped;
    if ps != [] {
      assert qs[0] in qs && ps[0] in ps && ItemGrows(ps[0], qs[0], n);
      forall i | 0 <= i < |ps[1..]| ensures ItemGrows(ps[1..][i], qs[1..][i], n) {
        assert ItemGrows(ps[i + 1], qs[i + 1], n);
      }
      ItemsGrow(tag, ps[1..], qs[1..], n);
      ShortLength(|Encode(TeecParameter(), qs[0])|);
      ShortLength(|Encode(TeecParameter(), ps[0])|);
      hide Varint;
      assert |ps| * (n + 4) == |ps[1..]| * (n + 4) + n + 4;
    }
  }

  ghost predicate ItemGrows(p: Message, q: Message, n: nat) {
    IsParameter(p) && IsParameter(q) && |Encode(TeecParameter(), q)| <= |Encode(TeecParameter(), p)| + n < Two31
  }

  lemma {:induction false} ItemSmaller(tag: nat, ps: seq<Message>, i: nat)
    requires i < |ps| && forall p :: p in ps ==> Shaped(TeecParameter(), p)
    ensures |Encode(TeecParameter(), ps[i])| <= |EncodeItems(TeecParameter(), tag, ps)|
    decreases i
  {
    hide Encode, Varint, Shaped;
    if i > 0 {
      ItemSmaller(tag, ps[1..], i - 1);
    }
  }

  lemma ParamSmaller(op: Message, i: nat)
    requires IsOperation(op) && i < |Params(op)|
    ensures Params(op)[i] in Params(op)
    ensures |Encode(TeecParameter(), Params(op)[i])| <= |Encode(TeecOperation(), op)|
  {
    hide Encode;
    assert Params(op)[i] in Params(op);
    ParamsSmaller(op);
    ItemSmaller(FieldTag(TeecOperation(), MParams), Params(op), i);
  }

  lemma ParamsSmaller(op: Message)
    requires IsOperation(op)
    ensures forall p :: p in Params(op) ==> Shaped(TeecParameter(), p)
    ensures |EncodeItems(TeecParameter(), FieldTag(TeecOperation(), MParams), Params(op))|
            <= |Encode(TeecOperation(), op)|
  {
    forall p | p in Params(op) ensures Shaped(TeecParameter(), p) {
      assert IsParameter(p);
    }
    EncodedWith(TeecOperation(), op, MParams, Many([]));
  }

  /** How many bytes a reply may have more than its request: the buffers that it carries, and some numbers. */
  const ReplyOverhead: nat := 150

  /** A reply is not much longer than its operation and the buffers that it carries. */
  lemma ReplySize(op: Message, op': Message, memories: map<int32, RegisteredMemory>, bound: nat)
    requires IsOperation(op) && |Params(op)| <= 4 && Replied(op, op', memories) && Bounded(memories, bound)
    requires |Encode(TeecOperation(), op)| + 4 * bound + ReplyOverhead < Two31
    requires forall k :: k in memories ==> memories[k].Valid()
    ensures |Encode(TeecOperation(), op')| <= |Encode(TeecOperation(), op)| + 4 * bound + ReplyOverhead
  {
    hide Encode, RepliedParam, ConfinedParam, IsOperation;
    RepliedParams(op, op', memories);
    var ps, qs, schema := Params(op), Params(op'), TeecOperation();
    forall i | 0 <= i < |ps| ensures ItemGrows(ps[i], qs[i], bound + 29) {
      ParamSmaller(op, i);
      RepliedParamSize(ps[i], qs[i], memories, bound);
    }
    ParamsSmaller(op);
    ParamsSmaller(op');
    hide ItemGrows, Shaped, FieldTag, Params, Replied, EncodeItems;
    ItemsGrow(FieldTag(schema, MParams), ps, qs, bound + 29);
    AtMostFour(|ps|, bound + 33);
    WithStarted(op, op');
  }

  lemma AtMostFour(k: nat, n: nat)
    requires k <= 4
    ensures k * n <= 4 * n
  {
  }

  lemma WithStarted(op: Message, op': Message)
    requires IsOperation(op) && IsOperation(op') && op'.unknown == op.unknown && op'.fields[MStarted].Number?
    requires forall p :: p in Params(op) || p in Params(op') ==> Shaped(TeecParameter(), p)
    ensures var tag := FieldTag(TeecOperation(), MParams);
            |Encode(TeecOperation(), op')| + |EncodeItems(TeecParameter(), tag, Params(op))|
            <= |Encode(TeecOperation(), op)| + |EncodeItems(TeecParameter(), tag, Params(op'))| + 11
  {
    hide Encode, EncodeItems;
    var schema := TeecOperation();
    assert ShapedValue(schema.fields[MParams].kind, op.fields[MParams]);
    assert ShapedValue(schema.fields[MParams].kind, op'.fields[MParams]);
    EncodedWith(schema, op, MParams, op'.fields[MParams]);
    var x := With(schema, op, MParams, op'.fields[MParams]);
    EncodedWith(schema, x, MStarted, op'.fields[MStarted]);
    NumberSize(schema, MStarted, op'.fields[MStarted].n);
    assert With(schema, x, MStarted, op'.fields[MStarted]).fields == op'.fields;
    assert With(schema, x, MStarted, op'.fields[MStarted]) == op';
  }

  // ---------- from bytes to bytes ----------

  /** A request that is not too long, and whose buffers are not too large, for the reply to be serialized. */
  ghost predicate Answerable(request: seq<byte>, memories: map<int32, RegisteredMemory>, bound: nat) {
    && |request| <= TotalBytesLimit && |Params(Received(request))| <= 4 && Bounded(memories, bound)
    && |Encode(TeecOperation(), Received(request))| + 4 * bound + ReplyOverhead < Two31
  }

  /** A request in bytes, whatever the TEE does with it. The reply is serialized, and differs from what was received as
      replies do; the reply to a request that parses is parsed back, by the same parser, to exactly the operation that
      was serialized, if it is within the total limit of a stream. */
  method ExchangeBytes(request: seq<byte>, memories: map<int32, RegisteredMemory>, ghost bound: nat)
    returns (reply: seq<byte>, ghost op': Message)
    requires Answerable(request, memories, bound) && forall k :: k in memories ==> memories[k].Valid()
    modifies memories.Values
    ensures Replied(Received(request), op', memories) && reply == Encode(TeecOperation(), op')
    ensures ValidSchema(TeecOperation())
    ensures |reply| <= |Encode(TeecOperation(), Received(request))| + 4 * bound + ReplyOverhead
    ensures Parse(TeecOperation(), request).Some? && |reply| <= TotalBytesLimit ==>
              Parse(TeecOperation(), reply) == Some(op')
  {
    ValidSchemas();
    hide Encode, IsParameter, Confined, Parse, Initialized, Readable, ValidSchema;
    var ok, op := Parsing.ParseFromArray(TeecOperation(), request);
    assert op == Received(request);
    var answered := Exchange(op, memories);
    op' := answered;
    forall i | 0 <= i < |Params(op)| && AllKnown(Params(op), memories.Keys)
      ensures ConfinedParam(Params(op)[i], Params(op')[i], memories)
    {
      assert Params(op)[i] in Params(op);
    }
    assert !AllKnown(Params(op), memories.Keys) ==> Params(op') == Params(op);
    hide ConfinedParam, AllKnown;
    ReplySize(op, op', memories, bound);
    reply := Serializing.SerializeToString(TeecOperation(), answered);
    if ok && |reply| <= TotalBytesLimit {
      ReceivedSound(request, op);
      ReplySound(op, op', memories, bound);
      RoundTrips.ParseBack(TeecOperation(), op');
    }
  }

  lemma ReceivedSound(request: seq<byte>, op: Message)
    requires ValidSchema(TeecOperation()) && |request| <= TotalBytesLimit
    requires Parse(TeecOperation(), request) == Some(op)
    ensures IsOperation(op) && Initialized(TeecOperation(), op) && Readable(TeecOperation(), op, RecursionLimit)
  {
    RoundTrips.EmptyReadable(TeecOperation(), RecursionLimit);
    RoundTrips.ParseReadable(TeecOperation(), request, RecursionLimit, Empty(TeecOperation()));
  }
}
