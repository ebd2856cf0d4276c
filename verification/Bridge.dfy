/** The JNI bridge: an operation message becomes a TEEC_Operation, the TEE changes it, and selected changes are
    written back into the message. */
module Bridge {
  import opened Wrappers
  import opened Wire
  import opened Messages
  import opened Tee

  // ---------- fields of the messages ----------

  const MStarted: nat := 0
  const MParams: nat := 1
  const ReferenceField: nat := 1
  const ValueField: nat := 2
  const ParentField: nat := 0
  const OffsetField: nat := 1
  const FlagField: nat := 2
  const A: nat := 0
  const B: nat := 1
  const BufferField: nat := 0
  const ReturnSizeField: nat := 3
  const IdField: nat := 4

  predicate IsOperation(m: Message) {
    Shaped(TeecOperation(), m)
  }

  predicate IsParameter(m: Message) {
    Shaped(TeecParameter(), m)
  }

  /** The getter of an int32 or enum field. */
  function NumberOr(v: Value, default: int32): int32 {
    if v.Number? then v.n else default
  }

  function Params(op: Message): (ps: seq<Message>)
    requires IsOperation(op)
    ensures forall p :: p in ps ==> IsParameter(p)
  {
    assert ShapedValue(TeecOperation().fields[MParams].kind, op.fields[MParams]);
    op.fields[MParams].ms
  }

  function WithParams(op: Message, ps: seq<Message>): (op': Message)
    requires IsOperation(op) && forall p :: p in ps ==> IsParameter(p)
    ensures IsOperation(op') && Params(op') == ps
  {
    assert ShapedValue(RepeatedKind(TeecParameter()), Many(ps)) by {
      forall p | p in ps ensures Shaped(TeecParameter(), p) {
        assert IsParameter(p);
      }
    }
    assert TeecOperation().fields[MParams].kind == RepeatedKind(TeecParameter());
    With(TeecOperation(), op, MParams, Many(ps))
  }

  predicate HasReference(p: Message)
    requires IsParameter(p)
  {
    p.fields[ReferenceField] != Absent
  }

  predicate HasValue(p: Message)
    requires IsParameter(p)
  {
    p.fields[ValueField] != Absent
  }

  function Reference(p: Message): (r: Message)
    requires IsParameter(p)
    ensures Shaped(TeecSharedMemoryReference(), r)
  {
    ValidSchemas();
    assert ShapedValue(TeecParameter().fields[ReferenceField].kind, p.fields[ReferenceField]);
    Base(TeecParameter().fields[ReferenceField].kind, p.fields[ReferenceField])
  }

  function ValueOf(p: Message): (v: Message)
    requires IsParameter(p)
    ensures Shaped(TeecValue(), v)
  {
    ValidSchemas();
    assert ShapedValue(TeecParameter().fields[ValueField].kind, p.fields[ValueField]);
    Base(TeecParameter().fields[ValueField].kind, p.fields[ValueField])
  }

  function ParentOf(r: Message): (s: Message)
    requires Shaped(TeecSharedMemoryReference(), r)
    ensures Shaped(TeecSharedMemory(), s)
  {
    ValidSchemas();
    assert ShapedValue(TeecSharedMemoryReference().fields[ParentField].kind, r.fields[ParentField]);
    Base(TeecSharedMemoryReference().fields[ParentField].kind, r.fields[ParentField])
  }

  // ---------- the C structures ----------

  const TEEC_NONE: nat := 0x0
  const TEEC_VALUE_INPUT: nat := 0x1
  const TEEC_VALUE_OUTPUT: nat := 0x2
  const TEEC_VALUE_INOUT: nat := 0x3
  const TEEC_MEMREF_WHOLE: nat := 0xC
  const TEEC_MEMREF_PARTIAL_INPUT: nat := 0xD
  const TEEC_MEMREF_PARTIAL_OUTPUT: nat := 0xE
  const TEEC_MEMREF_PARTIAL_INOUT: nat := 0xF
  const TEEC_MEM_OUTPUT: nat := 0x2

  type ParamKind = n: int | 0 <= n < 16

  /** The conversion of int32 to an unsigned 32-bit number. */
  function ToUint32(v: int32): uint32 {
    if v < 0 then v + Two32 else v
  }

  /** TEEC_PARAM_TYPES. */
  function ParamTypes(a: ParamKind, b: ParamKind, c: ParamKind, d: ParamKind): uint32 {
    a + 0x10 * b + 0x100 * c + 0x1000 * d
  }

  /** TEEC_PARAM_TYPE_GET. */
  function ParamTypeGet(types: uint32, i: nat): ParamKind
    requires i < 4
  {
    (if i == 0 then types else if i == 1 then types / 0x10 else if i == 2 then types / 0x100 else types / 0x1000) % 0x10
  }

  lemma ParamTypesGet(a: ParamKind, b: ParamKind, c: ParamKind, d: ParamKind)
    ensures ParamTypeGet(ParamTypes(a, b, c, d), 0) == a && ParamTypeGet(ParamTypes(a, b, c, d), 1) == b
    ensures ParamTypeGet(ParamTypes(a, b, c, d), 2) == c && ParamTypeGet(ParamTypes(a, b, c, d), 3) == d
  {
    var types := ParamTypes(a, b, c, d);
    assert types / 0x10 == b + 0x10 * c + 0x100 * d;
    assert types / 0x100 == c + 0x10 * d;
    assert types / 0x1000 == d;
  }

  /** TEEC_SharedMemory: registered memory, with as many bytes as its size. */
  class RegisteredMemory {
    const size: uint32
    const flags: uint32
    var buffer: seq<byte>

    constructor (buffer: seq<byte>, flags: uint32)
      requires |buffer| < Two32
      ensures this.buffer == buffer && this.flags == flags && size == |buffer|
    {
      this.buffer := buffer;
      this.flags := flags;
      size := |buffer|;
    }

    ghost predicate Valid()
      reads this
    {
      |buffer| == size
    }
  }

  /** TEEC_Parameter, a union: which member was stored last. */
  datatype Param =
    | Unset
    | ValueParam(a: uint32, b: uint32)
    | MemrefParam(parent: RegisteredMemory, size: uint32, offset: uint32)

  class Operation {
    var started: uint32
    var paramTypes: uint32
    const params: array<Param>

    constructor ()
      ensures started == 0 && paramTypes == 0 && fresh(params)
      ensures params.Length == 4 && forall i :: 0 <= i < 4 ==> params[i] == Unset
    {
      started := 0;
      paramTypes := 0;
      params := new Param[4](_ => Unset);
    }
  }

  // ---------- what the request asks for ----------

  /** The type that a parameter of a request gets. */
  function RequestedType(p: Message): ParamKind
    requires IsParameter(p)
  {
    if HasReference(p) then
      var r := Reference(p);
      if NumberOr(r.fields[OffsetField], 0) > 0 then
        match NumberOr(r.fields[FlagField], 13)
        case 13 => TEEC_MEMREF_PARTIAL_INPUT
        case 14 => TEEC_MEMREF_PARTIAL_OUTPUT
        case 15 => TEEC_MEMREF_PARTIAL_INOUT
        case _ => TEEC_NONE
      else TEEC_MEMREF_WHOLE
    else if HasValue(p) then
      match NumberOr(ValueOf(p).fields[FlagField], 1)
      case 1 => TEEC_VALUE_INPUT
      case 2 => TEEC_VALUE_OUTPUT
      case 3 => TEEC_VALUE_INOUT
      case _ => TEEC_NONE
    else TEEC_NONE
  }

  /** The identifier of the registered memory that a parameter refers to. */
  function MemoryId(p: Message): int32
    requires IsParameter(p)
  {
    NumberOr(ParentOf(Reference(p)).fields[IdField], 0)
  }

  predicate Returned(kind: ParamKind) {
    kind == TEEC_VALUE_OUTPUT || kind == TEEC_VALUE_INOUT
  }

  predicate Shared(kind: ParamKind) {
    kind == TEEC_MEMREF_WHOLE || kind == TEEC_MEMREF_PARTIAL_OUTPUT || kind == TEEC_MEMREF_PARTIAL_INOUT
  }

  /** Every registered memory that the request names is known. */
  predicate AllKnown(ps: seq<Message>, ids: set<int32>)
    requires forall p :: p in ps ==> IsParameter(p)
  {
    forall p :: p in ps ==> HasReference(p) ==> MemoryId(p) in ids
  }

  // ---------- what the reply may change ----------

  /** The parameter with new numbers in its value. */
  function WithValue(p: Message, a: int32, b: int32): (p': Message)
    requires IsParameter(p)
    ensures IsParameter(p')
  {
    With(TeecParameter(), p, ValueField,
         Sub(With(TeecValue(), With(TeecValue(), ValueOf(p), A, Number(a)), B, Number(b))))
  }

  /** The parameter with another parent memory in its reference. */
  function WithParent(p: Message, s: Message): (p': Message)
    requires IsParameter(p) && Shaped(TeecSharedMemory(), s)
    ensures IsParameter(p')
  {
    With(TeecParameter(), p, ReferenceField,
         Sub(With(TeecSharedMemoryReference(), Reference(p), ParentField, Sub(s))))
  }

  /** The parent memory with the returned bytes and size. */
  function WithBuffer(s: Message, data: seq<byte>, size: int32): (s': Message)
    requires Shaped(TeecSharedMemory(), s)
    ensures Shaped(TeecSharedMemory(), s')
  {
    With(TeecSharedMemory(), With(TeecSharedMemory(), s, BufferField, Text(data)), ReturnSizeField, Number(size))
  }

  /** What becomes of one parameter, given its union member and the buffer of its memory when the TEE is done. */
  function ReplyParam(p: Message, x: Param, kind: ParamKind, buffer: seq<byte>): (p': Message)
    requires IsParameter(p)
    requires Returned(kind) ==> x.ValueParam?
    requires Shared(kind) ==> x.MemrefParam?
    ensures IsParameter(p')
  {
    if Returned(kind) then WithValue(p, ToInt32(x.a), ToInt32(x.b))
    else if Shared(kind) then
      var s := ParentOf(Reference(p));
      WithParent(p, if x.parent.flags >= TEEC_MEM_OUTPUT then WithBuffer(s, buffer, ToInt32(x.size)) else s)
    else p
  }

  // ---------- the way in ----------

  /** The union member that a parameter of the request becomes; `x` is what was there before. */
  function Unmarshalled(p: Message, memories: map<int32, RegisteredMemory>, x: Param): Param
    requires IsParameter(p) && (HasReference(p) ==> MemoryId(p) in memories)
  {
    if HasReference(p) then
      var sm := memories[MemoryId(p)];
      MemrefParam(sm, sm.size, ToUint32(NumberOr(Reference(p).fields[OffsetField], 0)))
    else if HasValue(p) then
      var v := ValueOf(p);
      ValueParam(ToUint32(NumberOr(v.fields[A], 0)), ToUint32(NumberOr(v.fields[B], 0)))
    else x
  }

  /** The flag of a reference, or of a value, as a parameter type. */
  method TypeOfFlag(p: Message) returns (kind: ParamKind)
    requires IsParameter(p)
    ensures kind == RequestedType(p)
  {
    hide IsParameter;
    kind := TEEC_NONE;
    if HasReference(p) {
      var r := Reference(p);
      if NumberOr(r.fields[OffsetField], 0) > 0 {
        match NumberOr(r.fields[FlagField], 13) {
          case 13 => kind := TEEC_MEMREF_PARTIAL_INPUT;
          case 14 => kind := TEEC_MEMREF_PARTIAL_OUTPUT;
          case 15 => kind := TEEC_MEMREF_PARTIAL_INOUT;
          case _ =>
        }
      } else {
        kind := TEEC_MEMREF_WHOLE;
      }
    } else if HasValue(p) {
      match NumberOr(ValueOf(p).fields[FlagField], 1) {
        case 1 => kind := TEEC_VALUE_INPUT;
        case 2 => kind := TEEC_VALUE_OUTPUT;
        case 3 => kind := TEEC_VALUE_INOUT;
        case _ =>
      }
    }
  }

  /** New references are to memories that are known. */
  ghost predicate FromMemories(before: Param, after: Param, memories: map<int32, RegisteredMemory>) {
    after == before || (after.MemrefParam? ==> after.parent in memories.Values)
  }

  lemma UnmarshalledFrom(p: Message, memories: map<int32, RegisteredMemory>, x: Param)
    requires IsParameter(p) && (HasReference(p) ==> MemoryId(p) in memories)
    ensures FromMemories(x, Unmarshalled(p, memories, x), memories)
  {
  }

  /** The first `i` parameters have been unmarshalled. */
  ghost predicate Transferred(ps: seq<Message>, i: nat, memories: map<int32, RegisteredMemory>,
                              before: seq<Param>, after: seq<Param>, types: seq<ParamKind>)
    requires forall p :: p in ps ==> IsParameter(p)
  {
    && i <= |ps| <= 4 && |before| == |after| == |types| == 4
    && (forall k :: 0 <= k < i ==>
          && (HasReference(ps[k]) ==> MemoryId(ps[k]) in memories)
          && after[k] == Unmarshalled(ps[k], memories, before[k])
          && types[k] == RequestedType(ps[k]))
    && (forall k :: i <= k < 4 ==> after[k] == before[k] && types[k] == TEEC_NONE)
  }

  /** transfer_opString_to_TEEC_Operation, for at most four parameters. An unknown memory stops it before the types
      are set. */
  method TransferToTeec(op: Message, memories: map<int32, RegisteredMemory>, t: Operation) returns (ok: bool)
    requires IsOperation(op) && |Params(op)| <= 4
    requires t.params.Length == 4
    modifies t, t.params
    ensures t.started == ToUint32(NumberOr(op.fields[MStarted], 0))
    ensures ok == AllKnown(Params(op), memories.Keys)
    ensures !ok ==> t.paramTypes == old(t.paramTypes)
    ensures forall k :: 0 <= k < 4 ==> FromMemories(old(t.params[k]), t.params[k], memories)
    ensures ok ==> forall i :: 0 <= i < 4 ==>
              ParamTypeGet(t.paramTypes, i) == if i < |Params(op)| then RequestedType(Params(op)[i]) else TEEC_NONE
    ensures ok ==> forall i :: 0 <= i < |Params(op)| ==>
              t.params[i] == Unmarshalled(Params(op)[i], memories, old(t.params[i]))
  {
    hide IsParameter, RequestedType, HasReference, HasValue, MemoryId, ParamTypeGet, ParamTypes, Params;
    hide Unmarshalled;
    t.started := ToUint32(NumberOr(op.fields[MStarted], 0));
    var types;
    ok, types := TransferParams(Params(op), memories, t);
    if ok {
      t.paramTypes := ParamTypes(types[0], types[1], types[2], types[3]);
      ParamTypesGet(types[0], types[1], types[2], types[3]);
    }
  }

  method TransferParams(ps: seq<Message>, memories: map<int32, RegisteredMemory>, t: Operation)
    returns (ok: bool, types: array<ParamKind>)
    requires |ps| <= 4 && t.params.Length == 4 && forall p :: p in ps ==> IsParameter(p)
    modifies t.params
    ensures fresh(types) && types.Length == 4 && ok == AllKnown(ps, memories.Keys)
    ensures forall k :: 0 <= k < 4 ==> FromMemories(old(t.params[k]), t.params[k], memories)
    ensures ok ==> Transferred(ps, |ps|, memories, old(t.params[..]), t.params[..], types[..])
  {
    hide IsParameter, RequestedType, HasReference, HasValue, MemoryId, Unmarshalled;
    types := new ParamKind[4](_ => TEEC_NONE);
    ghost var before := t.params[..];
    var i := 0;
    ok := true;
    while ok && i < |ps|
      invariant 0 <= i <= |ps|
      invariant Transferred(ps, i, memories, before, t.params[..], types[..])
      invariant forall k :: 0 <= k < 4 ==> FromMemories(before[k], t.params[k], memories)
      invariant !ok ==> i < |ps| && ps[i] in ps && HasReference(ps[i]) && MemoryId(ps[i]) !in memories
      decreases ok, |ps| - i
    {
      var p := ps[i];
      assert p in ps;
      if HasReference(p) && MemoryId(p) !in memories {
        ok := false;
      } else {
        UnmarshalledFrom(p, memories, t.params[i]);
        t.params[i] := Unmarshalled(p, memories, t.params[i]);
        types[i] := TypeOfFlag(p);
        i := i + 1;
      }
    }
  }

  // ---------- the TEE ----------

  /** What the TEE may do to a union member: other numbers in a value, another size in a reference. */
  ghost predicate SameShape(x: Param, x': Param) {
    match x
    case Unset => x'.Unset?
    case ValueParam(_, _) => x'.ValueParam?
    case MemrefParam(parent, _, offset) => x'.MemrefParam? && x'.parent == parent && x'.offset == offset
  }

  /** Any behaviour of the TEE: new values, sizes and buffers; the types and the parents stay. */
  method RunTee(t: Operation, memories: map<int32, RegisteredMemory>)
    requires t.params.Length == 4 && forall k :: k in memories ==> memories[k].Valid()
    requires forall i :: 0 <= i < 4 ==> t.params[i].MemrefParam? ==> t.params[i].parent in memories.Values
    modifies t`started, t.params, memories.Values
    ensures forall i :: 0 <= i < 4 ==> SameShape(old(t.params[i]), t.params[i])
    ensures forall k :: k in memories ==> memories[k].Valid()
  {
    t.started := *;
    var i := 0;
    while i < 4
      invariant 0 <= i <= 4
      invariant forall k :: 0 <= k < 4 ==> SameShape(old(t.params[k]), t.params[k])
      invariant forall k :: k in memories ==> memories[k].Valid()
      modifies t.params, memories.Values
    {
      match t.params[i] {
        case Unset =>
        case ValueParam(_, _) =>
          var a: uint32, b: uint32 := *, *;
          t.params[i] := ValueParam(a, b);
        case MemrefParam(parent, _, offset) =>
          var size: uint32 := *;
          t.params[i] := MemrefParam(parent, size, offset);
          var data: seq<byte> := *;
          if |data| == parent.size {
            parent.buffer := data;
          }
      }
      i := i + 1;
    }
  }

  // ---------- the way back ----------

  /** The members that the way back reads are there: the index is in range and the union holds that member. */
  ghost predicate Readback(ps: seq<Message>, t: Operation)
    requires t.params.Length == 4
    reads t, t.params
  {
    forall i :: 0 <= i < 4 ==>
      var kind := ParamTypeGet(t.paramTypes, i);
      && (Returned(kind) ==> i < |ps| && t.params[i].ValueParam?)
      && (Shared(kind) ==> i < |ps| && t.params[i].MemrefParam?)
  }

  /** The buffer of the memory that a reference points to. */
  ghost function BufferOf(x: Param): seq<byte>
    reads if x.MemrefParam? then {x.parent} else {}
  {
    if x.MemrefParam? then x.parent.buffer else []
  }

  /** transfer_TEEC_Operation_to_op, up to serializing the reply. */
  method TransferBack(op: Message, t: Operation) returns (op': Message)
    requires IsOperation(op) && |Params(op)| <= 4 && t.params.Length == 4 && Readback(Params(op), t)
    ensures IsOperation(op') && |Params(op')| == |Params(op)| && op'.unknown == op.unknown
    ensures op'.fields[MStarted] == Number(ToInt32(t.started))
    ensures forall i :: 0 <= i < |Params(op)| ==>
              Params(op')[i]
              == ReplyParam(Params(op)[i], t.params[i], ParamTypeGet(t.paramTypes, i), BufferOf(t.params[i]))
  {
    hide IsParameter, ReplyParam, ParamTypeGet, Returned, Shared;
    var ps := Params(op);
    var i := 0;
    while i < 4
      invariant 0 <= i <= 4 && |ps| == |Params(op)| && forall p :: p in ps ==> IsParameter(p)
      invariant forall k :: 0 <= k < i && k < |ps| ==>
                  ps[k] == ReplyParam(Params(op)[k], t.params[k], ParamTypeGet(t.paramTypes, k), BufferOf(t.params[k]))
      invariant forall k :: i <= k < |ps| ==> ps[k] == Params(op)[k]
    {
      var kind := ParamTypeGet(t.paramTypes, i);
      if i < |ps| {
        assert ps[i] in ps;
      }
      if Returned(kind) {
        var p := ReturnValue(ps[i], t.params[i], kind);
        ps := ps[i := p];
      } else if Shared(kind) {
        var p := ReturnMemory(ps[i], t.params[i], kind);
        ps := ps[i := p];
      } else if i < |ps| {
        NotReturned(ps[i], t.params[i], kind, BufferOf(t.params[i]));
      }
      i := i + 1;
    }
    op' := WithParams(With(TeecOperation(), op, MStarted, Number(ToInt32(t.started))), ps);
  }

  lemma NotReturned(p: Message, x: Param, kind: ParamKind, buffer: seq<byte>)
    requires IsParameter(p) && !Returned(kind) && !Shared(kind)
    ensures ReplyParam(p, x, kind, buffer) == p
  {
  }

  /** The numbers of a value are written back whether they changed or not. */
  method ReturnValue(p: Message, x: Param, ghost kind: ParamKind) returns (p': Message)
    requires IsParameter(p) && x.ValueParam? && Returned(kind)
    ensures IsParameter(p') && p' == ReplyParam(p, x, kind, BufferOf(x))
  {
    var v := With(TeecValue(), ValueOf(p), A, Number(ToInt32(x.a)));
    v := With(TeecValue(), v, B, Number(ToInt32(x.b)));
    p' := With(TeecParameter(), p, ValueField, Sub(v));
  }

  /** The bytes and the returned size of a memory, when it is for output. */
  method ReturnMemory(p: Message, x: Param, ghost kind: ParamKind) returns (p': Message)
    requires IsParameter(p) && x.MemrefParam? && Shared(kind)
    ensures IsParameter(p') && p' == ReplyParam(p, x, kind, BufferOf(x))
  {
    var s := ParentOf(Reference(p));
    if x.parent.flags >= TEEC_MEM_OUTPUT {
      s := With(TeecSharedMemory(), s, BufferField, Text(x.parent.buffer));
      s := With(TeecSharedMemory(), s, ReturnSizeField, Number(ToInt32(x.size)));
    }
    var r := With(TeecSharedMemoryReference(), Reference(p), ParentField, Sub(s));
    p' := With(TeecParameter(), p, ReferenceField, Sub(r));
  }

  // ---------- a whole exchange ----------

  /** How a parameter of the reply may differ from the request; `buffer` is what its memory holds in the end. */
  ghost predicate Confined(p: Message, p': Message, memories: map<int32, RegisteredMemory>, buffer: seq<byte>)
    requires IsParameter(p) && (HasReference(p) ==> MemoryId(p) in memories)
  {
    if Returned(RequestedType(p)) then exists a: int32, b: int32 :: p' == WithValue(p, a, b)
    else if Shared(RequestedType(p)) then
      var s := ParentOf(Reference(p));
      if memories[MemoryId(p)].flags >= TEEC_MEM_OUTPUT
      then exists size: int32 :: p' == WithParent(p, WithBuffer(s, buffer, size))
      else p' == WithParent(p, s)
    else p' == p
  }

  lemma TypeShowsMember(p: Message)
    requires IsParameter(p)
    ensures Returned(RequestedType(p)) ==> !HasReference(p) && HasValue(p)
    ensures Shared(RequestedType(p)) ==> HasReference(p)
  {
  }

  lemma NoTypes(i: nat)
    requires i < 4
    ensures ParamTypeGet(0, i) == TEEC_NONE
  {
  }

  /** The memory named by a parameter, as it is when the exchange ends. */
  ghost function FinalBuffer(p: Message, memories: map<int32, RegisteredMemory>): seq<byte>
    requires IsParameter(p)
    reads memories.Values
  {
    if HasReference(p) && MemoryId(p) in memories then memories[MemoryId(p)].buffer else []
  }

  lemma NothingBack()
    ensures !Returned(TEEC_NONE) && !Shared(TEEC_NONE)
  {
  }

  /** A union member as the TEE may leave it for a parameter of the request: the way back reads the right member,
      and changes no more than it should. */
  ghost predicate Answered(p: Message, x: Param, memories: map<int32, RegisteredMemory>)
    requires IsParameter(p) && (HasReference(p) ==> MemoryId(p) in memories)
    reads memories.Values, if x.MemrefParam? then {x.parent} else {}
  {
    && (Returned(RequestedType(p)) ==> x.ValueParam?)
    && (Shared(RequestedType(p)) ==> x.MemrefParam?)
    && Confined(p, ReplyParam(p, x, RequestedType(p), BufferOf(x)), memories, FinalBuffer(p, memories))
  }

  lemma ReplyConfined(p: Message, x: Param, y: Param, memories: map<int32, RegisteredMemory>)
    requires IsParameter(p) && (HasReference(p) ==> MemoryId(p) in memories)
    requires SameShape(Unmarshalled(p, memories, y), x)
    ensures Answered(p, x, memories)
  {
    hide IsParameter, RequestedType, WithValue, WithParent, WithBuffer, HasReference, HasValue, MemoryId;
    TypeShowsMember(p);
  }

  /** One request, whatever the TEE does with it: the reply has the same parameters up to the returned values and
      buffers, and a request that names an unknown memory gets its parameters back as they were. */
  method Exchange(op: Message, memories: map<int32, RegisteredMemory>) returns (op': Message)
    requires IsOperation(op) && |Params(op)| <= 4 && forall k :: k in memories ==> memories[k].Valid()
    modifies memories.Values
    ensures IsOperation(op') && |Params(op')| == |Params(op)| && op'.unknown == op.unknown
    ensures op'.fields[MStarted].Number?
    ensures !AllKnown(Params(op), memories.Keys) ==> Params(op') == Params(op)
    ensures AllKnown(Params(op), memories.Keys) ==> forall i :: 0 <= i < |Params(op)| ==>
              Params(op)[i] in Params(op) && IsParameter(Params(op)[i])
              && Confined(Params(op)[i], Params(op')[i], memories, FinalBuffer(Params(op)[i], memories))
    ensures forall k :: k in memories ==> memories[k].Valid()
  {
    hide IsParameter, RequestedType, ReplyParam, Confined, Returned, Shared, ParamTypeGet, IsOperation;
    var t := new Operation();
    var ok := TransferToTeec(op, memories, t);
    ghost var ps, sent := Params(op), t.params[..];
    RunTee(t, memories);
    forall i | 0 <= i < 4
      ensures ok && i < |ps| ==> ps[i] in ps && Answered(ps[i], t.params[i], memories)
      ensures i >= |ps| || !ok ==> ParamTypeGet(t.paramTypes, i) == TEEC_NONE
    {
      NoTypes(i);
      if ok && i < |ps| {
        assert ps[i] in ps;
        ReplyConfined(ps[i], t.params[i], Unset, memories);
      }
    }
    NothingBack();
    assert Readback(ps, t);
    op' := TransferBack(op, t);
    forall i | 0 <= i < |ps| && !ok ensures Params(op')[i] == ps[i] {
      assert ps[i] in ps;
      NotReturned(ps[i], t.params[i], TEEC_NONE, BufferOf(t.params[i]));
    }
  }

  /** Two messages differ in field `i` at most. */
  predicate SameBut(m: Message, m': Message, i: nat) {
    && |m'.fields| == |m.fields| && m'.unknown == m.unknown
    && forall k :: 0 <= k < |m.fields| && k != i ==> m'.fields[k] == m.fields[k]
  }

  /** A reply to an initialized request is initialized, and sending it again would ask for the same: its parameters
      have the same types and name the same memories. */
  lemma ReplyAsksTheSame(p: Message, p': Message, memories: map<int32, RegisteredMemory>, buffer: seq<byte>)
    requires IsParameter(p) && Initialized(TeecParameter(), p) && (HasReference(p) ==> MemoryId(p) in memories)
    requires Confined(p, p', memories, buffer)
    ensures IsParameter(p') && Initialized(TeecParameter(), p') && RequestedType(p') == RequestedType(p)
    ensures HasReference(p') == HasReference(p) && (HasReference(p) ==> MemoryId(p') == MemoryId(p))
    ensures SameBut(p, p', if HasReference(p) then ReferenceField else ValueField)
  {
    hide IsParameter, Initialized, RequestedType, HasReference, HasValue, MemoryId, WithValue, WithParent, WithBuffer;
    TypeShowsMember(p);
    if Returned(RequestedType(p)) {
      var a: int32, b: int32 :| p' == WithValue(p, a, b);
      WithValueKeeps(p, a, b);
    } else if Shared(RequestedType(p)) {
      var s := ParentOf(Reference(p));
      ReferenceReady(p);
      if memories[MemoryId(p)].flags >= TEEC_MEM_OUTPUT {
        var size: int32 :| p' == WithParent(p, WithBuffer(s, buffer, size));
        WithBufferKeeps(s, buffer, size);
        WithParentKeeps(p, WithBuffer(s, buffer, size));
      } else {
        WithParentKeeps(p, s);
      }
    }
  }

  lemma ReferenceReady(p: Message)
    requires IsParameter(p) && Initialized(TeecParameter(), p) && HasReference(p)
    ensures Initialized(TeecSharedMemoryReference(), Reference(p))
    ensures Reference(p).fields[ParentField].Sub? && Initialized(TeecSharedMemory(), ParentOf(Reference(p)))
  {
    var schema, r := TeecParameter(), Reference(p);
    assert InitializedValue(schema.fields[ReferenceField].kind, p.fields[ReferenceField]);
    assert ShapedValue(schema.fields[ReferenceField].kind, p.fields[ReferenceField]);
    var inner := TeecSharedMemoryReference();
    assert InitializedValue(inner.fields[ParentField].kind, r.fields[ParentField]);
    assert ShapedValue(inner.fields[ParentField].kind, r.fields[ParentField]);
  }

  lemma WithInitialized(schema: Schema, m: Message, i: nat, v: Value)
    requires Shaped(schema, m) && Initialized(schema, m) && i < |schema.fields|
    requires ShapedValue(schema.fields[i].kind, v) && v != Absent && InitializedValue(schema.fields[i].kind, v)
    ensures Initialized(schema, With(schema, m, i, v))
  {
  }

  lemma WithFields(schema: Schema, m: Message, i: nat, v: Value)
    requires Shaped(schema, m) && i < |schema.fields| && ShapedValue(schema.fields[i].kind, v)
    ensures With(schema, m, i, v).fields == m.fields[i := v] && |m.fields| == |schema.fields|
    ensures With(schema, m, i, v).unknown == m.unknown
    ensures m.fields[i] == v ==> With(schema, m, i, v) == m
  {
  }

  lemma WithBufferKeeps(s: Message, data: seq<byte>, size: int32)
    requires Shaped(TeecSharedMemory(), s) && Initialized(TeecSharedMemory(), s)
    ensures Initialized(TeecSharedMemory(), WithBuffer(s, data, size))
    ensures WithBuffer(s, data, size).fields[IdField] == s.fields[IdField]
  {
  }

  lemma WithParentKeeps(p: Message, s: Message)
    requires IsParameter(p) && Initialized(TeecParameter(), p) && HasReference(p)
    requires Shaped(TeecSharedMemory(), s) && Initialized(TeecSharedMemory(), s)
    requires s.fields[IdField] == ParentOf(Reference(p)).fields[IdField]
    ensures Initialized(TeecParameter(), WithParent(p, s)) && RequestedType(WithParent(p, s)) == RequestedType(p)
    ensures HasReference(WithParent(p, s)) && MemoryId(WithParent(p, s)) == MemoryId(p)
    ensures SameBut(p, WithParent(p, s), ReferenceField)
  {
    hide Shaped, Initialized;
    ReferenceReady(p);
    WithFields(TeecSharedMemoryReference(), Reference(p), ParentField, Sub(s));
    WithFields(TeecParameter(), p, ReferenceField,
               Sub(With(TeecSharedMemoryReference(), Reference(p), ParentField, Sub(s))));
    WithInitialized(TeecSharedMemoryReference(), Reference(p), ParentField, Sub(s));
    WithInitialized(TeecParameter(), p, ReferenceField,
                    Sub(With(TeecSharedMemoryReference(), Reference(p), ParentField, Sub(s))));
  }

  lemma WithValueKeeps(p: Message, a: int32, b: int32)
    requires IsParameter(p) && Initialized(TeecParameter(), p) && HasValue(p) && !HasReference(p)
    ensures Initialized(TeecParameter(), WithValue(p, a, b)) && RequestedType(WithValue(p, a, b)) == RequestedType(p)
    ensures !HasReference(WithValue(p, a, b)) && SameBut(p, WithValue(p, a, b), ValueField)
  {
    ValueReady(p);
    hide Shaped, Initialized;
    var v := With(TeecValue(), ValueOf(p), A, Number(a));
    WithFields(TeecValue(), ValueOf(p), A, Number(a));
    WithFields(TeecValue(), v, B, Number(b));
    WithFields(TeecParameter(), p, ValueField, Sub(With(TeecValue(), v, B, Number(b))));
    WithInitialized(TeecValue(), ValueOf(p), A, Number(a));
    WithInitialized(TeecValue(), v, B, Number(b));
    WithInitialized(TeecParameter(), p, ValueField, Sub(With(TeecValue(), v, B, Number(b))));
  }

  lemma ValueReady(p: Message)
    requires IsParameter(p) && Initialized(TeecParameter(), p) && HasValue(p)
    ensures Initialized(TeecValue(), ValueOf(p))
  {
    assert InitializedValue(TeecParameter().fields[ValueField].kind, p.fields[ValueField]);
    assert ShapedValue(TeecParameter().fields[ValueField].kind, p.fields[ValueField]);
  }

  /** When the memory is not for output, an initialized parameter comes back as it was. */
  lemma ParentUntouched(p: Message)
    requires IsParameter(p) && Initialized(TeecParameter(), p) && HasReference(p)
    ensures WithParent(p, ParentOf(Reference(p))) == p
  {
    ReferenceReady(p);
    assert ShapedValue(TeecParameter().fields[ReferenceField].kind, p.fields[ReferenceField]);
    WithFields(TeecSharedMemoryReference(), Reference(p), ParentField, Sub(ParentOf(Reference(p))));
    WithFields(TeecParameter(), p, ReferenceField, Sub(Reference(p)));
  }

  /** The flags of the messages are numbered like the parameter types, so a parameter that uses part of a memory, or
      a value, has its flag as its type. */
  lemma TypeIsFlag(p: Message)
    requires IsParameter(p)
    ensures RequestedType(p)
         == if HasReference(p) then
              (if NumberOr(Reference(p).fields[OffsetField], 0) > 0 then NumberOr(Reference(p).fields[FlagField], 13)
               else TEEC_MEMREF_WHOLE)
            else if HasValue(p) then NumberOr(ValueOf(p).fields[FlagField], 1)
            else TEEC_NONE
  {
    assert ShapedValue(TeecSharedMemoryReference().fields[FlagField].kind, Reference(p).fields[FlagField]);
    assert ShapedValue(TeecValue().fields[FlagField].kind, ValueOf(p).fields[FlagField]);
  }

  lemma Uint32Back(v: uint32)
    ensures ToUint32(ToInt32(v)) == v
  {
  }

  /** The numbers that the TEE left in a value are those that the reply carries. */
  lemma ReplyCarriesValue(p: Message, a: uint32, b: uint32, kind: ParamKind, buffer: seq<byte>,
                          memories: map<int32, RegisteredMemory>, x: Param)
    requires IsParameter(p) && !HasReference(p) && Returned(kind)
    ensures var p' := ReplyParam(p, ValueParam(a, b), kind, buffer);
            !HasReference(p') && Unmarshalled(p', memories, x) == ValueParam(a, b)
  {
    hide Shaped;
    Uint32Back(a);
    Uint32Back(b);
    var v := With(TeecValue(), ValueOf(p), A, Number(ToInt32(a)));
    WithFields(TeecValue(), ValueOf(p), A, Number(ToInt32(a)));
    WithFields(TeecValue(), v, B, Number(ToInt32(b)));
    WithFields(TeecParameter(), p, ValueField, Sub(With(TeecValue(), v, B, Number(ToInt32(b)))));
  }

  /** The bytes and the size that the TEE left in a memory for output are those that the reply carries. */
  lemma ReplyCarriesBuffer(p: Message, x: Param, kind: ParamKind, buffer: seq<byte>)
    requires IsParameter(p) && Shared(kind) && x.MemrefParam? && x.parent.flags >= TEEC_MEM_OUTPUT
    ensures var s := ParentOf(Reference(ReplyParam(p, x, kind, buffer)));
            s.fields[BufferField] == Text(buffer) && s.fields[ReturnSizeField].Number?
            && ToUint32(s.fields[ReturnSizeField].n) == x.size
  {
    hide Shaped;
    Uint32Back(x.size);
    var s := ParentOf(Reference(p));
    WithFields(TeecSharedMemory(), s, BufferField, Text(buffer));
    WithFields(TeecSharedMemory(), With(TeecSharedMemory(), s, BufferField, Text(buffer)), ReturnSizeField,
               Number(ToInt32(x.size)));
    var s' := WithBuffer(s, buffer, ToInt32(x.size));
    WithFields(TeecSharedMemoryReference(), Reference(p), ParentField, Sub(s'));
    WithFields(TeecParameter(), p, ReferenceField,
               Sub(With(TeecSharedMemoryReference(), Reference(p), ParentField, Sub(s'))));
  }
}
