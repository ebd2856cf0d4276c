/** Parsing what was serialized, and serializing what was parsed. */
module RoundTrips {
  import opened Wrappers
  import opened Wire
  import opened Messages

  lemma ParseEnd(schema: Schema, depth: nat, m: Message)
    requires ValidSchema(schema) && Shaped(schema, m)
    ensures ParseFields(schema, [], depth, m) == Some(m)
  {
  }

  /** A tag in front of the input selects the field that is read. */
  lemma FieldStep(schema: Schema, number: nat, wireType: nat, s: seq<byte>, depth: nat, m: Message)
    requires ValidSchema(schema) && Shaped(schema, m)
    requires number <= MaxFieldNumber && wireType < 8 && !StopTag(MakeTag(number, wireType))
    ensures MakeTag(number, wireType) < Two32
    ensures var r := ReadField(schema, MakeTag(number, wireType), s, depth, m);
            ParseFields(schema, Varint(MakeTag(number, wireType)) + s, depth, m)
            == if r.Fail? then None else ParseFields(schema, r.rest, depth, r.value)
  {
    hide ReadField, Varint, ReadVarint32;
    SplitTag(number, wireType);
    ReadTagBack(number, wireType, s);
  }

  /** The tag of field `i` selects field `i`. */
  lemma ValueStep(schema: Schema, i: nat, s: seq<byte>, depth: nat, m: Message)
    requires ValidSchema(schema) && Shaped(schema, m) && i < |schema.fields|
    ensures var r := ReadValue(schema, i, s, depth, m);
            ParseFields(schema, Varint(FieldTag(schema, i)) + s, depth, m)
            == if r.Fail? then None else ParseFields(schema, r.rest, depth, r.value)
  {
    hide ReadValue, ParseFields, Varint;
    FieldOfTag(schema, i);
    FieldStep(schema, i + 1, KindWireType(schema.fields[i].kind), s, depth, m);
  }

  lemma UnknownFieldBack(schema: Schema, u: UnknownField, t: seq<byte>, depth: nat, m: Message)
    requires ValidSchema(schema) && Shaped(schema, m)
    requires Storable(u, depth) && LeftUnknown(schema, u)
    ensures TagOf(u) < Two32 && ReadField(schema, TagOf(u), Payload(u) + t, depth, m)
            == Take(WithUnknown(schema, m, u), t)
  {
    hide SkipField, Varint, ReadVarint32;
    StorableTag(u, depth);
    SkipFieldBack(u, t, depth);
    var f := FieldOf(schema, TagOf(u));
    if f.Some? {
      var v: int32 :| u.varint == SignExtend(v) && v !in schema.fields[f.value].kind.values;
      Int32Back(v, t);
    }
  }

  lemma UnknownStep(schema: Schema, u: UnknownField, t: seq<byte>, depth: nat, m: Message)
    requires ValidSchema(schema) && Shaped(schema, m)
    requires Storable(u, depth) && LeftUnknown(schema, u)
    ensures ParseFields(schema, Varint(TagOf(u)) + (Payload(u) + t), depth, m)
         == ParseFields(schema, t, depth, WithUnknown(schema, m, u))
  {
    hide Storable, LeftUnknown, ReadField, ParseFields, Payload, Varint, Shaped, ValidSchema;
    StorableTag(u, depth);
    FieldStep(schema, u.number, WireTypeOf(u), Payload(u) + t, depth, m);
    UnknownFieldBack(schema, u, t, depth, m);
  }

  lemma {:induction false} UnknownBack(schema: Schema, us: seq<UnknownField>, depth: nat, m: Message)
    requires ValidSchema(schema) && Shaped(schema, m)
    requires forall u :: u in us ==> Storable(u, depth) && LeftUnknown(schema, u)
    ensures ParseFields(schema, EncodeUnknown(us), depth, m) == Some(m.(unknown := m.unknown + us))
    decreases |us|
  {
    hide Storable, LeftUnknown, ParseFields, Payload, Varint, Shaped, ValidSchema, TagOf;
    if us == [] {
      ParseEnd(schema, depth, m);
      assert m.unknown + us == m.unknown;
    } else {
      var u, tail := us[0], EncodeUnknown(us[1..]);
      assert EncodeUnknown(us) == Varint(TagOf(u)) + (Payload(u) + tail);
      UnknownStep(schema, u, tail, depth, m);
      UnknownBack(schema, us[1..], depth, WithUnknown(schema, m, u));
      assert m.unknown + us == m.unknown + [u] + us[1..];
    }
  }

  /** The first `i` fields of a message, and no unknown fields. */
  function Front(schema: Schema, m: Message, i: nat): (f: Message)
    requires ValidSchema(schema) && Shaped(schema, m) && i <= |m.fields|
    ensures Shaped(schema, f)
  {
    var f := Message(m.fields[..i] + Empty(schema).fields[i..], []);
    assert forall k :: 0 <= k < |f.fields| ==>
             f.fields[k] == if k < i then m.fields[k] else Empty(schema).fields[k];
    f
  }

  lemma FrontNext(schema: Schema, m: Message, i: nat)
    requires ValidSchema(schema) && Shaped(schema, m) && i < |m.fields|
    ensures Front(schema, m, i).fields[i] == EmptyValue(schema.fields[i].kind)
    ensures Front(schema, m, i + 1) == With(schema, Front(schema, m, i), i, m.fields[i])
  {
    hide EmptyValue;
    var next := With(schema, Front(schema, m, i), i, m.fields[i]);
    assert Front(schema, m, i + 1).fields == next.fields;
  }

  lemma {:induction false} MessageBack(schema: Schema, m: Message, depth: nat)
    requires ValidSchema(schema) && Shaped(schema, m) && Readable(schema, m, depth)
    requires |Encode(schema, m)| < Two31
    ensures ParseFields(schema, Encode(schema, m), depth, Empty(schema)) == Some(m)
    decreases m, |m.fields| + 1
  {
    hide ParseFields, Readable, EncodeFrom, Shaped, ValidSchema;
    FromBack(schema, m, 0, depth);
    assert Front(schema, m, 0) == Empty(schema);
  }

  lemma {:induction false} FromBack(schema: Schema, m: Message, i: nat, depth: nat)
    requires ValidSchema(schema) && Shaped(schema, m) && Readable(schema, m, depth) && i <= |m.fields|
    requires |EncodeFrom(schema, m, i)| < Two31
    ensures ParseFields(schema, EncodeFrom(schema, m, i), depth, Front(schema, m, i)) == Some(m)
    decreases m, |m.fields| - i
  {
    hide ParseFields, EncodeUnknown, EncodeValue;
    var f := Front(schema, m, i);
    if i == |m.fields| {
      UnknownBack(schema, m.unknown, depth, f);
      assert f.fields == m.fields && f.unknown + m.unknown == m.unknown;
    } else {
      var v := m.fields[i];
      assert ShapedValue(schema.fields[i].kind, v) && ReadableValue(schema.fields[i].kind, v, depth);
      FrontNext(schema, m, i);
      ValueBack(schema, i, v, EncodeFrom(schema, m, i + 1), depth, f);
      FromBack(schema, m, i + 1, depth);
    }
  }

  lemma {:induction false} ValueBack(schema: Schema, i: nat, v: Value, t: seq<byte>, depth: nat, m: Message)
    requires ValidSchema(schema) && Shaped(schema, m) && i < |schema.fields|
    requires ShapedValue(schema.fields[i].kind, v) && ReadableValue(schema.fields[i].kind, v, depth)
    requires m.fields[i] == EmptyValue(schema.fields[i].kind)
    requires |EncodeValue(schema.fields[i].kind, FieldTag(schema, i), v)| < Two31
    ensures ParseFields(schema, EncodeValue(schema.fields[i].kind, FieldTag(schema, i), v) + t, depth, m)
         == ParseFields(schema, t, depth, With(schema, m, i, v))
    decreases v
  {
    hide ParseFields, Readable, Encode, FieldTag, Varint, ReadVarint32, ReadString;
    var kind, tag := schema.fields[i].kind, FieldTag(schema, i);
    assert schema.fields[i] in schema.fields && ValidKind(kind);
    match v {
      case Absent =>
        assert EncodeValue(kind, tag, v) + t == t;
        assert With(schema, m, i, v) == m;
      case Number(n) =>
        var p := Varint(SignExtend(n));
        assert EncodeValue(kind, tag, v) + t == Varint(tag) + (p + t);
        Int32Back(n, t);
        ValueStep(schema, i, p + t, depth, m);
      case Text(data) =>
        assert EncodeValue(kind, tag, v) + t == Varint(tag) + (Prefixed(data) + t);
        ReadStringBack(data, t);
        ValueStep(schema, i, Prefixed(data) + t, depth, m);
      case Sub(x) =>
        var p := Prefixed(Encode(kind.schema, x));
        assert EncodeValue(kind, tag, v) + t == Varint(tag) + (p + t);
        ReadMessageBack(kind.schema, x, t, depth);
        ValueStep(schema, i, p + t, depth, m);
      case Many(ms) =>
        ItemsBack(schema, i, ms, t, depth, m);
        assert [] + ms == ms;
    }
  }

  lemma {:induction false} ReadMessageBack(schema: Schema, m: Message, t: seq<byte>, depth: nat)
    requires ValidSchema(schema) && Shaped(schema, m) && depth > 0 && Readable(schema, m, depth - 1)
    requires |Encode(schema, m)| < Two31
    ensures ReadMessage(schema, Prefixed(Encode(schema, m)) + t, depth, Empty(schema)) == Take(m, t)
    decreases m, |m.fields| + 2
  {
    hide ParseFields, Readable, Encode, Varint, ReadVarint32;
    var e := Encode(schema, m);
    assert Prefixed(e) + t == Varint(|e|) + (e + t);
    ReadVarint32Back(|e|, e + t);
    assert (e + t)[..|e|] == e && (e + t)[|e|..] == t;
    MessageBack(schema, m, depth - 1);
  }

  lemma {:induction false} ItemsBack(schema: Schema, i: nat, ms: seq<Message>, t: seq<byte>, depth: nat, m: Message)
    requires ValidSchema(schema) && Shaped(schema, m) && i < |schema.fields| && schema.fields[i].kind.RepeatedKind?
    requires forall x :: x in ms ==> Shaped(schema.fields[i].kind.schema, x)
    requires forall x :: x in ms ==> depth > 0 && Readable(schema.fields[i].kind.schema, x, depth - 1)
    requires |EncodeItems(schema.fields[i].kind.schema, FieldTag(schema, i), ms)| < Two31
    ensures m.fields[i].Many?
    ensures ParseFields(schema, EncodeItems(schema.fields[i].kind.schema, FieldTag(schema, i), ms) + t, depth, m)
         == ParseFields(schema, t, depth, With(schema, m, i, Many(m.fields[i].ms + ms)))
    decreases ms
  {
    hide ParseFields, Readable, Encode, FieldTag, Varint, ReadMessage;
    var sub, tag := schema.fields[i].kind.schema, FieldTag(schema, i);
    assert schema.fields[i] in schema.fields && ValidKind(schema.fields[i].kind);
    assert ShapedValue(schema.fields[i].kind, m.fields[i]);
    if ms == [] {
      assert EncodeItems(sub, tag, ms) + t == t;
      assert m.fields[i].ms + ms == m.fields[i].ms && With(schema, m, i, m.fields[i]) == m;
    } else {
      assert ms[0] in ms;
      var p, tail := Prefixed(Encode(sub, ms[0])), EncodeItems(sub, tag, ms[1..]) + t;
      assert EncodeItems(sub, tag, ms) + t == Varint(tag) + (p + tail);
      ReadMessageBack(sub, ms[0], tail, depth);
      ValueStep(schema, i, p + tail, depth, m);
      var m' := With(schema, m, i, Many(m.fields[i].ms + [ms[0]]));
      assert forall x :: x in ms[1..] ==> x in ms;
      ItemsBack(schema, i, ms[1..], t, depth, m');
      var all := m.fields[i].ms + ms;
      assert m.fields[i].ms + [ms[0]] + ms[1..] == all;
      assert With(schema, m', i, Many(all)) == With(schema, m, i, Many(all));
    }
  }

  /** Parsing the serialization of a message that parsing can produce gives the message back. */
  lemma ParseBack(schema: Schema, m: Message)
    requires ValidSchema(schema) && Shaped(schema, m) && Initialized(schema, m) && Readable(schema, m, RecursionLimit)
    requires |Encode(schema, m)| <= TotalBytesLimit
    ensures Parse(schema, Encode(schema, m)) == Some(m)
  {
    MessageBack(schema, m, RecursionLimit);
  }

  // ---------- beyond the total limit ----------

  /** The last record of the serialization is one of the last field. */
  predicate LastIsLast(schema: Schema, m: Message)
    requires Shaped(schema, m)
  {
    if m.unknown != [] then IsLastField(schema, FieldOf(schema, TagOf(m.unknown[|m.unknown| - 1])))
    else m.fields != [] && m.fields[|m.fields| - 1] != EmptyValue(schema.fields[|m.fields| - 1].kind)
  }

  /** The same of the records from field `i` on; `last` says so of what came before. */
  predicate LastFrom(schema: Schema, m: Message, i: nat, last: bool)
    requires Shaped(schema, m) && i <= |m.fields|
    decreases |m.fields| - i
  {
    if i < |m.fields| then LastFrom(schema, m, i + 1, if m.fields[i] == Absent then last else i + 1 == |m.fields|)
    else if m.unknown == [] then last
    else IsLastField(schema, FieldOf(schema, TagOf(m.unknown[|m.unknown| - 1])))
  }

  lemma {:induction false} LastFromExact(schema: Schema, m: Message, i: nat)
    requires Shaped(schema, m) && Flat(schema) && i < |m.fields|
    ensures LastFrom(schema, m, i, false) == LastIsLast(schema, m)
    decreases |m.fields| - i
  {
    assert schema.fields[|m.fields| - 1] in schema.fields;
    if i + 1 < |m.fields| {
      LastFromExact(schema, m, i + 1);
    }
  }

  lemma TailStep(schema: Schema, number: nat, wireType: nat, s: seq<byte>, depth: nat, m: Message, last: bool)
    requires ValidSchema(schema) && Shaped(schema, m)
    requires number <= MaxFieldNumber && wireType < 8 && !StopTag(MakeTag(number, wireType))
    ensures MakeTag(number, wireType) < Two32
    ensures var tag := MakeTag(number, wireType);
            var r := ReadField(schema, tag, s, depth, m);
            EndsBehindLast(schema, Varint(tag) + s, depth, m, last)
            == (r.Take? && EndsBehindLast(schema, r.rest, depth, r.value, IsLastField(schema, FieldOf(schema, tag))))
  {
    hide ReadField, Varint, ReadVarint32;
    SplitTag(number, wireType);
    ReadTagBack(number, wireType, s);
  }

  lemma ValueTail(schema: Schema, i: nat, v: Value, t: seq<byte>, depth: nat, m: Message, last: bool)
    requires ValidSchema(schema) && Flat(schema) && Shaped(schema, m) && i < |schema.fields|
    requires ShapedValue(schema.fields[i].kind, v) && ReadableValue(schema.fields[i].kind, v, depth)
    requires m.fields[i] == Absent
    ensures EndsBehindLast(schema, EncodeValue(schema.fields[i].kind, FieldTag(schema, i), v) + t, depth, m, last)
         == EndsBehindLast(schema, t, depth, With(schema, m, i, v),
                           if v == Absent then last else i + 1 == |schema.fields|)
  {
    hide EndsBehindLast, FieldTag, Varint, ReadVarint32, ReadString;
    var kind, tag := schema.fields[i].kind, FieldTag(schema, i);
    assert schema.fields[i] in schema.fields && ValidKind(kind);
    FieldOfTag(schema, i);
    if v == Absent {
      assert EncodeValue(kind, tag, v) + t == t && With(schema, m, i, v) == m;
    } else {
      var p := if v.Number? then Varint(SignExtend(v.n)) else Prefixed(v.data);
      assert EncodeValue(kind, tag, v) + t == Varint(tag) + (p + t);
      if v.Number? {
        Int32Back(v.n, t);
      } else {
        ReadStringBack(v.data, t);
      }
      FieldTagMade(schema, i);
      TailStep(schema, i + 1, KindWireType(kind), p + t, depth, m, last);
    }
  }

  lemma FieldTagMade(schema: Schema, i: nat)
    requires SmallSchema(schema) && i < |schema.fields|
    ensures FieldTag(schema, i) == MakeTag(i + 1, KindWireType(schema.fields[i].kind))
    ensures i + 1 <= MaxFieldNumber && KindWireType(schema.fields[i].kind) < 8
  {
  }

  lemma {:induction false} UnknownTail(schema: Schema, us: seq<UnknownField>, depth: nat, m: Message, last: bool)
    requires ValidSchema(schema) && Shaped(schema, m)
    requires forall u :: u in us ==> Storable(u, depth) && LeftUnknown(schema, u)
    ensures EndsBehindLast(schema, EncodeUnknown(us), depth, m, last)
         == if us == [] then last else IsLastField(schema, FieldOf(schema, TagOf(us[|us| - 1])))
    decreases |us|
  {
    hide Storable, LeftUnknown, Payload, Varint, Shaped, ValidSchema, TagOf, ReadField, ReadVarint32;
    if us != [] {
      var u, tail := us[0], EncodeUnknown(us[1..]);
      assert EncodeUnknown(us) == Varint(TagOf(u)) + (Payload(u) + tail);
      StorableTag(u, depth);
      TagMade(u);
      TailStep(schema, u.number, WireTypeOf(u), Payload(u) + tail, depth, m, last);
      UnknownFieldBack(schema, u, tail, depth, m);
      UnknownTail(schema, us[1..], depth, WithUnknown(schema, m, u), IsLastField(schema, FieldOf(schema, TagOf(u))));
    }
  }

  lemma TagMade(u: UnknownField)
    ensures TagOf(u) == MakeTag(u.number, WireTypeOf(u))
  {
  }

  lemma FlatValue(schema: Schema, m: Message, i: nat, depth: nat)
    requires Flat(schema) && Shaped(schema, m) && Readable(schema, m, depth) && i < |m.fields|
    ensures ShapedValue(schema.fields[i].kind, m.fields[i]) && ReadableValue(schema.fields[i].kind, m.fields[i], depth)
    ensures EmptyValue(schema.fields[i].kind) == Absent
  {
    assert schema.fields[i] in schema.fields;
  }

  lemma FieldTail(schema: Schema, m: Message, i: nat, depth: nat, last: bool)
    requires ValidSchema(schema) && Flat(schema) && Shaped(schema, m) && Readable(schema, m, depth) && i < |m.fields|
    ensures EndsBehindLast(schema, EncodeFrom(schema, m, i), depth, Front(schema, m, i), last)
         == EndsBehindLast(schema, EncodeFrom(schema, m, i + 1), depth, Front(schema, m, i + 1),
                           if m.fields[i] == Absent then last else i + 1 == |m.fields|)
  {
    hide EndsBehindLast, EncodeUnknown, EncodeValue, Readable, ReadableValue, ShapedValue, ValidSchema, Flat, Front,
         EmptyValue, With;
    FlatValue(schema, m, i, depth);
    FrontNext(schema, m, i);
    ValueTail(schema, i, m.fields[i], EncodeFrom(schema, m, i + 1), depth, Front(schema, m, i), last);
  }

  lemma {:induction false} FromTail(schema: Schema, m: Message, i: nat, depth: nat, last: bool)
    requires ValidSchema(schema) && Flat(schema) && Shaped(schema, m) && Readable(schema, m, depth) && i <= |m.fields|
    ensures EndsBehindLast(schema, EncodeFrom(schema, m, i), depth, Front(schema, m, i), last)
         == LastFrom(schema, m, i, last)
    decreases |m.fields| - i
  {
    hide EndsBehindLast, EncodeUnknown, EncodeValue, FieldOf, TagOf, ValidSchema, Flat;
    if i == |m.fields| {
      UnknownTail(schema, m.unknown, depth, Front(schema, m, i), last);
    } else {
      hide EncodeFrom, Readable, Shaped, Front;
      FieldTail(schema, m, i, depth, last);
      FromTail(schema, m, i + 1, depth, if m.fields[i] == Absent then last else i + 1 == |m.fields|);
    }
  }

  lemma EncodedTail(schema: Schema, m: Message)
    requires ValidSchema(schema) && Flat(schema) && Shaped(schema, m) && Readable(schema, m, RecursionLimit)
    ensures EndsBehindLast(schema, Encode(schema, m), RecursionLimit, Empty(schema), false) == LastIsLast(schema, m)
  {
    hide EndsBehindLast, Readable, EncodeFrom, ValidSchema, LastFrom;
    FromTail(schema, m, 0, RecursionLimit, false);
    assert Front(schema, m, 0) == Empty(schema);
    if m.fields != [] {
      LastFromExact(schema, m, 0);
    } else {
      NothingLast(schema, m);
    }
  }

  lemma NothingLast(schema: Schema, m: Message)
    requires Shaped(schema, m) && m.fields == []
    ensures LastFrom(schema, m, 0, false) == LastIsLast(schema, m)
  {
  }

  // ---------- what parsing produces ----------

  lemma EmptyReadable(schema: Schema, depth: nat)
    requires ValidSchema(schema)
    ensures Readable(schema, Empty(schema), depth)
  {
  }

  /** Parsing keeps a message readable: no field is stored that could not be read back. */
  lemma {:induction false} ParseReadable(schema: Schema, s: seq<byte>, depth: nat, m: Message)
    requires ValidSchema(schema) && Shaped(schema, m) && Readable(schema, m, depth)
    requires ParseFields(schema, s, depth, m).Some?
    ensures Readable(schema, ParseFields(schema, s, depth, m).value, depth)
    decreases |s|, 3
  {
    hide Readable, ReadField;
    if s != [] {
      var tag, rest := ReadVarint32(s).value, ReadVarint32(s).rest;
      ReadFieldReadable(schema, tag, rest, depth, m);
      var r := ReadField(schema, tag, rest, depth, m);
      ParseReadable(schema, r.rest, depth, r.value);
    }
  }

  lemma {:induction false} ReadFieldReadable(schema: Schema, tag: nat, s: seq<byte>, depth: nat, m: Message)
    requires ValidSchema(schema) && Shaped(schema, m) && Readable(schema, m, depth)
    requires tag < Two32 && !StopTag(tag) && ReadField(schema, tag, s, depth, m).Take?
    ensures Readable(schema, ReadField(schema, tag, s, depth, m).value, depth)
    decreases |s|, 2
  {
    hide Readable, ReadValue, SkipField;
    if FieldOf(schema, tag).Some? {
      ReadValueReadable(schema, FieldOf(schema, tag).value, s, depth, m);
    } else {
      SkipFieldStorable(tag, s, depth);
      WithUnknownReadable(schema, m, SkipField(tag, s, depth).value, depth);
    }
  }

  lemma WithUnknownReadable(schema: Schema, m: Message, u: UnknownField, depth: nat)
    requires Shaped(schema, m) && Readable(schema, m, depth)
    requires Storable(u, depth) && LeftUnknown(schema, u)
    ensures Readable(schema, WithUnknown(schema, m, u), depth)
  {
  }

  lemma WithReadable(schema: Schema, m: Message, i: nat, v: Value, depth: nat)
    requires Shaped(schema, m) && Readable(schema, m, depth) && i < |schema.fields|
    requires ShapedValue(schema.fields[i].kind, v) && ReadableValue(schema.fields[i].kind, v, depth)
    ensures Readable(schema, With(schema, m, i, v), depth)
  {
  }

  lemma FieldReadable(schema: Schema, m: Message, i: nat, depth: nat)
    requires Shaped(schema, m) && Readable(schema, m, depth) && i < |schema.fields|
    ensures ShapedValue(schema.fields[i].kind, m.fields[i])
    ensures ReadableValue(schema.fields[i].kind, m.fields[i], depth)
  {
  }

  lemma EnumStorable(schema: Schema, i: nat, v: int32, depth: nat)
    requires SmallSchema(schema) && i < |schema.fields| && schema.fields[i].kind.EnumKind?
    requires v !in schema.fields[i].kind.values
    ensures Storable(UVarint(i + 1, SignExtend(v)), depth) && LeftUnknown(schema, UVarint(i + 1, SignExtend(v)))
  {
  }

  lemma {:induction false} ReadValueReadable(schema: Schema, i: nat, s: seq<byte>, depth: nat, m: Message)
    requires ValidSchema(schema) && Shaped(schema, m) && Readable(schema, m, depth)
    requires i < |schema.fields| && ReadValue(schema, i, s, depth, m).Take?
    ensures Readable(schema, ReadValue(schema, i, s, depth, m).value, depth)
    decreases |s|, 1
  {
    hide Readable, ReadMessage, With, WithUnknown, Storable, LeftUnknown;
    var kind := schema.fields[i].kind;
    assert schema.fields[i] in schema.fields && ValidKind(kind);
    FieldReadable(schema, m, i, depth);
    match kind {
      case Int32Kind =>
        WithReadable(schema, m, i, Number(ToInt32(ReadVarint32(s).value)), depth);
      case EnumKind(values, _) =>
        var n := ToInt32(ReadVarint32(s).value);
        if n in values {
          WithReadable(schema, m, i, Number(n), depth);
        } else {
          EnumStorable(schema, i, n, depth);
          WithUnknownReadable(schema, m, UVarint(i + 1, SignExtend(n)), depth);
        }
      case BytesKind =>
        WithReadable(schema, m, i, Text(ReadString(s).value), depth);
      case MessageKind(sub) =>
        var base := Base(kind, m.fields[i]);
        if depth > 0 {
          EmptyReadable(sub, depth - 1);
        }
        ReadMessageReadable(sub, s, depth, base);
        WithReadable(schema, m, i, Sub(ReadMessage(sub, s, depth, base).value), depth);
      case RepeatedKind(sub) =>
        if depth > 0 {
          EmptyReadable(sub, depth - 1);
        }
        ReadMessageReadable(sub, s, depth, Empty(sub));
        WithReadable(schema, m, i, Many(m.fields[i].ms + [ReadMessage(sub, s, depth, Empty(sub)).value]), depth);
    }
  }

  lemma {:induction false} ReadMessageReadable(schema: Schema, s: seq<byte>, depth: nat, m: Message)
    requires ValidSchema(schema) && Shaped(schema, m) && (depth > 0 ==> Readable(schema, m, depth - 1))
    requires ReadMessage(schema, s, depth, m).Take?
    ensures depth > 0 && Readable(schema, ReadMessage(schema, s, depth, m).value, depth - 1)
    decreases |s|, 0
  {
    hide Readable, ParseFields;
    var length, rest := ReadVarint32(s).value, ReadVarint32(s).rest;
    ParseReadable(schema, rest[..Clamp(length, |rest|)], depth - 1, m);
  }

  /** Every result of parsing can be serialized and parsed again without loss, if it is then not too long. */
  lemma ParseStable(schema: Schema, s: seq<byte>)
    requires ValidSchema(schema) && Covered(schema, |s|) && Parse(schema, s).Some?
    requires |Encode(schema, Parse(schema, s).value)| <= TotalBytesLimit
    ensures Parse(schema, Encode(schema, Parse(schema, s).value)) == Parse(schema, s)
  {
    EmptyReadable(schema, RecursionLimit);
    ParseReadable(schema, s, RecursionLimit, Empty(schema));
    ParseBack(schema, Parse(schema, s).value);
  }

  /** The messages that survive serializing and parsing are exactly those that parsing can produce, up to the total
      limit of a stream; a longer one without sub-messages survives exactly when its last record is one of its last
      field, behind which the end is expected and the total limit is not asked for. */
  lemma SurvivesExactly(schema: Schema, m: Message)
    requires ValidSchema(schema) && Shaped(schema, m)
    requires Covered(schema, |Encode(schema, m)|) && |Encode(schema, m)| < Two31
    ensures Parse(schema, Encode(schema, m)) == Some(m)
            <==> Initialized(schema, m) && Readable(schema, m, RecursionLimit)
                 && (|Encode(schema, m)| <= TotalBytesLimit || LastIsLast(schema, m))
  {
    hide Readable, Initialized, ParseFields, Encode, EndsBehindLast, LastIsLast;
    if Initialized(schema, m) && Readable(schema, m, RecursionLimit) {
      MessageBack(schema, m, RecursionLimit);
      if |Encode(schema, m)| > TotalBytesLimit {
        EncodedTail(schema, m);
      }
    } else if Parse(schema, Encode(schema, m)) == Some(m) {
      EmptyReadable(schema, RecursionLimit);
      ParseReadable(schema, Encode(schema, m), RecursionLimit, Empty(schema));
    }
  }
}
