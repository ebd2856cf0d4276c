/** Parsing one input after another is parsing them apart and merging, exactly when the first one holds complete
    records only. */
module Merging {
  import opened Wrappers
  import opened Wire
  import opened Messages

  /** A sequence of complete wire records: every length is within the bytes that are there. */
  predicate Records(s: seq<byte>, depth: nat)
    decreases |s|
  {
    s == [] ||
    match ReadVarint32(s)
    case Fail => false
    case Take(tag, rest) =>
      !StopTag(tag) &&
      match SkipField(tag, rest, depth)
      case Fail => false
      case Take(_, rest') => Records(rest', depth)
  }

  // ---------- one merge ----------

  lemma MergeField(schema: Schema, a: Message, b: Message, i: nat)
    requires ValidSchema(schema) && Shaped(schema, a) && Shaped(schema, b) && i < |schema.fields|
    ensures ValidKind(schema.fields[i].kind) && |a.fields| == |b.fields| == |schema.fields|
    ensures ShapedValue(schema.fields[i].kind, a.fields[i]) && ShapedValue(schema.fields[i].kind, b.fields[i])
    ensures Merge(schema, a, b).fields[i] == MergeValue(schema.fields[i].kind, a.fields[i], b.fields[i])
  {
  }

  lemma MergeEmpty(schema: Schema, a: Message)
    requires ValidSchema(schema) && Shaped(schema, a)
    ensures Merge(schema, a, Empty(schema)) == a
  {
    var e := Empty(schema);
    var m := Merge(schema, a, e);
    forall i | 0 <= i < |schema.fields| ensures m.fields[i] == a.fields[i] {
      MergeField(schema, a, e, i);
      if schema.fields[i].kind.RepeatedKind? {
        assert a.fields[i].ms + [] == a.fields[i].ms;
      }
    }
    assert m.unknown == a.unknown;
  }

  lemma MergeWith(schema: Schema, a: Message, b: Message, i: nat, v: Value)
    requires ValidSchema(schema) && Shaped(schema, a) && Shaped(schema, b) && i < |schema.fields|
    requires ShapedValue(schema.fields[i].kind, v)
    ensures ValidKind(schema.fields[i].kind) && ShapedValue(schema.fields[i].kind, a.fields[i])
    ensures Merge(schema, a, With(schema, b, i, v))
         == With(schema, Merge(schema, a, b), i, MergeValue(schema.fields[i].kind, a.fields[i], v))
  {
  }

  lemma MergeWithUnknown(schema: Schema, a: Message, b: Message, u: UnknownField)
    requires ValidSchema(schema) && Shaped(schema, a) && Shaped(schema, b)
    ensures Merge(schema, a, WithUnknown(schema, b, u)) == WithUnknown(schema, Merge(schema, a, b), u)
  {
  }

  // ---------- parsing into a merged message ----------

  function MergeParsed(schema: Schema, a: Message, r: Option<Message>): Option<Message>
    requires ValidSchema(schema) && Shaped(schema, a) && (r.Some? ==> Shaped(schema, r.value))
  {
    if r.None? then None else Some(Merge(schema, a, r.value))
  }

  function MergeTaken(schema: Schema, a: Message, r: Reading<Message>): Reading<Message>
    requires ValidSchema(schema) && Shaped(schema, a) && (r.Take? ==> Shaped(schema, r.value))
  {
    if r.Fail? then Fail else Take(Merge(schema, a, r.value), r.rest)
  }

  /** Parsing commutes with merging from the left. */
  lemma {:induction false} ParseMerged(schema: Schema, s: seq<byte>, depth: nat, a: Message, b: Message)
    requires ValidSchema(schema) && Shaped(schema, a) && Shaped(schema, b)
    ensures ParseFields(schema, s, depth, Merge(schema, a, b))
            == MergeParsed(schema, a, ParseFields(schema, s, depth, b))
    decreases |s|, 3
  {
    hide ReadField, Merge, Shaped, ValidSchema;
    if s != [] && ReadVarint32(s).Take? && !StopTag(ReadVarint32(s).value) {
      var tag, rest := ReadVarint32(s).value, ReadVarint32(s).rest;
      ReadFieldMerged(schema, tag, rest, depth, a, b);
      var r := ReadField(schema, tag, rest, depth, b);
      if r.Take? {
        ParseMerged(schema, r.rest, depth, a, r.value);
      }
    }
  }

  lemma {:induction false} ReadFieldMerged(schema: Schema, tag: nat, s: seq<byte>, depth: nat, a: Message, b: Message)
    requires ValidSchema(schema) && Shaped(schema, a) && Shaped(schema, b) && tag < Two32
    ensures ReadField(schema, tag, s, depth, Merge(schema, a, b))
         == MergeTaken(schema, a, ReadField(schema, tag, s, depth, b))
    decreases |s|, 2
  {
    hide ReadValue, SkipField, Merge, WithUnknown, Shaped, ValidSchema;
    match FieldOf(schema, tag) {
      case Some(i) => ReadValueMerged(schema, i, s, depth, a, b);
      case None =>
        if SkipField(tag, s, depth).Take? {
          MergeWithUnknown(schema, a, b, SkipField(tag, s, depth).value);
        }
    }
  }

  lemma {:induction false} ReadValueMerged(schema: Schema, i: nat, s: seq<byte>, depth: nat, a: Message, b: Message)
    requires ValidSchema(schema) && Shaped(schema, a) && Shaped(schema, b) && i < |schema.fields|
    ensures ReadValue(schema, i, s, depth, Merge(schema, a, b))
         == MergeTaken(schema, a, ReadValue(schema, i, s, depth, b))
    decreases |s|, 1
  {
    hide ReadMessage, Merge, With, WithUnknown, ReadVarint32, ReadString, Base;
    var kind := schema.fields[i].kind;
    MergeField(schema, a, b, i);
    match kind {
      case Int32Kind =>
        if ReadVarint32(s).Take? {
          MergeWith(schema, a, b, i, Number(ToInt32(ReadVarint32(s).value)));
        }
      case EnumKind(values, _) =>
        if ReadVarint32(s).Take? {
          var n := ToInt32(ReadVarint32(s).value);
          if n in values {
            MergeWith(schema, a, b, i, Number(n));
          } else {
            MergeWithUnknown(schema, a, b, UVarint(i + 1, SignExtend(n)));
          }
        }
      case BytesKind =>
        if ReadString(s).Take? {
          MergeWith(schema, a, b, i, Text(ReadString(s).value));
        }
      case MessageKind(sub) =>
        SubMerged(kind, s, depth, a.fields[i], b.fields[i]);
        var r := ReadMessage(sub, s, depth, Base(kind, b.fields[i]));
        if r.Take? {
          MergeWith(schema, a, b, i, Sub(r.value));
        }
      case RepeatedKind(sub) =>
        var r := ReadMessage(sub, s, depth, Empty(sub));
        if r.Take? {
          assert a.fields[i].ms + (b.fields[i].ms + [r.value]) == a.fields[i].ms + b.fields[i].ms + [r.value];
          MergeWith(schema, a, b, i, Many(b.fields[i].ms + [r.value]));
        }
    }
  }

  lemma {:induction false} SubMerged(kind: Kind, s: seq<byte>, depth: nat, x: Value, y: Value)
    requires kind.MessageKind? && ValidKind(kind) && ShapedValue(kind, x) && ShapedValue(kind, y)
    ensures ReadMessage(kind.schema, s, depth, Base(kind, MergeValue(kind, x, y)))
         == MergeTaken(kind.schema, Base(kind, x), ReadMessage(kind.schema, s, depth, Base(kind, y)))
    decreases |s|, 0
  {
    hide ParseFields, Merge, Shaped, ValidSchema;
    var sub := kind.schema;
    MergeEmpty(sub, Base(kind, x));
    assert Base(kind, MergeValue(kind, x, y)) == Merge(sub, Base(kind, x), Base(kind, y));
    if ReadVarint32(s).Take? && depth > 0 {
      var length, rest := ReadVarint32(s).value, ReadVarint32(s).rest;
      ParseMerged(sub, rest[..Clamp(length, |rest|)], depth - 1, Base(kind, x), Base(kind, y));
    }
  }

  /** Parsing into a message is merging what is parsed apart. */
  lemma ParseInto(schema: Schema, s: seq<byte>, depth: nat, m: Message)
    requires ValidSchema(schema) && Shaped(schema, m)
    ensures ParseFields(schema, s, depth, m)
         == MergeParsed(schema, m, ParseFields(schema, s, depth, Empty(schema)))
  {
    MergeEmpty(schema, m);
    ParseMerged(schema, s, depth, m, Empty(schema));
  }

  // ---------- parsing one input after another ----------

  lemma ReadMessageAppend(schema: Schema, s: seq<byte>, depth: nat, m: Message, t: seq<byte>)
    requires ValidSchema(schema) && Shaped(schema, m)
    requires ReadMessage(schema, s, depth, m).Take? && ReadString(s).Take?
    ensures ReadMessage(schema, s + t, depth, m)
         == Take(ReadMessage(schema, s, depth, m).value, ReadString(s).rest + t)
    ensures ReadMessage(schema, s, depth, m).rest == ReadString(s).rest
  {
    hide Shaped, ValidSchema, ParseFields;
    RawVarintAppend(s, t, 10);
    var n, rest := ReadVarint32(s).value, ReadVarint32(s).rest;
    assert (rest + t)[..n] == rest[..n] && (rest + t)[n..] == rest[n..] + t;
  }

  /** A record that can be skipped is parsed to the same end, whatever follows it. */
  lemma ReadFieldAppend(schema: Schema, tag: nat, s: seq<byte>, depth: nat, m: Message, t: seq<byte>)
    requires ValidSchema(schema) && Shaped(schema, m) && tag < Two32
    requires ReadField(schema, tag, s, depth, m).Take? && SkipField(tag, s, depth).Take?
    ensures ReadField(schema, tag, s + t, depth, m)
         == Take(ReadField(schema, tag, s, depth, m).value, ReadField(schema, tag, s, depth, m).rest + t)
    ensures ReadField(schema, tag, s, depth, m).rest == SkipField(tag, s, depth).rest
  {
    hide With, WithUnknown, ReadMessage, Base, StoreEnum, RawVarint, ReadString, ReadFixed, SkipGroup;
    match FieldOf(schema, tag) {
      case None => SkipFieldAppend(tag, s, depth, t);
      case Some(i) =>
        var kind := schema.fields[i].kind;
        assert schema.fields[i] in schema.fields && ValidKind(kind);
        match kind {
          case Int32Kind => RawVarintAppend(s, t, 10);
          case EnumKind(_, _) => RawVarintAppend(s, t, 10);
          case BytesKind => ReadStringAppend(s, t);
          case MessageKind(sub) => ReadMessageAppend(sub, s, depth, Base(kind, m.fields[i]), t);
          case RepeatedKind(sub) => ReadMessageAppend(sub, s, depth, Empty(sub), t);
        }
    }
  }

  lemma {:induction false} ParseOneAfterAnother(schema: Schema, a: seq<byte>, b: seq<byte>, depth: nat, m: Message)
    requires ValidSchema(schema) && Shaped(schema, m)
    requires Records(a, depth) && ParseFields(schema, a, depth, m).Some?
    ensures ParseFields(schema, a + b, depth, m)
         == ParseFields(schema, b, depth, ParseFields(schema, a, depth, m).value)
    decreases |a|
  {
    hide ReadField, SkipField, Shaped, ValidSchema;
    if a == [] {
      assert a + b == b;
    } else {
      RawVarintAppend(a, b, 10);
      var tag, rest := ReadVarint32(a).value, ReadVarint32(a).rest;
      ReadFieldAppend(schema, tag, rest, depth, m, b);
      var r := ReadField(schema, tag, rest, depth, m);
      ParseOneAfterAnother(schema, r.rest, b, depth, r.value);
    }
  }

  /** Parsing `a` and then `b` as one input, compared with merging their separate parses. */
  predicate ParsesApart(schema: Schema, a: seq<byte>, b: seq<byte>, depth: nat)
    requires ValidSchema(schema) && ParseFields(schema, a, depth, Empty(schema)).Some?
  {
    ParseFields(schema, a + b, depth, Empty(schema))
    == MergeParsed(schema, ParseFields(schema, a, depth, Empty(schema)).value,
              ParseFields(schema, b, depth, Empty(schema)))
  }

  lemma CompleteParsesApart(schema: Schema, a: seq<byte>, b: seq<byte>, depth: nat)
    requires ValidSchema(schema) && ParseFields(schema, a, depth, Empty(schema)).Some?
    requires Records(a, depth)
    ensures ParsesApart(schema, a, b, depth)
  {
    ParseOneAfterAnother(schema, a, b, depth, Empty(schema));
    ParseInto(schema, b, depth, ParseFields(schema, a, depth, Empty(schema)).value);
  }

  // ---------- a last record that claims more than is there ----------

  /** An empty byte string under field number zero: always an unknown field. */
  const Stray: seq<byte> := [2, 0]

  lemma StrayUnknown(schema: Schema, depth: nat)
    requires ValidSchema(schema)
    ensures ParseFields(schema, Stray, depth, Empty(schema)) == Some(WithUnknown(schema, Empty(schema), UBytes(0, [])))
  {
    var m := Empty(schema);
    var none: seq<byte> := [];
    assert ReadVarint32(Stray) == Take(2, [0]);
    assert Stray[1..] == [0] && [0][1..] == none;
    assert ReadVarint32([0]) == Take(0, none);
    assert FieldOf(schema, 2) == None;
    assert SkipField(2, [0], depth) == Take(UBytes(0, []), none);
    assert ReadField(schema, 2, [0], depth, m) == Take(WithUnknown(schema, m, UBytes(0, [])), none);
    assert ParseFields(schema, none, depth, WithUnknown(schema, m, UBytes(0, [])))
        == Some(WithUnknown(schema, m, UBytes(0, [])));
  }

  lemma MessageCutShort(schema: Schema, s: seq<byte>, depth: nat, m: Message)
    requires ValidSchema(schema) && Shaped(schema, m)
    requires ReadMessage(schema, s, depth, m).Take? && ReadString(s).Fail?
    ensures ReadMessage(schema, s, depth, m).rest == []
    ensures var r := ReadMessage(schema, s + Stray, depth, m);
            r.Take? ==> r.rest == [] || r.rest == [0]
  {
    hide Shaped, ValidSchema, ParseFields;
    RawVarintAppend(s, Stray, 10);
    var rest := ReadVarint32(s).rest;
    var all := rest + Stray;
    assert rest[|rest|..] == [];
    assert all[|rest| + 1..] == [0] && all[|rest| + 2..] == [];
  }

  /** A record that parses but cannot be skipped is a sub-message cut short by the end of the input; more input goes
      into the sub-message. */
  lemma CutShort(schema: Schema, tag: nat, s: seq<byte>, depth: nat, m: Message)
    requires ValidSchema(schema) && Shaped(schema, m) && tag < Two32
    requires ReadField(schema, tag, s, depth, m).Take? && SkipField(tag, s, depth).Fail?
    ensures ReadField(schema, tag, s, depth, m).rest == []
    ensures ReadField(schema, tag, s, depth, m).value.unknown == m.unknown
    ensures var r := ReadField(schema, tag, s + Stray, depth, m);
            r.Take? ==> r.value.unknown == m.unknown && (r.rest == [] || r.rest == [0])
  {
    hide ReadMessage, Base, RawVarint, ReadString, ReadFixed, SkipGroup;
    var i := FieldOf(schema, tag).value;
    var kind := schema.fields[i].kind;
    assert schema.fields[i] in schema.fields && ValidKind(kind);
    match kind {
      case MessageKind(sub) => MessageCutShort(sub, s, depth, Base(kind, m.fields[i]));
      case RepeatedKind(sub) => MessageCutShort(sub, s, depth, Empty(sub));
      case _ => assert false;
    }
  }

  lemma StrayZero(schema: Schema, depth: nat, m: Message)
    requires ValidSchema(schema) && Shaped(schema, m)
    ensures ParseFields(schema, [0], depth, m) == None
  {
  }

  lemma {:induction false} IncompleteSwallows(schema: Schema, a: seq<byte>, depth: nat, m: Message)
    requires ValidSchema(schema) && Shaped(schema, m)
    requires ParseFields(schema, a, depth, m).Some? && !Records(a, depth)
    ensures var r := ParseFields(schema, a + Stray, depth, m);
            r.Some? ==> r.value.unknown == ParseFields(schema, a, depth, m).value.unknown
    decreases |a|
  {
    hide ReadField, SkipField, Shaped, ValidSchema;
    RawVarintAppend(a, Stray, 10);
    var tag, rest := ReadVarint32(a).value, ReadVarint32(a).rest;
    var r := ReadField(schema, tag, rest, depth, m);
    if SkipField(tag, rest, depth).Take? {
      ReadFieldAppend(schema, tag, rest, depth, m, Stray);
      IncompleteSwallows(schema, r.rest, depth, r.value);
    } else {
      CutShort(schema, tag, rest, depth, m);
      var r' := ReadField(schema, tag, rest + Stray, depth, m);
      if r'.Take? {
        StrayZero(schema, depth, r'.value);
      }
    }
  }

  /** Concatenation is merging for every continuation exactly when the first input holds complete records. */
  lemma ConcatenationIsMerging(schema: Schema, a: seq<byte>, depth: nat)
    requires ValidSchema(schema) && ParseFields(schema, a, depth, Empty(schema)).Some?
    ensures (forall b :: ParsesApart(schema, a, b, depth)) <==> Records(a, depth)
    ensures |a| + |Stray| <= TotalBytesLimit ==>
              ((forall b :: |a + b| <= TotalBytesLimit ==> ParsesApart(schema, a, b, depth)) <==> Records(a, depth))
  {
    if Records(a, depth) {
      forall b ensures ParsesApart(schema, a, b, depth) {
        CompleteParsesApart(schema, a, b, depth);
      }
    } else {
      StrayUnknown(schema, depth);
      IncompleteSwallows(schema, a, depth, Empty(schema));
      assert !ParsesApart(schema, a, Stray, depth);
    }
  }
}
