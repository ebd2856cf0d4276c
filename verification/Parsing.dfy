/** The generated parsers: tags are predicted, and only mispredictions go through the dispatch on tags. */
module Parsing {
  import opened Wrappers
  import opened Wire
  import opened Messages
  import opened Reading
  import opened Leftovers

  /** What parsing comes to: the result if it succeeds, and what it leaves in any case. */
  ghost function Ahead(schema: Schema, s: seq<byte>, depth: nat, m: Message, beyond: bool, last: bool)
    : (Option<Message>, Message)
    requires ValidSchema(schema) && Shaped(schema, m)
  {
    (ParseToEnd(schema, s, depth, m, beyond, last), Left(schema, s, depth, m))
  }

  /** Parsing continues by reading the value of field `i`, whose tag has been taken. */
  ghost function Pending(schema: Schema, i: nat, s: seq<byte>, depth: nat, m: Message, beyond: bool)
    : (Option<Message>, Message)
    requires ValidSchema(schema) && Shaped(schema, m) && i < |schema.fields|
  {
    var r := ReadValue(schema, i, s, depth, m);
    if r.Fail? then (None, LeftValue(schema, i, s, depth, m))
    else Ahead(schema, r.rest, depth, r.value, beyond, IsLastField(schema, Some(i)))
  }

  /** What came before matters only at the end. */
  lemma LastForgotten(schema: Schema, s: seq<byte>, depth: nat, m: Message, beyond: bool, last: bool)
    requires ValidSchema(schema) && Shaped(schema, m) && s != []
    ensures Ahead(schema, s, depth, m, beyond, last) == Ahead(schema, s, depth, m, beyond, false)
  {
    hide ReadField, ParseFields, Left;
  }

  /** What the dispatch on the next tag does. */
  lemma Dispatched(schema: Schema, s: seq<byte>, depth: nat, m: Message, beyond: bool, last: bool)
    requires ValidSchema(schema) && Shaped(schema, m)
    ensures var tag := TagAhead(s);
            Ahead(schema, s, depth, m, beyond, last)
            == if s == [] then (if beyond && !last then None else Some(m), m)
               else if StopTag(tag) then (None, m)
               else
                 var rest := Wire.ReadVarint32(s).rest;
                 var r := ReadField(schema, tag, rest, depth, m);
                 if r.Fail? then (None, LeftIn(schema, tag, rest, depth, m))
                 else Ahead(schema, r.rest, depth, r.value, beyond, IsLastField(schema, FieldOf(schema, tag)))
  {
    hide ReadField, LeftIn;
    var tag := TagAhead(s);
    if s != [] && !StopTag(tag) && ReadField(schema, tag, Wire.ReadVarint32(s).rest, depth, m).Take? {
      LeftInComplete(schema, tag, Wire.ReadVarint32(s).rest, depth, m);
    }
  }

  lemma PredictedTag(schema: Schema, i: nat, s: seq<byte>, depth: nat, m: Message, beyond: bool, last: bool)
    requires ValidSchema(schema) && Shaped(schema, m) && i < |schema.fields|
    ensures Ahead(schema, [FieldTag(schema, i)] + s, depth, m, beyond, last)
         == Pending(schema, i, s, depth, m, beyond)
  {
    hide ReadValue, LeftValue, Ahead;
    var t := [FieldTag(schema, i)] + s;
    ShortVarint(t);
    assert t[1..] == s;
    FieldOfTag(schema, i);
    Dispatched(schema, t, depth, m, beyond, last);
  }

  /** A field's own tag is within the cutoff. */
  lemma KnownBelowCutoff(schema: Schema, tag: nat)
    requires ValidSchema(schema)
    ensures FieldOf(schema, tag).Some? ==> 0 < tag <= 127
  {
  }

  lemma FieldKind(schema: Schema, m: Message, i: nat)
    requires ValidSchema(schema) && Shaped(schema, m) && i < |schema.fields|
    ensures ValidKind(schema.fields[i].kind) && ShapedValue(schema.fields[i].kind, m.fields[i])
  {
  }

  /** The state of the input between two fields of a message. */
  ghost predicate Between(input: CodedInputStream, limit: nat, depth: nat)
    reads input
  {
    && input.Valid() && input.currentLimit == limit && !input.legitimateMessageEnd
    && input.recursionDepth <= RecursionLimit && input.Depth() == depth
  }

  /** The input is within the total limit of the stream, or no sub-message sets another limit in it. */
  ghost predicate Fits(schema: Schema, input: CodedInputStream) {
    Covered(schema, |input.buffer|)
  }

  /** The message is read from an input beyond the total limit. */
  ghost predicate Beyond(input: CodedInputStream)
    reads input
  {
    input.currentLimit > TotalBytesLimit
  }

  /** Reads the value of one field and stores it in the message. */
  method ReadFieldValue(schema: Schema, i: nat, m: Message, input: CodedInputStream) returns (ok: bool, m': Message)
    requires ValidSchema(schema) && Shaped(schema, m) && i < |schema.fields| && Fits(schema, input)
    requires input.recursionDepth <= RecursionLimit && Between(input, input.currentLimit, input.Depth())
    modifies input
    ensures ok == ReadValue(schema, i, old(input.Rest()), old(input.Depth()), m).Take?
    ensures m' == LeftValue(schema, i, old(input.Rest()), old(input.Depth()), m)
    ensures ok ==> Between(input, old(input.currentLimit), old(input.Depth()))
                   && ReadValue(schema, i, old(input.Rest()), old(input.Depth()), m) == Take(m', input.Rest())
                   && input.Left() <= old(input.Left())
    decreases input.Left(), 2
  {
    hide ValidSchema, ValidKind, Wire.ReadVarint32, ReadString, Messages.ReadMessage, Base, LeftMessage, LeftText;
    m' := m;
    FieldKind(schema, m, i);
    var kind := schema.fields[i].kind;
    match kind {
      case Int32Kind =>
        var n;
        ok, n := input.ReadVarint32();
        if ok {
          m' := With(schema, m, i, Number(ToInt32(n)));
        }
      case EnumKind(values, _) =>
        var n;
        ok, n := input.ReadVarint32();
        if ok {
          m' := StoreEnum(schema, m, i, ToInt32(n));
        }
      case BytesKind =>
        var data;
        ok, data := input.ReadBytes(TextOf(m.fields[i]));
        m' := With(schema, m, i, Text(data));
      case MessageKind(sub) =>
        var x;
        ok, x := ReadMessage(sub, Base(kind, m.fields[i]), input);
        m' := With(schema, m, i, Sub(x));
      case RepeatedKind(sub) =>
        var x;
        ok, x := ReadMessage(sub, Empty(sub), input);
        m' := With(schema, m, i, Many(m.fields[i].ms + [x]));
    }
  }

  /** WireFormatLite::ReadMessageNoVirtual. */
  method ReadMessage(schema: Schema, m: Message, input: CodedInputStream) returns (ok: bool, m': Message)
    requires ValidSchema(schema) && Shaped(schema, m) && |input.buffer| <= TotalBytesLimit
    requires input.recursionDepth <= RecursionLimit && Between(input, input.currentLimit, input.Depth())
    modifies input
    ensures ok == Messages.ReadMessage(schema, old(input.Rest()), old(input.Depth()), m).Take?
    ensures m' == LeftMessage(schema, old(input.Rest()), old(input.Depth()), m)
    ensures ok ==> Between(input, old(input.currentLimit), old(input.Depth()))
                   && Messages.ReadMessage(schema, old(input.Rest()), old(input.Depth()), m) == Take(m', input.Rest())
                   && input.Left() <= old(input.Left())
    decreases input.Left(), 1
  {
    hide Shaped, ValidSchema, ParseFields, Left, Wire.ReadVarint32;
    m' := m;
    var length;
    ok, length := input.ReadVarint32();
    if ok {
      ok := input.IncrementRecursionDepth();
      if ok {
        ghost var rest, start := input.Rest(), input.position;
        var limit := input.PushLimit(length);
        ghost var k := Clamp(length, |rest|);
        assert input.Rest() == rest[..k];
        ok, m' := MergePartialFromCodedStream(schema, m, input);
        if ok {
          ok := input.legitimateMessageEnd;
          if ok {
            input.PopLimit(limit);
            input.DecrementRecursionDepth();
            assert input.Rest() == rest[k..];
          }
        }
      }
    }
  }

  /** The next field that the generated code expects after field `i`. */
  method Predict(schema: Schema, i: nat, input: CodedInputStream) returns (next: Option<nat>, atEnd: bool)
    requires ValidSchema(schema) && i < |schema.fields| && input.Valid()
    modifies input`position, input`lastTag, input`legitimateMessageEnd
    ensures input.Valid() && input.Left() <= old(input.Left())
    ensures input.legitimateMessageEnd == (old(input.legitimateMessageEnd) || atEnd)
    ensures atEnd ==> next.None? && input.Rest() == old(input.Rest()) == []
    ensures atEnd ==> IsLastField(schema, Some(i))
    ensures next.Some? ==> next.value < |schema.fields|
                           && old(input.Rest()) == [FieldTag(schema, next.value)] + input.Rest()
                           && input.Left() < old(input.Left())
    ensures next.None? ==> input.Rest() == old(input.Rest())
    ensures next.None? && !atEnd && IsLastField(schema, Some(i)) ==> input.Rest() != []
  {
    atEnd := false;
    next := None;
    var found := false;
    if schema.fields[i].kind.RepeatedKind? {
      found := input.ExpectTag(FieldTag(schema, i));
      if found {
        next := Some(i);
      }
    }
    if !found {
      if i + 1 < |schema.fields| {
        found := input.ExpectTag(FieldTag(schema, i + 1));
        if found {
          next := Some(i + 1);
        }
      } else {
        atEnd := input.ExpectAtEnd();
      }
    }
  }

  /** Reads field `i` and then the fields that follow it as predicted; `stop` when the message ended. */
  method ReadPredicted(schema: Schema, i: nat, m: Message, input: CodedInputStream)
    returns (ok: bool, stop: bool, m': Message)
    requires ValidSchema(schema) && Shaped(schema, m) && i < |schema.fields| && Fits(schema, input)
    requires input.recursionDepth <= RecursionLimit && Between(input, input.currentLimit, input.Depth())
    modifies input
    ensures Shaped(schema, m')
    ensures !ok ==> Pending(schema, i, old(input.Rest()), old(input.Depth()), m, old(Beyond(input))) == (None, m')
    ensures ok && !stop ==>
              && Between(input, old(input.currentLimit), old(input.Depth())) && input.Left() <= old(input.Left())
              && Pending(schema, i, old(input.Rest()), old(input.Depth()), m, old(Beyond(input)))
                 == Ahead(schema, input.Rest(), input.Depth(), m', Beyond(input), false)
    ensures ok && stop ==>
              && Finished(input, old(input.currentLimit), old(input.Depth()))
              && Pending(schema, i, old(input.Rest()), old(input.Depth()), m, old(Beyond(input))) == (Some(m'), m')
    decreases input.Left(), 3
  {
    hide ReadValue, LeftValue, Ahead, Shaped, ValidSchema;
    ghost var depth, beyond := input.Depth(), Beyond(input);
    ghost var target := Pending(schema, i, input.Rest(), depth, m, beyond);
    var next: Option<nat> := Some(i);
    ok, stop, m' := true, false, m;
    while next.Some?
      invariant Shaped(schema, m')
      invariant next.Some? ==> ok && !stop && next.value < |schema.fields|
      invariant !stop && ok ==> Between(input, old(input.currentLimit), depth) && input.Left() <= old(input.Left())
      invariant ok && next.Some? ==> target == Pending(schema, next.value, input.Rest(), depth, m', beyond)
      invariant ok && next.None? && !stop ==> target == Ahead(schema, input.Rest(), depth, m', beyond, false)
      invariant ok && stop ==> Finished(input, old(input.currentLimit), depth) && target == (Some(m'), m')
      invariant !ok ==> target == (None, m')
      decreases next.Some?, if next.Some? then input.Left() else 0
    {
      var k := next.value;
      ok, m' := ReadFieldValue(schema, k, m', input);
      if !ok {
        return;
      }
      ghost var s := input.Rest();
      next, stop := Predict(schema, k, input);
      ghost var last := IsLastField(schema, Some(k));
      Dispatched(schema, s, depth, m', beyond, last);
      if next.Some? {
        PredictedTag(schema, next.value, input.Rest(), depth, m', beyond, last);
      } else if last && !stop {
        LastForgotten(schema, s, depth, m', beyond, last);
      }
    }
  }

  /** The input after a message that ended where its limit is. */
  ghost predicate Finished(input: CodedInputStream, limit: nat, depth: nat)
    reads input
  {
    && input.Valid() && input.currentLimit == limit && input.legitimateMessageEnd && input.Rest() == []
    && input.recursionDepth <= RecursionLimit && input.Depth() == depth
  }

  /** MergePartialFromCodedStream of a generated class: with an orderly end, it reads what the plain dispatch reads,
      and with any other it leaves what was stored before. */
  method MergePartialFromCodedStream(schema: Schema, m: Message, input: CodedInputStream)
    returns (ok: bool, m': Message)
    requires ValidSchema(schema) && Shaped(schema, m) && Fits(schema, input)
    requires input.recursionDepth <= RecursionLimit && Between(input, input.currentLimit, input.Depth())
    modifies input
    ensures (ok && input.legitimateMessageEnd)
         == ParseToEnd(schema, old(input.Rest()), old(input.Depth()), m, old(Beyond(input)), false).Some?
    ensures m' == Left(schema, old(input.Rest()), old(input.Depth()), m)
    ensures ok && input.legitimateMessageEnd ==>
              && Finished(input, old(input.currentLimit), old(input.Depth()))
              && ParseFields(schema, old(input.Rest()), old(input.Depth()), m) == Some(m')
    decreases input.Left(), 4
  {
    hide ReadField, LeftIn, ParseFields, Left, Shaped, ValidSchema, Pending, EndsBehindLast;
    ghost var s, depth, beyond := input.Rest(), input.Depth(), Beyond(input);
    ghost var target := Ahead(schema, s, depth, m, beyond, false);
    hide Ahead;
    ok, m' := true, m;
    var reading := true;
    while reading
      invariant input.Valid() && Shaped(schema, m') && ok
      invariant reading ==> input.Left() <= old(input.Left())
      invariant reading ==> Between(input, old(input.currentLimit), depth)
                            && target == Ahead(schema, input.Rest(), depth, m', beyond, false)
      invariant !reading ==>
                  (if input.legitimateMessageEnd
                   then Finished(input, old(input.currentLimit), depth) && target == (Some(m'), m')
                   else target == (None, m'))
      decreases reading, input.Left()
    {
      Dispatched(schema, input.Rest(), depth, m', beyond, false);
      var tag, below := input.ReadTagWithCutoff();
      KnownBelowCutoff(schema, tag);
      if below && FieldOf(schema, tag).Some? {
        ShowField(schema, tag, input.Rest(), depth, m', beyond);
        var stop;
        ok, stop, m' := ReadPredicted(schema, FieldOf(schema, tag).value, m', input);
        if !ok {
          return;
        }
        reading := !stop;
      } else if StopTag(tag) {
        reading := false;
      } else {
        ShowField(schema, tag, input.Rest(), depth, m', beyond);
        var stored;
        ok, stored := Reading.SkipField(input, tag);
        m' := WithAll(schema, m', stored);
        if !ok {
          return;
        }
      }
    }
  }

  /** A known field is read as pending, any other is skipped into the unknown fields. */
  lemma ShowField(schema: Schema, tag: nat, s: seq<byte>, depth: nat, m: Message, beyond: bool)
    requires ValidSchema(schema) && Shaped(schema, m) && 0 < tag < Two32
    ensures var r := ReadField(schema, tag, s, depth, m);
            var f := FieldOf(schema, tag);
            if f.Some? then
              Pending(schema, f.value, s, depth, m, beyond)
              == if r.Fail? then (None, LeftIn(schema, tag, s, depth, m))
                 else Ahead(schema, r.rest, depth, r.value, beyond, IsLastField(schema, f))
            else
              var left := WithAll(schema, m, LeftField(tag, s, depth));
              var u := Wire.SkipField(tag, s, depth);
              && LeftIn(schema, tag, s, depth, m) == left
              && (if u.Fail? then r.Fail? else r == Take(left, u.rest))
  {
    hide ReadValue, LeftValue, Ahead, LeftField, Wire.SkipField;
    if FieldOf(schema, tag).None? && Wire.SkipField(tag, s, depth).Take? {
      LeftFieldComplete(tag, s, depth);
    }
  }

  /** MessageLite::ParseFromArray, into a message that is clear. */
  method ParseFromArray(schema: Schema, data: seq<byte>) returns (ok: bool, m: Message)
    requires ValidSchema(schema) && Covered(schema, |data|)
    ensures ok == Parse(schema, data).Some?
    ensures ok ==> Parse(schema, data) == Some(m)
    ensures m == Left(schema, data, RecursionLimit, Empty(schema))
  {
    hide Shaped, ValidSchema, ParseFields, Left, Initialized;
    var input := new CodedInputStream(data);
    ok, m := MergePartialFromCodedStream(schema, Empty(schema), input);
    ok := ok && input.legitimateMessageEnd;
    if ok {
      ok := Initialized(schema, m);
    }
  }
}
