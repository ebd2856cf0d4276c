/** What a parse leaves behind, whether it succeeds or fails: everything that was stored before it stopped. */
module Leftovers {
  import opened Wrappers
  import opened Wire
  import opened Messages

  // ---------- unknown fields ----------

  /** The bytes that a string holds after an attempt to read `length` bytes into it. */
  function LeftString(length: nat, s: seq<byte>, before: seq<byte>): seq<byte> {
    if length >= Two31 then before else if |s| < length then s else s[..length]
  }

  /** What SkipField has stored when it ends: nothing, or one field, perhaps in part. */
  function LeftField(tag: nat, s: seq<byte>, depth: nat): seq<UnknownField>
    requires tag < Two32
    decreases |s|, 1
  {
    var number, wireType := tag / 8, tag % 8;
    if wireType == LengthDelimitedType then
      match ReadVarint32(s)
      case Fail => []
      case Take(length, rest) => [UBytes(number, LeftString(length, rest, []))]
    else if wireType == StartGroupType then
      if depth == 0 then [] else [UGroup(number, LeftGroup(s, depth - 1))]
    else
      match SkipField(tag, s, depth)
      case Fail => []
      case Take(u, _) => [u]
  }

  /** What SkipMessage has stored when it ends, at whatever end. */
  function LeftGroup(s: seq<byte>, depth: nat): seq<UnknownField>
    decreases |s|, 0
  {
    match ReadVarint32(s)
    case Fail => []
    case Take(tag, rest) =>
      if StopTag(tag) then []
      else
        LeftField(tag, rest, depth)
        + match SkipField(tag, rest, depth)
          case Fail => []
          case Take(_, rest') => LeftGroup(rest', depth)
  }

  lemma {:induction false} LeftFieldComplete(tag: nat, s: seq<byte>, depth: nat)
    requires tag < Two32 && SkipField(tag, s, depth).Take?
    ensures LeftField(tag, s, depth) == [SkipField(tag, s, depth).value]
    decreases |s|, 1
  {
    if tag % 8 == StartGroupType {
      LeftGroupComplete(s, depth - 1, tag / 8);
    }
  }

  lemma {:induction false} LeftGroupComplete(s: seq<byte>, depth: nat, number: nat)
    requires SkipGroup(s, depth, number).Take?
    ensures LeftGroup(s, depth) == SkipGroup(s, depth, number).value
    decreases |s|, 0
  {
    var tag, rest := ReadVarint32(s).value, ReadVarint32(s).rest;
    if !StopTag(tag) {
      LeftFieldComplete(tag, rest, depth);
      LeftGroupComplete(SkipField(tag, rest, depth).rest, depth, number);
    }
  }

  // ---------- messages ----------

  /** The string that reading a byte field starts from. */
  function TextOf(v: Value): seq<byte> {
    if v.Text? then v.data else []
  }

  function LeftText(s: seq<byte>, before: seq<byte>): seq<byte> {
    match ReadVarint32(s)
    case Fail => before
    case Take(length, rest) => LeftString(length, rest, before)
  }

  /** The message after a parse into `m`: all that was stored before the end or the failure. */
  function Left(schema: Schema, s: seq<byte>, depth: nat, m: Message): (r: Message)
    requires ValidSchema(schema) && Shaped(schema, m)
    ensures Shaped(schema, r)
    decreases |s|, 3
  {
    if s == [] then m
    else
      match ReadVarint32(s)
      case Fail => m
      case Take(tag, rest) =>
        if StopTag(tag) then m
        else
          var m' := LeftIn(schema, tag, rest, depth, m);
          match ReadField(schema, tag, rest, depth, m)
          case Fail => m'
          case Take(_, rest') => Left(schema, rest', depth, m')
  }

  function LeftIn(schema: Schema, tag: nat, s: seq<byte>, depth: nat, m: Message): (r: Message)
    requires ValidSchema(schema) && Shaped(schema, m) && tag < Two32
    ensures Shaped(schema, r)
    decreases |s|, 2
  {
    match FieldOf(schema, tag)
    case Some(i) => LeftValue(schema, i, s, depth, m)
    case None => WithAll(schema, m, LeftField(tag, s, depth))
  }

  function WithAll(schema: Schema, m: Message, us: seq<UnknownField>): (r: Message)
    requires Shaped(schema, m)
    ensures Shaped(schema, r)
  {
    m.(unknown := m.unknown + us)
  }

  /** A field is present as soon as its value starts to be read, unless it is a number. */
  function LeftValue(schema: Schema, i: nat, s: seq<byte>, depth: nat, m: Message): (r: Message)
    requires ValidSchema(schema) && Shaped(schema, m) && i < |schema.fields|
    ensures Shaped(schema, r)
    decreases |s|, 1
  {
    var kind, v := schema.fields[i].kind, m.fields[i];
    assert ValidKind(kind) by { assert schema.fields[i] in schema.fields; }
    assert ShapedValue(kind, v);
    match kind
    case Int32Kind =>
      (match ReadVarint32(s)
       case Fail => m
       case Take(n, _) => With(schema, m, i, Number(ToInt32(n))))
    case EnumKind(_, _) =>
      (match ReadVarint32(s)
       case Fail => m
       case Take(n, _) => StoreEnum(schema, m, i, ToInt32(n)))
    case BytesKind => With(schema, m, i, Text(LeftText(s, TextOf(v))))
    case MessageKind(sub) => With(schema, m, i, Sub(LeftMessage(sub, s, depth, Base(kind, v))))
    case RepeatedKind(sub) => With(schema, m, i, Many(v.ms + [LeftMessage(sub, s, depth, Empty(sub))]))
  }

  function LeftMessage(schema: Schema, s: seq<byte>, depth: nat, m: Message): (r: Message)
    requires ValidSchema(schema) && Shaped(schema, m)
    ensures Shaped(schema, r)
    decreases |s|, 0
  {
    match ReadVarint32(s)
    case Fail => m
    case Take(length, rest) =>
      if depth == 0 then m else Left(schema, rest[..Clamp(length, |rest|)], depth - 1, m)
  }

  /** A parse that succeeds leaves its result. */
  lemma {:induction false} LeftComplete(schema: Schema, s: seq<byte>, depth: nat, m: Message)
    requires ValidSchema(schema) && Shaped(schema, m) && ParseFields(schema, s, depth, m).Some?
    ensures Left(schema, s, depth, m) == ParseFields(schema, s, depth, m).value
    decreases |s|, 3
  {
    hide ReadField, LeftIn, Shaped, ValidSchema;
    if s != [] {
      var tag, rest := ReadVarint32(s).value, ReadVarint32(s).rest;
      LeftInComplete(schema, tag, rest, depth, m);
      var r := ReadField(schema, tag, rest, depth, m);
      LeftComplete(schema, r.rest, depth, r.value);
    }
  }

  lemma {:induction false} LeftInComplete(schema: Schema, tag: nat, s: seq<byte>, depth: nat, m: Message)
    requires ValidSchema(schema) && Shaped(schema, m) && tag < Two32 && ReadField(schema, tag, s, depth, m).Take?
    ensures LeftIn(schema, tag, s, depth, m) == ReadField(schema, tag, s, depth, m).value
    decreases |s|, 2
  {
    hide ReadValue, LeftValue, SkipField, LeftField, Shaped, ValidSchema;
    match FieldOf(schema, tag) {
      case Some(i) => LeftValueComplete(schema, i, s, depth, m);
      case None => LeftFieldComplete(tag, s, depth);
    }
  }

  lemma {:induction false} LeftValueComplete(schema: Schema, i: nat, s: seq<byte>, depth: nat, m: Message)
    requires ValidSchema(schema) && Shaped(schema, m) && i < |schema.fields|
    requires ReadValue(schema, i, s, depth, m).Take?
    ensures LeftValue(schema, i, s, depth, m) == ReadValue(schema, i, s, depth, m).value
    decreases |s|, 1
  {
    hide ReadMessage, LeftMessage, Base;
    var kind := schema.fields[i].kind;
    assert schema.fields[i] in schema.fields && ValidKind(kind) && ShapedValue(kind, m.fields[i]);
    match kind {
      case MessageKind(sub) => LeftMessageComplete(sub, s, depth, Base(kind, m.fields[i]));
      case RepeatedKind(sub) => LeftMessageComplete(sub, s, depth, Empty(sub));
      case _ =>
    }
  }

  lemma {:induction false} LeftMessageComplete(schema: Schema, s: seq<byte>, depth: nat, m: Message)
    requires ValidSchema(schema) && Shaped(schema, m) && ReadMessage(schema, s, depth, m).Take?
    ensures LeftMessage(schema, s, depth, m) == ReadMessage(schema, s, depth, m).value
    decreases |s|, 0
  {
    hide ParseFields, Left;
    var length, rest := ReadVarint32(s).value, ReadVarint32(s).rest;
    LeftComplete(schema, rest[..Clamp(length, |rest|)], depth - 1, m);
  }
}
