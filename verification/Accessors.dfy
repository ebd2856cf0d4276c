/** The calls on objects of generated classes: accessors, Clear, MergeFrom, CopyFrom and parsing. */
module Accessors {
  import opened Wrappers
  import opened Wire
  import opened Messages
  import opened Merging
  import opened Leftovers
  import opened Objects

  /** A call on an object from outside. */
  datatype Access =
    | NumberSet(i: nat, n: int32)
    | TextSet(i: nat, data: seq<byte>)
    | TextChanged(i: nat, data: seq<byte>)
    | TextReleased(i: nat)
    | TextTaken(i: nat, text: Option<seq<byte>>)
    | FieldCleared(i: nat)
    | MessageChanged(i: nat, o: Object)
    | MessageReleased(i: nat)
    | MessageTaken(i: nat, pointer: Option<Object>)
    | ItemAdded(i: nat, o: Object)
    | ItemChanged(i: nat, index: nat, o: Object)
    | UnknownAdded(u: UnknownField)
    | AllCleared
    | MergedFrom(o: Object)
    | CopiedFrom(o: Object)
    | Parsed(data: seq<byte>)

  /** The calls that the class has: the right kind of field, and arguments that are themselves in order. An index
      into a list is checked when the call is made. */
  ghost predicate Allowed(schema: Schema, a: Access) {
    match a
    case NumberSet(i, n) =>
      HasField(schema, i) && var kind := schema.fields[i].kind;
      kind.Int32Kind? || (kind.EnumKind? && n in kind.values)
    case TextSet(i, _) => HasField(schema, i) && schema.fields[i].kind.BytesKind?
    case TextChanged(i, _) => HasField(schema, i) && schema.fields[i].kind.BytesKind?
    case TextReleased(i) => HasField(schema, i) && schema.fields[i].kind.BytesKind?
    case TextTaken(i, _) => HasField(schema, i) && schema.fields[i].kind.BytesKind?
    case FieldCleared(i) => HasField(schema, i)
    case MessageChanged(i, o) => HasMessage(schema, i) && Sound(schema.fields[i].kind.schema, o)
    case MessageReleased(i) => HasMessage(schema, i)
    case MessageTaken(i, p) => HasMessage(schema, i) && (p.Some? ==> Sound(schema.fields[i].kind.schema, p.value))
    case ItemAdded(i, o) => HasList(schema, i) && Sound(schema.fields[i].kind.schema, o)
    case ItemChanged(i, _, o) => HasList(schema, i) && Sound(schema.fields[i].kind.schema, o)
    case UnknownAdded(_) => true
    case AllCleared => true
    case MergedFrom(o) => Sound(schema, o)
    case CopiedFrom(o) => Sound(schema, o)
    case Parsed(data) => |data| <= TotalBytesLimit
  }

  predicate HasField(schema: Schema, i: nat) {
    i < |schema.fields|
  }

  predicate HasMessage(schema: Schema, i: nat) {
    HasField(schema, i) && schema.fields[i].kind.MessageKind?
  }

  predicate HasList(schema: Schema, i: nat) {
    HasField(schema, i) && schema.fields[i].kind.RepeatedKind?
  }

  ghost predicate Sound(schema: Schema, o: Object) {
    Fits(schema, o) && Clean(schema, o)
  }

  // ---------- what the calls do to the message ----------

  lemma FieldValid(schema: Schema, m: Message, i: nat)
    requires ValidSchema(schema) && Shaped(schema, m) && i < |schema.fields|
    ensures ValidKind(schema.fields[i].kind) && ShapedValue(schema.fields[i].kind, m.fields[i])
  {
    assert schema.fields[i] in schema.fields;
  }

  ghost function WithList(schema: Schema, m: Message, i: nat, ms: seq<Message>): (r: Message)
    requires Shaped(schema, m) && HasList(schema, i)
    requires forall x :: x in ms ==> Shaped(schema.fields[i].kind.schema, x)
    ensures Shaped(schema, r)
  {
    With(schema, m, i, Many(ms))
  }

  /** What a call makes of the message that the object stands for. */
  ghost function After(schema: Schema, m: Message, a: Access): (r: Message)
    requires ValidSchema(schema) && Shaped(schema, m) && Allowed(schema, a)
    ensures Shaped(schema, r)
  {
    match a
    case NumberSet(i, n) => With(schema, m, i, Number(n))
    case TextSet(i, data) => With(schema, m, i, Text(data))
    case TextChanged(i, data) => With(schema, m, i, Text(data))
    case TextReleased(i) => With(schema, m, i, Absent)
    case TextTaken(i, text) => With(schema, m, i, if text.Some? then Text(text.value) else Absent)
    case FieldCleared(i) => With(schema, m, i, EmptyValue(schema.fields[i].kind))
    case MessageChanged(i, o) =>
      FieldValid(schema, m, i);
      With(schema, m, i, Sub(View(schema.fields[i].kind.schema, o)))
    case MessageReleased(i) => With(schema, m, i, Absent)
    case MessageTaken(i, p) =>
      FieldValid(schema, m, i);
      With(schema, m, i, if p.Some? then Sub(View(schema.fields[i].kind.schema, p.value)) else Absent)
    case ItemAdded(i, o) =>
      FieldValid(schema, m, i);
      WithList(schema, m, i, m.fields[i].ms + [View(schema.fields[i].kind.schema, o)])
    case ItemChanged(i, index, o) =>
      FieldValid(schema, m, i);
      if index < |m.fields[i].ms|
      then WithList(schema, m, i, m.fields[i].ms[index := View(schema.fields[i].kind.schema, o)]) else m
    case UnknownAdded(u) => WithUnknown(schema, m, u)
    case AllCleared => Empty(schema)
    case MergedFrom(o) => Merge(schema, m, View(schema, o))
    case CopiedFrom(o) => View(schema, o)
    case Parsed(data) => Left(schema, data, RecursionLimit, m)
  }

  ghost function AfterAll(schema: Schema, m: Message, accesses: seq<Access>): (r: Message)
    requires ValidSchema(schema) && Shaped(schema, m) && forall a :: a in accesses ==> Allowed(schema, a)
    ensures Shaped(schema, r)
  {
    if accesses == [] then m
    else
      var n := |accesses| - 1;
      assert accesses[n] in accesses && forall a :: a in accesses[..n] ==> a in accesses;
      After(schema, AfterAll(schema, m, accesses[..n]), accesses[n])
  }

  lemma AfterNext(schema: Schema, m: Message, accesses: seq<Access>, k: nat)
    requires ValidSchema(schema) && Shaped(schema, m) && k < |accesses|
    requires forall a :: a in accesses ==> Allowed(schema, a)
    ensures (forall a :: a in accesses[..k] ==> Allowed(schema, a))
            && (forall a :: a in accesses[..k + 1] ==> Allowed(schema, a)) && Allowed(schema, accesses[k])
    ensures AfterAll(schema, m, accesses[..k + 1]) == After(schema, AfterAll(schema, m, accesses[..k]), accesses[k])
  {
    hide After, Allowed;
    forall a | a in accesses[..k] || a in accesses[..k + 1] || a == accesses[k] ensures Allowed(schema, a) {
      assert a in accesses;
    }
    assert accesses[..k + 1][..k] == accesses[..k];
  }

  /** An object of a generated class, with sub-objects that it alone owns. */
  class MessageObject {
    const schema: Schema
    var has: seq<bool>
    var slots: seq<Slot>
    var unknown: seq<UnknownField>

    constructor (schema: Schema)
      requires ValidSchema(schema)
      ensures Valid() && this.schema == schema && Value() == Empty(schema)
    {
      var o := Fresh(schema);
      this.schema := schema;
      has := o.has;
      slots := o.slots;
      unknown := [];
      FreshIsBlank(schema);
      BlankView(schema, o);
    }

    function State(): Object
      reads this
    {
      Object(has, slots, unknown)
    }

    ghost predicate Valid()
      reads this
    {
      ValidSchema(schema) && Fits(schema, State()) && Clean(schema, State())
    }

    ghost function Value(): Message
      reads this
      requires Valid()
    {
      View(schema, State())
    }

    function KindAt(i: nat): Kind
      requires i < |schema.fields|
    {
      schema.fields[i].kind
    }

    // The getters fall back to the default of the field.

    method GetNumber(i: nat) returns (n: int32)
      requires Valid() && i < |schema.fields| && (KindAt(i).Int32Kind? || KindAt(i).EnumKind?)
      ensures n == if Value().fields[i].Number? then Value().fields[i].n else DefaultNumber(KindAt(i))
    {
      FieldAt(schema, State(), i);
      n := slots[i].n;
    }

    method GetText(i: nat) returns (data: seq<byte>)
      requires Valid() && i < |schema.fields| && KindAt(i).BytesKind?
      ensures data == if Value().fields[i].Text? then Value().fields[i].data else []
    {
      FieldAt(schema, State(), i);
      data := slots[i].data.GetOr([]);
    }

    /** The sub-message, or the empty default instance when there is none. */
    method GetMessage(i: nat) returns (o: Object)
      requires Valid() && i < |schema.fields| && KindAt(i).MessageKind?
      ensures ValidKind(KindAt(i)) && Fits(KindAt(i).schema, o) && Clean(KindAt(i).schema, o)
      ensures View(KindAt(i).schema, o)
           == if Value().fields[i].Sub? then Value().fields[i].m else Empty(KindAt(i).schema)
    {
      FieldAt(schema, State(), i);
      var sub := KindAt(i).schema;
      FreshIsBlank(sub);
      BlankView(sub, Fresh(sub));
      o := Target(KindAt(i), slots[i]);
      if !has[i] {
        BlankView(sub, o);
      }
    }

    /** Stores in one field, with its has-bit. */
    method Store(i: nat, bit: bool, slot: Slot)
      requires Valid() && i < |schema.fields| && FitsSlot(KindAt(i), slot) && CleanSlot(KindAt(i), bit, slot)
      modifies this
      ensures Valid() && ValidKind(KindAt(i))
      ensures Value() == With(schema, old(Value()), i, ViewSlot(KindAt(i), bit, slot))
      ensures State() == Object(old(has)[i := bit], old(slots)[i := slot], old(unknown))
    {
      hide FitsSlot, CleanSlot, ViewSlot, View, Clean, Fits;
      StoredView(schema, State(), i, bit, slot);
      FieldAt(schema, State(), i);
      has := has[i := bit];
      slots := slots[i := slot];
    }

    method SetNumber(i: nat, n: int32)
      requires Valid() && i < |schema.fields|
      requires KindAt(i).Int32Kind? || (KindAt(i).EnumKind? && n in KindAt(i).values)
      modifies this
      ensures Valid() && Value() == With(schema, old(Value()), i, Number(n))
    {
      Store(i, true, Scalar(n));
    }

    method SetText(i: nat, data: seq<byte>)
      requires Valid() && i < |schema.fields| && KindAt(i).BytesKind?
      modifies this
      ensures Valid() && Value() == With(schema, old(Value()), i, Text(data))
    {
      Store(i, true, Str(Some(data)));
    }

    /** mutable_ on a string: the has-bit is set, and the string is no longer the shared empty one. */
    method MutableText(i: nat) returns (data: seq<byte>)
      requires Valid() && i < |schema.fields| && KindAt(i).BytesKind?
      modifies this
      ensures Valid() && data == if old(Value()).fields[i].Text? then old(Value()).fields[i].data else []
      ensures Value() == With(schema, old(Value()), i, Text(data)) && slots[i] == Str(Some(data))
    {
      FieldAt(schema, State(), i);
      data := slots[i].data.GetOr([]);
      Store(i, true, Str(Some(data)));
    }

    /** What the caller then does through that pointer. */
    method ChangeText(i: nat, data: seq<byte>)
      requires Valid() && i < |schema.fields| && KindAt(i).BytesKind? && Value().fields[i].Text?
      modifies this
      ensures Valid() && Value() == With(schema, old(Value()), i, Text(data))
    {
      Store(i, true, Str(Some(data)));
    }

    /** release_ on a string: gives it away, NULL for the shared empty one. */
    method ReleaseText(i: nat) returns (text: Option<seq<byte>>)
      requires Valid() && i < |schema.fields| && KindAt(i).BytesKind?
      modifies this
      ensures Valid() && Value() == With(schema, old(Value()), i, Absent) && old(slots)[i] == Str(text)
      ensures old(Value()).fields[i].Text? ==> text == Some(old(Value()).fields[i].data)
    {
      FieldAt(schema, State(), i);
      text := slots[i].data;
      Store(i, false, Str(None));
    }

    /** set_allocated_ on a string: takes it over; NULL clears the field. */
    method SetAllocatedText(i: nat, text: Option<seq<byte>>)
      requires Valid() && i < |schema.fields| && KindAt(i).BytesKind?
      modifies this
      ensures Valid() && Value() == With(schema, old(Value()), i, if text.Some? then Text(text.value) else Absent)
    {
      Store(i, text.Some?, Str(text));
    }

    /** clear_: strings, sub-messages and elements of lists are cleared and kept. */
    method ClearField(i: nat)
      requires Valid() && i < |schema.fields|
      modifies this
      ensures Valid() && ShapedValue(KindAt(i), EmptyValue(KindAt(i)))
      ensures Value() == With(schema, old(Value()), i, EmptyValue(KindAt(i)))
    {
      hide View, Clean, Fits, Cleared, Blank;
      FieldAt(schema, State(), i);
      var slot := slots[i];
      match slot {
        case Scalar(_) => slot := DefaultSlot(KindAt(i));
        case Str(data) => slot := Str(if data.Some? then Some([]) else None);
        case Pointer(t) =>
          if t.Some? {
            ClearedIsBlank(KindAt(i).schema, t.value);
            slot := Pointer(Some(Cleared(KindAt(i).schema, t.value)));
          }
        case Items(os, spare) =>
          ClearedAllBlank(KindAt(i).schema, os);
          slot := Items([], ClearedAll(KindAt(i).schema, os) + spare);
      }
      Store(i, false, slot);
    }

    /** mutable_: sets the has-bit and creates the sub-object when there is none. */
    method MutableMessage(i: nat) returns (o: Object)
      requires Valid() && i < |schema.fields| && KindAt(i).MessageKind?
      modifies this
      ensures Valid() && has[i] && slots[i] == Pointer(Some(o)) && ValidKind(KindAt(i)) && Fits(KindAt(i).schema, o)
      ensures View(KindAt(i).schema, o)
           == if old(Value()).fields[i].Sub? then old(Value()).fields[i].m else Empty(KindAt(i).schema)
      ensures Value() == With(schema, old(Value()), i, Sub(View(KindAt(i).schema, o)))
    {
      hide View, Clean, Fits, Blank;
      FieldAt(schema, State(), i);
      var sub := KindAt(i).schema;
      FreshIsBlank(sub);
      BlankView(sub, Fresh(sub));
      o := Target(KindAt(i), slots[i]);
      if !has[i] {
        BlankView(sub, o);
      }
      Store(i, true, Pointer(Some(o)));
    }

    /** What the caller then does through that pointer: the sub-object becomes any other clean one. */
    method ChangeMessage(i: nat, o: Object)
      requires Valid() && i < |schema.fields| && KindAt(i).MessageKind? && Value().fields[i].Sub?
      requires Fits(KindAt(i).schema, o) && Clean(KindAt(i).schema, o)
      modifies this
      ensures Valid() && ValidKind(KindAt(i))
      ensures Value() == With(schema, old(Value()), i, Sub(View(KindAt(i).schema, o)))
    {
      Store(i, true, Pointer(Some(o)));
    }

    /** release_: gives the sub-object away. */
    method ReleaseMessage(i: nat) returns (o: Option<Object>)
      requires Valid() && i < |schema.fields| && KindAt(i).MessageKind?
      modifies this
      ensures Valid() && Value() == With(schema, old(Value()), i, Absent)
      ensures old(slots)[i] == Pointer(o)
    {
      FieldAt(schema, State(), i);
      o := slots[i].target;
      Store(i, false, Pointer(None));
    }

    /** set_allocated_: takes an object over; NULL clears the field. */
    method SetAllocatedMessage(i: nat, o: Option<Object>)
      requires Valid() && i < |schema.fields| && KindAt(i).MessageKind?
      requires o.Some? ==> Fits(KindAt(i).schema, o.value) && Clean(KindAt(i).schema, o.value)
      modifies this
      ensures Valid() && ValidKind(KindAt(i))
      ensures Value() == With(schema, old(Value()), i,
                              if o.Some? then Sub(View(KindAt(i).schema, o.value)) else Absent)
    {
      Store(i, o.Some?, Pointer(o));
    }

    /** add_: the list gets an empty element, a spare one if there is any. */
    method AddItem(i: nat) returns (o: Object)
      requires Valid() && i < |schema.fields| && KindAt(i).RepeatedKind?
      modifies this
      ensures Valid() && ValidKind(KindAt(i)) && Fits(KindAt(i).schema, o) && old(Value()).fields[i].Many?
      ensures View(KindAt(i).schema, o) == Empty(KindAt(i).schema)
      ensures old(slots)[i].Items? && slots[i].Items? && slots[i].objects == old(slots)[i].objects + [o]
      ensures old(slots)[i].spare != [] ==> o == old(slots)[i].spare[0]
      ensures Value() == With(schema, old(Value()), i, Many(old(Value()).fields[i].ms + [Empty(KindAt(i).schema)]))
    {
      hide View, Clean, Fits, Blank;
      FieldAt(schema, State(), i);
      NextItemView(KindAt(i), slots[i]);
      o := NextItem(KindAt(i), slots[i]);
      WithItemView(KindAt(i), slots[i], o);
      Store(i, false, WithItem(KindAt(i), slots[i], o));
    }

    /** What the caller does through a pointer to an element, from add_ or mutable_. */
    method ChangeItem(i: nat, index: nat, o: Object)
      requires Valid() && i < |schema.fields| && KindAt(i).RepeatedKind?
      requires slots[i].Items? && index < |slots[i].objects|
      requires Fits(KindAt(i).schema, o) && Clean(KindAt(i).schema, o)
      modifies this
      ensures Valid() && ValidKind(KindAt(i)) && old(Value()).fields[i].Many? && index < |old(Value()).fields[i].ms|
      ensures Value() == With(schema, old(Value()), i,
                              Many(old(Value()).fields[i].ms[index := View(KindAt(i).schema, o)]))
    {
      hide View, Clean, Fits, Blank;
      FieldAt(schema, State(), i);
      ViewAllUpdate(KindAt(i).schema, slots[i].objects, index, o);
      Store(i, false, Items(slots[i].objects[index := o], slots[i].spare));
    }

    /** add_ and what the caller then does through the pointer to the new element. */
    method AppendItem(i: nat, o: Object)
      requires Valid() && i < |schema.fields| && KindAt(i).RepeatedKind?
      requires Fits(KindAt(i).schema, o) && Clean(KindAt(i).schema, o)
      modifies this
      ensures Valid() && ValidKind(KindAt(i)) && old(Value()).fields[i].Many?
      ensures Value() == With(schema, old(Value()), i, Many(old(Value()).fields[i].ms + [View(KindAt(i).schema, o)]))
    {
      hide View, Clean, Fits, Blank;
      FieldAt(schema, State(), i);
      ghost var ms, e, x := Value().fields[i].ms, Empty(KindAt(i).schema), View(KindAt(i).schema, o);
      var _ := AddItem(i);
      FieldAt(schema, State(), i);
      ChangeItem(i, |slots[i].objects| - 1, o);
      assert (ms + [e])[|ms| := x] == ms + [x];
    }

    method AddUnknown(u: UnknownField)
      requires Valid()
      modifies this
      ensures Valid() && Value() == WithUnknown(schema, old(Value()), u)
    {
      UnknownFieldsView(schema, State(), [u]);
      unknown := unknown + [u];
    }

    method Clear()
      requires Valid()
      modifies this
      ensures Valid() && State() == Cleared(schema, old(State())) && Value() == Empty(schema)
    {
      hide View, Clean, Blank, Guarded;
      ghost var o := State();
      ClearedIsBlank(schema, o);
      BlankView(schema, Cleared(schema, o));
      var open := !Guarded(schema) || AnyHas(State());
      var i := 0;
      while i < |slots|
        invariant 0 <= i <= |slots| == |schema.fields| && has == old(has) && unknown == old(unknown)
        invariant forall k :: 0 <= k < i ==> slots[k] == Cleared(schema, o).slots[k]
        invariant forall k :: i <= k < |slots| ==> slots[k] == o.slots[k]
      {
        FieldAt(schema, o, i);
        slots := slots[i := ClearedSlot(KindAt(i), has[i], slots[i], open)];
        i := i + 1;
      }
      has := seq(|has|, _ => false);
      unknown := [];
      assert slots == Cleared(schema, o).slots;
    }

    method MergeFrom(from: Object)
      requires Valid() && Fits(schema, from) && Clean(schema, from)
      modifies this
      ensures Valid() && State() == Merged(schema, old(State()), from)
      ensures Value() == Merge(schema, old(Value()), View(schema, from))
    {
      hide View, Clean;
      ghost var o := State();
      MergedView(schema, o, from);
      var i := 0;
      while i < |slots|
        invariant 0 <= i <= |slots| == |has| == |schema.fields| && unknown == old(unknown)
        invariant forall k :: 0 <= k < i ==> slots[k] == Merged(schema, o, from).slots[k]
        invariant forall k :: 0 <= k < i ==> has[k] == Merged(schema, o, from).has[k]
        invariant forall k :: i <= k < |slots| ==> slots[k] == o.slots[k] && has[k] == o.has[k]
      {
        FieldAt(schema, o, i);
        FieldAt(schema, from, i);
        slots := slots[i := MergedSlot(KindAt(i), slots[i], from.has[i], from.slots[i])];
        has := has[i := has[i] || from.has[i]];
        i := i + 1;
      }
      unknown := unknown + from.unknown;
      assert slots == Merged(schema, o, from).slots && has == Merged(schema, o, from).has;
    }

    method CopyFrom(from: Object)
      requires Valid() && Fits(schema, from) && Clean(schema, from)
      modifies this
      ensures Valid() && Value() == View(schema, from)
    {
      hide View, Clean, Fits, Merge, Merged, Cleared;
      Clear();
      MergeFrom(from);
      MergeFromEmpty(schema, View(schema, from));
    }

    /** Parses data into the object. What was stored before a failure stays. */
    method MergePartial(data: seq<byte>) returns (ok: bool)
      requires Valid() && |data| <= TotalBytesLimit
      modifies this
      ensures Valid() && ok == ParseFields(schema, data, RecursionLimit, old(Value())).Some?
      ensures Value() == Left(schema, data, RecursionLimit, old(Value()))
      ensures ok ==> Value() == ParseFields(schema, data, RecursionLimit, old(Value())).value
    {
      hide ParseObject, ParseFields, Left, View, Clean, Fits;
      ParseObjectView(schema, data, RecursionLimit, State());
      if ParseFields(schema, data, RecursionLimit, Value()).Some? {
        LeftComplete(schema, data, RecursionLimit, Value());
      }
      var r := ParseObject(schema, data, RecursionLimit, State());
      ok := r.ok;
      has, slots, unknown := r.o.has, r.o.slots, r.o.unknown;
    }

    /** Whatever is done to an object, it stands for the message that the same calls make, a field whose has-bit is
        clear holds its default, and Clear then resets it. */
    method Perform(accesses: seq<Access>)
      requires Valid() && forall a :: a in accesses ==> Allowed(schema, a)
      modifies this
      ensures Valid() && Value() == AfterAll(schema, old(Value()), accesses)
      ensures View(schema, Cleared(schema, State())) == Empty(schema)
    {
      ValueShaped();
      hide Valid, Allowed, Cleared, View, Value, After, AfterAll, Shaped, ValidSchema;
      ghost var start := Value();
      NothingDone(schema, start, accesses);
      var k := 0;
      while k < |accesses|
        invariant 0 <= k <= |accesses| && Valid()
        invariant forall a :: a in accesses[..k] ==> Allowed(schema, a)
        invariant Value() == AfterAll(schema, start, accesses[..k])
      {
        AfterNext(schema, start, accesses, k);
        PerformOne(accesses[k]);
        k := k + 1;
      }
      assert accesses[..k] == accesses;
      ClearedView();
    }

    lemma ValueShaped()
      requires Valid()
      ensures ValidSchema(schema) && Shaped(schema, Value())
    {
    }

    lemma NothingDone(schema: Schema, m: Message, accesses: seq<Access>)
      requires ValidSchema(schema) && Shaped(schema, m)
      ensures AfterAll(schema, m, accesses[..0]) == m
    {
    }

    lemma ClearedView()
      requires Valid()
      ensures ValidSchema(schema) && Fits(schema, State()) && View(schema, Cleared(schema, State())) == Empty(schema)
    {
      ClearedIsBlank(schema, State());
      BlankView(schema, Cleared(schema, State()));
    }

    method PerformOne(a: Access)
      requires Valid() && Allowed(schema, a)
      modifies this
      ensures Valid() && ValidSchema(schema) && Shaped(schema, old(Value()))
      ensures Value() == After(schema, old(Value()), a)
    {
      hide View, Fits, Clean;
      match a {
        case NumberSet(i, n) => SetNumber(i, n);
        case TextSet(i, data) => SetText(i, data);
        case TextChanged(i, data) =>
          var _ := MutableText(i);
          ChangeText(i, data);
        case TextReleased(i) => var _ := ReleaseText(i);
        case TextTaken(i, text) => SetAllocatedText(i, text);
        case FieldCleared(i) => ClearField(i);
        case MessageChanged(i, o) =>
          var _ := MutableMessage(i);
          ChangeMessage(i, o);
        case MessageReleased(i) => var _ := ReleaseMessage(i);
        case MessageTaken(i, p) => SetAllocatedMessage(i, p);
        case ItemAdded(i, o) =>
          AppendItem(i, o);
        case ItemChanged(i, index, o) =>
          FieldAt(schema, State(), i);
          if index < |slots[i].objects| {
            ChangeItem(i, index, o);
          }
        case UnknownAdded(u) => AddUnknown(u);
        case AllCleared => Clear();
        case MergedFrom(o) => MergeFrom(o);
        case CopiedFrom(o) => CopyFrom(o);
        case Parsed(data) => var _ := MergePartial(data);
      }
    }
  }
}
