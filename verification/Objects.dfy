/** Generated message objects: has-bits, values that fall back to defaults, and owned strings and sub-messages that are
    kept when they are cleared. */
module Objects {
  import opened Wrappers
  import opened Wire
  import opened Messages
  import opened Merging
  import opened Leftovers

  /** The storage of one field. A string is None while it is the shared empty one, a sub-message pointer while it is
      NULL; a list keeps the elements that were cleared, in `spare`, and hands them out again. */
  datatype Slot =
    | Scalar(n: int32)
    | Str(data: Option<seq<byte>>)
    | Pointer(target: Option<Object>)
    | Items(objects: seq<Object>, spare: seq<Object>)

  datatype Object = Object(has: seq<bool>, slots: seq<Slot>, unknown: seq<UnknownField>)

  predicate Fits(schema: Schema, o: Object)
    decreases o
  {
    && |o.has| == |o.slots| == |schema.fields|
    && forall i :: 0 <= i < |o.slots| ==> FitsSlot(schema.fields[i].kind, o.slots[i])
  }

  predicate FitsSlot(kind: Kind, slot: Slot)
    decreases slot
  {
    match slot
    case Scalar(n) => kind.Int32Kind? || (kind.EnumKind? && n in kind.values)
    case Str(_) => kind.BytesKind?
    case Pointer(t) => kind.MessageKind? && (t.Some? ==> Fits(kind.schema, t.value))
    case Items(os, spare) =>
      kind.RepeatedKind?
      && (forall o :: o in os ==> Fits(kind.schema, o))
      && (forall o :: o in spare ==> Fits(kind.schema, o))
  }

  function DefaultNumber(kind: Kind): int32 {
    if kind.EnumKind? then kind.default else 0
  }

  function DefaultSlot(kind: Kind): (slot: Slot)
    ensures ValidKind(kind) ==> FitsSlot(kind, slot)
  {
    match kind
    case Int32Kind => Scalar(0)
    case EnumKind(_, default) => Scalar(default)
    case BytesKind => Str(None)
    case MessageKind(_) => Pointer(None)
    case RepeatedKind(_) => Items([], [])
  }

  /** A newly constructed object. */
  function Fresh(schema: Schema): (o: Object)
    requires ValidSchema(schema)
    ensures Fits(schema, o)
  {
    var n := |schema.fields|;
    var o := Object(seq(n, i => false),
                    seq(n, i requires 0 <= i < n => DefaultSlot(schema.fields[i].kind)), []);
    assert Fits(schema, o) by {
      forall i | 0 <= i < n ensures FitsSlot(schema.fields[i].kind, o.slots[i]) {
        assert schema.fields[i] in schema.fields && ValidKind(schema.fields[i].kind);
      }
    }
    o
  }

  // ---------- the invariant ----------

  /** Nothing is set. */
  predicate Blank(o: Object) {
    && (forall b :: b in o.has ==> !b)
    && (forall s :: s in o.slots ==> s.Items? ==> s.objects == [])
    && o.unknown == []
  }

  /** A field whose has-bit is clear holds its default; a kept sub-message is then itself clear, and so are the spare
      elements of a list. */
  predicate Clean(schema: Schema, o: Object)
    requires Fits(schema, o)
    decreases o
  {
    forall i :: 0 <= i < |o.slots| ==> CleanSlot(schema.fields[i].kind, o.has[i], o.slots[i])
  }

  predicate CleanSlot(kind: Kind, has: bool, slot: Slot)
    requires FitsSlot(kind, slot)
    decreases slot
  {
    match slot
    case Scalar(n) => has || n == DefaultNumber(kind)
    case Str(data) => if has then data.Some? else data.GetOr([]) == []
    case Pointer(t) => if t.None? then !has else Clean(kind.schema, t.value) && (has || Blank(t.value))
    case Items(os, spare) =>
      !has
      && (forall o :: o in os ==> Clean(kind.schema, o))
      && (forall o :: o in spare ==> Clean(kind.schema, o) && Blank(o))
  }

  /** The message that an object stands for. */
  function View(schema: Schema, o: Object): (m: Message)
    requires ValidSchema(schema) && Fits(schema, o)
    ensures Shaped(schema, m)
    decreases o
  {
    Message(seq(|schema.fields|, i requires 0 <= i < |schema.fields| =>
                  assert schema.fields[i] in schema.fields;
                  ViewSlot(schema.fields[i].kind, o.has[i], o.slots[i])),
            o.unknown)
  }

  function ViewSlot(kind: Kind, has: bool, slot: Slot): (v: Value)
    requires ValidKind(kind) && FitsSlot(kind, slot)
    ensures ShapedValue(kind, v)
    decreases slot
  {
    match slot
    case Scalar(n) => if has then Number(n) else Absent
    case Str(data) => if has then Text(data.GetOr([])) else Absent
    case Pointer(t) => if has && t.Some? then Sub(View(kind.schema, t.value)) else Absent
    case Items(os, _) => Many(ViewAll(kind.schema, os))
  }

  function ViewAll(schema: Schema, os: seq<Object>): (ms: seq<Message>)
    requires ValidSchema(schema) && forall o :: o in os ==> Fits(schema, o)
    ensures |ms| == |os|
    ensures forall m :: m in ms ==> Shaped(schema, m)
    decreases os
  {
    if os == [] then [] else [View(schema, os[0])] + ViewAll(schema, os[1..])
  }

  // ---------- Clear ----------

  /** The mask of Clear is left out when the class has one singular field only. */
  predicate Guarded(schema: Schema) {
    exists i, j :: 0 <= i < j < |schema.fields|
                   && !schema.fields[i].kind.RepeatedKind? && !schema.fields[j].kind.RepeatedKind?
  }

  predicate AnyHas(o: Object) {
    exists b :: b in o.has && b
  }

  function Cleared(schema: Schema, o: Object): (r: Object)
    requires ValidSchema(schema) && Fits(schema, o)
    ensures Fits(schema, r)
    decreases o
  {
    var open := !Guarded(schema) || AnyHas(o);
    var r := Object(seq(|o.has|, i => false),
                    seq(|schema.fields|, i requires 0 <= i < |schema.fields| =>
                          assert schema.fields[i] in schema.fields;
                          ClearedSlot(schema.fields[i].kind, o.has[i], o.slots[i], open)),
                    []);
    assert forall i :: 0 <= i < |r.slots| ==> FitsSlot(schema.fields[i].kind, r.slots[i]);
    r
  }

  /** What Clear leaves in one field; `open` when the mask let it through. */
  function ClearedSlot(kind: Kind, has: bool, slot: Slot, open: bool): (r: Slot)
    requires ValidKind(kind) && FitsSlot(kind, slot)
    ensures FitsSlot(kind, r)
    decreases slot
  {
    match slot
    case Items(os, spare) => Items([], ClearedAll(kind.schema, os) + spare)
    case Scalar(_) => if open then DefaultSlot(kind) else slot
    case Str(data) => if open && has && data.Some? then Str(Some([])) else slot
    case Pointer(t) => if open && has && t.Some? then Pointer(Some(Cleared(kind.schema, t.value))) else slot
  }

  /** The elements of a list are cleared one by one and kept. */
  function ClearedAll(schema: Schema, os: seq<Object>): (r: seq<Object>)
    requires ValidSchema(schema) && forall o :: o in os ==> Fits(schema, o)
    ensures forall o :: o in r ==> Fits(schema, o)
    decreases os
  {
    if os == [] then [] else [Cleared(schema, os[0])] + ClearedAll(schema, os[1..])
  }

  lemma {:induction false} ClearedAllBlank(schema: Schema, os: seq<Object>)
    requires ValidSchema(schema) && forall o :: o in os ==> Fits(schema, o) && Clean(schema, o)
    ensures forall o :: o in ClearedAll(schema, os) ==> Clean(schema, o) && Blank(o)
    decreases os
  {
    hide Cleared, Clean, Fits, Blank;
    if os != [] {
      assert os[0] in os;
      ClearedIsBlank(schema, os[0]);
      ClearedAllBlank(schema, os[1..]);
    }
  }

  /** The mask-guarded Clear resets the whole object, whatever it leaves untouched. */
  lemma {:induction false} ClearedIsBlank(schema: Schema, o: Object)
    requires ValidSchema(schema) && Fits(schema, o) && Clean(schema, o)
    ensures Clean(schema, Cleared(schema, o)) && Blank(Cleared(schema, o))
    decreases o
  {
    var open := !Guarded(schema) || AnyHas(o);
    var r := Cleared(schema, o);
    forall i | 0 <= i < |r.slots|
      ensures CleanSlot(schema.fields[i].kind, false, r.slots[i])
      ensures r.slots[i].Items? ==> r.slots[i].objects == []
    {
      assert schema.fields[i] in schema.fields;
      var kind, slot := schema.fields[i].kind, o.slots[i];
      assert FitsSlot(kind, slot) && CleanSlot(kind, o.has[i], slot);
      if slot.Items? {
        ClearedAllBlank(kind.schema, slot.objects);
      } else if o.has[i] {
        assert o.has[i] in o.has;
        if slot.Pointer? {
          ClearedIsBlank(kind.schema, slot.target.value);
        }
      }
    }
  }

  /** A clean object with nothing set stands for the empty message. */
  lemma BlankView(schema: Schema, o: Object)
    requires ValidSchema(schema) && Fits(schema, o) && Clean(schema, o) && Blank(o)
    ensures View(schema, o) == Empty(schema)
  {
    forall i | 0 <= i < |schema.fields| ensures View(schema, o).fields[i] == Empty(schema).fields[i] {
      assert schema.fields[i] in schema.fields;
      assert o.has[i] in o.has && o.slots[i] in o.slots;
      assert FitsSlot(schema.fields[i].kind, o.slots[i]);
    }
    assert View(schema, o).fields == Empty(schema).fields;
  }

  lemma FreshIsBlank(schema: Schema)
    requires ValidSchema(schema)
    ensures Clean(schema, Fresh(schema)) && Blank(Fresh(schema))
  {
  }

  // ---------- MergeFrom ----------

  function Merged(schema: Schema, a: Object, b: Object): (r: Object)
    requires ValidSchema(schema) && Fits(schema, a) && Fits(schema, b)
    ensures Fits(schema, r)
    decreases b
  {
    var r := Object(seq(|a.has|, i requires 0 <= i < |a.has| => a.has[i] || b.has[i]),
                    seq(|schema.fields|, i requires 0 <= i < |schema.fields| =>
                          assert schema.fields[i] in schema.fields;
                          MergedSlot(schema.fields[i].kind, a.slots[i], b.has[i], b.slots[i])),
                    a.unknown + b.unknown);
    assert forall i :: 0 <= i < |r.slots| ==> FitsSlot(schema.fields[i].kind, r.slots[i]);
    r
  }

  /** Only fields that are set in the source are taken over; sub-messages are merged into the ones that are there. */
  function MergedSlot(kind: Kind, a: Slot, has: bool, b: Slot): (r: Slot)
    requires ValidKind(kind) && FitsSlot(kind, a) && FitsSlot(kind, b)
    ensures FitsSlot(kind, r)
    decreases b
  {
    match b
    case Items(os, _) => AppendedAll(kind, a, os)
    case Pointer(t) =>
      if has && t.Some? then Pointer(Some(Merged(kind.schema, Target(kind, a), t.value))) else a
    case Str(data) => if has then Str(Some(data.GetOr([]))) else a
    case _ => if has then b else a
  }

  /** The sub-object that `mutable_` returns: the one that is there, kept or set, or a new one. */
  function Target(kind: Kind, slot: Slot): (o: Object)
    requires kind.MessageKind? && ValidKind(kind) && FitsSlot(kind, slot)
    ensures Fits(kind.schema, o)
  {
    if slot.target.Some? then slot.target.value else Fresh(kind.schema)
  }

  /** The element that a list adds: the first spare one, or a new one. */
  function NextItem(kind: Kind, slot: Slot): (o: Object)
    requires kind.RepeatedKind? && ValidKind(kind) && FitsSlot(kind, slot)
    ensures Fits(kind.schema, o)
  {
    if slot.spare != [] then slot.spare[0] else Fresh(kind.schema)
  }

  /** A list with one more element, which has become `o`. */
  function WithItem(kind: Kind, slot: Slot, o: Object): (r: Slot)
    requires kind.RepeatedKind? && FitsSlot(kind, slot) && Fits(kind.schema, o)
    ensures FitsSlot(kind, r)
  {
    Items(slot.objects + [o], if slot.spare != [] then slot.spare[1..] else [])
  }

  /** RepeatedPtrField::MergeFrom: every element is merged into an added one. */
  function AppendedAll(kind: Kind, slot: Slot, os: seq<Object>): (r: Slot)
    requires kind.RepeatedKind? && ValidKind(kind) && FitsSlot(kind, slot)
    requires forall o :: o in os ==> Fits(kind.schema, o)
    ensures FitsSlot(kind, r)
    decreases os
  {
    if os == [] then slot
    else
      AppendedAll(kind, WithItem(kind, slot, Merged(kind.schema, NextItem(kind, slot), os[0])), os[1..])
  }

  lemma MergeFromEmpty(schema: Schema, b: Message)
    requires ValidSchema(schema) && Shaped(schema, b)
    ensures Merge(schema, Empty(schema), b) == b
    decreases b
  {
    var m := Merge(schema, Empty(schema), b);
    forall i | 0 <= i < |schema.fields| ensures m.fields[i] == b.fields[i] {
      MergeField(schema, Empty(schema), b, i);
      match b.fields[i] {
        case Sub(x) => MergeFromEmpty(schema.fields[i].kind.schema, x);
        case Many(ms) => assert [] + ms == ms;
        case _ =>
      }
    }
    assert m.fields == b.fields && m.unknown == b.unknown;
  }

  lemma ViewAllAppend(schema: Schema, a: seq<Object>, b: seq<Object>)
    requires ValidSchema(schema) && forall o :: o in a + b ==> Fits(schema, o)
    ensures ViewAll(schema, a + b) == ViewAll(schema, a) + ViewAll(schema, b)
    decreases a
  {
    if a == [] {
      assert a + b == b;
    } else {
      assert (a + b)[0] == a[0] && (a + b)[1..] == a[1..] + b;
      ViewAllAppend(schema, a[1..], b);
    }
  }

  lemma ViewAllUpdate(schema: Schema, os: seq<Object>, index: nat, o: Object)
    requires ValidSchema(schema) && index < |os| && Fits(schema, o) && forall x :: x in os ==> Fits(schema, x)
    ensures forall x :: x in os[index := o] ==> Fits(schema, x)
    ensures ViewAll(schema, os[index := o]) == ViewAll(schema, os)[index := View(schema, o)]
    decreases os
  {
    var r := os[index := o];
    if index == 0 {
      assert r[1..] == os[1..];
    } else {
      assert r[0] == os[0] && r[1..] == os[1..][index - 1 := o];
      ViewAllUpdate(schema, os[1..], index - 1, o);
    }
  }

  lemma ViewOne(schema: Schema, o: Object)
    requires ValidSchema(schema) && Fits(schema, o)
    ensures ViewAll(schema, [o]) == [View(schema, o)]
  {
  }

  /** MergeFrom on objects is merging of the messages they stand for, and keeps the invariant. */
  lemma {:induction false} MergedView(schema: Schema, a: Object, b: Object)
    requires ValidSchema(schema) && Fits(schema, a) && Fits(schema, b) && Clean(schema, a) && Clean(schema, b)
    ensures Clean(schema, Merged(schema, a, b))
    ensures View(schema, Merged(schema, a, b)) == Merge(schema, View(schema, a), View(schema, b))
    decreases b
  {
    hide MergedSlot, ViewSlot, MergeValue, ValidKind, CleanSlot;
    var r, m := Merged(schema, a, b), Merge(schema, View(schema, a), View(schema, b));
    forall i | 0 <= i < |schema.fields|
      ensures CleanSlot(schema.fields[i].kind, r.has[i], r.slots[i])
      ensures View(schema, r).fields[i] == m.fields[i]
    {
      FieldAt(schema, a, i);
      FieldAt(schema, b, i);
      MergedSlotView(schema.fields[i].kind, a.has[i], a.slots[i], b.has[i], b.slots[i]);
      MergeField(schema, View(schema, a), View(schema, b), i);
      assert r.slots[i] == MergedSlot(schema.fields[i].kind, a.slots[i], b.has[i], b.slots[i]);
      assert r.has[i] == (a.has[i] || b.has[i]);
    }
    assert View(schema, r).fields == m.fields;
  }

  lemma FieldAt(schema: Schema, o: Object, i: nat)
    requires ValidSchema(schema) && Fits(schema, o) && Clean(schema, o) && i < |schema.fields|
    ensures |o.has| == |o.slots| == |schema.fields|
    ensures ValidKind(schema.fields[i].kind) && FitsSlot(schema.fields[i].kind, o.slots[i])
    ensures CleanSlot(schema.fields[i].kind, o.has[i], o.slots[i])
    ensures View(schema, o).fields[i] == ViewSlot(schema.fields[i].kind, o.has[i], o.slots[i])
  {
  }

  lemma {:induction false} MergedSlotView(kind: Kind, hasA: bool, a: Slot, hasB: bool, b: Slot)
    requires ValidKind(kind) && FitsSlot(kind, a) && FitsSlot(kind, b)
    requires CleanSlot(kind, hasA, a) && CleanSlot(kind, hasB, b)
    ensures CleanSlot(kind, hasA || hasB, MergedSlot(kind, a, hasB, b))
    ensures ViewSlot(kind, hasA || hasB, MergedSlot(kind, a, hasB, b))
         == MergeValue(kind, ViewSlot(kind, hasA, a), ViewSlot(kind, hasB, b))
    decreases b
  {
    hide Merged, Clean, Fits, Merge, View, Shaped;
    match b {
      case Scalar(_) =>
      case Str(_) =>
      case Pointer(t) =>
        if hasB {
          var x := Target(kind, a);
          if a.target.None? {
            FreshIsBlank(kind.schema);
          }
          MergedView(kind.schema, x, t.value);
          if !hasA {
            BlankView(kind.schema, x);
          }
        }
      case Items(os, _) =>
        AppendedAllView(kind, a, os);
    }
  }

  /** An element that is added is clear, whether it is new or was used before. */
  lemma NextItemView(kind: Kind, slot: Slot)
    requires kind.RepeatedKind? && ValidKind(kind) && FitsSlot(kind, slot) && CleanSlot(kind, false, slot)
    ensures Clean(kind.schema, NextItem(kind, slot)) && Blank(NextItem(kind, slot))
    ensures View(kind.schema, NextItem(kind, slot)) == Empty(kind.schema)
  {
    hide Clean, Fits, View, Blank;
    FreshIsBlank(kind.schema);
    if slot.spare != [] {
      assert slot.spare[0] in slot.spare;
    }
    BlankView(kind.schema, NextItem(kind, slot));
  }

  lemma WithItemView(kind: Kind, slot: Slot, o: Object)
    requires kind.RepeatedKind? && ValidKind(kind) && FitsSlot(kind, slot) && CleanSlot(kind, false, slot)
    requires Fits(kind.schema, o) && Clean(kind.schema, o)
    ensures CleanSlot(kind, false, WithItem(kind, slot, o))
    ensures ViewAll(kind.schema, WithItem(kind, slot, o).objects)
         == ViewAll(kind.schema, slot.objects) + [View(kind.schema, o)]
  {
    hide Clean, Fits, View, Blank;
    ViewAllAppend(kind.schema, slot.objects, [o]);
    ViewOne(kind.schema, o);
  }

  lemma {:induction false} AppendedAllView(kind: Kind, slot: Slot, os: seq<Object>)
    requires kind.RepeatedKind? && ValidKind(kind) && FitsSlot(kind, slot) && CleanSlot(kind, false, slot)
    requires forall o :: o in os ==> Fits(kind.schema, o) && Clean(kind.schema, o)
    ensures CleanSlot(kind, false, AppendedAll(kind, slot, os))
    ensures ViewAll(kind.schema, AppendedAll(kind, slot, os).objects)
         == ViewAll(kind.schema, slot.objects) + ViewAll(kind.schema, os)
    decreases os
  {
    hide Merged, Clean, Fits, Merge, View, Shaped, Blank, NextItem, WithItem;
    if os == [] {
      assert ViewAll(kind.schema, slot.objects) + [] == ViewAll(kind.schema, slot.objects);
    } else {
      assert os[0] in os;
      var o := NextItem(kind, slot);
      NextItemView(kind, slot);
      MergedView(kind.schema, o, os[0]);
      MergeFromEmpty(kind.schema, View(kind.schema, os[0]));
      WithItemView(kind, slot, Merged(kind.schema, o, os[0]));
      AppendedAllView(kind, WithItem(kind, slot, Merged(kind.schema, o, os[0])), os[1..]);
    }
  }

  /** CopyFrom: Clear, then MergeFrom. The copy stands for the same message as its source. */
  lemma CopiedView(schema: Schema, a: Object, b: Object)
    requires ValidSchema(schema) && Fits(schema, a) && Fits(schema, b) && Clean(schema, a) && Clean(schema, b)
    ensures Clean(schema, Merged(schema, Cleared(schema, a), b))
    ensures View(schema, Merged(schema, Cleared(schema, a), b)) == View(schema, b)
  {
    hide Merged, Clean, Fits, Merge, View, Shaped, Cleared, Blank;
    ClearedIsBlank(schema, a);
    BlankView(schema, Cleared(schema, a));
    MergedView(schema, Cleared(schema, a), b);
    MergeFromEmpty(schema, View(schema, b));
  }

  // ---------- storing and parsing ----------

  /** An object with one field stored anew. */
  function Stored(schema: Schema, o: Object, i: nat, bit: bool, slot: Slot): (r: Object)
    requires Fits(schema, o) && i < |schema.fields| && FitsSlot(schema.fields[i].kind, slot)
    ensures Fits(schema, r)
  {
    var r := o.(has := o.has[i := bit], slots := o.slots[i := slot]);
    assert forall k :: 0 <= k < |r.slots| ==>
             FitsSlot(schema.fields[k].kind, if k == i then slot else o.slots[k]);
    r
  }

  lemma StoredView(schema: Schema, o: Object, i: nat, bit: bool, slot: Slot)
    requires ValidSchema(schema) && Fits(schema, o) && Clean(schema, o) && i < |schema.fields|
    requires FitsSlot(schema.fields[i].kind, slot) && CleanSlot(schema.fields[i].kind, bit, slot)
    ensures ValidKind(schema.fields[i].kind) && Clean(schema, Stored(schema, o, i, bit, slot))
    ensures View(schema, Stored(schema, o, i, bit, slot))
         == With(schema, View(schema, o), i, ViewSlot(schema.fields[i].kind, bit, slot))
  {
    hide FitsSlot, CleanSlot, ViewSlot;
    var r := Stored(schema, o, i, bit, slot);
    FieldAt(schema, o, i);
    forall k | 0 <= k < |schema.fields|
      ensures FitsSlot(schema.fields[k].kind, r.slots[k]) && CleanSlot(schema.fields[k].kind, r.has[k], r.slots[k])
      ensures View(schema, o).fields[k] == ViewSlot(schema.fields[k].kind, o.has[k], o.slots[k])
    {
      FieldAt(schema, o, k);
    }
    assert View(schema, r).fields == View(schema, o).fields[i := ViewSlot(schema.fields[i].kind, bit, slot)];
  }

  function WithUnknownFields(o: Object, us: seq<UnknownField>): Object {
    o.(unknown := o.unknown + us)
  }

  lemma UnknownFieldsView(schema: Schema, o: Object, us: seq<UnknownField>)
    requires ValidSchema(schema) && Fits(schema, o) && Clean(schema, o)
    ensures Fits(schema, WithUnknownFields(o, us)) && Clean(schema, WithUnknownFields(o, us))
    ensures View(schema, WithUnknownFields(o, us)) == WithAll(schema, View(schema, o), us)
  {
    assert View(schema, WithUnknownFields(o, us)).fields == View(schema, o).fields;
  }

  /** The sub-object that parsing merges into stands for the sub-message that it merges into. */
  lemma TargetView(kind: Kind, has: bool, slot: Slot)
    requires kind.MessageKind? && ValidKind(kind) && FitsSlot(kind, slot) && CleanSlot(kind, has, slot)
    ensures Clean(kind.schema, Target(kind, slot))
    ensures View(kind.schema, Target(kind, slot)) == Base(kind, ViewSlot(kind, has, slot))
  {
    hide Clean, Fits, View, Blank;
    FreshIsBlank(kind.schema);
    BlankView(kind.schema, Fresh(kind.schema));
    if slot.target.Some? && !has {
      BlankView(kind.schema, slot.target.value);
    }
  }

  /** How far reading into an object came, and the object then. */
  datatype Reached = Reached(ok: bool, o: Object, rest: seq<byte>)

  /** Parsing into an object. A string or sub-message gets its has-bit before it is read, a number after; a list gets
      its element before it is read. */
  function ParseObject(schema: Schema, s: seq<byte>, depth: nat, o: Object): (r: Reached)
    requires ValidSchema(schema) && Fits(schema, o)
    ensures Fits(schema, r.o) && |r.rest| <= |s|
    decreases |s|, 3
  {
    if s == [] then Reached(true, o, [])
    else
      match ReadVarint32(s)
      case Fail => Reached(false, o, s)
      case Take(tag, rest) =>
        if StopTag(tag) then Reached(false, o, rest)
        else
          var r := ReadFieldObject(schema, tag, rest, depth, o);
          if r.ok then ParseObject(schema, r.rest, depth, r.o) else r
  }

  function ReadFieldObject(schema: Schema, tag: nat, s: seq<byte>, depth: nat, o: Object): (r: Reached)
    requires ValidSchema(schema) && Fits(schema, o) && tag < Two32
    ensures Fits(schema, r.o) && |r.rest| <= |s|
    decreases |s|, 2
  {
    match FieldOf(schema, tag)
    case Some(i) => ReadSlot(schema, i, s, depth, o)
    case None =>
      var o' := WithUnknownFields(o, LeftField(tag, s, depth));
      assert forall k :: 0 <= k < |o'.slots| ==> FitsSlot(schema.fields[k].kind, o'.slots[k]);
      match SkipField(tag, s, depth)
      case Fail => Reached(false, o', s)
      case Take(_, rest) => Reached(true, o', rest)
  }

  function ReadSlot(schema: Schema, i: nat, s: seq<byte>, depth: nat, o: Object): (r: Reached)
    requires ValidSchema(schema) && Fits(schema, o) && i < |schema.fields|
    ensures Fits(schema, r.o) && |r.rest| <= |s|
    decreases |s|, 1
  {
    var kind, slot := schema.fields[i].kind, o.slots[i];
    assert ValidKind(kind) by { assert schema.fields[i] in schema.fields; }
    assert FitsSlot(kind, slot);
    match kind
    case BytesKind =>
      var o' := Stored(schema, o, i, true, Str(Some(LeftText(s, slot.data.GetOr([])))));
      (match ReadString(s)
       case Fail => Reached(false, o', s)
       case Take(_, rest) => Reached(true, o', rest))
    case MessageKind(sub) =>
      var r := ReadObject(sub, s, depth, Target(kind, slot));
      Reached(r.ok, Stored(schema, o, i, true, Pointer(Some(r.o))), r.rest)
    case RepeatedKind(sub) =>
      var r := ReadObject(sub, s, depth, NextItem(kind, slot));
      Reached(r.ok, Stored(schema, o, i, false, WithItem(kind, slot, r.o)), r.rest)
    case _ =>
      match ReadVarint32(s)
      case Fail => Reached(false, o, s)
      case Take(n, rest) => Reached(true, StoredNumber(schema, i, ToInt32(n), o), rest)
  }

  /** An int32 or an enum value; one that the enum does not have goes to the unknown fields. */
  function StoredNumber(schema: Schema, i: nat, n: int32, o: Object): (r: Object)
    requires SmallSchema(schema) && Fits(schema, o) && i < |schema.fields|
    requires schema.fields[i].kind.Int32Kind? || schema.fields[i].kind.EnumKind?
    ensures Fits(schema, r)
  {
    var kind := schema.fields[i].kind;
    if kind.EnumKind? && n !in kind.values then
      var r := WithUnknownFields(o, [UVarint(i + 1, SignExtend(n))]);
      assert forall k :: 0 <= k < |r.slots| ==> FitsSlot(schema.fields[k].kind, r.slots[k]);
      r
    else Stored(schema, o, i, true, Scalar(n))
  }

  function ReadObject(schema: Schema, s: seq<byte>, depth: nat, o: Object): (r: Reached)
    requires ValidSchema(schema) && Fits(schema, o)
    ensures Fits(schema, r.o) && |r.rest| <= |s|
    decreases |s|, 0
  {
    match ReadVarint32(s)
    case Fail => Reached(false, o, s)
    case Take(length, rest) =>
      if depth == 0 then Reached(false, o, rest)
      else
        var k := Clamp(length, |rest|);
        var r := ParseObject(schema, rest[..k], depth - 1, o);
        Reached(r.ok, r.o, rest[k..])
  }

  /** Reading into an object comes as far as reading into the message it stands for, and leaves the same. */
  ghost predicate SameReading(schema: Schema, r: Reached, t: Reading<Message>, left: Message)
    requires ValidSchema(schema)
  {
    && Fits(schema, r.o) && Clean(schema, r.o) && View(schema, r.o) == left
    && r.ok == t.Take? && (r.ok ==> r.rest == t.rest)
  }

  /** Parsing into an object, whether it succeeds or fails, leaves what parsing into its message leaves, and keeps the
      invariant. */
  lemma {:induction false} ParseObjectView(schema: Schema, s: seq<byte>, depth: nat, o: Object)
    requires ValidSchema(schema) && Fits(schema, o) && Clean(schema, o)
    ensures var r := ParseObject(schema, s, depth, o);
            && Clean(schema, r.o) && View(schema, r.o) == Left(schema, s, depth, View(schema, o))
            && r.ok == ParseFields(schema, s, depth, View(schema, o)).Some?
    decreases |s|, 3
  {
    hide ReadFieldObject, ReadField, LeftIn, Fits, Clean, View, ValidSchema, Shaped;
    if s != [] && ReadVarint32(s).Take? && !StopTag(ReadVarint32(s).value) {
      var tag, rest := ReadVarint32(s).value, ReadVarint32(s).rest;
      ReadFieldView(schema, tag, rest, depth, o);
      var r := ReadFieldObject(schema, tag, rest, depth, o);
      if r.ok {
        LeftInComplete(schema, tag, rest, depth, View(schema, o));
        ParseObjectView(schema, r.rest, depth, r.o);
      }
    }
  }

  lemma {:induction false} ReadFieldView(schema: Schema, tag: nat, s: seq<byte>, depth: nat, o: Object)
    requires ValidSchema(schema) && Fits(schema, o) && Clean(schema, o) && tag < Two32
    ensures SameReading(schema, ReadFieldObject(schema, tag, s, depth, o),
                        ReadField(schema, tag, s, depth, View(schema, o)),
                        LeftIn(schema, tag, s, depth, View(schema, o)))
    decreases |s|, 2
  {
    hide ReadSlot, ReadValue, LeftValue, SkipField, LeftField, Fits, Clean, View, ValidSchema, WithUnknownFields,
         WithAll;
    match FieldOf(schema, tag) {
      case Some(i) => ReadSlotView(schema, i, s, depth, o);
      case None => UnknownFieldsView(schema, o, LeftField(tag, s, depth));
    }
  }

  lemma StoredNumberView(schema: Schema, i: nat, n: int32, o: Object)
    requires ValidSchema(schema) && Fits(schema, o) && Clean(schema, o) && i < |schema.fields|
    requires schema.fields[i].kind.Int32Kind? || schema.fields[i].kind.EnumKind?
    ensures Clean(schema, StoredNumber(schema, i, n, o))
    ensures View(schema, StoredNumber(schema, i, n, o))
         == if schema.fields[i].kind.EnumKind? then StoreEnum(schema, View(schema, o), i, n)
            else With(schema, View(schema, o), i, Number(n))
  {
    hide Fits, Clean, View, Stored, With;
    var kind := schema.fields[i].kind;
    if kind.EnumKind? && n !in kind.values {
      UnknownFieldsView(schema, o, [UVarint(i + 1, SignExtend(n))]);
    } else {
      StoredView(schema, o, i, true, Scalar(n));
    }
  }

  lemma {:induction false} ReadSlotView(schema: Schema, i: nat, s: seq<byte>, depth: nat, o: Object)
    requires ValidSchema(schema) && Fits(schema, o) && Clean(schema, o) && i < |schema.fields|
    ensures SameReading(schema, ReadSlot(schema, i, s, depth, o), ReadValue(schema, i, s, depth, View(schema, o)),
                        LeftValue(schema, i, s, depth, View(schema, o)))
    decreases |s|, 1
  {
    hide ReadObject, ReadMessage, LeftMessage, Fits, Clean, View, ValidSchema, Stored, With, ReadVarint32, ReadString,
         LeftText, Target, Base, NextItem, WithItem, StoredNumber, StoreEnum;
    FieldAt(schema, o, i);
    var kind, slot := schema.fields[i].kind, o.slots[i];
    match kind {
      case BytesKind =>
        StoredView(schema, o, i, true, Str(Some(LeftText(s, slot.data.GetOr([])))));
      case MessageKind(sub) =>
        TargetView(kind, o.has[i], slot);
        ReadObjectView(sub, s, depth, Target(kind, slot));
        StoredView(schema, o, i, true, Pointer(Some(ReadObject(sub, s, depth, Target(kind, slot)).o)));
      case RepeatedKind(sub) =>
        NextItemView(kind, slot);
        ReadObjectView(sub, s, depth, NextItem(kind, slot));
        var x := ReadObject(sub, s, depth, NextItem(kind, slot)).o;
        WithItemView(kind, slot, x);
        StoredView(schema, o, i, false, WithItem(kind, slot, x));
      case _ =>
        if ReadVarint32(s).Take? {
          StoredNumberView(schema, i, ToInt32(ReadVarint32(s).value), o);
        }
    }
  }

  lemma {:induction false} ReadObjectView(schema: Schema, s: seq<byte>, depth: nat, o: Object)
    requires ValidSchema(schema) && Fits(schema, o) && Clean(schema, o)
    ensures SameReading(schema, ReadObject(schema, s, depth, o), ReadMessage(schema, s, depth, View(schema, o)),
                        LeftMessage(schema, s, depth, View(schema, o)))
    decreases |s|, 0
  {
    hide ParseObject, ParseFields, Left, Fits, Clean, View, ValidSchema;
    if ReadVarint32(s).Take? && depth > 0 {
      var length, rest := ReadVarint32(s).value, ReadVarint32(s).rest;
      ParseObjectView(schema, rest[..Clamp(length, |rest|)], depth - 1, o);
    }
  }
}
