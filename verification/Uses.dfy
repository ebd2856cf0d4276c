/** Where the descriptors of a file refer to types by name: extendees, message and enum types of fields, and the input
    and output types of methods. */
module Uses {
  import opened Wrappers
  import opened Names
  import opened Protos
  import opened Descriptors
  import opened SymbolTables
  import opened Oneofs

  /** A place that refers to a type: the full name of the symbol that cross-linking put there, if any, and the kind that
      it must have. */
  datatype Use = Use(name: Option<string>, kind: Kind)

  function TypeUses(d: FieldDescriptor): seq<Use> {
    match CppTypeOf(d.fieldType)
    case CppMessage => [Use(d.messageType, Message)]
    case CppEnum => [Use(d.enumType, Enum)]
    case _ => []
  }

  function FieldUses(d: FieldDescriptor): seq<Use> {
    (if d.isExtension then [Use(d.containingType, Message)] else []) + TypeUses(d)
  }

  ghost predicate FieldsUse(ds: seq<FieldDescriptor>, u: Use) {
    exists i :: 0 <= i < |ds| && u in FieldUses(ds[i])
  }

  ghost predicate MessageUses(m: MessageDescriptor, u: Use)
    decreases m
  {
    || FieldsUse(m.fields, u)
    || FieldsUse(m.extensions, u)
    || exists i :: 0 <= i < |m.nested| && MessageUses(m.nested[i], u)
  }

  ghost predicate ServiceUses(s: ServiceDescriptor, u: Use) {
    exists i :: 0 <= i < |s.methods| && u in MethodUses(s.methods[i])
  }

  function MethodUses(m: MethodDescriptor): seq<Use> {
    [Use(m.inputType, Message), Use(m.outputType, Message)]
  }

  ghost predicate FileUses(f: FileDescriptor, u: Use) {
    || (exists i :: 0 <= i < |f.messages| && MessageUses(f.messages[i], u))
    || (exists i :: 0 <= i < |f.services| && ServiceUses(f.services[i], u))
    || FieldsUse(f.extensions, u)
  }

  lemma {:induction false} MessageUsesTypes(m: MessageDescriptor, u: Use)
    requires MessageUses(m, u)
    ensures u.kind != Package
    decreases m
  {
    if i :| 0 <= i < |m.nested| && MessageUses(m.nested[i], u) {
      MessageUsesTypes(m.nested[i], u);
    }
  }

  /** Packages are never used as types. */
  lemma FileUsesTypes(f: FileDescriptor, u: Use)
    requires FileUses(f, u)
    ensures u.kind != Package
  {
    if i :| 0 <= i < |f.messages| && MessageUses(f.messages[i], u) {
      MessageUsesTypes(f.messages[i], u);
    }
  }

  // ---------- what a builder sees ----------

  /** The symbols, the files whose symbols may be used, and whether that restriction is enforced. */
  datatype Sight = Sight(symbols: map<string, Entry<Symbol>>, files: set<Addr>, strict: bool)

  /** A use is resolved: it names a symbol of the right kind in a file that may be used. */
  ghost predicate Known(u: Use, s: Sight) {
    u.name.Some? && CStr(u.name.value) in s.symbols &&
    var symbol := s.symbols[CStr(u.name.value)].value;
    && symbol.fullName == u.name.value && symbol.kind == u.kind
    && (s.strict ==> symbol.file in s.files)
  }

  ghost predicate AllKnown(us: seq<Use>, s: Sight) {
    forall u :: u in us ==> Known(u, s)
  }

  ghost predicate FieldsKnown(ds: seq<FieldDescriptor>, s: Sight) {
    forall i :: 0 <= i < |ds| ==> AllKnown(FieldUses(ds[i]), s)
  }

  ghost predicate MessageKnown(m: MessageDescriptor, s: Sight) {
    forall u :: MessageUses(m, u) ==> Known(u, s)
  }

  ghost predicate MessagesKnown(ms: seq<MessageDescriptor>, s: Sight) {
    forall i :: 0 <= i < |ms| ==> MessageKnown(ms[i], s)
  }

  ghost predicate MethodsKnown(ms: seq<MethodDescriptor>, s: Sight) {
    forall i :: 0 <= i < |ms| ==> AllKnown(MethodUses(ms[i]), s)
  }

  ghost predicate ServiceKnown(d: ServiceDescriptor, s: Sight) {
    MethodsKnown(d.methods, s)
  }

  ghost predicate ServicesKnown(ds: seq<ServiceDescriptor>, s: Sight) {
    forall i :: 0 <= i < |ds| ==> ServiceKnown(ds[i], s)
  }

  ghost predicate FileKnown(f: FileDescriptor, s: Sight) {
    forall u :: FileUses(f, u) ==> Known(u, s)
  }

  /** More symbols are there; none has changed. */
  ghost predicate Widens(s: Sight, s': Sight) {
    && s'.files == s.files && s'.strict == s.strict
    && forall k :: k in s.symbols ==> k in s'.symbols && s'.symbols[k] == s.symbols[k]
  }

  lemma WidensRefl(s: Sight)
    ensures Widens(s, s)
  {
  }

  lemma WidensTrans(s: Sight, s': Sight, s'': Sight)
    requires Widens(s, s') && Widens(s', s'')
    ensures Widens(s, s'')
  {
  }

  lemma AllKnownLater(us: seq<Use>, s: Sight, s': Sight)
    requires AllKnown(us, s) && Widens(s, s')
    ensures AllKnown(us, s')
  {
  }

  lemma FieldsKnownLater(ds: seq<FieldDescriptor>, s: Sight, s': Sight)
    requires FieldsKnown(ds, s) && Widens(s, s')
    ensures FieldsKnown(ds, s')
  {
    forall i | 0 <= i < |ds| ensures AllKnown(FieldUses(ds[i]), s') {
      AllKnownLater(FieldUses(ds[i]), s, s');
    }
  }

  lemma MessagesKnownLater(ms: seq<MessageDescriptor>, s: Sight, s': Sight)
    requires MessagesKnown(ms, s) && Widens(s, s')
    ensures MessagesKnown(ms, s')
  {
    forall i, u | 0 <= i < |ms| && MessageUses(ms[i], u) ensures Known(u, s') {
      assert MessageKnown(ms[i], s);
    }
  }

  lemma ServicesKnownLater(ds: seq<ServiceDescriptor>, s: Sight, s': Sight)
    requires ServicesKnown(ds, s) && Widens(s, s')
    ensures ServicesKnown(ds, s')
  {
    forall i, j | 0 <= i < |ds| && 0 <= j < |ds[i].methods| ensures AllKnown(MethodUses(ds[i].methods[j]), s') {
      assert ServiceKnown(ds[i], s);
      AllKnownLater(MethodUses(ds[i].methods[j]), s, s');
    }
  }

  /** One more method of a service is resolved: its input before its output. */
  lemma MethodsKnownNext(ms: seq<MethodDescriptor>, m: MethodDescriptor, s1: Sight, s2: Sight, s3: Sight)
    requires MethodsKnown(ms, s1) && Widens(s1, s2) && Widens(s2, s3)
    requires Known(Use(m.inputType, Message), s2) && Known(Use(m.outputType, Message), s3)
    ensures MethodsKnown(ms + [m], s3)
  {
    AllKnownLater([Use(m.inputType, Message)], s2, s3);
    assert Use(m.inputType, Message) in [Use(m.inputType, Message)];
    forall i | 0 <= i < |ms| ensures AllKnown(MethodUses(ms[i]), s3) {
      AllKnownLater(MethodUses(ms[i]), s1, s3);
    }
  }

  /** Laying out oneofs does not touch the types of the fields. */
  lemma LaidOutKnown(fields: seq<FieldDescriptor>, oneofs: seq<OneofDescriptor>, fields': seq<FieldDescriptor>,
                     oneofs': seq<OneofDescriptor>, s: Sight)
    requires LaidOut(fields, oneofs, fields', oneofs') && FieldsKnown(fields, s)
    ensures FieldsKnown(fields', s)
  {
    forall i | 0 <= i < |fields'| ensures AllKnown(FieldUses(fields'[i]), s) {
      assert FieldUses(fields'[i]) == FieldUses(fields[i]);
    }
  }

  lemma MessageAllKnown(m: MessageDescriptor, s: Sight)
    requires FieldsKnown(m.fields, s) && FieldsKnown(m.extensions, s) && MessagesKnown(m.nested, s)
    ensures MessageKnown(m, s)
  {
    forall u | MessageUses(m, u) ensures Known(u, s) {
      if FieldsUse(m.fields, u) || FieldsUse(m.extensions, u) {
        FieldUseKnown(m.fields, u, s);
        FieldUseKnown(m.extensions, u, s);
      } else {
        var i :| 0 <= i < |m.nested| && MessageUses(m.nested[i], u);
        assert MessageKnown(m.nested[i], s);
      }
    }
  }

  lemma FieldUseKnown(ds: seq<FieldDescriptor>, u: Use, s: Sight)
    requires FieldsKnown(ds, s)
    ensures FieldsUse(ds, u) ==> Known(u, s)
  {
  }

  /** A file whose parts are resolved is resolved. */
  lemma FileAllKnown(f: FileDescriptor, s: Sight)
    requires MessagesKnown(f.messages, s) && ServicesKnown(f.services, s) && FieldsKnown(f.extensions, s)
    ensures FileKnown(f, s)
  {
    hide MessageUses, FieldUses, MethodUses, FieldsUse;
    forall u | FileUses(f, u) ensures Known(u, s) {
      if i :| 0 <= i < |f.messages| && MessageUses(f.messages[i], u) {
        assert MessageKnown(f.messages[i], s);
      } else if i :| 0 <= i < |f.services| && ServiceUses(f.services[i], u) {
        assert ServiceKnown(f.services[i], s);
        var j :| 0 <= j < |f.services[i].methods| && u in MethodUses(f.services[i].methods[j]);
        assert AllKnown(MethodUses(f.services[i].methods[j]), s);
      } else {
        FieldUseKnown(f.extensions, u, s);
      }
    }
  }
}
