/** From protos to descriptors: what building a part produces before and after cross-linking, and which files
    CopyTo gives back unchanged. */
module Building {
  import opened Wrappers
  import opened Names
  import opened Numbers
  import opened Protos
  import opened Descriptors
  import opened Declarations
  import opened Oneofs
  import opened Uses

  // ---------- before cross-linking ----------

  /** The stored default of a field; enum defaults are resolved by cross-linking, float and bytes texts kept. */
  function InitialDefault(f: FieldProto): Default {
    if f.fieldType.None? then NoDefault
    else
      var text := f.defaultValue.GetOr("");
      var parsed := ParseDefault(text);
      match CppTypeOf(f.fieldType.value)
      case CppInt32 => IntDefault(if parsed.Number? then ClampSigned(parsed, 0x8000_0000) else 0)
      case CppInt64 => IntDefault(if parsed.Number? then ClampSigned(parsed, 0x8000_0000_0000_0000) else 0)
      case CppUInt32 => IntDefault(if parsed.Number? then ClampUnsigned(parsed, 0x1_0000_0000) else 0)
      case CppUInt64 => IntDefault(if parsed.Number? then ClampUnsigned(parsed, 0x1_0000_0000_0000_0000) else 0)
      case CppBool => BoolDefault(text == "true")
      case CppEnum => EnumUnresolved
      case CppMessage => NoDefault
      case _ => TextDefault(text)
  }

  function InitialField(f: FieldProto, self: Ptr, scope: string, isExtension: bool, oneofCount: nat): FieldDescriptor {
    FieldDescriptor(
      self, f.name, Qualify(scope, f.name), f.number, f.fieldLabel, f.fieldType.GetOr(TypeDouble), isExtension,
      f.defaultValue.Some? && !(f.fieldType.Some? && CppTypeOf(f.fieldType.value) == CppMessage),
      InitialDefault(f),
      if !isExtension && f.oneofIndex.Some? && 0 <= f.oneofIndex.value < oneofCount
      then Some(f.oneofIndex.value) else None,
      0,
      if isExtension then None else Some(scope),
      None, None)
  }

  function EnumValueOf(v: EnumValueProto, scope: string): EnumValueDescriptor {
    EnumValueDescriptor(v.name, Qualify(scope, v.name), v.number)
  }

  function EnumOf(e: EnumProto, scope: string): EnumDescriptor {
    EnumDescriptor(e.name, Qualify(scope, e.name),
                   seq(|e.values|, i requires 0 <= i < |e.values| => EnumValueOf(e.values[i], scope)))
  }

  function EnumsOf(es: seq<EnumProto>, scope: string): seq<EnumDescriptor> {
    seq(|es|, i requires 0 <= i < |es| => EnumOf(es[i], scope))
  }

  function OneofsOf(names: seq<string>, parent: string): seq<OneofDescriptor> {
    seq(|names|, i requires 0 <= i < |names| => OneofDescriptor(names[i], parent + "." + names[i], 0, []))
  }

  function MethodOf(m: MethodProto, service: string): MethodDescriptor {
    MethodDescriptor(m.name, service + "." + m.name, None, None)
  }

  function ServiceOf(s: ServiceProto, scope: string): ServiceDescriptor {
    ServiceDescriptor(s.name, Qualify(scope, s.name),
                      seq(|s.methods|, i requires 0 <= i < |s.methods| =>
                        MethodOf(s.methods[i], Qualify(scope, s.name))))
  }

  function ServicesOf(ss: seq<ServiceProto>, scope: string): seq<ServiceDescriptor> {
    seq(|ss|, i requires 0 <= i < |ss| => ServiceOf(ss[i], scope))
  }

  /** Field descriptors as BuildField leaves them, in cells that are allocated. */
  ghost predicate FieldsBuilt(ds: seq<FieldDescriptor>, fs: seq<FieldProto>, scope: string, isExtension: bool,
                              oneofCount: nat, blocks: seq<Addr>)
  {
    && |ds| == |fs|
    && forall i :: 0 <= i < |fs| ==>
         ds[i] == InitialField(fs[i], ds[i].self, scope, isExtension, oneofCount) && ds[i].self.block in blocks
  }

  ghost predicate MessageBuilt(d: MessageDescriptor, m: MessageProto, scope: string, blocks: seq<Addr>)
    decreases m
  {
    && d.name == m.name && d.fullName == Qualify(scope, m.name)
    && d.oneofs == OneofsOf(m.oneofs, d.fullName)
    && FieldsBuilt(d.fields, m.fields, d.fullName, false, |m.oneofs|, blocks)
    && |d.nested| == |m.nested|
    && (forall i :: 0 <= i < |m.nested| ==> MessageBuilt(d.nested[i], m.nested[i], d.fullName, blocks))
    && d.enums == EnumsOf(m.enums, d.fullName)
    && d.ranges == m.ranges
    && FieldsBuilt(d.extensions, m.extensions, d.fullName, true, 0, blocks)
  }

  ghost predicate MessagesBuilt(ds: seq<MessageDescriptor>, ms: seq<MessageProto>, scope: string, blocks: seq<Addr>) {
    |ds| == |ms| && forall i :: 0 <= i < |ms| ==> MessageBuilt(ds[i], ms[i], scope, blocks)
  }

  /** Descriptors stay built while more storage is allocated. */
  lemma {:induction false} MessageBuiltLater(d: MessageDescriptor, m: MessageProto, scope: string, a: seq<Addr>,
                                             b: seq<Addr>)
    requires MessageBuilt(d, m, scope, a) && a <= b
    ensures MessageBuilt(d, m, scope, b)
    decreases m
  {
    forall i | 0 <= i < |m.nested| ensures MessageBuilt(d.nested[i], m.nested[i], d.fullName, b) {
      MessageBuiltLater(d.nested[i], m.nested[i], d.fullName, a, b);
    }
  }

  lemma MessagesBuiltLater(ds: seq<MessageDescriptor>, ms: seq<MessageProto>, scope: string, a: seq<Addr>, b: seq<Addr>)
    requires MessagesBuilt(ds, ms, scope, a) && a <= b
    ensures MessagesBuilt(ds, ms, scope, b)
  {
    forall i | 0 <= i < |ms| ensures MessageBuilt(ds[i], ms[i], scope, b) {
      MessageBuiltLater(ds[i], ms[i], scope, a, b);
    }
  }

  lemma MessageAssembled(m: MessageProto, scope: string, fields: seq<FieldDescriptor>, nested: seq<MessageDescriptor>,
                         extensions: seq<FieldDescriptor>, a: seq<Addr>, b: seq<Addr>, c: seq<Addr>)
    requires a <= c && b <= c
    requires FieldsBuilt(fields, m.fields, Qualify(scope, m.name), false, |m.oneofs|, a)
    requires MessagesBuilt(nested, m.nested, Qualify(scope, m.name), b)
    requires FieldsBuilt(extensions, m.extensions, Qualify(scope, m.name), true, 0, c)
    ensures MessageBuilt(
              MessageDescriptor(m.name, Qualify(scope, m.name), OneofsOf(m.oneofs, Qualify(scope, m.name)),
                                fields, nested, EnumsOf(m.enums, Qualify(scope, m.name)), m.ranges, extensions),
              m, scope, c)
  {
    MessagesBuiltLater(nested, m.nested, Qualify(scope, m.name), b, c);
    forall i | 0 <= i < |m.fields| ensures fields[i].self.block in c {
      assert fields[i].self.block in a;
    }
  }

  // ---------- canonical protos ----------

  predicate Absolute(name: Option<string>) {
    name.Some? && |name.value| > 0 && name.value[0] == '.'
  }

  predicate IsLetter(c: char) {
    ('a' <= c <= 'z') || ('A' <= c <= 'Z') || c == '_'
  }

  /** io::Tokenizer::IsIdentifier. */
  predicate IsIdentifier(s: string) {
    |s| > 0 && IsLetter(s[0]) && forall c :: c in s ==> NameChar(c)
  }

  /** The decimal texts of the integers in an interval. */
  ghost predicate Decimal(text: string, low: int, high: int) {
    exists v :: low <= v <= high && text == Itoa(v)
  }

  ghost predicate CanonicalDefault(t: Type, text: string) {
    match CppTypeOf(t)
    case CppInt32 => Decimal(text, -0x8000_0000, 0x7fff_ffff)
    case CppInt64 => Decimal(text, -0x8000_0000_0000_0000, 0x7fff_ffff_ffff_ffff)
    case CppUInt32 => Decimal(text, 0, 0xffff_ffff)
    case CppUInt64 => Decimal(text, 0, 0xffff_ffff_ffff_ffff)
    case CppBool => true
    case CppEnum => true
    case CppString => t == TypeString
    case _ => false
  }

  /** Types are given and their names are fully qualified; defaults are written as CopyTo writes them. */
  ghost predicate FieldForm(f: FieldProto) {
    && f.fieldType.Some?
    && (match CppTypeOf(f.fieldType.value)
        case CppMessage | CppEnum => Absolute(f.typeName)
        case _ => f.typeName.None?)
    && (f.extendee.Some? ==> Absolute(f.extendee))
    && (f.defaultValue.Some? ==> CanonicalDefault(f.fieldType.value, f.defaultValue.value))
  }

  ghost predicate FieldForms(fs: seq<FieldProto>) {
    forall f :: f in fs ==> FieldForm(f)
  }

  ghost predicate MessageForm(m: MessageProto)
    decreases m
  {
    FieldForms(m.fields) && FieldForms(m.extensions) && forall n :: n in m.nested ==> MessageForm(n)
  }

  predicate MethodForm(m: MethodProto) {
    Absolute(Some(m.inputType)) && Absolute(Some(m.outputType))
  }

  /** Type names are fully qualified, types are given, and defaults are written as CopyTo writes them. */
  ghost predicate CanonicalForm(p: FileProto) {
    && p.package != Some("")
    && (forall m :: m in p.messages ==> MessageForm(m))
    && (forall s, m :: s in p.services && m in s.methods ==> MethodForm(m))
    && FieldForms(p.extensions)
  }

  // A name of a type finds what its C string names, and CopyTo writes the name of what was found.

  predicate FieldSpelled(f: FieldProto) {
    (f.typeName.Some? ==> NulFree(f.typeName.value)) && (f.extendee.Some? ==> NulFree(f.extendee.value))
  }

  ghost predicate FieldsSpelled(fs: seq<FieldProto>) {
    forall f :: f in fs ==> FieldSpelled(f)
  }

  ghost predicate MessageSpelled(m: MessageProto)
    decreases m
  {
    FieldsSpelled(m.fields) && FieldsSpelled(m.extensions) && forall n :: n in m.nested ==> MessageSpelled(n)
  }

  predicate MethodSpelled(m: MethodProto) {
    NulFree(m.inputType) && NulFree(m.outputType)
  }

  /** No name of a type holds a NUL. */
  ghost predicate Spelled(p: FileProto) {
    && (forall m :: m in p.messages ==> MessageSpelled(m))
    && (forall s, m :: s in p.services && m in s.methods ==> MethodSpelled(m))
    && FieldsSpelled(p.extensions)
  }

  ghost predicate CanonicalField(f: FieldProto) {
    FieldForm(f) && FieldSpelled(f)
  }

  ghost predicate CanonicalFields(fs: seq<FieldProto>) {
    forall f :: f in fs ==> CanonicalField(f)
  }

  ghost predicate CanonicalMessage(m: MessageProto) {
    MessageForm(m) && MessageSpelled(m)
  }

  predicate CanonicalMethod(m: MethodProto) {
    MethodForm(m) && MethodSpelled(m)
  }

  /** A file in canonical form whose names of types are written as they are found. */
  ghost predicate Canonical(p: FileProto) {
    CanonicalForm(p) && Spelled(p)
  }

  /** A canonical default that parses is printed back as it was written, for every type but enums. */
  lemma DefaultCopiesBack(f: FieldProto)
    requires CanonicalField(f) && f.defaultValue.Some? && DefaultOk(f)
    requires CppTypeOf(f.fieldType.value) != CppEnum
    ensures DefaultText(InitialDefault(f)) == f.defaultValue.value
  {
    var text := f.defaultValue.value;
    match CppTypeOf(f.fieldType.value)
    case CppInt32 => var v :| -0x8000_0000 <= v <= 0x7fff_ffff && text == Itoa(v); ItoaParses(v);
    case CppInt64 => var v :| -0x8000_0000_0000_0000 <= v <= 0x7fff_ffff_ffff_ffff && text == Itoa(v); ItoaParses(v);
    case CppUInt32 => var v :| 0 <= v <= 0xffff_ffff && text == Itoa(v); ItoaParses(v);
    case CppUInt64 => var v :| 0 <= v <= 0xffff_ffff_ffff_ffff && text == Itoa(v); ItoaParses(v);
    case _ =>
  }

  // ---------- cross-linking ----------

  /** A lookup of `name` from inside a scope can only end at a symbol with that name in a scope around it, as
      C strings. */
  ghost predicate NamedBy(fullName: string, name: string, relativeTo: string) {
    if Absolute(Some(name)) then CStr(fullName) == CStr(name[1..])
    else CStr(fullName) == CStr(name)
         || exists scope: string :: scope <= relativeTo && CStr(fullName) == CStr(scope + "." + name)
  }

  predicate InRanges(facts: Facts, number: int) {
    facts.MessageFacts? && exists r :: r in facts.ranges && r.start <= number < r.end
  }

  /** The own name of a symbol, from its full name. */
  function LastPart(fullName: string): string {
    fullName[LastDot(fullName) + 1..]
  }

  lemma IdentifierIsLast(fullName: string, name: string, relativeTo: string)
    requires IsIdentifier(name) && NamedBy(fullName, name, relativeTo) && NulFree(fullName) && NulFree(relativeTo)
    ensures LastPart(fullName) == name
  {
    hide CStr, LastDot;
    ValidNameDotFree(name);
    assert !IsLetter('.');
    CStrCuts(fullName);
    CStrCuts(name);
    if fullName == name {
      LastDotNone(name);
    } else {
      var scope: string :| scope <= relativeTo && CStr(fullName) == CStr(scope + "." + name);
      CStrCuts(scope + "." + name);
      LastDotOfAppend(scope, name);
    }
  }

  /** The type and the default that linking the type of a field gives it. */
  ghost predicate TypeLinked(d': FieldDescriptor, d: FieldDescriptor, f: FieldProto, failed: bool) {
    && d' == d.(fieldType := d'.fieldType, default := d'.default, messageType := d'.messageType,
                enumType := d'.enumType)
    && (!failed && CanonicalField(f) ==>
          && d'.fieldType == f.fieldType.value
          && (CppTypeOf(d'.fieldType) == CppMessage ==> Some(Dotted(d'.messageType)) == f.typeName)
          && (CppTypeOf(d'.fieldType) == CppEnum ==> Some(Dotted(d'.enumType)) == f.typeName)
          && (CppTypeOf(d'.fieldType) != CppEnum ==> d'.default == d.default)
          && (CppTypeOf(d'.fieldType) == CppEnum && d.hasDefault ==> Some(DefaultText(d'.default)) == f.defaultValue))
  }

  /** CopyTo writes the name of what was found: the name that was looked up, unless that holds a NUL. */
  lemma DottedName(fullName: string, name: string, relativeTo: string)
    requires NamedBy(fullName, name, relativeTo) && Absolute(Some(name)) && NulFree(fullName)
    ensures Dotted(Some(fullName)) == name <==> NulFree(name)
  {
    hide CStr;
    CStrCuts(fullName);
    CStrCuts(name[1..]);
    assert name == "." + name[1..];
  }

  /** The type name ".Foo", a NUL and "x" ends at a symbol "Foo", which CopyTo writes as ".Foo". */
  lemma CutTypeName(relativeTo: string)
    ensures var name := ".Foo" + "\0" + "x";
            NamedBy("Foo", name, relativeTo) && Dotted(Some("Foo")) == ".Foo" != name
  {
    var name := ".Foo" + "\0" + "x";
    CStrPrefix(name[1..], "Foo");
    CStrCuts("Foo");
    hide CStr;
    assert |name| == 6;
  }

  /** A canonical field whose extendee and type were resolved without errors is copied back unchanged. */
  lemma FieldCopiesBack(d': FieldDescriptor, d: FieldDescriptor, f: FieldProto, scope: string, isExtension: bool,
                        oneofCount: nat, extendee: Option<string>)
    requires d == InitialField(f, d.self, scope, isExtension, oneofCount)
    requires FieldOk(f, isExtension, oneofCount) && CanonicalField(f)
    requires isExtension ==> extendee.Some? && NamedBy(extendee.value, f.extendee.value, d.fullName)
                             && NulFree(extendee.value)
    requires TypeLinked(d', if isExtension then d.(containingType := extendee) else d, f, false)
    ensures CopyField(d') == f
  {
    if isExtension {
      DottedName(extendee.value, f.extendee.value, d.fullName);
    }
    if f.defaultValue.Some? && CppTypeOf(f.fieldType.value) != CppEnum {
      DefaultCopiesBack(f);
    }
  }

  /** What cross-linking keeps of a field, and, when no error was reported, what it fills in. */
  ghost predicate FieldLinked(d': FieldDescriptor, d: FieldDescriptor, f: FieldProto, failed: bool) {
    && d'.containingOneof == d.containingOneof && d'.name == d.name && d'.self == d.self
    && (!failed && CanonicalField(f) ==> CopyField(d') == f)
  }

  lemma FieldDone(d': FieldDescriptor, d: FieldDescriptor, f: FieldProto, scope: string, isExtension: bool,
                  oneofCount: nat, extendee: Option<string>, failed: bool)
    requires d == InitialField(f, d.self, scope, isExtension, oneofCount)
    requires !failed ==> FieldOk(f, isExtension, oneofCount)
    requires extendee.Some? == f.extendee.Some?
    requires extendee.Some? ==> NamedBy(extendee.value, f.extendee.value, d.fullName)
    requires extendee.Some? && !failed ==> NulFree(extendee.value)
    requires TypeLinked(d', if extendee.Some? then d.(containingType := extendee) else d, f, failed)
    ensures FieldLinked(d', d, f, failed)
  {
    if !failed && CanonicalField(f) {
      FieldCopiesBack(d', d, f, scope, isExtension, oneofCount, extendee);
    }
  }

  ghost predicate FieldsLinked(ds': seq<FieldDescriptor>, ds: seq<FieldDescriptor>, fs: seq<FieldProto>, failed: bool) {
    && |ds'| == |ds| == |fs|
    && forall i :: 0 <= i < |fs| ==> FieldLinked(ds'[i], ds[i], fs[i], failed)
  }

  ghost predicate MessageLinked(d: MessageDescriptor, m: MessageProto, failed: bool) {
    !failed && CanonicalMessage(m) ==> CopyMessage(d) == m
  }

  ghost predicate ServiceLinked(d: ServiceDescriptor, s: ServiceProto, failed: bool) {
    !failed && (forall m :: m in s.methods ==> CanonicalMethod(m)) ==> CopyService(d) == s
  }

  lemma FieldsCopyBack(ds': seq<FieldDescriptor>, ds: seq<FieldDescriptor>, fs: seq<FieldProto>)
    requires FieldsLinked(ds', ds, fs, false) && CanonicalFields(fs)
    ensures CopyFields(ds') == fs
  {
  }

  lemma EnumsCopyBack(es: seq<EnumProto>, scope: string)
    ensures CopyEnums(EnumsOf(es, scope)) == es
  {
    forall i | 0 <= i < |es| ensures CopyEnum(EnumOf(es[i], scope)) == es[i] {
      var e := es[i];
      assert CopyEnum(EnumOf(e, scope)).values == e.values;
    }
    assert |CopyEnums(EnumsOf(es, scope))| == |es|;
  }

  /** Copying ignores where a field stands in its oneof. */
  lemma CopyIgnoresPlace(ds: seq<FieldDescriptor>, ds': seq<FieldDescriptor>)
    requires |ds| == |ds'|
    requires forall i :: 0 <= i < |ds| ==> ds'[i] == ds[i].(indexInOneof := ds'[i].indexInOneof)
    ensures CopyFields(ds') == CopyFields(ds)
  {
  }

  /** A message whose parts were linked without errors is copied back unchanged; the oneof listings do not matter. */
  lemma MessageCopiesBack(d': MessageDescriptor, d: MessageDescriptor, m: MessageProto, scope: string,
                          blocks: seq<Addr>, linked: seq<FieldDescriptor>)
    requires MessageBuilt(d, m, scope, blocks) && CanonicalMessage(m)
    requires FieldsLinked(linked, d.fields, m.fields, false)
    requires LaidOut(linked, d.oneofs, d'.fields, d'.oneofs)
    requires |d'.nested| == |m.nested|
    requires forall i :: 0 <= i < |m.nested| ==> MessageLinked(d'.nested[i], m.nested[i], false)
    requires FieldsLinked(d'.extensions, d.extensions, m.extensions, false)
    requires d' == d.(fields := d'.fields, oneofs := d'.oneofs, nested := d'.nested, extensions := d'.extensions)
    ensures CopyMessage(d') == m
  {
    FieldsCopyBack(linked, d.fields, m.fields);
    CopyIgnoresPlace(linked, d'.fields);
    FieldsCopyBack(d'.extensions, d.extensions, m.extensions);
    EnumsCopyBack(m.enums, d.fullName);
    var c := CopyMessage(d');
    assert c.oneofs == m.oneofs by {
      forall j | 0 <= j < |m.oneofs| ensures d'.oneofs[j].name == m.oneofs[j] {
        assert d.oneofs[j].name == m.oneofs[j];
      }
    }
    assert c.nested == m.nested by {
      forall i | 0 <= i < |m.nested| ensures CopyMessage(d'.nested[i]) == m.nested[i] {
        assert m.nested[i] in m.nested;
        assert MessageLinked(d'.nested[i], m.nested[i], false);
      }
    }
  }

  lemma MessageDone(d': MessageDescriptor, d: MessageDescriptor, m: MessageProto, scope: string,
                    blocks: seq<Addr>, linked: seq<FieldDescriptor>, failed: bool)
    requires !failed ==>
               && MessageBuilt(d, m, scope, blocks)
               && FieldsLinked(linked, d.fields, m.fields, false)
               && LaidOut(linked, d.oneofs, d'.fields, d'.oneofs)
               && |d'.nested| == |m.nested|
               && (forall i :: 0 <= i < |m.nested| ==> MessageLinked(d'.nested[i], m.nested[i], false))
               && FieldsLinked(d'.extensions, d.extensions, m.extensions, false)
               && d' == d.(fields := d'.fields, oneofs := d'.oneofs, nested := d'.nested, extensions := d'.extensions)
    ensures MessageLinked(d', m, failed)
  {
    hide MessageBuilt, CanonicalMessage, FieldsLinked, LaidOut, CopyMessage;
    if !failed && CanonicalMessage(m) {
      MessageCopiesBack(d', d, m, scope, blocks, linked);
    }
  }

  lemma OneofsInRange(linked: seq<FieldDescriptor>, d: MessageDescriptor, m: MessageProto, scope: string,
                      blocks: seq<Addr>, failed: bool)
    requires MessageBuilt(d, m, scope, blocks) && FieldsLinked(linked, d.fields, m.fields, failed)
    ensures InRange(linked, |d.oneofs|)
  {
  }

  lemma FieldsLinkedLater(ds': seq<FieldDescriptor>, ds: seq<FieldDescriptor>, fs: seq<FieldProto>, n: nat,
                          failed: bool, failed': bool)
    requires n <= |ds'| && n <= |ds| && n <= |fs| && (failed ==> failed')
    requires forall j :: 0 <= j < n ==> FieldLinked(ds'[j], ds[j], fs[j], failed)
    ensures forall j :: 0 <= j < n ==> FieldLinked(ds'[j], ds[j], fs[j], failed')
  {
  }

  lemma MessagesLinkedLater(ds: seq<MessageDescriptor>, ms: seq<MessageProto>, n: nat, failed: bool, failed': bool)
    requires n <= |ds| && n <= |ms| && (failed ==> failed')
    requires forall j :: 0 <= j < n ==> MessageLinked(ds[j], ms[j], failed)
    ensures forall j :: 0 <= j < n ==> MessageLinked(ds[j], ms[j], failed')
  {
  }

  lemma FieldsOk(fs: seq<FieldProto>, scope: string, isExtension: bool, oneofCount: nat)
    requires AllOk(FieldElements(fs, scope, isExtension, oneofCount))
    ensures forall i :: 0 <= i < |fs| ==> FieldOk(fs[i], isExtension, oneofCount)
  {
    forall i | 0 <= i < |fs| ensures FieldOk(fs[i], isExtension, oneofCount) {
      assert FieldElements(fs, scope, isExtension, oneofCount)[i].ok;
    }
  }

  lemma {:induction false} MessagesOk(ms: seq<MessageProto>, scope: string)
    requires AllOk(AllMessageElements(ms, scope))
    ensures forall i :: 0 <= i < |ms| ==> AllOk(MessageElements(ms[i], scope))
    decreases |ms|
  {
    hide MessageElements;
    if ms != [] {
      var n := |ms| - 1;
      var es := AllMessageElements(ms, scope);
      forall e | e in AllMessageElements(ms[..n], scope) || e in MessageElements(ms[n], scope) ensures e.ok {
        assert e in es;
      }
      MessagesOk(ms[..n], scope);
      forall i | 0 <= i < |ms| ensures AllOk(MessageElements(ms[i], scope)) {
        if i < n {
          assert ms[..n][i] == ms[i];
        }
      }
    }
  }

  lemma ServicesCopyBack(ds: seq<ServiceDescriptor>, ss: seq<ServiceProto>)
    requires |ds| == |ss| && forall i :: 0 <= i < |ss| ==> ServiceLinked(ds[i], ss[i], false)
    requires forall s, m :: s in ss && m in s.methods ==> CanonicalMethod(m)
    ensures seq(|ds|, i requires 0 <= i < |ds| => CopyService(ds[i])) == ss
  {
  }

  lemma AllFieldsLinkedLater(ds': seq<FieldDescriptor>, ds: seq<FieldDescriptor>, fs: seq<FieldProto>,
                             failed: bool, failed': bool)
    requires FieldsLinked(ds', ds, fs, failed) && (failed ==> failed')
    ensures FieldsLinked(ds', ds, fs, failed')
  {
  }

  // ---------- whole files ----------

  /** The cell of a file right after it is allocated. */
  function InitialFile(p: FileProto): FileDescriptor {
    FileDescriptor(p.name, p.Package(), [], [], [], [], [], [])
  }

  ghost predicate ChildrenBuilt(f': FileDescriptor, f: FileDescriptor, p: FileProto, blocks: seq<Addr>) {
    && f' == f.(messages := f'.messages, enums := f'.enums, services := f'.services, extensions := f'.extensions)
    && MessagesBuilt(f'.messages, p.messages, p.Package(), blocks)
    && f'.enums == EnumsOf(p.enums, p.Package())
    && f'.services == ServicesOf(p.services, p.Package())
    && FieldsBuilt(f'.extensions, p.extensions, p.Package(), true, 0, blocks)
  }

  lemma ChildrenAssembled(f': FileDescriptor, f: FileDescriptor, p: FileProto, blocks: seq<Addr>)
    requires f' == f.(messages := f'.messages, enums := EnumsOf(p.enums, p.Package()),
                      services := ServicesOf(p.services, p.Package()), extensions := f'.extensions)
    requires MessagesBuilt(f'.messages, p.messages, p.Package(), blocks)
    requires FieldsBuilt(f'.extensions, p.extensions, p.Package(), true, 0, blocks)
    ensures ChildrenBuilt(f', f, p, blocks)
  {
  }

  ghost predicate ChildrenLinked(f': FileDescriptor, f: FileDescriptor, p: FileProto, failed: bool) {
    && |f'.messages| == |p.messages|
    && (forall i :: 0 <= i < |p.messages| ==> MessageLinked(f'.messages[i], p.messages[i], failed))
    && |f'.services| == |p.services|
    && (forall i :: 0 <= i < |p.services| ==> ServiceLinked(f'.services[i], p.services[i], failed))
    && FieldsLinked(f'.extensions, f.extensions, p.extensions, failed)
  }

  lemma FilePartsOk(p: FileProto)
    requires AllOk(FileElements(p))
    ensures AllOk(AllMessageElements(p.messages, p.Package()))
    ensures AllOk(FieldElements(p.extensions, p.Package(), true, 0))
  {
  }

  /** A canonical file that was built without errors is given back by CopyTo. */
  lemma FileCopiesBack(f: FileDescriptor, g: FileDescriptor, p: FileProto, memory: map<Addr, FileDescriptor>)
    requires Canonical(p) && ChildrenLinked(f, g, p, false)
    requires f.name == p.name && f.package == p.Package() && f.publicDependencies == p.publicDependencies
    requires f.enums == EnumsOf(p.enums, p.Package())
    requires |f.dependencies| == |p.dependencies|
    requires forall i :: 0 <= i < |p.dependencies| ==>
               f.dependencies[i].Some? && f.dependencies[i].value in memory
               && memory[f.dependencies[i].value].name == p.dependencies[i]
    ensures CopyFile(f, memory) == p
  {
    var c := CopyFile(f, memory);
    assert c.dependencies == p.dependencies;
    assert c.messages == p.messages by {
      forall i | 0 <= i < |p.messages| ensures CopyMessage(f.messages[i]) == p.messages[i] {
        assert p.messages[i] in p.messages;
        assert MessageLinked(f.messages[i], p.messages[i], false);
      }
    }
    EnumsCopyBack(p.enums, p.Package());
    ServicesCopyBack(f.services, p.services);
    FieldsCopyBack(f.extensions, g.extensions, p.extensions);
  }

  // ---------- what was found is written without NULs ----------

  predicate UseSpelled(u: Use) {
    u.name.Some? && NulFree(u.name.value)
  }

  lemma FieldSpelledBack(d: FieldDescriptor)
    requires forall u :: u in FieldUses(d) ==> UseSpelled(u)
    ensures FieldSpelled(CopyField(d))
  {
    assert d.isExtension ==> FieldUses(d)[0] == Use(d.containingType, Message) && FieldUses(d)[0] in FieldUses(d);
    forall u | u in TypeUses(d) ensures UseSpelled(u) {
      assert u in FieldUses(d);
    }
    match CppTypeOf(d.fieldType)
    case CppMessage => assert Use(d.messageType, Message) in TypeUses(d);
    case CppEnum => assert Use(d.enumType, Enum) in TypeUses(d);
    case _ =>
  }

  lemma FieldsSpelledBack(ds: seq<FieldDescriptor>)
    requires forall u :: FieldsUse(ds, u) ==> UseSpelled(u)
    ensures FieldsSpelled(CopyFields(ds))
  {
    forall i | 0 <= i < |ds| ensures FieldSpelled(CopyField(ds[i])) {
      forall u | u in FieldUses(ds[i]) ensures UseSpelled(u) {
        assert FieldsUse(ds, u);
      }
      FieldSpelledBack(ds[i]);
    }
  }

  lemma {:induction false} MessageSpelledBack(m: MessageDescriptor)
    requires forall u :: MessageUses(m, u) ==> UseSpelled(u)
    ensures MessageSpelled(CopyMessage(m))
    decreases m
  {
    FieldsSpelledBack(m.fields);
    FieldsSpelledBack(m.extensions);
    forall i | 0 <= i < |m.nested| ensures MessageSpelled(CopyMessage(m.nested[i])) {
      forall u | MessageUses(m.nested[i], u) ensures UseSpelled(u) {
        assert MessageUses(m, u);
      }
      MessageSpelledBack(m.nested[i]);
    }
  }

  lemma ServiceSpelledBack(s: ServiceDescriptor)
    requires forall u :: ServiceUses(s, u) ==> UseSpelled(u)
    ensures forall m :: m in CopyService(s).methods ==> MethodSpelled(m)
  {
    forall i | 0 <= i < |s.methods| ensures MethodSpelled(CopyMethod(s.methods[i])) {
      var us := MethodUses(s.methods[i]);
      assert us[0] in us && us[1] in us;
      assert ServiceUses(s, us[0]) && ServiceUses(s, us[1]);
    }
  }

  /** When no file refers to a name with a NUL, CopyTo writes none. */
  lemma FileSpelledBack(f: FileDescriptor, memory: map<Addr, FileDescriptor>)
    requires forall u :: FileUses(f, u) ==> UseSpelled(u)
    ensures Spelled(CopyFile(f, memory))
  {
    hide MessageUses, ServiceUses, FieldsUse, CopyMessage, CopyService, CopyFields, MessageSpelled;
    forall i | 0 <= i < |f.messages| ensures MessageSpelled(CopyMessage(f.messages[i])) {
      MessageSpelledBack(f.messages[i]);
    }
    forall i | 0 <= i < |f.services| ensures forall m :: m in CopyService(f.services[i]).methods ==> MethodSpelled(m) {
      ServiceSpelledBack(f.services[i]);
    }
    FieldsSpelledBack(f.extensions);
  }
}
