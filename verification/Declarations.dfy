/** What a file declares: the symbols that building it registers, in the order in which the builder does, and
    the bookkeeping of registering them. */
module Declarations {
  import opened Wrappers
  import opened Names
  import opened Numbers
  import opened Protos
  import opened Descriptors

  /** A declaration: its full name, its own name, and whether its local checks pass. */
  datatype Element = Element(fullName: string, name: string, kind: Kind, facts: Facts, ok: bool)

  const MaxNumber := 0x1FFF_FFFF
  const FirstReservedNumber := 19000
  const LastReservedNumber := 19999

  // ---------- local checks ----------

  predicate NumberOk(number: int, isExtension: bool) {
    && number > 0
    && (isExtension || number <= MaxNumber)
    && !(FirstReservedNumber <= number <= LastReservedNumber)
  }

  /** Whether the text of a default can be read for the declared type; float and bytes texts are kept unread. */
  predicate DefaultOk(f: FieldProto) {
    f.fieldType.Some? && f.defaultValue.Some? ==>
      match CppTypeOf(f.fieldType.value)
      case CppInt32 | CppInt64 | CppUInt32 | CppUInt64 => ParseDefault(f.defaultValue.value).Number?
      case CppBool => f.defaultValue.value == "true" || f.defaultValue.value == "false"
      case CppMessage => false
      case _ => true
  }

  predicate FieldOk(f: FieldProto, isExtension: bool, oneofCount: nat) {
    && ValidName(f.name)
    && !(isExtension && f.fieldLabel == RequiredLabel)
    && !(f.defaultValue.Some? && f.fieldLabel == RepeatedLabel)
    && DefaultOk(f)
    && NumberOk(f.number, isExtension)
    && f.extendee.Some? == isExtension
    && (f.oneofIndex.Some? ==> !isExtension && 0 <= f.oneofIndex.value < oneofCount)
  }

  predicate RangeOk(r: Range) {
    0 < r.start < r.end
  }

  predicate Overlaps(r: Range, q: Range) {
    r.end > q.start && q.end > r.start
  }

  predicate MessageOk(m: MessageProto) {
    && ValidName(m.name)
    && (forall r :: r in m.ranges ==> RangeOk(r))
    && (forall f, r :: f in m.fields && r in m.ranges ==> !(r.start <= f.number < r.end))
    && (forall i, j :: 0 <= i < j < |m.ranges| ==> !Overlaps(m.ranges[i], m.ranges[j]))
  }

  predicate EnumOk(e: EnumProto) {
    ValidName(e.name) && |e.values| > 0
  }

  // ---------- checks after cross-linking ----------

  /** Without the allow_alias option no two values of an enum share a number. */
  predicate NumbersApart(e: EnumProto) {
    forall i, j :: 0 <= i < j < |e.values| ==> e.values[i].number != e.values[j].number
  }

  predicate MessageValid(m: MessageProto) {
    && (forall n :: n in m.nested ==> MessageValid(n))
    && (forall e :: e in m.enums ==> NumbersApart(e))
    && (forall r :: r in m.ranges ==> r.end <= MaxNumber + 1)
  }

  /** What ValidateFileOptions checks of a file that sets no options. */
  predicate FileValid(p: FileProto) {
    (forall m :: m in p.messages ==> MessageValid(m)) && (forall e :: e in p.enums ==> NumbersApart(e))
  }

  // ---------- the declarations of each part ----------

  function FieldElement(f: FieldProto, scope: string, isExtension: bool, oneofCount: nat): Element {
    Element(Qualify(scope, f.name), f.name, Field, NoFacts, FieldOk(f, isExtension, oneofCount))
  }

  function FieldElements(fs: seq<FieldProto>, scope: string, isExtension: bool, oneofCount: nat): seq<Element> {
    seq(|fs|, i requires 0 <= i < |fs| => FieldElement(fs[i], scope, isExtension, oneofCount))
  }

  function OneofElement(name: string, parent: string): Element {
    Element(parent + "." + name, name, Oneof, NoFacts, ValidName(name))
  }

  function OneofElements(names: seq<string>, parent: string): seq<Element> {
    seq(|names|, i requires 0 <= i < |names| => OneofElement(names[i], parent))
  }

  /** The full name of a value is made in the scope around its enum: the name of the enum is no part of it. */
  function ValueElement(v: EnumValueProto, scope: string, enumName: string): Element {
    Element(Qualify(scope, v.name), v.name, EnumValue, ValueFacts(enumName), ValidName(v.name))
  }

  function ValueElements(vs: seq<EnumValueProto>, scope: string, enumName: string): seq<Element> {
    seq(|vs|, i requires 0 <= i < |vs| => ValueElement(vs[i], scope, enumName))
  }

  function EnumFactsOf(e: EnumProto): Facts {
    EnumFacts(if e.values == [] then None else Some(e.values[0].name))
  }

  function EnumElements(e: EnumProto, scope: string): seq<Element> {
    var fullName := Qualify(scope, e.name);
    ValueElements(e.values, scope, fullName) + [Element(fullName, e.name, Enum, EnumFactsOf(e), EnumOk(e))]
  }

  function AllEnumElements(es: seq<EnumProto>, scope: string): seq<Element> {
    if es == [] then [] else AllEnumElements(es[..|es| - 1], scope) + EnumElements(es[|es| - 1], scope)
  }

  /** A message is registered after everything inside it. */
  function MessageElements(m: MessageProto, scope: string): seq<Element>
    decreases m, 1
  {
    var fullName := Qualify(scope, m.name);
    OneofElements(m.oneofs, fullName)
    + FieldElements(m.fields, fullName, false, |m.oneofs|)
    + AllMessageElements(m.nested, fullName)
    + AllEnumElements(m.enums, fullName)
    + FieldElements(m.extensions, fullName, true, 0)
    + [Element(fullName, m.name, Message, MessageFacts(m.ranges), MessageOk(m))]
  }

  function AllMessageElements(ms: seq<MessageProto>, scope: string): seq<Element>
    decreases ms, 0
  {
    if ms == [] then []
    else AllMessageElements(ms[..|ms| - 1], scope) + MessageElements(ms[|ms| - 1], scope)
  }

  function MethodElement(m: MethodProto, service: string): Element {
    Element(service + "." + m.name, m.name, Method, NoFacts, ValidName(m.name))
  }

  function ServiceElements(s: ServiceProto, scope: string): seq<Element> {
    var fullName := Qualify(scope, s.name);
    seq(|s.methods|, i requires 0 <= i < |s.methods| => MethodElement(s.methods[i], fullName))
    + [Element(fullName, s.name, Service, NoFacts, ValidName(s.name))]
  }

  function AllServiceElements(ss: seq<ServiceProto>, scope: string): seq<Element> {
    if ss == [] then [] else AllServiceElements(ss[..|ss| - 1], scope) + ServiceElements(ss[|ss| - 1], scope)
  }

  function FileElements(p: FileProto): seq<Element> {
    AllMessageElements(p.messages, p.Package())
    + AllEnumElements(p.enums, p.Package())
    + AllServiceElements(p.services, p.Package())
    + FieldElements(p.extensions, p.Package(), true, 0)
  }

  lemma FileElementsInOrder(p: FileProto)
    ensures FileElements(p)
         == AllMessageElements(p.messages, p.Package()) + AllEnumElements(p.enums, p.Package())
            + AllServiceElements(p.services, p.Package()) + FieldElements(p.extensions, p.Package(), true, 0)
  {
  }

  lemma NoElements(scope: string)
    ensures AllMessageElements([], scope) == [] && AllEnumElements([], scope) == []
            && AllServiceElements([], scope) == []
  {
  }

  lemma FieldElementsNext(fs: seq<FieldProto>, i: nat, scope: string, isExtension: bool, oneofCount: nat)
    requires i < |fs|
    ensures FieldElements(fs[..i + 1], scope, isExtension, oneofCount)
         == FieldElements(fs[..i], scope, isExtension, oneofCount)
            + [FieldElement(fs[i], scope, isExtension, oneofCount)]
  {
    hide FieldElement;
  }

  lemma OneofElementsNext(names: seq<string>, i: nat, parent: string)
    requires i < |names|
    ensures OneofElements(names[..i + 1], parent)
         == OneofElements(names[..i], parent) + [OneofElement(names[i], parent)]
  {
    hide OneofElement;
  }

  lemma ValueElementsNext(vs: seq<EnumValueProto>, i: nat, scope: string, enumName: string)
    requires i < |vs|
    ensures ValueElements(vs[..i + 1], scope, enumName)
         == ValueElements(vs[..i], scope, enumName) + [ValueElement(vs[i], scope, enumName)]
  {
    hide ValueElement;
  }

  lemma EnumElementsNext(es: seq<EnumProto>, i: nat, scope: string)
    requires i < |es|
    ensures AllEnumElements(es[..i + 1], scope) == AllEnumElements(es[..i], scope) + EnumElements(es[i], scope)
  {
    assert es[..i + 1][..i] == es[..i];
  }

  lemma MessageElementsNext(ms: seq<MessageProto>, i: nat, scope: string)
    requires i < |ms|
    ensures AllMessageElements(ms[..i + 1], scope) == AllMessageElements(ms[..i], scope) + MessageElements(ms[i], scope)
  {
    assert ms[..i + 1][..i] == ms[..i];
  }

  lemma ServiceElementsNext(ss: seq<ServiceProto>, i: nat, scope: string)
    requires i < |ss|
    ensures AllServiceElements(ss[..i + 1], scope) == AllServiceElements(ss[..i], scope) + ServiceElements(ss[i], scope)
  {
    assert ss[..i + 1][..i] == ss[..i];
  }

  // ---------- every declaration sits directly inside another or at the top ----------

  predicate AllOk(es: seq<Element>) {
    forall e :: e in es ==> e.ok
  }

  ghost predicate Sits(e: Element, es: seq<Element>, scope: string) {
    ValidName(e.name) &&
    (e.fullName == Qualify(scope, e.name)
     || exists p :: p in es && p.kind != Package && e.fullName == p.fullName + "." + e.name)
  }

  /** The full name begins with the scope, and adds no NUL to it. */
  ghost predicate Under(e: Element, scope: string) {
    scope <= e.fullName && (NulFree(scope) ==> NulFree(e.fullName))
  }

  ghost predicate Rooted(es: seq<Element>, scope: string) {
    forall e :: e in es ==> e.kind != Package && Sits(e, es, scope) && Under(e, scope)
  }

  lemma RootedConcat(a: seq<Element>, b: seq<Element>, scope: string)
    requires Rooted(a, scope) && Rooted(b, scope)
    ensures Rooted(a + b, scope)
  {
  }

  /** Declarations inside a message are rooted at the message, hence, with the message itself, at its scope. */
  lemma RootedInside(inner: seq<Element>, self: Element, scope: string)
    requires Rooted(inner, self.fullName) && self.fullName != "" && self.kind != Package
    requires ValidName(self.name) && self.fullName == Qualify(scope, self.name)
    ensures Rooted(inner + [self], scope)
  {
  }

  lemma EnumRooted(e: EnumProto, scope: string)
    requires AllOk(EnumElements(e, scope))
    ensures Rooted(EnumElements(e, scope), scope)
  {
  }

  lemma {:induction false} AllEnumRooted(es: seq<EnumProto>, scope: string)
    requires AllOk(AllEnumElements(es, scope))
    ensures Rooted(AllEnumElements(es, scope), scope)
  {
    if es != [] {
      AllEnumRooted(es[..|es| - 1], scope);
      EnumRooted(es[|es| - 1], scope);
      RootedConcat(AllEnumElements(es[..|es| - 1], scope), EnumElements(es[|es| - 1], scope), scope);
    }
  }

  lemma FieldsRooted(fs: seq<FieldProto>, scope: string, isExtension: bool, oneofCount: nat)
    requires AllOk(FieldElements(fs, scope, isExtension, oneofCount))
    ensures Rooted(FieldElements(fs, scope, isExtension, oneofCount), scope)
  {
  }

  lemma OneofsRooted(names: seq<string>, parent: string)
    requires AllOk(OneofElements(names, parent)) && parent != ""
    ensures Rooted(OneofElements(names, parent), parent)
  {
  }

  /** The declarations of the parts of a sound message are sound. */
  lemma MessagePartsOk(m: MessageProto, scope: string)
    requires AllOk(MessageElements(m, scope))
    ensures var fullName := Qualify(scope, m.name);
            && AllOk(OneofElements(m.oneofs, fullName))
            && AllOk(FieldElements(m.fields, fullName, false, |m.oneofs|))
            && AllOk(AllMessageElements(m.nested, fullName))
            && AllOk(AllEnumElements(m.enums, fullName))
            && AllOk(FieldElements(m.extensions, fullName, true, 0))
            && MessageOk(m)
  {
    var fullName := Qualify(scope, m.name);
    var self := Element(fullName, m.name, Message, MessageFacts(m.ranges), MessageOk(m));
    var all := MessageElements(m, scope);
    assert all[|all| - 1] == self && self in all;
    hide Qualify, OneofElements, FieldElements, AllMessageElements, AllEnumElements, MessageOk;
    assert forall x :: x in OneofElements(m.oneofs, fullName) ==> x in all;
    assert forall x :: x in FieldElements(m.fields, fullName, false, |m.oneofs|) ==> x in all;
    assert forall x :: x in AllMessageElements(m.nested, fullName) ==> x in all;
    assert forall x :: x in AllEnumElements(m.enums, fullName) ==> x in all;
    assert forall x :: x in FieldElements(m.extensions, fullName, true, 0) ==> x in all;
  }

  lemma {:induction false} MessageRooted(m: MessageProto, scope: string)
    requires AllOk(MessageElements(m, scope))
    ensures Rooted(MessageElements(m, scope), scope)
    decreases m, 1
  {
    var fullName := Qualify(scope, m.name);
    var self := Element(fullName, m.name, Message, MessageFacts(m.ranges), MessageOk(m));
    var a := OneofElements(m.oneofs, fullName);
    var b := FieldElements(m.fields, fullName, false, |m.oneofs|);
    var c := AllMessageElements(m.nested, fullName);
    var d := AllEnumElements(m.enums, fullName);
    var e := FieldElements(m.extensions, fullName, true, 0);
    MessagePartsOk(m, scope);
    OneofsRooted(m.oneofs, fullName);
    hide Rooted, AllOk, OneofElements, FieldElements, AllEnumElements, AllMessageElements;
    FieldsRooted(m.fields, fullName, false, |m.oneofs|);
    AllMessageRooted(m.nested, fullName);
    AllEnumRooted(m.enums, fullName);
    FieldsRooted(m.extensions, fullName, true, 0);
    RootedConcat(a, b, fullName);
    RootedConcat(a + b, c, fullName);
    RootedConcat(a + b + c, d, fullName);
    RootedConcat(a + b + c + d, e, fullName);
    RootedInside(a + b + c + d + e, self, scope);
    assert MessageElements(m, scope) == a + b + c + d + e + [self];
  }

  lemma {:induction false} AllMessageRooted(ms: seq<MessageProto>, scope: string)
    requires AllOk(AllMessageElements(ms, scope))
    ensures Rooted(AllMessageElements(ms, scope), scope)
    decreases ms, 0
  {
    if ms != [] {
      AllMessageRooted(ms[..|ms| - 1], scope);
      MessageRooted(ms[|ms| - 1], scope);
      RootedConcat(AllMessageElements(ms[..|ms| - 1], scope), MessageElements(ms[|ms| - 1], scope), scope);
    }
  }

  lemma {:induction false} AllServiceRooted(ss: seq<ServiceProto>, scope: string)
    requires AllOk(AllServiceElements(ss, scope))
    ensures Rooted(AllServiceElements(ss, scope), scope)
  {
    if ss != [] {
      var n := |ss| - 1;
      AllServiceRooted(ss[..n], scope);
      var es := ServiceElements(ss[n], scope);
      var self := es[|es| - 1];
      assert self in es && self.ok;
      forall x | x in es[..|es| - 1] ensures x.kind != Package && Sits(x, es[..|es| - 1], self.fullName) {
        assert x in es;
      }
      RootedInside(es[..|es| - 1], self, scope);
      assert es == es[..|es| - 1] + [self];
      RootedConcat(AllServiceElements(ss[..n], scope), es, scope);
    }
  }

  /** Every declaration of a file is directly inside the package or directly inside another declaration. */
  lemma FileRooted(p: FileProto)
    requires AllOk(FileElements(p))
    ensures Rooted(FileElements(p), p.Package())
  {
    var a := AllMessageElements(p.messages, p.Package());
    var b := AllEnumElements(p.enums, p.Package());
    var c := AllServiceElements(p.services, p.Package());
    var d := FieldElements(p.extensions, p.Package(), true, 0);
    forall x | x in a || x in b || x in c || x in d ensures x.ok { assert x in FileElements(p); }
    AllMessageRooted(p.messages, p.Package());
    AllEnumRooted(p.enums, p.Package());
    AllServiceRooted(p.services, p.Package());
    FieldsRooted(p.extensions, p.Package(), true, 0);
    RootedConcat(a, b, p.Package());
    RootedConcat(a + b, c, p.Package());
    RootedConcat(a + b + c, d, p.Package());
  }

  // ---------- registering declarations ----------

  /** What the symbol table says under a key; the full name may go on behind the key, with a NUL. */
  datatype Info = Info(kind: Kind, fullName: string, file: Addr, facts: Facts)

  /** The symbol table as a builder sees it, and its had_errors_ flag. */
  datatype Book = Book(symbols: map<string, Info>, failed: bool)

  function Register(b: Book, e: Element, file: Addr): Book {
    var k := CStr(e.fullName);
    if k in b.symbols then b.(failed := true)
    else Book(b.symbols[k := Info(e.kind, e.fullName, file, e.facts)], b.failed || !e.ok)
  }

  function RegisterAll(b: Book, es: seq<Element>, file: Addr): Book {
    if es == [] then b else Register(RegisterAll(b, es[..|es| - 1], file), es[|es| - 1], file)
  }

  lemma {:induction false} RegisterConcat(b: Book, es: seq<Element>, fs: seq<Element>, file: Addr)
    ensures RegisterAll(b, es + fs, file) == RegisterAll(RegisterAll(b, es, file), fs, file)
  {
    if fs == [] {
      assert es + fs == es;
    } else {
      assert (es + fs)[..|es + fs| - 1] == es + fs[..|fs| - 1];
      RegisterConcat(b, es, fs[..|fs| - 1], file);
    }
  }

  /** A registration that ends without errors added exactly its declarations, all new and all sound. */
  lemma {:induction false} RegisterAllContents(b: Book, es: seq<Element>, file: Addr)
    ensures forall k :: k in b.symbols ==>
              k in RegisterAll(b, es, file).symbols && RegisterAll(b, es, file).symbols[k] == b.symbols[k]
    ensures forall k :: k in RegisterAll(b, es, file).symbols && k !in b.symbols ==>
              RegisterAll(b, es, file).symbols[k].file == file
              && exists e :: e in es && CStr(e.fullName) == k && RegisterAll(b, es, file).symbols[k].kind == e.kind
                             && RegisterAll(b, es, file).symbols[k].fullName == e.fullName
    ensures b.failed ==> RegisterAll(b, es, file).failed
    ensures !RegisterAll(b, es, file).failed ==>
              AllOk(es) && forall e :: e in es ==>
                CStr(e.fullName) in RegisterAll(b, es, file).symbols && CStr(e.fullName) !in b.symbols
                && RegisterAll(b, es, file).symbols[CStr(e.fullName)] == Info(e.kind, e.fullName, file, e.facts)
  {
    hide CStr, Register;
    if es != [] {
      var n := |es| - 1;
      RegisterAllContents(b, es[..n], file);
      RegisterOne(RegisterAll(b, es[..n], file), es[n], file);
      assert es == es[..n] + [es[n]];
      var r := RegisterAll(b, es[..n], file);
      var r' := RegisterAll(b, es, file);
      forall k | k in r'.symbols && k !in b.symbols
        ensures r'.symbols[k].file == file
        ensures exists e :: e in es && CStr(e.fullName) == k && r'.symbols[k].kind == e.kind
                            && r'.symbols[k].fullName == e.fullName
      {
        if k !in r.symbols {
          assert es[n] in es && CStr(es[n].fullName) == k;
        } else {
          var e :| e in es[..n] && CStr(e.fullName) == k && r.symbols[k].kind == e.kind
                   && r.symbols[k].fullName == e.fullName;
          assert e in es;
        }
      }
    }
  }

  lemma RegisterOne(b: Book, e: Element, file: Addr)
    ensures var r, k := Register(b, e, file), CStr(e.fullName);
            && (forall q :: q in b.symbols ==> q in r.symbols && r.symbols[q] == b.symbols[q])
            && (forall q :: q in r.symbols ==> q in b.symbols || q == k)
            && k in r.symbols && (k !in b.symbols ==> r.symbols[k] == Info(e.kind, e.fullName, file, e.facts))
            && (!r.failed ==> !b.failed && e.ok && k !in b.symbols)
  {
    hide CStr;
  }

  /** AddPackage: registers a package and, on success, its parents; a name that is already a package stops it. */
  function RegisterPackage(b: Book, name: string, file: Addr): Book
    decreases |name|
  {
    var k := CStr(name);
    if k in b.symbols then
      b.(failed := b.failed || b.symbols[k].kind != Package)
    else
      var b' := b.(symbols := b.symbols[k := Info(Package, name, file, NoFacts)]);
      var d := LastDot(name);
      if d < 0 then b'.(failed := b.failed || !ValidName(name))
      else
        var r := RegisterPackage(b', name[..d], file);
        r.(failed := r.failed || !ValidName(name[d + 1..]))
  }

  /** The symbol table and error flag after registering the package of a file, if it has one. */
  function PackageBook(b: Book, p: FileProto, file: Addr): Book {
    if p.Package() == "" then b else RegisterPackage(b, p.Package(), file)
  }

  // ---------- the shape of a committed symbol table ----------

  ghost predicate ClosedAt(symbols: map<string, Info>, k: string)
    requires k in symbols
  {
    LastDot(k) >= 0 ==>
      && Parent(k) in symbols
      && (symbols[k].kind == Package ==> symbols[Parent(k)].kind == Package)
      && (symbols[Parent(k)].kind != Package ==> symbols[Parent(k)].file == symbols[k].file)
  }

  /** Every enclosing name of a symbol is a symbol, packages are inside packages only, and whatever is inside
      something else than a package belongs to the same file. */
  ghost predicate PrefixClosed(symbols: map<string, Info>) {
    forall k :: k in symbols ==> ClosedAt(symbols, k)
  }

  ghost predicate ClosedExcept(symbols: map<string, Info>, pending: Option<string>) {
    && (forall k :: k in symbols && Some(k) != pending ==> ClosedAt(symbols, k))
    && (pending.Some? ==> pending.value in symbols && symbols[pending.value].kind == Package)
  }

  function WithPackage(b: Book, name: string, file: Addr): Book {
    b.(symbols := b.symbols[CStr(name) := Info(Package, name, file, NoFacts)])
  }

  /** One call of AddPackage, up to its recursive call. */
  lemma RegisterPackageStep(b: Book, name: string, file: Addr)
    ensures var r, k := RegisterPackage(b, name, file), CStr(name);
            if k in b.symbols then
              r.symbols == b.symbols && (b.failed ==> r.failed) && (!r.failed ==> b.symbols[k].kind == Package)
            else if LastDot(name) < 0 then
              && r.symbols == WithPackage(b, name, file).symbols && (b.failed ==> r.failed)
              && (!r.failed ==> ValidName(name))
            else
              var up := RegisterPackage(WithPackage(b, name, file), Parent(name), file);
              && r.symbols == up.symbols && (up.failed ==> r.failed)
              && (!r.failed ==> ValidName(name[LastDot(name) + 1..]))
  {
    hide CStr;
  }

  lemma ClosedWithPackage(b: Book, name: string, file: Addr, pending: Option<string>)
    requires NulFree(name) && ClosedExcept(b.symbols, pending) && name !in b.symbols
    requires pending.Some? ==> LastDot(pending.value) >= 0 && Parent(pending.value) == name
    ensures ClosedExcept(WithPackage(b, name, file).symbols, Some(name))
    ensures LastDot(name) < 0 ==> PrefixClosed(WithPackage(b, name, file).symbols)
  {
    CStrCuts(name);
    hide CStr;
  }

  lemma ClosedAtStop(symbols: map<string, Info>, name: string, pending: Option<string>)
    requires ClosedExcept(symbols, pending) && name in symbols && symbols[name].kind == Package
    requires pending.Some? ==> LastDot(pending.value) >= 0 && Parent(pending.value) == name
    ensures PrefixClosed(symbols)
  {
  }

  /** The early stop in AddPackage is enough: a closed table stays closed. `pending` is the package that was
      registered one step before and whose parent is `name`. */
  lemma {:induction false} RegisterPackageClosed(b: Book, name: string, file: Addr, pending: Option<string>)
    requires NulFree(name) && ClosedExcept(b.symbols, pending)
    requires pending.Some? ==> LastDot(pending.value) >= 0 && Parent(pending.value) == name
    requires !RegisterPackage(b, name, file).failed
    ensures PrefixClosed(RegisterPackage(b, name, file).symbols)
    ensures name in RegisterPackage(b, name, file).symbols
    ensures RegisterPackage(b, name, file).symbols[name].kind == Package
    decreases |name|
  {
    hide RegisterPackage, ClosedExcept, PrefixClosed;
    RegisterPackageStep(b, name, file);
    CStrCuts(name);
    hide CStr;
    if name in b.symbols {
      ClosedAtStop(b.symbols, name, pending);
    } else {
      ClosedWithPackage(b, name, file, pending);
      if LastDot(name) >= 0 {
        RegisterPackageClosed(WithPackage(b, name, file), Parent(name), file, Some(name));
        RegisterPackageContents(WithPackage(b, name, file), Parent(name), file);
      }
    }
  }

  lemma {:induction false} RegisterPackageContents(b: Book, name: string, file: Addr)
    ensures b.failed ==> RegisterPackage(b, name, file).failed
    ensures forall k :: k in b.symbols ==>
              k in RegisterPackage(b, name, file).symbols && RegisterPackage(b, name, file).symbols[k] == b.symbols[k]
    ensures forall k :: k in RegisterPackage(b, name, file).symbols && k !in b.symbols ==>
              RegisterPackage(b, name, file).symbols[k].kind == Package
              && RegisterPackage(b, name, file).symbols[k].file == file
    decreases |name|
  {
    hide RegisterPackage, CStr;
    RegisterPackageStep(b, name, file);
    if CStr(name) !in b.symbols && LastDot(name) >= 0 {
      RegisterPackageContents(WithPackage(b, name, file), Parent(name), file);
    }
  }

  lemma RegisterPackageTop(b: Book, name: string, file: Addr)
    requires !RegisterPackage(b, name, file).failed
    ensures CStr(name) in RegisterPackage(b, name, file).symbols
    ensures RegisterPackage(b, name, file).symbols[CStr(name)].kind == Package
  {
    RegisterPackageStep(b, name, file);
    hide RegisterPackage, CStr;
    if CStr(name) !in b.symbols && LastDot(name) >= 0 {
      RegisterPackageContents(WithPackage(b, name, file), Parent(name), file);
    }
  }

  // ---------- packages with a NUL ----------

  /** A package whose front part up to a NUL is new and has a dot, while the package around that part is missing. */
  predicate Unanchored(symbols: map<string, Info>, name: string) {
    var k := CStr(name);
    && !NulFree(name) && k !in symbols && LastDot(k) >= 0
    && !(Parent(k) in symbols && symbols[Parent(k)].kind == Package)
  }

  /** A package name with a NUL is entered as its front part, and the parent finds that very entry and stops. */
  lemma RegisterCutPackage(b: Book, name: string, file: Addr)
    requires !NulFree(name) && CStr(name) !in b.symbols && !RegisterPackage(b, name, file).failed
    ensures RegisterPackage(b, name, file).symbols == WithPackage(b, name, file).symbols
  {
    hide CStr, LastDot, RegisterPackage;
    RegisterPackageStep(b, name, file);
    if LastDot(name) < 0 {
      ValidNameDotFree(name);
    } else {
      CutParent(name);
      RegisterPackageStep(WithPackage(b, name, file), Parent(name), file);
    }
  }

  lemma CutParent(name: string)
    requires !NulFree(name) && LastDot(name) >= 0 && ValidName(name[LastDot(name) + 1..])
    ensures CStr(Parent(name)) == CStr(name)
  {
    var d := LastDot(name);
    ValidNameDotFree(name[d + 1..]);
    hide CStr, LastDot;
    assert name == name[..d] + ("." + name[d + 1..]);
    CStrAppend(name[..d], "." + name[d + 1..]);
  }

  lemma ClosedWithOne(b: Book, k: string, i: Info)
    requires PrefixClosed(b.symbols) && k !in b.symbols && i.kind == Package
    ensures PrefixClosed(b.symbols[k := i])
            <==> (LastDot(k) >= 0 ==> Parent(k) in b.symbols && b.symbols[Parent(k)].kind == Package)
  {
    var symbols := b.symbols[k := i];
    assert LastDot(k) >= 0 ==> |Parent(k)| < |k|;
    assert ClosedAt(symbols, k) <==>
             (LastDot(k) >= 0 ==> Parent(k) in b.symbols && b.symbols[Parent(k)].kind == Package);
    forall q | q in b.symbols ensures ClosedAt(symbols, q) {
      assert ClosedAt(b.symbols, q);
    }
  }

  /** Registering a package keeps a closed table closed exactly when the package is anchored. */
  lemma PackageClosedExactly(b: Book, name: string, file: Addr)
    requires PrefixClosed(b.symbols) && !RegisterPackage(b, name, file).failed
    ensures PrefixClosed(RegisterPackage(b, name, file).symbols) <==> !Unanchored(b.symbols, name)
  {
    RegisterPackageStep(b, name, file);
    hide RegisterPackage;
    if NulFree(name) {
      RegisterPackageClosed(b, name, file, None);
    } else if CStr(name) !in b.symbols {
      RegisterCutPackage(b, name, file);
      ClosedWithOne(b, CStr(name), Info(Package, name, file, NoFacts));
    }
  }

  /** A package "a.b", a NUL and "c.d" are accepted, whatever "a" is: only "a.b" is entered. */
  lemma PackageSkipsParent(b: Book, file: Addr)
    requires !b.failed && "a.b" !in b.symbols
    ensures var name := "a.b" + "\0" + "c.d";
            RegisterPackage(b, name, file) == Book(b.symbols["a.b" := Info(Package, name, file, NoFacts)], false)
  {
    var front, name := "a.b", "a.b" + "\0" + "c.d";
    var parent := "a.b" + "\0" + "c";
    CStrPrefix(name, front);
    CStrPrefix(parent, front);
    hide CStr;
    assert LastDot(parent + "." + "d") == |parent| && parent + "." + "d" == name by {
      LastDotOfAppend(parent, "d");
    }
    assert name[..|parent|] == parent && name[|parent| + 1..] == "d";
    assert RegisterPackage(WithPackage(b, name, file), parent, file) == WithPackage(b, name, file);
  }

  /** So "a.b" may be left without "a", or become a package below a message "a" of another file. */
  lemma PackageLosesParent(file: Addr, other: Addr)
    ensures var name := "a.b" + "\0" + "c.d";
            var alone := RegisterPackage(Book(map[], false), name, file);
            !alone.failed && "a.b" in alone.symbols && "a" !in alone.symbols && !PrefixClosed(alone.symbols)
    ensures var name := "a.b" + "\0" + "c.d";
            var below := RegisterPackage(Book(map["a" := Info(Message, "a", other, NoFacts)], false), name, file);
            !below.failed && "a.b" in below.symbols && !PrefixClosed(below.symbols)
  {
    var name := "a.b" + "\0" + "c.d";
    var a, b := Book(map[], false), Book(map["a" := Info(Message, "a", other, NoFacts)], false);
    PackageSkipsParent(a, file);
    PackageSkipsParent(b, file);
    hide RegisterPackage;
    LastDotOfAppend("a", "b");
    assert "a" + "." + "b" == "a.b";
    assert !ClosedAt(RegisterPackage(a, name, file).symbols, "a.b");
    assert !ClosedAt(RegisterPackage(b, name, file).symbols, "a.b");
  }

  /** A package with a NUL is entered as its front part, and so would be everything declared in it. */
  lemma NothingInCutPackage(b: Book, p: FileProto, file: Addr)
    requires !NulFree(p.Package()) && CStr(p.Package()) in b.symbols
    requires !RegisterAll(b, FileElements(p), file).failed
    ensures FileElements(p) == []
  {
    hide FileElements, RegisterAll;
    var es := FileElements(p);
    RegisterAllContents(b, es, file);
    FileRooted(p);
    if es != [] {
      var e := es[0];
      assert e in es && Under(e, p.Package());
      var rest := e.fullName[|p.Package()|..];
      assert e.fullName == p.Package() + rest;
      CStrAppend(p.Package(), rest);
      assert false;
    }
  }

  /** Every full name that is declared without errors, in a package that is entered, is free of NULs. */
  lemma DeclaredNulFree(b: Book, p: FileProto, file: Addr)
    requires p.Package() != "" ==> CStr(p.Package()) in b.symbols
    requires !RegisterAll(b, FileElements(p), file).failed
    ensures forall e :: e in FileElements(p) ==> NulFree(e.fullName)
  {
    hide FileElements, RegisterAll, CStr;
    RegisterAllContents(b, FileElements(p), file);
    FileRooted(p);
    CStrCuts(p.Package());
    if !NulFree(p.Package()) {
      NothingInCutPackage(b, p, file);
    } else {
      forall e | e in FileElements(p) ensures NulFree(e.fullName) {
        assert Under(e, p.Package());
      }
    }
  }

  /** The keys of all symbols but packages are their full names. */
  ghost predicate WholeNames(symbols: map<string, Info>) {
    forall k :: k in symbols && symbols[k].kind != Package ==> symbols[k].fullName == k
  }

  /** Registering a file without errors cuts no full name. */
  lemma RegisterFileWhole(b: Book, p: FileProto, file: Addr)
    requires WholeNames(b.symbols) && (p.Package() != "" ==> CStr(p.Package()) in b.symbols)
    requires !RegisterAll(b, FileElements(p), file).failed
    ensures WholeNames(RegisterAll(b, FileElements(p), file).symbols)
  {
    hide FileElements, RegisterAll;
    var r := RegisterAll(b, FileElements(p), file);
    RegisterAllContents(b, FileElements(p), file);
    DeclaredNulFree(b, p, file);
    forall k | k in r.symbols && k !in b.symbols ensures r.symbols[k].fullName == k {
      var e :| e in FileElements(p) && CStr(e.fullName) == k && r.symbols[k].fullName == e.fullName;
      CStrCuts(e.fullName);
    }
  }

  /** Registering a file without errors keeps the table closed. */
  lemma RegisterFileClosed(b: Book, p: FileProto, file: Addr)
    requires PrefixClosed(b.symbols)
    requires p.Package() != "" ==> CStr(p.Package()) in b.symbols && b.symbols[CStr(p.Package())].kind == Package
    requires !RegisterAll(b, FileElements(p), file).failed
    ensures PrefixClosed(RegisterAll(b, FileElements(p), file).symbols)
  {
    var es := FileElements(p);
    if !NulFree(p.Package()) {
      NothingInCutPackage(b, p, file);
    } else {
      CStrCuts(p.Package());
      RegisterElementsClosed(b, p, file);
    }
  }

  lemma RegisterElementsClosed(b: Book, p: FileProto, file: Addr)
    requires PrefixClosed(b.symbols) && NulFree(p.Package())
    requires p.Package() != "" ==> p.Package() in b.symbols && b.symbols[p.Package()].kind == Package
    requires !RegisterAll(b, FileElements(p), file).failed
    ensures PrefixClosed(RegisterAll(b, FileElements(p), file).symbols)
  {
    var es := FileElements(p);
    var r := RegisterAll(b, es, file);
    RegisterAllContents(b, es, file);
    FileRooted(p);
    hide CStr, FileElements, RegisterAll;
    forall e | e in es ensures CStr(e.fullName) == e.fullName {
      assert Under(e, p.Package());
      CStrCuts(e.fullName);
    }
    forall k | k in r.symbols ensures ClosedAt(r.symbols, k) {
      if k in b.symbols {
        assert ClosedAt(b.symbols, k);
      } else {
        var e :| e in es && CStr(e.fullName) == k && r.symbols[k].kind == e.kind;
        assert Sits(e, es, p.Package());
        ValidNameDotFree(e.name);
        QualifyParent(p.Package(), e.name);
        if e.fullName != Qualify(p.Package(), e.name) {
          var q :| q in es && q.kind != Package && e.fullName == q.fullName + "." + e.name;
          LastDotOfAppend(q.fullName, e.name);
        }
      }
    }
  }

  ghost predicate Inside(k: string, p: string) {
    |p| < |k| && k[..|p|] == p && k[|p|] == '.'
  }

  /** Everything below a symbol that is not a package belongs to the file of that symbol, at any depth; and
      everything above a package is a package. */
  lemma {:induction false} InsideSameFile(symbols: map<string, Info>, k: string, p: string)
    requires PrefixClosed(symbols) && k in symbols && Inside(k, p)
    ensures p in symbols
    ensures symbols[p].kind != Package ==> symbols[k].file == symbols[p].file && symbols[k].kind != Package
    decreases |k|
  {
    var d := LastDot(k);
    assert d >= |p|;
    assert ClosedAt(symbols, k);
    if d > |p| {
      assert Inside(Parent(k), p);
      InsideSameFile(symbols, Parent(k), p);
    }
  }
}
