/** The descriptors that a build produces, the symbols that point at them, and CopyTo.
    A descriptor is a value kept in the memory cell of its file; pointers to other descriptors are addresses
    (Ptr) or, for types, the full name that the pointed-to descriptor carries. */
module Descriptors {
  import opened Wrappers
  import opened Names
  import opened Numbers
  import opened Protos

  type Addr = nat

  /** An element of an array that Tables allocated. */
  datatype Ptr = Ptr(block: Addr, index: nat)

  // ---------- symbols ----------

  datatype Kind = Message | Field | Oneof | Enum | EnumValue | Service | Method | Package

  /** What cross-linking reads through a symbol: extension ranges, the first enum value, the enum of a value. */
  datatype Facts =
    | MessageFacts(ranges: seq<Range>)
    | EnumFacts(first: Option<string>)
    | ValueFacts(enumName: string)
    | NoFacts

  datatype Symbol = Symbol(kind: Kind, fullName: string, descriptor: Ptr, file: Addr, facts: Facts) {
    predicate IsType() {
      kind == Message || kind == Enum
    }

    predicate IsAggregate() {
      kind == Message || kind == Package || kind == Enum || kind == Service
    }
  }

  // ---------- descriptors ----------

  datatype Default =
    | NoDefault
    | IntDefault(int_: int)
    | BoolDefault(bool_: bool)
    | TextDefault(text: string)
    | EnumDefault(valueName: string)
    | EnumUnresolved

  datatype FieldDescriptor = FieldDescriptor(
    self: Ptr,
    name: string,
    fullName: string,
    number: int,
    fieldLabel: Label,
    fieldType: Type,
    isExtension: bool,
    hasDefault: bool,
    default: Default,
    containingOneof: Option<nat>,
    indexInOneof: nat,
    containingType: Option<string>,
    messageType: Option<string>,
    enumType: Option<string>)

  datatype OneofDescriptor = OneofDescriptor(name: string, fullName: string, fieldCount: nat, fields: seq<nat>)

  datatype EnumValueDescriptor = EnumValueDescriptor(name: string, fullName: string, number: int)

  datatype EnumDescriptor = EnumDescriptor(name: string, fullName: string, values: seq<EnumValueDescriptor>)

  datatype MessageDescriptor = MessageDescriptor(
    name: string,
    fullName: string,
    oneofs: seq<OneofDescriptor>,
    fields: seq<FieldDescriptor>,
    nested: seq<MessageDescriptor>,
    enums: seq<EnumDescriptor>,
    ranges: seq<Range>,
    extensions: seq<FieldDescriptor>)

  datatype MethodDescriptor = MethodDescriptor(
    name: string, fullName: string, inputType: Option<string>, outputType: Option<string>)

  datatype ServiceDescriptor = ServiceDescriptor(name: string, fullName: string, methods: seq<MethodDescriptor>)

  datatype FileDescriptor = FileDescriptor(
    name: string,
    package: string,
    dependencies: seq<Option<Addr>>,
    publicDependencies: seq<nat>,
    messages: seq<MessageDescriptor>,
    enums: seq<EnumDescriptor>,
    services: seq<ServiceDescriptor>,
    extensions: seq<FieldDescriptor>)

  // ---------- CopyTo ----------

  /** DefaultValueAsString(false). */
  function DefaultText(d: Default): string {
    match d
    case IntDefault(v) => Itoa(v)
    case BoolDefault(b) => if b then "true" else "false"
    case TextDefault(t) => t
    case EnumDefault(v) => v
    case _ => ""
  }

  function Dotted(fullName: Option<string>): string {
    "." + fullName.GetOr("")
  }

  function CopyField(f: FieldDescriptor): FieldProto {
    FieldProto(
      f.name, f.number, f.fieldLabel, Some(f.fieldType),
      (match CppTypeOf(f.fieldType)
       case CppMessage => Some(Dotted(f.messageType))
       case CppEnum => Some(Dotted(f.enumType))
       case _ => None),
      if f.isExtension then Some(Dotted(f.containingType)) else None,
      if f.hasDefault then Some(DefaultText(f.default)) else None,
      if f.containingOneof.Some? && !f.isExtension then Some(f.containingOneof.value) else None)
  }

  function CopyFields(fs: seq<FieldDescriptor>): seq<FieldProto> {
    seq(|fs|, i requires 0 <= i < |fs| => CopyField(fs[i]))
  }

  function CopyEnum(e: EnumDescriptor): EnumProto {
    EnumProto(e.name, seq(|e.values|, i requires 0 <= i < |e.values| =>
                EnumValueProto(e.values[i].name, e.values[i].number)))
  }

  function CopyEnums(es: seq<EnumDescriptor>): seq<EnumProto> {
    seq(|es|, i requires 0 <= i < |es| => CopyEnum(es[i]))
  }

  function CopyMessage(m: MessageDescriptor): MessageProto {
    MessageProto(
      m.name,
      seq(|m.oneofs|, i requires 0 <= i < |m.oneofs| => m.oneofs[i].name),
      CopyFields(m.fields),
      seq(|m.nested|, i requires 0 <= i < |m.nested| => CopyMessage(m.nested[i])),
      CopyEnums(m.enums),
      m.ranges,
      CopyFields(m.extensions))
  }

  function CopyMethod(m: MethodDescriptor): MethodProto {
    MethodProto(m.name, Dotted(m.inputType), Dotted(m.outputType))
  }

  function CopyService(s: ServiceDescriptor): ServiceProto {
    ServiceProto(s.name, seq(|s.methods|, i requires 0 <= i < |s.methods| => CopyMethod(s.methods[i])))
  }

  /** FileDescriptor::CopyTo; a dependency is written by the name of the file it points to. */
  function CopyFile(f: FileDescriptor, memory: map<Addr, FileDescriptor>): FileProto {
    FileProto(
      f.name,
      if f.package == "" then None else Some(f.package),
      seq(|f.dependencies|, i requires 0 <= i < |f.dependencies| =>
        if f.dependencies[i].Some? && f.dependencies[i].value in memory
        then memory[f.dependencies[i].value].name else ""),
      f.publicDependencies,
      seq(|f.messages|, i requires 0 <= i < |f.messages| => CopyMessage(f.messages[i])),
      CopyEnums(f.enums),
      seq(|f.services|, i requires 0 <= i < |f.services| => CopyService(f.services[i])),
      CopyFields(f.extensions))
  }
}
