/** FileDescriptorProto and its parts: the input of the descriptor builder. Options and source info are not part
    of this model; name, number and label are always present. */
module Protos {
  import opened Wrappers
  import opened Names

  datatype Label = OptionalLabel | RequiredLabel | RepeatedLabel

  datatype Type =
    | TypeDouble | TypeFloat | TypeInt64 | TypeUInt64 | TypeInt32 | TypeFixed64 | TypeFixed32 | TypeBool
    | TypeString | TypeGroup | TypeMessage | TypeBytes | TypeUInt32 | TypeEnum | TypeSFixed32 | TypeSFixed64
    | TypeSInt32 | TypeSInt64

  datatype CppType =
    | CppInt32 | CppInt64 | CppUInt32 | CppUInt64 | CppFloat | CppDouble | CppBool | CppEnum | CppString | CppMessage

  function CppTypeOf(t: Type): CppType {
    match t
    case TypeDouble => CppDouble
    case TypeFloat => CppFloat
    case TypeInt64 | TypeSFixed64 | TypeSInt64 => CppInt64
    case TypeUInt64 | TypeFixed64 => CppUInt64
    case TypeInt32 | TypeSFixed32 | TypeSInt32 => CppInt32
    case TypeFixed32 | TypeUInt32 => CppUInt32
    case TypeBool => CppBool
    case TypeString | TypeBytes => CppString
    case TypeGroup | TypeMessage => CppMessage
    case TypeEnum => CppEnum
  }

  datatype FieldProto = FieldProto(
    name: string,
    number: int,
    fieldLabel: Label,
    fieldType: Option<Type>,
    typeName: Option<string>,
    extendee: Option<string>,
    defaultValue: Option<string>,
    oneofIndex: Option<int>)

  datatype Range = Range(start: int, end: int)

  datatype EnumValueProto = EnumValueProto(name: string, number: int)

  datatype EnumProto = EnumProto(name: string, values: seq<EnumValueProto>)

  datatype MessageProto = MessageProto(
    name: string,
    oneofs: seq<string>,
    fields: seq<FieldProto>,
    nested: seq<MessageProto>,
    enums: seq<EnumProto>,
    ranges: seq<Range>,
    extensions: seq<FieldProto>)

  datatype MethodProto = MethodProto(name: string, inputType: string, outputType: string)

  datatype ServiceProto = ServiceProto(name: string, methods: seq<MethodProto>)

  datatype FileProto = FileProto(
    name: string,
    package: Option<string>,
    dependencies: seq<string>,
    publicDependencies: seq<int>,
    messages: seq<MessageProto>,
    enums: seq<EnumProto>,
    services: seq<ServiceProto>,
    extensions: seq<FieldProto>)
  {
    function Package(): string {
      package.GetOr("")
    }
  }
}
