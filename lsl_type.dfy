/**
 * The eight basic LSL types (LSLType) with their underlying enum values, the parser
 * FromLSLTypeName and the printer ToLSLTypeName.
 */
module LslTypes {
  import opened Wrappers
  import Text

  datatype LslType = Void | Rotation | Vector | List | Float | String | Integer | Key

  /** The argument exceptions the conversions raise. */
  datatype ArgumentError =
    | ArgumentNull(paramName: string)
    | InvalidArgument(message: string, paramName: string)
    | ArgumentOutOfRange(paramName: string)

  /** The integer value each enum member is declared with. */
  function EnumValue(t: LslType): int {
    match t
    case Key => 7
    case Integer => 6
    case String => 5
    case Float => 4
    case List => 3
    case Vector => 2
    case Rotation => 1
    case Void => 0
  }

  /** Enum.ToString(): the member's declared name. */
  function EnumName(t: LslType): string {
    match t
    case Key => "Key"
    case Integer => "Integer"
    case String => "String"
    case Float => "Float"
    case List => "List"
    case Vector => "Vector"
    case Rotation => "Rotation"
    case Void => "Void"
  }

  /** Enum.TryParse over member names (case-sensitive). */
  function EnumTryParse(s: string): (r: Option<LslType>)
    ensures r.Some? ==> EnumName(r.value) == s
  {
    match s
    case "Key" => Some(Key)
    case "Integer" => Some(Integer)
    case "String" => Some(String)
    case "Float" => Some(Float)
    case "List" => Some(List)
    case "Vector" => Some(Vector)
    case "Rotation" => Some(Rotation)
    case "Void" => Some(Void)
    case _ => None
  }

  /** Enum.TryParse reads Enum.ToString() back. */
  lemma EnumNameRoundTrip(t: LslType)
    ensures EnumTryParse(EnumName(t)) == Some(t)
  {
  }

  /** The type names FromLSLTypeName accepts once its input is lower-cased. */
  predicate IsTypeNameLower(s: string) {
    s in {"integer", "float", "string", "key", "vector", "quaternion", "rotation", "list"}
  }

  /** LSLTypeTools.FromLSLTypeName; `None` is a null reference. */
  function FromLslTypeName(typeName: Option<string>): (r: Result<LslType, ArgumentError>)
    ensures (typeName.None? || typeName.value == "") ==> r == Failure(ArgumentNull("typeName"))
    ensures r.Success? ==> r.value != Void
    ensures r.Success? <==> typeName.Some? && IsTypeNameLower(Text.ToLower(typeName.value))
  {
    if typeName.None? || typeName.value == "" then Failure(ArgumentNull("typeName"))
    else
      match Text.ToLower(typeName.value)
      case "integer" => Success(Integer)
      case "float" => Success(Float)
      case "string" => Success(String)
      case "key" => Success(Key)
      case "vector" => Success(Vector)
      case "quaternion" => Success(Rotation)
      case "rotation" => Success(Rotation)
      case "list" => Success(List)
      case _ =>
        Failure(InvalidArgument("\"" + typeName.value + "\" is not a valid LSL type name", "typeName"))
  }

  /** LSLTypeTools.ToLSLTypeName. */
  function ToLslTypeName(t: LslType): (r: Result<string, ArgumentError>)
    ensures t == Void <==> r.Failure?
  {
    if t == Void then Failure(InvalidArgument("Cannot convert LSLType.Void to a valid LSL type string", "type"))
    else Success(Text.ToLower(EnumName(t)))
  }

  /** The enum values are 0..7, pairwise distinct, and Void is 0. */
  lemma EnumValuesDistinct(a: LslType, b: LslType)
    ensures 0 <= EnumValue(a) <= 7
    ensures EnumValue(a) == EnumValue(b) <==> a == b
    ensures EnumValue(a) == 0 <==> a == Void
  {
  }

  /** Every type but Void prints as its lower-cased member name. */
  lemma {:induction false} ToLslTypeNameValues()
    ensures ToLslTypeName(Key) == Success("key")
    ensures ToLslTypeName(Integer) == Success("integer")
    ensures ToLslTypeName(String) == Success("string")
    ensures ToLslTypeName(Float) == Success("float")
    ensures ToLslTypeName(List) == Success("list")
    ensures ToLslTypeName(Vector) == Success("vector")
    ensures ToLslTypeName(Rotation) == Success("rotation")
  {
    assert Text.ToLower("Key") == "key";
    assert Text.ToLower("Integer") == "integer";
    assert Text.ToLower("String") == "string";
    assert Text.ToLower("Float") == "float";
    assert Text.ToLower("List") == "list";
    assert Text.ToLower("Vector") == "vector";
    assert Text.ToLower("Rotation") == "rotation";
  }

  /** Parsing a printed type name gives the type back. */
  lemma {:induction false} TypeNameRoundTrip(t: LslType)
    requires t != Void
    ensures ToLslTypeName(t).Success?
    ensures FromLslTypeName(Some(ToLslTypeName(t).value)) == Success(t)
  {
    ToLslTypeNameValues();
    var name := ToLslTypeName(t).value;
    assert Text.ToLower(name) == name by {
      Text.ToLowerIdempotent(EnumName(t));
    }
  }

  /** Name matching ignores case: a name parses exactly as its lower-case form does. */
  lemma CaseInsensitive(name: string)
    requires name != ""
    ensures FromLslTypeName(Some(name)).Success? == FromLslTypeName(Some(Text.ToLower(name))).Success?
    ensures FromLslTypeName(Some(name)).Success? ==>
              FromLslTypeName(Some(name)).value == FromLslTypeName(Some(Text.ToLower(name))).value
  {
    Text.ToLowerIdempotent(name);
  }

  /** "quaternion" is an alias of "rotation", and "void" is not a type name. */
  lemma RotationAliases()
    ensures FromLslTypeName(Some("quaternion")) == Success(Rotation)
    ensures FromLslTypeName(Some("rotation")) == Success(Rotation)
    ensures FromLslTypeName(Some("void")).Failure?
    ensures FromLslTypeName(Some("void")).error.InvalidArgument?
  {
    assert Text.ToLower("quaternion") == "quaternion";
    assert Text.ToLower("rotation") == "rotation";
    assert Text.ToLower("void") == "void";
  }
}
