/**
 * LSLVectorComponent: the three components of an LSL vector, the printer
 * ToComponentName and the (case-sensitive) parser ParseComponentName.
 */
module VectorComponents {
  import opened Wrappers
  import Text
  import LslTypes

  datatype VectorComponent = X | Y | Z

  /** Enum.ToString(): the member's declared name. */
  function EnumName(c: VectorComponent): string {
    match c
    case X => "X"
    case Y => "Y"
    case Z => "Z"
  }

  /** LSLVectorComponentTools.ToComponentName: the member name in lower case. */
  function ToComponentName(c: VectorComponent): (r: string)
    ensures r == "x" || r == "y" || r == "z"
  {
    var r := Text.ToLower(EnumName(c));
    assert Text.ToLower("X") == "x" && Text.ToLower("Y") == "y" && Text.ToLower("Z") == "z";
    r
  }

  /** LSLVectorComponentTools.ParseComponentName; `None` is a null reference. */
  function ParseComponentName(name: Option<string>): (r: Result<VectorComponent, LslTypes.ArgumentError>)
    ensures (name.None? || name.value == "") ==> r == Failure(LslTypes.ArgumentNull("name"))
    ensures r.Success? <==> name.Some? && name.value in {"x", "y", "z"}
  {
    if name.None? || name.value == "" then Failure(LslTypes.ArgumentNull("name"))
    else
      match name.value
      case "x" => Success(X)
      case "y" => Success(Y)
      case "z" => Success(Z)
      case _ =>
        Failure(LslTypes.InvalidArgument(
          "Could not parse \"" + name.value + "\" into an LSLVectorComponent, invalid name", "name"))
  }

  /** Parsing a printed component name gives the component back. */
  lemma {:induction false} ComponentNameRoundTrip(c: VectorComponent)
    ensures ParseComponentName(Some(ToComponentName(c))) == Success(c)
  {
    assert Text.ToLower("X") == "x" && Text.ToLower("Y") == "y" && Text.ToLower("Z") == "z";
  }

  /** Distinct components print as distinct names. */
  lemma ComponentNameInjective(a: VectorComponent, b: VectorComponent)
    ensures ToComponentName(a) == ToComponentName(b) ==> a == b
  {
    ComponentNameRoundTrip(a);
    ComponentNameRoundTrip(b);
  }

  /** The parser does not fold case: upper-case names are rejected as invalid. */
  lemma UpperCaseRejected()
    ensures ParseComponentName(Some("X")).Failure?
    ensures ParseComponentName(Some("X")).error.InvalidArgument?
    ensures ParseComponentName(Some("Y")).Failure?
    ensures ParseComponentName(Some("Z")).Failure?
  {
  }
}
