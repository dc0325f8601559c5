/**
 * LSLLibraryFunctionSignature: a library function's name, return type, subsets, parameter
 * list, documentation and property bag, as read from and written to its XML element. The
 * XML document is abstracted to the sequence of the element's attributes and the sequence
 * of its child nodes; the reading rules are stated as pure functions, and ReadXml is the
 * loop over those sequences proved to compute them.
 */
module FunctionSignatures {
  import opened Wrappers
  import Text
  import opened LslTypes
  import PropertyBags

  /** An attribute of the LibraryFunction element. */
  datatype Attribute = Attribute(name: string, value: string)

  /** A child node of the LibraryFunction element; absent attributes are `None`. */
  datatype Element =
    | ParameterElement(paramName: Option<string>, paramType: Option<string>, variadic: Option<string>)
    | DocumentationElement(content: string)
    | PropertyElement(propName: Option<string>, propValue: Option<string>)
    | SignatureEnd   // the closing LibraryFunction tag
    | OtherNode

  /** LSLParameter: a type, a name and whether it is the variadic parameter. */
  datatype Parameter = Parameter(paramType: LslType, name: string, variadic: bool)

  /** The exceptions reading raises. */
  datatype SignatureError =
    | XmlSyntax(message: string)          // LSLLibraryDataXmlSyntaxException
    | InvalidFunctionName(name: string)   // raised by the base class's Name setter
    | InvalidParameterName(name: string)  // raised by the LSLParameter constructor
    | InvalidSubsets(subsets: string)     // raised by LSLLibraryDataSubsetCollection.SetSubsets

  /** The signature's state as ReadXml leaves it. */
  datatype SignatureData = SignatureData(
    name: string, returnType: LslType, subsets: string,
    parameters: seq<Parameter>, documentation: string, properties: PropertyBags.Properties)

  // ------------------------------------------------------------ Attributes

  /** The attribute loop's state: the signature fields it sets and the three has* flags. */
  datatype HeaderState = HeaderState(
    name: string, returnType: LslType, subsets: string,
    hasName: bool, hasReturnType: bool, hasSubsets: bool)

  /** The " 'Name'" the error messages show once the name is known. */
  function NamePart(h: HeaderState): string {
    if h.hasName then " '" + h.name + "'" else ""
  }

  /**
   * One iteration of the attribute loop. `nameValid` stands for the base class's Name
   * setter and `subsetsValid` for SetSubsets; an attribute other than Subsets, ReturnType
   * and Name is refused.
   */
  function ReadAttribute(h: HeaderState, a: Attribute, nameValid: string -> bool, subsetsValid: string -> bool)
    : (r: Result<HeaderState, SignatureError>)
    ensures a.name !in {"Subsets", "ReturnType", "Name"} ==> r.Failure? && r.error.XmlSyntax?
    ensures r.Success? && a.name == "Name" ==> r.value == h.(name := a.value, hasName := true)
    ensures r.Success? && a.name == "Subsets" ==> r.value == h.(subsets := a.value, hasSubsets := true)
    ensures r.Success? && a.name == "ReturnType" ==>
              EnumTryParse(a.value).Some? && r.value == h.(returnType := EnumTryParse(a.value).value, hasReturnType := true)
  {
    if a.name == "Subsets" then
      if subsetsValid(a.value) then Success(h.(subsets := a.value, hasSubsets := true))
      else Failure(InvalidSubsets(a.value))
    else if a.name == "ReturnType" then
      match EnumTryParse(a.value)
      case Some(t) => Success(h.(returnType := t, hasReturnType := true))
      case None =>
        Failure(XmlSyntax("LibraryFunction" + NamePart(h) + ": ReturnType attribute Value '" + a.value + "' invalid."))
    else if a.name == "Name" then
      if nameValid(a.value) then Success(h.(name := a.value, hasName := true))
      else Failure(InvalidFunctionName(a.value))
    else
      Failure(XmlSyntax("LibraryFunction" + NamePart(h) + ": Unknown attribute '" + a.name + "'."))
  }

  /** The attribute loop: each attribute in turn, stopping at the first that raises. */
  function ReadAttributes(h: HeaderState, attrs: seq<Attribute>, nameValid: string -> bool, subsetsValid: string -> bool)
    : Result<HeaderState, SignatureError>
    decreases |attrs|
  {
    if attrs == [] then Success(h)
    else
      match ReadAttribute(h, attrs[0], nameValid, subsetsValid)
      case Failure(e) => Failure(e)
      case Success(h') => ReadAttributes(h', attrs[1..], nameValid, subsetsValid)
  }

  /** The checks after the attribute loop, in the order the source makes them. */
  function CheckHeader(h: HeaderState): (r: Option<SignatureError>)
    ensures r.None? <==> h.hasName && h.hasReturnType && h.hasSubsets
  {
    if !h.hasName then Some(XmlSyntax("LibraryFunction: Missing Name attribute."))
    else if !h.hasReturnType then Some(XmlSyntax("LibraryFunction '" + h.name + "': Missing ReturnType attribute."))
    else if !h.hasSubsets then Some(XmlSyntax("LibraryFunction '" + h.name + "': Missing Subsets attribute."))
    else None
  }

  // -------------------------------------------------------------- Elements

  /** The element loop's state: the parameter list, the set of names used, the variadic flag, and the other fields. */
  datatype BodyState = BodyState(
    parameters: seq<Parameter>, parameterNames: set<string>, isVariadic: bool,
    documentation: string, properties: PropertyBags.Properties)

  function ParameterPrefix(functionName: string): string {
    "LibraryFunction '" + functionName + "': "
  }

  /** The Variadic attribute: absent or blank means false; otherwise "true" or "false" in any letter case. */
  function ParseVariadic(v: Option<string>): (r: Option<bool>)
    ensures Text.IsNullOrWhiteSpace(v) ==> r == Some(false)
    ensures !Text.IsNullOrWhiteSpace(v) ==>
              (r == Some(true) <==> Text.ToLower(v.value) == "true")
              && (r == Some(false) <==> Text.ToLower(v.value) == "false")
  {
    if Text.IsNullOrWhiteSpace(v) then Some(false)
    else if Text.ToLower(v.value) == "true" then Some(true)
    else if Text.ToLower(v.value) == "false" then Some(false)
    else None
  }

  /** The ways a Parameter or Property element is refused, each with its own message. */
  datatype ElementFault =
    | MoreThanOneVariadic | BlankParameterName | InvalidParameterType(pName: string)
    | DuplicateParameterName(pName: string) | InvalidVariadic(pName: string) | VoidParameter
    | BlankPropertyName | BlankPropertyValue | DuplicatePropertyName(propName: string)

  /** The exception ReadXml raises for an element fault, prefixed with the function's name. */
  function ElementError(functionName: string, f: ElementFault): SignatureError {
    var prefix := ParameterPrefix(functionName);
    match f
    case MoreThanOneVariadic => XmlSyntax(prefix + "More than one variadic parameter was defined.")
    case BlankParameterName => XmlSyntax(prefix + "Parameter Name attribute invalid, cannot be empty or whitespace.")
    case InvalidParameterType(pName) => XmlSyntax(prefix + "Parameter named '" + pName + "' has an invalid Type attribute.")
    case DuplicateParameterName(pName) => XmlSyntax(prefix + "Parameter Name '" + pName + "' already used.")
    case InvalidVariadic(pName) => XmlSyntax(prefix + "Variadic attribute in parameter #" + pName + " of Function '"
                            + functionName + "' must equal True or False (Case Insensitive).")
    case VoidParameter => XmlSyntax(prefix + "Parameter Type invalid, function parameters cannot be Void unless they are declared variadic.")
    case BlankPropertyName => XmlSyntax(prefix + "Property element's Name attribute cannot be empty.")
    case BlankPropertyValue => XmlSyntax(prefix + "Property element's Value attribute cannot be empty.")
    case DuplicatePropertyName(propName) => XmlSyntax(prefix + "Property name '" + propName + "' has already been used.")
  }

  /**
   * One Parameter element, checked in the source's order. Last comes `nameValid`, LSL's
   * symbol-naming rule, which the LSLParameter constructor applies to the parameter's name.
   */
  function ReadParameter(st: BodyState, functionName: string, e: Element, nameValid: string -> bool)
    : (r: Result<BodyState, SignatureError>)
    requires e.ParameterElement?
    ensures st.isVariadic ==> r.Failure?
    ensures Text.IsNullOrWhiteSpace(e.paramName) ==> r.Failure?
    ensures e.paramName.Some? && e.paramName.value in st.parameterNames ==> r.Failure?
    ensures e.paramName.Some? && !nameValid(e.paramName.value) ==> r.Failure?
    ensures ParseVariadic(e.variadic).None? ==> r.Failure?
    ensures r.Success? ==>
              && e.paramName.Some? && !Text.IsBlank(e.paramName.value)
              && e.paramType.Some? && EnumTryParse(e.paramType.value).Some?
              && ParseVariadic(e.variadic).Some?
              && var p := Parameter(EnumTryParse(e.paramType.value).value, e.paramName.value, ParseVariadic(e.variadic).value);
                 && (p.paramType == Void ==> p.variadic)
                 && r.value == st.(parameters := st.parameters + [p],
                                   parameterNames := st.parameterNames + {p.name},
                                   isVariadic := p.variadic)
  {
    if st.isVariadic then
      Failure(ElementError(functionName, MoreThanOneVariadic))
    else if Text.IsNullOrWhiteSpace(e.paramName) then
      Failure(ElementError(functionName, BlankParameterName))
    else
      var pName := e.paramName.value;
      var pType := if e.paramType.None? then None else EnumTryParse(e.paramType.value);
      if pType.None? then
        Failure(ElementError(functionName, InvalidParameterType(pName)))
      else if pName in st.parameterNames then
        Failure(ElementError(functionName, DuplicateParameterName(pName)))
      else
        match ParseVariadic(e.variadic)
        case None =>
          Failure(ElementError(functionName, InvalidVariadic(pName)))
        case Some(isVariadic) =>
          if pType.value == Void && !isVariadic then
            Failure(ElementError(functionName, VoidParameter))
          else if !nameValid(pName) then
            Failure(InvalidParameterName(pName))
          else
            var p := Parameter(pType.value, pName, isVariadic);
            Success(st.(parameters := st.parameters + [p], parameterNames := st.parameterNames + {pName},
                        isVariadic := isVariadic))
  }

  /** One Property element: a non-blank name not used before and a non-blank value. */
  function ReadProperty(st: BodyState, functionName: string, e: Element): (r: Result<BodyState, SignatureError>)
    requires e.PropertyElement?
    ensures r.Success? <==> !Text.IsNullOrWhiteSpace(e.propName) && !Text.IsNullOrWhiteSpace(e.propValue)
                            && e.propName.value !in st.properties
    ensures r.Success? ==> r.value == st.(properties := st.properties[e.propName.value := e.propValue.value])
  {
    if Text.IsNullOrWhiteSpace(e.propName) then
      Failure(ElementError(functionName, BlankPropertyName))
    else if Text.IsNullOrWhiteSpace(e.propValue) then
      Failure(ElementError(functionName, BlankPropertyValue))
    else if e.propName.value in st.properties then
      Failure(ElementError(functionName, DuplicatePropertyName(e.propName.value)))
    else
      Success(st.(properties := st.properties[e.propName.value := e.propValue.value]))
  }

  /** One iteration of the element loop for a node that is not the closing tag. */
  function ReadElement(st: BodyState, functionName: string, e: Element, nameValid: string -> bool)
    : Result<BodyState, SignatureError>
    requires !e.SignatureEnd?
  {
    match e
    case ParameterElement(_, _, _) => ReadParameter(st, functionName, e, nameValid)
    case DocumentationElement(content) => Success(st.(documentation := content))
    case PropertyElement(_, _) => ReadProperty(st, functionName, e)
    case OtherNode => Success(st)
  }

  /**
   * The number of nodes one turn of the element loop moves past. ReadElementContentAsString
   * already leaves the reader on the node after </DocumentationString>, and the Read() that
   * follows it moves past that node too, so a documentation turn moves past two nodes; every
   * other turn moves past one.
   */
  function Step(elements: seq<Element>): (n: nat)
    requires elements != []
    ensures 1 <= n <= |elements|
    ensures n == 2 <==> elements[0].DocumentationElement? && |elements| >= 2
  {
    if elements[0].DocumentationElement? && |elements| >= 2 then 2 else 1
  }

  /**
   * The element loop as the code is written: each turn reads the node it is on and then
   * moves on by Step, until the closing tag or the end of the input, stopping at the first
   * node that raises. The nodes after the closing tag stand for the rest of the document.
   */
  function ReadElements(st: BodyState, functionName: string, elements: seq<Element>, nameValid: string -> bool)
    : Result<BodyState, SignatureError>
    decreases |elements|
  {
    if elements == [] || elements[0].SignatureEnd? then Success(st)
    else
      match ReadElement(st, functionName, elements[0], nameValid)
      case Failure(e) => Failure(e)
      case Success(st') => ReadElements(st', functionName, elements[Step(elements)..], nameValid)
  }

  /**
   * The element loop as its other branches show it is meant to work: every turn moves past
   * exactly the node it has read, the documentation included.
   */
  function ReadElementsIntended(st: BodyState, functionName: string, elements: seq<Element>, nameValid: string -> bool)
    : Result<BodyState, SignatureError>
    decreases |elements|
  {
    if elements == [] || elements[0].SignatureEnd? then Success(st)
    else
      match ReadElement(st, functionName, elements[0], nameValid)
      case Failure(e) => Failure(e)
      case Success(st') => ReadElementsIntended(st', functionName, elements[1..], nameValid)
  }

  /** ReadXml as a whole, from the signature's state before reading. */
  function ReadSignature(start: SignatureData, attrs: seq<Attribute>, elements: seq<Element>,
                         nameValid: string -> bool, subsetsValid: string -> bool): Result<SignatureData, SignatureError>
  {
    var h0 := HeaderState(start.name, start.returnType, start.subsets, false, false, false);
    match ReadAttributes(h0, attrs, nameValid, subsetsValid)
    case Failure(e) => Failure(e)
    case Success(h) =>
      match CheckHeader(h)
      case Some(e) => Failure(e)
      case None =>
        var b0 := BodyState(start.parameters, {}, false, start.documentation, start.properties);
        match ReadElements(b0, h.name, elements, nameValid)
        case Failure(e) => Failure(e)
        case Success(b) => Success(SignatureData(h.name, h.returnType, h.subsets, b.parameters, b.documentation, b.properties))
  }

  // ------------------------------------------------------ Parameter rules

  /** The parameter-list rules ReadXml enforces. */
  predicate ParametersWellFormed(ps: seq<Parameter>) {
    && (forall i :: 0 <= i < |ps| - 1 ==> !ps[i].variadic)
    && (forall i :: 0 <= i < |ps| ==> !Text.IsBlank(ps[i].name))
    && (forall i, j :: 0 <= i < j < |ps| ==> ps[i].name != ps[j].name)
    && (forall i :: 0 <= i < |ps| ==> ps[i].paramType == Void ==> ps[i].variadic)
  }

  /** The loop's bookkeeping agrees with the list it has built. */
  predicate BodyInvariant(st: BodyState) {
    && ParametersWellFormed(st.parameters)
    && st.parameterNames == (set i | 0 <= i < |st.parameters| :: st.parameters[i].name)
    && st.isVariadic == (|st.parameters| > 0 && st.parameters[|st.parameters| - 1].variadic)
  }

  lemma {:induction false} ReadParameterKeepsInvariant(st: BodyState, functionName: string, e: Element, nameValid: string -> bool)
    requires e.ParameterElement? && BodyInvariant(st)
    requires ReadParameter(st, functionName, e, nameValid).Success?
    ensures BodyInvariant(ReadParameter(st, functionName, e, nameValid).value)
    ensures nameValid(e.paramName.value)
  {
    var st' := ReadParameter(st, functionName, e, nameValid).value;
    var ps := st.parameters;
    var ps' := st'.parameters;
    var p := ps'[|ps|];
    assert ps' == ps + [p];
    assert p.name !in st.parameterNames;
    forall i | 0 <= i < |ps|
      ensures ps[i].name != p.name
    {
      assert ps[i].name in st.parameterNames;
    }
    assert (set i | 0 <= i < |ps'| :: ps'[i].name) == st.parameterNames + {p.name} by {
      forall x | x in st.parameterNames + {p.name}
        ensures x in (set i | 0 <= i < |ps'| :: ps'[i].name)
      {
        if x == p.name {
          assert ps'[|ps|].name == x;
        } else {
          var i :| 0 <= i < |ps| && ps[i].name == x;
          assert ps'[i].name == x;
        }
      }
    }
  }

  lemma {:induction false} ReadElementsKeepsInvariant(st: BodyState, functionName: string, elements: seq<Element>,
                                                      nameValid: string -> bool)
    requires BodyInvariant(st)
    requires ReadElements(st, functionName, elements, nameValid).Success?
    ensures BodyInvariant(ReadElements(st, functionName, elements, nameValid).value)
    decreases |elements|
  {
    if elements != [] && !elements[0].SignatureEnd? {
      var e := elements[0];
      var st' := ReadElement(st, functionName, e, nameValid).value;
      if e.ParameterElement? {
        ReadParameterKeepsInvariant(st, functionName, e, nameValid);
      }
      ReadElementsKeepsInvariant(st', functionName, elements[Step(elements)..], nameValid);
    }
  }

  /**
   * What a successful read leaves from an empty parameter list: the variadic parameter, if
   * any, is the last and only one; names are non-blank and distinct; Void only on a
   * variadic parameter.
   */
  lemma ReadSignatureParameterRules(start: SignatureData, attrs: seq<Attribute>, elements: seq<Element>,
                                    nameValid: string -> bool, subsetsValid: string -> bool)
    requires start.parameters == []
    requires ReadSignature(start, attrs, elements, nameValid, subsetsValid).Success?
    ensures ParametersWellFormed(ReadSignature(start, attrs, elements, nameValid, subsetsValid).value.parameters)
  {
    var h0 := HeaderState(start.name, start.returnType, start.subsets, false, false, false);
    var h := ReadAttributes(h0, attrs, nameValid, subsetsValid).value;
    var b0 := BodyState(start.parameters, {}, false, start.documentation, start.properties);
    assert BodyInvariant(b0);
    ReadElementsKeepsInvariant(b0, h.name, elements, nameValid);
  }

  /**
   * The Parameter elements the element loop lands on before the closing tag, in document
   * order: a node right after the documentation is stepped past, and so is not among them.
   */
  function ParameterElementsIn(elements: seq<Element>): (r: seq<Element>)
    ensures forall i :: 0 <= i < |r| ==> r[i].ParameterElement?
    decreases |elements|
  {
    if elements == [] || elements[0].SignatureEnd? then []
    else if elements[0].ParameterElement? then [elements[0]] + ParameterElementsIn(elements[1..])
    else ParameterElementsIn(elements[Step(elements)..])
  }

  /** Reading appends one parameter per Parameter element the loop lands on, in document order. */
  lemma {:induction false} ParametersInDocumentOrder(st: BodyState, functionName: string, elements: seq<Element>,
                                                     nameValid: string -> bool)
    requires ReadElements(st, functionName, elements, nameValid).Success?
    ensures var ps := ReadElements(st, functionName, elements, nameValid).value.parameters;
            var es := ParameterElementsIn(elements);
            && |ps| == |st.parameters| + |es|
            && ps[..|st.parameters|] == st.parameters
            && forall k :: 0 <= k < |es| ==> es[k].paramName.Some? && ps[|st.parameters| + k].name == es[k].paramName.value
    decreases |elements|
  {
    if elements != [] && !elements[0].SignatureEnd? {
      var e := elements[0];
      var st' := ReadElement(st, functionName, e, nameValid).value;
      var next := elements[Step(elements)..];
      ParametersInDocumentOrder(st', functionName, next, nameValid);
      var ps := ReadElements(st', functionName, next, nameValid).value.parameters;
      var rest := ParameterElementsIn(next);
      if e.ParameterElement? {
        assert next == elements[1..];
        assert st'.parameters == st.parameters + [st'.parameters[|st.parameters|]];
        assert ParameterElementsIn(elements) == [e] + rest;
        assert ps[..|st.parameters|] == ps[..|st'.parameters|][..|st.parameters|];
        forall k | 0 <= k < |[e] + rest|
          ensures ([e] + rest)[k].paramName.Some?
          ensures ps[|st.parameters| + k].name == ([e] + rest)[k].paramName.value
        {
          if k == 0 {
            assert ps[|st.parameters|] == ps[..|st'.parameters|][|st.parameters|];
          } else {
            assert ([e] + rest)[k] == rest[k - 1];
          }
        }
      } else {
        assert ParameterElementsIn(elements) == rest;
      }
    }
  }

  /** Two Parameter elements the loop lands on with the same name make the read fail. */
  lemma ParameterNamesDistinct(st: BodyState, functionName: string, elements: seq<Element>, nameValid: string -> bool)
    requires BodyInvariant(st)
    requires ReadElements(st, functionName, elements, nameValid).Success?
    ensures var es := ParameterElementsIn(elements);
            forall i, j :: 0 <= i < j < |es| ==> es[i].paramName != es[j].paramName
  {
    ParametersInDocumentOrder(st, functionName, elements, nameValid);
    ReadElementsKeepsInvariant(st, functionName, elements, nameValid);
    var ps := ReadElements(st, functionName, elements, nameValid).value.parameters;
    var es := ParameterElementsIn(elements);
    forall i, j | 0 <= i < j < |es|
      ensures es[i].paramName != es[j].paramName
    {
      assert ps[|st.parameters| + i].name != ps[|st.parameters| + j].name;
    }
  }

  /**
   * A Parameter element right after the documentation is never looked at: a duplicate
   * there does not make the read fail, and it adds no parameter.
   */
  lemma ParameterAfterDocumentationUnread(st: BodyState, functionName: string, nameValid: string -> bool)
    ensures var p := ParameterElement(Some("a"), Some("Integer"), None);
            ReadElements(st, functionName, [DocumentationElement("d"), p, SignatureEnd], nameValid)
            == Success(st.(documentation := "d"))
  {
    var p := ParameterElement(Some("a"), Some("Integer"), None);
    var es := [DocumentationElement("d"), p, SignatureEnd];
    assert es[Step(es)..] == [SignatureEnd];
  }

  // ------------------------------------------------------------ Writing

  /** The Parameter element WriteXml emits: Variadic="true" only for the variadic parameter. */
  function ParameterElementOf(p: Parameter): (e: Element)
    ensures e.ParameterElement? && e.paramName == Some(p.name) && e.paramType == Some(EnumName(p.paramType))
    ensures (e.variadic == Some("true")) == p.variadic
    ensures !p.variadic ==> e.variadic.None?
  {
    ParameterElement(Some(p.name), Some(EnumName(p.paramType)), if p.variadic then Some("true") else None)
  }

  /** The element WriteXml emits for each parameter, in list order. */
  function ParameterElements(ps: seq<Parameter>): (es: seq<Element>)
    ensures |es| == |ps|
    ensures forall i :: 0 <= i < |ps| ==> es[i] == ParameterElementOf(ps[i])
  {
    seq(|ps|, i requires 0 <= i < |ps| => ParameterElementOf(ps[i]))
  }

  lemma VariadicTrueParses()
    ensures ParseVariadic(Some("true")) == Some(true)
  {
    assert Text.ToLower("true") == "true";
    assert !Text.IsWhiteSpace("true"[0]);
  }

  /** Reading the element WriteXml emits for one parameter appends that parameter. */
  lemma ReadWrittenParameter(st: BodyState, functionName: string, p: Parameter, nameValid: string -> bool)
    requires !st.isVariadic && !Text.IsBlank(p.name) && p.name !in st.parameterNames && nameValid(p.name)
    requires p.paramType == Void ==> p.variadic
    ensures ReadParameter(st, functionName, ParameterElementOf(p), nameValid)
            == Success(st.(parameters := st.parameters + [p], parameterNames := st.parameterNames + {p.name},
                           isVariadic := p.variadic))
  {
    VariadicTrueParses();
    EnumNameRoundTrip(p.paramType);
  }

  /** What the rules say of the first of the parameters still to be read. */
  lemma NextParameterAccepted(st: BodyState, ps: seq<Parameter>)
    requires BodyInvariant(st) && ParametersWellFormed(st.parameters + ps) && ps != []
    ensures !Text.IsBlank(ps[0].name) && ps[0].name !in st.parameterNames
    ensures ps[0].paramType == Void ==> ps[0].variadic
    ensures ps[0].variadic ==> |ps| == 1
  {
    var all := st.parameters + ps;
    assert all[|st.parameters|] == ps[0];
    forall i | 0 <= i < |st.parameters|
      ensures st.parameters[i].name != ps[0].name
    {
      assert all[i] == st.parameters[i];
    }
  }

  /** One turn of the intended loop on a Parameter element that is accepted. */
  lemma ReadElementsParameterStep(st: BodyState, functionName: string, e: Element, rest: seq<Element>,
                                  nameValid: string -> bool, st': BodyState)
    requires e.ParameterElement? && ReadParameter(st, functionName, e, nameValid) == Success(st')
    ensures ReadElementsIntended(st, functionName, [e] + rest, nameValid)
            == ReadElementsIntended(st', functionName, rest, nameValid)
  {
    assert ([e] + rest)[1..] == rest;
  }

  /** The intended loop reads the parameter elements WriteXml emits back into the parameter list. */
  lemma {:induction false} WriteThenReadParameters(st: BodyState, functionName: string, ps: seq<Parameter>,
                                                   nameValid: string -> bool)
    requires BodyInvariant(st)
    requires ParametersWellFormed(st.parameters + ps)
    requires forall i :: 0 <= i < |ps| ==> nameValid(ps[i].name)
    requires !st.isVariadic || ps == []
    ensures ReadElementsIntended(st, functionName, ParameterElements(ps), nameValid).Success?
    ensures ReadElementsIntended(st, functionName, ParameterElements(ps), nameValid).value.parameters == st.parameters + ps
    ensures ReadElementsIntended(st, functionName, ParameterElements(ps), nameValid).value.documentation == st.documentation
    ensures ReadElementsIntended(st, functionName, ParameterElements(ps), nameValid).value.properties == st.properties
    decreases |ps|
  {
    if ps == [] {
      assert st.parameters + ps == st.parameters;
    } else {
      var st' := WrittenParameterTurn(st, functionName, ps, nameValid);
      WriteThenReadParameters(st', functionName, ps[1..], nameValid);
    }
  }

  /** One turn of the intended loop over the emitted parameter elements, and the state it leaves. */
  lemma WrittenParameterTurn(st: BodyState, functionName: string, ps: seq<Parameter>, nameValid: string -> bool)
    returns (st': BodyState)
    requires BodyInvariant(st)
    requires ParametersWellFormed(st.parameters + ps)
    requires forall i :: 0 <= i < |ps| ==> nameValid(ps[i].name)
    requires !st.isVariadic || ps == []
    requires ps != []
    ensures ReadElementsIntended(st, functionName, ParameterElements(ps), nameValid)
            == ReadElementsIntended(st', functionName, ParameterElements(ps[1..]), nameValid)
    ensures st'.parameters + ps[1..] == st.parameters + ps
    ensures st'.documentation == st.documentation && st'.properties == st.properties
    ensures BodyInvariant(st') && ParametersWellFormed(st'.parameters + ps[1..])
    ensures forall i :: 0 <= i < |ps[1..]| ==> nameValid(ps[1..][i].name)
    ensures !st'.isVariadic || ps[1..] == []
  {
    var p := ps[0];
    NextParameterAccepted(st, ps);
    ReadWrittenParameter(st, functionName, p, nameValid);
    st' := st.(parameters := st.parameters + [p], parameterNames := st.parameterNames + {p.name},
               isVariadic := p.variadic);
    var e := ParameterElementOf(p);
    ParameterElementsFront(ps);
    ReadElementsParameterStep(st, functionName, e, ParameterElements(ps[1..]), nameValid, st');
    ReadParameterKeepsInvariant(st, functionName, e, nameValid);
    AppendFront(st.parameters, ps);
  }

  lemma ParameterElementsFront(ps: seq<Parameter>)
    requires ps != []
    ensures ParameterElements(ps) == [ParameterElementOf(ps[0])] + ParameterElements(ps[1..])
  {
  }

  lemma AppendFront<T>(a: seq<T>, b: seq<T>)
    requires b != []
    ensures (a + [b[0]]) + b[1..] == a + b
  {
  }

  /** The Property elements WriteXml emits, in the dictionary's enumeration order `keys`. */
  function PropertyElements(props: PropertyBags.Properties, keys: seq<string>): (es: seq<Element>)
    requires forall i :: 0 <= i < |keys| ==> keys[i] in props
    ensures |es| == |keys|
    ensures forall i :: 0 <= i < |keys| ==> es[i] == PropertyElement(Some(keys[i]), Some(props[keys[i]]))
  {
    seq(|keys|, i requires 0 <= i < |keys| => PropertyElement(Some(keys[i]), Some(props[keys[i]])))
  }

  /** `keys` lists each key of `props` exactly once. */
  predicate Enumerates(keys: seq<string>, props: PropertyBags.Properties) {
    && (forall i, j :: 0 <= i < j < |keys| ==> keys[i] != keys[j])
    && (forall i :: 0 <= i < |keys| ==> keys[i] in props)
    && (forall k :: k in props ==> k in keys)
  }

  /** The attributes WriteXml emits: Name, ReturnType and Subsets. */
  function WriteAttributes(d: SignatureData): seq<Attribute> {
    [Attribute("Name", d.name), Attribute("ReturnType", EnumName(d.returnType)), Attribute("Subsets", d.subsets)]
  }

  /** The child nodes WriteXml emits, followed by the closing tag. */
  function WriteElements(d: SignatureData, keys: seq<string>): seq<Element>
    requires forall i :: 0 <= i < |keys| ==> keys[i] in d.properties
  {
    ParameterElements(d.parameters) + [DocumentationElement(d.documentation)]
    + PropertyElements(d.properties, keys) + [SignatureEnd]
  }

  /**
   * The nodes an indenting XmlWriter produces for `es`: a white-space node before each
   * element and before the closing tag.
   */
  function Indented(es: seq<Element>): (r: seq<Element>)
    ensures |r| == 2 * |es|
    decreases |es|
  {
    if es == [] then [] else [OtherNode, es[0]] + Indented(es[1..])
  }

  /** The intended loop reads the nodes of `a` and then those of `b`, when `a` holds no closing tag. */
  lemma {:induction false} ReadElementsConcat(st: BodyState, functionName: string, a: seq<Element>, b: seq<Element>,
                                              nameValid: string -> bool)
    requires forall i :: 0 <= i < |a| ==> !a[i].SignatureEnd?
    ensures ReadElementsIntended(st, functionName, a + b, nameValid)
            == match ReadElementsIntended(st, functionName, a, nameValid)
               case Failure(e) => Failure(e)
               case Success(st') => ReadElementsIntended(st', functionName, b, nameValid)
    decreases |a|
  {
    if a == [] {
      assert a + b == b;
    } else {
      assert (a + b)[0] == a[0];
      assert (a + b)[1..] == a[1..] + b;
      match ReadElement(st, functionName, a[0], nameValid)
      case Failure(_) =>
      case Success(st') => ReadElementsConcat(st', functionName, a[1..], b, nameValid);
    }
  }

  /** The dictionary after adding the entries of `props` named by `keys`, one by one. */
  function AddEntries(m: PropertyBags.Properties, props: PropertyBags.Properties, keys: seq<string>): (r: PropertyBags.Properties)
    requires forall i :: 0 <= i < |keys| ==> keys[i] in props
    ensures forall k :: k in r <==> k in m || k in keys
    ensures forall k :: k in r ==> r[k] == if k in keys then props[k] else m[k]
    decreases |keys|
  {
    if keys == [] then m
    else AddEntries(m[keys[0] := props[keys[0]]], props, keys[1..])
  }

  /** The intended loop reads the Property elements WriteXml emits back into the entries. */
  lemma {:induction false} WriteThenReadProperties(st: BodyState, functionName: string,
                                                   props: PropertyBags.Properties, keys: seq<string>,
                                                   nameValid: string -> bool)
    requires forall i :: 0 <= i < |keys| ==> keys[i] in props && keys[i] !in st.properties
    requires forall i, j :: 0 <= i < j < |keys| ==> keys[i] != keys[j]
    requires forall i :: 0 <= i < |keys| ==> !Text.IsBlank(keys[i]) && !Text.IsBlank(props[keys[i]])
    ensures ReadElementsIntended(st, functionName, PropertyElements(props, keys), nameValid)
            == Success(st.(properties := AddEntries(st.properties, props, keys)))
    decreases |keys|
  {
    var es := PropertyElements(props, keys);
    if keys != [] {
      var k0 := keys[0];
      var st' := st.(properties := st.properties[k0 := props[k0]]);
      assert es[0] == PropertyElement(Some(k0), Some(props[k0]));
      assert ReadProperty(st, functionName, es[0]) == Success(st');
      assert es[1..] == PropertyElements(props, keys[1..]);
      forall i | 0 <= i < |keys[1..]|
        ensures keys[1..][i] !in st'.properties
      {
        assert keys[1..][i] == keys[i + 1];
      }
      WriteThenReadProperties(st', functionName, props, keys[1..], nameValid);
    }
  }

  lemma MapOfEnumeration(props: PropertyBags.Properties, keys: seq<string>)
    requires Enumerates(keys, props)
    ensures AddEntries(map[], props, keys) == props
  {
  }

  /** The attributes WriteXml emits read back into the header they came from. */
  lemma {:induction false} WriteThenReadAttributes(d: SignatureData, nameValid: string -> bool, subsetsValid: string -> bool)
    requires nameValid(d.name) && subsetsValid(d.subsets)
    ensures ReadAttributes(HeaderState("", Void, "", false, false, false), WriteAttributes(d), nameValid, subsetsValid)
            == Success(HeaderState(d.name, d.returnType, d.subsets, true, true, true))
  {
    var h0 := HeaderState("", Void, "", false, false, false);
    var attrs := WriteAttributes(d);
    EnumNameRoundTrip(d.returnType);
    var h1 := h0.(name := d.name, hasName := true);
    var h2 := h1.(returnType := d.returnType, hasReturnType := true);
    var h3 := h2.(subsets := d.subsets, hasSubsets := true);
    assert ReadAttribute(h0, attrs[0], nameValid, subsetsValid) == Success(h1);
    assert ReadAttribute(h1, attrs[1], nameValid, subsetsValid) == Success(h2);
    assert ReadAttribute(h2, attrs[2], nameValid, subsetsValid) == Success(h3);
    assert ReadAttributes(h3, [], nameValid, subsetsValid) == Success(h3);
    assert [attrs[2]][1..] == [];
    assert ReadAttributes(h2, [attrs[2]], nameValid, subsetsValid) == Success(h3);
    assert attrs[1..][1..] == [attrs[2]];
    assert ReadAttributes(h1, attrs[1..], nameValid, subsetsValid) == Success(h3);
  }

  /** One turn of the intended loop on a node that is read without error. */
  lemma ReadElementsCons(st: BodyState, functionName: string, e: Element, rest: seq<Element>, nameValid: string -> bool)
    requires !e.SignatureEnd? && ReadElement(st, functionName, e, nameValid).Success?
    ensures ReadElementsIntended(st, functionName, [e] + rest, nameValid)
            == ReadElementsIntended(ReadElement(st, functionName, e, nameValid).value, functionName, rest, nameValid)
  {
    assert ([e] + rest)[1..] == rest;
  }

  lemma WriteElementsSplit(d: SignatureData, keys: seq<string>)
    requires forall i :: 0 <= i < |keys| ==> keys[i] in d.properties
    ensures WriteElements(d, keys)
            == ParameterElements(d.parameters)
               + ([DocumentationElement(d.documentation)] + (PropertyElements(d.properties, keys) + [SignatureEnd]))
  {
  }

  /** The Property elements and the closing tag WriteXml emits read back into an empty property bag. */
  lemma WriteThenReadPropertiesToEnd(st: BodyState, functionName: string, props: PropertyBags.Properties,
                                     keys: seq<string>, nameValid: string -> bool)
    requires st.properties == map[]
    requires Enumerates(keys, props)
    requires forall k :: k in props ==> !Text.IsBlank(k) && !Text.IsBlank(props[k])
    ensures ReadElementsIntended(st, functionName, PropertyElements(props, keys) + [SignatureEnd], nameValid)
            == Success(st.(properties := props))
  {
    var es := PropertyElements(props, keys);
    ReadElementsConcat(st, functionName, es, [SignatureEnd], nameValid);
    WriteThenReadProperties(st, functionName, props, keys, nameValid);
    MapOfEnumeration(props, keys);
    var st' := st.(properties := props);
    assert ReadElementsIntended(st', functionName, [SignatureEnd], nameValid) == Success(st');
  }

  /** The documentation, the Property elements and the closing tag WriteXml emits, read back. */
  lemma WriteThenReadTail(st: BodyState, functionName: string, d: SignatureData, keys: seq<string>, nameValid: string -> bool)
    requires st.properties == map[]
    requires Enumerates(keys, d.properties)
    requires forall k :: k in d.properties ==> !Text.IsBlank(k) && !Text.IsBlank(d.properties[k])
    ensures ReadElementsIntended(st, functionName,
                                 [DocumentationElement(d.documentation)] + (PropertyElements(d.properties, keys) + [SignatureEnd]),
                                 nameValid)
            == Success(st.(documentation := d.documentation, properties := d.properties))
  {
    var tail := PropertyElements(d.properties, keys) + [SignatureEnd];
    ReadElementsCons(st, functionName, DocumentationElement(d.documentation), tail, nameValid);
    WriteThenReadPropertiesToEnd(st.(documentation := d.documentation), functionName, d.properties, keys, nameValid);
  }

  /**
   * The intended loop reads the child nodes WriteXml emits back into the parameters,
   * documentation and properties they came from, with or without indentation.
   */
  lemma {:induction false} WriteThenReadElementsIntended(d: SignatureData, keys: seq<string>, nameValid: string -> bool)
    requires ParametersWellFormed(d.parameters)
    requires forall i :: 0 <= i < |d.parameters| ==> nameValid(d.parameters[i].name)
    requires Enumerates(keys, d.properties)
    requires forall k :: k in d.properties ==> !Text.IsBlank(k) && !Text.IsBlank(d.properties[k])
    ensures var r := ReadElementsIntended(BodyState([], {}, false, "", map[]), d.name, WriteElements(d, keys), nameValid);
            && r.Success?
            && r.value.parameters == d.parameters
            && r.value.documentation == d.documentation
            && r.value.properties == d.properties
    ensures ReadElementsIntended(BodyState([], {}, false, "", map[]), d.name, Indented(WriteElements(d, keys)), nameValid)
            == ReadElementsIntended(BodyState([], {}, false, "", map[]), d.name, WriteElements(d, keys), nameValid)
  {
    var b0 := BodyState([], {}, false, "", map[]);
    var pes := ParameterElements(d.parameters);
    var rest := [DocumentationElement(d.documentation)] + (PropertyElements(d.properties, keys) + [SignatureEnd]);
    WriteElementsSplit(d, keys);
    assert BodyInvariant(b0);
    assert [] + d.parameters == d.parameters;
    WriteThenReadParameters(b0, d.name, d.parameters, nameValid);
    ReadElementsConcat(b0, d.name, pes, rest, nameValid);
    WriteThenReadTail(ReadElementsIntended(b0, d.name, pes, nameValid).value, d.name, d, keys, nameValid);
    IntendedSkipsWhiteSpace(b0, d.name, WriteElements(d, keys), nameValid);
  }

  /** White-space nodes make no difference to the intended loop. */
  lemma {:induction false} IntendedSkipsWhiteSpace(st: BodyState, functionName: string, es: seq<Element>,
                                                   nameValid: string -> bool)
    ensures ReadElementsIntended(st, functionName, Indented(es), nameValid)
            == ReadElementsIntended(st, functionName, es, nameValid)
    decreases |es|
  {
    if es != [] {
      var ind := Indented(es);
      var tail := Indented(es[1..]);
      assert ind == [OtherNode, es[0]] + tail;
      assert ind[1..] == [es[0]] + tail;
      assert ([es[0]] + tail)[1..] == tail;
      if !es[0].SignatureEnd? {
        match ReadElement(st, functionName, es[0], nameValid)
        case Failure(_) =>
        case Success(st') => IntendedSkipsWhiteSpace(st', functionName, es[1..], nameValid);
      }
    }
  }

  /**
   * On indented output the loop as written reads what the intended loop reads: the node it
   * steps past after the documentation is always a white-space node.
   */
  lemma {:induction false} IndentedReadsAsIntended(st: BodyState, functionName: string, es: seq<Element>,
                                                   nameValid: string -> bool)
    ensures ReadElements(st, functionName, Indented(es), nameValid)
            == ReadElementsIntended(st, functionName, es, nameValid)
    decreases |es|
  {
    if es != [] {
      var e := es[0];
      var ind := Indented(es);
      var tail := Indented(es[1..]);
      var rest := [e] + tail;
      assert ind == [OtherNode, e] + tail;
      assert ind[Step(ind)..] == rest;
      assert rest[1..] == tail;
      if !e.SignatureEnd? {
        match ReadElement(st, functionName, e, nameValid)
        case Failure(_) =>
        case Success(st') =>
          IndentedReadsAsIntended(st', functionName, es[1..], nameValid);
          if e.DocumentationElement? && tail != [] {
            assert tail == [OtherNode, es[1..][0]] + Indented(es[1..][1..]);
            assert rest[Step(rest)..] == tail[1..];
            assert ReadElements(st', functionName, tail, nameValid) == ReadElements(st', functionName, tail[1..], nameValid);
          }
      }
    }
  }

  /** The loop as written reads the indented child nodes WriteXml emits back into what they came from. */
  lemma WriteThenReadElements(d: SignatureData, keys: seq<string>, nameValid: string -> bool)
    requires ParametersWellFormed(d.parameters)
    requires forall i :: 0 <= i < |d.parameters| ==> nameValid(d.parameters[i].name)
    requires Enumerates(keys, d.properties)
    requires forall k :: k in d.properties ==> !Text.IsBlank(k) && !Text.IsBlank(d.properties[k])
    ensures var r := ReadElements(BodyState([], {}, false, "", map[]), d.name, Indented(WriteElements(d, keys)), nameValid);
            && r.Success?
            && r.value.parameters == d.parameters
            && r.value.documentation == d.documentation
            && r.value.properties == d.properties
  {
    WriteThenReadElementsIntended(d, keys, nameValid);
    IndentedReadsAsIntended(BodyState([], {}, false, "", map[]), d.name, WriteElements(d, keys), nameValid);
  }

  /**
   * What an indenting writer emits through WriteXml, read into a fresh signature, gives the
   * same signature back, when the function and parameter names and the subsets are ones the
   * setters accept, the parameter list keeps the rules reading enforces, and no property
   * name or value is blank.
   */
  lemma WriteThenRead(d: SignatureData, keys: seq<string>, nameValid: string -> bool, subsetsValid: string -> bool)
    requires nameValid(d.name) && subsetsValid(d.subsets)
    requires forall i :: 0 <= i < |d.parameters| ==> nameValid(d.parameters[i].name)
    requires ParametersWellFormed(d.parameters)
    requires Enumerates(keys, d.properties)
    requires forall k :: k in d.properties ==> !Text.IsBlank(k) && !Text.IsBlank(d.properties[k])
    ensures ReadSignature(SignatureData("", Void, "", [], "", map[]), WriteAttributes(d), Indented(WriteElements(d, keys)),
                          nameValid, subsetsValid) == Success(d)
  {
    WriteThenReadAttributes(d, nameValid, subsetsValid);
    WriteThenReadElements(d, keys, nameValid);
  }

  /**
   * Without indentation the node after </DocumentationString> is the first Property element,
   * which the loop steps past unread: a signature with one property reads back without it.
   */
  lemma UnindentedOutputLosesProperty(nameValid: string -> bool, subsetsValid: string -> bool)
    requires nameValid("llFoo") && subsetsValid("lsl")
    ensures var d := SignatureData("llFoo", Void, "lsl", [], "", map["Deprecated" := "true"]);
            ReadSignature(SignatureData("", Void, "", [], "", map[]), WriteAttributes(d), WriteElements(d, ["Deprecated"]),
                          nameValid, subsetsValid)
            == Success(d.(properties := map[]))
  {
    var d := SignatureData("llFoo", Void, "lsl", [], "", map["Deprecated" := "true"]);
    WriteThenReadAttributes(d, nameValid, subsetsValid);
    var es := WriteElements(d, ["Deprecated"]);
    assert es == [DocumentationElement(""), PropertyElement(Some("Deprecated"), Some("true")), SignatureEnd];
    assert es[Step(es)..] == [SignatureEnd];
  }

  /**
   * Without indentation and with no properties the node after </DocumentationString> is the
   * closing tag: the loop steps past it and reads on into what follows the element.
   */
  lemma UnindentedOutputReadsPastEnd(st: BodyState, functionName: string, nameValid: string -> bool)
    requires "Deprecated" !in st.properties
    ensures ReadElements(st, functionName,
                         [DocumentationElement("d"), SignatureEnd, PropertyElement(Some("Deprecated"), Some("true"))], nameValid)
            == Success(st.(documentation := "d", properties := st.properties["Deprecated" := "true"]))
  {
    var es := [DocumentationElement("d"), SignatureEnd, PropertyElement(Some("Deprecated"), Some("true"))];
    var p := es[2..];
    assert es[Step(es)..] == p;
    assert p[1..] == [];
    assert !Text.IsWhiteSpace("Deprecated"[0]) && !Text.IsWhiteSpace("true"[0]);
    assert ReadElement(st.(documentation := "d"), functionName, p[0], nameValid)
           == Success(st.(documentation := "d", properties := st.properties["Deprecated" := "true"]));
  }

  // -------------------------------------------------------------- The class

  class FunctionSignature {
    var name: string
    var returnType: LslType
    var subsets: string
    var parameters: seq<Parameter>
    var documentationString: string
    var properties: PropertyBags.Properties

    /** The private constructor FromXmlFragment starts from. */
    constructor Empty()
      ensures name == "" && returnType == Void && subsets == ""
      ensures parameters == [] && documentationString == "" && properties == map[]
    {
      name := "";
      returnType := Void;
      subsets := "";
      parameters := [];
      documentationString := "";
      properties := map[];
    }

    function Data(): SignatureData
      reads this
    {
      SignatureData(name, returnType, subsets, parameters, documentationString, properties)
    }

    /**
     * ReadXml: the attribute loop, the header checks, then the element loop up to the
     * closing tag. On success the signature holds what ReadSignature computes.
     */
    method ReadXml(attrs: seq<Attribute>, elements: seq<Element>, nameValid: string -> bool, subsetsValid: string -> bool)
      returns (error: Option<SignatureError>)
      modifies this
      ensures var r := ReadSignature(old(Data()), attrs, elements, nameValid, subsetsValid);
              && (r.Failure? <==> error.Some?)
              && (r.Failure? ==> error.value == r.error)
              && (r.Success? ==> Data() == r.value)
    {
      var header := ReadAttributesInto(attrs, nameValid, subsetsValid);
      if header.Failure? {
        return Some(header.error);
      }
      var headerError := CheckHeader(header.value);
      if headerError.Some? {
        return headerError;
      }
      error := ReadElementsInto(elements, nameValid);
    }

    /** The attribute loop of ReadXml: each attribute read in turn, into the fields it names. */
    method ReadAttributesInto(attrs: seq<Attribute>, nameValid: string -> bool, subsetsValid: string -> bool)
      returns (header: Result<HeaderState, SignatureError>)
      modifies this
      ensures header == ReadAttributes(HeaderState(old(name), old(returnType), old(subsets), false, false, false),
                                       attrs, nameValid, subsetsValid)
      ensures header.Success? ==>
                name == header.value.name && returnType == header.value.returnType && subsets == header.value.subsets
      ensures parameters == old(parameters) && documentationString == old(documentationString)
      ensures properties == old(properties)
    {
      var h0 := HeaderState(name, returnType, subsets, false, false, false);
      var hasName, hasReturnType, hasSubsets := false, false, false;
      var i := 0;
      while i < |attrs|
        invariant 0 <= i <= |attrs|
        invariant parameters == old(parameters) && documentationString == old(documentationString)
        invariant properties == old(properties)
        invariant ReadAttributes(h0, attrs, nameValid, subsetsValid)
                  == ReadAttributes(HeaderState(name, returnType, subsets, hasName, hasReturnType, hasSubsets),
                                    attrs[i..], nameValid, subsetsValid)
      {
        var h := HeaderState(name, returnType, subsets, hasName, hasReturnType, hasSubsets);
        var a := attrs[i];
        assert attrs[i..][1..] == attrs[i + 1..];
        var r := ReadAttribute(h, a, nameValid, subsetsValid);
        if r.Failure? {
          return Failure(r.error);
        }
        if a.name == "Subsets" {
          subsets := a.value;
          hasSubsets := true;
        } else if a.name == "ReturnType" {
          returnType := EnumTryParse(a.value).value;
          hasReturnType := true;
        } else {
          name := a.value;
          hasName := true;
        }
        i := i + 1;
      }
      header := Success(HeaderState(name, returnType, subsets, hasName, hasReturnType, hasSubsets));
    }

    /**
     * The element loop of ReadXml: each child node in turn until the closing tag, moving on
     * by Step, so the node after the documentation is passed over.
     */
    method ReadElementsInto(elements: seq<Element>, nameValid: string -> bool) returns (error: Option<SignatureError>)
      modifies this
      ensures var r := ReadElements(BodyState(old(parameters), {}, false, old(documentationString), old(properties)),
                                    old(name), elements, nameValid);
              && (r.Failure? <==> error.Some?)
              && (r.Failure? ==> error.value == r.error)
              && (r.Success? ==> parameters == r.value.parameters && documentationString == r.value.documentation
                                 && properties == r.value.properties)
      ensures name == old(name) && returnType == old(returnType) && subsets == old(subsets)
    {
      var b0 := BodyState(parameters, {}, false, documentationString, properties);
      var parameterNames: set<string> := {};
      var isVariadic := false;
      var k := 0;
      while k < |elements|
        invariant 0 <= k <= |elements|
        invariant name == old(name) && returnType == old(returnType) && subsets == old(subsets)
        invariant ReadElements(b0, name, elements, nameValid)
                  == ReadElements(BodyState(parameters, parameterNames, isVariadic, documentationString, properties),
                                  name, elements[k..], nameValid)
      {
        var e := elements[k];
        if e.SignatureEnd? {
          break;
        }
        var step := Step(elements[k..]);
        assert elements[k..][step..] == elements[k + step..];
        var st := BodyState(parameters, parameterNames, isVariadic, documentationString, properties);
        var r := ReadElement(st, name, e, nameValid);
        if r.Failure? {
          return Some(r.error);
        }
        match e {
          case ParameterElement(_, _, _) =>
            var p := r.value.parameters[|parameters|];
            parameterNames := parameterNames + {p.name};
            isVariadic := p.variadic;
            parameters := parameters + [p];
          case DocumentationElement(content) =>
            documentationString := content;
          case PropertyElement(pName, pValue) =>
            properties := properties[pName.value := pValue.value];
          case OtherNode =>
        }
        k := k + step;
      }
      error := None;
    }

    /** WriteXml's loop over the parameters: one Parameter element each, in order. */
    method WriteParameterElements() returns (out: seq<Element>)
      ensures out == ParameterElements(parameters)
    {
      out := [];
      for i := 0 to |parameters|
        invariant out == ParameterElements(parameters[..i])
      {
        assert parameters[..i + 1] == parameters[..i] + [parameters[i]];
        out := out + [ParameterElementOf(parameters[i])];
      }
      assert parameters[..|parameters|] == parameters;
    }

    /**
     * WriteXml: the three attributes, then the parameters, the documentation and the
     * properties in `keys`, the order the dictionary enumerates them in.
     */
    method WriteXml(keys: seq<string>) returns (attrs: seq<Attribute>, elements: seq<Element>)
      requires Enumerates(keys, properties)
      ensures attrs == WriteAttributes(Data())
      ensures elements == WriteElements(Data(), keys)
    {
      attrs := [Attribute("Name", name), Attribute("ReturnType", EnumName(returnType)), Attribute("Subsets", subsets)];
      elements := WriteParameterElements();
      elements := elements + [DocumentationElement(documentationString)];
      var written := [];
      for i := 0 to |keys|
        invariant written == PropertyElements(properties, keys[..i])
      {
        assert keys[..i + 1] == keys[..i] + [keys[i]];
        written := written + [PropertyElement(Some(keys[i]), Some(properties[keys[i]]))];
      }
      assert keys[..|keys|] == keys;
      elements := elements + written + [SignatureEnd];
    }

    predicate Deprecated()
      reads this
    {
      PropertyBags.Toggle(properties, "Deprecated")
    }

    predicate ModInvoke()
      reads this
    {
      PropertyBags.Toggle(properties, "ModInvoke")
    }

    method SetDeprecated(on: bool)
      modifies this
      ensures properties == PropertyBags.SetToggle(old(properties), "Deprecated", on)
      ensures Deprecated() == on && ModInvoke() == old(ModInvoke())
      ensures name == old(name) && returnType == old(returnType) && subsets == old(subsets)
      ensures parameters == old(parameters) && documentationString == old(documentationString)
    {
      properties := PropertyBags.SetToggle(properties, "Deprecated", on);
      PropertyBags.ToggleReadsBack(old(properties), "Deprecated", on);
      PropertyBags.ToggleIndependent(old(properties), "Deprecated", "ModInvoke", on);
    }

    method SetModInvoke(on: bool)
      modifies this
      ensures properties == PropertyBags.SetToggle(old(properties), "ModInvoke", on)
      ensures ModInvoke() == on && Deprecated() == old(Deprecated())
      ensures name == old(name) && returnType == old(returnType) && subsets == old(subsets)
      ensures parameters == old(parameters) && documentationString == old(documentationString)
    {
      properties := PropertyBags.SetToggle(properties, "ModInvoke", on);
      PropertyBags.ToggleReadsBack(old(properties), "ModInvoke", on);
      PropertyBags.ToggleIndependent(old(properties), "ModInvoke", "Deprecated", on);
    }

    /** FromXmlFragment: a fresh signature filled by ReadXml. */
    static method FromXmlFragment(attrs: seq<Attribute>, elements: seq<Element>,
                                  nameValid: string -> bool, subsetsValid: string -> bool)
      returns (r: Result<FunctionSignature, SignatureError>)
      ensures var s := ReadSignature(SignatureData("", Void, "", [], "", map[]), attrs, elements, nameValid, subsetsValid);
              && (r.Success? <==> s.Success?)
              && (r.Failure? ==> r.error == s.error)
              && (r.Success? ==> fresh(r.value) && r.value.Data() == s.value)
    {
      var f := new FunctionSignature.Empty();
      var error := f.ReadXml(attrs, elements, nameValid, subsetsValid);
      if error.Some? {
        return Failure(error.value);
      }
      return Success(f);
    }
  }
}
