# LibLSLCC core, modelled in Dafny

LibLSLCC is a compiler front end and code validator for the Linden Scripting Language
(LSL). This project models the parts of the validator and library-data layer that follow
fixed rules, and proves what those rules guarantee:

- **Type and component names**: the `LSLType` enum with its type-name parser and printer,
  and the `LSLVectorComponent` enum with its component-name parser and printer.
- **Library signatures**:
  - `LSLLibraryConstantSignature`: the Type, Name and ValueString setters, the per-type
    normalisation of value strings, the code-literal form, Equals/GetHashCode, and the
    Deprecated/Expand property toggles.
  - `LSLLibraryFunctionSignature`: the reading rules of `ReadXml` over an abstract sequence
    of attributes and child elements, the elements `WriteXml` emits, and the
    Deprecated/ModInvoke toggles.
- **Library subsets** (`LSLEmbeddedLibraryDataProvider`): the base-data and additions
  enums, their subset names, `GetSubsets`, and the live-filtering setters that keep the
  active subsets in step with the two backing fields.
- **Syntax tree nodes**:
  - `LSLControlStatementNode`: the if / else-if / else chain, its return-path rule, and
    constant-jump detection by intersecting the branches' jump sets under `JumpCmp`.
  - `LSLCompilationUnitNode`: the add counter, statement indices and the
    "last statement in scope" flags.
  - `LSLRotationLiteralNode` and `LSLPostfixOperationNode`: construction, constancy, the
    fixed type and expression kind, error nodes, and cloning.
- **Scope addresses** (`LSLAutoCompleteScopeAddress`): the (CodeAreaId, ScopeId,
  ScopeLevel) value type with its equality, operators, wrapping 32-bit hash and text form.

## Model layout

Each core source file is one module:

| file | module |
|---|---|
| `lsl_type.dfy` | `LslTypes` |
| `vector_component.dfy` | `VectorComponents` |
| `constant_signature.dfy` | `ConstantSignatures` |
| `function_signature.dfy` | `FunctionSignatures` |
| `library_subsets.dfy` | `LibrarySubsets` |
| `control_statement.dfy` | `ControlStatements` |
| `compilation_unit.dfy` | `CompilationUnits` |
| `rotation_literal.dfy` | `RotationLiterals` |
| `postfix_operation.dfy` | `PostfixOperations` |
| `scope_address.dfy` | `ScopeAddresses` |

Supporting modules:

- `wrappers.dfy` (`Wrappers`): `Option` and `Result`.
- `text.dfy` (`Text`): the .NET string primitives the code calls, stated over `seq<char>`.
  These are Char.IsWhiteSpace, Trim/TrimEnd, ToLower, Int32.TryParse, Boolean.TryParse,
  String.Join and Int32 formatting.
- `int32.dfy` (`Int32s`): 32-bit two's-complement wrap-around and XOR.
- `property_bag.dfy` (`PropertyBags`): the string-to-string property dictionary both
  signature classes use, and its boolean toggles.
- `expression_node.dfy` (`ExpressionNodes`): the child expression nodes, parser contexts
  and source ranges that the two expression nodes hold.

Modelling conventions:

- An exception becomes the `Failure` of a `Result`, or the `Some` of an `Option` error
  return.
- A `null` argument is `None`, or a `null` reference for node classes.
- Objects whose fields the source updates are classes with `modifies` clauses.
- Value types and pure helpers are datatypes and functions.
- Calls into code that is not part of this model are function parameters. These are
  `floatParses`, `formatList`, `idMatches`, `escapes`, `stringHash`, `nameValid` and
  `subsetsValid`.

### Where the code and its documentation disagree

- `LSLAutoCompleteScopeAddress.ToString` documents the text `ScopeID:`, but the code writes
  `ScopeId:`. The model follows the code.
- The Float value-string setter assigns the unstripped text on its hexadecimal fallback
  path, but the next assignment overwrites it with the stripped text. The model follows the
  code, so the stored text is always the stripped one. `FloatHexFallbackStripsDigits`
  exhibits the edge case: `"FF"` is accepted and stored as the empty string when `""` is not
  a float.
- The `(type, name)` constant constructor stores default value strings without validating
  them. The vector default `"0,0,0"` and the list default `""` would both be refused by
  the setter.

## Model

| member | source | states |
|---|---|---|
| LslTypes.EnumTryParse | LibLSLCC/LibraryData/LSLLibraryFunctionSignature.cs:197 | A parsed enum member's name is exactly the text parsed. |
| LslTypes.EnumValue | LibLSLCC/CodeValidator/Enums/LSLType.cs:57-98 | Defines the integer each member is declared with: Key 7, Integer 6, String 5, Float 4, List 3, Vector 2, Rotation 1, Void 0. |
| LslTypes.EnumName | LibLSLCC/CodeValidator/Enums/LSLType.cs:57-98 | Defines Enum.ToString for a type: the member name as declared, with its capital letter. |
| LslTypes.EnumNameRoundTrip | LibLSLCC/CodeValidator/Enums/LSLType.cs:57-98 | Parsing a member's name gives that member back. |
| LslTypes.EnumValuesDistinct | LibLSLCC/CodeValidator/Enums/LSLType.cs:57-98 | The eight members have distinct values 0..7, and only Void has value 0. |
| LslTypes.FromLslTypeName | LibLSLCC/CodeValidator/Enums/LSLType.cs:114-143 | A null or empty name raises ArgumentNull("typeName"). Success happens exactly when the lowered name is one of the eight accepted names, and the result is never Void. |
| LslTypes.ToLslTypeName | LibLSLCC/CodeValidator/Enums/LSLType.cs:152-160 | Raises exactly for Void. |
| LslTypes.ToLslTypeNameValues | LibLSLCC/CodeValidator/Enums/LSLType.cs:152-160 | Every type other than Void yields its lowercase enum name. |
| LslTypes.TypeNameRoundTrip | LibLSLCC/CodeValidator/Enums/LSLType.cs:114-160 | For every type other than Void, parsing its printed name gives it back. |
| LslTypes.CaseInsensitive | LibLSLCC/CodeValidator/Enums/LSLType.cs:122 | A name and its lowercase form are accepted alike and map to the same type. |
| LslTypes.RotationAliases | LibLSLCC/CodeValidator/Enums/LSLType.cs:134-142 | "quaternion" and "rotation" both map to Rotation. "void" raises ArgumentException. |
| VectorComponents.ToComponentName | LibLSLCC/CodeValidator/Enums/LSLVectorComponent.cs:64-67 | The name is "x", "y" or "z". |
| VectorComponents.EnumName | LibLSLCC/CodeValidator/Enums/LSLVectorComponent.cs:54-59 | Defines Enum.ToString for a component: "X", "Y" or "Z". |
| VectorComponents.ParseComponentName | LibLSLCC/CodeValidator/Enums/LSLVectorComponent.cs:69-89 | Null or empty raises ArgumentNull("name"). Success happens exactly for "x", "y" and "z". |
| VectorComponents.ComponentNameRoundTrip | LibLSLCC/CodeValidator/Enums/LSLVectorComponent.cs:64-89 | Parsing a component's name gives the component back. |
| VectorComponents.ComponentNameInjective | LibLSLCC/CodeValidator/Enums/LSLVectorComponent.cs:54-67 | Distinct components have distinct names. |
| VectorComponents.UpperCaseRejected | LibLSLCC/CodeValidator/Enums/LSLVectorComponent.cs:77-88 | Matching is case-sensitive: "X", "Y" and "Z" raise ArgumentException. |
| PropertyBags.SetToggle | LibLSLCC/LibraryData/LSLLibraryConstantSignature.cs:749-762 | Setting true stores "true" under the key, and setting false removes the key. No other key or value changes. |
| PropertyBags.ToggleReadsBack | LibLSLCC/LibraryData/LSLLibraryConstantSignature.cs:741-763 | The getter returns the value last set. |
| PropertyBags.ToggleIndependent | LibLSLCC/LibraryData/LSLLibraryFunctionSignature.cs:422-470 | Setting one toggle does not change another. |
| PropertyBags.ToggleLastWins | LibLSLCC/LibraryData/LSLLibraryConstantSignature.cs:749-762 | Of two successive sets, the second decides the bag. |
| PropertyBags.ToggleValues | LibLSLCC/LibraryData/LSLLibraryConstantSignature.cs:745-747 | The getter compares the lowered value with "true": "TRUE" is on, while "1" and "yes" are off. |
| ConstantSignatures.FloatValueString | LibLSLCC/LibraryData/LSLLibraryConstantSignature.cs:305-322 | A value is accepted exactly when its f/F/d/D-stripped text is a float or the raw text is bare hexadecimal. What is stored is always the stripped text. |
| ConstantSignatures.FloatStoredHasNoSuffix | LibLSLCC/LibraryData/LSLLibraryConstantSignature.cs:305-322 | A stored float value never ends in f, F, d or D. |
| ConstantSignatures.FloatIdempotent | LibLSLCC/LibraryData/LSLLibraryConstantSignature.cs:305-322 | Setting a stored, non-empty float value again stores the same text. |
| ConstantSignatures.FloatHexFallbackStripsDigits | LibLSLCC/LibraryData/LSLLibraryConstantSignature.cs:313-321 | The hexadecimal fallback stores the stripped text: "FF" is stored as "", and "" is refused. |
| ConstantSignatures.IntegerValueString | LibLSLCC/LibraryData/LSLLibraryConstantSignature.cs:325-346 | Boolean text true or false is stored as "1" or "0". Other text is accepted exactly when it is a decimal or bare-hex Int32, and is then stored unchanged. |
| ConstantSignatures.IntegerIdempotent | LibLSLCC/LibraryData/LSLLibraryConstantSignature.cs:325-346 | Setting a stored integer value again changes nothing. |
| ConstantSignatures.Unbracket | LibLSLCC/LibraryData/LSLLibraryConstantSignature.cs:387-410 | After trimming spaces, blank text raises. One bracket without the other raises. A pair of brackets is removed, and bracket-free text is kept. |
| ConstantSignatures.ListValueString | LibLSLCC/LibraryData/LSLLibraryConstantSignature.cs:348-383 | Applies the bracket rules with '[' and ']', then stores the list formatter's output for "[" + inner text + "]". A formatter error raises. On a blank inner text the source has already stored "" by then (ClearsBeforeFormatting); SetValueString carries that store. |
| ConstantSignatures.TupleValueString | LibLSLCC/LibraryData/LSLLibraryConstantSignature.cs:385-421 | Applies the bracket rules with '<' and '>'. The inner text must split into exactly n components of the form sign, digits, '.', digits. What is stored is those components joined by ", ". |
| ConstantSignatures.ClearsBeforeFormatting | LibLSLCC/LibraryData/LSLLibraryConstantSignature.cs:370-375 | Defines when the List setter stores "" before it calls the formatter: the bracket rules accept the text and what is inside the brackets is blank. |
| ConstantSignatures.VectorValueString | LibLSLCC/LibraryData/LSLLibraryConstantSignature.cs:424-459 | A stored vector is three float components joined by ", ". |
| ConstantSignatures.RotationValueString | LibLSLCC/LibraryData/LSLLibraryConstantSignature.cs:385-421 | A stored rotation is four float components joined by ", ". |
| ConstantSignatures.TupleIdempotent | LibLSLCC/LibraryData/LSLLibraryConstantSignature.cs:385-459 | Setting a stored vector or rotation value again stores the same text. |
| ConstantSignatures.VectorNormalForm | LibLSLCC/LibraryData/LSLLibraryConstantSignature.cs:424-459 | A stored vector is the join of three components matching the float pattern, and it is a fixed point of the setter. |
| ConstantSignatures.RotationNormalForm | LibLSLCC/LibraryData/LSLLibraryConstantSignature.cs:385-421 | A stored rotation is the join of four components matching the float pattern, and it is a fixed point of the setter. |
| ConstantSignatures.TupleRefusesDotless | LibLSLCC/LibraryData/LSLLibraryConstantSignature.cs:242 | Text without a '.' is never a vector or rotation value. |
| ConstantSignatures.NormalizeValueString | LibLSLCC/LibraryData/LSLLibraryConstantSignature.cs:272-302 | A null value raises ArgumentNull. A Void type raises. String and Key values are stored verbatim, and every other type goes to its own setter. |
| ConstantSignatures.ValueStringAfterError | LibLSLCC/LibraryData/LSLLibraryConstantSignature.cs:272-302 | The field after a setter error is the previous text, except after the List setter on a blank inner text, where it is "". It changes only in that case. |
| ConstantSignatures.ErrorChangesFieldOnlyOnBlankList | LibLSLCC/LibraryData/LSLLibraryConstantSignature.cs:370-381 | A setter error that changes the field happens only for a List value whose formatter call raised, and the field is then "". |
| ConstantSignatures.BlankListError | LibLSLCC/LibraryData/LSLLibraryConstantSignature.cs:370-381 | For any list value whose inner text is blank, a formatter error makes the setter raise and leave "" stored. |
| ConstantSignatures.EmptyListErrorLeavesBlank | LibLSLCC/LibraryData/LSLLibraryConstantSignature.cs:370-381 | If the formatter refuses "[]", the List setter on "[]" raises and leaves "" stored, whatever was stored before. |
| ConstantSignatures.DefaultValueString | LibLSLCC/LibraryData/LSLLibraryConstantSignature.cs:113-138 | Every type except Void has a default. Void raises. |
| ConstantSignatures.VectorDefaultRefused | LibLSLCC/LibraryData/LSLLibraryConstantSignature.cs:130-131 | The vector default "0,0,0" would not pass the vector setter. |
| ConstantSignatures.ListDefaultRefused | LibLSLCC/LibraryData/LSLLibraryConstantSignature.cs:127-128 | The list default "" would not pass the list setter. |
| ConstantSignatures.IntegerDefaultAccepted | LibLSLCC/LibraryData/LSLLibraryConstantSignature.cs:118-119 | The integer default "0" passes the integer setter unchanged. |
| ConstantSignatures.TextDefaultsAccepted | LibLSLCC/LibraryData/LSLLibraryConstantSignature.cs:115-123 | The String and Key defaults pass the setter unchanged. |
| ConstantSignatures.CodeLiteral | LibLSLCC/LibraryData/LSLLibraryConstantSignature.cs:469-488 | The literal for each type: Key and String are quoted around their escaped text, Vector and Rotation are wrapped in '<' '>', List in '[' ']', and the other types are the stored text. The read-back lemmas below are its partners. |
| ConstantSignatures.UnbracketBracketed | LibLSLCC/LibraryData/LSLLibraryConstantSignature.cs:387-410 | The bracket rules remove exactly one pair of brackets put around any text. |
| ConstantSignatures.TupleLiteralReadsBack | LibLSLCC/LibraryData/LSLLibraryConstantSignature.cs:469-488 | A stored vector or rotation's literal unbrackets to the stored text. Given back to the same setter, it stores that text again. |
| ConstantSignatures.VectorLiteralReadsBack | LibLSLCC/LibraryData/LSLLibraryConstantSignature.cs:469-488 | The vector setter stores a stored vector's literal as the same value. |
| ConstantSignatures.RotationLiteralReadsBack | LibLSLCC/LibraryData/LSLLibraryConstantSignature.cs:469-488 | The rotation setter stores a stored rotation's literal as the same value. |
| ConstantSignatures.ListLiteralReadsBack | LibLSLCC/LibraryData/LSLLibraryConstantSignature.cs:469-488 | A list literal unbrackets to its inner text. The list setter succeeds on it exactly when the formatter succeeds on the bracketed text, and then stores the formatter's output. |
| ConstantSignatures.IntegerLiteralReadsBack | LibLSLCC/LibraryData/LSLLibraryConstantSignature.cs:469-488 | An Integer literal is the stored text, which the integer setter stores again unchanged. |
| ConstantSignatures.FloatLiteralReadsBack | LibLSLCC/LibraryData/LSLLibraryConstantSignature.cs:469-488 | A non-empty Float literal is the stored text, which the float setter stores again unchanged. |
| ConstantSignatures.NameError | LibLSLCC/LibraryData/LSLLibraryConstantSignature.cs:226-239 | A name is accepted exactly when it is non-null, not blank and matches the identifier pattern. Otherwise LSLInvalidSymbolNameException is raised. |
| ConstantSignatures.SignatureHash | LibLSLCC/LibraryData/LSLLibraryConstantSignature.cs:706-717 | The hash is (17·31 + type)·31 + name hash, reduced modulo 2^32. |
| ConstantSignatures.LibraryConstantSignature.SetType | LibLSLCC/LibraryData/LSLLibraryConstantSignature.cs:207-218 | Void raises and leaves the type unchanged. Any other type is stored, and no other field changes. |
| ConstantSignatures.LibraryConstantSignature.SetName | LibLSLCC/LibraryData/LSLLibraryConstantSignature.cs:223-240 | The name is stored exactly when NameError accepts it. Otherwise nothing changes. |
| ConstantSignatures.LibraryConstantSignature.SetValueString | LibLSLCC/LibraryData/LSLLibraryConstantSignature.cs:269-303 | Stores what NormalizeValueString computes for the current type. On an error the field becomes ValueStringAfterError: "" after the List setter got a blank inner text, which the source stores before the formatter raises, and otherwise the previous text. No other field changes. |
| ConstantSignatures.LibraryConstantSignature.SetDeprecated | LibLSLCC/LibraryData/LSLLibraryConstantSignature.cs:741-763 | The bag becomes SetToggle of "Deprecated", and Deprecated reads back the value set. Expand and the other fields are unchanged. |
| ConstantSignatures.LibraryConstantSignature.SetExpand | LibLSLCC/LibraryData/LSLLibraryConstantSignature.cs:771-791 | The bag becomes SetToggle of "Expand", and Expand reads back the value set. Deprecated and the other fields are unchanged. |
| ConstantSignatures.LibraryConstantSignature.CreateWithDefault | LibLSLCC/LibraryData/LSLLibraryConstantSignature.cs:105-139 | The name is checked first, then the type. On success the signature holds the name, the type and that type's default value string. |
| ConstantSignatures.LibraryConstantSignature.CreateWithValue | LibLSLCC/LibraryData/LSLLibraryConstantSignature.cs:148-154 | The name is checked first, then the type, then the value string. Success happens exactly when all three pass, and the signature then holds the normalised value. |
| ConstantSignatures.EqualsAndHash | LibLSLCC/LibraryData/LSLLibraryConstantSignature.cs:706-735 | Equals compares Name and Type only. It is reflexive, symmetric and transitive, and equal signatures have equal hash codes. |
| ConstantSignatures.LibraryConstantSignature.ValueStringAsCodeLiteral | LibLSLCC/LibraryData/LSLLibraryConstantSignature.cs:469-488 | Defines the property as CodeLiteral of the current type and stored value string. |
| ConstantSignatures.LibraryConstantSignature.Equals | LibLSLCC/LibraryData/LSLLibraryConstantSignature.cs:726-735 | Defines Equals(object): another signature, not null, with the same Name and Type. |
| ConstantSignatures.LibraryConstantSignature.GetHashCode | LibLSLCC/LibraryData/LSLLibraryConstantSignature.cs:706-717 | Defines the hash as SignatureHash of the Type and of the Name's string hash. |
| ConstantSignatures.LibraryConstantSignature.Deprecated | LibLSLCC/LibraryData/LSLLibraryConstantSignature.cs:741-748 | Defines the getter: the bag holds "Deprecated" with a value that lowers to "true". |
| ConstantSignatures.LibraryConstantSignature.Expand | LibLSLCC/LibraryData/LSLLibraryConstantSignature.cs:771-775 | Defines the getter: the bag holds "Expand" with a value that lowers to "true". |
| FunctionSignatures.ReadAttribute | LibLSLCC/LibraryData/LSLLibraryFunctionSignature.cs:187-220 | An unknown attribute raises. Name, Subsets and ReturnType each set their field and flag, and ReturnType only when its value parses as an LSLType. |
| FunctionSignatures.ReadAttributes | LibLSLCC/LibraryData/LSLLibraryFunctionSignature.cs:187-220 | Defines the attribute loop: ReadAttribute on each attribute in document order, stopping at the first that raises. |
| FunctionSignatures.ReadElements | LibLSLCC/LibraryData/LSLLibraryFunctionSignature.cs:243-350 | Defines the element loop as written: each turn reads the node it is on and moves on by Step, stopping at the closing tag, at the end of the input or at the first node that raises. |
| FunctionSignatures.ReadSignature | LibLSLCC/LibraryData/LSLLibraryFunctionSignature.cs:177-351 | Defines ReadXml as a whole: the attribute loop from the signature's state, the three header checks, then the element loop from the signature's own parameters, documentation and properties, with no parameter names recorded and the variadic flag clear. |
| FunctionSignatures.CheckHeader | LibLSLCC/LibraryData/LSLLibraryFunctionSignature.cs:223-239 | The read fails exactly when Name, ReturnType or Subsets is missing. |
| FunctionSignatures.ParseVariadic | LibLSLCC/LibraryData/LSLLibraryFunctionSignature.cs:282-296 | An absent or blank value means false. Otherwise the value must be "true" or "false" in any letter case. |
| FunctionSignatures.ReadParameter | LibLSLCC/LibraryData/LSLLibraryFunctionSignature.cs:246-307 | It fails:<br>• after a variadic parameter;<br>• on a blank or reused name;<br>• on a bad Type or Variadic value;<br>• on a non-variadic Void parameter;<br>• on a name the LSLParameter constructor refuses as a symbol name.<br>Otherwise it appends the parameter and records its name. |
| FunctionSignatures.ReadProperty | LibLSLCC/LibraryData/LSLLibraryFunctionSignature.cs:314-341 | Accepts exactly a non-blank, unused name with a non-blank value, and adds that entry. |
| FunctionSignatures.ReadParameterKeepsInvariant | LibLSLCC/LibraryData/LSLLibraryFunctionSignature.cs:248-305 | Reading a parameter keeps the name set equal to the list's names, and keeps the list well formed. The new name is a valid symbol name. |
| FunctionSignatures.ReadElementsKeepsInvariant | LibLSLCC/LibraryData/LSLLibraryFunctionSignature.cs:243-350 | The element loop keeps that invariant. |
| FunctionSignatures.ReadSignatureParameterRules | LibLSLCC/LibraryData/LSLLibraryFunctionSignature.cs:248-305 | After a successful read into a signature with no parameters, as FromXmlFragment does:<br>• the variadic parameter, if any, is the last and only one;<br>• names are non-blank and distinct;<br>• Void appears only on a variadic parameter. |
| FunctionSignatures.ParametersInDocumentOrder | LibLSLCC/LibraryData/LSLLibraryFunctionSignature.cs:304-305 | Parameters are appended in document order after the existing ones. This holds for each Parameter element the loop visits, which excludes a node directly after a DocumentationString element. |
| FunctionSignatures.ParameterNamesDistinct | LibLSLCC/LibraryData/LSLLibraryFunctionSignature.cs:276-280 | A successful read has no two visited Parameter elements with the same name. The visited elements are the ones not directly after a DocumentationString element. |
| FunctionSignatures.ParameterElementOf | LibLSLCC/LibraryData/LSLLibraryFunctionSignature.cs:363-375 | WriteXml emits Name and Type, and emits Variadic="true" exactly for a variadic parameter. |
| FunctionSignatures.ParameterElements | LibLSLCC/LibraryData/LSLLibraryFunctionSignature.cs:363-375 | Emits one Parameter element per parameter, in list order. |
| FunctionSignatures.WriteElements | LibLSLCC/LibraryData/LSLLibraryFunctionSignature.cs:363-387 | Defines WriteXml's child nodes: the parameter elements, the documentation element, a property element per key in enumeration order, then the closing tag. |
| FunctionSignatures.WriteThenReadParameters | LibLSLCC/LibraryData/LSLLibraryFunctionSignature.cs:246-307 | Reading the emitted Parameter elements appends exactly the written parameters, variadic flags included. |
| FunctionSignatures.WriteThenReadProperties | LibLSLCC/LibraryData/LSLLibraryFunctionSignature.cs:381-387 | Reading the emitted Property elements adds each written entry. |
| FunctionSignatures.WriteThenReadAttributes | LibLSLCC/LibraryData/LSLLibraryFunctionSignature.cs:359-361 | The emitted attributes read back into the written name, return type and subsets, with all three flags set. |
| FunctionSignatures.WriteThenReadElements | LibLSLCC/LibraryData/LSLLibraryFunctionSignature.cs:363-387 | The child nodes as an indenting writer emits them, with whitespace before each element, read back into the written parameters, documentation and properties. |
| FunctionSignatures.WriteThenRead | LibLSLCC/LibraryData/LSLLibraryFunctionSignature.cs:177-388 | Reading what an indenting writer emits for WriteXml into a fresh signature gives the written signature back. This needs a valid name and subsets, valid and well-formed parameters, and non-blank properties. |
| FunctionSignatures.ParameterAfterDocumentationUnread | LibLSLCC/LibraryData/LSLLibraryFunctionSignature.cs:309-313 | A Parameter element directly after a DocumentationString element is stepped past unread: the read keeps only the documentation. |
| FunctionSignatures.IntendedSkipsWhiteSpace | LibLSLCC/LibraryData/LSLLibraryFunctionSignature.cs:346-349 | The one-node-per-turn loop reads indented input as it reads the elements alone, because the whitespace nodes fall through to the last branch. |
| FunctionSignatures.IndentedReadsAsIntended | LibLSLCC/LibraryData/LSLLibraryFunctionSignature.cs:309-313 | On indented input, where a whitespace node comes before every element, the loop as written reads exactly what the one-node-per-turn loop reads from the elements alone. The node it skips after a DocumentationString element is always whitespace. |
| FunctionSignatures.WriteThenReadElementsIntended | LibLSLCC/LibraryData/LSLLibraryFunctionSignature.cs:241-350 | The one-node-per-turn loop reads the emitted child elements back into the written parameters, documentation and properties, with or without indentation. |
| FunctionSignatures.UnindentedOutputLosesProperty | LibLSLCC/LibraryData/LSLLibraryFunctionSignature.cs:309-313 | Without indentation, a signature with no parameters and one property reads back without that property. |
| FunctionSignatures.UnindentedOutputReadsPastEnd | LibLSLCC/LibraryData/LSLLibraryFunctionSignature.cs:309-313 | When the closing tag directly follows a DocumentationString element, the loop steps past it and reads a Property element that comes after the function's element. |
| FunctionSignatures.FunctionSignature.ReadXml | LibLSLCC/LibraryData/LSLLibraryFunctionSignature.cs:177-351 | The attribute loop, the header checks and the element loop, including the node the loop skips after a DocumentationString element. It raises exactly when ReadSignature fails, with the same error, and otherwise leaves the signature as ReadSignature computes. |
| FunctionSignatures.FunctionSignature.ReadAttributesInto | LibLSLCC/LibraryData/LSLLibraryFunctionSignature.cs:184-220 | The attribute loop computes ReadAttributes and stores the name, return type and subsets it reads. |
| FunctionSignatures.FunctionSignature.ReadElementsInto | LibLSLCC/LibraryData/LSLLibraryFunctionSignature.cs:241-350 | The element loop computes ReadElements and stores the parameters, documentation and properties it reads. After a DocumentationString element it moves two nodes on, as the source does. |
| FunctionSignatures.FunctionSignature.WriteParameterElements | LibLSLCC/LibraryData/LSLLibraryFunctionSignature.cs:363-375 | The parameter loop emits ParameterElements of the parameter list. |
| FunctionSignatures.FunctionSignature.WriteXml | LibLSLCC/LibraryData/LSLLibraryFunctionSignature.cs:357-388 | Emits the three attributes, then the parameters, the documentation and the properties in enumeration order. |
| FunctionSignatures.FunctionSignature.SetDeprecated | LibLSLCC/LibraryData/LSLLibraryFunctionSignature.cs:422-444 | The bag becomes SetToggle of "Deprecated", and Deprecated reads back the value set. ModInvoke and the other fields are unchanged. |
| FunctionSignatures.FunctionSignature.SetModInvoke | LibLSLCC/LibraryData/LSLLibraryFunctionSignature.cs:449-470 | The bag becomes SetToggle of "ModInvoke", and ModInvoke reads back the value set. Deprecated and the other fields are unchanged. |
| FunctionSignatures.FunctionSignature.FromXmlFragment | LibLSLCC/LibraryData/LSLLibraryFunctionSignature.cs:410-416 | A fresh signature that holds ReadSignature's result from the empty signature, or ReadSignature's error. The same documentation skip applies. |
| FunctionSignatures.FunctionSignature.Deprecated | LibLSLCC/LibraryData/LSLLibraryFunctionSignature.cs:422-429 | Defines the getter: the bag holds "Deprecated" with a value that lowers to "true". |
| FunctionSignatures.FunctionSignature.ModInvoke | LibLSLCC/LibraryData/LSLLibraryFunctionSignature.cs:449-454 | Defines the getter: the bag holds "ModInvoke" with a value that lowers to "true". |
| LibrarySubsets.ToSubsetName | LibLSLCC/LibraryData/LSLEmbeddedLibraryDataProvider.cs:371-382 | StandardLsl gives "lsl" and OpensimLsl gives "os-lsl". Any other value raises ArgumentOutOfRange("baseDataOption"). |
| LibrarySubsets.FlagsArePowersOfTwo | LibLSLCC/LibraryData/LSLEmbeddedLibraryDataProvider.cs:265-296 | The five flags are 1, 2, 4, 8 and 16, and each one tests only itself. |
| LibrarySubsets.ToSubsetNamesInTableOrder | LibLSLCC/LibraryData/LSLEmbeddedLibraryDataProvider.cs:309-340 | The five flag tests yield the names of the set flags in the fixed order ossl, os-lightshare, os-bullet-physics, os-mod-api, os-json-store. |
| LibrarySubsets.ToSubsetNames | LibLSLCC/LibraryData/LSLEmbeddedLibraryDataProvider.cs:309-340 | Defines the names yielded: "ossl", "os-lightshare", "os-bullet-physics", "os-mod-api" and "os-json-store", each when its flag is set, in that order. |
| LibrarySubsets.AdditionNamesDistinct | LibLSLCC/LibraryData/LSLEmbeddedLibraryDataProvider.cs:313-338 | The five subset names are distinct. |
| LibrarySubsets.SubsetNamesMatchFlags | LibLSLCC/LibraryData/LSLEmbeddedLibraryDataProvider.cs:309-340 | A name is yielded exactly when its flag is set. Only addition names are yielded, with no repeats, so there is one name per set flag. |
| LibrarySubsets.SubsetNamesExamples | LibLSLCC/LibraryData/LSLEmbeddedLibraryDataProvider.cs:309-340 | None yields nothing, all five flags yield all five names, and a single flag yields its own name. |
| LibrarySubsets.HigherBitsIgnored | LibLSLCC/LibraryData/LSLEmbeddedLibraryDataProvider.cs:309-340 | Bits above the five flags make no difference. |
| LibrarySubsets.GetSubsets | LibLSLCC/LibraryData/LSLEmbeddedLibraryDataProvider.cs:248-257 | Raises exactly when ToSubsetName does, with the same error. |
| LibrarySubsets.GetSubsetsShape | LibLSLCC/LibraryData/LSLEmbeddedLibraryDataProvider.cs:248-257 | The base name comes first and the addition names follow. No subset is named twice. |
| LibrarySubsets.EmbeddedLibraryDataProvider.WithLibraryData | LibLSLCC/LibraryData/LSLEmbeddedLibraryDataProvider.cs:86-113 | The active subsets are GetSubsets of the arguments. The backing fields keep their defaults. |
| LibrarySubsets.EmbeddedLibraryDataProvider.SetLiveFilteringBaseLibraryData | LibLSLCC/LibraryData/LSLEmbeddedLibraryDataProvider.cs:206-217 | An unchanged value does nothing. Otherwise the active subsets become GetSubsets of the new base and the current additions, and the value is stored. The active subsets stay in step with the backing fields. |
| LibrarySubsets.EmbeddedLibraryDataProvider.SetLiveFilteringLibraryDataAdditions | LibLSLCC/LibraryData/LSLEmbeddedLibraryDataProvider.cs:222-233 | The mirror image of the base-data setter, for the additions. |
| ControlStatements.JumpEqualsIsKeyEquality | LibLSLCC/CodeValidator/ValidatorNodes/StatementNodes/LSLControlStatementNode.cs:324-328 | Two jumps are equal exactly when they have the same target label and the same label ScopeId. |
| ControlStatements.JumpEquals | LibLSLCC/CodeValidator/ValidatorNodes/StatementNodes/LSLControlStatementNode.cs:324-328 | Defines JumpCmp.Equals: the two jumps have the same target node and the same scope id. |
| ControlStatements.AddAll | LibLSLCC/CodeValidator/ValidatorNodes/StatementNodes/LSLControlStatementNode.cs:295 | Building the HashSet keeps one jump per key, and holds exactly the keys seen. |
| ControlStatements.KeepKeys | LibLSLCC/CodeValidator/ValidatorNodes/StatementNodes/LSLControlStatementNode.cs:301-307 | IntersectWith keeps exactly the elements whose key the other set holds. |
| ControlStatements.IntersectAllKeys | LibLSLCC/CodeValidator/ValidatorNodes/StatementNodes/LSLControlStatementNode.cs:296-308 | After intersecting with every branch, a candidate is left exactly when every branch holds its key. |
| ControlStatements.CommonFacts | LibLSLCC/CodeValidator/ValidatorNodes/StatementNodes/LSLControlStatementNode.cs:294-308 | The jumps left are if-branch jumps shared by every other branch, one per label. Every shared label is among them. |
| ControlStatements.ConstantJumpIsCommon | LibLSLCC/CodeValidator/ValidatorNodes/StatementNodes/LSLControlStatementNode.cs:287-317 | With neither else-ifs nor an else the result is null. A returned jump is one of the if branch's jumps, is shared by every other branch, is the only shared label, and carries this node as its effective statement. With other branches present, null means no label is shared. Failure means at least two labels are shared. |
| ControlStatements.ConstantJump | LibLSLCC/CodeValidator/ValidatorNodes/StatementNodes/LSLControlStatementNode.cs:287-318 | Defines GetConstantJump on the branches' jump sets: null without an else-if or an else; otherwise the if branch's jumps kept by every other branch, none giving null, one giving that jump through this statement, more raising. |
| ControlStatements.HashSetOf | LibLSLCC/CodeValidator/ValidatorNodes/StatementNodes/LSLControlStatementNode.cs:295 | The HashSet construction loop computes AddAll. |
| ControlStatements.IntersectWithEach | LibLSLCC/CodeValidator/ValidatorNodes/StatementNodes/LSLControlStatementNode.cs:296-308 | The IntersectWith loop computes IntersectAll. |
| ControlStatements.ControlStatementNode.Create | LibLSLCC/CodeValidator/ValidatorNodes/StatementNodes/LSLControlStatementNode.cs:86-126 | Null if, else-if and else branches are refused in that order. On success every branch is stored in order with this node as its Parent. No branch's return-path flag or constant jumps change. |
| ControlStatements.ControlStatementNode.SetIfStatement | LibLSLCC/CodeValidator/ValidatorNodes/StatementNodes/LSLControlStatementNode.cs:143-156 | Null raises and changes nothing. Otherwise the branch is stored and gets this node as Parent. |
| ControlStatements.ControlStatementNode.SetElseStatement | LibLSLCC/CodeValidator/ValidatorNodes/StatementNodes/LSLControlStatementNode.cs:128-141 | Null is accepted and removes the else branch. Otherwise the branch is stored and gets this node as Parent. |
| ControlStatements.ControlStatementNode.AddElseIfStatement | LibLSLCC/CodeValidator/ValidatorNodes/StatementNodes/LSLControlStatementNode.cs:210-220 | Null raises and changes nothing. Otherwise the branch is appended after the earlier ones and gets this node as Parent. |
| ControlStatements.ControlStatementNode.ReturnPathIffAllBranches | LibLSLCC/CodeValidator/ValidatorNodes/StatementNodes/LSLControlStatementNode.cs:222-231 | The chain has a return path exactly when the if branch, every else-if and an existing else all have one. Without an else it never has one. |
| ControlStatements.ControlStatementNode.HasReturnPath | LibLSLCC/CodeValidator/ValidatorNodes/StatementNodes/LSLControlStatementNode.cs:222-231 | Defines HaveReturnPath in its two cases: without else-ifs, the if and an existing else have return paths; with else-ifs, every else-if has one as well. |
| ControlStatements.ControlStatementNode.GetConstantJump | LibLSLCC/CodeValidator/ValidatorNodes/StatementNodes/LSLControlStatementNode.cs:287-317 | Null when there are neither else-ifs nor an else, with or without an if branch. Otherwise it computes ConstantJump of the branches' jump sets through this node. |
| CompilationUnits.CompilationUnitNode.IndicesIncrease | LibLSLCC/CodeValidator/ValidatorNodes/ScopeNodes/LSLCompilationUnitNode.cs:185-193 | The global variables' statement indices strictly increase along the list. |
| CompilationUnits.CompilationUnitNode.AddVariableDeclaration | LibLSLCC/CodeValidator/ValidatorNodes/ScopeNodes/LSLCompilationUnitNode.cs:177-195 | The declaration gets:<br>• this node as Parent;<br>• the counter before the increment as its index;<br>• the last-statement flag.<br>The previous last global loses the flag. The counter goes up by one and only the global list grows. The bookkeeping invariant is kept. |
| CompilationUnits.CompilationUnitNode.AddFunctionDeclaration | LibLSLCC/CodeValidator/ValidatorNodes/ScopeNodes/LSLCompilationUnitNode.cs:203-218 | The declaration gets this node as Parent, the last global loses its flag, and the counter goes up by one. Only the function list grows, and the invariant is kept. |
| CompilationUnits.CompilationUnitNode.AddStateDeclaration | LibLSLCC/CodeValidator/ValidatorNodes/ScopeNodes/LSLCompilationUnitNode.cs:226-242 | The declaration gets this node as Parent, the last global loses its flag, and the counter goes up by one. Only the state list grows, and the invariant is kept. |
| CompilationUnits.CompilationUnitNode.SetDefaultState | LibLSLCC/CodeValidator/ValidatorNodes/ScopeNodes/LSLCompilationUnitNode.cs:107-130 | Null raises. Only the first assignment counts: it clears the last global's flag and raises the counter. The state gets this node as Parent, and the invariant is kept. |
| RotationLiterals.RotationLiteralNode.GetError | LibLSLCC/CodeValidator/ValidatorNodes/ExpressionNodes/LSLRotationLiteralNode.cs:176-180 | A fresh error node with HasErrors set and the given source range. |
| RotationLiterals.RotationLiteralNode.Create | LibLSLCC/CodeValidator/ValidatorNodes/ExpressionNodes/LSLRotationLiteralNode.cs:68-113 | The context, then x, y, z and s are each checked for null, and the first null raises with its name. Succeeds exactly when all five are present. Every component gets the new node as Parent, and the range comes from the context. |
| RotationLiterals.RotationLiteralNode.Type | LibLSLCC/CodeValidator/ValidatorNodes/ExpressionNodes/LSLRotationLiteralNode.cs:271-274 | Always Rotation. |
| RotationLiterals.RotationLiteralNode.ExpressionKind | LibLSLCC/CodeValidator/ValidatorNodes/ExpressionNodes/LSLRotationLiteralNode.cs:284-287 | Always Literal. |
| RotationLiterals.RotationLiteralNode.Clone | LibLSLCC/CodeValidator/ValidatorNodes/ExpressionNodes/LSLRotationLiteralNode.cs:197-211 | An error node clones into an error node with the same range. Any other node clones into a fresh node with:<br>• four fresh cloned components, parented to it;<br>• the same HasErrors and Parent;<br>• the same constancy. |
| RotationLiterals.RotationLiteralNode.IsConstant | LibLSLCC/CodeValidator/ValidatorNodes/ExpressionNodes/LSLRotationLiteralNode.cs:293-309 | Defines IsConstant: all four components are present and each is constant. |
| PostfixOperations.PostfixOperationNode.GetError | LibLSLCC/CodeValidator/Nodes/LSLPostfixOperationNode.cs:127-131 | A fresh error node with HasErrors set and the given source range. |
| PostfixOperations.PostfixOperationNode.Create | LibLSLCC/CodeValidator/Nodes/LSLPostfixOperationNode.cs:68-93 | A null context, then a null left expression, raises. On success the node stores the result type and the operand, and the operand gets the node as Parent. |
| PostfixOperations.PostfixOperationNode.Type | LibLSLCC/CodeValidator/Nodes/LSLPostfixOperationNode.cs:214 | The result type the node was built with. |
| PostfixOperations.PostfixOperationNode.ExpressionKind | LibLSLCC/CodeValidator/Nodes/LSLPostfixOperationNode.cs:224-227 | Always PostfixExpression. |
| PostfixOperations.PostfixOperationNode.Clone | LibLSLCC/CodeValidator/Nodes/LSLPostfixOperationNode.cs:153-165 | An error node clones into an error node with the same range. Any other node clones into a fresh node with:<br>• a fresh cloned operand, parented to it;<br>• the same Type, HasErrors and Parent;<br>• the same constancy. |
| PostfixOperations.PostfixOperationNode.IsConstant | LibLSLCC/CodeValidator/Nodes/LSLPostfixOperationNode.cs:233-236 | Defines IsConstant: the operand is present and constant. |
| ScopeAddresses.New | LibLSLCC/AutoComplete/LSLAutoCompleteScopeAddress.cs:128-133 | Each argument is stored in the field of the same name. |
| ScopeAddresses.EqualsIsEquivalence | LibLSLCC/AutoComplete/LSLAutoCompleteScopeAddress.cs:62-65 | Equals is field-wise equality, so it is reflexive, symmetric and transitive. |
| ScopeAddresses.Equals | LibLSLCC/AutoComplete/LSLAutoCompleteScopeAddress.cs:62-65 | Defines Equals: the CodeAreaId, ScopeLevel and ScopeId of both addresses are equal. |
| ScopeAddresses.EqualsObject | LibLSLCC/AutoComplete/LSLAutoCompleteScopeAddress.cs:75-79 | Defines Equals(object): false for null, Equals for a boxed address, false for any other object. |
| ScopeAddresses.OpEquality | LibLSLCC/AutoComplete/LSLAutoCompleteScopeAddress.cs:105-108 | Defines operator == as Equals. |
| ScopeAddresses.OpInequality | LibLSLCC/AutoComplete/LSLAutoCompleteScopeAddress.cs:116-119 | Defines operator != as the negation of Equals. |
| ScopeAddresses.GetHashCode | LibLSLCC/AutoComplete/LSLAutoCompleteScopeAddress.cs:88-97 | Defines the hash: ((CodeAreaId·397) xor ScopeLevel)·397 xor ScopeId, with the products taken modulo 2^32 as unchecked Int32. |
| ScopeAddresses.OperatorsAgree | LibLSLCC/AutoComplete/LSLAutoCompleteScopeAddress.cs:105-119 | == agrees with Equals, and != is its negation. |
| ScopeAddresses.EqualsObjectCases | LibLSLCC/AutoComplete/LSLAutoCompleteScopeAddress.cs:75-79 | Equals(object) is false for null and for other types. For a boxed address it agrees with Equals. |
| ScopeAddresses.HashConsistent | LibLSLCC/AutoComplete/LSLAutoCompleteScopeAddress.cs:88-97 | Equal addresses have equal hash codes. |
| ScopeAddresses.HashOfTopScope | LibLSLCC/AutoComplete/LSLAutoCompleteScopeAddress.cs:88-97 | With CodeAreaId and ScopeLevel 0, the hash is the ScopeId. |
| ScopeAddresses.HashWrapsAround | LibLSLCC/AutoComplete/LSLAutoCompleteScopeAddress.cs:90-95 | The multiplications wrap at 32 bits: CodeAreaId 100000 hashes to -1418969184. |
| ScopeAddresses.ToStringRoundTrip | LibLSLCC/AutoComplete/LSLAutoCompleteScopeAddress.cs:163-166 | The text form reads back into the same address. |
| ScopeAddresses.ToString | LibLSLCC/AutoComplete/LSLAutoCompleteScopeAddress.cs:163-166 | Defines the text "(CodeAreaID: a, ScopeId: b, ScopeLevel: c)" with the three numbers in decimal. |
| ScopeAddresses.ToStringInjective | LibLSLCC/AutoComplete/LSLAutoCompleteScopeAddress.cs:163-166 | Distinct addresses have distinct text forms. |

## Left out

- Text.ToLower: lowers ASCII letters only. Culture-specific case mappings of `String.ToLower` are not modelled.
- LslTypes.EnumTryParse: accepts only an exact, case-sensitive member name. `Enum.TryParse` also accepts numeric text, surrounding whitespace and comma-separated flag lists, which are not modelled.
- Foreign calls become function parameters, and nothing is assumed about them:
  - `double.TryParse` is `floatParses`;
  - `LSLListParser.Format` is `formatList`;
  - `LSLTokenTools.IDRegexAnchored` is `idMatches`;
  - `LSLFormatTools.ShowControlCodeEscapes` is `escapes`;
  - `string.GetHashCode` is `stringHash`;
  - the symbol-name check is `nameValid`. The base class's Name setter uses it for the function name, and the LSLParameter constructor uses it for each parameter name;
  - `LSLLibraryDataSubsetCollection.SetSubsets` is `subsetsValid`.
- Subsets of a function signature are kept as the raw attribute text. The subset collection's own parsing and its `string.Join` output are not part of this model.
- The base `LSLFunctionSignature.AddParameter` is modelled as a plain append; any checks of its own are not part of this model.
- FunctionSignatures.ReadSignatureParameterRules: stated for a read into a signature with no parameters. ReadXml records parameter names in a fresh set (LSLLibraryFunctionSignature.cs:179) and appends to the existing list (:305), so reading into a signature that already holds a parameter does not reject a second one with the same name.
- FunctionSignatures.WriteThenRead: stated for what an indenting writer emits. Unindented output does not read back, because of the documentation skip under "## Findings". WriteThenReadElements is stated for indented output for the same reason.
- XML reading and writing are abstracted to sequences of attribute and element records. Line numbers in error messages are not modelled. The order in which the property dictionary enumerates is a `keys` parameter of WriteXml.
- The constant signature's `ReadXml`/`WriteXml`/`FromXmlFragment`, `SignatureString`, `SignatureAndDocumentation`, `DocumentationString` and the copy constructors are not modelled. Neither are the function signature's `Parse` and its copy constructors.
- The embedded provider's constructors read a manifest resource stream and call `FillFromXml`, which is not modelled. `WithLibraryData` and `WithSubsets` model only the subsets they pass on.
- `LSLConstantJumpDescription` is not part of this model beyond its determining jump and effective statement. Jumps are identified by node ids.
- ControlStatements.ControlStatementNode.GetConstantJump: requires an if branch whenever there is an else-if or an else. With else branches the source builds a HashSet over IfStatement.ConstantJumps (LSLControlStatementNode.cs:295), which raises NullReferenceException when there is no if branch; that exception is not modelled.
- ControlStatements.ControlStatementNode.ReturnPathIffAllBranches: requires an if branch. The source's HaveReturnPath dereferences it unconditionally, and a node built by GetError has none.
- LibrarySubsets.EmbeddedLibraryDataProvider.SetLiveFilteringBaseLibraryData: a failure is modelled as leaving everything unchanged. This assumes SetSubsets checks every name GetSubsets yields before it changes the active subsets. GetSubsets is lazy, and SetSubsets is not part of this model.
- LibrarySubsets.EmbeddedLibraryDataProvider.SetLiveFilteringLibraryDataAdditions: a failure is modelled as atomic in the same way, under the same assumption about SetSubsets.
- The parser-context null checks of the control-statement and compilation-unit constructors are not modelled: the context is dropped, and the GetError nodes have none.
- The else-if sequence is a value and never null, so the constructor's null check on the else-if enumerable is not modelled. Null entries in it are checked.
- JumpCmp.GetHashCode hashes the jump target's ScopeId and the determining jump's label name, which Equals does not compare. Agreement between the comparer's Equals and hash is not modelled. The intersection is modelled by Equals alone.
- ScopeAddresses.ToString: writes '-' for a negative number. This assumes a culture whose NegativeSign is '-'.
- The add counter is an unbounded `int`. C#'s wrap-around after 2^31 additions is not modelled.
- The child expressions of the rotation and postfix nodes are a stand-in class with a Parent, a constancy flag, an error flag and a Clone. Nesting one modelled node inside another is not modelled.
- RotationLiterals.RotationLiteralNode.Clone: requires a node that is an error node or was built by the main constructor. The source dereferences the components, and another node would throw.
- PostfixOperations.PostfixOperationNode.Clone: requires a node that is an error node or was built by the main constructor, for the same reason.
- CompilationUnits.CompilationUnitNode.AddVariableDeclaration: keeps the bookkeeping invariant only when the declaration is not already in the list. Adding the same object twice breaks the index ordering in the source as well.
- The postfix node's `Operation`/`OperationString` (`ParseFromOperator` over the token text) are not modelled. Neither are source ranges beyond an opaque id, the comma and operator ranges, or the other auto-properties (`ReturnPath`, `DeadCodeType`, `ScopeId`, `IsDeadCode`, `Comments`).
- ControlStatements.IntersectWithEach: one loop serves the else-if branches and then the else branch. The source has two separate steps, which compute the same set.
- `LSLListParser.Format` output beyond the bracket and whitespace checks is not modelled.
- Float parsing and formatting are not modelled.

## Findings

| source | as written | input that shows it | evidently intended | confidence | as-written member | corrected member |
|---|---|---|---|---|---|---|
| LibLSLCC/LibraryData/LSLLibraryFunctionSignature.cs:309-313 | `ReadElementContentAsString` already leaves the reader on the node after `</DocumentationString>`. The `reader.Read()` after it then moves past that node without looking at it. | Unindented `<LibraryFunction Name="llFoo" ReturnType="Void" Subsets="lsl"><DocumentationString></DocumentationString><Property Name="Deprecated" Value="true"/></LibraryFunction>` reads back without its property. | Each node after the documentation is read, so what WriteXml writes reads back whether or not it is indented. | not executed | FunctionSignatures.UnindentedOutputLosesProperty | FunctionSignatures.WriteThenReadElementsIntended |
