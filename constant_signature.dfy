/**
 * LSLLibraryConstantSignature: a library constant's name, type, value string and property
 * bag. The `ValueString` setter normalises and validates the text for the constant's type;
 * that normalisation is stated here as pure functions, and the class's setters are proved
 * to store exactly what those functions compute, leaving the signature unchanged when they
 * raise.
 */
module ConstantSignatures {
  import opened Wrappers
  import Text
  import opened LslTypes
  import opened Int32s
  import PropertyBags

  /** The exceptions the signature's setters raise. */
  datatype ConstantError =
    | ValueNull                           // ArgumentNullException("value")
    | InvalidConstantType(message: string) // LSLLibraryDataInvalidConstantTypeException
    | InvalidSymbolName(message: string)   // LSLInvalidSymbolNameException
    | InvalidValueString(message: string)  // LSLInvalidConstantValueStringException

  // ---------------------------------------------------------------- Float

  /** The type specifiers `TrimEnd('f', 'F', 'd', 'D')` removes from a float value. */
  predicate IsFloatSuffix(c: char) {
    c == 'f' || c == 'F' || c == 'd' || c == 'D'
  }

  /**
   * SetFloatValueString. `floatParses` stands for double.TryParse. When the stripped text is
   * not a float, the unstripped text must be bare hexadecimal; in every accepted case the
   * stored text is the stripped one, because the assignment of the hexadecimal text is
   * overwritten by the assignment that follows it.
   */
  function FloatValueString(value: string, floatParses: string -> bool): (r: Result<string, ConstantError>)
    ensures r.Success? <==> floatParses(Text.TrimEnd(value, IsFloatSuffix)) || Text.ParsesAsHexInt32(value)
    ensures r.Success? ==> r.value == Text.TrimEnd(value, IsFloatSuffix)
    ensures r.Failure? ==> r.error.InvalidValueString?
  {
    var stripSpecifiers := Text.TrimEnd(value, IsFloatSuffix);
    if !floatParses(stripSpecifiers) && !Text.ParsesAsHexInt32(value) then
      Failure(InvalidValueString("Float Constant ValueString:  Given string '" + value + "' is not a valid float value."))
    else
      Success(stripSpecifiers)
  }

  /** A stored float value never ends in a type specifier. */
  lemma FloatStoredHasNoSuffix(value: string, floatParses: string -> bool)
    requires FloatValueString(value, floatParses).Success?
    ensures var v := FloatValueString(value, floatParses).value;
            v == [] || !IsFloatSuffix(v[|v| - 1])
  {
  }

  /** The value of a hexadecimal text is at least the value of any of its prefixes. */
  lemma {:induction false} HexValuePrefix(s: string, k: nat)
    requires Text.AllHexDigits(s) && k <= |s|
    ensures Text.AllHexDigits(s[..k])
    ensures Text.HexValue(s[..k]) <= Text.HexValue(s)
    decreases |s|
  {
    if k < |s| {
      var t := s[..|s| - 1];
      assert t[..k] == s[..k];
      assert Text.AllHexDigits(t);
      HexValuePrefix(t, k);
      assert Text.HexValue(s) == 16 * Text.HexValue(t) + Text.HexDigitValue(s[|s| - 1]);
    } else {
      assert s[..k] == s;
    }
  }

  /** Re-setting a stored non-empty float value stores it again. */
  lemma {:induction false} FloatIdempotent(value: string, floatParses: string -> bool)
    requires FloatValueString(value, floatParses).Success?
    requires FloatValueString(value, floatParses).value != []
    ensures FloatValueString(FloatValueString(value, floatParses).value, floatParses)
            == FloatValueString(value, floatParses)
  {
    var v := Text.TrimEnd(value, IsFloatSuffix);
    assert Text.TrimEnd(v, IsFloatSuffix) == v;
    if !floatParses(v) {
      HexValuePrefix(value, |v|);
      assert value[..|v|] == v;
    }
  }

  /**
   * The hexadecimal fallback stores the stripped text too: "FF" is accepted as a float
   * (it is hexadecimal) but both of its digits are type specifiers, so "" is stored, and ""
   * is then not accepted by the same setter.
   */
  lemma {:induction false} FloatHexFallbackStripsDigits(floatParses: string -> bool)
    requires !floatParses("")
    ensures FloatValueString("FF", floatParses) == Success("")
    ensures FloatValueString("", floatParses).Failure?
    ensures !floatParses("1A") ==> FloatValueString("1A", floatParses) == Success("1A")
  {
    assert Text.TrimEnd("FF", IsFloatSuffix) == "" by {
      assert Text.TrimEnd("F", IsFloatSuffix) == "";
      assert "FF"[..1] == "F";
    }
    assert Text.HexValue("FF") == 255 by {
      assert "FF"[..1] == "F";
    }
    assert Text.TrimEnd("", IsFloatSuffix) == "";
    assert Text.TrimEnd("1A", IsFloatSuffix) == "1A";
    assert Text.HexValue("1A") == 26 by {
      assert "1A"[..1] == "1";
    }
  }

  // -------------------------------------------------------------- Integer

  /**
   * SetIntegerValueString: a Boolean.TryParse boolean is stored as "1" or "0"; otherwise the
   * text must parse as a decimal Int32 or as bare hexadecimal and is stored unchanged.
   */
  function IntegerValueString(value: string): (r: Result<string, ConstantError>)
    ensures Text.ParseBool(value) == Some(true) ==> r == Success("1")
    ensures Text.ParseBool(value) == Some(false) ==> r == Success("0")
    ensures Text.ParseBool(value).None? ==>
              (r.Success? <==> Text.ParsesAsInt32(value) || Text.ParsesAsHexInt32(value))
    ensures Text.ParseBool(value).None? && r.Success? ==> r.value == value
    ensures r.Failure? ==> r.error.InvalidValueString?
  {
    match Text.ParseBool(value)
    case Some(b) => Success(if b then "1" else "0")
    case None =>
      if !Text.ParsesAsInt32(value) && !Text.ParsesAsHexInt32(value) then
        Failure(InvalidValueString("Integer Constant ValueString:  Given value '" + value
                                   + "' is not a valid integer, hexadecimal or boolean value."))
      else Success(value)
  }

  lemma DigitTextIsNotBool(d: char)
    requires d == '0' || d == '1'
    ensures Text.ParseBool([d]).None?
    ensures Text.ParsesAsInt32([d])
  {
    Text.TrimUnchanged([d], Text.IsWhiteSpaceOrNul);
    Text.TrimUnchanged([d], Text.IsNumberWhite);
    assert Text.ToLower([d]) == [d];
    assert Text.DecimalValue([d]) == Text.DigitValue(d) by {
      assert [d][..0] == [];
    }
  }

  /** Re-setting a stored integer value stores it again. */
  lemma {:induction false} IntegerIdempotent(value: string)
    requires IntegerValueString(value).Success?
    ensures IntegerValueString(IntegerValueString(value).value) == IntegerValueString(value)
  {
    if Text.ParseBool(value).Some? {
      DigitTextIsNotBool('1');
      DigitTextIsNotBool('0');
    }
  }

  // ------------------------------------------------- Bracketed value strings

  predicate IsSpace(c: char) {
    c == ' '
  }

  /** Why a bracketed value string was refused. */
  datatype BracketError = Blank | Unbalanced

  /**
   * The bracket discipline shared by the list, vector and rotation setters: trim spaces,
   * refuse a blank result, require `open` and `close` both or neither at the ends, and
   * remove them when present.
   */
  function Unbracket(value: string, open: char, close: char): (r: Result<string, BracketError>)
    requires open != close
    ensures var s := Text.Trim(value, IsSpace);
            && (Text.IsBlank(s) ==> r == Failure(Blank))
            && (!Text.IsBlank(s) && (s[0] == open) != (s[|s| - 1] == close) ==> r == Failure(Unbalanced))
            && (!Text.IsBlank(s) && s[0] == open && s[|s| - 1] == close ==> r == Success(s[1..|s| - 1]))
            && (!Text.IsBlank(s) && s[0] != open && s[|s| - 1] != close ==> r == Success(s))
  {
    var s := Text.Trim(value, IsSpace);
    if Text.IsBlank(s) then Failure(Blank)
    else
      var firstChar := s[0];
      var lastChar := s[|s| - 1];
      if (firstChar == open || lastChar == close) && (firstChar != open || lastChar != close) then
        Failure(Unbalanced)
      else if firstChar == open then Success(s[1..|s| - 1])
      else Success(s)
  }

  // ------------------------------------------------------------------ List

  /**
   * SetListValueString. `formatList` stands for LSLListParser.Format, which either yields the
   * formatted list text or raises a syntax error with a message.
   */
  function ListValueString(value: string, formatList: string -> Result<string, string>): (r: Result<string, ConstantError>)
    ensures Unbracket(value, '[', ']').Failure? ==> r.Failure?
    ensures Unbracket(value, '[', ']').Success? ==>
              var f := formatList("[" + Unbracket(value, '[', ']').value + "]");
              (r.Success? <==> f.Success?) && (r.Success? ==> r.value == f.value)
  {
    match Unbracket(value, '[', ']')
    case Failure(Blank) =>
      Failure(InvalidValueString("List Constant ValueString Invalid: May not be null or whitespace."))
    case Failure(Unbalanced) =>
      Failure(InvalidValueString("List Constant ValueString '{0}' Invalid: If brackets are used for "
                                 + "the List value string, both brackets must be present."))
    case Success(s) =>
      match formatList("[" + s + "]")
      case Success(formatted) => Success(formatted)
      case Failure(message) => Failure(InvalidValueString("List Constant ValueString Invalid: " + message))
  }

  /**
   * The List setter stores "" as soon as the unbracketed text is blank, before it calls the
   * formatter; when the formatter then raises, that "" is what the field keeps.
   */
  predicate ClearsBeforeFormatting(value: string) {
    Unbracket(value, '[', ']').Success? && Text.IsBlank(Unbracket(value, '[', ']').value)
  }

  // ------------------------------------------------------ Vector / Rotation

  /** The characters a component of the vector and rotation patterns is made of. */
  predicate IsFloatChar(c: char) {
    Text.IsDigit(c) || c == '.' || c == '-' || c == '+'
  }

  /** A full match of the component pattern `[-+]?[0-9]*(?:\.[0-9]*)`. */
  predicate IsFloatComponent(t: string) {
    var u := if t != [] && (t[0] == '-' || t[0] == '+') then t[1..] else t;
    var dot := Text.IndexOf(u, '.');
    dot < |u| && Text.AllDigits(u[..dot]) && Text.AllDigits(u[dot + 1..])
  }

  lemma FloatComponentChars(t: string)
    requires IsFloatComponent(t)
    ensures t != []
    ensures forall i :: 0 <= i < |t| ==> IsFloatChar(t[i])
  {
    var u := if t != [] && (t[0] == '-' || t[0] == '+') then t[1..] else t;
    var dot := Text.IndexOf(u, '.');
    assert u == u[..dot] + ['.'] + u[dot + 1..];
    assert forall i :: 0 <= i < |u| ==> IsFloatChar(u[i]) by {
      forall i | 0 <= i < |u|
        ensures IsFloatChar(u[i])
      {
        if i < dot {
          assert u[i] == u[..dot][i];
        } else if i > dot {
          assert u[i] == u[dot + 1..][i - dot - 1];
        }
      }
    }
    if t != [] && (t[0] == '-' || t[0] == '+') {
      assert forall i :: 1 <= i < |t| ==> t[i] == u[i - 1];
    }
  }

  /** The `\s*` next to a separator: a piece loses white space on each side that touches a comma. */
  function StripSeparatorSpace(parts: seq<string>, i: nat): string
    requires i < |parts|
  {
    var p := if i > 0 then Text.TrimStart(parts[i], Text.IsWhiteSpace) else parts[i];
    if i < |parts| - 1 then Text.TrimEnd(p, Text.IsWhiteSpace) else p
  }

  /** The text the pattern's `$` anchor lets the last component end at: before a final '\n', if any. */
  function AnchoredBody(s: string): (r: string)
    ensures r == s || (s != [] && s[|s| - 1] == '\n' && r == s[..|s| - 1])
  {
    if s != [] && s[|s| - 1] == '\n' then s[..|s| - 1] else s
  }

  /**
   * Matching `^F\s*,\s*F ... ,\s*F$` with `n` copies of the component pattern F: the
   * captured components, when the text is `n` comma-separated components with white space
   * allowed only next to the commas.
   */
  function ComponentTexts(s: string, n: nat): (r: Option<seq<string>>)
    ensures r.Some? ==> |r.value| == n
    ensures r.Some? ==> forall i :: 0 <= i < n ==> IsFloatComponent(r.value[i])
  {
    ComponentsOfPieces(Text.SplitOn(AnchoredBody(s), ','), n)
  }

  /** The components captured from the comma-separated pieces, when there are `n` of them and all match. */
  function ComponentsOfPieces(parts: seq<string>, n: nat): (r: Option<seq<string>>)
    ensures r.Some? ==> |r.value| == n
    ensures r.Some? ==> forall i :: 0 <= i < n ==> IsFloatComponent(r.value[i])
  {
    if |parts| != n then None
    else
      var comps := seq(n, i requires 0 <= i < n => StripSeparatorSpace(parts, i));
      if forall i :: 0 <= i < n ==> IsFloatComponent(comps[i]) then Some(comps) else None
  }

  /**
   * SetVectorValueString (`kind` "Vector", `n` 3) and SetRotationValueString (`kind`
   * "Rotation", `n` 4): the bracket discipline, then the component pattern; the stored text
   * is the captured components joined by ", ".
   */
  function TupleValueString(value: string, kind: string, n: nat): (r: Result<string, ConstantError>)
    ensures Unbracket(value, '<', '>').Failure? ==> r.Failure?
    ensures Unbracket(value, '<', '>').Success? ==>
              var c := ComponentTexts(Unbracket(value, '<', '>').value, n);
              (r.Success? <==> c.Some?) && (r.Success? ==> r.value == Text.Join(c.value, ", "))
    ensures r.Failure? ==> r.error.InvalidValueString?
  {
    match Unbracket(value, '<', '>')
    case Failure(Blank) =>
      Failure(InvalidValueString(kind + " Constant ValueString Invalid: May not be null or whitespace."))
    case Failure(Unbalanced) =>
      Failure(InvalidValueString(kind + " Constant ValueString '{0}' Invalid: If " + Text.ToLower(kind)
                                 + " quotes are used for a " + kind
                                 + " value string, both '<' and '>' must be present."))
    case Success(s) =>
      match ComponentTexts(s, n)
      case None =>
        Failure(InvalidValueString(kind + " Constant ValueString: '" + value + "' could not be parsed and formated."))
      case Some(components) => Success(Text.Join(components, ", "))
  }

  function VectorValueString(value: string): (r: Result<string, ConstantError>)
    ensures r.Success? ==> Unbracket(value, '<', '>').Success?
    ensures r.Success? ==> exists c :: ComponentTexts(Unbracket(value, '<', '>').value, 3) == Some(c) && r.value == Text.Join(c, ", ")
  {
    TupleValueString(value, "Vector", 3)
  }

  function RotationValueString(value: string): (r: Result<string, ConstantError>)
    ensures r.Success? ==> Unbracket(value, '<', '>').Success?
    ensures r.Success? ==> exists c :: ComponentTexts(Unbracket(value, '<', '>').value, 4) == Some(c) && r.value == Text.Join(c, ", ")
  {
    TupleValueString(value, "Rotation", 4)
  }

  /** The pieces of `pre` followed by components joined with ", ": the first keeps `pre`, the rest a leading space. */
  lemma {:induction false} SplitJoined(pre: string, comps: seq<string>)
    requires |comps| >= 1
    requires forall i :: 0 <= i < |pre| ==> pre[i] != ','
    requires forall i :: 0 <= i < |comps| ==> ',' !in comps[i]
    ensures |Text.SplitOn(pre + Text.Join(comps, ", "), ',')| == |comps|
    ensures Text.SplitOn(pre + Text.Join(comps, ", "), ',')[0] == pre + comps[0]
    ensures forall i :: 1 <= i < |comps| ==> Text.SplitOn(pre + Text.Join(comps, ", "), ',')[i] == " " + comps[i]
    decreases |comps|
  {
    if |comps| == 1 {
      assert Text.Join(comps, ", ") == comps[0];
      Text.SplitOnWhole(pre + comps[0], ',');
    } else {
      var tail := comps[1..];
      var a := pre + comps[0];
      assert pre + Text.Join(comps, ", ") == a + [','] + (" " + Text.Join(tail, ", "));
      Text.SplitOnFirst(a, ',', " " + Text.Join(tail, ", "));
      SplitJoined(" ", tail);
    }
  }

  lemma TrimStartOneSpace(c: string)
    requires c != [] && !Text.IsWhiteSpace(c[0])
    ensures Text.TrimStart(" " + c, Text.IsWhiteSpace) == c
  {
    assert (" " + c)[1..] == c;
  }

  lemma TrimEndNoSpace(c: string)
    requires c != [] && !Text.IsWhiteSpace(c[|c| - 1])
    ensures Text.TrimEnd(c, Text.IsWhiteSpace) == c
  {
  }

  /** The properties of a component text the round trip relies on. */
  predicate Solid(c: string) {
    && c != []
    && ',' !in c
    && !Text.IsWhiteSpace(c[0]) && !Text.IsWhiteSpace(c[|c| - 1])
    && c[0] != '<' && c[|c| - 1] != '>' && c[|c| - 1] != '\n'
  }

  lemma ComponentIsSolid(c: string)
    requires IsFloatComponent(c)
    ensures Solid(c)
  {
    FloatComponentChars(c);
    assert IsFloatChar(c[0]) && IsFloatChar(c[|c| - 1]);
  }

  lemma StripJoinedPiece(parts: seq<string>, comps: seq<string>, i: nat)
    requires |parts| == |comps| >= 2 && i < |comps|
    requires Solid(comps[i])
    requires parts[i] == if i == 0 then comps[0] else " " + comps[i]
    ensures StripSeparatorSpace(parts, i) == comps[i]
  {
    if i > 0 {
      TrimStartOneSpace(comps[i]);
    }
    TrimEndNoSpace(comps[i]);
  }

  /** Joined components read back as the same components. */
  lemma {:induction false} ComponentTextsOfJoin(comps: seq<string>, n: nat)
    requires n >= 2 && |comps| == n
    requires forall i :: 0 <= i < n ==> IsFloatComponent(comps[i]) && Solid(comps[i])
    ensures ComponentTexts(Text.Join(comps, ", "), n) == Some(comps)
  {
    var j := Text.Join(comps, ", ");
    var parts := JoinedPieces(comps);
    assert AnchoredBody(j) == j by {
      Text.JoinLast(comps, ", ");
    }
    PiecesGiveComponents(parts, comps);
  }

  lemma PiecesGiveComponents(parts: seq<string>, comps: seq<string>)
    requires |parts| == |comps| >= 2
    requires forall i :: 0 <= i < |comps| ==> IsFloatComponent(comps[i]) && Solid(comps[i])
    requires forall i :: 0 <= i < |comps| ==> parts[i] == if i == 0 then comps[0] else " " + comps[i]
    ensures ComponentsOfPieces(parts, |comps|) == Some(comps)
  {
    var n := |comps|;
    forall i | 0 <= i < n
      ensures StripSeparatorSpace(parts, i) == comps[i]
    {
      StripJoinedPiece(parts, comps, i);
    }
    var stripped := seq(n, i requires 0 <= i < n => StripSeparatorSpace(parts, i));
    assert stripped == comps;
  }

  /** The pieces a join of solid components splits into at its commas. */
  lemma JoinedPieces(comps: seq<string>) returns (parts: seq<string>)
    requires |comps| >= 2
    requires forall i :: 0 <= i < |comps| ==> Solid(comps[i])
    ensures parts == Text.SplitOn(Text.Join(comps, ", "), ',')
    ensures |parts| == |comps|
    ensures forall i :: 0 <= i < |comps| ==> parts[i] == if i == 0 then comps[0] else " " + comps[i]
  {
    var j := Text.Join(comps, ", ");
    assert "" + j == j;
    assert "" + comps[0] == comps[0];
    SplitJoined("", comps);
    parts := Text.SplitOn(j, ',');
  }

  /** Re-setting a stored vector or rotation value stores it again. */
  lemma {:induction false} TupleIdempotent(value: string, kind: string, n: nat)
    requires n >= 2
    requires TupleValueString(value, kind, n).Success?
    ensures TupleValueString(TupleValueString(value, kind, n).value, kind, n) == TupleValueString(value, kind, n)
    ensures Unbracket(TupleValueString(value, kind, n).value, '<', '>') == Success(TupleValueString(value, kind, n).value)
  {
    var comps := StoredComponents(value, kind, n);
    JoinedComponentsKept(comps);
    TupleOfComponents(Text.Join(comps, ", "), kind, n, comps);
  }

  /** Solid components joined by ", " have no space or bracket at either end, so the bracket rules keep them. */
  lemma JoinedComponentsKept(comps: seq<string>)
    requires |comps| >= 1
    requires forall i :: 0 <= i < |comps| ==> Solid(comps[i])
    ensures Unbracket(Text.Join(comps, ", "), '<', '>') == Success(Text.Join(comps, ", "))
  {
    var j := Text.Join(comps, ", ");
    assert Solid(comps[0]) && Solid(comps[|comps| - 1]);
    Text.JoinFirst(comps, ", ");
    Text.JoinLast(comps, ", ");
    Text.TrimUnchanged(j, IsSpace);
    assert !Text.IsBlank(j);
  }

  /** The stored vector text is three well-formed components joined by ", ", and it is a fixed point. */
  lemma VectorNormalForm(value: string)
    requires VectorValueString(value).Success?
    ensures exists c :: |c| == 3 && (forall i :: 0 <= i < 3 ==> IsFloatComponent(c[i]))
                     && VectorValueString(value).value == Text.Join(c, ", ")
    ensures VectorValueString(VectorValueString(value).value) == VectorValueString(value)
  {
    TupleIdempotent(value, "Vector", 3);
  }

  /** The stored rotation text is four well-formed components joined by ", ", and it is a fixed point. */
  lemma RotationNormalForm(value: string)
    requires RotationValueString(value).Success?
    ensures exists c :: |c| == 4 && (forall i :: 0 <= i < 4 ==> IsFloatComponent(c[i]))
                     && RotationValueString(value).value == Text.Join(c, ", ")
    ensures RotationValueString(RotationValueString(value).value) == RotationValueString(value)
  {
    TupleIdempotent(value, "Rotation", 4);
  }

  /** Every character of a trimmed text occurs in the original. */
  lemma TrimKeeps(s: string, drop: char -> bool, x: char)
    requires x !in s
    ensures x !in Text.TrimStart(s, drop) && x !in Text.TrimEnd(s, drop) && x !in Text.Trim(s, drop)
  {
    var a := Text.TrimStart(s, drop);
    assert a == s[|s| - |a|..];
    var b := Text.TrimEnd(s, drop);
    assert b == s[..|b|];
    var c := Text.TrimEnd(a, drop);
    assert c == a[..|c|];
  }

  /** Every character of a piece of a join occurs in the join. */
  lemma {:induction false} JoinKeeps(parts: seq<string>, sep: string, x: char)
    requires x !in Text.Join(parts, sep)
    ensures forall i :: 0 <= i < |parts| ==> x !in parts[i]
    decreases |parts|
  {
    if |parts| > 1 {
      JoinKeeps(parts[1..], sep, x);
      assert forall i :: 1 <= i < |parts| ==> parts[i] == parts[1..][i - 1];
    }
  }

  lemma UnbracketKeeps(value: string, open: char, close: char, x: char)
    requires open != close && x !in value
    requires Unbracket(value, open, close).Success?
    ensures x !in Unbracket(value, open, close).value
  {
    var s := Text.Trim(value, IsSpace);
    TrimKeeps(value, IsSpace, x);
    var r := Unbracket(value, open, close).value;
    if s[0] == open && s[|s| - 1] == close {
      assert r == s[1..|s| - 1];
      assert forall i :: 0 <= i < |r| ==> r[i] == s[i + 1];
    }
  }

  lemma DotlessNotComponent(c: string)
    requires '.' !in c
    ensures !IsFloatComponent(c)
  {
    var w := if c != [] && (c[0] == '-' || c[0] == '+') then c[1..] else c;
    assert '.' !in w;
  }

  lemma {:induction false} ComponentTextsDotless(u: string, n: nat)
    requires n >= 1 && '.' !in u
    ensures ComponentTexts(u, n).None?
  {
    var body := AnchoredBody(u);
    assert '.' !in body by {
      if body != u {
        assert body == u[..|u| - 1];
      }
    }
    var parts := Text.SplitOn(body, ',');
    JoinKeeps(parts, [','], '.');
    if |parts| == n {
      var c := StripSeparatorSpace(parts, 0);
      assert '.' !in parts[0];
      TrimKeeps(parts[0], Text.IsWhiteSpace, '.');
      assert '.' !in c;
      DotlessNotComponent(c);
      var comps := seq(n, i requires 0 <= i < n => StripSeparatorSpace(parts, i));
      assert comps[0] == c;
    }
  }

  /** Every component needs a '.', so a value with no '.' in it is refused. */
  lemma {:induction false} TupleRefusesDotless(value: string, kind: string, n: nat)
    requires n >= 1
    requires '.' !in value
    ensures TupleValueString(value, kind, n).Failure?
  {
    if Unbracket(value, '<', '>').Success? {
      UnbracketKeeps(value, '<', '>', '.');
      ComponentTextsDotless(Unbracket(value, '<', '>').value, n);
    }
  }

  // -------------------------------------------------------- Whole setter

  const VoidValueMessage := "Could not set ValueString because the 'Type' Properties value is set to Void."

  /**
   * The ValueString setter, dispatching on the constant's type; `None` is a null value.
   * String and Key values are stored verbatim and Void is refused.
   */
  function NormalizeValueString(t: LslType, value: Option<string>, floatParses: string -> bool,
                                formatList: string -> Result<string, string>): (r: Result<string, ConstantError>)
    ensures value.None? ==> r == Failure(ValueNull)
    ensures value.Some? && t == Void ==> r.Failure? && r.error.InvalidConstantType?
    ensures value.Some? && (t == String || t == Key) ==> r == Success(value.value)
    ensures value.Some? && t == Float ==> r == FloatValueString(value.value, floatParses)
    ensures value.Some? && t == Integer ==> r == IntegerValueString(value.value)
    ensures value.Some? && t == List ==> r == ListValueString(value.value, formatList)
    ensures value.Some? && t == Vector ==> r == VectorValueString(value.value)
    ensures value.Some? && t == Rotation ==> r == RotationValueString(value.value)
  {
    if value.None? then Failure(ValueNull)
    else
      match t
      case Float => FloatValueString(value.value, floatParses)
      case Integer => IntegerValueString(value.value)
      case List => ListValueString(value.value, formatList)
      case Vector => VectorValueString(value.value)
      case Rotation => RotationValueString(value.value)
      case Void => Failure(InvalidConstantType(VoidValueMessage))
      case _ => Success(value.value)
  }

  /**
   * The ValueString field after the setter for type `t` raised: every setter raises before it
   * stores anything, except the List setter, which has already stored "" for a blank inner text.
   */
  function ValueStringAfterError(t: LslType, value: Option<string>, previous: string): (s: string)
    ensures s == previous || s == ""
    ensures s != previous ==> t == List && value.Some? && ClearsBeforeFormatting(value.value)
    ensures t == List && value.Some? && ClearsBeforeFormatting(value.value) ==> s == ""
  {
    if t == List && value.Some? && ClearsBeforeFormatting(value.value) then "" else previous
  }

  /**
   * A setter error that changes the field is the formatter's error on the blank list, and the
   * field is then "".
   */
  lemma ErrorChangesFieldOnlyOnBlankList(t: LslType, value: Option<string>, previous: string,
                                         floatParses: string -> bool, formatList: string -> Result<string, string>)
    requires NormalizeValueString(t, value, floatParses, formatList).Failure?
    requires ValueStringAfterError(t, value, previous) != previous
    ensures t == List && value.Some?
    ensures formatList("[" + Unbracket(value.value, '[', ']').value + "]").Failure?
    ensures ValueStringAfterError(t, value, previous) == ""
  {
  }

  /** A list value with a blank inner text that the formatter refuses raises and leaves "". */
  lemma BlankListError(v: string, previous: string, floatParses: string -> bool,
                       formatList: string -> Result<string, string>)
    requires ClearsBeforeFormatting(v)
    requires formatList("[" + Unbracket(v, '[', ']').value + "]").Failure?
    ensures NormalizeValueString(List, Some(v), floatParses, formatList).Failure?
    ensures ValueStringAfterError(List, Some(v), previous) == ""
  {
  }

  /** "[]" given to the List setter with a failing formatter raises and leaves "" stored. */
  lemma EmptyListErrorLeavesBlank(previous: string, floatParses: string -> bool,
                                  formatList: string -> Result<string, string>)
    requires formatList("[]").Failure?
    ensures NormalizeValueString(List, Some("[]"), floatParses, formatList).Failure?
    ensures ValueStringAfterError(List, Some("[]"), previous) == ""
  {
    var v := "[]";
    UnbracketBracketed("", '[', ']');
    assert ['['] + "" + [']'] == v;
    assert Unbracket(v, '[', ']') == Success("");
    assert "[" + "" + "]" == v;
    BlankListError(v, previous, floatParses, formatList);
  }

  /** The value string the (type, name) constructor assigns without validation; Void has none. */
  function DefaultValueString(t: LslType): (r: Option<string>)
    ensures r.None? <==> t == Void
  {
    match t
    case Key => Some("00000000-0000-0000-0000-000000000000")
    case Integer => Some("0")
    case String => Some("")
    case Float => Some("0.0")
    case List => Some("")
    case Vector => Some("0,0,0")
    case Rotation => Some("0,0,0,0")
    case Void => None
  }

  /**
   * The defaults bypass validation, and the vector default would not pass it: "0,0,0" has
   * no '.' in its components, so the Vector setter refuses it.
   */
  lemma {:induction false} VectorDefaultRefused(floatParses: string -> bool, formatList: string -> Result<string, string>)
    ensures NormalizeValueString(Vector, DefaultValueString(Vector), floatParses, formatList).Failure?
  {
    TupleRefusesDotless("0,0,0", "Vector", 3);
  }

  /** The empty list default is blank, which the List setter refuses. */
  lemma {:induction false} ListDefaultRefused(floatParses: string -> bool, formatList: string -> Result<string, string>)
    ensures NormalizeValueString(List, DefaultValueString(List), floatParses, formatList).Failure?
  {
    assert Text.Trim("", IsSpace) == "";
    assert Unbracket("", '[', ']') == Failure(Blank);
    assert ListValueString("", formatList).Failure?;
  }

  /** The integer default is what the Integer setter would store. */
  lemma {:induction false} IntegerDefaultAccepted(floatParses: string -> bool, formatList: string -> Result<string, string>)
    ensures NormalizeValueString(Integer, DefaultValueString(Integer), floatParses, formatList) == Success("0")
  {
    DigitTextIsNotBool('0');
    assert IntegerValueString("0") == Success("0");
  }

  /** The string and key defaults are stored verbatim, as their setters would store them. */
  lemma TextDefaultsAccepted(floatParses: string -> bool, formatList: string -> Result<string, string>)
    ensures NormalizeValueString(String, DefaultValueString(String), floatParses, formatList) == Success("")
    ensures NormalizeValueString(Key, DefaultValueString(Key), floatParses, formatList) == Success(DefaultValueString(Key).value)
  {
  }

  // ------------------------------------------------------- Code literal

  /**
   * ValueStringAsCodeLiteral: strings and keys are quoted with their control codes escaped
   * (`escapes` stands for LSLFormatTools.ShowControlCodeEscapes), vectors and rotations are
   * wrapped in '<' '>', lists in '[' ']', and other values are shown as stored.
   */
  function CodeLiteral(t: LslType, valueString: string, escapes: string -> string): (r: string)
    ensures (t == Key || t == String) ==> r == "\"" + escapes(valueString) + "\""
    ensures (t == Vector || t == Rotation) ==> r == "<" + valueString + ">"
    ensures t == List ==> r == "[" + valueString + "]"
    ensures (t == Integer || t == Float || t == Void) ==> r == valueString
  {
    if t == Key || t == String then "\"" + escapes(valueString) + "\""
    else if t == Vector || t == Rotation then "<" + valueString + ">"
    else if t == List then "[" + valueString + "]"
    else valueString
  }

  /** Trimming and unbracketing remove exactly the brackets put around a text. */
  lemma UnbracketBracketed(v: string, open: char, close: char)
    requires open != close && !Text.IsWhiteSpace(open) && !Text.IsWhiteSpace(close)
    ensures Unbracket([open] + v + [close], open, close) == Success(v)
  {
    var lit := [open] + v + [close];
    Text.TrimUnchanged(lit, IsSpace);
    assert !Text.IsWhiteSpace(lit[0]);
    assert lit[1..|lit| - 1] == v;
  }

  /**
   * The literal of a stored vector or rotation, given back to the same setter, stores the
   * same text: the setter removes the '<' '>' the literal adds and finds the same components.
   */
  lemma {:induction false} TupleLiteralReadsBack(t: LslType, value: string, kind: string, n: nat, escapes: string -> string)
    requires t == Vector || t == Rotation
    requires n >= 2
    requires TupleValueString(value, kind, n).Success?
    ensures var v := TupleValueString(value, kind, n).value;
            && Unbracket(CodeLiteral(t, v, escapes), '<', '>') == Success(v)
            && TupleValueString(CodeLiteral(t, v, escapes), kind, n) == Success(v)
  {
    var v := TupleValueString(value, kind, n).value;
    TupleIdempotent(value, kind, n);
    TupleFixedPointBracketed(v, kind, n);
    assert CodeLiteral(t, v, escapes) == ['<'] + v + ['>'];
  }

  /** A stored tuple text that the bracket rules keep is read back from inside '<' '>'. */
  lemma TupleFixedPointBracketed(v: string, kind: string, n: nat)
    requires Unbracket(v, '<', '>') == Success(v)
    requires TupleValueString(v, kind, n) == Success(v)
    ensures Unbracket(['<'] + v + ['>'], '<', '>') == Success(v)
    ensures TupleValueString(['<'] + v + ['>'], kind, n) == Success(v)
  {
    UnbracketBracketed(v, '<', '>');
  }

  /** The components a stored vector or rotation text is joined from, which split back out of it. */
  lemma StoredComponents(value: string, kind: string, n: nat) returns (comps: seq<string>)
    requires n >= 2
    requires TupleValueString(value, kind, n).Success?
    ensures |comps| == n && forall i :: 0 <= i < n ==> Solid(comps[i])
    ensures TupleValueString(value, kind, n).value == Text.Join(comps, ", ")
    ensures ComponentTexts(Text.Join(comps, ", "), n) == Some(comps)
  {
    comps := ComponentTexts(Unbracket(value, '<', '>').value, n).value;
    forall i | 0 <= i < n
      ensures Solid(comps[i])
    {
      ComponentIsSolid(comps[i]);
    }
    ComponentTextsOfJoin(comps, n);
  }

  /** Text whose inner part splits into `comps` is stored as `comps` joined by ", ". */
  lemma TupleOfComponents(value: string, kind: string, n: nat, comps: seq<string>)
    requires Unbracket(value, '<', '>') == Success(Text.Join(comps, ", "))
    requires ComponentTexts(Text.Join(comps, ", "), n) == Some(comps)
    ensures TupleValueString(value, kind, n) == Success(Text.Join(comps, ", "))
  {
  }

  /** A stored vector's code literal, given to the vector setter, stores the same text again. */
  lemma VectorLiteralReadsBack(value: string, escapes: string -> string)
    requires VectorValueString(value).Success?
    ensures VectorValueString(CodeLiteral(Vector, VectorValueString(value).value, escapes)) == VectorValueString(value)
  {
    TupleLiteralReadsBack(Vector, value, "Vector", 3, escapes);
  }

  /** A stored rotation's code literal, given to the rotation setter, stores the same text again. */
  lemma RotationLiteralReadsBack(value: string, escapes: string -> string)
    requires RotationValueString(value).Success?
    ensures RotationValueString(CodeLiteral(Rotation, RotationValueString(value).value, escapes)) == RotationValueString(value)
  {
    TupleLiteralReadsBack(Rotation, value, "Rotation", 4, escapes);
  }

  /**
   * A list's code literal is the bracketed text the list setter hands to the formatter:
   * the setter removes exactly the brackets the literal adds, so it formats the same text.
   */
  lemma {:induction false} ListLiteralReadsBack(v: string, escapes: string -> string, formatList: string -> Result<string, string>)
    ensures Unbracket(CodeLiteral(List, v, escapes), '[', ']') == Success(v)
    ensures var f := formatList("[" + v + "]");
            var r := ListValueString(CodeLiteral(List, v, escapes), formatList);
            (r.Success? <==> f.Success?) && (r.Success? ==> r.value == f.value)
  {
    assert CodeLiteral(List, v, escapes) == ['['] + v + [']'];
    UnbracketBracketed(v, '[', ']');
  }

  /** An integer literal is the stored text itself, which the integer setter stores again. */
  lemma IntegerLiteralReadsBack(value: string, escapes: string -> string)
    requires IntegerValueString(value).Success?
    ensures IntegerValueString(CodeLiteral(Integer, IntegerValueString(value).value, escapes)) == IntegerValueString(value)
  {
    var v := IntegerValueString(value).value;
    assert CodeLiteral(Integer, v, escapes) == v;
    IntegerIdempotent(value);
  }

  /** A non-empty float literal is the stored text itself, which the float setter stores again. */
  lemma FloatLiteralReadsBack(value: string, floatParses: string -> bool, escapes: string -> string)
    requires FloatValueString(value, floatParses).Success? && FloatValueString(value, floatParses).value != []
    ensures FloatValueString(CodeLiteral(Float, FloatValueString(value, floatParses).value, escapes), floatParses)
            == FloatValueString(value, floatParses)
  {
    var v := FloatValueString(value, floatParses).value;
    assert CodeLiteral(Float, v, escapes) == v;
    FloatIdempotent(value, floatParses);
  }

  // ------------------------------------------------------------ Name

  /** The Name setter's checks; `idMatches` stands for LSLTokenTools.IDRegexAnchored. */
  function NameError(value: Option<string>, idMatches: string -> bool): (r: Option<ConstantError>)
    ensures r.None? <==> value.Some? && !Text.IsBlank(value.value) && idMatches(value.value)
    ensures r.Some? ==> r.value.InvalidSymbolName?
  {
    if Text.IsNullOrWhiteSpace(value) then
      Some(InvalidSymbolName("LSLFunctionSignature: Function name was null or whitespace."))
    else if !idMatches(value.value) then
      Some(InvalidSymbolName("LSLConstantSignature: Constant name '" + value.value
                             + "' contained invalid characters or formating."))
    else None
  }

  /** GetHashCode: 17 * 31 + Type, times 31, plus Name.GetHashCode(), in unchecked Int32 arithmetic. */
  function SignatureHash(t: LslType, nameHash: Int32): (h: Int32)
    ensures (h as int - ((17 * 31 + EnumValue(t)) * 31 + nameHash as int)) % 0x1_0000_0000 == 0
  {
    Wrap((17 * 31 + EnumValue(t)) * 31 + nameHash as int)
  }

  class LibraryConstantSignature {
    var name: string
    var constantType: LslType
    var valueString: string
    var documentationString: string
    var properties: PropertyBags.Properties

    /** A signature holding exactly the given state. */
    constructor Raw(name: string, constantType: LslType, valueString: string)
      ensures this.name == name && this.constantType == constantType && this.valueString == valueString
      ensures documentationString == "" && properties == map[]
    {
      this.name := name;
      this.constantType := constantType;
      this.valueString := valueString;
      documentationString := "";
      properties := map[];
    }

    /** The Type setter: Void is refused and leaves the signature unchanged. */
    method SetType(value: LslType) returns (error: Option<ConstantError>)
      modifies this
      ensures value == Void ==> error == Some(InvalidConstantType("Library Constant's Type may not be set to Void."))
      ensures value == Void ==> constantType == old(constantType)
      ensures value != Void ==> error.None? && constantType == value
      ensures name == old(name) && valueString == old(valueString)
      ensures documentationString == old(documentationString) && properties == old(properties)
    {
      if value == Void {
        return Some(InvalidConstantType("Library Constant's Type may not be set to Void."));
      }
      constantType := value;
      error := None;
    }

    /** The Name setter. */
    method SetName(value: Option<string>, idMatches: string -> bool) returns (error: Option<ConstantError>)
      modifies this
      ensures error == NameError(value, idMatches)
      ensures error.None? ==> name == value.value
      ensures error.Some? ==> name == old(name)
      ensures constantType == old(constantType) && valueString == old(valueString)
      ensures documentationString == old(documentationString) && properties == old(properties)
    {
      error := NameError(value, idMatches);
      if error.None? {
        name := value.value;
      }
    }

    /**
     * The ValueString setter: stores the normalised text, or raises, leaving the field as
     * ValueStringAfterError says.
     */
    method SetValueString(value: Option<string>, floatParses: string -> bool,
                          formatList: string -> Result<string, string>) returns (error: Option<ConstantError>)
      modifies this
      ensures var r := NormalizeValueString(old(constantType), value, floatParses, formatList);
              && (r.Success? ==> error.None? && valueString == r.value)
              && (r.Failure? ==> error == Some(r.error)
                                 && valueString == ValueStringAfterError(old(constantType), value, old(valueString)))
      ensures name == old(name) && constantType == old(constantType)
      ensures documentationString == old(documentationString) && properties == old(properties)
    {
      var r := NormalizeValueString(constantType, value, floatParses, formatList);
      if r.Success? {
        valueString := r.value;
        error := None;
      } else {
        valueString := ValueStringAfterError(constantType, value, valueString);
        error := Some(r.error);
      }
    }

    function ValueStringAsCodeLiteral(escapes: string -> string): string
      reads this
    {
      CodeLiteral(constantType, valueString, escapes)
    }

    /** Equals(object): another signature (not null) with the same Name and Type. */
    predicate Equals(other: LibraryConstantSignature?)
      reads this, other
    {
      other != null && other.name == name && other.constantType == constantType
    }

    /** GetHashCode; `stringHash` stands for String.GetHashCode. */
    function GetHashCode(stringHash: string -> Int32): Int32
      reads this
    {
      SignatureHash(constantType, stringHash(name))
    }

    predicate Deprecated()
      reads this
    {
      PropertyBags.Toggle(properties, "Deprecated")
    }

    predicate Expand()
      reads this
    {
      PropertyBags.Toggle(properties, "Expand")
    }

    method SetDeprecated(on: bool)
      modifies this
      ensures properties == PropertyBags.SetToggle(old(properties), "Deprecated", on)
      ensures Deprecated() == on && Expand() == old(Expand())
      ensures name == old(name) && constantType == old(constantType) && valueString == old(valueString)
      ensures documentationString == old(documentationString)
    {
      properties := PropertyBags.SetToggle(properties, "Deprecated", on);
      PropertyBags.ToggleReadsBack(old(properties), "Deprecated", on);
      PropertyBags.ToggleIndependent(old(properties), "Deprecated", "Expand", on);
    }

    method SetExpand(on: bool)
      modifies this
      ensures properties == PropertyBags.SetToggle(old(properties), "Expand", on)
      ensures Expand() == on && Deprecated() == old(Deprecated())
      ensures name == old(name) && constantType == old(constantType) && valueString == old(valueString)
      ensures documentationString == old(documentationString)
    {
      properties := PropertyBags.SetToggle(properties, "Expand", on);
      PropertyBags.ToggleReadsBack(old(properties), "Expand", on);
      PropertyBags.ToggleIndependent(old(properties), "Expand", "Deprecated", on);
    }

    /**
     * The (type, name) constructor: the Name setter, then the Type setter, then the
     * type's default value string stored without validation.
     */
    static method CreateWithDefault(t: LslType, name: Option<string>, idMatches: string -> bool)
      returns (r: Result<LibraryConstantSignature, ConstantError>)
      ensures NameError(name, idMatches).Some? ==> r == Failure(NameError(name, idMatches).value)
      ensures NameError(name, idMatches).None? && t == Void ==> r.Failure? && r.error.InvalidConstantType?
      ensures r.Success? <==> NameError(name, idMatches).None? && t != Void
      ensures r.Success? ==> fresh(r.value) && r.value.name == name.value && r.value.constantType == t
                             && Some(r.value.valueString) == DefaultValueString(t)
                             && r.value.properties == map[] && r.value.documentationString == ""
    {
      var nameError := NameError(name, idMatches);
      if nameError.Some? {
        return Failure(nameError.value);
      }
      if t == Void {
        return Failure(InvalidConstantType("Library Constant's Type may not be set to Void."));
      }
      var c := new LibraryConstantSignature.Raw(name.value, t, DefaultValueString(t).value);
      return Success(c);
    }

    /** The (type, name, valueString) constructor: Name, Type, then the validating ValueString setter. */
    static method CreateWithValue(t: LslType, name: Option<string>, value: Option<string>, idMatches: string -> bool,
                                  floatParses: string -> bool, formatList: string -> Result<string, string>)
      returns (r: Result<LibraryConstantSignature, ConstantError>)
      ensures NameError(name, idMatches).Some? ==> r == Failure(NameError(name, idMatches).value)
      ensures NameError(name, idMatches).None? && t == Void ==> r.Failure? && r.error.InvalidConstantType?
      ensures r.Success? <==> NameError(name, idMatches).None? && t != Void
                              && NormalizeValueString(t, value, floatParses, formatList).Success?
      ensures r.Success? ==> fresh(r.value) && r.value.name == name.value && r.value.constantType == t
                             && r.value.valueString == NormalizeValueString(t, value, floatParses, formatList).value
    {
      var nameError := NameError(name, idMatches);
      if nameError.Some? {
        return Failure(nameError.value);
      }
      if t == Void {
        return Failure(InvalidConstantType("Library Constant's Type may not be set to Void."));
      }
      var v := NormalizeValueString(t, value, floatParses, formatList);
      if v.Failure? {
        return Failure(v.error);
      }
      var c := new LibraryConstantSignature.Raw(name.value, t, v.value);
      return Success(c);
    }
  }

  /** Equals is reflexive, symmetric and transitive, and equal signatures have equal hash codes. */
  lemma EqualsAndHash(a: LibraryConstantSignature, b: LibraryConstantSignature, c: LibraryConstantSignature,
                      stringHash: string -> Int32)
    ensures a.Equals(a)
    ensures a.Equals(b) <==> b.Equals(a)
    ensures a.Equals(b) && b.Equals(c) ==> a.Equals(c)
    ensures a.Equals(b) ==> a.GetHashCode(stringHash) == b.GetHashCode(stringHash)
  {
  }

}
