/**
 * LSLAutoCompleteScopeAddress: the immutable (CodeAreaId, ScopeId, ScopeLevel) triple the
 * auto-complete parser uses to locate a scope, with its equality, operators, hash and text form.
 */
module ScopeAddresses {
  import opened Wrappers
  import Text
  import opened Int32s

  /** The struct; the fields are listed in the constructor's parameter order. */
  datatype ScopeAddress = ScopeAddress(codeAreaId: Int32, scopeId: Int32, scopeLevel: Int32)

  /** What `Equals(object)` may be handed: null, a boxed scope address, or any other object. */
  datatype BoxedObject = NullObject | BoxedAddress(address: ScopeAddress) | OtherObject(identity: nat)

  /** The constructor stores each argument in the property of the same name. */
  function New(codeAreaId: Int32, scopeId: Int32, scopeLevel: Int32): (a: ScopeAddress)
    ensures a.codeAreaId == codeAreaId && a.scopeId == scopeId && a.scopeLevel == scopeLevel
  {
    ScopeAddress(codeAreaId, scopeId, scopeLevel)
  }

  /** Equals(LSLAutoCompleteScopeAddress). */
  predicate Equals(a: ScopeAddress, other: ScopeAddress) {
    a.codeAreaId == other.codeAreaId && a.scopeLevel == other.scopeLevel && a.scopeId == other.scopeId
  }

  /** Equals(object). */
  predicate EqualsObject(a: ScopeAddress, obj: BoxedObject) {
    if obj.NullObject? then false
    else obj.BoxedAddress? && Equals(a, obj.address)
  }

  /** operator ==. */
  predicate OpEquality(left: ScopeAddress, right: ScopeAddress) {
    Equals(left, right)
  }

  /** operator !=. */
  predicate OpInequality(left: ScopeAddress, right: ScopeAddress) {
    !Equals(left, right)
  }

  /** GetHashCode: ((CodeAreaId * 397) ^ ScopeLevel) * 397 ^ ScopeId in unchecked Int32 arithmetic. */
  function GetHashCode(a: ScopeAddress): Int32 {
    var h := Bits(a.codeAreaId as int);
    var h := Xor32(Bits(h * 397), Bits(a.scopeLevel as int));
    var h := Xor32(Bits(h * 397), Bits(a.scopeId as int));
    FromBits(h)
  }

  /** Equals is field-wise equality, hence reflexive, symmetric and transitive. */
  lemma EqualsIsEquivalence(a: ScopeAddress, b: ScopeAddress, c: ScopeAddress)
    ensures Equals(a, b) <==> a == b
    ensures Equals(a, a)
    ensures Equals(a, b) ==> Equals(b, a)
    ensures Equals(a, b) && Equals(b, c) ==> Equals(a, c)
  {
  }

  /** The operators agree with Equals. */
  lemma OperatorsAgree(a: ScopeAddress, b: ScopeAddress)
    ensures OpEquality(a, b) <==> Equals(a, b)
    ensures OpInequality(a, b) <==> !OpEquality(a, b)
  {
  }

  /** Equals(object) is false for null and for objects of other types, and is Equals for a boxed address. */
  lemma EqualsObjectCases(a: ScopeAddress, obj: BoxedObject)
    ensures obj.NullObject? ==> !EqualsObject(a, obj)
    ensures obj.OtherObject? ==> !EqualsObject(a, obj)
    ensures obj.BoxedAddress? ==> (EqualsObject(a, obj) <==> Equals(a, obj.address))
  {
  }

  /** Equal addresses have equal hash codes. */
  lemma HashConsistent(a: ScopeAddress, b: ScopeAddress)
    requires Equals(a, b)
    ensures GetHashCode(a) == GetHashCode(b)
  {
  }

  /** With CodeAreaId and ScopeLevel both zero the hash is the ScopeId itself. */
  lemma {:induction false} HashOfTopScope(scopeId: Int32)
    ensures GetHashCode(ScopeAddress(0, scopeId, 0)) == scopeId
  {
    Pow2Of32();
    var u := Bits(scopeId as int);
    assert Bits(0) == 0 && Bits(0 * 397) == 0;
    XorZeroLeft(0, 32);
    assert Xor32(0, 0) == 0;
    XorZeroLeft(u, 32);
    assert Xor32(0, u) == u;
    FromBitsOfBits(scopeId);
  }

  /** The multiplications wrap around: CodeAreaId 100000 alone hashes to a negative value. */
  lemma {:induction false} HashWrapsAround()
    ensures GetHashCode(ScopeAddress(100000, 0, 0)) == -1418969184
  {
    Pow2Of32();
    assert Bits(0) == 0;
    assert Bits(100000) == 100000;
    assert Bits(100000 * 397) == 39700000;
    XorZeroRight(39700000, 32);
    assert Bits(39700000 * 397) == 2875998112;
    XorZeroRight(2875998112, 32);
  }

  const CodeAreaPrefix: string := "(CodeAreaID: "
  const ScopeIdInfix: string := ", ScopeId: "
  const ScopeLevelInfix: string := ", ScopeLevel: "

  /** ToString: "(CodeAreaID: {0}, ScopeId: {1}, ScopeLevel: {2})". */
  function ToString(a: ScopeAddress): string {
    CodeAreaPrefix + (Text.IntToString(a.codeAreaId as int)
    + (ScopeIdInfix + (Text.IntToString(a.scopeId as int)
    + (ScopeLevelInfix + (Text.IntToString(a.scopeLevel as int) + ")")))))
  }

  /** What follows `prefix` in `s`, if `s` starts with it. */
  function Expect(prefix: string, s: string): (r: Option<string>)
    ensures r.Some? <==> |prefix| <= |s| && s[..|prefix|] == prefix
    ensures r.Some? ==> s == prefix + r.value
  {
    if |prefix| <= |s| && s[..|prefix|] == prefix then Some(s[|prefix|..]) else None
  }

  predicate InInt32Range(n: int) {
    -0x8000_0000 <= n < 0x8000_0000
  }

  /** An Int32 written up to the first ',', and the text from that comma on. */
  function ReadInt32(s: string): Option<(Int32, string)> {
    var k := Text.IndexOf(s, ',');
    match Text.ParseIntText(s[..k])
    case Some(n) => if InInt32Range(n) then Some((n as Int32, s[k..])) else None
    case None => None
  }

  /** An Int32 written up to a closing ')' that ends the text. */
  function ReadLastInt32(s: string): Option<Int32> {
    if s == [] || s[|s| - 1] != ')' then None
    else
      match Text.ParseIntText(s[..|s| - 1])
      case Some(n) => if InInt32Range(n) then Some(n as Int32) else None
      case None => None
  }

  /** Reads an address back from its ToString form. */
  function Parse(s: string): Option<ScopeAddress> {
    match Expect(CodeAreaPrefix, s)
    case None => None
    case Some(r1) =>
      match ReadInt32(r1)
      case None => None
      case Some((codeAreaId, r2)) =>
        match Expect(ScopeIdInfix, r2)
        case None => None
        case Some(r3) =>
          match ReadInt32(r3)
          case None => None
          case Some((scopeId, r4)) =>
            match Expect(ScopeLevelInfix, r4)
            case None => None
            case Some(r5) =>
              match ReadLastInt32(r5)
              case None => None
              case Some(scopeLevel) => Some(ScopeAddress(codeAreaId, scopeId, scopeLevel))
  }

  lemma ExpectConcat(prefix: string, x: string)
    ensures Expect(prefix, prefix + x) == Some(x)
  {
    assert (prefix + x)[..|prefix|] == prefix;
  }

  lemma {:induction false} ReadInt32Concat(n: Int32, rest: string)
    requires rest != [] && rest[0] == ','
    ensures ReadInt32(Text.IntToString(n as int) + rest) == Some((n, rest))
  {
    var t := Text.IntToString(n as int);
    CommaAfterNumber(n as int, rest);
    assert (t + rest)[..|t|] == t;
    assert (t + rest)[|t|..] == rest;
    Text.IntToStringRoundTrip(n as int);
  }

  lemma {:induction false} ReadLastInt32Concat(n: Int32)
    ensures ReadLastInt32(Text.IntToString(n as int) + ")") == Some(n)
  {
    var t := Text.IntToString(n as int);
    assert (t + ")")[..|t|] == t;
    Text.IntToStringRoundTrip(n as int);
  }

  lemma {:induction false} IntTextHasNoComma(n: int)
    ensures forall i :: 0 <= i < |Text.IntToString(n)| ==> Text.IntToString(n)[i] != ','
  {
    var d := Text.NatToString(if n < 0 then -n else n);
    assert forall i :: 0 <= i < |d| ==> d[i] != ',' by {
      assert Text.AllDigits(d);
    }
  }

  /** The comma search stops right after a number's text. */
  lemma {:induction false} CommaAfterNumber(n: int, rest: string)
    requires rest != [] && rest[0] == ','
    ensures Text.IndexOf(Text.IntToString(n) + rest, ',') == |Text.IntToString(n)|
  {
    IntTextHasNoComma(n);
    CommaIndexSkips(Text.IntToString(n), rest);
  }

  lemma {:induction false} CommaIndexSkips(t: string, rest: string)
    requires forall i :: 0 <= i < |t| ==> t[i] != ','
    requires rest != [] && rest[0] == ','
    ensures Text.IndexOf(t + rest, ',') == |t|
    decreases |t|
  {
    if t != [] {
      assert (t + rest)[1..] == t[1..] + rest;
      CommaIndexSkips(t[1..], rest);
    }
  }

  /** ToString loses nothing: Parse recovers the address. */
  lemma {:induction false} ToStringRoundTrip(a: ScopeAddress)
    ensures Parse(ToString(a)) == Some(a)
  {
    var c := Text.IntToString(a.codeAreaId as int);
    var i := Text.IntToString(a.scopeId as int);
    var l := Text.IntToString(a.scopeLevel as int);
    var r5 := l + ")";
    var r4 := ScopeLevelInfix + r5;
    var r3 := i + r4;
    var r2 := ScopeIdInfix + r3;
    var r1 := c + r2;
    ExpectConcat(CodeAreaPrefix, r1);
    ReadInt32Concat(a.codeAreaId, r2);
    ExpectConcat(ScopeIdInfix, r3);
    ReadInt32Concat(a.scopeId, r4);
    ExpectConcat(ScopeLevelInfix, r5);
    ReadLastInt32Concat(a.scopeLevel);
  }

  /** Distinct addresses have distinct text forms. */
  lemma ToStringInjective(a: ScopeAddress, b: ScopeAddress)
    requires ToString(a) == ToString(b)
    ensures a == b
  {
    ToStringRoundTrip(a);
    ToStringRoundTrip(b);
  }
}
