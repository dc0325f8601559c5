/**
 * Subset naming for the embedded library data: the LSLLibraryBaseData enum names the base
 * subset ("lsl" or "os-lsl"), the LSLLibraryDataAdditions flags name the additional ones,
 * and the provider's live-filtering properties replace the active subsets when they change.
 */
module LibrarySubsets {
  import opened Wrappers
  import opened Int32s
  import LslTypes

  // ----------------------------------------------------------- Base data

  /** LSLLibraryBaseData is an Int32 enum; a cast may give it any value. */
  type LibraryBaseData = Int32

  const StandardLsl: LibraryBaseData := 0
  const OpensimLsl: LibraryBaseData := 1

  /** ToSubsetName: the subset name of a declared member, ArgumentOutOfRangeException for any other value. */
  function ToSubsetName(baseData: LibraryBaseData): (r: Result<string, LslTypes.ArgumentError>)
    ensures r.Success? <==> baseData == StandardLsl || baseData == OpensimLsl
    ensures baseData == StandardLsl ==> r == Success("lsl")
    ensures baseData == OpensimLsl ==> r == Success("os-lsl")
    ensures r.Failure? ==> r.error == LslTypes.ArgumentOutOfRange("baseDataOption")
  {
    if baseData == StandardLsl then Success("lsl")
    else if baseData == OpensimLsl then Success("os-lsl")
    else Failure(LslTypes.ArgumentOutOfRange("baseDataOption"))
  }

  // ----------------------------------------------------- Addition flags

  /**
   * LSLLibraryDataAdditions is an Int32 [Flags] enum and any combination of bits may occur;
   * a value is modelled by its 32-bit two's-complement pattern, on which `&` is defined.
   */
  type LibraryDataAdditions = bv32

  const NoAdditions: LibraryDataAdditions := 0
  const OpenSimOssl: LibraryDataAdditions := 1
  const OpenSimWindlight: LibraryDataAdditions := 2
  const OpenSimBulletPhysics: LibraryDataAdditions := 4
  const OpenSimModInvoke: LibraryDataAdditions := 8
  const OpenSimJsonStore: LibraryDataAdditions := 16

  /** The five flags and the subset each one names, in the order ToSubsetNames tests them. */
  const AdditionFlags: seq<LibraryDataAdditions> :=
    [OpenSimOssl, OpenSimWindlight, OpenSimBulletPhysics, OpenSimModInvoke, OpenSimJsonStore]
  const OsslName := "ossl"
  const LightshareName := "os-lightshare"
  const BulletPhysicsName := "os-bullet-physics"
  const ModApiName := "os-mod-api"
  const JsonStoreName := "os-json-store"
  const AdditionNames: seq<string> := [OsslName, LightshareName, BulletPhysicsName, ModApiName, JsonStoreName]

  /** `(flags & flag) == flag`. */
  predicate HasFlag(flags: LibraryDataAdditions, flag: LibraryDataAdditions) {
    flags & flag == flag
  }

  /** ToSubsetNames: one name for each flag that is set, in the fixed order of the five tests. */
  function ToSubsetNames(flags: LibraryDataAdditions): seq<string> {
    (if HasFlag(flags, OpenSimOssl) then [OsslName] else [])
    + (if HasFlag(flags, OpenSimWindlight) then [LightshareName] else [])
    + (if HasFlag(flags, OpenSimBulletPhysics) then [BulletPhysicsName] else [])
    + (if HasFlag(flags, OpenSimModInvoke) then [ModApiName] else [])
    + (if HasFlag(flags, OpenSimJsonStore) then [JsonStoreName] else [])
  }

  /** The flag values are the powers of two 2^0 .. 2^4, each a single bit no other flag has. */
  lemma {:induction false} FlagsArePowersOfTwo()
    ensures forall k: nat :: k < 5 ==> AdditionFlags[k] == (1 as bv32) << k
    ensures forall i, j :: 0 <= i < 5 && 0 <= j < 5 ==> (HasFlag(AdditionFlags[i], AdditionFlags[j]) <==> i == j)
  {
  }

  /** The table-driven reading of ToSubsetNames: the names of the set flags from index `k` on, in table order. */
  function SetFlagNames(flags: LibraryDataAdditions, k: nat): seq<string>
    requires k <= 5
    decreases 5 - k
  {
    if k == 5 then []
    else (if HasFlag(flags, AdditionFlags[k]) then [AdditionNames[k]] else []) + SetFlagNames(flags, k + 1)
  }

  /** One entry of the table, read off as ToSubsetNames writes it. */
  lemma SetFlagNamesStep(flags: LibraryDataAdditions, k: nat, flag: LibraryDataAdditions, name: string)
    requires k < 5 && AdditionFlags[k] == flag && AdditionNames[k] == name
    ensures SetFlagNames(flags, k) == (if HasFlag(flags, flag) then [name] else []) + SetFlagNames(flags, k + 1)
  {
  }

  lemma Regroup(p0: seq<string>, p1: seq<string>, p2: seq<string>, p3: seq<string>, p4: seq<string>)
    ensures p0 + p1 + p2 + p3 + p4 == p0 + (p1 + (p2 + (p3 + (p4 + []))))
  {
    assert p4 + [] == p4;
  }

  lemma {:induction false} ToSubsetNamesInTableOrder(flags: LibraryDataAdditions)
    ensures ToSubsetNames(flags) == SetFlagNames(flags, 0)
  {
    SetFlagNamesStep(flags, 0, OpenSimOssl, OsslName);
    SetFlagNamesStep(flags, 1, OpenSimWindlight, LightshareName);
    SetFlagNamesStep(flags, 2, OpenSimBulletPhysics, BulletPhysicsName);
    SetFlagNamesStep(flags, 3, OpenSimModInvoke, ModApiName);
    SetFlagNamesStep(flags, 4, OpenSimJsonStore, JsonStoreName);
    assert SetFlagNames(flags, 5) == [];
    Regroup(if HasFlag(flags, OpenSimOssl) then [OsslName] else [],
            if HasFlag(flags, OpenSimWindlight) then [LightshareName] else [],
            if HasFlag(flags, OpenSimBulletPhysics) then [BulletPhysicsName] else [],
            if HasFlag(flags, OpenSimModInvoke) then [ModApiName] else [],
            if HasFlag(flags, OpenSimJsonStore) then [JsonStoreName] else []);
  }

  lemma AdditionNamesDistinct()
    ensures forall i, j :: 0 <= i < j < 5 ==> AdditionNames[i] != AdditionNames[j]
  {
    assert AdditionNames[1][3] != AdditionNames[4][3];
  }

  /** From index `k` on, exactly the names of the set flags appear, each once. */
  lemma {:induction false} SetFlagNamesMatch(flags: LibraryDataAdditions, k: nat)
    requires k <= 5
    ensures forall i :: 0 <= i < |SetFlagNames(flags, k)| ==> SetFlagNames(flags, k)[i] in AdditionNames[k..]
    ensures forall j :: k <= j < 5 ==> (AdditionNames[j] in SetFlagNames(flags, k) <==> HasFlag(flags, AdditionFlags[j]))
    ensures forall i, j :: 0 <= i < j < |SetFlagNames(flags, k)| ==> SetFlagNames(flags, k)[i] != SetFlagNames(flags, k)[j]
    decreases 5 - k
  {
    if k < 5 {
      SetFlagNamesMatch(flags, k + 1);
      AdditionNamesDistinct();
      var head := if HasFlag(flags, AdditionFlags[k]) then [AdditionNames[k]] else [];
      var rest := SetFlagNames(flags, k + 1);
      var s := SetFlagNames(flags, k);
      assert s == head + rest;
      assert AdditionNames[k..] == [AdditionNames[k]] + AdditionNames[k + 1..];
      assert AdditionNames[k] !in AdditionNames[k + 1..];
      assert AdditionNames[k] !in rest;
      forall j | k < j < 5
        ensures AdditionNames[j] != AdditionNames[k]
      {
      }
    }
  }

  /**
   * A subset name is produced exactly when its flag is set, every name produced is one of
   * the five, and none is produced twice: one name per set flag.
   */
  lemma SubsetNamesMatchFlags(flags: LibraryDataAdditions)
    ensures forall k :: 0 <= k < 5 ==> (AdditionNames[k] in ToSubsetNames(flags) <==> HasFlag(flags, AdditionFlags[k]))
    ensures forall i :: 0 <= i < |ToSubsetNames(flags)| ==> ToSubsetNames(flags)[i] in AdditionNames
    ensures forall i, j :: 0 <= i < j < |ToSubsetNames(flags)| ==> ToSubsetNames(flags)[i] != ToSubsetNames(flags)[j]
  {
    ToSubsetNamesInTableOrder(flags);
    SetFlagNamesMatch(flags, 0);
    assert AdditionNames[0..] == AdditionNames;
  }

  /** No flags, no names; all five flags, all five names in table order; a single flag, its name alone. */
  lemma {:induction false} SubsetNamesExamples()
    ensures ToSubsetNames(NoAdditions) == []
    ensures ToSubsetNames(31) == AdditionNames
    ensures forall k :: 0 <= k < 5 ==> ToSubsetNames(AdditionFlags[k]) == [AdditionNames[k]]
  {
  }

  /** Bits above the five flags, including the sign bit, add no names. */
  lemma HigherBitsIgnored(flags: LibraryDataAdditions)
    ensures ToSubsetNames(flags) == ToSubsetNames(flags & 31)
  {
  }

  // -------------------------------------------------------- GetSubsets

  /** GetSubsets: the base subset's name, then the additions' names. */
  function GetSubsets(baseData: LibraryBaseData, additions: LibraryDataAdditions)
    : (r: Result<seq<string>, LslTypes.ArgumentError>)
    ensures r.Success? <==> ToSubsetName(baseData).Success?
    ensures r.Failure? ==> r.error == ToSubsetName(baseData).error
  {
    match ToSubsetName(baseData)
    case Failure(e) => Failure(e)
    case Success(name) => Success([name] + ToSubsetNames(additions))
  }

  /** The base name comes first, the additions follow, and no subset is named twice. */
  lemma GetSubsetsShape(baseData: LibraryBaseData, additions: LibraryDataAdditions)
    requires GetSubsets(baseData, additions).Success?
    ensures var s := GetSubsets(baseData, additions).value;
            && |s| >= 1
            && s[0] == ToSubsetName(baseData).value
            && s[1..] == ToSubsetNames(additions)
            && forall i, j :: 0 <= i < j < |s| ==> s[i] != s[j]
  {
    SubsetNamesMatchFlags(additions);
    var s := GetSubsets(baseData, additions).value;
    var n := ToSubsetNames(additions);
    assert s == [s[0]] + n;
    forall j | 0 < j < |s|
      ensures s[0] != s[j]
    {
      assert s[j] == n[j - 1];
      assert s[j] in AdditionNames;
      assert s[0] == "lsl" || s[0] == "os-lsl";
      assert s[0][|s[0]| - 1] == 'l';
    }
  }

  // ------------------------------------------------- The live filtering

  /** The part of LSLEmbeddedLibraryDataProvider that the live-filtering properties touch. */
  class EmbeddedLibraryDataProvider {
    /** What was last handed to ActiveSubsets.SetSubsets. */
    var activeSubsets: seq<string>
    var liveFilteringBaseLibraryData: LibraryBaseData
    var liveFilteringLibraryDataAdditions: LibraryDataAdditions

    /** The constructors that take subset names: the backing fields keep their default values. */
    constructor WithSubsets(subsets: seq<string>)
      ensures activeSubsets == subsets
      ensures liveFilteringBaseLibraryData == StandardLsl && liveFilteringLibraryDataAdditions == NoAdditions
    {
      activeSubsets := subsets;
      liveFilteringBaseLibraryData := StandardLsl;
      liveFilteringLibraryDataAdditions := NoAdditions;
    }

    /**
     * The constructors that take base data and additions pass GetSubsets on as the active
     * subsets and store neither value in the backing fields.
     */
    static method WithLibraryData(baseData: LibraryBaseData, additions: LibraryDataAdditions)
      returns (r: Result<EmbeddedLibraryDataProvider, LslTypes.ArgumentError>)
      ensures r.Success? <==> GetSubsets(baseData, additions).Success?
      ensures r.Failure? ==> r.error == GetSubsets(baseData, additions).error
      ensures r.Success? ==> fresh(r.value) && r.value.activeSubsets == GetSubsets(baseData, additions).value
      ensures r.Success? ==> r.value.liveFilteringBaseLibraryData == StandardLsl
                             && r.value.liveFilteringLibraryDataAdditions == NoAdditions
    {
      var subsets := GetSubsets(baseData, additions);
      if subsets.Failure? {
        return Failure(subsets.error);
      }
      var p := new EmbeddedLibraryDataProvider.WithSubsets(subsets.value);
      return Success(p);
    }

    /** The active subsets are the ones the two backing fields name. */
    predicate InSync()
      reads this
    {
      GetSubsets(liveFilteringBaseLibraryData, liveFilteringLibraryDataAdditions) == Success(activeSubsets)
    }

    /**
     * The LiveFilteringBaseLibraryData setter: nothing happens when the value is unchanged;
     * otherwise the active subsets become GetSubsets(value, current additions) and the value
     * is stored. An out-of-range value raises before anything changes.
     */
    method SetLiveFilteringBaseLibraryData(value: LibraryBaseData) returns (error: Option<LslTypes.ArgumentError>)
      modifies this
      ensures liveFilteringLibraryDataAdditions == old(liveFilteringLibraryDataAdditions)
      ensures value == old(liveFilteringBaseLibraryData) ==> error.None? && unchanged(this)
      ensures value != old(liveFilteringBaseLibraryData) ==>
                match GetSubsets(value, old(liveFilteringLibraryDataAdditions))
                case Failure(e) => error == Some(e) && unchanged(this)
                case Success(s) => error.None? && activeSubsets == s && liveFilteringBaseLibraryData == value
      ensures error.None? && old(InSync()) ==> InSync()
      ensures error.None? && value != old(liveFilteringBaseLibraryData) ==> InSync()
    {
      if value == liveFilteringBaseLibraryData {
        return None;
      }
      var subsets := GetSubsets(value, liveFilteringLibraryDataAdditions);
      if subsets.Failure? {
        return Some(subsets.error);
      }
      activeSubsets := subsets.value;
      liveFilteringBaseLibraryData := value;
      error := None;
    }

    /** The LiveFilteringLibraryDataAdditions setter, the mirror image of the one above. */
    method SetLiveFilteringLibraryDataAdditions(value: LibraryDataAdditions) returns (error: Option<LslTypes.ArgumentError>)
      modifies this
      ensures liveFilteringBaseLibraryData == old(liveFilteringBaseLibraryData)
      ensures value == old(liveFilteringLibraryDataAdditions) ==> error.None? && unchanged(this)
      ensures value != old(liveFilteringLibraryDataAdditions) ==>
                match GetSubsets(old(liveFilteringBaseLibraryData), value)
                case Failure(e) => error == Some(e) && unchanged(this)
                case Success(s) => error.None? && activeSubsets == s && liveFilteringLibraryDataAdditions == value
      ensures error.None? && old(InSync()) ==> InSync()
      ensures error.None? && value != old(liveFilteringLibraryDataAdditions) ==> InSync()
    {
      if value == liveFilteringLibraryDataAdditions {
        return None;
      }
      var subsets := GetSubsets(liveFilteringBaseLibraryData, value);
      if subsets.Failure? {
        return Some(subsets.error);
      }
      activeSubsets := subsets.value;
      liveFilteringLibraryDataAdditions := value;
      error := None;
    }
  }
}
