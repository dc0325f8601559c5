/**
 * The `Properties` dictionary the library signatures carry, and the boolean toggles
 * (`Deprecated`, `Expand`, `ModInvoke`) stored in it: a toggle is on when its key maps to
 * "true" in any letter case, setting it on stores "true", and setting it off removes the key.
 */
module PropertyBags {
  import Text

  type Properties = map<string, string>

  /** The toggle getter: the key is present and its value lower-cases to "true". */
  predicate Toggle(props: Properties, key: string) {
    key in props && Text.ToLower(props[key]) == "true"
  }

  /** The toggle setter: `Properties[key] = "true"` when on, `Properties.Remove(key)` when off. */
  function SetToggle(props: Properties, key: string, on: bool): (r: Properties)
    ensures on ==> key in r && r[key] == "true"
    ensures !on ==> key !in r
    ensures forall k :: k != key ==> (k in r <==> k in props)
    ensures forall k :: k != key && k in props ==> r[k] == props[k]
  {
    if on then props[key := "true"] else props - {key}
  }

  /** The getter reads back the value last set. */
  lemma {:induction false} ToggleReadsBack(props: Properties, key: string, on: bool)
    ensures Toggle(SetToggle(props, key, on), key) == on
  {
    if on {
      assert Text.ToLower("true") == "true";
    }
  }

  /** Setting one toggle leaves every other toggle as it was. */
  lemma ToggleIndependent(props: Properties, key: string, other: string, on: bool)
    requires other != key
    ensures Toggle(SetToggle(props, key, on), other) == Toggle(props, other)
  {
  }

  /** Setting a toggle twice is the same as setting it once to the last value. */
  lemma ToggleLastWins(props: Properties, key: string, first: bool, second: bool)
    ensures SetToggle(SetToggle(props, key, first), key, second) == SetToggle(props, key, second)
  {
  }

  /** Only "true" spelled in some letter case switches a toggle on. */
  lemma ToggleValues(props: Properties, key: string)
    requires key in props
    ensures props[key] == "TRUE" ==> Toggle(props, key)
    ensures props[key] == "1" ==> !Toggle(props, key)
    ensures props[key] == "yes" ==> !Toggle(props, key)
  {
    assert Text.ToLower("TRUE") == "true";
  }
}
