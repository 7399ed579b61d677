/** The data of xrInitializeLoaderKHR and the property overrides it installs (loader_init_data.cpp,
    loader_properties.cpp). */
module LoaderInit {
  import opened Wrappers
  import opened LoaderPlatform

  /** One pair of XrLoaderInitPropertyValueEXT; None for a null pointer. */
  datatype PropertyValue = PropertyValue(name: Option<string>, value: Option<string>) {
    predicate Valid() { name.Some? && value.Some? && name.value != "" }
  }

  /** The structures of an init chain, in chain order. */
  datatype InitStruct =
    | PropertiesInfo(propertyValues: seq<PropertyValue>)
    | PlatformInfo(hasVM: bool, hasContext: bool)
    | OtherInfo

  predicate AllValid(values: seq<PropertyValue>) { forall i | 0 <= i < |values| :: values[i].Valid() }

  /** The store after setting the pairs in turn: a name that is already there keeps its value. */
  function Inserted(store: map<string, string>, values: seq<PropertyValue>): map<string, string>
    requires AllValid(values)
  {
    if values == [] then store
    else
      var before := Inserted(store, values[..|values| - 1]);
      var v := values[|values| - 1];
      if v.name.value in before then before else before[v.name.value := v.value.value]
  }

  /** So of a repeated name the first pair counts. */
  lemma {:induction false} FirstPairWins(values: seq<PropertyValue>, i: nat)
    requires AllValid(values) && i < |values| && forall j | 0 <= j < i :: values[j].name != values[i].name
    ensures var store := Inserted(map[], values);
      values[i].name.value in store && store[values[i].name.value] == values[i].value.value
  {
    var n := |values| - 1;
    if i < n {
      FirstPairWins(values[..n], i);
    } else {
      NotInserted(values[..n], values[i].name.value);
    }
  }

  lemma {:induction false} NotInserted(values: seq<PropertyValue>, name: string)
    requires AllValid(values) && forall v | v in values :: v.name != Some(name)
    ensures name !in Inserted(map[], values)
  {
    if values != [] {
      NotInserted(values[..|values| - 1], name);
      assert values[|values| - 1] in values;
    }
  }

  function FirstProperties(chain: seq<InitStruct>): Option<seq<PropertyValue>> {
    if chain == [] then None
    else if chain[0].PropertiesInfo? then Some(chain[0].propertyValues)
    else FirstProperties(chain[1..])
  }

  function FirstPlatform(chain: seq<InitStruct>): Option<InitStruct> {
    if chain == [] then None else if chain[0].PlatformInfo? then Some(chain[0]) else FirstPlatform(chain[1..])
  }

  predicate PropertiesAccepted(chain: seq<InitStruct>) {
    var p := FirstProperties(chain);
    p.None? || AllValid(p.value)
  }

  predicate PlatformAccepted(chain: seq<InitStruct>) {
    var p := FirstPlatform(chain);
    p.Some? && p.value.PlatformInfo? && p.value.hasVM && p.value.hasContext
  }

  /** Accepted properties replace every override, even when the platform data is then rejected. */
  function OverridesAfter(overrides: map<string, string>, chain: seq<InitStruct>): map<string, string> {
    var p := FirstProperties(chain);
    if p.Some? && AllValid(p.value) then Inserted(map[], p.value) else overrides
  }

  /** Whether the call succeeds; only some platforms require their own structure. */
  predicate Accepted(required: bool, chain: seq<InitStruct>) {
    PropertiesAccepted(chain) && (required ==> PlatformAccepted(chain))
  }

  /** The chain's first properties structure is at index `i`. */
  predicate PropertiesAt(chain: seq<InitStruct>, i: int) {
    0 <= i < |chain| && chain[i].PropertiesInfo? && forall j | 0 <= j < i :: !chain[j].PropertiesInfo?
  }

  lemma {:induction false} FirstPropertiesIs(chain: seq<InitStruct>)
    ensures var p := FirstProperties(chain);
      match p
      case None => forall i | 0 <= i < |chain| :: !chain[i].PropertiesInfo?
      case Some(values) => exists i :: PropertiesAt(chain, i) && chain[i].propertyValues == values
  {
    if chain == [] {
    } else if chain[0].PropertiesInfo? {
      assert PropertiesAt(chain, 0);
    } else {
      var rest := chain[1..];
      FirstPropertiesIs(rest);
      assert forall j | 1 <= j < |chain| :: chain[j] == rest[j - 1];
      if i :| PropertiesAt(rest, i) && Some(rest[i].propertyValues) == FirstProperties(rest) {
        assert PropertiesAt(chain, i + 1);
      }
    }
  }

  lemma {:induction false} InsertedKeys(values: seq<PropertyValue>, name: string)
    requires AllValid(values)
    ensures name in Inserted(map[], values) <==> exists i | 0 <= i < |values| :: values[i].name == Some(name)
  {
    if values != [] {
      var front := values[..|values| - 1];
      InsertedKeys(front, name);
      assert forall i | 0 <= i < |front| :: front[i] == values[i];
    }
  }

  /** Where pair `k` is the first of the pairs with the name, or their number if none has it. */
  predicate FirstNamed(values: seq<PropertyValue>, name: string, k: int) {
    && 0 <= k <= |values| && (forall j | 0 <= j < k :: values[j].name != Some(name))
    && (k < |values| ==> values[k].name == Some(name))
  }

  /** Whatever was installed before, a well-formed properties structure leaves exactly the names it gives, each with
      the first value given for it; a malformed one changes nothing. */
  lemma OverridesAre(before: map<string, string>, chain: seq<InitStruct>, i: int, name: string, k: int)
    requires PropertiesAt(chain, i) && FirstNamed(chain[i].propertyValues, name, k)
    ensures var values, after := chain[i].propertyValues, OverridesAfter(before, chain);
      if forall v | v in values :: v.name.Some? && v.value.Some? && v.name.value != "" then
        if k < |values| then name in after && after[name] == values[k].value.value else name !in after
      else after == before
  {
    hide Inserted;
    FirstPropertiesIs(chain);
    var values := chain[i].propertyValues;
    assert (forall v | v in values :: v.Valid()) <==> AllValid(values);
    if AllValid(values) {
      if k < |values| {
        FirstPairWins(values, k);
      } else {
        InsertedKeys(values, name);
      }
    }
  }

  /** Of two calls the second counts alone, if its properties structure is well formed, and the first one's overrides
      stay if it has none or a malformed one. */
  lemma SecondCallReplaces(before: map<string, string>, first: seq<InitStruct>, second: seq<InitStruct>)
    ensures var after := OverridesAfter(OverridesAfter(before, first), second);
      && (forall i | PropertiesAt(second, i) ::
            if forall v | v in second[i].propertyValues :: v.name.Some? && v.value.Some? && v.name.value != "" then
              after == OverridesAfter(map[], second)
            else after == OverridesAfter(before, first))
      && ((forall i | 0 <= i < |second| :: !second[i].PropertiesInfo?) ==> after == OverridesAfter(before, first))
  {
    hide Inserted;
    FirstPropertiesIs(second);
    forall i | PropertiesAt(second, i)
      ensures AllValid(second[i].propertyValues) <==>
              forall v | v in second[i].propertyValues :: v.name.Some? && v.value.Some? && v.name.value != ""
    {
      assert AllValid(second[i].propertyValues) <==> forall v | v in second[i].propertyValues :: v.Valid();
    }
  }

  /** The chain's first platform structure is at index `i`, and has both pointers. */
  predicate PlatformAt(chain: seq<InitStruct>, i: int) {
    && 0 <= i < |chain| && chain[i].PlatformInfo? && chain[i].hasVM && chain[i].hasContext
    && forall j | 0 <= j < i :: !chain[j].PlatformInfo?
  }

  /** Exactly when a call succeeds: its first properties structure, if any, is well formed, and where the platform
      requires its own structure the first of those has both pointers. */
  lemma AcceptedIff(required: bool, chain: seq<InitStruct>)
    ensures Accepted(required, chain) <==>
      && (forall i | PropertiesAt(chain, i) ::
            forall v | v in chain[i].propertyValues :: v.name.Some? && v.value.Some? && v.name.value != "")
      && (required ==> exists i :: PlatformAt(chain, i))
  {
    hide PropertiesAccepted, PlatformAccepted, PropertiesAt;
    PlatformAcceptedIff(chain);
    PropertiesAcceptedIff(chain);
  }

  lemma PropertiesAcceptedIff(chain: seq<InitStruct>)
    ensures PropertiesAccepted(chain) <==>
      forall i | PropertiesAt(chain, i) ::
        forall v | v in chain[i].propertyValues :: v.name.Some? && v.value.Some? && v.name.value != ""
  {
    FirstPropertiesIs(chain);
    if i :| PropertiesAt(chain, i) {
      assert AllValid(chain[i].propertyValues) <==> forall v | v in chain[i].propertyValues :: v.Valid();
      assert forall k | PropertiesAt(chain, k) :: k == i;
    }
  }

  lemma {:induction false} PlatformAcceptedIff(chain: seq<InitStruct>)
    ensures PlatformAccepted(chain) <==> exists i :: PlatformAt(chain, i)
  {
    if chain == [] {
    } else if chain[0].PlatformInfo? {
      assert PlatformAccepted(chain) ==> PlatformAt(chain, 0);
    } else {
      var rest := chain[1..];
      PlatformAcceptedIff(rest);
      assert forall j | 0 <= j < |rest| :: rest[j] == chain[j + 1];
      if i :| PlatformAt(rest, i) {
        assert forall j | 1 <= j < |chain| :: chain[j] == rest[j - 1];
        assert PlatformAt(chain, i + 1);
      }
      if i :| PlatformAt(chain, i) {
        assert PlatformAt(rest, i - 1);
      }
    }
  }

  class LoaderInitData {
    /** Whether the platform requires its own structure (XR_HAS_REQUIRED_PLATFORM_LOADER_INIT_STRUCT). */
    const required: bool
    var initialized: bool
    var overrides: map<string, string>

    constructor (required: bool)
      ensures this.required == required && !initialized && overrides == map[]
    {
      this.required, initialized, overrides := required, false, map[];
    }

    /** LoaderProperty::Get, over an environment where unset variables are empty. */
    function Get(name: string, environment: string -> string): string
      reads this
    {
      if name in overrides then overrides[name] else environment(name)
    }

    method InitializeProperties(chain: seq<InitStruct>) returns (result: XrResult)
      modifies this`overrides
      ensures result == if PropertiesAccepted(chain) then XR_SUCCESS else XR_ERROR_VALIDATION_FAILURE
      ensures overrides == OverridesAfter(old(overrides), chain)
    {
      var info := 0;
      while info < |chain|
        invariant 0 <= info <= |chain| && FirstProperties(chain[info..]) == FirstProperties(chain)
        invariant overrides == old(overrides)
      {
        assert chain[info..][1..] == chain[info + 1..];
        if chain[info].PropertiesInfo? {
          var values := chain[info].propertyValues;
          for i := 0 to |values|
            invariant AllValid(values[..i])
          {
            if values[i].name.None? || values[i].value.None? || values[i].name.value == "" {
              assert !values[i].Valid();
              return XR_ERROR_VALIDATION_FAILURE;
            }
          }
          assert values[..|values|] == values;
          overrides := map[];
          for i := 0 to |values|
            invariant overrides == Inserted(map[], values[..i])
          {
            assert values[..i + 1][..i] == values[..i];
            SetOverride(values[i].name.value, values[i].value.value);
          }
          return XR_SUCCESS;
        }
        info := info + 1;
      }
      return XR_SUCCESS;
    }

    /** std::unordered_map::insert does nothing for a key that is present. */
    method SetOverride(name: string, value: string)
      modifies this`overrides
      ensures overrides == if name in old(overrides) then old(overrides) else old(overrides)[name := value]
    {
      if name !in overrides {
        overrides := overrides[name := value];
      }
    }

    method InitializePlatform(chain: seq<InitStruct>) returns (result: XrResult)
      ensures result == if PlatformAccepted(chain) then XR_SUCCESS else XR_ERROR_VALIDATION_FAILURE
    {
      var info := 0;
      while info < |chain|
        invariant 0 <= info <= |chain| && FirstPlatform(chain[info..]) == FirstPlatform(chain)
      {
        assert chain[info..][1..] == chain[info + 1..];
        if chain[info].PlatformInfo? {
          if !chain[info].hasVM || !chain[info].hasContext {
            return XR_ERROR_VALIDATION_FAILURE;
          }
          return XR_SUCCESS;
        }
        info := info + 1;
      }
      return XR_ERROR_VALIDATION_FAILURE;
    }

    /** LoaderInitData::initialize. A failure never takes back an earlier success. */
    method Initialize(chain: seq<InitStruct>) returns (result: XrResult)
      modifies this
      ensures var accepted := Accepted(required, chain);
        && result == (if accepted then XR_SUCCESS else XR_ERROR_VALIDATION_FAILURE)
        && initialized == (old(initialized) || accepted)
      ensures overrides == OverridesAfter(old(overrides), chain)
    {
      result := InitializeProperties(chain);
      if result != XR_SUCCESS {
        return result;
      }
      if required {
        result := InitializePlatform(chain);
        if result != XR_SUCCESS {
          return result;
        }
      }
      initialized := true;
      return XR_SUCCESS;
    }
  }

  /** What a property reads as after a call with a well-formed properties structure: the first value given for it, or
      that of the environment if none is. */
  lemma PropertyRead(data: LoaderInitData, before: map<string, string>, chain: seq<InitStruct>, i: int, name: string,
      k: int, environment: string -> string)
    requires PropertiesAt(chain, i) && FirstNamed(chain[i].propertyValues, name, k)
    requires forall v | v in chain[i].propertyValues :: v.name.Some? && v.value.Some? && v.name.value != ""
    requires data.overrides == OverridesAfter(before, chain)
    ensures var values := chain[i].propertyValues;
      data.Get(name, environment) == if k < |values| then values[k].value.value else environment(name)
  {
    hide OverridesAfter, PropertiesAt, FirstNamed;
    OverridesAre(before, chain, i, name, k);
  }
}
