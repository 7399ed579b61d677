/** Which API layers are enabled, in which order, and which of them load (api_layer_interface.cpp). */
module LayerSelection {
  import opened Wrappers
  import opened LoaderPlatform
  import Extensions
  import SearchPaths

  datatype Manifest = Manifest(filename: string, layerName: string, extensions: seq<Extensions.ExtensionListing>)

  /** What ApiLayerManifestFile::FindManifestFiles reports. */
  datatype Discovery = Discovery(result: XrResult, manifests: seq<Manifest>)

  // ---------- Selection ----------

  function Named(manifests: seq<Manifest>, name: string): seq<Manifest> {
    if manifests == [] then []
    else (if manifests[0].layerName == name then [manifests[0]] else []) + Named(manifests[1..], name)
  }

  function NotNamed(manifests: seq<Manifest>, name: string): seq<Manifest> {
    if manifests == [] then []
    else (if manifests[0].layerName == name then [] else [manifests[0]]) + NotNamed(manifests[1..], name)
  }

  function Names(manifests: seq<Manifest>): set<string> { set m | m in manifests :: m.layerName }

  /** The explicit manifests taken: for each new name in request order, all of that name in discovery order. */
  function Picked(explicit: seq<Manifest>, requested: seq<string>, already: set<string>): seq<Manifest>
    decreases |requested|
  {
    if requested == [] then []
    else
      var front, name := requested[..|requested| - 1], requested[|requested| - 1];
      Picked(explicit, front, already) + if name in already || name in front then [] else Named(explicit, name)
  }

  predicate Matched(implicit: seq<Manifest>, explicit: seq<Manifest>, name: string) {
    name in Names(implicit) || name in Names(explicit)
  }

  lemma {:induction false} NamedMembers(manifests: seq<Manifest>, name: string, m: Manifest)
    ensures m in Named(manifests, name) <==> m in manifests && m.layerName == name
    ensures m in NotNamed(manifests, name) <==> m in manifests && m.layerName != name
  {
    if manifests != [] {
      NamedMembers(manifests[1..], name, m);
      assert manifests == [manifests[0]] + manifests[1..];
    }
  }

  lemma {:induction false} NamedPartition(manifests: seq<Manifest>, name: string)
    ensures multiset(Named(manifests, name)) + multiset(NotNamed(manifests, name)) == multiset(manifests)
  {
    if manifests != [] {
      NamedPartition(manifests[1..], name);
      assert manifests == [manifests[0]] + manifests[1..];
    }
  }

  lemma NamedCons(m: Manifest, rest: seq<Manifest>, name: string)
    ensures Named([m] + rest, name) == (if m.layerName == name then [m] else []) + Named(rest, name)
    ensures NotNamed([m] + rest, name) == (if m.layerName == name then [] else [m]) + NotNamed(rest, name)
  {
    assert ([m] + rest)[1..] == rest;
  }

  lemma {:induction false} NamedElsewhere(manifests: seq<Manifest>, name: string, other: string)
    requires name != other
    ensures Named(NotNamed(manifests, other), name) == Named(manifests, name)
  {
    hide Named, NotNamed;
    NamedNone(name);
    NamedNone(other);
    if manifests != [] {
      var m, rest := manifests[0], manifests[1..];
      assert manifests == [m] + rest;
      NamedElsewhere(rest, name, other);
      NamedCons(m, rest, name);
      NamedCons(m, rest, other);
      NamedCons(m, NotNamed(rest, other), name);
      assert [] + NotNamed(rest, other) == NotNamed(rest, other) && [] + Named(rest, name) == Named(rest, name);
    }
  }

  lemma NamedNone(name: string)
    ensures Named([], name) == [] && NotNamed([], name) == []
  {}

  lemma {:induction false} NamedConcat(a: seq<Manifest>, b: seq<Manifest>, name: string)
    ensures Named(a + b, name) == Named(a, name) + Named(b, name)
  {
    hide Named, NotNamed;
    NamedNone(name);
    if a == [] {
      assert a + b == b;
    } else {
      var m, rest := a[0], a[1..];
      assert a == [m] + rest && a + b == [m] + (rest + b);
      NamedConcat(rest, b, name);
      NamedCons(m, rest, name);
      NamedCons(m, rest + b, name);
    }
  }

  lemma {:induction false} NoneNamed(manifests: seq<Manifest>, name: string)
    requires name !in Names(manifests)
    ensures Named(manifests, name) == [] && NotNamed(manifests, name) == manifests
  {
    if manifests != [] {
      assert manifests[0].layerName in Names(manifests);
      assert Names(manifests[1..]) <= Names(manifests);
      NoneNamed(manifests[1..], name);
    }
  }

  /** One name's pass over the explicit manifests: the loop that erases while it iterates. */
  method TakeNamed(name: string, explicit: seq<Manifest>, enabled: seq<Manifest>)
    returns (found: bool, left: seq<Manifest>, taken: seq<Manifest>)
    ensures taken == enabled + Named(explicit, name) && left == NotNamed(explicit, name)
    ensures found <==> name in Names(explicit)
  {
    hide Named, NotNamed;
    found, left, taken := false, explicit, enabled;
    var it := 0;
    assert left[0..] == explicit;
    NamedNone(name);
    while it < |left|
      invariant 0 <= it <= |left|
      invariant left[..it] + NotNamed(left[it..], name) == NotNamed(explicit, name)
      invariant taken + Named(left[it..], name) == enabled + Named(explicit, name)
      invariant !found ==> left == explicit && taken == enabled && name !in Names(left[..it])
      invariant found ==> name in Names(explicit)
      decreases |left| - it
    {
      var m := left[it];
      assert left[it..] == [m] + left[it + 1..];
      NamedCons(m, left[it + 1..], name);
      if m.layerName == name {
        assert m in left;
        found := true;
        taken := taken + [m];
        ghost var before := left;
        left := left[..it] + left[it + 1..];
        assert left[..it] == before[..it] && left[it..] == before[it + 1..];
      } else {
        assert left[..it + 1] == left[..it] + [m];
        it := it + 1;
      }
    }
    assert left[it..] == [] && left[..it] == left;
  }

  /** Where the selection stands after the requests `done`. */
  ghost predicate Selecting(implicit: seq<Manifest>, explicit: seq<Manifest>, done: seq<string>,
      already: set<string>, left: seq<Manifest>, enabled: seq<Manifest>)
  {
    && enabled == implicit + Picked(explicit, done, Names(implicit))
    && multiset(enabled) + multiset(left) == multiset(implicit) + multiset(explicit)
    && (forall name :: name in already <==> name in Names(implicit) || (name in done && name in Names(explicit)))
    && (forall name | name !in already :: Named(left, name) == Named(explicit, name))
    && (forall name | name !in already :: name in Names(left) <==> name in Names(explicit))
  }

  lemma PickedLast(explicit: seq<Manifest>, done: seq<string>, name: string, already: set<string>)
    ensures Picked(explicit, done + [name], already) ==
            Picked(explicit, done, already) + if name in already || name in done then [] else Named(explicit, name)
  {
    assert (done + [name])[..|done|] == done;
  }

  lemma SelectKnown(implicit: seq<Manifest>, explicit: seq<Manifest>, done: seq<string>,
      already: set<string>, left: seq<Manifest>, enabled: seq<Manifest>, name: string)
    requires Selecting(implicit, explicit, done, already, left, enabled) && name in already
    ensures Selecting(implicit, explicit, done + [name], already, left, enabled)
    ensures Matched(implicit, explicit, name)
  {
    hide Named, Picked;
    PickedLast(explicit, done, name, Names(implicit));
    var picked := Picked(explicit, done, Names(implicit));
    assert picked + [] == picked;
  }

  lemma SelectNew(implicit: seq<Manifest>, explicit: seq<Manifest>, done: seq<string>,
      already: set<string>, left: seq<Manifest>, enabled: seq<Manifest>, name: string)
    requires Selecting(implicit, explicit, done, already, left, enabled) && name !in already
    ensures var found := name in Names(left);
      && Selecting(implicit, explicit, done + [name], if found then already + {name} else already,
                   NotNamed(left, name), enabled + Named(left, name))
      && (found <==> Matched(implicit, explicit, name))
  {
    hide Named, NotNamed, Picked, Names;
    var now := if name in Names(left) then already + {name} else already;
    PickedLast(explicit, done, name, Names(implicit));
    if name in done {
      NoneNamed(explicit, name);
    }
    var picked := Picked(explicit, done, Names(implicit));
    assert enabled + Named(left, name) == implicit + (picked + Named(explicit, name));
    NamedPartition(left, name);
    forall other | other !in now
      ensures Named(NotNamed(left, name), other) == Named(explicit, other)
      ensures other in Names(NotNamed(left, name)) <==> other in Names(explicit)
    {
      if other != name {
        NamedElsewhere(left, other, name);
        SameNames(left, NotNamed(left, name), name, other);
      } else {
        NoneNamed(left, name);
      }
    }
  }

  predicate AllMatched(implicit: seq<Manifest>, explicit: seq<Manifest>, requested: seq<string>) {
    forall name | name in requested :: Matched(implicit, explicit, name)
  }

  lemma SelectNone(implicit: seq<Manifest>, explicit: seq<Manifest>)
    ensures Selecting(implicit, explicit, [], Names(implicit), explicit, implicit)
    ensures AllMatched(implicit, explicit, [])
  {
    assert implicit + [] == implicit;
  }

  lemma MatchedLast(implicit: seq<Manifest>, explicit: seq<Manifest>, done: seq<string>, name: string)
    ensures AllMatched(implicit, explicit, done + [name]) <==>
            AllMatched(implicit, explicit, done) && Matched(implicit, explicit, name)
  {
    hide Matched;
    assert forall x :: x in done + [name] <==> x in done || x == name;
  }

  /** One requested name. */
  method SelectName(implicit: seq<Manifest>, explicit: seq<Manifest>, ghost done: seq<string>, name: string,
      already: set<string>, left: seq<Manifest>, enabled: seq<Manifest>)
    returns (found: bool, nowAlready: set<string>, nowLeft: seq<Manifest>, nowEnabled: seq<Manifest>)
    requires Selecting(implicit, explicit, done, already, left, enabled)
    ensures Selecting(implicit, explicit, done + [name], nowAlready, nowLeft, nowEnabled)
    ensures found <==> Matched(implicit, explicit, name)
  {
    hide Named, NotNamed, Selecting, Matched, Names;
    found, nowAlready, nowLeft, nowEnabled := true, already, left, enabled;
    if name in already {
      SelectKnown(implicit, explicit, done, already, left, enabled, name);
    } else {
      SelectNew(implicit, explicit, done, already, left, enabled, name);
      found, nowLeft, nowEnabled := TakeNamed(name, left, enabled);
      if found {
        nowAlready := already + {name};
      }
    }
  }

  lemma PrefixLast<T>(s: seq<T>, i: nat)
    requires i < |s|
    ensures s[..i + 1] == s[..i] + [s[i]]
  {}

  /** The selection part of LoadApiLayers, for discoveries that succeeded. */
  method SelectLayers(implicit: seq<Manifest>, explicit: seq<Manifest>, requested: seq<string>)
    returns (enabled: seq<Manifest>, foundAll: bool, ghost unused: seq<Manifest>)
    ensures enabled == implicit + Picked(explicit, requested, Names(implicit))
    ensures foundAll <==> AllMatched(implicit, explicit, requested)
    ensures multiset(enabled) + multiset(unused) == multiset(implicit) + multiset(explicit)
  {
    hide Selecting, Matched, AllMatched, Picked, Names;
    enabled, foundAll := implicit, true;
    var already, left := Names(implicit), explicit;
    SelectNone(implicit, explicit);
    assert requested[..0] == [];
    for r := 0 to |requested|
      invariant Selecting(implicit, explicit, requested[..r], already, left, enabled)
      invariant foundAll <==> AllMatched(implicit, explicit, requested[..r])
    {
      PrefixLast(requested, r);
      MatchedLast(implicit, explicit, requested[..r], requested[r]);
      var foundThis;
      foundThis, already, left, enabled :=
        SelectName(implicit, explicit, requested[..r], requested[r], already, left, enabled);
      if !foundThis {
        foundAll := false;
      }
    }
    assert requested[..|requested|] == requested;
    unused := left;
    SelectionResult(implicit, explicit, requested, already, left, enabled);
  }

  lemma SelectionResult(implicit: seq<Manifest>, explicit: seq<Manifest>, done: seq<string>,
      already: set<string>, left: seq<Manifest>, enabled: seq<Manifest>)
    requires Selecting(implicit, explicit, done, already, left, enabled)
    ensures enabled == implicit + Picked(explicit, done, Names(implicit))
    ensures multiset(enabled) + multiset(left) == multiset(implicit) + multiset(explicit)
  {}

  lemma SameNames(before: seq<Manifest>, after: seq<Manifest>, name: string, other: string)
    requires after == NotNamed(before, name) && other != name
    ensures other in Names(after) <==> other in Names(before)
  {
    if m :| m in before && m.layerName == other {
      NamedMembers(before, name, m);
    }
    if m :| m in after && m.layerName == other {
      NamedMembers(before, name, m);
    }
  }

  /** A manifest is taken exactly when it is requested and no implicit layer has its name. */
  lemma {:induction false} PickedMembers(explicit: seq<Manifest>, requested: seq<string>, already: set<string>,
      m: Manifest)
    ensures m in Picked(explicit, requested, already) <==>
            m in explicit && m.layerName in requested && m.layerName !in already
    decreases |requested|
  {
    if requested != [] {
      var front, name := requested[..|requested| - 1], requested[|requested| - 1];
      assert requested == front + [name];
      PickedMembers(explicit, front, already, m);
      NamedMembers(explicit, name, m);
    }
  }

  /** Manifests of one name keep their discovery order, and each is taken once. */
  lemma {:induction false} PickedNamed(explicit: seq<Manifest>, requested: seq<string>, already: set<string>,
      name: string)
    ensures Named(Picked(explicit, requested, already), name) ==
            if name in requested && name !in already then Named(explicit, name) else []
    decreases |requested|
  {
    hide Named;
    if requested != [] {
      var front, last := requested[..|requested| - 1], requested[|requested| - 1];
      assert requested == front + [last];
      PickedNamed(explicit, front, already, name);
      NamedTwice(explicit, last, name);
      var more := if last in already || last in front then [] else Named(explicit, last);
      NamedConcat(Picked(explicit, front, already), more, name);
      NamedNone(name);
    } else {
      NamedNone(name);
    }
  }

  lemma {:induction false} NamedTwice(manifests: seq<Manifest>, a: string, b: string)
    ensures Named(Named(manifests, a), b) == if a == b then Named(manifests, a) else []
  {
    hide Named, NotNamed;
    NamedNone(a);
    NamedNone(b);
    if manifests != [] {
      var m, rest := manifests[0], manifests[1..];
      assert manifests == [m] + rest;
      NamedTwice(rest, a, b);
      NamedCons(m, rest, a);
      NamedCons(m, Named(rest, a), b);
      assert [] + Named(rest, a) == Named(rest, a);
    }
  }

  function FirstRequest(requested: seq<string>, name: string): (i: nat)
    requires name in requested
    ensures i < |requested| && requested[i] == name && forall k | 0 <= k < i :: requested[k] != name
  {
    if requested[0] == name then 0
    else
      assert forall k | 1 <= k < |requested| :: requested[k] == requested[1..][k - 1];
      1 + FirstRequest(requested[1..], name)
  }

  lemma FirstRequestInFront(requested: seq<string>, name: string, n: nat)
    requires n <= |requested| && name in requested[..n]
    ensures name in requested && FirstRequest(requested, name) == FirstRequest(requested[..n], name)
  {
    hide FirstRequest;
    assert forall k | 0 <= k < n :: requested[..n][k] == requested[k];
  }

  /** Different names come in the order of their first request. */
  lemma {:induction false} PickedInRequestOrder(explicit: seq<Manifest>, requested: seq<string>, already: set<string>,
      i: nat, j: nat)
    requires i < j < |Picked(explicit, requested, already)|
    ensures var p := Picked(explicit, requested, already);
      && p[i].layerName in requested && p[j].layerName in requested
      && FirstRequest(requested, p[i].layerName) <= FirstRequest(requested, p[j].layerName)
    decreases |requested|
  {
    var p := Picked(explicit, requested, already);
    PickedMembers(explicit, requested, already, p[i]);
    PickedMembers(explicit, requested, already, p[j]);
    if requested != [] {
      var n := |requested| - 1;
      var front, name := requested[..n], requested[n];
      var q := Picked(explicit, front, already);
      if j < |q| {
        PickedInRequestOrder(explicit, front, already, i, j);
        FirstRequestInFront(requested, p[i].layerName, n);
        FirstRequestInFront(requested, p[j].layerName, n);
      } else {
        assert p[j] in Named(explicit, name) && name !in front;
        NamedMembers(explicit, name, p[j]);
        assert forall k | 0 <= k < n :: front[k] == requested[k];
        assert FirstRequest(requested, name) == n;
      }
    }
  }

  // ---------- The manifests whose extensions are reported ----------

  /** The explicit manifests that the environment enables, in discovery order. */
  function EnabledIn(explicit: seq<Manifest>, names: seq<string>): seq<Manifest> {
    if explicit == [] then []
    else
      var front, last := explicit[..|explicit| - 1], explicit[|explicit| - 1];
      EnabledIn(front, names) + (if last.layerName in names then [last] else [])
  }

  /** The manifests ApiLayerInterface::GetInstanceExtensionProperties reads without a layer name, for
      discoveries that succeeded. */
  method ManifestsToReport(implicit: seq<Manifest>, explicit: seq<Manifest>, environment: string)
    returns (manifests: seq<Manifest>)
    ensures manifests == implicit + EnabledIn(explicit, SearchPaths.DropLastEmpty(SearchPaths.Split(environment)))
  {
    hide SearchPaths.Split, SearchPaths.DropLastEmpty;
    manifests := implicit;
    var names := SearchPaths.AddEnvironmentApiLayers(environment, []);
    assert names == SearchPaths.DropLastEmpty(SearchPaths.Split(environment));
    if names != [] {
      for e := 0 to |explicit|
        invariant manifests == implicit + EnabledIn(explicit[..e], names)
      {
        assert explicit[..e + 1][..e] == explicit[..e];
        var n := 0;
        while n < |names|
          invariant 0 <= n <= |names| && explicit[e].layerName !in names[..n]
          invariant manifests == implicit + EnabledIn(explicit[..e], names)
        {
          if names[n] == explicit[e].layerName {
            break;
          }
          n := n + 1;
        }
        if n < |names| {
          manifests := manifests + [explicit[e]];
        }
      }
      assert explicit[..|explicit|] == explicit;
    } else {
      NothingEnabled(explicit);
      assert implicit + [] == implicit;
    }
  }

  lemma {:induction false} NothingEnabled(explicit: seq<Manifest>)
    ensures EnabledIn(explicit, []) == []
  {
    if explicit != [] {
      NothingEnabled(explicit[..|explicit| - 1]);
    }
  }

  /** In discovery order: a manifest is reported where it is found, between those before it and those after it. */
  lemma {:induction false} EnabledAround(a: seq<Manifest>, m: Manifest, b: seq<Manifest>, names: seq<string>)
    ensures EnabledIn([], names) == []
    ensures EnabledIn(a + [m] + b, names) ==
            EnabledIn(a, names) + (if m.layerName in names then [m] else []) + EnabledIn(b, names)
    decreases |b|
  {
    if b == [] {
      assert a + [m] + b == a + [m] && (a + [m])[..|a|] == a;
    } else {
      var n := |b| - 1;
      var all := a + [m] + b;
      assert all[..|all| - 1] == a + [m] + b[..n];
      EnabledAround(a, m, b[..n], names);
    }
  }

  lemma {:induction false} CountNamed(manifests: seq<Manifest>, m: Manifest)
    ensures multiset(manifests)[m] == multiset(Named(manifests, m.layerName))[m]
  {
    hide Named;
    if manifests == [] {
      NamedNone(m.layerName);
    } else {
      var first, rest := manifests[0], manifests[1..];
      assert manifests == [first] + rest;
      CountNamed(rest, m);
      NamedCons(first, rest, m.layerName);
    }
  }

  lemma {:induction false} EnabledNamed(explicit: seq<Manifest>, names: seq<string>, name: string)
    ensures Named(EnabledIn(explicit, names), name) == if name in names then Named(explicit, name) else []
  {
    hide Named;
    NamedNone(name);
    if explicit != [] {
      var front, last := explicit[..|explicit| - 1], explicit[|explicit| - 1];
      assert explicit == front + [last];
      EnabledNamed(front, names, name);
      NamedConcat(front, [last], name);
      NamedConcat(EnabledIn(front, names), if last.layerName in names then [last] else [], name);
      NamedCons(last, [], name);
      assert [last] + [] == [last];
    }
  }

  /** Exactly when the reported extensions come from the very manifests that are loaded: unless the environment
      names an implicit layer that also has an explicit manifest, which is then reported but never loaded. */
  lemma ReportedAreLoadedIff(implicit: seq<Manifest>, explicit: seq<Manifest>, names: seq<string>)
    ensures multiset(EnabledIn(explicit, names)) == multiset(Picked(explicit, names, Names(implicit))) <==>
            forall m | m in explicit && m.layerName in names :: m.layerName !in Names(implicit)
  {
    hide Named, Picked, EnabledIn, Names;
    var reported, loaded := EnabledIn(explicit, names), Picked(explicit, names, Names(implicit));
    forall m: Manifest
      ensures multiset(reported)[m] == (if m.layerName in names then multiset(explicit)[m] else 0)
      ensures multiset(loaded)[m] ==
        (if m.layerName in names && m.layerName !in Names(implicit) then multiset(explicit)[m] else 0)
    {
      CountNamed(reported, m);
      CountNamed(loaded, m);
      CountNamed(explicit, m);
      EnabledNamed(explicit, names, m.layerName);
      PickedNamed(explicit, names, Names(implicit), m.layerName);
    }
    if m :| m in explicit && m.layerName in names && m.layerName in Names(implicit) {
      assert m in multiset(explicit);
      assert multiset(reported)[m] != multiset(loaded)[m];
    }
  }

  /** An implicit and an explicit manifest of one name: enabled by the environment, the second is reported but not
      loaded. */
  lemma ReportedNotLoaded(implicit: Manifest, explicit: Manifest)
    requires implicit.layerName == explicit.layerName
    ensures EnabledIn([explicit], [explicit.layerName]) == [explicit]
    ensures Picked([explicit], [explicit.layerName], Names([implicit])) == []
  {
    assert implicit in [implicit];
    assert [explicit][..0] == [] && [explicit.layerName][..0] == [];
  }

  // ---------- Loading ----------

  /** What a layer's library and its entry points do. */
  datatype Behaviour = Behaviour(
    opens: bool,
    exportedInitialize: Option<XrResult>,
    negotiation: Option<Negotiation>)

  /** The reply to negotiation, and to a later query for xrInitializeLoaderKHR (None for a null pointer). */
  datatype Negotiation = Negotiation(
    result: XrResult,
    hasGetInstanceProcAddr: bool,
    lookUpResult: XrResult,
    initialize: Option<XrResult>)

  /** LoaderInitData, as far as loading depends on it. */
  datatype InitState = InitState(required: bool, initialized: bool, hasPlatformParam: bool)

  datatype Outcome =
    | Loaded
    | Skipped(error: XrResult)
    | NotNegotiable
    | Aborted(result: XrResult)

  function NegotiationResult(b: Negotiation, forwarded: bool, init: InitState): XrResult {
    if Failed(b.result) then b.result
    else if !b.hasGetInstanceProcAddr then XR_ERROR_FILE_CONTENTS_INVALID
    else if forwarded || !init.hasPlatformParam || Failed(b.lookUpResult) then b.result
    else match b.initialize
      case None => XR_ERROR_RUNTIME_FAILURE
      case Some(res) => res
  }

  function OutcomeOf(b: Behaviour, init: InitState): Outcome {
    if !b.opens then Skipped(XR_ERROR_FILE_ACCESS_ERROR)
    else if init.required && !init.initialized then Aborted(XR_ERROR_VALIDATION_FAILURE)
    else
      var forwarded := init.hasPlatformParam && b.exportedInitialize.Some?;
      if forwarded && Failed(b.exportedInitialize.value) then Aborted(b.exportedInitialize.value)
      else match b.negotiation
        case None => NotNegotiable
        case Some(n) =>
          var res := NegotiationResult(n, forwarded, init);
          if Failed(res) then Skipped(res) else Loaded
  }

  /** Exactly when a layer loads, and exactly when an attempt to load it aborts the loop. */
  lemma LayerLoadsIff(b: Behaviour, init: InitState)
    ensures OutcomeOf(b, init).Loaded? <==>
      && b.opens && (init.required ==> init.initialized)
      && b.negotiation.Some? && b.negotiation.value.result >= 0 && b.negotiation.value.hasGetInstanceProcAddr
      && (init.hasPlatformParam ==>
            if b.exportedInitialize.Some? then b.exportedInitialize.value >= 0
            else
              b.negotiation.value.lookUpResult >= 0 ==>
                b.negotiation.value.initialize.Some? && b.negotiation.value.initialize.value >= 0)
    ensures OutcomeOf(b, init).Aborted? <==>
      && b.opens
      && ((init.required && !init.initialized) ||
          (init.hasPlatformParam && b.exportedInitialize.Some? && b.exportedInitialize.value < 0))
  {}

  /** What an attempt fails with, in the order in which it can fail. */
  lemma LayerErrors(b: Behaviour, init: InitState)
    ensures var o := OutcomeOf(b, init);
      if !b.opens then o == Skipped(-32)
      else if init.required && !init.initialized then o == Aborted(-1)
      else if init.hasPlatformParam && b.exportedInitialize.Some? && b.exportedInitialize.value < 0 then
        o == Aborted(b.exportedInitialize.value)
      else if b.negotiation.None? then o == NotNegotiable
      else
        var n := b.negotiation.value;
        && (n.result < 0 ==> o == Skipped(n.result))
        && (n.result >= 0 && !n.hasGetInstanceProcAddr ==> o == Skipped(-33))
        && (n.result >= 0 && n.hasGetInstanceProcAddr && o != Loaded ==>
              o == Skipped(if n.initialize.None? then -2 else n.initialize.value))
  {}

  /** What the loader keeps of a layer's manifest. */
  datatype LayerInfo = LayerInfo(layerName: string, supportedExtensions: seq<string>)

  datatype ApiLayer = ApiLayer(info: LayerInfo, library: Library)

  function PropertyNames(props: seq<Extensions.Properties>): seq<string> {
    seq(|props|, i requires 0 <= i < |props| => props[i].name)
  }

  /** A manifest's name, and its extensions after merging its listings. */
  function InfoOf(manifest: Manifest): LayerInfo {
    LayerInfo(manifest.layerName, PropertyNames(Extensions.MergeListings([], manifest.extensions)))
  }

  /** A layer goes by its manifest's name and supports what its manifest lists, cut to the size of a name. */
  lemma SupportsListed(manifest: Manifest, extension: string)
    ensures InfoOf(manifest).layerName == manifest.layerName
    ensures extension in InfoOf(manifest).supportedExtensions <==>
            exists ext | ext in manifest.extensions :: Extensions.Truncated(ext.name) == extension
  {
    hide Extensions.IndexOf, Extensions.Truncated, Extensions.MergeListings;
    var props := Extensions.MergeListings([], manifest.extensions);
    Extensions.MergedNames([], manifest.extensions, extension);
    Extensions.ListedMembers(manifest.extensions, extension);
    assert forall i | 0 <= i < |props| :: PropertyNames(props)[i] == props[i].name;
    if i :| 0 <= i < |props| && props[i].name == extension {
      assert PropertyNames(props)[i] == extension;
    }
  }

  ghost function Libraries(layers: seq<ApiLayer>): set<Library> { set l | l in layers :: l.library }

  ghost predicate DistinctLibraries(layers: seq<ApiLayer>) {
    forall i, j | 0 <= i < j < |layers| :: layers[i].library != layers[j].library
  }

  datatype Fold = Fold(error: XrResult, anyLoaded: bool)

  /** The error after a run of attempts: a load clears it, and later only a missing entry point sets it again. */
  function Folded(outcomes: seq<Outcome>): Fold {
    if outcomes == [] then Fold(XR_SUCCESS, false)
    else
      var f := Folded(outcomes[..|outcomes| - 1]);
      match outcomes[|outcomes| - 1]
      case Loaded => Fold(XR_SUCCESS, true)
      case Skipped(e) => if f.anyLoaded then f else Fold(e, false)
      case NotNegotiable => Fold(XR_ERROR_API_LAYER_NOT_PRESENT, f.anyLoaded)
      case Aborted(_) => f
  }

  function Outcomes(behaviours: nat -> Behaviour, init: InitState, n: nat): (r: seq<Outcome>)
    ensures |r| == n && forall i | 0 <= i < n :: r[i] == OutcomeOf(behaviours(i), init)
  {
    seq(n, i requires 0 <= i < n => OutcomeOf(behaviours(i), init))
  }

  /** The layers that loaded, in order. */
  function LoadedInfos(enabled: seq<Manifest>, outcomes: seq<Outcome>): seq<LayerInfo>
    requires |enabled| == |outcomes|
  {
    if enabled == [] then []
    else
      var n := |enabled| - 1;
      LoadedInfos(enabled[..n], outcomes[..n]) + if outcomes[n].Loaded? then [InfoOf(enabled[n])] else []
  }

  function LayerInfos(layers: seq<ApiLayer>): (infos: seq<LayerInfo>)
    ensures |infos| == |layers|
  {
    seq(|layers|, i requires 0 <= i < |layers| => layers[i].info)
  }

  /** The list of extensions that the loader keeps with a layer. */
  method SupportedExtensions(manifest: Manifest) returns (supported: seq<string>)
    ensures supported == InfoOf(manifest).supportedExtensions
  {
    var props := Extensions.GetExtensionProperties(manifest.extensions, []);
    supported := [];
    for i := 0 to |props|
      invariant supported == PropertyNames(props[..i])
    {
      supported := supported + [props[i].name];
    }
    assert props[..|props|] == props;
  }

  /** The body of the loading loop: the library stays open exactly when the layer is loaded. */
  method LoadLayer(platform: Platform, manifest: Manifest, b: Behaviour, init: InitState)
    returns (outcome: Outcome, layer: Option<ApiLayer>)
    requires platform.Valid()
    modifies platform
    ensures platform.Valid() && outcome == OutcomeOf(b, init) && layer.Some? == outcome.Loaded?
    ensures platform.next >= old(platform.next)
    ensures layer.None? ==> platform.open == old(platform.open)
    ensures layer.Some? ==>
      && layer.value.info == InfoOf(manifest) && layer.value.library !in old(platform.open)
      && platform.open == old(platform.open) + {layer.value.library}
  {
    layer := None;
    var library := platform.Open(b.opens);
    if library.None? {
      return Skipped(XR_ERROR_FILE_ACCESS_ERROR), None;
    }
    if init.required && !init.initialized {
      platform.Close(library.value);
      return Aborted(XR_ERROR_VALIDATION_FAILURE), None;
    }
    var forwarded := false;
    if init.hasPlatformParam && b.exportedInitialize.Some? {
      if !Succeeded(b.exportedInitialize.value) {
        platform.Close(library.value);
        return Aborted(b.exportedInitialize.value), None;
      }
      forwarded := true;
    }
    if b.negotiation.None? {
      platform.Close(library.value);
      return NotNegotiable, None;
    }
    var n := b.negotiation.value;
    var res := n.result;
    if Succeeded(res) && !n.hasGetInstanceProcAddr {
      res := XR_ERROR_FILE_CONTENTS_INVALID;
    }
    if Succeeded(res) && !forwarded && init.hasPlatformParam {
      if Succeeded(n.lookUpResult) {
        if n.initialize.None? {
          res := XR_ERROR_RUNTIME_FAILURE;
        } else {
          res := n.initialize.value;
        }
      }
    }
    if Failed(res) {
      platform.Close(library.value);
      return Skipped(res), None;
    }
    var supported := SupportedExtensions(manifest);
    return Loaded, Some(ApiLayer(LayerInfo(manifest.layerName, supported), library.value));
  }

  /** Destroys the interfaces, each of which closes its library. */
  method DestroyLayers(platform: Platform, layers: seq<ApiLayer>)
    requires platform.Valid() && DistinctLibraries(layers) && Libraries(layers) <= platform.open
    modifies platform
    ensures platform.Valid() && platform.open == old(platform.open) - Libraries(layers)
  {
    for i := 0 to |layers|
      invariant platform.Valid() && platform.open == old(platform.open) - Libraries(layers[..i])
    {
      assert layers[i].library in Libraries(layers);
      assert layers[i].library !in Libraries(layers[..i]);
      assert layers[..i + 1] == layers[..i] + [layers[i]];
      platform.Close(layers[i].library);
    }
    assert layers[..|layers|] == layers;
  }

  function EnabledManifests(implicit: Discovery, explicit: Discovery, requested: seq<string>): seq<Manifest> {
    implicit.manifests +
    if Succeeded(implicit.result) && Succeeded(explicit.result) then
      Picked(explicit.manifests, requested, Names(implicit.manifests))
    else
      []
  }

  /** Whether some request counts as not found; a failed discovery counts nothing. */
  predicate MissingLayer(implicit: Discovery, explicit: Discovery, requested: seq<string>) {
    && Succeeded(implicit.result) && Succeeded(explicit.result)
    && !AllMatched(implicit.manifests, explicit.manifests, requested)
  }

  /** The result of LoadApiLayers when no attempt aborts it. */
  function FinalResult(missing: bool, outcomes: seq<Outcome>): XrResult {
    if missing then XR_ERROR_API_LAYER_NOT_PRESENT else Folded(outcomes).error
  }

  /** The index of the first attempt that aborts, or the number of attempts. */
  function FirstAbort(outcomes: seq<Outcome>): (a: nat)
    ensures a <= |outcomes| && (forall i | 0 <= i < a :: !outcomes[i].Aborted?)
    ensures a < |outcomes| ==> outcomes[a].Aborted?
  {
    if outcomes == [] then 0 else if outcomes[0].Aborted? then 0 else 1 + FirstAbort(outcomes[1..])
  }

  /** What LoadApiLayers returns: a result, and the layers still loaded. */
  datatype Loading = Loading(result: XrResult, loaded: seq<LayerInfo>)

  function LoadingOf(enabled: seq<Manifest>, outcomes: seq<Outcome>, missing: bool): Loading
    requires |enabled| == |outcomes|
  {
    var a := FirstAbort(outcomes);
    if a < |outcomes| then Loading(outcomes[a].result, LoadedInfos(enabled[..a], outcomes[..a]))
    else
      var result := FinalResult(missing, outcomes);
      Loading(result, if Failed(result) then [] else LoadedInfos(enabled, outcomes))
  }

  /** The loading loop of LoadApiLayers. */
  method LoadEnabled(platform: Platform, enabled: seq<Manifest>, init: InitState, behaviours: nat -> Behaviour)
    returns (aborted: bool, error: XrResult, layers: seq<ApiLayer>)
    requires platform.Valid()
    modifies platform
    ensures platform.Valid() && DistinctLibraries(layers) && Libraries(layers) !! old(platform.open)
    ensures platform.open == old(platform.open) + Libraries(layers)
    ensures var outcomes := Outcomes(behaviours, init, |enabled|);
      var a := FirstAbort(outcomes);
      && (aborted <==> a < |outcomes|)
      && error == (if aborted then outcomes[a].result else Folded(outcomes).error)
      && LayerInfos(layers) == LoadedInfos(enabled[..a], outcomes[..a])
  {
    layers, error := [], XR_SUCCESS;
    var anyLoaded := false;
    ghost var outcomes := Outcomes(behaviours, init, |enabled|);
    assert Loads(old(platform.open), platform.open, layers, enabled, outcomes, 0, error, anyLoaded);
    hide Loads, LoadedInfos, LayerInfos, Folded, Libraries, Outcomes, FirstAbort, OutcomeOf;
    for i := 0 to |enabled|
      invariant platform.Valid() && forall j | 0 <= j < i :: !outcomes[j].Aborted?
      invariant Loads(old(platform.open), platform.open, layers, enabled, outcomes, i, error, anyLoaded)
    {
      var outcome, layer := LoadLayer(platform, enabled[i], behaviours(i), init);
      assert outcome == outcomes[i];
      LoadsNext(old(platform.open), platform.open, layers, enabled, outcomes, i, error, anyLoaded, layer);
      match outcome {
        case Aborted(res) =>
          assert FirstAbort(outcomes) == i;
          LoadsMeans(old(platform.open), platform.open, layers, enabled, outcomes, i, error, anyLoaded);
          return true, res, layers;
        case Skipped(e) =>
          if !anyLoaded {
            error := e;
          }
        case NotNegotiable =>
          error := XR_ERROR_API_LAYER_NOT_PRESENT;
        case Loaded =>
          layers := layers + [layer.value];
          anyLoaded := true;
          error := XR_SUCCESS;
      }
    }
    assert outcomes[..|enabled|] == outcomes && enabled[..|enabled|] == enabled;
    assert FirstAbort(outcomes) == |outcomes|;
    LoadsMeans(old(platform.open), platform.open, layers, enabled, outcomes, |enabled|, error, anyLoaded);
    aborted := false;
  }

  /** What LoadApiLayers comes to, from the manifests, the names and what the libraries do. */
  function LoadingResult(implicit: Discovery, explicit: Discovery, environment: string, appNames: Option<seq<string>>,
      init: InitState, behaviours: nat -> Behaviour): Loading
  {
    if appNames.None? && Succeeded(implicit.result) && Succeeded(explicit.result) then
      Loading(XR_ERROR_VALIDATION_FAILURE, [])
    else
      var requested := RequestedNames(environment, appNames);
      var enabled := EnabledManifests(implicit, explicit, requested);
      LoadingOf(enabled, Outcomes(behaviours, init, |enabled|), MissingLayer(implicit, explicit, requested))
  }

  /** LoadApiLayers. `appNames` is None for a positive count with a null array; `behaviours` is what the
      library of the i-th enabled manifest does. */
  method LoadApiLayers(platform: Platform, implicit: Discovery, explicit: Discovery, environment: string,
      appNames: Option<seq<string>>, init: InitState, behaviours: nat -> Behaviour)
    returns (result: XrResult, layers: seq<ApiLayer>)
    requires platform.Valid()
    modifies platform
    ensures platform.Valid() && DistinctLibraries(layers) && Libraries(layers) !! old(platform.open)
    ensures platform.open == old(platform.open) + Libraries(layers)
    ensures Loading(result, LayerInfos(layers)) ==
            LoadingResult(implicit, explicit, environment, appNames, init, behaviours)
  {
    hide SearchPaths.Split, SearchPaths.DropLastEmpty, Picked, OutcomeOf, Outcomes, FirstAbort, LoadedInfos, Folded;
    layers := [];
    var enabled := implicit.manifests;
    var foundAll := true;
    if Succeeded(implicit.result) && Succeeded(explicit.result) {
      var names := SearchPaths.AddEnvironmentApiLayers(environment, []);
      if appNames.None? {
        return XR_ERROR_VALIDATION_FAILURE, [];
      }
      names := names + appNames.value;
      assert names == RequestedNames(environment, appNames);
      ghost var unused;
      enabled, foundAll, unused := SelectLayers(implicit.manifests, explicit.manifests, names);
    } else {
      assert implicit.manifests + [] == implicit.manifests;
    }
    assert foundAll <==> !MissingLayer(implicit, explicit, RequestedNames(environment, appNames));
    var aborted, lastError;
    aborted, lastError, layers := LoadEnabled(platform, enabled, init, behaviours);
    if aborted {
      return lastError, layers;
    }
    ghost var outcomes := Outcomes(behaviours, init, |enabled|);
    assert enabled[..|enabled|] == enabled && outcomes[..|enabled|] == outcomes;
    if !foundAll {
      lastError := XR_ERROR_API_LAYER_NOT_PRESENT;
    }
    if Failed(lastError) {
      DestroyLayers(platform, layers);
      layers := [];
      NoLayers();
    }
    result := lastError;
  }

  /** The environment's names and then the application's. */
  function RequestedNames(environment: string, appNames: Option<seq<string>>): seq<string> {
    SearchPaths.DropLastEmpty(SearchPaths.Split(environment)) + if appNames.Some? then appNames.value else []
  }

  lemma NoLayers()
    ensures LayerInfos([]) == [] && Libraries([]) == {}
  {}

  /** Where the loading loop stands after `i` attempts. */
  ghost predicate Loads(before: set<Library>, open: set<Library>, layers: seq<ApiLayer>, enabled: seq<Manifest>,
      outcomes: seq<Outcome>, i: nat, lastError: XrResult, anyLoaded: bool)
    requires i <= |enabled| == |outcomes|
  {
    && DistinctLibraries(layers) && Libraries(layers) !! before && open == before + Libraries(layers)
    && LayerInfos(layers) == LoadedInfos(enabled[..i], outcomes[..i])
    && Folded(outcomes[..i]) == Fold(lastError, anyLoaded)
  }

  lemma LoadsMeans(before: set<Library>, open: set<Library>, layers: seq<ApiLayer>, enabled: seq<Manifest>,
      outcomes: seq<Outcome>, i: nat, lastError: XrResult, anyLoaded: bool)
    requires i <= |enabled| == |outcomes| && Loads(before, open, layers, enabled, outcomes, i, lastError, anyLoaded)
    ensures DistinctLibraries(layers) && Libraries(layers) !! before && open == before + Libraries(layers)
    ensures LayerInfos(layers) == LoadedInfos(enabled[..i], outcomes[..i])
    ensures Folded(outcomes[..i]) == Fold(lastError, anyLoaded)
  {}

  lemma LoadsNext(before: set<Library>, open: set<Library>, layers: seq<ApiLayer>, enabled: seq<Manifest>,
      outcomes: seq<Outcome>, i: nat, lastError: XrResult, anyLoaded: bool, layer: Option<ApiLayer>)
    requires i < |enabled| == |outcomes| && layer.Some? == outcomes[i].Loaded?
    requires layer.Some? ==>
      layer.value.info == InfoOf(enabled[i]) && layer.value.library in open && layer.value.library !in before
    requires var was := if layer.Some? then open - {layer.value.library} else open;
      Loads(before, was, layers, enabled, outcomes, i, lastError, anyLoaded)
    ensures match outcomes[i]
      case Loaded => Loads(before, open, layers + [layer.value], enabled, outcomes, i + 1, XR_SUCCESS, true)
      case Skipped(e) =>
        Loads(before, open, layers, enabled, outcomes, i + 1, if anyLoaded then lastError else e, anyLoaded)
      case NotNegotiable =>
        Loads(before, open, layers, enabled, outcomes, i + 1, XR_ERROR_API_LAYER_NOT_PRESENT, anyLoaded)
      case Aborted(_) => Loads(before, open, layers, enabled, outcomes, i, lastError, anyLoaded)
  {
    assert outcomes[..i + 1][..i] == outcomes[..i] && enabled[..i + 1][..i] == enabled[..i];
    if layer.Some? {
      LibrariesAppended(layers, layer.value);
      assert LayerInfos(layers + [layer.value]) == LayerInfos(layers) + [layer.value.info];
    }
  }

  lemma LibrariesAppended(layers: seq<ApiLayer>, layer: ApiLayer)
    ensures Libraries(layers + [layer]) == Libraries(layers) + {layer.library}
    ensures DistinctLibraries(layers) && layer.library !in Libraries(layers) ==> DistinctLibraries(layers + [layer])
  {
    var all := layers + [layer];
    assert all[|layers|] == layer;
    assert forall i | 0 <= i < |layers| :: all[i] == layers[i] && layers[i].library in Libraries(layers);
    forall l | l in Libraries(layers) ensures l in Libraries(all) {
      var x :| x in layers && x.library == l;
      assert x in all;
    }
  }

  // ---------- What success means ----------

  lemma {:induction false} FoldedSuccess(outcomes: seq<Outcome>)
    requires forall o | o in outcomes :: !o.Aborted? && (o.Skipped? ==> Failed(o.error))
    ensures var f := Folded(outcomes);
      && (f.anyLoaded <==> exists i | 0 <= i < |outcomes| :: outcomes[i].Loaded?)
      && f.error <= 0
      && (f.error == XR_SUCCESS <==> outcomes == [] || LoadsLast(outcomes))
  {
    if outcomes != [] {
      var n := |outcomes| - 1;
      var front, last := outcomes[..n], outcomes[n];
      assert outcomes == front + [last] && last in outcomes;
      FoldedSuccess(front);
      match last
      case Loaded => assert outcomes[n].Loaded?; assert LoadsLast(outcomes);
      case NotNegotiable =>
        if i :| 0 <= i < |outcomes| && outcomes[i].Loaded? { assert front[i].Loaded?; }
      case Skipped(e) =>
        if LoadsLast(outcomes) {
          var i :| 0 <= i < |outcomes| && outcomes[i].Loaded?
            && forall j | i < j < |outcomes| :: !outcomes[j].NotNegotiable?;
          assert front[i].Loaded? && forall j | i < j < |front| :: front[j] == outcomes[j];
        }
        if LoadsLast(front) {
          var i :| 0 <= i < |front| && front[i].Loaded? && forall j | i < j < |front| :: !front[j].NotNegotiable?;
          assert outcomes[i].Loaded? && forall j | i < j < |front| :: front[j] == outcomes[j];
        }
        if i :| 0 <= i < |outcomes| && outcomes[i].Loaded? { assert front[i].Loaded?; }
        if i :| 0 <= i < |front| && front[i].Loaded? { assert outcomes[i].Loaded?; }
    }
  }

  /** Some layer loads, and none after it lacks its entry point. */
  predicate LoadsLast(outcomes: seq<Outcome>) {
    exists i | 0 <= i < |outcomes| ::
      outcomes[i].Loaded? && forall j | i < j < |outcomes| :: !outcomes[j].NotNegotiable?
  }

  /** The error a run of attempts leaves behind: after the last load only a missing negotiation function counts, and
      where nothing loads the last error does. */
  lemma {:induction false} FoldedErrorIs(outcomes: seq<Outcome>, last: int)
    requires forall o | o in outcomes :: !o.Aborted?
    requires -1 <= last < |outcomes| && forall j | last < j < |outcomes| :: !outcomes[j].Loaded?
    requires last >= 0 ==> outcomes[last].Loaded?
    ensures outcomes == [] ==> Folded(outcomes).error == 0
    ensures last >= 0 ==>
      Folded(outcomes).error == if exists j | last < j < |outcomes| :: outcomes[j].NotNegotiable? then -36 else 0
    ensures last < 0 && outcomes != [] ==>
      var o := outcomes[|outcomes| - 1];
      Folded(outcomes).error == if o.Skipped? then o.error else -36
    ensures Folded(outcomes).anyLoaded <==> last >= 0
  {
    if outcomes != [] {
      var n := |outcomes| - 1;
      assert outcomes[n] in outcomes;
      if last < n {
        var front := outcomes[..n];
        assert forall j | 0 <= j < n :: front[j] == outcomes[j];
        FoldedErrorIs(front, last);
        if j :| last < j < |front| && front[j].NotNegotiable? {
          assert outcomes[j].NotNegotiable?;
        }
      }
    }
  }

  /** What a load comes to: the layers before the first attempt that aborts it are left to the caller, a missing name
      and any other error leave none, and otherwise all that loaded stay. */
  lemma LoadingCases(enabled: seq<Manifest>, outcomes: seq<Outcome>, missing: bool, a: nat)
    requires |enabled| == |outcomes| && a <= |outcomes|
    requires (forall k | 0 <= k < a :: !outcomes[k].Aborted?) && (a < |outcomes| ==> outcomes[a].Aborted?)
    ensures LoadingOf(enabled, outcomes, missing) ==
      if a < |outcomes| then Loading(outcomes[a].result, LoadedInfos(enabled[..a], outcomes[..a]))
      else if missing then Loading(-36, [])
      else if Folded(outcomes).error < 0 then Loading(Folded(outcomes).error, [])
      else Loading(Folded(outcomes).error, LoadedInfos(enabled, outcomes))
  {
    hide Folded, LoadedInfos;
    assert FirstAbort(outcomes) == a;
  }

  lemma OutcomesFail(behaviours: nat -> Behaviour, init: InitState, n: nat)
    ensures forall o | o in Outcomes(behaviours, init, n) :: o.Skipped? ==> Failed(o.error)
    ensures forall o | o in Outcomes(behaviours, init, n) :: o.Aborted? ==> Failed(o.result)
  {
  }

  /** Exactly when LoadApiLayers succeeds. */
  lemma SucceedsIff(implicit: Discovery, explicit: Discovery, environment: string, appNames: Option<seq<string>>,
      init: InitState, behaviours: nat -> Behaviour)
    ensures var requested := RequestedNames(environment, appNames);
      var outcomes := Outcomes(behaviours, init, |EnabledManifests(implicit, explicit, requested)|);
      Succeeded(LoadingResult(implicit, explicit, environment, appNames, init, behaviours).result) <==>
        && (appNames.Some? || Failed(implicit.result) || Failed(explicit.result))
        && !MissingLayer(implicit, explicit, requested)
        && (forall o | o in outcomes :: !o.Aborted?)
        && (outcomes == [] || LoadsLast(outcomes))
  {
    hide OutcomeOf, RequestedNames, EnabledManifests, MissingLayer;
    var n := |EnabledManifests(implicit, explicit, RequestedNames(environment, appNames))|;
    var outcomes := Outcomes(behaviours, init, n);
    OutcomesFail(behaviours, init, n);
    var a := FirstAbort(outcomes);
    if a < |outcomes| {
      assert outcomes[a] in outcomes;
    } else {
      FoldedSuccess(outcomes);
    }
  }

  /** Two implicit layers, the first of which loads while the second has no negotiation function: nothing is loaded. */
  lemma MissingNegotiationFails(first: Manifest, second: Manifest)
    ensures var loads := Behaviour(true, None, Some(Negotiation(XR_SUCCESS, true, XR_ERROR_RUNTIME_FAILURE, None)));
      var behaviours := (i: nat) => if i == 0 then loads else Behaviour(true, None, None);
      LoadingResult(Discovery(XR_SUCCESS, [first, second]), Discovery(XR_SUCCESS, []), "", Some([]),
        InitState(false, false, false), behaviours) == Loading(XR_ERROR_API_LAYER_NOT_PRESENT, [])
  {
    var loads := Behaviour(true, None, Some(Negotiation(XR_SUCCESS, true, XR_ERROR_RUNTIME_FAILURE, None)));
    var behaviours := (i: nat) => if i == 0 then loads else Behaviour(true, None, None);
    var implicit, explicit := Discovery(XR_SUCCESS, [first, second]), Discovery(XR_SUCCESS, []);
    assert RequestedNames("", Some([])) == [];
    assert EnabledManifests(implicit, explicit, []) == [first, second];
    var outcomes := Outcomes(behaviours, InitState(false, false, false), 2);
    assert outcomes == [Loaded, NotNegotiable];
    assert outcomes[..1] == [Loaded] && outcomes[..1][..0] == [];
    assert Folded(outcomes).error == XR_ERROR_API_LAYER_NOT_PRESENT;
  }

  /** A normal error leaves no layer; only an aborted loop leaves those loaded before it to the caller. */
  lemma FailureLeavesNone(enabled: seq<Manifest>, missing: bool, outcomes: seq<Outcome>)
    requires |enabled| == |outcomes|
    ensures var l := LoadingOf(enabled, outcomes, missing);
      Failed(l.result) && l.loaded != [] ==> exists o | o in outcomes :: o.Aborted?
  {
    var a := FirstAbort(outcomes);
    if a < |outcomes| { assert outcomes[a] in outcomes; }
  }

  /** The environment's names come before the application's, and what both pick follows the implicit layers. */
  lemma EnvironmentThenApplication(implicit: Discovery, explicit: Discovery, environment: string, env: seq<string>,
      app: seq<string>, init: InitState, behaviours: nat -> Behaviour)
    requires SearchPaths.Lists(environment, env) && implicit.result >= 0 && explicit.result >= 0
    ensures var enabled := implicit.manifests + Picked(explicit.manifests, env + app, Names(implicit.manifests));
      LoadingResult(implicit, explicit, environment, Some(app), init, behaviours) ==
      LoadingOf(enabled, Outcomes(behaviours, init, |enabled|),
                exists name | name in env + app ::
                  (forall m | m in implicit.manifests + explicit.manifests :: m.layerName != name))
  {
    hide SearchPaths.Split, SearchPaths.DropLastEmpty, SearchPaths.Lists, Picked, OutcomeOf, LoadingOf, Names;
    SearchPaths.ListedNames(environment, env);
    assert RequestedNames(environment, Some(app)) == env + app;
    forall name
      ensures Matched(implicit.manifests, explicit.manifests, name) <==>
              exists m | m in implicit.manifests + explicit.manifests :: m.layerName == name
    {
      NameMatched(implicit.manifests, explicit.manifests, name);
    }
  }

  lemma NameMatched(implicit: seq<Manifest>, explicit: seq<Manifest>, name: string)
    ensures Matched(implicit, explicit, name) <==> exists m | m in implicit + explicit :: m.layerName == name
  {
    if m :| m in implicit && m.layerName == name {
      assert m in implicit + explicit;
    }
    if m :| m in explicit && m.layerName == name {
      assert m in implicit + explicit;
    }
  }

  /** A null array of names is refused, and where a discovery failed only the implicit layers are tried. */
  lemma WithoutSelection(implicit: Discovery, explicit: Discovery, environment: string, appNames: Option<seq<string>>,
      init: InitState, behaviours: nat -> Behaviour)
    ensures implicit.result >= 0 && explicit.result >= 0 && appNames.None? ==>
      LoadingResult(implicit, explicit, environment, appNames, init, behaviours) == Loading(-1, [])
    ensures implicit.result < 0 || explicit.result < 0 ==>
      LoadingResult(implicit, explicit, environment, appNames, init, behaviours) ==
      LoadingOf(implicit.manifests, Outcomes(behaviours, init, |implicit.manifests|), false)
  {
    hide LoadingOf, Outcomes, RequestedNames, Picked;
    assert implicit.manifests + [] == implicit.manifests;
  }

  /** On success every requested name is matched, provided both discoveries succeeded. */
  lemma SuccessMatchesAll(implicit: Discovery, explicit: Discovery, environment: string, env: seq<string>,
      app: seq<string>, init: InitState, behaviours: nat -> Behaviour, name: string)
    requires SearchPaths.Lists(environment, env) && implicit.result >= 0 && explicit.result >= 0
    requires LoadingResult(implicit, explicit, environment, Some(app), init, behaviours).result >= 0
    requires name in env || name in app
    ensures exists m | m in implicit.manifests + explicit.manifests :: m.layerName == name
  {
    hide SearchPaths.Split, SearchPaths.Lists, OutcomeOf, LoadingResult, Matched;
    SucceedsIff(implicit, explicit, environment, Some(app), init, behaviours);
    SearchPaths.ListedNames(environment, env);
    assert name in RequestedNames(environment, Some(app));
    NameMatched(implicit.manifests, explicit.manifests, name);
  }

  /** A failed discovery would hide every missing name: with no implicit layer, any request succeeds. */
  lemma FailedDiscoverySucceeds(explicit: Discovery, environment: string, appNames: Option<seq<string>>,
      init: InitState, behaviours: nat -> Behaviour)
    requires Failed(explicit.result)
    ensures LoadingResult(Discovery(XR_SUCCESS, []), explicit, environment, appNames, init, behaviours) ==
            Loading(XR_SUCCESS, [])
  {
  }

  function LoadedIndices(outcomes: seq<Outcome>): seq<nat> {
    if outcomes == [] then []
    else LoadedIndices(outcomes[..|outcomes| - 1]) + if outcomes[|outcomes| - 1].Loaded? then [|outcomes| - 1] else []
  }

  /** The infos are those of the manifests at the positions `at`: all that loaded, in order. */
  ghost predicate AreLoaded(infos: seq<LayerInfo>, at: seq<nat>, enabled: seq<Manifest>, outcomes: seq<Outcome>)
    requires |enabled| == |outcomes|
  {
    && |at| == |infos|
    && (forall i | 0 <= i < |at| ::
          at[i] < |enabled| && outcomes[at[i]].Loaded? && infos[i] == InfoOf(enabled[at[i]]))
    && (forall i, j | 0 <= i < j < |at| :: at[i] < at[j])
    && (forall k | 0 <= k < |outcomes| && outcomes[k].Loaded? :: k in at)
  }

  lemma AreLoadedNext(infos: seq<LayerInfo>, at: seq<nat>, enabled: seq<Manifest>, outcomes: seq<Outcome>)
    requires |enabled| == |outcomes| > 0
    requires var n := |enabled| - 1; AreLoaded(infos, at, enabled[..n], outcomes[..n])
    ensures var n := |enabled| - 1;
      if outcomes[n].Loaded? then AreLoaded(infos + [InfoOf(enabled[n])], at + [n], enabled, outcomes)
      else AreLoaded(infos, at, enabled, outcomes)
  {
    hide InfoOf;
    var n := |enabled| - 1;
    assert forall k | 0 <= k < n :: outcomes[..n][k] == outcomes[k] && enabled[..n][k] == enabled[k];
    if outcomes[n].Loaded? {
      assert forall k :: k in at + [n] <==> k in at || k == n;
    }
  }

  /** The loaded layers are a subsequence of the enabled ones: exactly those whose attempt succeeded. */
  lemma {:induction false} LoadedInOrder(enabled: seq<Manifest>, outcomes: seq<Outcome>)
    requires |enabled| == |outcomes|
    ensures AreLoaded(LoadedInfos(enabled, outcomes), LoadedIndices(outcomes), enabled, outcomes)
  {
    if enabled != [] {
      hide AreLoaded;
      var n := |enabled| - 1;
      LoadedInOrder(enabled[..n], outcomes[..n]);
      var infos, at := LoadedInfos(enabled[..n], outcomes[..n]), LoadedIndices(outcomes[..n]);
      AreLoadedNext(infos, at, enabled, outcomes);
      assert infos + [] == infos && at + [] == at;
    }
  }
}
