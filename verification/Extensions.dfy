/** The extension list of xrEnumerateInstanceExtensionProperties: layers, runtime and loader merged. */
module Extensions {

  const XR_MAX_EXTENSION_NAME_SIZE: nat := 128

  /** A manifest's extension: the name is of any length. */
  datatype ExtensionListing = ExtensionListing(name: string, extensionVersion: nat)

  /** XrExtensionProperties: the name fits its array of characters. */
  datatype Properties = Properties(name: string, extensionVersion: nat)

  function Truncated(name: string): (r: string)
    ensures r == name <==> Fits(name)
    ensures Fits(r)
  {
    if Fits(name) then name else name[..XR_MAX_EXTENSION_NAME_SIZE - 1]
  }

  predicate Fits(name: string) { |name| < XR_MAX_EXTENSION_NAME_SIZE }

  predicate AllFit(props: seq<Properties>) { forall p | p in props :: Fits(p.name) }

  function Max(a: int, b: int): int { if a < b then b else a }

  /** The first entry of that name, or -1. */
  function IndexOf(props: seq<Properties>, name: string): (i: int)
    ensures i == -1 <==> forall k | 0 <= k < |props| :: props[k].name != name
    ensures i != -1 ==> 0 <= i < |props| && props[i].name == name && forall k | 0 <= k < i :: props[k].name != name
  {
    if props == [] then -1
    else if props[0].name == name then 0
    else
      var i := IndexOf(props[1..], name);
      assert forall k | 1 <= k < |props| :: props[k] == props[1..][k - 1];
      if i == -1 then -1 else i + 1
  }

  /** The version a list gives a name, or -1. */
  function VersionIn(props: seq<Properties>, name: string): int {
    var i := IndexOf(props, name);
    if i == -1 then -1 else props[i].extensionVersion
  }

  predicate Distinct(props: seq<Properties>) {
    forall i, j | 0 <= i < j < |props| :: props[i].name != props[j].name
  }

  lemma VersionAppended(props: seq<Properties>, p: Properties, name: string)
    ensures VersionIn(props + [p], name) ==
      if IndexOf(props, name) != -1 then VersionIn(props, name) else if p.name == name then p.extensionVersion else -1
    ensures IndexOf(props + [p], name) ==
      if IndexOf(props, name) != -1 then IndexOf(props, name) else if p.name == name then |props| else -1
  {
    var all := props + [p];
    assert forall k | 0 <= k < |props| :: all[k] == props[k];
    assert all[|props|] == p;
  }

  lemma VersionUpdated(props: seq<Properties>, i: nat, version: nat, name: string)
    requires i < |props| && i == IndexOf(props, props[i].name)
    ensures var updated := props[i := props[i].(extensionVersion := version)];
      && IndexOf(updated, name) == IndexOf(props, name)
      && VersionIn(updated, name) == (if props[i].name == name then version else VersionIn(props, name))
      && (Distinct(updated) <==> Distinct(props))
  {
    var updated := props[i := props[i].(extensionVersion := version)];
    assert forall k | 0 <= k < |props| :: updated[k].name == props[k].name;
    assert IndexOf(updated, name) == IndexOf(props, name);
    if Distinct(props) {
      forall a, b | 0 <= a < b < |updated|
        ensures updated[a].name != updated[b].name
      {
        assert props[a].name != props[b].name;
      }
    }
    if Distinct(updated) {
      forall a, b | 0 <= a < b < |props|
        ensures props[a].name != props[b].name
      {
        assert updated[a].name != updated[b].name;
      }
    }
  }

  lemma DistinctAppended(props: seq<Properties>, p: Properties)
    ensures Distinct(props + [p]) <==> Distinct(props) && IndexOf(props, p.name) == -1
  {
    var all := props + [p];
    assert forall k | 0 <= k < |props| :: all[k] == props[k];
    assert all[|props|] == p;
    if Distinct(all) {
      forall k | 0 <= k < |props| ensures props[k].name != p.name { assert all[k].name != all[|props|].name; }
      forall a, b | 0 <= a < b < |props| ensures props[a].name != props[b].name { assert all[a].name != all[b].name; }
    }
  }

  // ---------- Layers ----------

  function MergeListing(props: seq<Properties>, ext: ExtensionListing): seq<Properties> {
    var it := IndexOf(props, ext.name);
    if it != -1 then
      props[it := props[it].(extensionVersion := Max(props[it].extensionVersion, ext.extensionVersion))]
    else
      props + [Properties(Truncated(ext.name), ext.extensionVersion)]
  }

  function MergeListings(props: seq<Properties>, extensions: seq<ExtensionListing>): seq<Properties>
    decreases |extensions|
  {
    if extensions == [] then props
    else MergeListing(MergeListings(props, extensions[..|extensions| - 1]), extensions[|extensions| - 1])
  }

  /** GetExtensionProperties of manifest_file.cpp. */
  method GetExtensionProperties(extensions: seq<ExtensionListing>, props: seq<Properties>) returns (r: seq<Properties>)
    ensures r == MergeListings(props, extensions)
  {
    r := props;
    for e := 0 to |extensions|
      invariant r == MergeListings(props, extensions[..e])
    {
      var ext := extensions[e];
      assert extensions[..e + 1][..e] == extensions[..e];
      var it := 0;
      while it < |r| && r[it].name != ext.name
        invariant 0 <= it <= |r| && forall k | 0 <= k < it :: r[k].name != ext.name
      {
        it := it + 1;
      }
      if it < |r| {
        r := r[it := r[it].(extensionVersion := Max(r[it].extensionVersion, ext.extensionVersion))];
      } else {
        r := r + [Properties(Truncated(ext.name), ext.extensionVersion)];
      }
    }
    assert extensions[..|extensions|] == extensions;
  }

  /** The greatest version listed for a name, or -1. */
  function MaxVersion(extensions: seq<ExtensionListing>, name: string): int {
    if extensions == [] then -1
    else
      var ext := extensions[|extensions| - 1];
      Max(MaxVersion(extensions[..|extensions| - 1], name), if ext.name == name then ext.extensionVersion else -1)
  }

  lemma {:induction false} MaxVersionIsMax(extensions: seq<ExtensionListing>, name: string)
    ensures forall ext | ext in extensions && ext.name == name :: ext.extensionVersion <= MaxVersion(extensions, name)
    ensures MaxVersion(extensions, name) == -1 || ExtensionListing(name, MaxVersion(extensions, name)) in extensions
    ensures MaxVersion(extensions, name) >= -1
  {
    if extensions != [] {
      var front, last := extensions[..|extensions| - 1], extensions[|extensions| - 1];
      MaxVersionIsMax(front, name);
      assert extensions == front + [last];
    }
  }

  /** The order in which layers list their extensions, and repetitions, do not matter. */
  lemma OrderIndependent(a: seq<ExtensionListing>, b: seq<ExtensionListing>, name: string)
    requires forall ext :: ext in a <==> ext in b
    ensures MaxVersion(a, name) == MaxVersion(b, name)
  {
    MaxVersionIsMax(a, name);
    MaxVersionIsMax(b, name);
  }

  predicate ListingsFit(extensions: seq<ExtensionListing>) { forall ext | ext in extensions :: Fits(ext.name) }

  /** Where the names fit, merging joins the two lists: every name once, at its greatest version. */
  lemma {:induction false} ListingsMerge(props: seq<Properties>, extensions: seq<ExtensionListing>, name: string)
    requires Distinct(props) && ListingsFit(extensions)
    ensures var r := MergeListings(props, extensions);
      Distinct(r) && VersionIn(r, name) == Max(VersionIn(props, name), MaxVersion(extensions, name))
    decreases |extensions|
  {
    hide IndexOf, Distinct;
    if extensions != [] {
      var front, ext := extensions[..|extensions| - 1], extensions[|extensions| - 1];
      var before := MergeListings(props, front);
      assert ext in extensions && forall e | e in front :: e in extensions;
      ListingsMerge(props, front, name);
      var it := IndexOf(before, ext.name);
      if it != -1 {
        VersionUpdated(before, it, Max(before[it].extensionVersion, ext.extensionVersion), name);
      } else {
        VersionAppended(before, Properties(ext.name, ext.extensionVersion), name);
        DistinctAppended(before, Properties(ext.name, ext.extensionVersion));
      }
    }
  }

  /** Some listing's name, cut to fit. */
  predicate Listed(extensions: seq<ExtensionListing>, name: string) {
    && extensions != []
    && (Truncated(extensions[|extensions| - 1].name) == name || Listed(extensions[..|extensions| - 1], name))
  }

  lemma {:induction false} ListedMembers(extensions: seq<ExtensionListing>, name: string)
    ensures Listed(extensions, name) <==> exists ext | ext in extensions :: Truncated(ext.name) == name
  {
    hide Truncated;
    if extensions != [] {
      var front, last := extensions[..|extensions| - 1], extensions[|extensions| - 1];
      ListedMembers(front, name);
      assert extensions == front + [last];
    }
  }

  lemma {:induction false} MergedNames(props: seq<Properties>, extensions: seq<ExtensionListing>, name: string)
    requires AllFit(props)
    ensures var r := MergeListings(props, extensions);
      AllFit(r) && (IndexOf(r, name) != -1 <==> IndexOf(props, name) != -1 || Listed(extensions, name))
    decreases |extensions|
  {
    hide IndexOf, VersionIn, Distinct, Truncated;
    if extensions != [] {
      var front, ext := extensions[..|extensions| - 1], extensions[|extensions| - 1];
      var before := MergeListings(props, front);
      MergedNames(props, front, name);
      var it := IndexOf(before, ext.name);
      if it != -1 {
        VersionUpdated(before, it, Max(before[it].extensionVersion, ext.extensionVersion), name);
        assert Fits(before[it].name);
      } else {
        VersionAppended(before, Properties(Truncated(ext.name), ext.extensionVersion), name);
      }
    }
  }

  /** A name too long for its array never matches its own truncation. */
  predicate Collides(props: seq<Properties>, extensions: seq<ExtensionListing>, k: int)
    requires 0 <= k < |extensions|
  {
    && !Fits(extensions[k].name)
    && var short := Truncated(extensions[k].name); IndexOf(props, short) != -1 || Listed(extensions[..k], short)
  }

  /** Exactly when merging manifests keeps the names distinct, for names of any length. */
  lemma {:induction false} DistinctIffNoCollision(props: seq<Properties>, extensions: seq<ExtensionListing>)
    requires Distinct(props) && AllFit(props)
    ensures Distinct(MergeListings(props, extensions)) <==>
            forall k | 0 <= k < |extensions| :: !Collides(props, extensions, k)
    decreases |extensions|
  {
    hide IndexOf, VersionIn, Distinct, Truncated, Listed;
    if extensions != [] {
      var n := |extensions| - 1;
      var front, ext := extensions[..n], extensions[n];
      var before := MergeListings(props, front);
      DistinctIffNoCollision(props, front);
      forall k | 0 <= k < n ensures Collides(props, extensions, k) <==> Collides(props, front, k) {
        assert front[..k] == extensions[..k];
      }
      assert (forall k | 0 <= k < |extensions| :: !Collides(props, extensions, k)) <==>
             (forall k | 0 <= k < n :: !Collides(props, front, k)) && !Collides(props, extensions, n);
      MergedNames(props, front, ext.name);
      MergedNames(props, front, Truncated(ext.name));
      var it := IndexOf(before, ext.name);
      if it != -1 {
        VersionUpdated(before, it, Max(before[it].extensionVersion, ext.extensionVersion), ext.name);
        assert Fits(before[it].name);
      } else {
        DistinctAppended(before, Properties(Truncated(ext.name), ext.extensionVersion));
      }
    } else {
      assert MergeListings(props, extensions) == props;
    }
  }

  // ---------- The runtime ----------

  /** Only the first `known` entries are compared with. */
  function Override(props: seq<Properties>, known: nat, p: Properties): (r: seq<Properties>)
    requires known <= |props|
    ensures |r| >= |props|
  {
    var i := IndexOf(props[..known], p.name);
    if i != -1 then props[i := props[i].(extensionVersion := p.extensionVersion)] else props + [p]
  }

  function Overridden(props: seq<Properties>, runtime: seq<Properties>): (r: seq<Properties>)
    ensures |r| >= |props|
    decreases |runtime|
  {
    if runtime == [] then props
    else Override(Overridden(props, runtime[..|runtime| - 1]), |props|, runtime[|runtime| - 1])
  }

  /** The merge of RuntimeInterface::GetInstanceExtensionProperties. */
  method OverrideWithRuntime(props: seq<Properties>, runtime: seq<Properties>) returns (r: seq<Properties>)
    ensures r == Overridden(props, runtime)
  {
    r := props;
    var propsCount := |props|;
    for ext := 0 to |runtime|
      invariant r == Overridden(props, runtime[..ext])
    {
      assert runtime[..ext + 1][..ext] == runtime[..ext];
      var found := false;
      var prop := 0;
      while prop < propsCount
        invariant 0 <= prop <= propsCount && !found
        invariant forall k | 0 <= k < prop :: r[k].name != runtime[ext].name
      {
        if r[prop].name == runtime[ext].name {
          assert IndexOf(r[..propsCount], runtime[ext].name) == prop;
          r := r[prop := r[prop].(extensionVersion := runtime[ext].extensionVersion)];
          found := true;
          break;
        }
        prop := prop + 1;
      }
      if !found {
        assert IndexOf(r[..propsCount], runtime[ext].name) == -1;
        r := r + [runtime[ext]];
      }
    }
    assert runtime[..|runtime|] == runtime;
  }

  lemma IndexInFront(props: seq<Properties>, known: nat, name: string)
    requires known <= |props|
    ensures IndexOf(props[..known], name) == if IndexOf(props, name) < known then IndexOf(props, name) else -1
  {
    assert forall k | 0 <= k < known :: props[..known][k] == props[k];
  }

  /** Where the list before appending starts. */
  lemma {:induction false} OverriddenNames(props: seq<Properties>, runtime: seq<Properties>, name: string)
    ensures var r := Overridden(props, runtime);
      && (forall k | 0 <= k < |props| :: r[k].name == props[k].name)
      && (IndexOf(r, name) != -1 <==> IndexOf(props, name) != -1 || IndexOf(runtime, name) != -1)
    decreases |runtime|
  {
    hide IndexOf, Distinct;
    if runtime != [] {
      var front, p := runtime[..|runtime| - 1], runtime[|runtime| - 1];
      assert runtime == front + [p];
      OverriddenNames(props, front, name);
      var before := Overridden(props, front);
      IndexInFront(before, |props|, p.name);
      VersionAppended(front, p, name);
      var i := IndexOf(before[..|props|], p.name);
      if i != -1 {
        VersionUpdated(before, i, p.extensionVersion, name);
      } else {
        VersionAppended(before, p, name);
      }
    }
  }

  /** The runtime's version wins, where the runtime names no extension twice. */
  lemma {:induction false} RuntimeWins(props: seq<Properties>, runtime: seq<Properties>, name: string)
    requires Distinct(props) && Distinct(runtime)
    ensures var r := Overridden(props, runtime);
      && Distinct(r)
      && VersionIn(r, name) == if IndexOf(runtime, name) != -1 then VersionIn(runtime, name) else VersionIn(props, name)
    decreases |runtime|
  {
    hide IndexOf, Distinct;
    if runtime != [] {
      var front, p := runtime[..|runtime| - 1], runtime[|runtime| - 1];
      assert runtime == front + [p];
      DistinctAppended(front, p);
      RuntimeWins(props, front, name);
      OverriddenNames(props, front, p.name);
      var before := Overridden(props, front);
      IndexInFront(before, |props|, p.name);
      VersionAppended(front, p, name);
      var i := IndexOf(before[..|props|], p.name);
      if i != -1 {
        VersionUpdated(before, i, p.extensionVersion, name);
      } else {
        NotAmongKnown(props, before, p.name);
        VersionAppended(before, p, name);
        DistinctAppended(before, p);
      }
    }
  }

  lemma NotAmongKnown(props: seq<Properties>, before: seq<Properties>, name: string)
    requires |props| <= |before| && forall k | 0 <= k < |props| :: before[k].name == props[k].name
    ensures IndexOf(before[..|props|], name) == IndexOf(props, name)
  {
  }

  /** A name the runtime repeats, and no layer lists. */
  predicate Repeated(props: seq<Properties>, runtime: seq<Properties>, k: int)
    requires 0 <= k < |runtime|
  {
    IndexOf(props, runtime[k].name) == -1 && IndexOf(runtime[..k], runtime[k].name) != -1
  }

  /** Exactly when the runtime's names stay distinct in the merged list. */
  lemma {:induction false} DistinctIffNotRepeated(props: seq<Properties>, runtime: seq<Properties>)
    requires Distinct(props)
    ensures Distinct(Overridden(props, runtime)) <==> forall k | 0 <= k < |runtime| :: !Repeated(props, runtime, k)
    decreases |runtime|
  {
    hide IndexOf, VersionIn, Distinct;
    if runtime != [] {
      var n := |runtime| - 1;
      var front, p := runtime[..n], runtime[n];
      DistinctIffNotRepeated(props, front);
      OverriddenNames(props, front, p.name);
      var before := Overridden(props, front);
      assert Overridden(props, runtime) == Override(before, |props|, p);
      hide Overridden;
      NotAmongKnown(props, before, p.name);
      forall k | 0 <= k < n ensures Repeated(props, runtime, k) <==> Repeated(props, front, k) {
        assert front[..k] == runtime[..k];
      }
      assert (forall k | 0 <= k < |runtime| :: !Repeated(props, runtime, k)) <==>
             (forall k | 0 <= k < n :: !Repeated(props, front, k)) && !Repeated(props, runtime, n);
      var i := IndexOf(before[..|props|], p.name);
      IndexInFront(before, |props|, p.name);
      if i != -1 {
        VersionUpdated(before, i, p.extensionVersion, p.name);
      } else {
        DistinctAppended(before, p);
      }
    } else {
      assert Overridden(props, runtime) == props;
    }
  }

  // ---------- The loader's own extensions ----------

  function Raise(props: seq<Properties>, p: Properties): seq<Properties> {
    var i := IndexOf(props, p.name);
    if i == -1 then props + [p]
    else if props[i].extensionVersion < p.extensionVersion then
      props[i := props[i].(extensionVersion := p.extensionVersion)]
    else props
  }

  function Raised(props: seq<Properties>, loader: seq<Properties>): seq<Properties>
    decreases |loader|
  {
    if loader == [] then props else Raise(Raised(props, loader[..|loader| - 1]), loader[|loader| - 1])
  }

  /** The loop of LoaderXrEnumerateInstanceExtensionProperties over LoaderSpecificExtensions. */
  method RaiseToLoader(props: seq<Properties>, loader: seq<Properties>) returns (r: seq<Properties>)
    ensures r == Raised(props, loader)
  {
    r := props;
    for l := 0 to |loader|
      invariant r == Raised(props, loader[..l])
    {
      assert loader[..l + 1][..l] == loader[..l];
      ghost var before := r;
      var foundProp := false;
      var e := 0;
      while e < |r|
        invariant 0 <= e <= |r| && !foundProp && r == before
        invariant forall k | 0 <= k < e :: r[k].name != loader[l].name
      {
        if r[e].name == loader[l].name {
          assert IndexOf(r, loader[l].name) == e;
          foundProp := true;
          if r[e].extensionVersion < loader[l].extensionVersion {
            r := r[e := r[e].(extensionVersion := loader[l].extensionVersion)];
          }
          break;
        }
        e := e + 1;
      }
      if !foundProp {
        r := r + [loader[l]];
      }
    }
    assert loader[..|loader|] == loader;
  }

  lemma {:induction false} LoaderRaises(props: seq<Properties>, loader: seq<Properties>, name: string)
    requires Distinct(props) && Distinct(loader)
    ensures var r := Raised(props, loader);
      Distinct(r) && VersionIn(r, name) == Max(VersionIn(props, name), VersionIn(loader, name))
    decreases |loader|
  {
    hide IndexOf, Distinct;
    if loader != [] {
      var front, p := loader[..|loader| - 1], loader[|loader| - 1];
      assert loader == front + [p];
      DistinctAppended(front, p);
      LoaderRaises(props, front, name);
      var before := Raised(props, front);
      VersionAppended(front, p, name);
      var i := IndexOf(before, p.name);
      if i != -1 {
        VersionUpdated(before, i, p.extensionVersion, name);
      } else {
        VersionAppended(before, p, name);
        DistinctAppended(before, p);
      }
    }
  }

  // ---------- The whole list ----------

  function Flatten(layers: seq<seq<ExtensionListing>>): seq<ExtensionListing> {
    if layers == [] then [] else Flatten(layers[..|layers| - 1]) + layers[|layers| - 1]
  }

  lemma MergeLast(props: seq<Properties>, front: seq<ExtensionListing>, ext: ExtensionListing)
    ensures MergeListings(props, front + [ext]) == MergeListing(MergeListings(props, front), ext)
  {
    assert (front + [ext])[..|front|] == front;
  }

  lemma {:induction false} MergeConcat(props: seq<Properties>, a: seq<ExtensionListing>, b: seq<ExtensionListing>)
    ensures MergeListings(MergeListings(props, a), b) == MergeListings(props, a + b)
    decreases |b|
  {
    if b == [] {
      assert a + b == a;
    } else {
      hide MergeListings, MergeListing;
      var front, ext := b[..|b| - 1], b[|b| - 1];
      MergeConcat(props, a, front);
      assert b == front + [ext] && a + b == (a + front) + [ext];
      MergeLast(MergeListings(props, a), front, ext);
      MergeLast(props, a + front, ext);
    }
  }

  /** The list reported without a layer name, from the manifests of the enabled layers in order. */
  method EnumerateInstanceExtensionProperties(layers: seq<seq<ExtensionListing>>, runtime: seq<Properties>,
      loader: seq<Properties>)
    returns (r: seq<Properties>)
    ensures r == Raised(Overridden(MergeListings([], Flatten(layers)), runtime), loader)
  {
    r := [];
    for l := 0 to |layers|
      invariant r == MergeListings([], Flatten(layers[..l]))
    {
      assert layers[..l + 1][..l] == layers[..l];
      MergeConcat([], Flatten(layers[..l]), layers[l]);
      r := GetExtensionProperties(layers[l], r);
    }
    assert layers[..|layers|] == layers;
    r := OverrideWithRuntime(r, runtime);
    r := RaiseToLoader(r, loader);
  }

  /** Names are distinct and the list is the union of the three sources; a version is the runtime's or
      else the greatest of the layers', and never below the loader's. */
  lemma MergedVersions(layers: seq<seq<ExtensionListing>>, runtime: seq<Properties>, loader: seq<Properties>,
      name: string)
    requires ListingsFit(Flatten(layers)) && Distinct(runtime) && Distinct(loader)
    ensures var r := Raised(Overridden(MergeListings([], Flatten(layers)), runtime), loader);
      var listed :=
        if IndexOf(runtime, name) != -1 then VersionIn(runtime, name) else MaxVersion(Flatten(layers), name);
      && Distinct(r)
      && VersionIn(r, name) == Max(listed, VersionIn(loader, name))
      && (IndexOf(r, name) != -1 <==>
          || IndexOf(runtime, name) != -1
          || IndexOf(loader, name) != -1
          || exists ext | ext in Flatten(layers) :: ext.name == name)
  {
    var extensions := Flatten(layers);
    var merged := MergeListings([], extensions);
    ListingsMerge([], extensions, name);
    MaxVersionIsMax(extensions, name);
    RuntimeWins(merged, runtime, name);
    LoaderRaises(Overridden(merged, runtime), loader, name);
  }

  /** Raising never repeats a name, and cannot make repeated names distinct. */
  lemma {:induction false} RaisedDistinctIff(props: seq<Properties>, loader: seq<Properties>)
    ensures Distinct(Raised(props, loader)) <==> Distinct(props)
    decreases |loader|
  {
    hide IndexOf, VersionIn, Distinct;
    if loader != [] {
      var front, p := loader[..|loader| - 1], loader[|loader| - 1];
      RaisedDistinctIff(props, front);
      var before := Raised(props, front);
      var i := IndexOf(before, p.name);
      if i != -1 {
        VersionUpdated(before, i, p.extensionVersion, p.name);
      } else {
        DistinctAppended(before, p);
      }
    }
  }

  lemma OverriddenDistinctIff(props: seq<Properties>, runtime: seq<Properties>)
    ensures Distinct(Overridden(props, runtime)) <==>
            Distinct(props) && forall k | 0 <= k < |runtime| :: !Repeated(props, runtime, k)
  {
    hide IndexOf, VersionIn, Overridden;
    if Distinct(props) {
      DistinctIffNotRepeated(props, runtime);
    } else {
      var i, j :| 0 <= i < j < |props| && props[i].name == props[j].name;
      OverriddenNames(props, runtime, props[i].name);
      var r := Overridden(props, runtime);
      assert r[i].name == r[j].name;
    }
  }

  lemma {:induction false} RaisedNames(props: seq<Properties>, loader: seq<Properties>, name: string)
    ensures IndexOf(Raised(props, loader), name) != -1 <==> IndexOf(props, name) != -1 || IndexOf(loader, name) != -1
    decreases |loader|
  {
    hide IndexOf, VersionIn, Distinct;
    if loader == [] {
      NoneNamed(name);
    } else {
      var front, p := loader[..|loader| - 1], loader[|loader| - 1];
      assert loader == front + [p];
      RaisedNames(props, front, name);
      VersionAppended(front, p, name);
      var before := Raised(props, front);
      var i := IndexOf(before, p.name);
      if i != -1 {
        VersionUpdated(before, i, p.extensionVersion, name);
      } else {
        VersionAppended(before, p, name);
      }
    }
  }

  lemma NoneNamed(name: string)
    ensures IndexOf([], name) == -1
  {}

  /** Whatever the three sources list, the names reported are those of the layers, cut to fit, of the runtime and of
      the loader. */
  lemma ReportedNamesIff(layers: seq<seq<ExtensionListing>>, runtime: seq<Properties>, loader: seq<Properties>,
      name: string)
    ensures IndexOf(Raised(Overridden(MergeListings([], Flatten(layers)), runtime), loader), name) != -1 <==>
            Listed(Flatten(layers), name) || IndexOf(runtime, name) != -1 || IndexOf(loader, name) != -1
  {
    hide IndexOf, MergeListings, Overridden, Raised, Listed;
    NoneNamed(name);
    MergedNames([], Flatten(layers), name);
    OverriddenNames(MergeListings([], Flatten(layers)), runtime, name);
    RaisedNames(Overridden(MergeListings([], Flatten(layers)), runtime), loader, name);
  }

  /** A name the runtime repeats, and no layer lists. */
  predicate RepeatedAlone(extensions: seq<ExtensionListing>, runtime: seq<Properties>, k: int)
    requires 0 <= k < |runtime|
  {
    !Listed(extensions, runtime[k].name) && IndexOf(runtime[..k], runtime[k].name) != -1
  }

  lemma RepeatedAloneIff(extensions: seq<ExtensionListing>, runtime: seq<Properties>, k: int)
    requires 0 <= k < |runtime|
    ensures RepeatedAlone(extensions, runtime, k) <==> Repeated(MergeListings([], extensions), runtime, k)
  {
    hide IndexOf, MergeListings, Listed;
    NoneNamed(runtime[k].name);
    MergedNames([], extensions, runtime[k].name);
  }

  /** Exactly when every reported name is reported once. */
  lemma ReportedDistinctIff(layers: seq<seq<ExtensionListing>>, runtime: seq<Properties>, loader: seq<Properties>)
    ensures var extensions := Flatten(layers);
      Distinct(Raised(Overridden(MergeListings([], extensions), runtime), loader)) <==>
        && (forall k | 0 <= k < |extensions| :: !Collides([], extensions, k))
        && (forall k | 0 <= k < |runtime| :: !RepeatedAlone(extensions, runtime, k))
  {
    hide Collides, Repeated, RepeatedAlone, MergeListings, Overridden, Raised;
    var merged := MergeListings([], Flatten(layers));
    forall k | 0 <= k < |runtime|
      ensures RepeatedAlone(Flatten(layers), runtime, k) <==> Repeated(merged, runtime, k)
    {
      RepeatedAloneIff(Flatten(layers), runtime, k);
    }
    DistinctIffNoCollision([], Flatten(layers));
    OverriddenDistinctIff(merged, runtime);
    RaisedDistinctIff(Overridden(merged, runtime), loader);
  }

  /** Rearranging the layers changes no version. */
  lemma LayerOrderIrrelevant(a: seq<seq<ExtensionListing>>, b: seq<seq<ExtensionListing>>,
      runtime: seq<Properties>, loader: seq<Properties>, name: string)
    requires ListingsFit(Flatten(a)) && Distinct(runtime) && Distinct(loader)
    requires forall ext :: ext in Flatten(a) <==> ext in Flatten(b)
    ensures VersionIn(Raised(Overridden(MergeListings([], Flatten(a)), runtime), loader), name) ==
            VersionIn(Raised(Overridden(MergeListings([], Flatten(b)), runtime), loader), name)
  {
    MergedVersions(a, runtime, loader, name);
    MergedVersions(b, runtime, loader, name);
    OrderIndependent(Flatten(a), Flatten(b), name);
  }

  /** The list's first entry of the name is at index `i`, or it has none and `i` is its length. */
  predicate FirstAt(props: seq<Properties>, name: string, i: nat) {
    && i <= |props| && (forall k | 0 <= k < i :: props[k].name != name)
    && (i < |props| ==> props[i].name == name)
  }

  /** One listing more: it raises the version where its name stands, or goes to the end, cut to 127 characters. */
  lemma MergedLast(props: seq<Properties>, front: seq<ExtensionListing>, ext: ExtensionListing, i: nat)
    requires FirstAt(MergeListings(props, front), ext.name, i)
    ensures var r := MergeListings(props, front);
      MergeListings(props, front + [ext]) ==
        if i == |r| then
          r + [Properties(if |ext.name| <= 127 then ext.name else ext.name[..127], ext.extensionVersion)]
        else if r[i].extensionVersion < ext.extensionVersion then r[i := Properties(ext.name, ext.extensionVersion)]
        else r
  {
    hide MergeListings;
    MergeLast(props, front, ext);
  }

  /** One runtime extension more: its version replaces that of a name known before, or it goes to the end. */
  lemma OverriddenLast(props: seq<Properties>, front: seq<Properties>, p: Properties, i: nat)
    requires FirstAt(props, p.name, i)
    ensures var r := Overridden(props, front);
      Overridden(props, front + [p]) == if i == |props| then r + [p] else r[i := p]
  {
    assert (front + [p])[..|front|] == front;
    OverriddenNames(props, front, p.name);
    var r := Overridden(props, front);
    assert Overridden(props, front + [p]) == Override(r, |props|, p);
    hide Overridden;
    assert forall k | 0 <= k < |props| :: r[..|props|][k].name == props[k].name;
  }

  /** One loader extension more: it raises a lower version, or goes to the end. */
  lemma RaisedLast(props: seq<Properties>, front: seq<Properties>, p: Properties, i: nat)
    requires FirstAt(Raised(props, front), p.name, i)
    ensures var r := Raised(props, front);
      Raised(props, front + [p]) ==
        if i == |r| then r + [p] else if r[i].extensionVersion < p.extensionVersion then r[i := p] else r
  {
    assert (front + [p])[..|front|] == front;
    assert Raised(props, front + [p]) == Raise(Raised(props, front), p);
    hide Raised;
  }

  /** Layers are merged in order. */
  lemma LayersInOrder(layers: seq<seq<ExtensionListing>>, layer: seq<ExtensionListing>)
    ensures MergeListings([], Flatten(layers + [layer])) == MergeListings(MergeListings([], Flatten(layers)), layer)
  {
    assert (layers + [layer])[..|layers|] == layers;
    assert Flatten(layers + [layer]) == Flatten(layers) + layer;
    hide Flatten, MergeListings;
    MergeConcat([], Flatten(layers), layer);
  }

  /** Two ways to a repeated name: a layer's name that does not fit, listed twice, and a runtime's own repetition. */
  lemma RepeatedNames(long: string)
    requires !Fits(long)
    ensures !Distinct(MergeListings([], [ExtensionListing(long, 1), ExtensionListing(long, 1)]))
    ensures !Distinct(Overridden([], [Properties("XR_EXT_a", 1), Properties("XR_EXT_a", 1)]))
  {
    var extensions := [ExtensionListing(long, 1), ExtensionListing(long, 1)];
    assert Listed(extensions[..1], Truncated(long));
    assert Collides([], extensions, 1);
    DistinctIffNoCollision([], extensions);
    var runtime := [Properties("XR_EXT_a", 1), Properties("XR_EXT_a", 1)];
    assert runtime[..1][0].name == "XR_EXT_a";
    assert Repeated([], runtime, 1);
    DistinctIffNotRepeated([], runtime);
  }
}
