/** The create-instance chain of loader_instance.cpp: extension filtering and the list of next-infos. */
module LayerChain {
  import opened Wrappers
  import opened LoaderPlatform
  import opened LayerSelection

  const XR_MAX_API_LAYER_NAME_SIZE: nat := 256
  const DEBUG_UTILS := "XR_EXT_debug_utils"

  /** LoaderSpecificExtensions. */
  const LOADER_EXTENSIONS: seq<string> := [DEBUG_UTILS]

  /** An entry point of a layer or of the loader's terminator. */
  type EntryPoint = int

  datatype LayerInterface = LayerInterface(
    info: LayerInfo,
    getInstanceProcAddr: EntryPoint,
    createApiLayerInstance: EntryPoint)

  // ---------- The support check ----------

  predicate SupportedByLayer(layers: seq<LayerInfo>, extension: string) {
    exists l | l in layers :: extension in l.supportedExtensions
  }

  predicate Supported(runtime: seq<string>, layers: seq<LayerInfo>, extension: string) {
    extension in runtime || extension in LOADER_EXTENSIONS || SupportedByLayer(layers, extension)
  }

  predicate AllSupported(enabled: seq<string>, runtime: seq<string>, layers: seq<LayerInfo>) {
    forall e | e in enabled :: Supported(runtime, layers, e)
  }

  /** The runtime, the loader for debug utils alone, or some layer. */
  lemma SupportedIff(runtime: seq<string>, layers: seq<LayerInfo>, extension: string)
    ensures Supported(runtime, layers, extension) <==>
      || extension in runtime || extension == "XR_EXT_debug_utils"
      || exists i | 0 <= i < |layers| :: extension in layers[i].supportedExtensions
  {
    assert extension in LOADER_EXTENSIONS <==> extension == LOADER_EXTENSIONS[0];
    if i :| 0 <= i < |layers| && extension in layers[i].supportedExtensions {
      assert layers[i] in layers;
    }
  }

  /** SupportsExtension, of the runtime and of a layer. */
  method SupportsExtension(supported: seq<string>, extension: string) returns (found: bool)
    ensures found <==> extension in supported
  {
    for i := 0 to |supported|
      invariant extension !in supported[..i]
    {
      if supported[i] == extension {
        return true;
      }
    }
    return false;
  }

  /** The first loop of LoaderInstance::CreateInstance. */
  method CheckSupport(enabled: seq<string>, runtime: seq<string>, layers: seq<LayerInfo>) returns (result: XrResult)
    ensures result == if AllSupported(enabled, runtime, layers) then XR_SUCCESS else XR_ERROR_EXTENSION_NOT_PRESENT
  {
    for ext := 0 to |enabled|
      invariant forall e | e in enabled[..ext] :: Supported(runtime, layers, e)
    {
      var found := SupportsExtension(runtime, enabled[ext]);
      if !found {
        found := SupportsExtension(LOADER_EXTENSIONS, enabled[ext]);
      }
      if !found {
        var l := 0;
        while l < |layers|
          invariant 0 <= l <= |layers| && !found
          invariant forall k | 0 <= k < l :: enabled[ext] !in layers[k].supportedExtensions
        {
          found := SupportsExtension(layers[l].supportedExtensions, enabled[ext]);
          if found {
            assert layers[l] in layers;
            break;
          }
          l := l + 1;
        }
      }
      if !found {
        assert enabled[ext] in enabled && !Supported(runtime, layers, enabled[ext]);
        return XR_ERROR_EXTENSION_NOT_PRESENT;
      }
    }
    return XR_SUCCESS;
  }

  // ---------- Filtering ----------

  function RemoveFirst(s: seq<string>, x: string): seq<string> {
    if s == [] then [] else if s[0] == x then s[1..] else [s[0]] + RemoveFirst(s[1..], x)
  }

  function RemoveEach(s: seq<string>, xs: seq<string>): seq<string> {
    if xs == [] then s else RemoveFirst(RemoveEach(s, xs[..|xs| - 1]), xs[|xs| - 1])
  }

  lemma {:induction false} RemoveFirstAt(s: seq<string>, x: string, i: nat)
    requires i <= |s| && forall k | 0 <= k < i :: s[k] != x
    requires i < |s| ==> s[i] == x
    ensures RemoveFirst(s, x) == if i < |s| then s[..i] + s[i + 1..] else s
  {
    if s != [] && i > 0 {
      RemoveFirstAt(s[1..], x, i - 1);
      assert s == [s[0]] + s[1..];
      assert i < |s| ==> s[..i] == [s[0]] + s[1..][..i - 1];
    }
  }

  /** Exactly one occurrence goes away. */
  lemma {:induction false} RemoveFirstCounts(s: seq<string>, x: string)
    ensures multiset(RemoveFirst(s, x)) == multiset(s) - multiset{x}
  {
    if s != [] {
      assert s == [s[0]] + s[1..];
      if s[0] != x {
        RemoveFirstCounts(s[1..], x);
      }
    }
  }

  lemma {:induction false} RemoveEachCounts(s: seq<string>, xs: seq<string>)
    ensures multiset(RemoveEach(s, xs)) == multiset(s) - multiset(xs)
  {
    hide RemoveFirst;
    if xs != [] {
      var front, x := xs[..|xs| - 1], xs[|xs| - 1];
      assert xs == front + [x];
      RemoveEachCounts(s, front);
      RemoveFirstCounts(RemoveEach(s, front), x);
    }
  }

  class InstanceCreateInfoManager {
    const original: seq<string>
    var enabled: seq<string>
    /** The extension list of the modified create info. */
    var modified: seq<string>

    ghost predicate Valid()
      reads this
    {
      modified == enabled
    }

    constructor (info: seq<string>)
      ensures Valid() && original == info && modified == info
    {
      original := info;
      enabled := [];
      modified := info;
      new;
      Reset();
    }

    method Reset()
      modifies this
      ensures Valid() && modified == original
    {
      enabled := [];
      for i := 0 to |original|
        invariant enabled == original[..i]
      {
        enabled := enabled + [original[i]];
      }
      Update();
    }

    method Update()
      modifies this
      ensures Valid() && enabled == old(enabled)
    {
      modified := enabled;
    }

    method FilterOutExtension(skip: string)
      requires Valid()
      modifies this
      ensures Valid() && modified == RemoveFirst(old(modified), skip)
    {
      if enabled == [] {
        return;
      }
      var it := 0;
      while it < |enabled| && enabled[it] != skip
        invariant 0 <= it <= |enabled| && forall k | 0 <= k < it :: enabled[k] != skip
      {
        it := it + 1;
      }
      RemoveFirstAt(enabled, skip, it);
      if it != |enabled| {
        enabled := enabled[..it] + enabled[it + 1..];
      }
      Update();
    }

    method FilterOutExtensions(skip: seq<string>)
      requires Valid()
      modifies this
      ensures Valid() && modified == RemoveEach(old(modified), skip)
    {
      if enabled == [] {
        RemoveNothing(skip);
        return;
      }
      if skip == [] {
        return;
      }
      for i := 0 to |skip|
        invariant Valid() && modified == RemoveEach(old(modified), skip[..i])
      {
        assert skip[..i + 1][..i] == skip[..i];
        FilterOutExtension(skip[i]);
      }
      assert skip[..|skip|] == skip;
      Update();
    }

    static lemma {:induction false} RemoveNothing(skip: seq<string>)
      ensures RemoveEach([], skip) == []
    {
      if skip != [] {
        RemoveNothing(skip[..|skip| - 1]);
      }
    }
  }

  /** What the chain receives: debug utils, once, goes away where the runtime does not support it. */
  function ChainExtensions(enabled: seq<string>, runtime: seq<string>): seq<string> {
    if DEBUG_UTILS in runtime then enabled else RemoveFirst(enabled, DEBUG_UTILS)
  }

  method FilterForChain(enabled: seq<string>, runtime: seq<string>) returns (modified: seq<string>)
    ensures modified == ChainExtensions(enabled, runtime)
  {
    var manager := new InstanceCreateInfoManager(enabled);
    modified := enabled;
    if |enabled| > 0 {
      var skip: seq<string> := [];
      for i := 0 to |LOADER_EXTENSIONS|
        invariant manager.Valid() && manager.modified == enabled
        invariant skip == if i == 0 || DEBUG_UTILS in runtime then [] else [DEBUG_UTILS]
      {
        var supported := SupportsExtension(runtime, LOADER_EXTENSIONS[i]);
        if !supported {
          skip := skip + [LOADER_EXTENSIONS[i]];
        }
      }
      assert [DEBUG_UTILS][..0] == [];
      assert RemoveEach(enabled, []) == enabled;
      manager.FilterOutExtensions(skip);
      modified := manager.modified;
    }
  }

  /** What is passed on: everything, unless the runtime lacks debug utils, whose first occurrence is then left out. */
  lemma ChainExtensionsAre(enabled: seq<string>, runtime: seq<string>)
    ensures "XR_EXT_debug_utils" in runtime || "XR_EXT_debug_utils" !in enabled ==>
      ChainExtensions(enabled, runtime) == enabled
    ensures "XR_EXT_debug_utils" !in runtime ==>
      forall i | 0 <= i < |enabled| && enabled[i] == "XR_EXT_debug_utils" && "XR_EXT_debug_utils" !in enabled[..i] ::
        ChainExtensions(enabled, runtime) == enabled[..i] + enabled[i + 1..]
  {
    if "XR_EXT_debug_utils" !in enabled {
      RemoveFirstAt(enabled, DEBUG_UTILS, |enabled|);
    }
    forall i | 0 <= i < |enabled| && enabled[i] == DEBUG_UTILS && DEBUG_UTILS !in enabled[..i]
      ensures RemoveFirst(enabled, DEBUG_UTILS) == enabled[..i] + enabled[i + 1..]
    {
      assert forall k | 0 <= k < i :: enabled[..i][k] == enabled[k];
      RemoveFirstAt(enabled, DEBUG_UTILS, i);
    }
  }

  /** So every request is passed on as often as it is made, except for one of debug utils. */
  lemma ChainExtensionsCounts(enabled: seq<string>, runtime: seq<string>, e: string)
    ensures multiset(ChainExtensions(enabled, runtime))[e] ==
      multiset(enabled)[e] - if e == "XR_EXT_debug_utils" && e in enabled && e !in runtime then 1 else 0
  {
    RemoveFirstCounts(enabled, DEBUG_UTILS);
  }

  /** After a passed support check the chain receives only what the runtime or a layer supports, exactly
      unless the application asks twice for debug utils and only the loader supports it. */
  lemma ChainExtensionsSupportedIff(enabled: seq<string>, runtime: seq<string>, layers: seq<LayerInfo>)
    requires AllSupported(enabled, runtime, layers)
    ensures (forall e | e in ChainExtensions(enabled, runtime) :: e in runtime || SupportedByLayer(layers, e)) <==>
            multiset(enabled)[DEBUG_UTILS] <= 1 || DEBUG_UTILS in runtime || SupportedByLayer(layers, DEBUG_UTILS)
  {
    var passed := ChainExtensions(enabled, runtime);
    RemoveFirstCounts(enabled, DEBUG_UTILS);
    assert forall e :: e in passed <==> e in multiset(passed);
    assert forall e :: e in enabled <==> e in multiset(enabled);
    forall e | e in passed && e != DEBUG_UTILS
      ensures e in runtime || SupportedByLayer(layers, e)
    {
      assert e in multiset(enabled);
      assert Supported(runtime, layers, e);
    }
    if DEBUG_UTILS !in runtime {
      var count := multiset(enabled)[DEBUG_UTILS];
      assert multiset(passed)[DEBUG_UTILS] == if count == 0 then 0 else count - 1;
      assert DEBUG_UTILS in passed <==> multiset(enabled)[DEBUG_UTILS] > 1;
    }
  }

  /** Debug utils requested twice passes the check, and one request still reaches a runtime that does not know it. */
  lemma DebugUtilsTwice()
    ensures var enabled := [DEBUG_UTILS, DEBUG_UTILS];
      && AllSupported(enabled, [], [])
      && ChainExtensions(enabled, []) == [DEBUG_UTILS]
  {
    var enabled := [DEBUG_UTILS, DEBUG_UTILS];
    assert enabled[0] == DEBUG_UTILS && enabled[1..] == [DEBUG_UTILS];
    assert DEBUG_UTILS in LOADER_EXTENSIONS by { assert LOADER_EXTENSIONS[0] == DEBUG_UTILS; }
  }

  // ---------- The chain ----------

  /** XrApiLayerNextInfo; `next` is an index into the same array, None for a null pointer. */
  datatype NextInfo = NextInfo(layerName: string, next: Option<nat>, nextGetInstanceProcAddr: EntryPoint,
      nextCreateApiLayerInstance: EntryPoint)

  function TruncatedName(name: string): string {
    if |name| < XR_MAX_API_LAYER_NAME_SIZE then name else name[..XR_MAX_API_LAYER_NAME_SIZE - 1]
  }

  /** A name that fits its 256 characters with a terminator is carried as it is, and a longer one loses its end. */
  lemma NamesCarried(name: string)
    ensures |name| <= 255 ==> TruncatedName(name) == name
    ensures |name| >= 256 ==> |TruncatedName(name)| == 255 && TruncatedName(name) <= name
  {}

  function GetInstanceProcAddrAt(layers: seq<LayerInterface>, term: EntryPoint, k: nat): EntryPoint
    requires k <= |layers|
  {
    if k < |layers| then layers[k].getInstanceProcAddr else term
  }

  function CreateAt(layers: seq<LayerInterface>, term: EntryPoint, k: nat): EntryPoint
    requires k <= |layers|
  {
    if k < |layers| then layers[k].createApiLayerInstance else term
  }

  /** Node k: layer k's name, the node after it, and the entry points of layer k + 1 or the terminator. */
  function NodeAt(layers: seq<LayerInterface>, gipaTerm: EntryPoint, createTerm: EntryPoint, k: nat): NextInfo
    requires k < |layers|
  {
    NextInfo(TruncatedName(layers[k].info.layerName), if k + 1 < |layers| then Some(k + 1) else None,
             GetInstanceProcAddrAt(layers, gipaTerm, k + 1), CreateAt(layers, createTerm, k + 1))
  }

  ghost predicate IsChain(list: seq<NextInfo>, layers: seq<LayerInterface>, gipaTerm: EntryPoint,
      createTerm: EntryPoint) {
    |list| == |layers| && forall k | 0 <= k < |list| :: list[k] == NodeAt(layers, gipaTerm, createTerm, k)
  }

  /** The reverse loop of LoaderInstance::CreateInstance. */
  method BuildChain(layers: seq<LayerInterface>, gipaTerm: EntryPoint, createTerm: EntryPoint)
    returns (list: array<NextInfo>, topmostGipa: EntryPoint, topmostCreate: EntryPoint)
    requires layers != []
    ensures fresh(list) && IsChain(list[..], layers, gipaTerm, createTerm)
    ensures topmostGipa == layers[0].getInstanceProcAddr && topmostCreate == layers[0].createApiLayerInstance
  {
    list := new NextInfo[|layers|](_ => NextInfo("", None, 0, 0));
    topmostGipa, topmostCreate := gipaTerm, createTerm;
    var topmostNext: Option<nat> := None;
    var index := |layers| - 1;
    while index >= 0
      invariant -1 <= index < |layers|
      invariant topmostGipa == GetInstanceProcAddrAt(layers, gipaTerm, index + 1)
      invariant topmostCreate == CreateAt(layers, createTerm, index + 1)
      invariant topmostNext == if index + 1 < |layers| then Some(index + 1) else None
      invariant forall k | index < k < |layers| :: list[k] == NodeAt(layers, gipaTerm, createTerm, k)
    {
      var layer := layers[index];
      list[index] := NextInfo(TruncatedName(layer.info.layerName), topmostNext, topmostGipa, topmostCreate);
      topmostNext := Some(index);
      topmostGipa := layer.getInstanceProcAddr;
      topmostCreate := layer.createApiLayerInstance;
      index := index - 1;
    }
  }

  /** One call of the chain: the entry point, and the layer name its next-info carries (None for null). */
  datatype Call = Call(entry: EntryPoint, layerName: Option<string>)

  predicate Forward(list: seq<NextInfo>) {
    forall k | 0 <= k < |list| && list[k].next.Some? :: k < list[k].next.value < |list|
  }

  /** How a layer treats a call on its way to the terminator. It returns the terminator's handles. */
  datatype Forwarding =
    | Faithful
    | FailsBefore(error: XrResult)
    | FailsAfter(error: XrResult)
  {
    predicate Valid() { !Faithful? ==> Failed(error) }

    /** What it returns, if the call it forwards to returns `below`. */
    function Answer(below: XrResult): XrResult {
      match this
      case Faithful => below
      case FailsBefore(e) => e
      case FailsAfter(e) => if Failed(below) then below else e
    }
  }

  /** What layer k of n layers returns, if the terminator returns `term`; without layers nothing stands in its way. */
  function ThroughLayers(forwarding: nat -> Forwarding, k: nat, n: nat, term: XrResult): XrResult
    requires k <= n
    decreases n - k
  {
    if k == n then term else forwarding(k).Answer(ThroughLayers(forwarding, k + 1, n, term))
  }

  /** A call succeeds exactly when the terminator does and no layer stands in its way. */
  lemma {:induction false} ThroughSucceedsIff(forwarding: nat -> Forwarding, k: nat, n: nat, term: XrResult)
    requires k <= n && forall i | k <= i < n :: forwarding(i).Valid()
    ensures Succeeded(ThroughLayers(forwarding, k, n, term)) <==>
            Succeeded(term) && forall i | k <= i < n :: forwarding(i).Faithful?
    decreases n - k
  {
    if k < n {
      ThroughSucceedsIff(forwarding, k + 1, n, term);
    }
  }

  /** Whose result a call returns. It turns round at layer d, the first that does not forward it, or else at the
      terminator; a failure there is final, and otherwise the lowest layer that fails after forwarding decides. */
  lemma {:induction false} ThroughResult(forwarding: nat -> Forwarding, k: nat, n: nat, term: XrResult, d: nat)
    requires k <= d <= n && forall i | k <= i < n :: forwarding(i).Valid()
    requires (forall i | k <= i < d :: !forwarding(i).FailsBefore?) && (d < n ==> forwarding(d).FailsBefore?)
    ensures var r := ThroughLayers(forwarding, k, n, term);
      && (d < n ==> r == forwarding(d).error)
      && (d == n && term < 0 ==> r == term)
      && (d == n && (forall i | k <= i < n :: forwarding(i).Faithful?) ==> r == term)
      && (d == n && term >= 0 ==>
            forall a | k <= a < n && forwarding(a).FailsAfter? && (forall i | a < i < n :: forwarding(i).Faithful?) ::
              r == forwarding(a).error)
    decreases n - k
  {
    if k < d {
      ThroughResult(forwarding, k + 1, n, term, d);
      ThroughSucceedsIff(forwarding, k + 1, n, term);
    }
  }

  /** How many layers from layer k on pass the call on to the next. */
  function Depth(forwarding: nat -> Forwarding, k: nat, n: nat): (d: nat)
    requires k <= n
    ensures k + d <= n && forall i | k <= i < k + d :: !forwarding(i).FailsBefore?
    ensures k + d < n ==> forwarding(k + d).FailsBefore?
    decreases n - k
  {
    if k < n && !forwarding(k).FailsBefore? then 1 + Depth(forwarding, k + 1, n) else 0
  }

  /** The calls made by following the list: to a node's entry point, with that node's successor. */
  function Calls(list: seq<NextInfo>, entry: EntryPoint, at: Option<nat>, forwarding: nat -> Forwarding): seq<Call>
    requires Forward(list) && (at.Some? ==> at.value < |list|)
    decreases if at.Some? then |list| - at.value else 0
  {
    match at
    case None => [Call(entry, None)]
    case Some(k) =>
      [Call(entry, Some(list[k].layerName))] +
      if forwarding(k).FailsBefore? then []
      else Calls(list, list[k].nextCreateApiLayerInstance, list[k].next, forwarding)
  }

  /** Every layer once, in list order and under its own name, and then the terminator. */
  function AllCalls(layers: seq<LayerInterface>, createTerm: EntryPoint): seq<Call> {
    seq(|layers|, i requires 0 <= i < |layers| =>
      Call(layers[i].createApiLayerInstance, Some(TruncatedName(layers[i].info.layerName)))) + [Call(createTerm, None)]
  }

  lemma ChainIsForward(list: seq<NextInfo>, layers: seq<LayerInterface>, gipaTerm: EntryPoint, createTerm: EntryPoint)
    requires IsChain(list, layers, gipaTerm, createTerm)
    ensures Forward(list)
  {}

  lemma {:induction false} ChainCallsFrom(list: seq<NextInfo>, layers: seq<LayerInterface>, gipaTerm: EntryPoint,
      createTerm: EntryPoint, forwarding: nat -> Forwarding, k: nat)
    requires IsChain(list, layers, gipaTerm, createTerm) && Forward(list) && k < |layers|
    ensures Calls(list, layers[k].createApiLayerInstance, Some(k), forwarding) ==
            AllCalls(layers, createTerm)[k..k + Depth(forwarding, k, |layers|) + 1]
    decreases |layers| - k
  {
    hide AllCalls, Depth, TruncatedName, IsChain;
    NodeFacts(list, layers, gipaTerm, createTerm, k);
    AllCallsAt(layers, createTerm, k);
    DepthAt(forwarding, k, |layers|);
    var all := AllCalls(layers, createTerm);
    if !forwarding(k).FailsBefore? {
      if k + 1 < |layers| {
        ChainCallsFrom(list, layers, gipaTerm, createTerm, forwarding, k + 1);
      } else {
        DepthAt(forwarding, k + 1, |layers|);
      }
      SliceFrom(all, k, k + Depth(forwarding, k, |layers|) + 1);
    } else {
      SliceFrom(all, k, k + 1);
    }
  }

  /** What node k says, field by field. */
  lemma NodeFacts(list: seq<NextInfo>, layers: seq<LayerInterface>, gipaTerm: EntryPoint, createTerm: EntryPoint,
      k: nat)
    requires IsChain(list, layers, gipaTerm, createTerm) && k < |layers|
    ensures |list| == |layers|
    ensures list[k].nextGetInstanceProcAddr == if k + 1 < |layers| then layers[k + 1].getInstanceProcAddr else gipaTerm
    ensures list[k].layerName == TruncatedName(layers[k].info.layerName)
    ensures k + 1 < |layers| ==>
      list[k].next == Some(k + 1) && list[k].nextCreateApiLayerInstance == layers[k + 1].createApiLayerInstance
    ensures k + 1 == |layers| ==> list[k].next == None && list[k].nextCreateApiLayerInstance == createTerm
  {
    assert list[k] == NodeAt(layers, gipaTerm, createTerm, k);
  }

  lemma AllCallsAt(layers: seq<LayerInterface>, createTerm: EntryPoint, k: nat)
    requires k < |layers|
    ensures var all := AllCalls(layers, createTerm);
      && |all| == |layers| + 1
      && all[k] == Call(layers[k].createApiLayerInstance, Some(TruncatedName(layers[k].info.layerName)))
      && all[|layers|..] == [Call(createTerm, None)]
  {}

  lemma DepthAt(forwarding: nat -> Forwarding, k: nat, n: nat)
    requires k <= n
    ensures Depth(forwarding, k, n) ==
      if k < n && !forwarding(k).FailsBefore? then 1 + Depth(forwarding, k + 1, n) else 0
  {}

  lemma SliceFrom<T>(s: seq<T>, i: nat, j: nat)
    requires i < j <= |s|
    ensures s[i..j] == [s[i]] + s[i + 1..j]
    ensures j == i + 1 ==> s[i..j] == [s[i]]
  {}

  /** The chain is acyclic, and a create call visits the layers in list order, each once and under its own name,
      down to the first that does not forward it, and the terminator if there is none. */
  lemma ChainCalls(list: seq<NextInfo>, layers: seq<LayerInterface>, gipaTerm: EntryPoint, createTerm: EntryPoint,
      forwarding: nat -> Forwarding)
    requires layers != [] && IsChain(list, layers, gipaTerm, createTerm)
    ensures Forward(list)
    ensures Calls(list, layers[0].createApiLayerInstance, Some(0), forwarding) ==
            AllCalls(layers, createTerm)[..Depth(forwarding, 0, |layers|) + 1]
  {
    ChainIsForward(list, layers, gipaTerm, createTerm);
    ChainCallsFrom(list, layers, gipaTerm, createTerm, forwarding, 0);
  }

  /** Following the next-infos of a lookup: each layer asks the one below. */
  function LookUpCalls(list: seq<NextInfo>, entry: EntryPoint, at: Option<nat>): seq<EntryPoint>
    requires Forward(list) && (at.Some? ==> at.value < |list|)
    decreases if at.Some? then |list| - at.value else 0
  {
    match at
    case None => [entry]
    case Some(k) => [entry] + LookUpCalls(list, list[k].nextGetInstanceProcAddr, list[k].next)
  }

  function LayerLookUps(layers: seq<LayerInterface>): seq<EntryPoint> {
    seq(|layers|, i requires 0 <= i < |layers| => layers[i].getInstanceProcAddr)
  }

  lemma {:induction false} LookUpsFrom(list: seq<NextInfo>, layers: seq<LayerInterface>, gipaTerm: EntryPoint,
      createTerm: EntryPoint, k: nat)
    requires IsChain(list, layers, gipaTerm, createTerm) && Forward(list) && k < |layers|
    ensures LookUpCalls(list, layers[k].getInstanceProcAddr, Some(k)) == LayerLookUps(layers)[k..] + [gipaTerm]
    decreases |layers| - k
  {
    assert list[k] == NodeAt(layers, gipaTerm, createTerm, k);
    if k + 1 < |layers| {
      LookUpsFrom(list, layers, gipaTerm, createTerm, k + 1);
    }
    assert LayerLookUps(layers)[k..] == [LayerLookUps(layers)[k]] + LayerLookUps(layers)[k + 1..];
  }
}
