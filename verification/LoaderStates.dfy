/** What every call of the loader comes to, as values (loader_core.cpp): requests and answers, the outcome of
    xrCreateInstance, and the state machine of all calls. */
module LoaderStates {
  import opened Wrappers
  import opened LoaderPlatform
  import opened RuntimeInterfaces
  import opened LoaderLogging
  import opened LayerChain
  import LayerSelection
  import LoaderInit

  type LayerInfo = LayerSelection.LayerInfo

  /** What the application asks for in xrCreateInstance, and what it meets: what the libraries of the enabled layers
      do, how the layers that load treat the call, and what the runtime replies to each list of extensions. */
  datatype CreateRequest = CreateRequest(
    versionSupported: bool,
    discovery: RuntimeDiscovery,
    implicit: LayerSelection.Discovery,
    explicit: LayerSelection.Discovery,
    environment: string,
    appNames: Option<seq<string>>,
    layerBehaviours: nat -> LayerSelection.Behaviour,
    enabledExtensions: seq<string>,
    infoResult: XrResult,
    forwarding: nat -> Forwarding,
    reply: seq<string> -> InstanceReply,
    messenger: Option<MessengerRequest>)
  {
    ghost predicate Valid() {
      && (forall k: nat :: forwarding(k).Valid()) && (forall extensions :: reply(extensions).Valid()) && infoResult <= 0
      && (messenger.Some? ==> messenger.value.Valid())
    }
  }

  /** A call of xrCreateDebugUtilsMessengerEXT: how the layers together treat it, the runtime's result and the
      handle made on success. */
  datatype MessengerRequest = MessengerRequest(forwarding: Forwarding, runtimeResult: XrResult, handle: Messenger,
      sink: string) {
    predicate Valid() { forwarding.Valid() && handle != 0 }
  }

  /** One call of the application, with the answers it meets. */
  datatype Step =
    | InitializeStep(chain: seq<LoaderInit.InitStruct>)
    | EnumerateStep(discovery: RuntimeDiscovery)
    | CreateStep(request: CreateRequest)
    | DestroyStep(instance: Instance, messengerForwarded: bool, destroyForwarded: bool)
    | CreateMessengerStep(owner: Instance, messengerRequest: MessengerRequest)
    | DestroyMessengerStep(messenger: Messenger, forwarded: bool)
  {
    ghost predicate Valid() {
      (CreateStep? ==> request.Valid()) && (CreateMessengerStep? ==> messengerRequest.Valid())
    }
  }

  // ---------- Recorders, recorded ids and tracked messengers ----------

  /** The three containers hold the same messengers, each under its own instance. */
  ghost predicate Synced(recorders: seq<Recorder>, byInstance: map<Instance, set<nat>>,
      tracked: map<Messenger, Instance>) {
    && MessengerIds(recorders) == tracked.Keys
    && (forall m | m in tracked :: m in IdsOf(byInstance, tracked[m]))
    && (forall h, id | h in byInstance && id in byInstance[h] :: id in tracked && tracked[id] == h)
  }

  lemma SyncedAdd(recorders: seq<Recorder>, byInstance: map<Instance, set<nat>>, tracked: map<Messenger, Instance>,
      h: Instance, r: Recorder)
    requires Synced(recorders, byInstance, tracked) && r.uniqueId != 0 && r.uniqueId !in tracked
    ensures Synced(recorders + [r], byInstance[h := IdsOf(byInstance, h) + {r.uniqueId}], tracked[r.uniqueId := h])
    ensures Defaults(recorders + [r]) == Defaults(recorders)
  {
    IdsAppended(recorders, r);
    KeptAppended(recorders, r, {});
  }

  lemma SyncedRemove(recorders: seq<Recorder>, byInstance: map<Instance, set<nat>>, tracked: map<Messenger, Instance>,
      m: Messenger)
    requires Synced(recorders, byInstance, tracked) && m != 0
    ensures Synced(Kept(recorders, {m}), map h | h in byInstance :: byInstance[h] - {m}, tracked - {m})
  {
    KeptIds(recorders, {m});
    var after := map h | h in byInstance :: byInstance[h] - {m};
    forall x | x in tracked - {m} ensures x in IdsOf(after, tracked[x]) {
      assert x in IdsOf(byInstance, tracked[x]);
    }
    assert MessengerIds(Kept(recorders, {m})) == (tracked - {m}).Keys;
  }

  lemma RecordedIsTracked(recorders: seq<Recorder>, byInstance: map<Instance, set<nat>>,
      tracked: map<Messenger, Instance>, h: Instance, id: nat)
    requires Synced(recorders, byInstance, tracked) && id in IdsOf(byInstance, h)
    ensures id in tracked && tracked[id] == h && id != 0
  {}

  ghost predicate IdsNonZero(byInstance: map<Instance, set<nat>>) {
    forall h | h in byInstance :: 0 !in byInstance[h]
  }

  /** When every messenger belongs to one instance, destroying it empties all three containers. */
  lemma SyncedDestroy(recorders: seq<Recorder>, byInstance: map<Instance, set<nat>>, tracked: map<Messenger, Instance>,
      h: Instance)
    requires Synced(recorders, byInstance, tracked) && forall m | m in tracked :: tracked[m] == h
    ensures Synced(Kept(recorders, IdsOf(byInstance, h)), byInstance - {h}, map[])
  {
    KeptIds(recorders, IdsOf(byInstance, h));
    assert IdsOf(byInstance, h) == tracked.Keys by {
      forall id ensures id in IdsOf(byInstance, h) <==> id in tracked {
        if id in tracked { assert id in IdsOf(byInstance, tracked[id]); }
        if id in IdsOf(byInstance, h) { RecordedIsTracked(recorders, byInstance, tracked, h, id); }
      }
    }
    var after := byInstance - {h};
    forall g | g in after ensures after[g] == {} {
      if id :| id in after[g] {
        assert id in IdsOf(byInstance, g);
        RecordedIsTracked(recorders, byInstance, tracked, g, id);
      }
    }
    var none: map<Messenger, Instance> := map[];
    assert MessengerIds(Kept(recorders, IdsOf(byInstance, h))) == none.Keys;
  }

  /** Exactly when the containers stay in step if a layer swallows xrDestroyInstance: the runtime is unloaded
      all the same, so no messenger may be left. */
  lemma SyncedWithoutRuntimeIff(recorders: seq<Recorder>, byInstance: map<Instance, set<nat>>,
      tracked: map<Messenger, Instance>)
    requires Synced(recorders, byInstance, tracked)
    ensures Synced(recorders, byInstance, map[]) <==> tracked == map[]
  {
    NoKeys(tracked);
    NoKeys(map[]);
  }

  /** One messenger of one instance: if the instance is destroyed without it, its recorder stays. */
  lemma SwallowedDestroy(instance: Instance, messenger: Messenger)
    requires messenger != 0
    ensures var recorders, byInstance := [Recorder(messenger, "sink")], map[instance := {messenger}];
      Synced(recorders, byInstance, map[messenger := instance]) && !Synced(recorders, byInstance, map[])
  {
    var recorders, byInstance := [Recorder(messenger, "sink")], map[instance := {messenger}];
    assert recorders[0] in recorders;
    assert MessengerIds(recorders) == {messenger};
    assert messenger in map[messenger := instance];
    SyncedWithoutRuntimeIff(recorders, byInstance, map[messenger := instance]);
  }

  lemma NoKeys(tracked: map<Messenger, Instance>)
    ensures tracked == map[] <==> tracked.Keys == {}
  {
    if tracked.Keys == {} {
      assert forall m :: m !in tracked.Keys;
      assert tracked == map[];
    }
  }

  // ---------- What xrCreateInstance comes to ----------

  predicate Reaches(forwarding: Forwarding, hasLayers: bool) { !hasLayers || !forwarding.FailsBefore? }

  function MessengerResult(m: MessengerRequest, table: Table): XrResult {
    if table.hasDebugUtils then m.runtimeResult else XR_SUCCESS
  }

  /** The result of making a messenger; without layers nothing stands in its way. */
  function MessengerThroughLayers(m: MessengerRequest, hasLayers: bool, table: Table): XrResult {
    if hasLayers then m.forwarding.Answer(MessengerResult(m, table)) else MessengerResult(m, table)
  }

  function TerminatorResult(request: CreateRequest, extensions: seq<string>): XrResult {
    if Failed(request.infoResult) then request.infoResult else request.reply(extensions).result
  }

  /** What LoaderInstance::CreateInstance returns. */
  function InstanceResult(request: CreateRequest, runtime: seq<string>, layers: seq<LayerInfo>): XrResult {
    if !AllSupported(request.enabledExtensions, runtime, layers) then XR_ERROR_EXTENSION_NOT_PRESENT
    else
      var extensions := ChainExtensions(request.enabledExtensions, runtime);
      ThroughLayers(request.forwarding, 0, |layers|, TerminatorResult(request, extensions))
  }

  /** What xrCreateInstance meets before it makes an instance active: a result and, if that is a success, the layers
      and the extensions the runtime was given. */
  datatype Creation = Creation(result: XrResult, layers: seq<LayerInfo>, extensions: seq<string>)

  /** The whole of it: the runtime, the layers, the support check and the chain, in this order. `loaded` are the
      extensions of the runtime that is loaded already, if one is. */
  function CreationOf(request: CreateRequest, loaded: Option<seq<string>>, required: bool, initialized: bool): Creation
  {
    var runtime := RuntimeLoadOf(loaded, request.discovery, required, initialized);
    if Failed(runtime.result) then Creation(runtime.result, [], [])
    else
      var loading := LayersOf(request, required, initialized);
      if Failed(loading.result) then Creation(loading.result, [], [])
      else
        Creation(InstanceResult(request, runtime.extensions, loading.loaded), loading.loaded,
                 ChainExtensions(request.enabledExtensions, runtime.extensions))
  }

  function LayersOf(request: CreateRequest, required: bool, initialized: bool): LayerSelection.Loading {
    LayerSelection.LoadingResult(request.implicit, request.explicit, request.environment, request.appNames,
      LayerSelection.InitState(required, initialized, required), request.layerBehaviours)
  }

  /** A runtime is loaded or loads, the layers load, each requested extension is supported, every layer forwards the
      call and the terminator and the runtime accept it. */
  ghost predicate AllGoesWell(request: CreateRequest, loaded: Option<seq<string>>, required: bool, initialized: bool) {
    var runtime := RuntimeLoadOf(loaded, request.discovery, required, initialized);
    var loading := LayersOf(request, required, initialized);
    && (loaded.Some? ||
        ((required ==> initialized) && Succeeded(request.discovery.result) &&
         exists b | b in request.discovery.runtimes :: Succeeded(LoadResult(b, required, initialized))))
    && Succeeded(loading.result)
    && AllSupported(request.enabledExtensions, runtime.extensions, loading.loaded)
    && (forall k | 0 <= k < |loading.loaded| :: request.forwarding(k).Faithful?)
    && Succeeded(request.infoResult)
    && Succeeded(request.reply(ChainExtensions(request.enabledExtensions, runtime.extensions)).result)
  }

  /** Exactly then everything up to making the instance active succeeds. */
  lemma CreatesIff(request: CreateRequest, loaded: Option<seq<string>>, required: bool, initialized: bool)
    requires request.Valid()
    ensures Succeeded(CreationOf(request, loaded, required, initialized).result) <==>
            AllGoesWell(request, loaded, required, initialized)
  {
    hide LoadResult, LayerSelection.LoadingResult, AllSupported, ChainExtensions, FirstLoading;
    FirstLoadingIff(request.discovery.runtimes, required, initialized);
    var runtime := RuntimeLoadOf(loaded, request.discovery, required, initialized);
    ThroughSucceedsIff(request.forwarding, 0, |LayersOf(request, required, initialized).loaded|,
      TerminatorResult(request, ChainExtensions(request.enabledExtensions, runtime.extensions)));
  }

  /** The result of making the messenger that the next chain of xrCreateInstance asks for, if it does. */
  function DefaultMessengerResult(messenger: Option<MessengerRequest>, hasLayers: bool, table: Table): XrResult {
    match messenger
    case None => XR_SUCCESS
    case Some(m) => MessengerThroughLayers(m, hasLayers, table)
  }

  /** What xrCreateInstance returns, and whether it leaves an instance active. */
  datatype CreateOutcome = CreateOutcome(result: XrResult, active: bool)

  /** A messenger that cannot be made is a validation failure, returned early: nothing is cleaned up. */
  function OutcomeOf(request: CreateRequest, creation: Creation): CreateOutcome {
    var messenger :=
      DefaultMessengerResult(request.messenger, creation.layers != [], request.reply(creation.extensions).table);
    if Failed(creation.result) then CreateOutcome(creation.result, false)
    else CreateOutcome(if Failed(messenger) then XR_ERROR_VALIDATION_FAILURE else messenger, true)
  }

  /** So xrCreateInstance fails and leaves its instance active exactly when all goes well before the messenger, one is
      asked for, and a layer fails the call or the runtime refuses it. */
  lemma StrandsIff(request: CreateRequest, loaded: Option<seq<string>>, required: bool, initialized: bool)
    requires request.Valid()
    ensures var creation := CreationOf(request, loaded, required, initialized);
      var outcome := OutcomeOf(request, creation);
      Failed(outcome.result) && outcome.active <==>
        && AllGoesWell(request, loaded, required, initialized) && request.messenger.Some?
        && var m := request.messenger.value;
           || (creation.layers != [] && !m.forwarding.Faithful?)
           || (request.reply(creation.extensions).table.hasDebugUtils && Failed(m.runtimeResult))
  {
    hide CreationOf, AllGoesWell;
    CreatesIff(request, loaded, required, initialized);
  }

  /** When a create succeeds, the runtime was given only extensions that it or a loaded layer supports, exactly
      unless debug utils was asked for twice and neither does. */
  lemma GivenExtensionsSupportedIff(request: CreateRequest, loaded: Option<seq<string>>, required: bool,
      initialized: bool)
    requires request.Valid() && Succeeded(CreationOf(request, loaded, required, initialized).result)
    ensures var runtime := RuntimeLoadOf(loaded, request.discovery, required, initialized).extensions;
      var creation := CreationOf(request, loaded, required, initialized);
      (forall e | e in creation.extensions :: e in runtime || SupportedByLayer(creation.layers, e)) <==>
        || multiset(request.enabledExtensions)[DEBUG_UTILS] <= 1
        || DEBUG_UTILS in runtime || SupportedByLayer(creation.layers, DEBUG_UTILS)
  {
    hide RuntimeLoadOf, LayersOf, AllSupported, ChainExtensions;
    var runtime := RuntimeLoadOf(loaded, request.discovery, required, initialized).extensions;
    var layers := LayersOf(request, required, initialized).loaded;
    assert AllSupported(request.enabledExtensions, runtime, layers);
    ChainExtensionsSupportedIff(request.enabledExtensions, runtime, layers);
  }

  /** And every requested extension reaches the runtime as often as it was requested, except for one request of debug
      utils where the runtime does not support it. */
  lemma RequestedReachRuntime(request: CreateRequest, loaded: Option<seq<string>>, required: bool, initialized: bool,
      e: string)
    requires CreationOf(request, loaded, required, initialized).result >= 0
    ensures var runtime := RuntimeLoadOf(loaded, request.discovery, required, initialized).extensions;
      multiset(CreationOf(request, loaded, required, initialized).extensions)[e] ==
      multiset(request.enabledExtensions)[e] -
        if e == "XR_EXT_debug_utils" && e in request.enabledExtensions && e !in runtime then 1 else 0
  {
    hide RuntimeLoadOf, LayersOf, ChainExtensions, InstanceResult;
    var runtime := RuntimeLoadOf(loaded, request.discovery, required, initialized).extensions;
    ChainExtensionsCounts(request.enabledExtensions, runtime, e);
  }

  /** What is met before an instance is active, step by step: the first step that fails decides the result. */
  lemma CreationCases(request: CreateRequest, loaded: Option<seq<string>>, required: bool, initialized: bool)
    ensures var runtime := RuntimeLoadOf(loaded, request.discovery, required, initialized);
      var loading := LayerSelection.LoadingResult(request.implicit, request.explicit, request.environment,
        request.appNames, LayerSelection.InitState(required, initialized, required), request.layerBehaviours);
      var c := CreationOf(request, loaded, required, initialized);
      if runtime.result < 0 then c == Creation(runtime.result, [], [])
      else if loading.result < 0 then c == Creation(loading.result, [], [])
      else
        && c.layers == loading.loaded && c.extensions == ChainExtensions(request.enabledExtensions, runtime.extensions)
        && ((exists e | e in request.enabledExtensions :: !Supported(runtime.extensions, c.layers, e)) ==>
              c.result == -9)
        && ((forall e | e in request.enabledExtensions :: Supported(runtime.extensions, c.layers, e)) ==>
              c.result == ThroughLayers(request.forwarding, 0, |c.layers|,
                if request.infoResult < 0 then request.infoResult else request.reply(c.extensions).result))
  {
    hide RuntimeLoadOf, LayerSelection.LoadingResult, ChainExtensions, ThroughLayers, Supported;
  }

  /** A request without layers, to a runtime that knows debug utils but refuses the messenger asked for. */
  function RefusedMessenger(): CreateRequest {
    var negotiation := RuntimeReply(XR_SUCCESS, true, 1, 1, 0, XR_ERROR_RUNTIME_FAILURE, None);
    CreateRequest(true, RuntimeDiscovery(XR_SUCCESS, [RuntimeBehaviour(true, None, Some(negotiation), [DEBUG_UTILS])]),
      LayerSelection.Discovery(XR_SUCCESS, []), LayerSelection.Discovery(XR_SUCCESS, []), "", Some([]),
      _ => LayerSelection.Behaviour(false, None, None), [DEBUG_UTILS], XR_SUCCESS, _ => Faithful,
      _ => InstanceReply(XR_SUCCESS, 7, Table(true)),
      Some(MessengerRequest(Faithful, XR_ERROR_RUNTIME_FAILURE, 8, "sink")))
  }

  lemma RefusedMessengerStrands()
    ensures var request := RefusedMessenger();
      && request.Valid() && request.versionSupported
      && OutcomeOf(request, CreationOf(request, None, false, false)) == CreateOutcome(XR_ERROR_VALIDATION_FAILURE, true)
  {
    var request := RefusedMessenger();
    assert LayerSelection.RequestedNames("", Some([])) == [];
    assert LayersOf(request, false, false) == LayerSelection.Loading(XR_SUCCESS, []);
    var runtime := RuntimeLoadOf(None, request.discovery, false, false);
    assert runtime == RuntimeLoad(XR_SUCCESS, [DEBUG_UTILS]);
    assert DEBUG_UTILS in runtime.extensions;
  }

  const FORWARDING_LAYER := LayerSelection.Manifest("layer.json", "layer", [])

  /** A request that goes well, with one implicit layer, and asks for no messenger. */
  function OneLayer(): CreateRequest {
    var negotiation := RuntimeReply(XR_SUCCESS, true, 1, 1, 0, XR_ERROR_RUNTIME_FAILURE, None);
    var loads := LayerSelection.Negotiation(XR_SUCCESS, true, XR_ERROR_RUNTIME_FAILURE, None);
    CreateRequest(true, RuntimeDiscovery(XR_SUCCESS, [RuntimeBehaviour(true, None, Some(negotiation), [])]),
      LayerSelection.Discovery(XR_SUCCESS, [FORWARDING_LAYER]), LayerSelection.Discovery(XR_SUCCESS, []), "", Some([]),
      _ => LayerSelection.Behaviour(true, None, Some(loads)), [], XR_SUCCESS, _ => Faithful,
      _ => InstanceReply(XR_SUCCESS, 7, Table(false)), None)
  }

  lemma OneLayerCreates()
    ensures var request := OneLayer();
      && request.Valid() && request.versionSupported && request.messenger.None?
      && CreationOf(request, None, false, false) ==
         Creation(XR_SUCCESS, [LayerSelection.InfoOf(FORWARDING_LAYER)], [])
      && request.reply([]) == InstanceReply(XR_SUCCESS, 7, Table(false))
  {
    var request := OneLayer();
    assert RuntimeLoadOf(None, request.discovery, false, false) == RuntimeLoad(XR_SUCCESS, []);
    OneLayerLoads();
    hide LayersOf, LayerSelection.InfoOf, RuntimeLoadOf;
    assert ChainExtensions([], []) == [];
    var layers := [LayerSelection.InfoOf(FORWARDING_LAYER)];
    assert AllSupported([], [], layers);
    assert request.forwarding(0).Faithful?;
    assert ThroughLayers(request.forwarding, 1, 1, XR_SUCCESS) == XR_SUCCESS;
    assert ThroughLayers(request.forwarding, 0, 1, XR_SUCCESS) == XR_SUCCESS;
    assert InstanceResult(request, [], layers) == XR_SUCCESS;
  }

  lemma OneLayerLoads()
    ensures LayersOf(OneLayer(), false, false) ==
            LayerSelection.Loading(XR_SUCCESS, [LayerSelection.InfoOf(FORWARDING_LAYER)])
  {
    hide LayerSelection.InfoOf;
    var request := OneLayer();
    assert LayerSelection.RequestedNames("", Some([])) == [];
    assert LayerSelection.EnabledManifests(request.implicit, request.explicit, []) == [FORWARDING_LAYER];
    var outcomes := LayerSelection.Outcomes(request.layerBehaviours, LayerSelection.InitState(false, false, false), 1);
    assert outcomes == [LayerSelection.Loaded];
    assert outcomes[..0] == [] && [FORWARDING_LAYER][..0] == [];
    assert LayerSelection.Folded(outcomes).error == XR_SUCCESS;
    assert LayerSelection.LoadedInfos([FORWARDING_LAYER], outcomes) == [LayerSelection.InfoOf(FORWARDING_LAYER)];
    assert LayerSelection.FirstAbort(outcomes) == 1;
  }

  // ---------- The loader's state ----------

  /** The log recorders, the ids recorded for each instance, and the messengers that the runtime tracks. */
  datatype Records = Records(
    recorders: seq<Recorder>,
    byInstance: map<Instance, set<nat>>,
    tracked: map<Messenger, Instance>)
  {
    ghost predicate InSync() { Synced(recorders, byInstance, tracked) }

    function Add(instance: Instance, m: MessengerRequest): Records {
      Records(recorders + [Recorder(m.handle, m.sink)],
              byInstance[instance := IdsOf(byInstance, instance) + {m.handle}],
              tracked[m.handle := instance])
    }

    function Remove(m: Messenger): Records {
      Records(Kept(recorders, {m}), map h | h in byInstance :: byInstance[h] - {m}, tracked - {m})
    }

    /** After a destroy call that reaches the terminator or not: the runtime is unloaded in any case. */
    function Unloaded(instance: Instance, reaches: bool): Records {
      if reaches then Records(Kept(recorders, IdsOf(byInstance, instance)), byInstance - {instance}, map[])
      else Records(recorders, byInstance, map[])
    }
  }

  /** The active instance, with its table in the runtime. */
  datatype ActiveInstance = ActiveInstance(handle: Instance, layers: seq<LayerInfo>, table: Table,
      defaultMessenger: Messenger)

  /** What calls depend on and change; `runtime` are the extensions of the loaded runtime. */
  datatype LoaderState = LoaderState(
    runtime: Option<seq<string>>,
    instance: Option<ActiveInstance>,
    records: Records,
    initialized: bool,
    overrides: map<string, string>)

  /** What a call returns, and the state it leaves. */
  datatype Answered = Answered(result: XrResult, state: LoaderState)

  /** A messenger is added wherever the runtime makes one, even if a layer then fails the call. */
  function MessengerCall(records: Records, instance: Instance, m: MessengerRequest, hasLayers: bool, table: Table)
    : Records
  {
    if Reaches(m.forwarding, hasLayers) && Succeeded(MessengerResult(m, table)) then records.Add(instance, m)
    else records
  }

  function DefaultMessengerCall(records: Records, instance: Instance, m: Option<MessengerRequest>, hasLayers: bool,
      table: Table): Records
  {
    if m.None? then records else MessengerCall(records, instance, m.value, hasLayers, table)
  }

  function Initialized(s: LoaderState, required: bool, chain: seq<LoaderInit.InitStruct>): Answered {
    if s.instance.Some? then Answered(XR_ERROR_INITIALIZATION_FAILED, s)
    else
      var accepted := LoaderInit.Accepted(required, chain);
      Answered(if accepted then XR_SUCCESS else XR_ERROR_VALIDATION_FAILURE,
               s.(runtime := None, initialized := s.initialized || accepted,
                  overrides := LoaderInit.OverridesAfter(s.overrides, chain)))
  }

  function Enumerated(s: LoaderState, required: bool, discovery: RuntimeDiscovery): Answered {
    var load := RuntimeLoadOf(s.runtime, discovery, required, s.initialized);
    Answered(load.result, if Succeeded(load.result) then s.(runtime := Some(load.extensions)) else s)
  }

  function Created(s: LoaderState, required: bool, request: CreateRequest): Answered {
    if !request.versionSupported then Answered(XR_ERROR_API_VERSION_UNSUPPORTED, s)
    else if s.instance.Some? then Answered(XR_ERROR_LIMIT_REACHED, s)
    else
      var creation := CreationOf(request, s.runtime, required, s.initialized);
      var outcome := OutcomeOf(request, creation);
      var reply := request.reply(creation.extensions);
      if !outcome.active then Answered(outcome.result, s.(runtime := None))
      else
        var hasLayers := creation.layers != [];
        var messenger :=
          if request.messenger.Some? && Succeeded(outcome.result) then request.messenger.value.handle else 0;
        Answered(outcome.result, s.(
          runtime := Some(RuntimeLoadOf(s.runtime, request.discovery, required, s.initialized).extensions),
          instance := Some(ActiveInstance(reply.handle, creation.layers, reply.table, messenger)),
          records := DefaultMessengerCall(s.records, reply.handle, request.messenger, hasLayers, reply.table)))
  }

  function Destroyed(s: LoaderState, instance: Instance, messengerForwarded: bool, destroyForwarded: bool): Answered {
    if instance == 0 || s.instance.None? then Answered(XR_ERROR_HANDLE_INVALID, s)
    else
      var a := s.instance.value;
      var withoutDefault :=
        if a.defaultMessenger != 0 && (messengerForwarded || a.layers == []) then s.records.Remove(a.defaultMessenger)
        else s.records;
      Answered(XR_SUCCESS, s.(runtime := None, instance := None,
        records := withoutDefault.Unloaded(instance, destroyForwarded || a.layers == [])))
  }

  function MessengerCreated(s: LoaderState, instance: Instance, m: MessengerRequest): Answered {
    if instance == 0 || s.instance.None? then Answered(XR_ERROR_HANDLE_INVALID, s)
    else
      var a := s.instance.value;
      Answered(MessengerThroughLayers(m, a.layers != [], a.table),
               s.(records := MessengerCall(s.records, instance, m, a.layers != [], a.table)))
  }

  function MessengerDestroyed(s: LoaderState, m: Messenger, forwarded: bool): Answered {
    if m == 0 || s.instance.None? then Answered(XR_ERROR_HANDLE_INVALID, s)
    else
      Answered(XR_SUCCESS,
               if forwarded || s.instance.value.layers == [] then s.(records := s.records.Remove(m)) else s)
  }

  /** Every call, as a step of the state machine. */
  function Performed(s: LoaderState, required: bool, step: Step): Answered {
    match step
    case InitializeStep(chain) => Initialized(s, required, chain)
    case EnumerateStep(discovery) => Enumerated(s, required, discovery)
    case CreateStep(request) => Created(s, required, request)
    case DestroyStep(instance, messengerForwarded, destroyForwarded) =>
      Destroyed(s, instance, messengerForwarded, destroyForwarded)
    case CreateMessengerStep(owner, m) => MessengerCreated(s, owner, m)
    case DestroyMessengerStep(m, forwarded) => MessengerDestroyed(s, m, forwarded)
  }

  // ---------- The steps, field by field ----------

  /** Initialization is refused while an instance is active. Otherwise it unloads the runtime, takes over the overrides
      even where it then fails, and never takes back an earlier success. */
  lemma InitializeStepIs(s: LoaderState, required: bool, chain: seq<LoaderInit.InitStruct>)
    ensures var a := Performed(s, required, InitializeStep(chain));
      var accepted := LoaderInit.Accepted(required, chain);
      if s.instance.Some? then a == Answered(-6, s)
      else
        && a.result == (if accepted then 0 else -1)
        && a.state == LoaderState(None, None, s.records, s.initialized || accepted,
                                  LoaderInit.OverridesAfter(s.overrides, chain))
  {}

  /** Of two initializations in a run, the properties of the second replace those of the first. */
  lemma SecondInitializeReplaces(s: LoaderState, required: bool, first: seq<LoaderInit.InitStruct>,
      second: seq<LoaderInit.InitStruct>, i: int, name: string, k: int)
    requires s.instance.None? && LoaderInit.PropertiesAt(second, i)
    requires LoaderInit.FirstNamed(second[i].propertyValues, name, k)
    requires forall v | v in second[i].propertyValues :: v.name.Some? && v.value.Some? && v.name.value != ""
    ensures var values := second[i].propertyValues;
      var after := AfterAll(s, required, [InitializeStep(first), InitializeStep(second)]).overrides;
      if k < |values| then name in after && after[name] == values[k].value.value else name !in after
  {
    hide LoaderInit.OverridesAfter, LoaderInit.Accepted, LoaderInit.PropertiesAt, LoaderInit.FirstNamed;
    var next := Next(s, required, InitializeStep(first));
    AfterTwo(s, required, InitializeStep(first), InitializeStep(second));
    LoaderInit.OverridesAre(next.overrides, second, i, name, k);
  }

  lemma AfterTwo(s: LoaderState, required: bool, first: Step, second: Step)
    ensures AfterAll(s, required, [first, second]) == Next(Next(s, required, first), required, second)
  {
    hide Next;
    assert [first, second][1..] == [second];
    assert AfterAll(Next(s, required, first), required, [second]) == Next(Next(s, required, first), required, second);
  }

  /** Listing extensions loads a runtime if none is loaded, and changes nothing else. */
  lemma EnumerateStepIs(s: LoaderState, required: bool, discovery: RuntimeDiscovery)
    ensures var load := RuntimeLoadOf(s.runtime, discovery, required, s.initialized);
      Performed(s, required, EnumerateStep(discovery)) ==
      Answered(load.result, LoaderState(if load.result >= 0 then Some(load.extensions) else s.runtime, s.instance,
                                        s.records, s.initialized, s.overrides))
  {
    hide RuntimeLoadOf;
  }

  /** A create is refused for an unsupported version and while an instance is active. If it fails before its instance
      is active no runtime stays loaded; otherwise the runtime, the instance and its messenger stay. */
  lemma CreateStepIs(s: LoaderState, required: bool, request: CreateRequest)
    ensures var a := Performed(s, required, CreateStep(request));
      var c := CreationOf(request, s.runtime, required, s.initialized);
      var reply := request.reply(c.extensions);
      if !request.versionSupported then a == Answered(-4, s)
      else if s.instance.Some? then a == Answered(-10, s)
      else if c.result < 0 then a == Answered(c.result, s.(runtime := None))
      else
        var runtime := Some(RuntimeLoadOf(s.runtime, request.discovery, required, s.initialized).extensions);
        match request.messenger
        case None =>
          a == Answered(0, s.(runtime := runtime,
                              instance := Some(ActiveInstance(reply.handle, c.layers, reply.table, 0))))
        case Some(m) =>
          var made := MessengerThroughLayers(m, c.layers != [], reply.table);
          a == Answered(if made < 0 then -1 else made,
            s.(runtime := runtime,
               instance := Some(ActiveInstance(reply.handle, c.layers, reply.table, if made < 0 then 0 else m.handle)),
               records := MessengerCall(s.records, reply.handle, m, c.layers != [], reply.table)))
  {
    hide RuntimeLoadOf, CreationOf, MessengerThroughLayers, MessengerCall;
  }

  /** Making a messenger: the result, and what is recorded if the call reaches a runtime that makes one. A runtime
      without debug utils counts as making it. */
  lemma MessengerMade(records: Records, owner: Instance, m: MessengerRequest, hasLayers: bool, table: Table)
    ensures var result := MessengerThroughLayers(m, hasLayers, table);
      var after := MessengerCall(records, owner, m, hasLayers, table);
      var made := if table.hasDebugUtils then m.runtimeResult else 0;
      if hasLayers && m.forwarding.FailsBefore? then result == m.forwarding.error && after == records
      else if made < 0 then result == made && after == records
      else
        && result == (if hasLayers && m.forwarding.FailsAfter? then m.forwarding.error else made)
        && after.recorders == records.recorders + [Recorder(m.handle, m.sink)]
        && after.tracked == records.tracked[m.handle := owner]
        && after.byInstance.Keys == records.byInstance.Keys + {owner}
        && forall h | h in after.byInstance :: after.byInstance[h] ==
             (if h in records.byInstance then records.byInstance[h] else {}) + if h == owner then {m.handle} else {}
  {}

  lemma CreateMessengerStepIs(s: LoaderState, required: bool, owner: Instance, m: MessengerRequest)
    ensures var a := Performed(s, required, CreateMessengerStep(owner, m));
      if owner == 0 || s.instance.None? then a == Answered(-12, s)
      else
        var i := s.instance.value;
        a == Answered(MessengerThroughLayers(m, i.layers != [], i.table),
                      s.(records := MessengerCall(s.records, owner, m, i.layers != [], i.table)))
  {
    hide MessengerThroughLayers, MessengerCall;
  }

  /** One messenger taken out of all three containers, and nothing else. */
  lemma RemovedOne(records: Records, m: Messenger)
    ensures var after := records.Remove(m);
      && (forall r :: r in after.recorders <==> r in records.recorders && r.uniqueId != m)
      && (forall x :: x in after.tracked <==> x in records.tracked && x != m)
      && (forall x | x in after.tracked :: after.tracked[x] == records.tracked[x])
      && after.byInstance.Keys == records.byInstance.Keys
      && (forall h, x | h in after.byInstance ::
            x in after.byInstance[h] <==> x in records.byInstance[h] && x != m)
  {
    hide Kept;
    forall r
      ensures r in Kept(records.recorders, {m}) <==> r in records.recorders && r.uniqueId != m
    {
      KeptMembers(records.recorders, {m}, r);
    }
  }

  /** The messengers of one instance taken out, if the destroy call reaches the terminator; none is tracked anyway. */
  lemma UnloadedIs(records: Records, instance: Instance, reaches: bool)
    ensures var after := records.Unloaded(instance, reaches);
      && after.tracked == map[]
      && (!reaches ==> after.recorders == records.recorders && after.byInstance == records.byInstance)
      && (reaches ==>
            && (forall r :: r in after.recorders <==>
                  (r in records.recorders &&
                   !(instance in records.byInstance && r.uniqueId in records.byInstance[instance])))
            && (forall h :: h in after.byInstance <==> h in records.byInstance && h != instance)
            && (forall h | h in after.byInstance :: after.byInstance[h] == records.byInstance[h]))
  {
    hide Kept;
    forall r
      ensures r in Kept(records.recorders, IdsOf(records.byInstance, instance)) <==>
              r in records.recorders && r.uniqueId !in IdsOf(records.byInstance, instance)
    {
      KeptMembers(records.recorders, IdsOf(records.byInstance, instance), r);
    }
  }

  /** Destroying a messenger removes it, if the call reaches the runtime. */
  lemma DestroyMessengerStepIs(s: LoaderState, required: bool, m: Messenger, forwarded: bool)
    ensures Performed(s, required, DestroyMessengerStep(m, forwarded)) ==
      if m == 0 || s.instance.None? then Answered(-12, s)
      else if !forwarded && s.instance.value.layers != [] then Answered(0, s)
      else Answered(0, s.(records := s.records.Remove(m)))
  {
    hide Records.Remove;
  }

  /** Destroying the instance unloads the runtime in every case. The default messenger is removed if that call reaches
      the runtime, and the instance's records are if the destroy call itself does. */
  lemma DestroyStepIs(s: LoaderState, required: bool, instance: Instance, messengerForwarded: bool,
      destroyForwarded: bool)
    ensures var a := Performed(s, required, DestroyStep(instance, messengerForwarded, destroyForwarded));
      if instance == 0 || s.instance.None? then a == Answered(-12, s)
      else
        var i := s.instance.value;
        var first := if i.defaultMessenger != 0 && (messengerForwarded || i.layers == []) then
            s.records.Remove(i.defaultMessenger)
          else s.records;
        a == Answered(0, LoaderState(None, None, first.Unloaded(instance, destroyForwarded || i.layers == []),
                                     s.initialized, s.overrides))
  {
    hide Records.Remove, Records.Unloaded;
  }

  /** Handles are null, or live and of the application's own; a new messenger's handle is not that of a live one. */
  predicate Allowed(s: LoaderState, step: Step) {
    match step
    case DestroyStep(instance, _, _) => instance == 0 || s.instance.None? || instance == s.instance.value.handle
    case CreateMessengerStep(owner, m) =>
      m.handle !in s.records.tracked && (owner == 0 || s.instance.None? || owner == s.instance.value.handle)
    case DestroyMessengerStep(m, _) =>
      m == 0 || s.instance.None? || (m in s.records.tracked && m != s.instance.value.defaultMessenger)
    case _ => true
  }

  lemma AlwaysAllowed(s: LoaderState, request: CreateRequest)
    ensures Allowed(s, CreateStep(request))
  {}

  /** A call that misuses a handle is passed over. */
  function AfterAll(s: LoaderState, required: bool, steps: seq<Step>): LoaderState
    decreases |steps|
  {
    if steps == [] then s
    else AfterAll(Next(s, required, steps[0]), required, steps[1..])
  }

  function Next(s: LoaderState, required: bool, step: Step): LoaderState {
    if Allowed(s, step) then Performed(s, required, step).state else s
  }

  /** An active instance is backed by a runtime, and all messengers are its own. */
  ghost predicate Backed(s: LoaderState) {
    && IdsNonZero(s.records.byInstance)
    && match s.instance
       case None => s.records.tracked == map[]
       case Some(a) =>
         && s.runtime.Some? && a.handle != 0
         && (forall m | m in s.records.tracked :: m != 0 && s.records.tracked[m] == a.handle)
         && (a.defaultMessenger != 0 ==> a.defaultMessenger in s.records.tracked)
  }

  /** A destroy call that a layer swallows while some messenger is left. */
  predicate Swallows(s: LoaderState, step: Step) {
    && step.DestroyStep? && step.instance != 0 && s.instance.Some?
    && var a := s.instance.value;
       && !step.destroyForwarded && a.layers != []
       && !(s.records.tracked.Keys <= if step.messengerForwarded then {a.defaultMessenger} else {})
  }

  lemma AddInSync(r: Records, instance: Instance, m: MessengerRequest)
    requires r.InSync() && m.handle != 0 && m.handle !in r.tracked
    ensures r.Add(instance, m).InSync() && Defaults(r.Add(instance, m).recorders) == Defaults(r.recorders)
  {
    SyncedAdd(r.recorders, r.byInstance, r.tracked, instance, Recorder(m.handle, m.sink));
  }

  lemma RemoveInSync(r: Records, m: Messenger)
    requires r.InSync() && m != 0
    ensures r.Remove(m).InSync() && Defaults(r.Remove(m).recorders) == Defaults(r.recorders)
  {
    SyncedRemove(r.recorders, r.byInstance, r.tracked, m);
    KeptDefaults(r.recorders, {m});
  }

  lemma UnloadedInSyncIff(r: Records, instance: Instance, reaches: bool)
    requires r.InSync() && IdsNonZero(r.byInstance) && forall m | m in r.tracked :: r.tracked[m] == instance
    ensures r.Unloaded(instance, reaches).InSync() <==> reaches || r.tracked.Keys == {}
    ensures Defaults(r.Unloaded(instance, reaches).recorders) == Defaults(r.recorders)
  {
    NoKeys(r.tracked);
    if reaches {
      SyncedDestroy(r.recorders, r.byInstance, r.tracked, instance);
      KeptDefaults(r.recorders, IdsOf(r.byInstance, instance));
    } else {
      SyncedWithoutRuntimeIff(r.recorders, r.byInstance, r.tracked);
    }
  }

  /** Exactly when a call leaves recorders, recorded ids and tracked messengers in step. */
  lemma StaysInSyncIff(s: LoaderState, required: bool, step: Step)
    requires Backed(s) && s.records.InSync() && step.Valid() && Allowed(s, step)
    ensures Performed(s, required, step).state.records.InSync() <==> !Swallows(s, step)
    ensures Defaults(Performed(s, required, step).state.records.recorders) == Defaults(s.records.recorders)
  {
    hide CreationOf, Synced, Defaults, RuntimeLoadOf, Records.Add, Records.Remove, Records.Unloaded;
    match step {
      case CreateStep(request) =>
        if request.messenger.Some? && request.messenger.value.handle !in s.records.tracked {
          AddInSync(s.records, request.reply(CreationOf(request, s.runtime, required, s.initialized).extensions).handle,
            request.messenger.value);
        }
      case DestroyStep(instance, messengerForwarded, destroyForwarded) =>
        if instance != 0 && s.instance.Some? {
          DestroyedInSyncIff(s, instance, messengerForwarded, destroyForwarded);
        }
      case CreateMessengerStep(owner, m) => AddInSync(s.records, owner, m);
      case DestroyMessengerStep(m, _) =>
        if m != 0 {
          RemoveInSync(s.records, m);
        }
      case _ =>
    }
  }

  lemma DestroyedInSyncIff(s: LoaderState, instance: Instance, messengerForwarded: bool, destroyForwarded: bool)
    requires Backed(s) && s.records.InSync() && s.instance.Some? && instance == s.instance.value.handle
    ensures var after := Destroyed(s, instance, messengerForwarded, destroyForwarded).state.records;
      && (after.InSync() <==> !Swallows(s, DestroyStep(instance, messengerForwarded, destroyForwarded)))
      && Defaults(after.recorders) == Defaults(s.records.recorders)
  {
    hide Synced, Defaults, Kept;
    var a := s.instance.value;
    var forwarded := messengerForwarded || a.layers == [];
    if a.defaultMessenger != 0 && forwarded {
      RemoveInSync(s.records, a.defaultMessenger);
      var left := s.records.Remove(a.defaultMessenger);
      assert left.tracked.Keys == s.records.tracked.Keys - {a.defaultMessenger};
      UnloadedInSyncIff(left, instance, destroyForwarded || a.layers == []);
    } else {
      UnloadedInSyncIff(s.records, instance, destroyForwarded || a.layers == []);
    }
  }

  /** Every call keeps that. */
  lemma KeepsBacked(s: LoaderState, required: bool, step: Step)
    requires Backed(s) && step.Valid() && Allowed(s, step)
    ensures Backed(Performed(s, required, step).state)
  {
    hide RuntimeLoadOf, LayersOf, InstanceResult, ChainExtensions;
    match step {
      case CreateStep(request) => KeepsBackedByCreate(s, required, request);
      case _ =>
    }
  }

  lemma KeepsBackedByCreate(s: LoaderState, required: bool, request: CreateRequest)
    requires Backed(s) && request.Valid()
    ensures Backed(Created(s, required, request).state)
  {
    var creation := CreationOf(request, s.runtime, required, s.initialized);
    CreatedHandle(request, s.runtime, required, s.initialized);
    hide CreationOf, RuntimeLoadOf, MessengerCall, MessengerThroughLayers, IdsNonZero;
    var reply := request.reply(creation.extensions);
    if s.instance.None? && request.messenger.Some? {
      FirstMessenger(s.records, reply.handle, request.messenger.value, creation.layers != [], reply.table);
    }
  }

  /** A messenger made without others is the only one tracked, and it is if the call succeeds. */
  lemma FirstMessenger(records: Records, instance: Instance, m: MessengerRequest, hasLayers: bool, table: Table)
    requires records.tracked == map[] && IdsNonZero(records.byInstance) && m.Valid()
    ensures var after := MessengerCall(records, instance, m, hasLayers, table);
      && IdsNonZero(after.byInstance)
      && (forall x | x in after.tracked :: x != 0 && after.tracked[x] == instance)
      && (Succeeded(MessengerThroughLayers(m, hasLayers, table)) ==> m.handle in after.tracked)
  {}

  /** An instance that is created has a handle. */
  lemma CreatedHandle(request: CreateRequest, loaded: Option<seq<string>>, required: bool, initialized: bool)
    requires request.Valid()
    ensures var creation := CreationOf(request, loaded, required, initialized);
      Succeeded(creation.result) ==> request.reply(creation.extensions).handle != 0
  {
    hide RuntimeLoadOf, LayersOf, AllSupported, ChainExtensions;
    var runtime := RuntimeLoadOf(loaded, request.discovery, required, initialized).extensions;
    ThroughSucceedsIff(request.forwarding, 0, |LayersOf(request, required, initialized).loaded|,
      TerminatorResult(request, ChainExtensions(request.enabledExtensions, runtime)));
  }

  ghost predicate InSyncThroughout(s: LoaderState, required: bool, steps: seq<Step>)
    decreases |steps|
  {
    s.records.InSync() && (steps == [] || InSyncThroughout(Next(s, required, steps[0]), required, steps[1..]))
  }

  ghost predicate NoneSwallowed(s: LoaderState, required: bool, steps: seq<Step>)
    decreases |steps|
  {
    || steps == []
    || (!(Allowed(s, steps[0]) && Swallows(s, steps[0])) &&
        NoneSwallowed(Next(s, required, steps[0]), required, steps[1..]))
  }

  /** Exactly when a run keeps them in step throughout: no destroy call is swallowed while some messenger is left. */
  lemma {:induction false} InSyncThroughoutIff(s: LoaderState, required: bool, steps: seq<Step>)
    requires Backed(s) && s.records.InSync() && forall step | step in steps :: step.Valid()
    ensures InSyncThroughout(s, required, steps) <==> NoneSwallowed(s, required, steps)
    decreases |steps|
  {
    if steps != [] {
      hide Performed, Allowed, Swallows, Backed, Synced;
      assert steps[0] in steps && forall step | step in steps[1..] :: step in steps;
      if Allowed(s, steps[0]) {
        StaysInSyncIff(s, required, steps[0]);
        KeepsBacked(s, required, steps[0]);
      }
      if Next(s, required, steps[0]).records.InSync() {
        InSyncThroughoutIff(Next(s, required, steps[0]), required, steps[1..]);
      }
    }
  }

  /** While nobody destroys the active instance it stays as it is, whatever else is called: in particular every create
      is refused. */
  lemma {:induction false} ActiveUntilDestroyed(s: LoaderState, required: bool, steps: seq<Step>)
    requires s.instance.Some? && s.runtime.Some?
    requires forall step | step in steps :: step.DestroyStep? ==> step.instance == 0
    ensures var t := AfterAll(s, required, steps); t.instance == s.instance && t.runtime == s.runtime
    decreases |steps|
  {
    if steps != [] {
      var step := steps[0];
      assert step in steps && forall x | x in steps[1..] :: x in steps;
      var next := Next(s, required, step);
      assert next.instance == s.instance && next.runtime == s.runtime by {
        hide CreationOf;
      }
      ActiveUntilDestroyed(next, required, steps[1..]);
    }
  }

  // ---------- Two runs ----------

  /** The state of a loader without default recorders. */
  const NEW_STATE := LoaderState(None, None, Records([], map[], map[]), false, map[])

  lemma RefusedMessengerState()
    ensures var after := Created(NEW_STATE, false, RefusedMessenger());
      after.result == XR_ERROR_VALIDATION_FAILURE && after.state.instance.Some? && after.state.runtime.Some?
  {
    RefusedMessengerStrands();
    hide CreationOf, RuntimeLoadOf, OutcomeOf;
  }

  const SINK := MessengerRequest(Faithful, XR_SUCCESS, 8, "sink")

  function OneLayerState(): LoaderState {
    NEW_STATE.(runtime := Some([]),
      instance := Some(ActiveInstance(7, [LayerSelection.InfoOf(FORWARDING_LAYER)], Table(false), 0)))
  }

  lemma OneLayerIsCreated()
    ensures Performed(NEW_STATE, false, CreateStep(OneLayer())) == Answered(XR_SUCCESS, OneLayerState())
  {
    OneLayerCreates();
    assert RuntimeLoadOf(None, OneLayer().discovery, false, false) == RuntimeLoad(XR_SUCCESS, []);
    hide CreationOf, RuntimeLoadOf, LayerSelection.InfoOf, OneLayer;
  }

  /** A messenger, and a destroy call that the layer swallows: the recorder stays, and the containers fall out of
      step. */
  lemma OneLayerSwallows()
    ensures var made := Performed(OneLayerState(), false, CreateMessengerStep(7, SINK));
      var destroyed := Performed(made.state, false, DestroyStep(7, false, false));
      && Allowed(OneLayerState(), CreateMessengerStep(7, SINK)) && made.result == XR_SUCCESS
      && Allowed(made.state, DestroyStep(7, false, false)) && destroyed.result == XR_SUCCESS
      && destroyed.state.instance.None?
      && destroyed.state.records == Records([Recorder(8, "sink")], map[7 := {8}], map[])
      && OneLayerState().records.InSync() && !destroyed.state.records.InSync()
  {
    hide LayerSelection.InfoOf;
    var made := Performed(OneLayerState(), false, CreateMessengerStep(7, SINK));
    assert IdsOf(map[], 7) + {8} == {8} && [] + [Recorder(8, "sink")] == [Recorder(8, "sink")];
    assert made.state.records == Records([Recorder(8, "sink")], map[7 := {8}], map[8 := 7]);
    SwallowedDestroy(7, 8);
  }
}
