/** The loader's classes (loader_core.cpp): the active instance, the loaded runtime, the open libraries and the log
    recorders, under every call of the application and every answer of runtime and layers. */
module Loader {
  import opened Wrappers
  import opened LoaderPlatform
  import opened RuntimeInterfaces
  import opened LoaderLogging
  import opened LayerChain
  import opened LoaderStates
  import LayerSelection
  import LoaderInit

  type ApiLayer = LayerSelection.ApiLayer

  class LoaderInstance {
    const handle: Instance
    const layers: seq<ApiLayer>
    var defaultMessenger: Messenger

    constructor (handle: Instance, layers: seq<ApiLayer>)
      ensures this.handle == handle && this.layers == layers && defaultMessenger == 0
    {
      this.handle, this.layers, defaultMessenger := handle, layers, 0;
    }
  }

  /** A layer's entry points are known by its library. */
  function Interfaces(layers: seq<ApiLayer>): (interfaces: seq<LayerInterface>)
    ensures |interfaces| == |layers|
  {
    seq(|layers|, i requires 0 <= i < |layers| =>
      LayerInterface(layers[i].info, 2 * layers[i].library, 2 * layers[i].library + 1))
  }

  const TERM_GET_INSTANCE_PROC_ADDR: EntryPoint := -1
  const TERM_CREATE_API_LAYER_INSTANCE: EntryPoint := -2
  const TERM_CREATE_INSTANCE: EntryPoint := -3

  /** The calls made to create an instance: the terminator's alone, or down the chain as far as the layers forward. */
  function CreateCalls(layers: seq<LayerInterface>, forwarding: nat -> Forwarding): seq<Call> {
    if layers == [] then [Call(TERM_CREATE_INSTANCE, None)]
    else AllCalls(layers, TERM_CREATE_API_LAYER_INSTANCE)[..Depth(forwarding, 0, |layers|) + 1]
  }

  /** Call by call, where layer `d` is the first that does not forward it, or their number: each layer above is called
      once, in order and under its own name, and the terminator if all of them forward. */
  lemma CreateCallsAre(layers: seq<LayerInterface>, forwarding: nat -> Forwarding, d: nat)
    requires d <= |layers| && forall i | 0 <= i < d :: !forwarding(i).FailsBefore?
    requires d < |layers| ==> forwarding(d).FailsBefore?
    ensures var calls := CreateCalls(layers, forwarding);
      && |calls| == d + 1
      && (forall i | 0 <= i <= d && i < |layers| ::
            calls[i] == Call(layers[i].createApiLayerInstance, Some(TruncatedName(layers[i].info.layerName))))
      && (d == |layers| ==>
            calls[d] == Call(if layers == [] then TERM_CREATE_INSTANCE else TERM_CREATE_API_LAYER_INSTANCE, None))
  {
    hide TruncatedName;
    assert Depth(forwarding, 0, |layers|) == d;
  }

  /** That request leaves an instance whose handle the application never learns. Whatever it calls then, the instance
      stays active and no create succeeds. */
  method StrandedInstance(steps: seq<Step>, last: CreateRequest)
    returns (first: XrResult, handle: Instance, retry: XrResult, active: bool)
    requires forall step | step in steps :: step.Valid() && (step.DestroyStep? ==> step.instance == 0)
    requires last.Valid() && last.versionSupported
    ensures first == XR_ERROR_VALIDATION_FAILURE && handle == 0
    ensures retry == XR_ERROR_LIMIT_REACHED && active
  {
    var loader := new Loader(false, []);
    RefusedMessengerState();
    RefusedMessengerStrands();
    hide Created, RefusedMessenger, Performed, OutcomeOf;
    assert loader.View() == NEW_STATE;
    first, handle := loader.CreateInstance(RefusedMessenger());
    retry, active := CreateAgain(loader, steps, last);
  }

  /** While an instance is active and nobody destroys it, no create succeeds, whatever is called before. */
  method CreateAgain(loader: Loader, steps: seq<Step>, last: CreateRequest) returns (retry: XrResult, active: bool)
    requires loader.Valid() && loader.active != null
    requires forall step | step in steps :: step.Valid() && (step.DestroyStep? ==> step.instance == 0)
    requires last.Valid() && last.versionSupported
    modifies loader`runtime, loader`active, loader.platform, loader.logger, loader.initData, loader.runtime
    ensures retry == XR_ERROR_LIMIT_REACHED && active
  {
    hide Created, Performed, OutcomeOf, Synced;
    ActiveUntilDestroyed(loader.View(), loader.initData.required, steps);
    loader.Run(steps);
    var unused;
    retry, unused := loader.CreateInstance(last);
    active := loader.active != null;
  }

  /** An instance with one layer and one messenger, destroyed by a call that the layer swallows: instance and runtime
      are gone, and the messenger's recorder stays. */
  method SwallowedInstance() returns (destroyed: XrResult, recorders: seq<Recorder>, active: bool)
    ensures destroyed == XR_SUCCESS && recorders == [Recorder(8, "sink")] && !active
  {
    var loader := new Loader(false, []);
    OneLayerCreates();
    OneLayerIsCreated();
    OneLayerSwallows();
    hide Performed, OneLayer, OneLayerState, Synced, Allowed;
    assert loader.View() == NEW_STATE;
    AlwaysAllowed(NEW_STATE, OneLayer());
    var created := loader.Perform(CreateStep(OneLayer()));
    var made := loader.Perform(CreateMessengerStep(7, SINK));
    destroyed := loader.Perform(DestroyStep(7, false, false));
    recorders := loader.logger.recorders;
    active := loader.active != null;
  }

  // ---------- The loader ----------

  class Loader {
    const platform: Platform
    const logger: LoaderLogger
    const initData: LoaderInit.LoaderInitData
    /** RuntimeInterface::GetInstance and the active loader instance. */
    var runtime: RuntimeInterface?
    var active: LoaderInstance?

    ghost function RuntimeLibraries(): set<Library>
      reads this, runtime
    {
      if runtime == null then {} else {runtime.library}
    }

    ghost function LayerLibraries(): set<Library>
      reads this, active
    {
      if active == null then {} else LayerSelection.Libraries(active.layers)
    }

    /** The extensions of the loaded runtime, if there is one. */
    function LoadedExtensions(): Option<seq<string>>
      reads this, runtime
    {
      if runtime == null then None else Some(runtime.supportedExtensions)
    }

    function Tracked(): map<Messenger, Instance>
      reads this, runtime
    {
      if runtime == null then map[] else runtime.messengers
    }

    ghost function AllRecords(): Records
      reads this, runtime, logger
    {
      Records(logger.recorders, logger.recordersByInstance, Tracked())
    }

    ghost function ActiveView(): Option<ActiveInstance>
      reads this, runtime, active
    {
      if active == null then None
      else
        var table := if runtime != null && active.handle in runtime.tables then runtime.tables[active.handle]
                     else Table(false);
        Some(ActiveInstance(active.handle, LayerSelection.LayerInfos(active.layers), table, active.defaultMessenger))
    }

    /** The state that the state machine is about. */
    ghost function View(): LoaderState
      reads this, runtime, active, logger, initData
    {
      LoaderState(LoadedExtensions(), ActiveView(), AllRecords(), initData.initialized, initData.overrides)
    }

    /** Each open library has one owner: the runtime, or one layer of the active instance. */
    ghost predicate LibrariesOwned()
      reads this, platform, runtime, active
    {
      && platform.Valid()
      && platform.open == RuntimeLibraries() + LayerLibraries()
      && RuntimeLibraries() !! LayerLibraries()
      && (active != null ==> LayerSelection.DistinctLibraries(active.layers))
    }

    /** At most one instance is active; it has a runtime, and that runtime has its table and no other. */
    ghost predicate InstanceBacked()
      reads this, runtime, active
    {
      && (active != null ==>
          && runtime != null && active.handle != 0 && runtime.tables.Keys == {active.handle}
          && forall m | m in runtime.messengers :: m != 0 && runtime.messengers[m] == active.handle)
      && (active == null && runtime != null ==> runtime.tables == map[] && runtime.messengers == map[])
    }

    ghost predicate Valid()
      reads this, platform, logger, runtime, active
    {
      && LibrariesOwned() && InstanceBacked() && IdsNonZero(logger.recordersByInstance)
      && (active != null && active.defaultMessenger != 0 ==> active.defaultMessenger in runtime.messengers)
    }

    ghost predicate InSync()
      reads this, logger, runtime
    {
      Synced(logger.recorders, logger.recordersByInstance, Tracked())
    }

    constructor (required: bool, defaults: seq<Recorder>)
      requires forall r | r in defaults :: r.uniqueId == 0
      ensures Valid() && InSync() && fresh(platform) && fresh(logger) && fresh(initData)
      ensures runtime == null && active == null && logger.recorders == defaults
      ensures initData.required == required
      ensures View() == LoaderState(None, None, Records(defaults, map[], map[]), false, map[])
    {
      platform := new Platform();
      logger := new LoaderLogger(defaults);
      initData := new LoaderInit.LoaderInitData(required);
      runtime, active := null, null;
    }

    // ---------- Loading and unloading the runtime ----------

    method UnloadRuntime()
      requires platform.Valid() && RuntimeLibraries() <= platform.open
      modifies this`runtime, platform
      ensures runtime == null && platform.Valid() && platform.open == old(platform.open) - old(RuntimeLibraries())
    {
      if runtime != null {
        platform.Close(runtime.library);
        runtime := null;
      }
    }

    method TryLoadingSingleRuntime(b: RuntimeBehaviour) returns (result: XrResult)
      requires platform.Valid() && runtime == null
      modifies this`runtime, platform
      ensures platform.Valid() && result == LoadResult(b, initData.required, initData.initialized)
      ensures Failed(result) ==> runtime == null && platform.open == old(platform.open)
      ensures Succeeded(result) ==>
        && runtime != null && fresh(runtime) && runtime.supportedExtensions == b.extensions
        && runtime.tables == map[] && runtime.messengers == map[]
        && runtime.library !in old(platform.open) && platform.open == old(platform.open) + {runtime.library}
    {
      var library := platform.Open(b.opens);
      if library.None? {
        return XR_ERROR_FILE_ACCESS_ERROR;
      }
      if initData.required && !initData.initialized {
        platform.Close(library.value);
        return XR_ERROR_VALIDATION_FAILURE;
      }
      var forwarded := false;
      if initData.initialized && initData.required && b.exportedInitialize.Some? {
        if !Succeeded(b.exportedInitialize.value) {
          platform.Close(library.value);
          return b.exportedInitialize.value;
        }
        forwarded := true;
      }
      var res := XR_ERROR_RUNTIME_FAILURE;
      if b.negotiation.Some? {
        var n := b.negotiation.value;
        res := n.result;
        if Succeeded(res) {
          if !n.hasGetInstanceProcAddr {
            res := XR_ERROR_FILE_CONTENTS_INVALID;
          } else if 0 >= n.interfaceVersion || XR_CURRENT_LOADER_RUNTIME_VERSION < n.interfaceVersion {
            res := XR_ERROR_FILE_CONTENTS_INVALID;
          } else if n.apiMajor != LOADER_MAJOR || (n.apiMajor == 0 && n.apiMinor == 0) {
            res := XR_ERROR_FILE_CONTENTS_INVALID;
          }
        }
        if Succeeded(res) && !forwarded && initData.required {
          if Succeeded(n.lookUpResult) {
            if n.initialize.None? {
              res := XR_ERROR_RUNTIME_FAILURE;
            } else {
              res := n.initialize.value;
            }
          }
        }
      }
      if Failed(res) {
        platform.Close(library.value);
        return res;
      }
      runtime := new RuntimeInterface(library.value, b.extensions);
      return XR_SUCCESS;
    }

    /** LoadRuntime: a loaded runtime stays, otherwise the first that loads. */
    method LoadRuntime(discovery: RuntimeDiscovery) returns (result: XrResult)
      requires platform.Valid()
      modifies this`runtime, platform
      ensures platform.Valid()
      ensures var load := RuntimeLoadOf(old(LoadedExtensions()), discovery, initData.required, initData.initialized);
        && result == load.result
        && (Succeeded(result) ==> LoadedExtensions() == Some(load.extensions))
      ensures old(runtime) != null || Failed(result) ==> runtime == old(runtime) && platform.open == old(platform.open)
      ensures old(runtime) == null && Succeeded(result) ==>
        && runtime != null && fresh(runtime) && runtime.tables == map[] && runtime.messengers == map[]
        && runtime.library !in old(platform.open) && platform.open == old(platform.open) + {runtime.library}
    {
      if runtime != null {
        return XR_SUCCESS;
      }
      if initData.required && !initData.initialized {
        return XR_ERROR_INITIALIZATION_FAILED;
      }
      var lastError := discovery.result;
      if Succeeded(lastError) {
        lastError := XR_ERROR_RUNTIME_UNAVAILABLE;
        var i := 0;
        while i < |discovery.runtimes|
          invariant 0 <= i <= |discovery.runtimes| && platform.Valid()
          invariant runtime == null && platform.open == old(platform.open) && Failed(lastError)
          invariant FirstLoading(discovery.runtimes[i..], initData.required, initData.initialized) ==
                    FirstLoading(discovery.runtimes, initData.required, initData.initialized)
        {
          assert discovery.runtimes[i..][1..] == discovery.runtimes[i + 1..];
          lastError := TryLoadingSingleRuntime(discovery.runtimes[i]);
          if Succeeded(lastError) {
            break;
          }
          i := i + 1;
        }
      }
      if Failed(lastError) {
        lastError := XR_ERROR_RUNTIME_UNAVAILABLE;
      }
      result := if Succeeded(lastError) then XR_SUCCESS else lastError;
    }

    // ---------- xrInitializeLoaderKHR and xrEnumerateInstanceExtensionProperties ----------

    /** InitializeLoaderInitData: refused while an instance is active, and unloading a runtime otherwise. */
    method Initialize(chain: seq<LoaderInit.InitStruct>) returns (result: XrResult)
      requires Valid()
      modifies this`runtime, platform, initData
      ensures Valid() && active == old(active) && (old(InSync()) ==> InSync())
      ensures old(active) != null ==>
        && result == XR_ERROR_INITIALIZATION_FAILED && runtime == old(runtime) && platform.open == old(platform.open)
        && initData.initialized == old(initData.initialized) && initData.overrides == old(initData.overrides)
      ensures old(active) == null ==>
        && runtime == null && platform.open == {}
        && var accepted := LoaderInit.Accepted(initData.required, chain);
           && result == (if accepted then XR_SUCCESS else XR_ERROR_VALIDATION_FAILURE)
           && initData.initialized == (old(initData.initialized) || accepted)
           && initData.overrides == LoaderInit.OverridesAfter(old(initData.overrides), chain)
      ensures Answered(result, View()) == Initialized(old(View()), initData.required, chain)
    {
      if active == null {
        UnloadRuntime();
      } else {
        return XR_ERROR_INITIALIZATION_FAILED;
      }
      result := initData.Initialize(chain);
    }

    /** The runtime part of an enumeration without a layer name. */
    method Enumerate(discovery: RuntimeDiscovery) returns (result: XrResult)
      requires Valid()
      modifies this`runtime, platform
      ensures Valid() && active == old(active) && (old(InSync()) ==> InSync())
      ensures old(runtime) != null ==> runtime == old(runtime)
      ensures runtime == null || runtime == old(runtime) || fresh(runtime)
      ensures var load := RuntimeLoadOf(old(LoadedExtensions()), discovery, initData.required, initData.initialized);
        result == load.result && LoadedExtensions() == if Succeeded(result) then Some(load.extensions) else None
      ensures Answered(result, View()) == Enumerated(old(View()), initData.required, discovery)
    {
      result := LoadRuntime(discovery);
    }

    // ---------- Terminators ----------

    /** `extensions` is the list that reached the terminator; the runtime's reply depends on it. */
    method TermCreateInstance(request: CreateRequest, extensions: seq<string>)
      returns (result: XrResult, instance: Instance)
      requires runtime != null && request.Valid()
      modifies runtime`tables
      ensures result == TerminatorResult(request, extensions)
      ensures var reply := request.reply(extensions);
        && runtime.tables == (if Succeeded(result) then old(runtime.tables)[reply.handle := reply.table]
                              else old(runtime.tables))
        && (Succeeded(result) ==> instance == reply.handle && instance != 0)
    {
      instance := 0;
      if Failed(request.infoResult) {
        return request.infoResult, instance;
      }
      var reply := request.reply(extensions);
      result := runtime.CreateInstance(reply);
      if Succeeded(result) {
        instance := reply.handle;
      }
    }

    method TermDestroyInstance(instance: Instance)
      requires runtime != null && instance != 0
      modifies logger, runtime`tables
      ensures logger.recorders == Kept(old(logger.recorders), IdsOf(old(logger.recordersByInstance), instance))
      ensures logger.recordersByInstance == old(logger.recordersByInstance) - {instance}
      ensures runtime.tables == old(runtime.tables) - {instance}
    {
      logger.RemoveLogRecordersForXrInstance(instance);
      runtime.DestroyInstance(instance);
    }

    /** The dispatch table is dereferenced, so the runtime must have one for the instance. */
    method TermCreateDebugUtilsMessenger(instance: Instance, m: MessengerRequest)
      returns (result: XrResult, messenger: Messenger)
      requires runtime != null && runtime.GetDispatchTable(instance).Some?
      modifies logger, runtime`messengers
      ensures result == MessengerResult(m, runtime.GetDispatchTable(instance).value)
      ensures Failed(result) ==>
        && logger.recorders == old(logger.recorders) && logger.recordersByInstance == old(logger.recordersByInstance)
        && runtime.messengers == old(runtime.messengers)
      ensures Succeeded(result) ==>
        && messenger == m.handle && logger.recorders == old(logger.recorders) + [Recorder(messenger, m.sink)]
        && logger.recordersByInstance ==
             old(logger.recordersByInstance)[instance := IdsOf(old(logger.recordersByInstance), instance) + {messenger}]
        && runtime.messengers == old(runtime.messengers)[messenger := instance]
    {
      var table := runtime.GetDispatchTable(instance).value;
      result, messenger := XR_SUCCESS, 0;
      if table.hasDebugUtils {
        result := m.runtimeResult;
        if Succeeded(result) {
          messenger := m.handle;
        }
      } else {
        messenger := m.handle;
      }
      if Succeeded(result) {
        logger.AddLogRecorderForXrInstance(instance, Recorder(messenger, m.sink));
        runtime.TrackDebugMessenger(instance, messenger);
      }
    }

    method TermDestroyDebugUtilsMessenger(messenger: Messenger)
      requires runtime != null && runtime.GetDebugUtilsMessengerDispatchTable(messenger).Some? && messenger != 0
      modifies logger, runtime`messengers
      ensures logger.recorders == Kept(old(logger.recorders), {messenger})
      ensures logger.recordersByInstance ==
        map h | h in old(logger.recordersByInstance) :: old(logger.recordersByInstance)[h] - {messenger}
      ensures runtime.messengers == old(runtime.messengers) - {messenger}
    {
      logger.RemoveLogRecorder(messenger);
      runtime.ForgetDebugMessenger(messenger);
    }

    // ---------- Debug messengers ----------

    /** LoaderTrampolineCreateDebugUtilsMessengerEXT; a new messenger's handle is not that of a live one. */
    method CreateDebugUtilsMessenger(instance: Instance, m: MessengerRequest)
      returns (result: XrResult, messenger: Messenger)
      requires Valid() && m.Valid() && m.handle !in Tracked()
      requires instance == 0 || active == null || instance == active.handle
      modifies logger, runtime
      ensures Valid() && (old(InSync()) ==> InSync())
      ensures Defaults(logger.recorders) == old(Defaults(logger.recorders))
      ensures runtime != null ==> runtime.tables == old(runtime.tables)
      ensures instance == 0 || active == null ==> result == XR_ERROR_HANDLE_INVALID && Tracked() == old(Tracked())
      ensures instance != 0 && active != null ==>
        var table := old(runtime.tables)[instance];
        && result == MessengerThroughLayers(m, active.layers != [], table)
        && Tracked() ==
             (if Reaches(m.forwarding, active.layers != []) && Succeeded(MessengerResult(m, table)) then
                old(Tracked())[m.handle := instance]
              else
                old(Tracked()))
      ensures Succeeded(result) ==> messenger == m.handle && messenger in Tracked()
      ensures AllRecords() ==
        if instance == 0 || active == null then old(AllRecords())
        else MessengerCall(old(AllRecords()), instance, m, active.layers != [], old(runtime.tables)[instance])
    {
      messenger := 0;
      if instance == 0 || active == null {
        return XR_ERROR_HANDLE_INVALID, messenger;
      }
      if active.layers != [] && m.forwarding.FailsBefore? {
        return m.forwarding.error, messenger;
      }
      ghost var recorders, byInstance, tracked := logger.recorders, logger.recordersByInstance, runtime.messengers;
      result, messenger := TermCreateDebugUtilsMessenger(instance, m);
      if Succeeded(result) {
        KeptAppended(recorders, Recorder(messenger, m.sink), {});
        if Synced(recorders, byInstance, tracked) {
          SyncedAdd(recorders, byInstance, tracked, instance, Recorder(messenger, m.sink));
        }
      }
      if active.layers != [] && m.forwarding.FailsAfter? && Succeeded(result) {
        result := m.forwarding.error;
      }
    }

    /** LoaderTrampolineDestroyDebugUtilsMessengerEXT, for a messenger that is tracked. */
    method TrampolineDestroyMessenger(messenger: Messenger, forwarded: bool) returns (result: XrResult)
      requires InstanceBacked() && IdsNonZero(logger.recordersByInstance)
      requires messenger == 0 || active == null || messenger in runtime.messengers
      modifies logger, runtime
      ensures InstanceBacked() && IdsNonZero(logger.recordersByInstance) && (old(InSync()) ==> InSync())
      ensures Defaults(logger.recorders) == old(Defaults(logger.recorders))
      ensures runtime != null ==> runtime.tables == old(runtime.tables)
      ensures result == if messenger == 0 || active == null then XR_ERROR_HANDLE_INVALID else XR_SUCCESS
      ensures AllRecords() ==
        if messenger != 0 && active != null && (forwarded || active.layers == []) then
          old(AllRecords()).Remove(messenger)
        else old(AllRecords())
    {
      if messenger == 0 || active == null {
        return XR_ERROR_HANDLE_INVALID;
      }
      if forwarded || active.layers == [] {
        ghost var recorders, byInstance, tracked := logger.recorders, logger.recordersByInstance, runtime.messengers;
        TermDestroyDebugUtilsMessenger(messenger);
        KeptDefaults(recorders, {messenger});
        if Synced(recorders, byInstance, tracked) {
          SyncedRemove(recorders, byInstance, tracked, messenger);
        }
      }
      return XR_SUCCESS;
    }

    /** xrDestroyDebugUtilsMessengerEXT: the application knows only the messengers it created itself. */
    method DestroyDebugUtilsMessenger(messenger: Messenger, forwarded: bool) returns (result: XrResult)
      requires Valid()
      requires messenger != 0 && active != null ==>
        messenger in runtime.messengers && messenger != active.defaultMessenger
      modifies logger, runtime
      ensures Valid() && (old(InSync()) ==> InSync())
      ensures Defaults(logger.recorders) == old(Defaults(logger.recorders))
      ensures result == if messenger == 0 || active == null then XR_ERROR_HANDLE_INVALID else XR_SUCCESS
      ensures Answered(result, View()) == MessengerDestroyed(old(View()), messenger, forwarded)
    {
      result := TrampolineDestroyMessenger(messenger, forwarded);
    }

    // ---------- xrCreateInstance and xrDestroyInstance ----------

    /** One call of the chain: `at` is the next-info it carries. An entry point is the terminator's or a layer's,
        and a layer that forwards the call follows its next-info. */
    method CallDown(list: array<NextInfo>, entry: EntryPoint, at: Option<nat>, request: CreateRequest,
        extensions: seq<string>, ghost layers: seq<ApiLayer>)
      returns (result: XrResult, instance: Instance, ghost calls: seq<Call>)
      requires runtime != null && request.Valid() && Forward(list[..])
      requires IsChain(list[..], Interfaces(layers), TERM_GET_INSTANCE_PROC_ADDR, TERM_CREATE_API_LAYER_INSTANCE)
      requires at.Some? ==> at.value < |layers| && entry == Interfaces(layers)[at.value].createApiLayerInstance
      requires at.None? ==> entry == TERM_CREATE_API_LAYER_INSTANCE
      modifies runtime`tables
      ensures var term := TerminatorResult(request, extensions);
        result == if at.None? then term else ThroughLayers(request.forwarding, at.value, |layers|, term)
      ensures calls == Calls(list[..], entry, at, request.forwarding)
      ensures var reply := request.reply(extensions);
        Succeeded(result) ==>
          && instance == reply.handle && instance != 0
          && runtime.tables == old(runtime.tables)[reply.handle := reply.table]
      decreases if at.Some? then |layers| - at.value else 0
    {
      instance := 0;
      if entry == TERM_CREATE_API_LAYER_INSTANCE {
        calls := [Call(entry, None)];
        result, instance := TermCreateInstance(request, extensions);
        return;
      }
      var k := at.value;
      assert list[..][k] == list[k];
      calls := [Call(entry, Some(list[k].layerName))];
      var forwarding := request.forwarding(k);
      if forwarding.FailsBefore? {
        return forwarding.error, instance, calls;
      }
      assert list[k] == NodeAt(Interfaces(layers), TERM_GET_INSTANCE_PROC_ADDR, TERM_CREATE_API_LAYER_INSTANCE, k);
      ghost var below;
      result, instance, below :=
        CallDown(list, list[k].nextCreateApiLayerInstance, list[k].next, request, extensions, layers);
      calls := calls + below;
      if forwarding.FailsAfter? && Succeeded(result) {
        result := forwarding.error;
      }
    }

    /** The create call, with the filtered extensions: down the chain, or to the terminator if there are no layers. */
    method CallChain(request: CreateRequest, layers: seq<ApiLayer>)
      returns (result: XrResult, instance: Instance, ghost calls: seq<Call>)
      requires runtime != null && runtime.tables == map[] && request.Valid()
      modifies runtime`tables
      ensures var extensions := ChainExtensions(request.enabledExtensions, runtime.supportedExtensions);
        var reply := request.reply(extensions);
        && result == ThroughLayers(request.forwarding, 0, |layers|, TerminatorResult(request, extensions))
        && (Succeeded(result) ==>
            instance == reply.handle && instance != 0 && runtime.tables == map[reply.handle := reply.table])
      ensures calls == CreateCalls(Interfaces(layers), request.forwarding)
    {
      var modified := FilterForChain(request.enabledExtensions, runtime.supportedExtensions);
      if layers != [] {
        var list, _, topmost :=
          BuildChain(Interfaces(layers), TERM_GET_INSTANCE_PROC_ADDR, TERM_CREATE_API_LAYER_INSTANCE);
        ChainCalls(list[..], Interfaces(layers), TERM_GET_INSTANCE_PROC_ADDR, TERM_CREATE_API_LAYER_INSTANCE,
          request.forwarding);
        result, instance, calls := CallDown(list, topmost, Some(0), request, modified, layers);
      } else {
        calls := [Call(TERM_CREATE_INSTANCE, None)];
        result, instance := TermCreateInstance(request, modified);
      }
    }

    /** LoaderInstance::CreateInstance. It owns the layers: a failure destroys them. `calls` are those of the chain. */
    method CreateLoaderInstance(request: CreateRequest, layers: seq<ApiLayer>)
      returns (result: XrResult, created: LoaderInstance?, ghost calls: seq<Call>)
      requires runtime != null && runtime.tables == map[] && platform.Valid() && request.Valid()
      requires LayerSelection.DistinctLibraries(layers) && LayerSelection.Libraries(layers) <= platform.open
      modifies runtime`tables, platform
      ensures var infos := LayerSelection.LayerInfos(layers);
        && result == InstanceResult(request, runtime.supportedExtensions, infos)
        && calls == if AllSupported(request.enabledExtensions, runtime.supportedExtensions, infos) then
                      CreateCalls(Interfaces(layers), request.forwarding)
                    else
                      []
      ensures platform.Valid()
      ensures Succeeded(result) ==>
        var reply := request.reply(ChainExtensions(request.enabledExtensions, runtime.supportedExtensions));
        && created != null && fresh(created) && created.handle == reply.handle && created.handle != 0
        && created.layers == layers && created.defaultMessenger == 0
        && runtime.tables == map[reply.handle := reply.table] && platform.open == old(platform.open)
      ensures Failed(result) ==>
        created == null && platform.open == old(platform.open) - LayerSelection.Libraries(layers)
    {
      hide ThroughLayers, AllSupported, ChainExtensions;
      created, calls := null, [];
      result := CheckSupport(request.enabledExtensions, runtime.supportedExtensions, LayerSelection.LayerInfos(layers));
      var instance := 0;
      if Succeeded(result) {
        result, instance, calls := CallChain(request, layers);
      }
      if Succeeded(result) {
        created := new LoaderInstance(instance, layers);
      } else {
        LayerSelection.DestroyLayers(platform, layers);
      }
    }

    /** What xrCreateInstance comes to from the state it starts in. */
    ghost function CreationFrom(request: CreateRequest): Creation
      reads this, runtime, initData
    {
      CreationOf(request, LoadedExtensions(), initData.required, initData.initialized)
    }

    /** The steps of xrCreateInstance up to making the instance active; `layers` are those still to destroy. */
    method LoadAndCreate(request: CreateRequest)
      returns (result: XrResult, created: LoaderInstance?, layers: seq<ApiLayer>)
      requires Valid() && request.Valid() && active == null
      modifies this`runtime, platform, runtime
      ensures platform.Valid() && Tracked() == map[]
      ensures runtime == null || runtime == old(runtime) || fresh(runtime)
      ensures LayerSelection.DistinctLibraries(layers) && RuntimeLibraries() !! LayerSelection.Libraries(layers)
      ensures result == old(CreationFrom(request)).result
      ensures Failed(result) ==>
        created == null && platform.open == RuntimeLibraries() + LayerSelection.Libraries(layers)
      ensures Succeeded(result) ==>
        var creation := old(CreationFrom(request));
        var load :=
          old(RuntimeLoadOf(LoadedExtensions(), request.discovery, initData.required, initData.initialized));
        var reply := request.reply(creation.extensions);
        && created != null && fresh(created) && created.handle == reply.handle && created.handle != 0
        && created.defaultMessenger == 0 && layers == []
        && LayerSelection.LayerInfos(created.layers) == creation.layers
        && runtime != null && runtime.tables == map[created.handle := reply.table]
        && runtime.supportedExtensions == load.extensions
        && LayerSelection.DistinctLibraries(created.layers)
        && RuntimeLibraries() !! LayerSelection.Libraries(created.layers)
        && platform.open == RuntimeLibraries() + LayerSelection.Libraries(created.layers)
    {
      hide LayerSelection.LoadingResult, RuntimeLoadOf, InstanceResult, ChainExtensions;
      created, layers := null, [];
      result := LoadRuntime(request.discovery);
      if Succeeded(result) {
        var init := LayerSelection.InitState(initData.required, initData.initialized, initData.required);
        result, layers := LayerSelection.LoadApiLayers(platform, request.implicit, request.explicit,
          request.environment, request.appNames, init, request.layerBehaviours);
      }
      if Succeeded(result) {
        ghost var calls;
        result, created, calls := CreateLoaderInstance(request, layers);
        layers := [];
      }
    }

    /** The messenger of the next chain, for an instance that is active. */
    method CreateDefaultMessenger(request: Option<MessengerRequest>) returns (result: XrResult)
      requires Valid() && active != null && active.defaultMessenger == 0 && Tracked() == map[]
      requires request.Some? ==> request.value.Valid()
      modifies logger, runtime, active
      ensures Valid() && (old(InSync()) ==> InSync())
      ensures Defaults(logger.recorders) == old(Defaults(logger.recorders))
      ensures runtime.tables == old(runtime.tables)
      ensures result == DefaultMessengerResult(request, active.layers != [], runtime.tables[active.handle])
      ensures active.defaultMessenger == (if request.None? || Failed(result) then 0 else request.value.handle)
      ensures AllRecords() ==
        DefaultMessengerCall(old(AllRecords()), active.handle, request, active.layers != [],
          runtime.tables[active.handle])
    {
      result := XR_SUCCESS;
      if request.Some? {
        var messenger;
        result, messenger := CreateDebugUtilsMessenger(active.handle, request.value);
        if Succeeded(result) {
          active.defaultMessenger := messenger;
        }
      }
    }

    /** Ensures that instance and runtime are gone if something went wrong. */
    method Abandon(layers: seq<ApiLayer>)
      requires platform.Valid() && Tracked() == map[] && active == null && IdsNonZero(logger.recordersByInstance)
      requires LayerSelection.DistinctLibraries(layers) && RuntimeLibraries() !! LayerSelection.Libraries(layers)
      requires platform.open == RuntimeLibraries() + LayerSelection.Libraries(layers)
      modifies this`active, this`runtime, platform
      ensures Valid() && active == null && runtime == null && platform.open == {} && AllRecords() == old(AllRecords())
    {
      active := null;
      UnloadRuntime();
      LayerSelection.DestroyLayers(platform, layers);
    }

    /** The created instance becomes active, and gets the messenger of the next chain. */
    method Activate(created: LoaderInstance, request: CreateRequest) returns (result: XrResult, instance: Instance)
      requires platform.Valid() && request.Valid() && active == null && Tracked() == map[]
      requires IdsNonZero(logger.recordersByInstance)
      requires created.handle != 0 && created.defaultMessenger == 0
      requires runtime != null && runtime.tables.Keys == {created.handle}
      requires LayerSelection.DistinctLibraries(created.layers)
      requires RuntimeLibraries() !! LayerSelection.Libraries(created.layers)
      requires platform.open == RuntimeLibraries() + LayerSelection.Libraries(created.layers)
      modifies this`active, logger, runtime, created
      ensures Valid() && active == created && LoadedExtensions() == old(LoadedExtensions())
      ensures old(InSync()) ==> InSync()
      ensures Defaults(logger.recorders) == old(Defaults(logger.recorders))
      ensures var table := old(runtime.tables)[created.handle];
        var messenger := DefaultMessengerResult(request.messenger, created.layers != [], table);
        && result == (if Failed(messenger) then XR_ERROR_VALIDATION_FAILURE else messenger)
        && instance == (if Failed(messenger) then 0 else created.handle)
        && ActiveView() == Some(ActiveInstance(created.handle, LayerSelection.LayerInfos(created.layers), table,
             if request.messenger.None? || Failed(messenger) then 0 else request.messenger.value.handle))
        && AllRecords() == DefaultMessengerCall(old(AllRecords()), created.handle, request.messenger,
             created.layers != [], table)
    {
      hide Synced, Defaults, DefaultMessengerResult, DefaultMessengerCall, IdsNonZero;
      hide LayerSelection.LayerInfos, LayerSelection.Libraries, LayerSelection.DistinctLibraries;
      instance := 0;
      active := created;
      result := CreateDefaultMessenger(request.messenger);
      if Failed(result) {
        return XR_ERROR_VALIDATION_FAILURE, instance;
      }
      instance := active.handle;
    }

    /** xrCreateInstance, once it is not refused. A failure before the instance is active leaves no instance, no runtime
        and no open library; a messenger that cannot be made leaves the instance, its runtime and its layers. */
    method CreateFirst(request: CreateRequest) returns (result: XrResult, instance: Instance)
      requires Valid() && request.Valid() && active == null && request.versionSupported
      modifies this`runtime, this`active, platform, logger, runtime
      ensures Valid() && (old(InSync()) ==> InSync())
      ensures Defaults(logger.recorders) == old(Defaults(logger.recorders))
      ensures runtime == null || runtime == old(runtime) || fresh(runtime)
      ensures active == null || fresh(active)
      ensures Answered(result, View()) == Created(old(View()), initData.required, request)
      ensures Failed(result) ==> instance == 0
      ensures Succeeded(result) ==> active != null && instance == active.handle
    {
      hide CreationOf, RuntimeLoadOf, Synced, Defaults, DefaultMessengerResult, DefaultMessengerCall, IdsNonZero;
      hide LayerSelection.LayerInfos, LayerSelection.Libraries, LayerSelection.DistinctLibraries;
      instance := 0;
      var created, layers;
      result, created, layers := LoadAndCreate(request);
      if Succeeded(result) {
        result, instance := Activate(created, request);
      } else {
        Abandon(layers);
      }
    }

    /** xrCreateInstance: refused while an instance is active. */
    method CreateInstance(request: CreateRequest) returns (result: XrResult, instance: Instance)
      requires Valid() && request.Valid()
      modifies this`runtime, this`active, platform, logger, runtime
      ensures Valid() && (old(InSync()) ==> InSync())
      ensures Defaults(logger.recorders) == old(Defaults(logger.recorders))
      ensures runtime == null || runtime == old(runtime) || fresh(runtime)
      ensures active == null || active == old(active) || fresh(active)
      ensures !request.versionSupported || old(active) != null ==>
        && result == (if request.versionSupported then XR_ERROR_LIMIT_REACHED else XR_ERROR_API_VERSION_UNSUPPORTED)
        && active == old(active) && runtime == old(runtime) && platform.open == old(platform.open)
        && Tracked() == old(Tracked())
      ensures request.versionSupported && old(active) == null ==>
        var creation := old(CreationFrom(request));
        && CreateOutcome(result, active != null) == OutcomeOf(request, creation)
        && (active == null ==> runtime == null && platform.open == {})
        && (active != null ==>
            var reply := request.reply(creation.extensions);
            && active.handle == reply.handle && runtime.tables == map[active.handle := reply.table]
            && LayerSelection.LayerInfos(active.layers) == creation.layers)
      ensures Answered(result, View()) == Created(old(View()), initData.required, request)
      ensures Failed(result) ==> instance == 0
      ensures Succeeded(result) ==>
        && active != null && instance == active.handle
        && active.defaultMessenger == (if request.messenger.None? then 0 else request.messenger.value.handle)
    {
      hide CreationOf, RuntimeLoadOf, Synced, Defaults, DefaultMessengerResult, DefaultMessengerCall, IdsNonZero;
      hide LayerSelection.LayerInfos, LayerSelection.Libraries, LayerSelection.DistinctLibraries;
      instance := 0;
      if !request.versionSupported {
        return XR_ERROR_API_VERSION_UNSUPPORTED, instance;
      }
      if active != null {
        return XR_ERROR_LIMIT_REACHED, instance;
      }
      result, instance := CreateFirst(request);
    }

    /** xrDestroyInstance on its way to the terminator, and what it leaves once the runtime is gone. */
    method ChainDestroyInstance(instance: Instance, reaches: bool)
      requires runtime != null && instance != 0 && IdsNonZero(logger.recordersByInstance)
      modifies logger, runtime`tables
      ensures IdsNonZero(logger.recordersByInstance) && Defaults(logger.recorders) == old(Defaults(logger.recorders))
      ensures Records(logger.recorders, logger.recordersByInstance, map[]) ==
              old(AllRecords()).Unloaded(instance, reaches)
    {
      ghost var recorders, byInstance := logger.recorders, logger.recordersByInstance;
      if reaches {
        TermDestroyInstance(instance);
        KeptDefaults(recorders, IdsOf(byInstance, instance));
      }
    }

    /** ActiveLoaderInstance::Remove, which destroys the layers too, and then UnloadRuntime. */
    method Release()
      requires LibrariesOwned() && active != null && IdsNonZero(logger.recordersByInstance)
      modifies this`active, this`runtime, platform
      ensures Valid() && active == null && runtime == null && platform.open == {}
    {
      LayerSelection.DestroyLayers(platform, active.layers);
      active := null;
      UnloadRuntime();
    }

    /** xrDestroyInstance, with the active instance's handle or null. Layers may swallow either call. */
    method DestroyInstance(instance: Instance, messengerForwarded: bool, destroyForwarded: bool)
      returns (result: XrResult)
      requires Valid() && (instance == 0 || active == null || instance == active.handle)
      modifies this`runtime, this`active, platform, logger, runtime
      ensures Valid() && Defaults(logger.recorders) == old(Defaults(logger.recorders))
      ensures instance == 0 || old(active) == null ==>
        && result == XR_ERROR_HANDLE_INVALID && active == old(active) && runtime == old(runtime)
        && platform.open == old(platform.open)
        && Tracked() == old(Tracked()) && (old(InSync()) ==> InSync())
      ensures instance != 0 && old(active) != null ==>
        && result == XR_SUCCESS && active == null && runtime == null && platform.open == {} && Tracked() == map[]
        && (old(InSync()) ==>
            (InSync() <==> destroyForwarded || old(active.layers) == [] ||
                           old(Tracked()).Keys <= if messengerForwarded then {old(active.defaultMessenger)} else {}))
      ensures Answered(result, View()) == Destroyed(old(View()), instance, messengerForwarded, destroyForwarded)
    {
      hide Synced, Defaults, Records.Remove, Records.Unloaded, LayerSelection.Libraries;
      if instance == 0 || active == null {
        return XR_ERROR_HANDLE_INVALID;
      }
      if InSync() {
        DestroyedInSyncIff(View(), instance, messengerForwarded, destroyForwarded);
      }
      var messenger := active.defaultMessenger;
      if messenger != 0 {
        var _ := TrampolineDestroyMessenger(messenger, messengerForwarded);
      }
      ChainDestroyInstance(instance, destroyForwarded || active.layers == []);
      Release();
      return XR_SUCCESS;
    }

    // ---------- Runs ----------

    /** One call of any kind: its result and the whole new state. */
    method Perform(step: Step) returns (result: XrResult)
      requires Valid() && step.Valid() && Allowed(View(), step)
      modifies this`runtime, this`active, platform, logger, initData, runtime
      ensures Valid() && Answered(result, View()) == Performed(old(View()), initData.required, step)
      ensures Defaults(logger.recorders) == old(Defaults(logger.recorders))
      ensures runtime == null || runtime == old(runtime) || fresh(runtime)
      ensures active == null || active == old(active) || fresh(active)
      ensures old(InSync()) && (step.DestroyStep? ==> step.destroyForwarded) ==> InSync()
    {
      hide CreationOf, Synced, Defaults;
      match step {
        case InitializeStep(chain) =>
          result := Initialize(chain);
        case EnumerateStep(discovery) =>
          result := Enumerate(discovery);
        case CreateStep(request) =>
          var instance;
          result, instance := CreateInstance(request);
        case DestroyStep(instance, messengerForwarded, destroyForwarded) =>
          result := DestroyInstance(instance, messengerForwarded, destroyForwarded);
        case CreateMessengerStep(owner, m) =>
          var messenger;
          result, messenger := CreateDebugUtilsMessenger(owner, m);
        case DestroyMessengerStep(messenger, forwarded) =>
          result := DestroyDebugUtilsMessenger(messenger, forwarded);
      }
    }

    /** Whether the handles of a call are null, or live and of the application's own. */
    method Check(step: Step) returns (allowed: bool)
      requires Valid()
      ensures allowed <==> Allowed(View(), step)
    {
      match step
      case DestroyStep(instance, _, _) =>
        allowed := instance == 0 || active == null || instance == active.handle;
      case CreateMessengerStep(owner, m) =>
        allowed := m.handle !in Tracked() && (owner == 0 || active == null || owner == active.handle);
      case DestroyMessengerStep(m, _) =>
        allowed := m == 0 || active == null || (m in Tracked() && m != active.defaultMessenger);
      case _ =>
        allowed := true;
    }

    /** Any run of calls, from any reachable state; a call that misuses a handle is passed over. */
    method Run(steps: seq<Step>)
      requires Valid() && forall step | step in steps :: step.Valid()
      modifies this`runtime, this`active, platform, logger, initData, runtime
      ensures Valid() && View() == AfterAll(old(View()), initData.required, steps)
      ensures Defaults(logger.recorders) == old(Defaults(logger.recorders))
      ensures old(InSync()) && (forall step | step in steps :: step.DestroyStep? ==> step.destroyForwarded) ==> InSync()
      ensures active == null && runtime == null ==> platform.open == {} && Tracked() == map[]
      ensures runtime == null || runtime == old(runtime) || fresh(runtime)
      ensures active == null || active == old(active) || fresh(active)
    {
      hide Performed, Allowed, Synced, Defaults;
      for i := 0 to |steps|
        invariant Valid() && Defaults(logger.recorders) == old(Defaults(logger.recorders))
        invariant runtime == null || runtime == old(runtime) || fresh(runtime)
        invariant active == null || active == old(active) || fresh(active)
        invariant old(InSync()) && (forall step | step in steps :: step.DestroyStep? ==> step.destroyForwarded) ==>
          InSync()
        invariant AfterAll(View(), initData.required, steps[i..]) == AfterAll(old(View()), initData.required, steps)
      {
        assert steps[i] in steps;
        assert steps[i..][0] == steps[i] && steps[i..][1..] == steps[i + 1..];
        var allowed := Check(steps[i]);
        if allowed {
          var _ := Perform(steps[i]);
        }
      }
    }
  }
}
