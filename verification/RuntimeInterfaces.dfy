/** The loaded runtime (runtime_interface.cpp): its library, dispatch tables and debug messengers. */
module RuntimeInterfaces {
  import opened Wrappers
  import opened LoaderPlatform

  /** XrInstance and XrDebugUtilsMessengerEXT; zero is XR_NULL_HANDLE. */
  type Instance = nat
  type Messenger = nat

  const XR_CURRENT_LOADER_RUNTIME_VERSION := 1
  const LOADER_MAJOR := 1

  /** A runtime's dispatch table, as far as the terminators branch on it. */
  datatype Table = Table(hasDebugUtils: bool)

  /** What a runtime's library and entry points do. */
  datatype RuntimeBehaviour = RuntimeBehaviour(
    opens: bool,
    exportedInitialize: Option<XrResult>,
    negotiation: Option<RuntimeReply>,
    extensions: seq<string>)

  datatype RuntimeReply = RuntimeReply(
    result: XrResult,
    hasGetInstanceProcAddr: bool,
    interfaceVersion: nat,
    apiMajor: nat,
    apiMinor: nat,
    lookUpResult: XrResult,
    initialize: Option<XrResult>)

  /** The reply to xrCreateInstance: on success a handle that is not null, and the table filled for it. */
  datatype InstanceReply = InstanceReply(result: XrResult, handle: Instance, table: Table) {
    predicate Valid() { Succeeded(result) ==> handle != 0 }
  }

  function NegotiationError(n: RuntimeReply, forwarded: bool, hasPlatformParam: bool): XrResult {
    if Failed(n.result) then n.result
    else if !n.hasGetInstanceProcAddr then XR_ERROR_FILE_CONTENTS_INVALID
    else if n.interfaceVersion == 0 || XR_CURRENT_LOADER_RUNTIME_VERSION < n.interfaceVersion then
      XR_ERROR_FILE_CONTENTS_INVALID
    else if n.apiMajor != LOADER_MAJOR || (n.apiMajor == 0 && n.apiMinor == 0) then XR_ERROR_FILE_CONTENTS_INVALID
    else if forwarded || !hasPlatformParam || Failed(n.lookUpResult) then n.result
    else match n.initialize
      case None => XR_ERROR_RUNTIME_FAILURE
      case Some(res) => res
  }

  /** Whether TryLoadingSingleRuntime succeeds; `required` also says that there is a platform parameter. */
  function LoadResult(b: RuntimeBehaviour, required: bool, initialized: bool): XrResult {
    if !b.opens then XR_ERROR_FILE_ACCESS_ERROR
    else if required && !initialized then XR_ERROR_VALIDATION_FAILURE
    else
      var forwarded := initialized && required && b.exportedInitialize.Some?;
      if forwarded && Failed(b.exportedInitialize.value) then b.exportedInitialize.value
      else match b.negotiation
        case None => XR_ERROR_RUNTIME_FAILURE
        case Some(n) =>
          var e := NegotiationError(n, forwarded, required);
          if Failed(e) then e else XR_SUCCESS
  }

  /** The first runtime that loads. */
  function FirstLoading(runtimes: seq<RuntimeBehaviour>, required: bool, initialized: bool): Option<RuntimeBehaviour>
  {
    if runtimes == [] then None
    else if Succeeded(LoadResult(runtimes[0], required, initialized)) then Some(runtimes[0])
    else FirstLoading(runtimes[1..], required, initialized)
  }

  lemma {:induction false} FirstLoadingIff(runtimes: seq<RuntimeBehaviour>, required: bool, initialized: bool)
    ensures var found := FirstLoading(runtimes, required, initialized);
      && (found.Some? <==> exists b | b in runtimes :: Succeeded(LoadResult(b, required, initialized)))
      && (found.Some? ==> found.value in runtimes && Succeeded(LoadResult(found.value, required, initialized)))
  {
    hide LoadResult;
    if runtimes != [] {
      FirstLoadingIff(runtimes[1..], required, initialized);
      assert runtimes == [runtimes[0]] + runtimes[1..];
    }
  }

  /** Exactly the runtimes that were negotiated with in the versions of this loader load, and where the platform
      requires initialization only after it was done and if the runtime, where it has the call, accepts it. */
  lemma LoadsIffCompatible(b: RuntimeBehaviour, required: bool, initialized: bool)
    ensures LoadResult(b, required, initialized) >= 0 <==>
      && b.opens && b.negotiation.Some? && (required ==> initialized)
      && var n := b.negotiation.value;
         && n.result >= 0 && n.hasGetInstanceProcAddr && n.interfaceVersion == 1 && n.apiMajor == 1
         && (required ==>
               if b.exportedInitialize.Some? then b.exportedInitialize.value >= 0
               else n.lookUpResult >= 0 ==> n.initialize.Some? && n.initialize.value >= 0)
  {}

  /** What loading a runtime fails with, in the order in which it can fail. */
  lemma RuntimeErrors(b: RuntimeBehaviour, required: bool, initialized: bool)
    ensures var r := LoadResult(b, required, initialized);
      if !b.opens then r == -32
      else if required && !initialized then r == -1
      else if required && b.exportedInitialize.Some? && b.exportedInitialize.value < 0 then
        r == b.exportedInitialize.value
      else if b.negotiation.None? then r == -2
      else
        var n := b.negotiation.value;
        var negotiated := n.hasGetInstanceProcAddr && n.interfaceVersion == 1 && n.apiMajor == 1;
        && (n.result < 0 ==> r == n.result)
        && (n.result >= 0 && !negotiated ==> r == -33)
        && (n.result >= 0 && negotiated ==> r == 0 || r == if n.initialize.None? then -2 else n.initialize.value)
  {}

  datatype RuntimeDiscovery = RuntimeDiscovery(result: XrResult, runtimes: seq<RuntimeBehaviour>)

  /** What LoadRuntime comes to: a result, and the extensions of the runtime that is then loaded. */
  datatype RuntimeLoad = RuntimeLoad(result: XrResult, extensions: seq<string>)

  /** A loaded runtime stays. Otherwise any failure but a missing initialization is "unavailable". */
  function RuntimeLoadOf(loaded: Option<seq<string>>, discovery: RuntimeDiscovery, required: bool, initialized: bool)
    : RuntimeLoad
  {
    var found := FirstLoading(discovery.runtimes, required, initialized);
    if loaded.Some? then RuntimeLoad(XR_SUCCESS, loaded.value)
    else if required && !initialized then RuntimeLoad(XR_ERROR_INITIALIZATION_FAILED, [])
    else if Failed(discovery.result) || found.None? then RuntimeLoad(XR_ERROR_RUNTIME_UNAVAILABLE, [])
    else RuntimeLoad(XR_SUCCESS, found.value.extensions)
  }

  lemma {:induction false} FirstLoadingIs(runtimes: seq<RuntimeBehaviour>, required: bool, initialized: bool, i: nat)
    requires i <= |runtimes| && forall j | 0 <= j < i :: LoadResult(runtimes[j], required, initialized) < 0
    requires i < |runtimes| ==> LoadResult(runtimes[i], required, initialized) >= 0
    ensures FirstLoading(runtimes, required, initialized) == if i < |runtimes| then Some(runtimes[i]) else None
  {
    hide LoadResult;
    if i > 0 {
      FirstLoadingIs(runtimes[1..], required, initialized, i - 1);
    }
  }

  /** What loading a runtime comes to, where `i` is the first of those discovered that loads, or their number. */
  lemma RuntimeLoadCases(loaded: Option<seq<string>>, discovery: RuntimeDiscovery, required: bool, initialized: bool,
      i: nat)
    requires var rs := discovery.runtimes;
      && i <= |rs| && (forall j | 0 <= j < i :: LoadResult(rs[j], required, initialized) < 0)
      && (i < |rs| ==> LoadResult(rs[i], required, initialized) >= 0)
    ensures RuntimeLoadOf(loaded, discovery, required, initialized) ==
      if loaded.Some? then RuntimeLoad(0, loaded.value)
      else if required && !initialized then RuntimeLoad(-6, [])
      else if discovery.result < 0 || i == |discovery.runtimes| then RuntimeLoad(-51, [])
      else RuntimeLoad(0, discovery.runtimes[i].extensions)
  {
    hide FirstLoading, LoadResult;
    FirstLoadingIs(discovery.runtimes, required, initialized, i);
  }

  class RuntimeInterface {
    const library: Library
    const supportedExtensions: seq<string>
    var tables: map<Instance, Table>
    var messengers: map<Messenger, Instance>

    constructor (library: Library, supportedExtensions: seq<string>)
      ensures this.library == library && this.supportedExtensions == supportedExtensions
      ensures tables == map[] && messengers == map[]
    {
      this.library, this.supportedExtensions := library, supportedExtensions;
      tables, messengers := map[], map[];
    }

    /** None for a null table. */
    function GetDispatchTable(instance: Instance): Option<Table>
      reads this
    {
      if instance in tables then Some(tables[instance]) else None
    }

    /** An untracked messenger resolves to the table of the null handle. */
    function GetDebugUtilsMessengerDispatchTable(messenger: Messenger): Option<Table>
      reads this
    {
      GetDispatchTable(if messenger in messengers then messengers[messenger] else 0)
    }

    method CreateInstance(reply: InstanceReply) returns (result: XrResult)
      modifies this`tables
      ensures result == reply.result
      ensures tables == if Succeeded(result) then old(tables)[reply.handle := reply.table] else old(tables)
    {
      result := reply.result;
      if Succeeded(result) {
        tables := tables[reply.handle := reply.table];
      }
    }

    method DestroyInstance(instance: Instance)
      modifies this`tables
      ensures tables == if instance != 0 then old(tables) - {instance} else old(tables)
    {
      if instance != 0 {
        if instance in tables {
          tables := tables - {instance};
        }
      }
    }

    method TrackDebugMessenger(instance: Instance, messenger: Messenger)
      modifies this`messengers
      ensures messengers == old(messengers)[messenger := instance]
    {
      messengers := messengers[messenger := instance];
    }

    method ForgetDebugMessenger(messenger: Messenger)
      modifies this`messengers
      ensures messengers == if messenger != 0 then old(messengers) - {messenger} else old(messengers)
    {
      if messenger != 0 {
        messengers := messengers - {messenger};
      }
    }
  }
}
