/** Result codes, and the dynamic libraries a process has open. */
module LoaderPlatform {
  import opened Wrappers

  type XrResult = int

  const XR_SUCCESS: XrResult := 0
  const XR_ERROR_VALIDATION_FAILURE: XrResult := -1
  const XR_ERROR_RUNTIME_FAILURE: XrResult := -2
  const XR_ERROR_API_VERSION_UNSUPPORTED: XrResult := -4
  const XR_ERROR_INITIALIZATION_FAILED: XrResult := -6
  const XR_ERROR_EXTENSION_NOT_PRESENT: XrResult := -9
  const XR_ERROR_LIMIT_REACHED: XrResult := -10
  const XR_ERROR_HANDLE_INVALID: XrResult := -12
  const XR_ERROR_FILE_ACCESS_ERROR: XrResult := -32
  const XR_ERROR_FILE_CONTENTS_INVALID: XrResult := -33
  const XR_ERROR_API_LAYER_NOT_PRESENT: XrResult := -36
  const XR_ERROR_RUNTIME_UNAVAILABLE: XrResult := -51

  predicate Succeeded(r: XrResult) { r >= 0 }

  predicate Failed(r: XrResult) { r < 0 }

  type Library = nat

  /** LoaderPlatformLibraryOpen and LoaderPlatformLibraryClose. Each open hands out its own reference,
      and a reference must not be closed twice. */
  class Platform {
    var open: set<Library>
    var next: Library

    ghost predicate Valid()
      reads this
    {
      forall l | l in open :: l < next
    }

    constructor ()
      ensures Valid() && open == {}
    {
      open, next := {}, 0;
    }

    method Open(succeeds: bool) returns (library: Option<Library>)
      requires Valid()
      modifies this
      ensures Valid() && library.Some? == succeeds && next >= old(next)
      ensures library.None? ==> open == old(open)
      ensures library.Some? ==>
        library.value !in old(open) && library.value >= old(next) && open == old(open) + {library.value}
    {
      if !succeeds {
        return None;
      }
      library := Some(next);
      open, next := open + {next}, next + 1;
    }

    method Close(library: Library)
      requires Valid() && library in open
      modifies this
      ensures Valid() && open == old(open) - {library} && next == old(next)
    {
      open := open - {library};
    }
  }
}
