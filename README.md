# DirectX 11 backend of PrevEngine: a verified model

This project models the bookkeeping of `DirectXAPI`, the DirectX 11
graphics backend of PrevEngine. That covers four areas:

- the display-mode catalog: the de-duplicated mode list and the resolutions
  it reports;
- the C++ integer arithmetic on catalog indices and on the adapter's memory
  size;
- start-up: the factory, the constructor, the adapter check, and device and
  swap-chain creation;
- the resize and fullscreen transition state machine, plus the per-frame
  calls.

The driver calls themselves (DXGI, D3D11, Win32) have no internal semantics
here. Each is an entry in a trace of events, and its success or failure comes
from an oracle: `Environment.outcomes[k]` is the outcome of the k-th entry
of the object's trace (driver calls and bookkeeping steps alike). The effect of a successful call on the backend's
`GraphicsData` is fixed by `Driver.Effect`.

The files:

- `catalog.dfy` (module `Catalog`): display modes, the de-duplication pass
  `Collapsed`/`Deduplicate`, the projection to resolutions, and the
  `int`/`size_t`/`UINT` conversions.
- `driver.dfy` (module `Driver`): events, the backend's data, and the effect
  of each event. It also defines three ways a call is made:
  - `Step`: a call whose status is checked; the first failure ends the
    operation.
  - `Probe`: a call whose status is ignored.
  - `Exec`: a fixed sequence of checked calls.
  
  It also holds generic lemmas about these: early exit, the trace made,
  which handles change.
- `protocol.dfy` (module `Protocol`): each operation as a function of the
  state before it and of the oracle (`Startup`, `CheckVideoAdapterSpec`,
  `CreateDeviceSpec`, `Resize`, `SetFullscreenSpec`), and the properties the
  source promises about them.
- `directx.dfy` (module `DirectX`): the class `DirectXApi`, whose fields are
  `m_Data`, the trace, `m_Status` and the rendering-API flag. Its methods
  update those fields call by call, with the same branches and early returns
  as the source, except the three corrections listed under "## Left out"
  (empty mode list, memory size, `AdjustWindowRectEx` status). Each method is proved to leave exactly the state the
  matching `Protocol` function describes, so the lemmas of `Protocol` hold of
  the methods.

What the source does, which the model follows except where a bullet says otherwise:

- Both arms of the flip branch call `SetFullscreenState(true)`; leaving
  fullscreen does not switch to windowed mode first.
- `ChangeWindowResolution` returns false on every path, including full
  success.
- De-duplication compares each mode only with the entry kept last. A
  resolution that comes back after a different one is kept again.
- An empty mode list is not reported as an adapter error. The model corrects this one and states the code as written in `Catalog.EmptyCatalogIndexUnderflows` (see Findings).
- A negative index is converted to `size_t` before the `%`, so −1 over three
  modes selects mode 0 (`Catalog.WrapExamples`).

## Model

| member | source | states |
|---|---|---|
| Catalog.Collapsed | PrevEngine/src/api/directx/directxapi.cpp:204-211 | the catalog is no longer than the raw list, and a non-empty raw list gives a non-empty catalog that starts with the first raw mode |
| Catalog.Deduplicate | PrevEngine/src/api/directx/directxapi.cpp:204-211 | the `push_back` loop builds exactly `Collapsed(raw)` (the loop invariant holds the catalog of every prefix) |
| Catalog.CollapsedNoAdjacentDuplicates | PrevEngine/src/api/directx/directxapi.cpp:204-211 | no two neighbouring catalog entries share width and height |
| Catalog.CollapsedRuns | PrevEngine/src/api/directx/directxapi.cpp:204-211 | the catalog is an order-preserving subsequence of the raw list starting at position 0; every raw mode between two kept positions has the resolution of the entry kept before it, so a mode is dropped only when it repeats the entry kept last |
| Catalog.CollapsedCoversResolutions | PrevEngine/src/api/directx/directxapi.cpp:204-211 | every resolution the driver reported appears in the catalog |
| Catalog.SupportedResolutions | PrevEngine/src/api/directx/directxapi.cpp:82-86 | the result is as long as the catalog, and its i-th pair is the width and height of entry i |
| Catalog.ToSize | PrevEngine/src/api/directx/directxapi.cpp:91 | the conversion to `size_t` is below 2^64, is the identity on values in range, and adds 2^64 to negative values |
| Catalog.ToInt32 | PrevEngine/src/api/directx/directxapi.cpp:91 | storing an unsigned value back into the `int` keeps values below 2^31 and is congruent modulo 2^32 |
| Catalog.WrapIndex | PrevEngine/src/api/directx/directxapi.cpp:91 | for any `int` index the wrapped index is inside the catalog; a non-negative index gives `index % size`, and a negative index wraps through 2^64 |
| Catalog.StoredIndex | PrevEngine/src/api/directx/directxapi.cpp:91-95 | the stored `CurrentModeDescriptionIndex` is inside the catalog for any `int` input, and is `index % size` for a non-negative input |
| Catalog.SecondReductionIsIdle | PrevEngine/src/api/directx/directxapi.cpp:95 | for any catalog an `int` can index, the second `%` leaves the wrapped index unchanged |
| Catalog.WrapExamples | PrevEngine/src/api/directx/directxapi.cpp:91-95 | −1 over three modes selects mode 0 (Euclidean modulo would give 2), −2 selects mode 2, 5 selects mode 2 |
| Catalog.LastIndexAsWritten | PrevEngine/src/api/directx/directxapi.cpp:213 | `size() - 1` in `size_t`: it is size − 1 for a non-empty catalog and always below 2^64 |
| Catalog.EmptyCatalogIndexUnderflows | PrevEngine/src/api/directx/directxapi.cpp:204-213 | an empty mode list gives an empty catalog and a selected index of `SIZE_MAX` (2^64 − 1, the field taken as a 64-bit `size_t`) |
| Catalog.DedicatedMemoryAsWritten | PrevEngine/src/api/directx/directxapi.cpp:218 | with the cast before the division, the reported memory is always below 4096 MB |
| Catalog.DedicatedMemoryMB | PrevEngine/src/api/directx/directxapi.cpp:218 | dividing first gives a `UINT` that is the byte count rounded down to whole megabytes whenever that fits in 32 bits |
| Catalog.DedicatedMemoryTruncation | PrevEngine/src/api/directx/directxapi.cpp:218 | an adapter with 8 GiB is reported with 0 MB as written, and with 8192 MB when the division comes first |
| Driver.Step | PrevEngine/src/api/directx/directxapi.cpp:8 | a checked call on a failed run changes nothing; otherwise it is appended to the trace and the run stays good exactly when the call cannot fail or the oracle says it succeeds |
| Driver.Probe | PrevEngine/src/api/directx/directxapi.cpp:102 | a call whose status is ignored is appended to the trace and never ends the operation |
| Driver.EffectToggle | PrevEngine/src/api/directx/directxapi.cpp:124 | the flag update inverts the cached fullscreen flag and changes nothing else |
| Driver.EffectKeepsDevice | PrevEngine/src/api/directx/directxapi.h:38-40 | no call releases the swap chain, the device or its context once they exist |
| Driver.AllSucceedMeans | PrevEngine/src/api/directx/directxapi.cpp:8 | the call-by-call success condition agrees with the position-by-position one: every call that can fail succeeds |
| Driver.AttemptedStopsAtFirstFailure | PrevEngine/src/api/directx/directxapi.cpp:8 | when every call succeeds, all of them are made; otherwise the calls made end with the first that fails, and all before it succeeded |
| Driver.ExecTrace | PrevEngine/src/api/directx/directxapi.cpp:8 | a sequence of checked calls logs exactly the calls attempted, and completes exactly when every call succeeds |
| Driver.ExecCreatesOnce | PrevEngine/src/api/directx/directxapi.cpp:141-169 | a null handle that is created at exactly one place of a call sequence, and released nowhere in it, is live afterwards exactly when every call up to and including that place succeeded |
| Driver.ExecOnlyChainState | PrevEngine/src/api/directx/directxapi.cpp:104-122 | target resizes, fullscreen switches and window calls change nothing of the backend's data but the swap chain's own fullscreen state |
| Driver.InertStage | PrevEngine/src/api/directx/directxapi.cpp:184-202 | queries that change no data keep the data, log the calls up to the first failure, and complete exactly when all succeed |
| Protocol.FeatureLevelName | PrevEngine/src/api/directx/directxapi.cpp:273-299 | a name is recorded exactly for the seven levels 9_1 to 11_1; any other level is unknown |
| Protocol.FeatureLevelNameRoundTrip | PrevEngine/src/api/directx/directxapi.cpp:273-299 | the recorded name identifies the level it was recorded for |
| Protocol.FeatureLevelOfNameRoundTrip | PrevEngine/src/api/directx/directxapi.cpp:273-299 | a name that stands for a level is exactly the name recorded for that level |
| Protocol.PresentInterval | PrevEngine/src/api/directx/directxapi.cpp:60-65 | the frame is presented with interval 1 exactly when vsync is on, and 0 otherwise |
| Protocol.CheckVideoAdapterSpec | PrevEngine/src/api/directx/directxapi.cpp:174-221 | the adapter check always starts with `CreateDXGIFactory` and makes at most the six queries before it decides; `CheckVideoAdapterFacts` states the rest |
| Protocol.AdapterQueriesLog | PrevEngine/src/api/directx/directxapi.cpp:184-202 | the adapter queries always make the factory call first and at most six calls in all |
| Protocol.AdapterSelects | PrevEngine/src/api/directx/directxapi.cpp:213 | after a successful adapter check the catalog is not empty and its last entry is selected |
| Protocol.AdapterStage | PrevEngine/src/api/directx/directxapi.cpp:184-202 | the six adapter queries change no data, stop at the first failure, and complete exactly when all succeed |
| Protocol.CheckVideoAdapterFacts | PrevEngine/src/api/directx/directxapi.cpp:174-221 | the adapter check logs the queries up to the first failure; it succeeds exactly when they all do and the catalog is not empty; it then records the catalog, selects its last entry, and stores the description and memory in MB; it never touches device objects or resources |
| Protocol.DeviceRequest | PrevEngine/src/api/directx/directxapi.cpp:228-256 | the requested swap chain has the size of the selected mode, is windowed exactly when the backend is not fullscreen, and asks for refresh rate 0/1 when vsync is off |
| Protocol.RebuildCalls | PrevEngine/src/api/directx/directxapi.cpp:141-169 | the per-resolution rebuild is nine calls and ends with the viewport set to the new size; `RebuildCreatesOnce` states where each resource is created |
| Protocol.RebuildCreatesOnce | PrevEngine/src/api/directx/directxapi.cpp:143-169 | each of the five resources is created exactly once in the rebuild sequence, at its fixed place, and nothing there releases one |
| Protocol.CreateDeviceSpec | PrevEngine/src/api/directx/directxapi.cpp:223-332 | device creation always starts with the device-and-swap-chain request built from the selected mode; `CreateDeviceFacts` states the rest |
| Protocol.CreateDeviceFacts | PrevEngine/src/api/directx/directxapi.cpp:223-332 | device creation, its log, its status and the resulting data, including the stored feature level and name (the three parts below) |
| Protocol.CreateDeviceLog | PrevEngine/src/api/directx/directxapi.cpp:267-271 | the device request is the first call made, sized to the selected mode |
| Protocol.CreateDeviceStatus | PrevEngine/src/api/directx/directxapi.cpp:267-331 | creation succeeds exactly when the driver accepts the request, selects a known feature level, and every resource call succeeds |
| Protocol.CreateDeviceData | PrevEngine/src/api/directx/directxapi.cpp:273-331 | after success the catalog, index and flags are unchanged; device, context and swap chain are live, with the swap chain in the requested fullscreen state; every resource is live; targets and rasterizer are bound; the viewport covers the selected mode; the feature level is stored with its name, and the adapter description, memory and refresh rate are kept |
| Protocol.Startup | PrevEngine/src/api/directx/directxapi.cpp:23-48 | start-up always begins with `CreateDXGIFactory`; `StartupStatus`, `StartupReady` and `StartupSkipsDevice` state the rest |
| Protocol.StartupSkipsDevice | PrevEngine/src/api/directx/directxapi.cpp:33-37 | when the adapter check fails, start-up fails, no device creation is ever requested, and every resource handle is null |
| Protocol.StartupStatus | PrevEngine/src/api/directx/directxapi.cpp:33-45 | `m_Status` ends true exactly when the adapter queries succeed, the catalog is not empty, the device is created at a known level, and every resource is built |
| Protocol.StartupDeviceRequest | PrevEngine/src/api/directx/directxapi.cpp:225-256 | the swap chain start-up asks for is sized to the last catalog entry, is windowed exactly when not fullscreen, and has refresh rate 0/1 unless vsync is on |
| Protocol.StartupReady | PrevEngine/src/api/directx/directxapi.cpp:23-48 | a successful start-up leaves the catalog built from the driver's list, the last entry selected, the swap chain in the requested state, the flags as given, every resource live and bound to the selected mode, the adapter description and memory recorded, and the feature level stored with its name |
| Protocol.FlipCalls | PrevEngine/src/api/directx/directxapi.cpp:104-122 | both arms of the flip branch switch the swap chain to fullscreen and neither switches it to windowed; the arm starts with `ResizeTarget` exactly when the swap chain was queried fullscreen |
| Protocol.AdjustStatus | PrevEngine/src/api/directx/directxapi.cpp:117 | `AdjustWindowRectEx` returns a `BOOL`: 1 on success and 0 on failure |
| Protocol.WindowedArmAsWritten | PrevEngine/src/api/directx/directxapi.cpp:112-120 | as written, the windowed arm completes exactly when the switch to fullscreen succeeds, whatever `AdjustWindowRectEx` returns, and then has logged the switch, the adjustment and the window move |
| Protocol.AdjustFailureIgnored | PrevEngine/src/api/directx/directxapi.cpp:112-120 | when the window rectangle cannot be adjusted, the arm as written completes and moves the window, while the checked arm stops there |
| Protocol.FlipReachesFullscreen | PrevEngine/src/api/directx/directxapi.cpp:104-122 | a completed flip branch leaves the swap chain fullscreen, whichever arm was taken |
| Protocol.FlipStage | PrevEngine/src/api/directx/directxapi.cpp:104-126 | no flip happens when the cached flag equals the queried state; otherwise the flip completes exactly when all its calls succeed, and only then is the flag inverted; nothing but the flag and the swap chain's state changes |
| Protocol.RefitStage | PrevEngine/src/api/directx/directxapi.cpp:128-131 | the unconditional resize changes only the context bindings, and clears them |
| Protocol.TeardownStage | PrevEngine/src/api/directx/directxapi.cpp:132-139 | the five resources are set to null, then the buffers are resized; the stage succeeds exactly when `ResizeBuffers` does |
| Protocol.RebuildStage | PrevEngine/src/api/directx/directxapi.cpp:141-169 | the rebuild changes only the resources and the context bindings |
| Protocol.RebuildHandle | PrevEngine/src/api/directx/directxapi.cpp:141-162 | from a released handle, a resource is live after the rebuild exactly when every rebuild call up to and including its creation succeeded |
| Protocol.RebuildLaterNull | PrevEngine/src/api/directx/directxapi.cpp:141-162 | from released handles, a rebuild that leaves one resource null leaves every later resource null |
| Protocol.RebuildLive | PrevEngine/src/api/directx/directxapi.cpp:141-169 | a completed rebuild leaves every resource live |
| Protocol.RebuildBinds | PrevEngine/src/api/directx/directxapi.cpp:159-169 | a completed rebuild binds the targets and the rasterizer and sets the viewport to the new size |
| Protocol.AfterQueryFacts | PrevEngine/src/api/directx/directxapi.cpp:95-102 | the fullscreen query stores the index and changes nothing else, whatever the driver answers |
| Protocol.Resize | PrevEngine/src/api/directx/directxapi.cpp:89-172 | a transition always logs the fullscreen query right after the calls made before it; the lemmas below state the rest |
| Protocol.ResizeStages | PrevEngine/src/api/directx/directxapi.cpp:89-172 | a transition is the flip, the unconditional resize, the teardown and the rebuild, run in this order after the query |
| Protocol.ResizeTrace | PrevEngine/src/api/directx/directxapi.cpp:89-172 | the trace of a transition is the query, then the plan up to and including the first call that fails; it completes exactly when every call succeeds |
| Protocol.ResizeSelects | PrevEngine/src/api/directx/directxapi.cpp:89-172 | a transition selects the wrapped index, leaves the catalog unchanged (so `GetSupportedResolution` answers as before), leaves the backend ready for the next one, and changes nothing but the index, the fullscreen flag, the device objects, the resources and the context (vsync, refresh rate, adapter information and feature level are kept) |
| Protocol.ResizeFlag | PrevEngine/src/api/directx/directxapi.cpp:101-126 | the cached flag flips exactly when it differs from the queried state and every flip call succeeds; it then equals the queried state and the swap chain is fullscreen; without a flip, the device objects are untouched |
| Protocol.ResizeFlipFailure | PrevEngine/src/api/directx/directxapi.cpp:104-122 | when a flip call fails, the transition fails before anything else is touched: the flag and every resource are as before, and only the index and the swap chain's own state may differ |
| Protocol.PreludeStage | PrevEngine/src/api/directx/directxapi.cpp:104-131 | everything before the release completes exactly when all of its calls succeed, and touches no resource |
| Protocol.ResizeHandleKept | PrevEngine/src/api/directx/directxapi.cpp:104-131 | if a call before the release fails, every resource handle is as it was |
| Protocol.ResizeHandleRebuilt | PrevEngine/src/api/directx/directxapi.cpp:128-162 | once everything before the release succeeded, a resource is live at the end exactly when the buffers were resized and every rebuild call up to its creation succeeded |
| Protocol.ResizeReleased | PrevEngine/src/api/directx/directxapi.cpp:128-139 | once everything before the release succeeded, the rebuild starts from a run where all five resources are null |
| Protocol.ResizeHandle | PrevEngine/src/api/directx/directxapi.cpp:128-162 | per resource: the handle is kept if a call before the release fails, and otherwise is live exactly when its rebuild prefix succeeded |
| Protocol.ResizeLaterHandlesNull | PrevEngine/src/api/directx/directxapi.cpp:141-162 | a failure in the rebuild leaves the failing resource and every later one null |
| Protocol.ResizeSuccess | PrevEngine/src/api/directx/directxapi.cpp:141-169 | a completed transition leaves every resource live, targets and rasterizer bound, and the viewport sized to the selected mode |
| Protocol.SetFullscreenSpec | PrevEngine/src/api/directx/directxapi.cpp:71-75 | the unchecked switch to the requested state is made first, then the transition starts with its fullscreen query; `SetFullscreenAgrees` states the rest |
| Protocol.SetFullscreenAgrees | PrevEngine/src/api/directx/directxapi.cpp:71-75 | `SetFullscreen` keeps the catalog and the selected mode; when the switch and the query succeed, no flip runs, and both the flag and the swap chain end in the requested state |
| DirectX.ResizeSplit | PrevEngine/src/api/directx/directxapi.cpp:104-169 | the transition is the flip arm with the flag update, then the resize and teardown, then the rebuild, each run only if the previous one succeeded |
| DirectX.DirectXApi.constructor | PrevEngine/src/api/directx/directxapi.cpp:23-48 | the object ends in the start-up state with `m_Status` as start-up leaves it, and the rendering API is set exactly when the status is true |
| DirectX.DirectXApi.Initialize | PrevEngine/src/api/directx/directxapi.cpp:33-43 | the adapter check, then the device creation only if the check succeeded |
| DirectX.DirectXApi.Invoke | PrevEngine/src/api/directx/directxapi.cpp:8 | a checked call moves the object to the next run of its plan, and a failure is the end of the plan |
| DirectX.DirectXApi.Perform | PrevEngine/src/api/directx/directxapi.cpp:159-169 | a context call whose status nothing depends on (binding the targets, the rasterizer and the viewport, `ClearState`, the release of the resources, `SetWindowPos`) moves the object to the next run of its plan and never ends it |
| DirectX.DirectXApi.Ignore | PrevEngine/src/api/directx/directxapi.cpp:72 | a call whose status is ignored updates the object as `Probe` does |
| DirectX.DirectXApi.BuildResources | PrevEngine/src/api/directx/directxapi.cpp:303-329 | the nine rebuild calls in their fixed order, stopping at the first failure |
| DirectX.DirectXApi.QueryAdapter | PrevEngine/src/api/directx/directxapi.cpp:184-202 | the six adapter queries in order, stopping at the first failure |
| DirectX.DirectXApi.CheckVideoAdapter | PrevEngine/src/api/directx/directxapi.cpp:174-221 | leaves exactly the state `CheckVideoAdapterSpec` describes |
| DirectX.DirectXApi.CreateDeviceAndSwapChain | PrevEngine/src/api/directx/directxapi.cpp:223-332 | leaves exactly the state `CreateDeviceSpec` describes |
| DirectX.DirectXApi.QueryFullscreenState | PrevEngine/src/api/directx/directxapi.cpp:101-102 | the `BOOL` read is the swap chain's state when the query succeeds, and false otherwise; the status is ignored |
| DirectX.DirectXApi.FromFullscreen | PrevEngine/src/api/directx/directxapi.cpp:105-110 | the target resized, then the switch to fullscreen, stopping at the first failure |
| DirectX.DirectXApi.FromWindowed | PrevEngine/src/api/directx/directxapi.cpp:111-121 | the switch to fullscreen, the rectangle adjustment (checked) and the window move, stopping at the first failure |
| DirectX.DirectXApi.ResizeSwapChain | PrevEngine/src/api/directx/directxapi.cpp:128-139 | the target resized, the context cleared, the resources released and the buffers resized, stopping at the first failure |
| DirectX.DirectXApi.ChangeWindowResolution | PrevEngine/src/api/directx/directxapi.cpp:89-172 | returns false on every path, leaves exactly the state `Resize` describes for the wrapped index, and leaves the backend ready for the next transition |
| DirectX.DirectXApi.ChangeResolution | PrevEngine/src/api/directx/directxapi.cpp:77-79 | the transition to the wrapped index, with its result discarded; the backend stays ready |
| DirectX.DirectXApi.SetFullscreen | PrevEngine/src/api/directx/directxapi.cpp:71-75 | leaves exactly the state `SetFullscreenSpec` describes, and the backend stays ready |
| DirectX.DirectXApi.GetSupportedResolution | PrevEngine/src/api/directx/directxapi.cpp:81-87 | one (width, height) pair per catalog entry, in catalog order |
| DirectX.DirectXApi.StartFrame | PrevEngine/src/api/directx/directxapi.cpp:53-58 | clears the render target and then the depth-stencil view |
| DirectX.DirectXApi.EndFrame | PrevEngine/src/api/directx/directxapi.cpp:60-65 | presents once, with interval 1 under vsync and 0 otherwise |
| DirectX.UseDirectX | PrevEngine/src/api/directx/directxapi.cpp:11-21 | the result is null exactly when start-up fails; a backend handed out is new, has status and rendering API set, and is ready for the transitions |

## Left out

- The DXGI, D3D11 and Win32 calls themselves, and `ComPtr` reference counting. Each call is an oracle step that can succeed or fail; its effect on the backend's data is fixed.
- The contents of the depth-stencil and rasterizer descriptors (`directxapi.cpp` lines 334-402). They are constant structure filling with no logic. Only the size passed to the depth buffer is kept.
- `CreateViewport` and its floating-point viewport (lines 404-413). The model keeps only the width and height it is built from.
- Window geometry: the window handle and `GetHWND`, the rectangle `AdjustWindowRectEx` computes, and the size handed to `SetWindowPos`. Only the order of these calls and the status of `AdjustWindowRectEx` are kept.
- `SetWindowPos` and `Present` are treated as calls that cannot fail. The source ignores their status, and nothing it keeps depends on them.
- The adapter description's `_bstr_t` conversion. The description is taken as a string from the environment.
- The swap-chain descriptor fields that do not depend on the backend's state: buffer count, format, scaling, usage, flags, sample description and swap effect.
- `OnEvent` (its body is empty), the empty destructor, and the error messages of `PV_POST_ERROR`.
- `m_Data.RefreshRate` is never assigned by the source but is read when vsync is on. The model takes its value from the environment.
- directxapi.h declares a stale interface: its method list and its `GraphicsData` lack `AllDisplayModes` and `CurrentModeDescriptionIndex`. The model follows the .cpp and uses the header only for the field layout.
- timer.cpp, application.cpp and layerstack.h are not part of this model. They cover the clock, the application loop and the layer declarations, and none of them is part of the backend.
- Protocol.CheckVideoAdapterSpec: an empty mode list makes the adapter check fail. The source goes on with an underflowed index instead (see Findings).
- Protocol.CheckVideoAdapterSpec: the dedicated memory stored is `DedicatedMemoryMB`, the byte count divided first and then narrowed. The source narrows first, which gives `DedicatedMemoryAsWritten` (see Findings).
- DirectX.DirectXApi.CheckVideoAdapter: follows `CheckVideoAdapterSpec`, so it fails on an empty mode list and stores the divide-first memory value, where the source does neither (see Findings).
- Protocol.CheckVideoAdapterFacts: states the corrected adapter check (an empty list is an error, the memory is divided first), not the code as written; `Catalog.EmptyCatalogIndexUnderflows` and `Catalog.DedicatedMemoryTruncation` state the code as written.
- DirectX.DirectXApi.FromWindowed: the `AdjustWindowRectEx` status is checked as intended. The source's ineffective check is modelled separately (see Findings).
- Protocol.FlipCalls: the windowed arm lists the `AdjustWindowRectEx` call as a checked step, so a failed adjustment ends the transition. This correction reaches `Protocol.Resize`, `Protocol.SetFullscreenSpec`, `Protocol.FlipStage`, `Protocol.ResizeFlag`, `Protocol.ResizeTrace`, `Protocol.ResizeFlipFailure` and `DirectX.DirectXApi.ChangeWindowResolution`, `ChangeResolution` and `SetFullscreen`. In the source the arm goes on and moves the window; `Protocol.WindowedArmAsWritten` models that (see Findings).

## Findings

| source | as written | input that shows it | evidently intended | confidence | as-written member | corrected member |
|---|---|---|---|---|---|---|
| PrevEngine/src/api/directx/directxapi.cpp:213 | `CurrentModeDescriptionIndex = AllDisplayModes.size() - 1` with no check for an empty catalog, and `CheckVideoAdapter` returns true | the output reports no display modes: the index becomes `SIZE_MAX` (2^64 − 1 with a 64-bit `size_t`; the field's declaration is not part of this model), and `CreateDeviceAndSwapChain` reads the catalog at that index | an empty mode list is an adapter error, so start-up fails before device creation | not executed | Catalog.EmptyCatalogIndexUnderflows | Protocol.CheckVideoAdapterFacts |
| PrevEngine/src/api/directx/directxapi.cpp:218 | `(UINT)adapterDesc.DedicatedVideoMemory / (1024 * 1024)`: the cast binds before the division | an adapter with 8 GiB (0x2_0000_0000 bytes) of dedicated memory is reported with 0 MB | divide the byte count first, then narrow to `UINT` (8192 MB) | not executed | Catalog.DedicatedMemoryTruncation | Catalog.DedicatedMemoryMB |
| PrevEngine/src/api/directx/directxapi.cpp:117-118 | the `BOOL` returned by `AdjustWindowRectEx` is checked with `FAILED`, which holds only for negative values, and a `BOOL` is 0 or nonzero | the swap chain is windowed while the cached flag says fullscreen, the switch succeeds and `AdjustWindowRectEx` returns 0: the arm goes on and moves the window | a failed adjustment ends the transition like any other failed step | not executed | Protocol.AdjustFailureIgnored | Protocol.ResizeFlipFailure |
