/**
 * What the DirectX backend's operations do to its data and in which order
 * they call the driver, as functions of the state before the call and of the
 * driver's answers: start-up (adapter query, catalog, device and swap chain,
 * resources), the resize and fullscreen transition, and the per-frame calls.
 * The class in directx.dfy is proved to follow these functions; the lemmas
 * here state what the source promises about them.
 */
module Protocol {
  import opened Catalog
  import opened Driver

  datatype Option<T> = None | Some(value: T)

  // ---------------------------------------------------------------------
  // Feature levels

  /** The name `CreateDeviceAndSwapChain` records for the feature level the
      driver selected; the levels below 9_1 and above 11_1 are unknown to it. */
  function FeatureLevelName(level: nat): (name: Option<string>)
    ensures name.Some? <==> level in {0x9100, 0x9200, 0x9300, 0xa000, 0xa100, 0xb000, 0xb100}
  {
    if level == 0xb100 then Some("D3D_FEATURE_LEVEL_11_1")
    else if level == 0xb000 then Some("D3D_FEATURE_LEVEL_11_0")
    else if level == 0xa100 then Some("D3D_FEATURE_LEVEL_10_1")
    else if level == 0xa000 then Some("D3D_FEATURE_LEVEL_10_0")
    else if level == 0x9300 then Some("D3D_FEATURE_LEVEL_9_3")
    else if level == 0x9200 then Some("D3D_FEATURE_LEVEL_9_2")
    else if level == 0x9100 then Some("D3D_FEATURE_LEVEL_9_1")
    else None
  }

  /** The level a recorded name stands for. */
  function FeatureLevelOfName(name: string): Option<nat>
  {
    if name == "D3D_FEATURE_LEVEL_11_1" then Some(0xb100)
    else if name == "D3D_FEATURE_LEVEL_11_0" then Some(0xb000)
    else if name == "D3D_FEATURE_LEVEL_10_1" then Some(0xa100)
    else if name == "D3D_FEATURE_LEVEL_10_0" then Some(0xa000)
    else if name == "D3D_FEATURE_LEVEL_9_3" then Some(0x9300)
    else if name == "D3D_FEATURE_LEVEL_9_2" then Some(0x9200)
    else if name == "D3D_FEATURE_LEVEL_9_1" then Some(0x9100)
    else None
  }

  /** The recorded name identifies the level: distinct levels get distinct names. */
  lemma FeatureLevelNameRoundTrip(level: nat)
    ensures FeatureLevelName(level).Some? ==> FeatureLevelOfName(FeatureLevelName(level).value) == Some(level)
  {
  }

  lemma FeatureLevelOfNameRoundTrip(name: string)
    ensures FeatureLevelOfName(name).Some? ==> FeatureLevelName(FeatureLevelOfName(name).value) == Some(name)
  {
  }

  // ---------------------------------------------------------------------
  // Frames

  /** The sync interval `EndFrame` presents with. */
  function PresentInterval(vsync: bool): (interval: nat)
    ensures interval <= 1
    ensures interval == 1 <==> vsync
  {
    if vsync then 1 else 0
  }

  /** What `StartFrame` asks of the device context. */
  const FrameClears: seq<Event> := [ClearRenderTargetView, ClearDepthStencilView]

  // ---------------------------------------------------------------------
  // Start-up

  /** The calls `CheckVideoAdapter` makes before it reads the mode list. */
  const AdapterQueries: seq<Event> :=
    [CreateDXGIFactory, EnumAdapters, GetAdapterDesc, EnumOutputs, GetDisplayModeCount, GetDisplayModeList]

  /** The driver's answers fit the C++ types that carry them: the mode count is a
      `UINT`, the memory size a `SIZE_T`. */
  predicate WellFormed(env: Environment)
  {
    |env.rawModes| < UintModulus && env.dedicatedVideoMemory < SizeModulus
  }

  /** `GraphicsData` as the constructor leaves it before `CheckVideoAdapter`. */
  function InitialData(vsync: bool, fullscreen: bool, refreshRate: RefreshRate): GraphicsData
  {
    GraphicsData([], 0, 0, "", refreshRate, vsync, fullscreen, 0, "",
                 DeviceObjects(Null, Null, Null, false),
                 Resources(Null, Null, Null, Null, Null),
                 ContextState(false, false, NoViewport))
  }

  /**
   * `CheckVideoAdapter`: the adapter queries, then the catalog, the selected
   * index (the last entry) and the adapter information. Two corrections:
   * an empty mode list is reported as a failure (see `Catalog.LastIndexAsWritten`
   * for what the source does instead), and the memory size is divided before
   * it is narrowed (see `Catalog.DedicatedMemoryAsWritten`).
   */
  function CheckVideoAdapterSpec(d: GraphicsData, log: seq<Event>, env: Environment): (r: Run)
    requires WellFormed(env)
    ensures |log| < |r.log| <= |log| + |AdapterQueries|
    ensures r.log[..|log| + 1] == log + [CreateDXGIFactory]
  {
    AdapterQueriesLog(Run(d, log, true), env);
    var r := Exec(Run(d, log, true), AdapterQueries, env);
    if !r.ok then r
    else
      var modes := Collapsed(env.rawModes);
      if |modes| == 0 then Run(r.data.(modes := modes), r.log, false)
      else Run(r.data.(modes := modes, index := |modes| - 1,
                       adapterDescription := env.adapterDescription,
                       dedicatedVideoMemory := DedicatedMemoryMB(env.dedicatedVideoMemory)),
               r.log, true)
  }

  /** The adapter queries always start with the factory and make at most six calls. */
  lemma AdapterQueriesLog(r: Run, env: Environment)
    requires r.ok
    ensures var e := Exec(r, AdapterQueries, env);
      |r.log| < |e.log| <= |r.log| + |AdapterQueries| && e.log[..|r.log| + 1] == r.log + [CreateDXGIFactory]
  {
    ExecTrace(r, AdapterQueries, env);
    var n := Attempted(env, |r.log|, AdapterQueries);
    assert 0 < n;
    assert (r.log + AdapterQueries[..n])[..|r.log| + 1] == r.log + [AdapterQueries[0]];
  }

  /** A successful adapter check selects an entry of the catalog. */
  lemma AdapterSelects(d: GraphicsData, log: seq<Event>, env: Environment)
    requires WellFormed(env)
    ensures var r := CheckVideoAdapterSpec(d, log, env);
      r.ok ==> r.data.index == |r.data.modes| - 1 && 0 < |r.data.modes|
  {
  }

  /** The swap chain `CreateDeviceAndSwapChain` asks for: sized to the selected
      mode, windowed unless fullscreen, refresh rate 0/1 unless vsync. */
  function DeviceRequest(d: GraphicsData): (s: SwapChainDesc)
    requires d.index < |d.modes|
    ensures s.width == d.modes[d.index].width && s.height == d.modes[d.index].height
    ensures s.windowed <==> !d.fullscreen
    ensures !d.vsync ==> s.refreshRate == RefreshRate(0, 1)
  {
    var m := d.modes[d.index];
    SwapChainDesc(m.width, m.height, if d.vsync then d.refreshRate else RefreshRate(0, 1), !d.fullscreen)
  }

  /** The per-resolution resources, created and bound in their fixed order. */
  function RebuildCalls(width: nat, height: nat): (c: seq<Event>)
    ensures |c| == 9 && c[|c| - 1] == SetViewport(width, height)
  {
    [GetBuffer, CreateRenderTargetView, CreateDepthStencilBuffer(width, height), CreateDepthStencilState,
     CreateDepthStencilView, SetRenderTargets, CreateRasterizerState, SetRasterizerState, SetViewport(width, height)]
  }

  /** Where in RebuildCalls each resource is created. */
  function RebuildIndex(res: Resource): nat
  {
    match res
    case RenderTarget => 1
    case DepthStencilBuffer => 2
    case DepthStencilState => 3
    case DepthStencilView => 4
    case RasterizerState => 6
  }

  /** Each resource is created exactly once, at its place, and nothing there releases one. */
  lemma RebuildCreatesOnce(width: nat, height: nat, res: Resource)
    ensures var es := RebuildCalls(width, height);
      && RebuildIndex(res) < |es|
      && (forall j :: 0 <= j < |es| ==> (Creates(es[j], res) <==> j == RebuildIndex(res)))
      && (forall j :: 0 <= j < |es| ==> !es[j].ReleaseResources?)
  {
  }

  /** `CreateDeviceAndSwapChain`. */
  function CreateDeviceSpec(d: GraphicsData, log: seq<Event>, env: Environment): (r': Run)
    requires d.index < |d.modes|
    ensures |log| < |r'.log| && r'.log[..|log| + 1] == log + [CreateDeviceAndSwapChain(DeviceRequest(d))]
  {
    var m := d.modes[d.index];
    var r := Step(Run(d, log, true), CreateDeviceAndSwapChain(DeviceRequest(d)), env);
    if !r.ok then r
    else match FeatureLevelName(env.featureLevel)
      case None => Run(r.data, r.log, false)
      case Some(name) =>
        var plan := RebuildCalls(m.width, m.height);
        var s := Run(r.data.(featureLevelName := name, featureLevel := env.featureLevel), r.log, true);
        ExecTrace(s, plan, env);
        assert (r.log + plan[..Attempted(env, |r.log|, plan)])[..|log| + 1] == r.log;
        Exec(s, plan, env)
  }

  /** The constructor: `m_Status` is the result of the last step attempted. */
  function Startup(vsync: bool, fullscreen: bool, env: Environment): (r': Run)
    requires WellFormed(env)
    ensures 0 < |r'.log| && r'.log[0] == CreateDXGIFactory
  {
    var r := CheckVideoAdapterSpec(InitialData(vsync, fullscreen, env.staleRefreshRate), [], env);
    assert r.log[0] == r.log[..1][0];
    if !r.ok then r
    else
      var r' := CreateDeviceSpec(r.data, r.log, env);
      assert r'.log[0] == r'.log[..|r.log| + 1][0];
      r'
  }

  // ---------------------------------------------------------------------
  // Resolution and fullscreen transitions

  /** What the transitions need: a non-empty catalog, a selected index inside
      it, and a device, context and swap chain to call. */
  predicate Ready(d: GraphicsData)
  {
    && 0 < |d.modes| < UintModulus
    && d.index < |d.modes|
    && d.objects.swapChain.Live? && d.objects.device.Live? && d.objects.deviceContext.Live?
  }

  /** The target mode handed to `ResizeTarget`: the refresh rate is left to the driver. */
  function ZeroRefresh(m: DisplayMode): DisplayMode
  {
    m.(refreshRate := RefreshRate(0, 0))
  }

  /** The swap chain's fullscreen state as queried at trace position k: the
      `BOOL` stays false when the query fails. */
  predicate Queried(d: GraphicsData, env: Environment, k: nat)
  {
    Succeeds(env, k) && d.objects.chainFullscreen
  }

  /** The calls of the flip branch, as written: both arms switch the swap chain to fullscreen. */
  function FlipCalls(queried: bool, m: DisplayMode): (c: seq<Event>)
    ensures 0 < |c| && (c[0].ResizeTarget? <==> queried)
    ensures SetFullscreenState(true) in c && SetFullscreenState(false) !in c
  {
    if queried then [ResizeTarget(ZeroRefresh(m)), SetFullscreenState(true)]
    else [SetFullscreenState(true), AdjustWindowRect(m.width, m.height), SetWindowPos]
  }

  /** `FAILED(hr)`: a status reports failure when it is negative. */
  predicate Failed(status: int)
  {
    status < 0
  }

  /** What `AdjustWindowRectEx` returns: a `BOOL`, nonzero on success and zero on failure. */
  function AdjustStatus(success: bool): (b: int)
    ensures b == 0 || b == 1
    ensures b == 1 <==> success
  {
    if success then 1 else 0
  }

  /**
   * The windowed arm of the flip branch as written: `CHECK_AND_POST_ERROR`
   * tests the `BOOL` of `AdjustWindowRectEx` with `FAILED`, which no `BOOL`
   * satisfies, so a failed adjustment does not stop the arm and the window
   * is moved anyway. (`FlipCalls` treats the adjustment as checked.)
   */
  function WindowedArmAsWritten(r: Run, m: DisplayMode, env: Environment): (r': Run)
    ensures !r.ok ==> r' == r
    ensures r.ok ==> (r'.ok <==> Succeeds(env, |r.log|))
    ensures r.ok && r'.ok ==> r'.log == r.log + FlipCalls(false, m)
  {
    var r1 := Step(r, SetFullscreenState(true), env);
    if !r1.ok then r1
    else
      var status := AdjustStatus(Succeeds(env, |r1.log|));
      var r2 := Run(r1.data, r1.log + [AdjustWindowRect(m.width, m.height)], !Failed(status));
      if !r2.ok then r2 else Step(r2, SetWindowPos, env)
  }

  /** When the switch succeeds and the adjustment fails, the arm as written
      completes and moves the window, where the checked arm stops. */
  lemma AdjustFailureIgnored(r: Run, m: DisplayMode, env: Environment)
    requires r.ok && Succeeds(env, |r.log|) && !Succeeds(env, |r.log| + 1)
    ensures WindowedArmAsWritten(r, m, env).ok
    ensures WindowedArmAsWritten(r, m, env).log == r.log + FlipCalls(false, m)
    ensures !Exec(r, FlipCalls(false, m), env).ok
  {
    var calls := FlipCalls(false, m);
    assert calls == [SetFullscreenState(true), AdjustWindowRect(m.width, m.height)] + [SetWindowPos];
    ExecAppend(r, [SetFullscreenState(true), AdjustWindowRect(m.width, m.height)], [SetWindowPos], env);
    ExecTwo(r, SetFullscreenState(true), AdjustWindowRect(m.width, m.height), env);
    ExecFailed(Exec(r, [SetFullscreenState(true), AdjustWindowRect(m.width, m.height)], env), [SetWindowPos], env);
  }

  /** The flip branch and the flag update, made when the cached flag and the queried state differ. */
  function Flip(fullscreen: bool, queried: bool, m: DisplayMode): seq<Event>
  {
    if fullscreen != queried then FlipCalls(queried, m) + [ToggleFullscreenFlag] else []
  }

  /** The unconditional resize of the target, then the context cleared. */
  function Refit(m: DisplayMode): seq<Event>
  {
    [ResizeTarget(ZeroRefresh(m)), ClearState]
  }

  /** The resources released and the swap chain's buffers resized. */
  const Teardown: seq<Event> := [ReleaseResources, ResizeBuffers]

  /** Everything before the release of the resources. */
  function Prelude(fullscreen: bool, queried: bool, m: DisplayMode): seq<Event>
  {
    Flip(fullscreen, queried, m) + Refit(m)
  }

  /** Every step of `ChangeWindowResolution` after the fullscreen query, in order. */
  function ResizePlan(fullscreen: bool, queried: bool, m: DisplayMode): seq<Event>
  {
    Prelude(fullscreen, queried, m) + Teardown + RebuildCalls(m.width, m.height)
  }

  /** The index stored and the swap chain's state queried (the status is ignored). */
  function AfterQuery(d: GraphicsData, log: seq<Event>, i: nat, env: Environment): Run
    requires 0 < |d.modes| < SizeModulus
  {
    Probe(Run(d.(index := i), log, true), GetFullscreenState, env)
  }

  /** `ChangeWindowResolution` once the requested index is wrapped into the catalog (`Catalog.StoredIndex`). */
  function Resize(d: GraphicsData, log: seq<Event>, i: nat, env: Environment): (r: Run)
    requires Ready(d) && i < |d.modes|
    ensures |r.log| > |log| && r.log[..|log| + 1] == log + [GetFullscreenState]
  {
    var m := d.modes[i];
    var r0 := AfterQuery(d, log, i, env);
    var plan := ResizePlan(d.fullscreen, Queried(d, env, |log|), m);
    ExecTrace(r0, plan, env);
    assert (r0.log + plan[..Attempted(env, |r0.log|, plan)])[..|log| + 1] == r0.log;
    Exec(r0, plan, env)
  }

  lemma AppendTwo(log: seq<Event>, a: Event, b: Event)
    ensures log + [a] + [b] == log + [a, b]
  {
  }

  /** `SetFullscreen(fullscreen)`: an unchecked switch of the swap chain, the
      cached flag set, then a transition to the selected index. */
  function SetFullscreenSpec(d: GraphicsData, log: seq<Event>, fullscreen: bool, env: Environment): (r': Run)
    requires Ready(d)
    ensures |log| + 1 < |r'.log| && r'.log[..|log| + 2] == log + [SetFullscreenState(fullscreen), GetFullscreenState]
  {
    var r := Probe(Run(d, log, true), SetFullscreenState(fullscreen), env);
    AppendTwo(log, SetFullscreenState(fullscreen), GetFullscreenState);
    Resize(r.data.(fullscreen := fullscreen), r.log, StoredIndex(ToInt32(d.index), |d.modes|), env)
  }

  // ---------------------------------------------------------------------
  // The stages of a transition

  /** A completed flip branch leaves the swap chain fullscreen, whichever arm was taken. */
  lemma FlipReachesFullscreen(r: Run, q: bool, m: DisplayMode, env: Environment)
    requires Exec(r, FlipCalls(q, m), env).ok
    ensures Exec(r, FlipCalls(q, m), env).data.objects.chainFullscreen
  {
    var flip := FlipCalls(q, m);
    if q {
      assert flip == [ResizeTarget(ZeroRefresh(m))] + [SetFullscreenState(true)];
      ExecLast(r, [ResizeTarget(ZeroRefresh(m))], SetFullscreenState(true), env);
    } else {
      assert flip == [SetFullscreenState(true)] + [AdjustWindowRect(m.width, m.height)] + [SetWindowPos];
      ExecLast(r, [SetFullscreenState(true)] + [AdjustWindowRect(m.width, m.height)], SetWindowPos, env);
      ExecLast(r, [SetFullscreenState(true)], AdjustWindowRect(m.width, m.height), env);
      assert [SetFullscreenState(true)] == [] + [SetFullscreenState(true)];
      ExecLast(r, [], SetFullscreenState(true), env);
    }
  }

  /**
   * The flip stage: nothing when flag and query agree; otherwise it completes
   * exactly when every flip call succeeds, and then the cached flag is
   * inverted and the swap chain is fullscreen. Nothing but the flag and the
   * swap chain's own state changes.
   */
  lemma FlipStage(r: Run, fullscreen: bool, q: bool, m: DisplayMode, env: Environment)
    requires r.ok
    ensures var e := Exec(r, Flip(fullscreen, q, m), env);
      && (fullscreen == q ==> e == r)
      && (fullscreen != q ==> e.ok == AllSucceed(env, |r.log|, FlipCalls(q, m)))
      && e.data.fullscreen == (if fullscreen != q && e.ok then !r.data.fullscreen else r.data.fullscreen)
      && (fullscreen != q && e.ok ==> e.data.objects.chainFullscreen)
      && e.data == r.data.(fullscreen := e.data.fullscreen,
                           objects := r.data.objects.(chainFullscreen := e.data.objects.chainFullscreen))
  {
    if fullscreen != q {
      var flip := FlipCalls(q, m);
      var r1 := Exec(r, flip, env);
      assert Exec(r, Flip(fullscreen, q, m), env) == Step(r1, ToggleFullscreenFlag, env) by {
        ExecAppend(r, flip, [ToggleFullscreenFlag], env);
        ExecOne(r1, ToggleFullscreenFlag, env);
      }
      assert r1.ok == AllSucceed(env, |r.log|, flip) by {
        ExecTrace(r, flip, env);
      }
      ExecOnlyChainState(r, flip, env);
      if r1.ok {
        FlipReachesFullscreen(r, q, m, env);
        EffectToggle(r1.data);
      }
    }
  }

  /** The refit stage changes only what is bound to the context, and clears it. */
  lemma RefitStage(r: Run, m: DisplayMode, env: Environment)
    ensures var e := Exec(r, Refit(m), env);
      && e.data == r.data.(context := e.data.context)
      && (e.ok ==> e.data.context == ContextState(false, false, NoViewport))
  {
    ExecTwo(r, ResizeTarget(ZeroRefresh(m)), ClearState, env);
    EffectInert(r.data, ResizeTarget(ZeroRefresh(m)));
  }

  /** The teardown: every resource released, then the buffers resized, which may fail. */
  lemma TeardownStage(r: Run, env: Environment)
    requires r.ok
    ensures var e := Exec(r, Teardown, env);
      && e.ok == Succeeds(env, |r.log| + 1)
      && e.log == r.log + Teardown
      && e.data == r.data.(resources := Resources(Null, Null, Null, Null, Null))
  {
    ExecTwo(r, ReleaseResources, ResizeBuffers, env);
    var s := Step(r, ReleaseResources, env);
    EffectInert(s.data, ResizeBuffers);
    assert r.log + [ReleaseResources] + [ResizeBuffers] == r.log + Teardown;
  }

  /** The rebuild changes only the resources and the bindings. */
  lemma RebuildStage(r: Run, width: nat, height: nat, env: Environment)
    ensures var e := Exec(r, RebuildCalls(width, height), env);
      e.data == r.data.(resources := e.data.resources, context := e.data.context)
  {
    var es := RebuildCalls(width, height);
    assert forall j :: 0 <= j < |es| ==> !es[j].ToggleFullscreenFlag?;
    assert forall j :: 0 <= j < |es| ==> !es[j].SetFullscreenState? && !es[j].CreateDeviceAndSwapChain?;
    ExecFrame(r, es, env);
    ExecKeepsFullscreenFlag(r, es, env);
    ExecKeepsObjects(r, es, env);
  }

  /** From a released handle, a resource is live after the rebuild exactly when
      its creation and every rebuild call before it succeeded. */
  lemma RebuildHandle(r: Run, width: nat, height: nat, env: Environment, res: Resource)
    requires r.ok && HandleOf(r.data, res) == Null
    ensures HandleOf(Exec(r, RebuildCalls(width, height), env).data, res).Live? <==>
      AllSucceed(env, |r.log|, RebuildCalls(width, height)[..RebuildIndex(res) + 1])
  {
    RebuildCreatesOnce(width, height, res);
    ExecCreatesOnce(r, RebuildCalls(width, height), env, res, RebuildIndex(res));
  }

  /** From released handles, a rebuild that leaves one resource null leaves every later one null too. */
  lemma RebuildLaterNull(r: Run, width: nat, height: nat, env: Environment, a: Resource, b: Resource)
    requires r.ok && HandleOf(r.data, a) == Null && HandleOf(r.data, b) == Null
    requires RebuildIndex(a) < RebuildIndex(b)
    requires HandleOf(Exec(r, RebuildCalls(width, height), env).data, a) == Null
    ensures HandleOf(Exec(r, RebuildCalls(width, height), env).data, b) == Null
  {
    var es := RebuildCalls(width, height);
    RebuildHandle(r, width, height, env, a);
    RebuildHandle(r, width, height, env, b);
    AllSucceedShorter(env, |r.log|, es, RebuildIndex(a) + 1, RebuildIndex(b) + 1);
  }

  /** A completed rebuild leaves every resource live, whatever the handles were before. */
  lemma RebuildLive(r: Run, width: nat, height: nat, env: Environment, res: Resource)
    requires r.ok && Exec(r, RebuildCalls(width, height), env).ok
    ensures HandleOf(Exec(r, RebuildCalls(width, height), env).data, res) == Live
  {
    var es := RebuildCalls(width, height);
    RebuildCreatesOnce(width, height, res);
    ExecTrace(r, es, env);
    AllSucceedPrefix(env, |r.log|, es, RebuildIndex(res) + 1);
    ExecCreatesOnceFrom(r, es, env, res, RebuildIndex(res));
  }

  /** After the rebuild calls all succeed, the targets and the rasterizer are
      bound and the viewport covers the new size. */
  lemma RebuildBinds(r: Run, width: nat, height: nat, env: Environment)
    requires Exec(r, RebuildCalls(width, height), env).ok
    ensures var d := Exec(r, RebuildCalls(width, height), env).data;
      d.context == ContextState(true, true, Viewport(width, height))
  {
    var es := RebuildCalls(width, height);
    assert es == es[..8] + [es[8]];
    ExecLast(r, es[..8], es[8], env);
    assert es[..8] == es[..7] + [es[7]];
    ExecLast(r, es[..7], es[7], env);
    assert es[..7] == es[..6] + [es[6]];
    ExecLast(r, es[..6], es[6], env);
    assert es[..6] == es[..5] + [es[5]];
    ExecLast(r, es[..5], es[5], env);
  }

  /** The query stores the index and changes nothing else, whatever the driver answers. */
  lemma AfterQueryFacts(d: GraphicsData, log: seq<Event>, i: nat, env: Environment)
    requires 0 < |d.modes| < SizeModulus
    ensures AfterQuery(d, log, i, env) == Run(d.(index := i), log + [GetFullscreenState], true)
  {
    EffectInert(d.(index := i), GetFullscreenState);
  }

  /** A transition is its stages run one after the other, after the query. */
  lemma ResizeStages(d: GraphicsData, log: seq<Event>, i: nat, env: Environment)
    requires Ready(d) && i < |d.modes|
    ensures var m := d.modes[i];
      var q := Queried(d, env, |log|);
      var r0 := AfterQuery(d, log, i, env);
      Resize(d, log, i, env)
        == Exec(Exec(Exec(Exec(r0, Flip(d.fullscreen, q, m), env), Refit(m), env), Teardown, env),
                RebuildCalls(m.width, m.height), env)
  {
    var m := d.modes[i];
    var q := Queried(d, env, |log|);
    var r0 := AfterQuery(d, log, i, env);
    ExecAppend(r0, Prelude(d.fullscreen, q, m) + Teardown, RebuildCalls(m.width, m.height), env);
    ExecAppend(r0, Prelude(d.fullscreen, q, m), Teardown, env);
    ExecAppend(r0, Flip(d.fullscreen, q, m), Refit(m), env);
  }

  // ---------------------------------------------------------------------
  // Properties of the transitions

  /**
   * The trace of a transition: the query, then the plan up to and including
   * the first call that fails; the transition completes exactly when every
   * call of the plan succeeds.
   */
  lemma ResizeTrace(d: GraphicsData, log: seq<Event>, i: nat, env: Environment)
    requires Ready(d) && i < |d.modes|
    ensures var m := d.modes[i];
      var plan := ResizePlan(d.fullscreen, Queried(d, env, |log|), m);
      var r := Resize(d, log, i, env);
      && r.log == log + [GetFullscreenState] + plan[..Attempted(env, |log| + 1, plan)]
      && r.ok == AllSucceed(env, |log| + 1, plan)
  {
    var m := d.modes[i];
    ExecTrace(AfterQuery(d, log, i, env), ResizePlan(d.fullscreen, Queried(d, env, |log|), m), env);
  }

  /** A transition selects the wrapped index, never changes the catalog (so
      `GetSupportedResolution` answers as before), and leaves the backend ready.
      Besides the index it may change only the fullscreen flag, the device
      objects, the resources and the context: vsync, the refresh rate, the
      adapter information and the feature level are kept. */
  lemma ResizeSelects(d: GraphicsData, log: seq<Event>, i: nat, env: Environment)
    requires Ready(d) && i < |d.modes|
    ensures var r := Resize(d, log, i, env);
      && r.data.modes == d.modes
      && r.data.index == i
      && Ready(r.data)
      && r.data == d.(index := i, fullscreen := r.data.fullscreen, objects := r.data.objects,
                      resources := r.data.resources, context := r.data.context)
  {
    var m := d.modes[i];
    var r0 := AfterQuery(d, log, i, env);
    var plan := ResizePlan(d.fullscreen, Queried(d, env, |log|), m);
    AfterQueryFacts(d, log, i, env);
    ExecKeepsCatalog(r0, plan, env);
    ExecFrame(r0, plan, env);
  }

  /**
   * The cached fullscreen flag flips exactly when the flip branch runs (the
   * flag differs from the queried state) and all of its calls succeed; the
   * swap chain is then fullscreen and the flag equals the state queried.
   * When no flip is needed the device objects are left as they were.
   */
  lemma ResizeFlag(d: GraphicsData, log: seq<Event>, i: nat, env: Environment)
    requires Ready(d) && i < |d.modes|
    ensures var m := d.modes[i];
      var q := Queried(d, env, |log|);
      var flipped := d.fullscreen != q && AllSucceed(env, |log| + 1, FlipCalls(q, m));
      var r := Resize(d, log, i, env);
      && r.data.fullscreen == (if flipped then !d.fullscreen else d.fullscreen)
      && (flipped ==> r.data.fullscreen == q && r.data.objects.chainFullscreen)
      && (d.fullscreen == q ==> r.data.objects == d.objects)
  {
    var m := d.modes[i];
    var q := Queried(d, env, |log|);
    var r0 := AfterQuery(d, log, i, env);
    var r1 := Exec(r0, Flip(d.fullscreen, q, m), env);
    var r2 := Exec(r1, Refit(m), env);
    var r3 := Exec(r2, Teardown, env);
    assert Resize(d, log, i, env) == Exec(r3, RebuildCalls(m.width, m.height), env) by {
      ResizeStages(d, log, i, env);
    }
    AfterQueryFacts(d, log, i, env);
    FlipStage(r0, d.fullscreen, q, m, env);
    RefitStage(r1, m, env);
    if r2.ok {
      TeardownStage(r2, env);
    }
    RebuildStage(r3, m.width, m.height, env);
  }

  /**
   * A failing call of the flip branch ends the transition before anything
   * else is touched: the cached flag and every resource are as they were;
   * only the selected index and the swap chain's own state may differ.
   */
  lemma ResizeFlipFailure(d: GraphicsData, log: seq<Event>, i: nat, env: Environment)
    requires Ready(d) && i < |d.modes|
    requires var m := d.modes[i];
      var q := Queried(d, env, |log|);
      d.fullscreen != q && !AllSucceed(env, |log| + 1, FlipCalls(q, m))
    ensures var r := Resize(d, log, i, env);
      && !r.ok
      && r.data == d.(index := i,
                      objects := d.objects.(chainFullscreen := r.data.objects.chainFullscreen))
  {
    var m := d.modes[i];
    var q := Queried(d, env, |log|);
    var r0 := AfterQuery(d, log, i, env);
    var r1 := Exec(r0, Flip(d.fullscreen, q, m), env);
    AfterQueryFacts(d, log, i, env);
    FlipStage(r0, d.fullscreen, q, m, env);
    assert Resize(d, log, i, env) == r1 by {
      ResizeStages(d, log, i, env);
    }
  }

  /** Everything before the release: it completes exactly when every call of
      it succeeds, and touches no resource. */
  lemma PreludeStage(r: Run, fullscreen: bool, q: bool, m: DisplayMode, env: Environment)
    requires r.ok
    ensures var e := Exec(Exec(r, Flip(fullscreen, q, m), env), Refit(m), env);
      var pre := Prelude(fullscreen, q, m);
      && e.ok == AllSucceed(env, |r.log|, pre)
      && (e.ok ==> |e.log| == |r.log| + |pre|)
      && e.data.resources == r.data.resources
  {
    var pre := Prelude(fullscreen, q, m);
    assert Exec(r, pre, env) == Exec(Exec(r, Flip(fullscreen, q, m), env), Refit(m), env) by {
      ExecAppend(r, Flip(fullscreen, q, m), Refit(m), env);
    }
    ExecTrace(r, pre, env);
    assert AllSucceed(env, |r.log|, pre) ==> Attempted(env, |r.log|, pre) == |pre| by {
      AttemptedStopsAtFirstFailure(env, |r.log|, pre);
    }
    FlipStage(r, fullscreen, q, m, env);
    RefitStage(Exec(r, Flip(fullscreen, q, m), env), m, env);
  }

  /** If a call before the release fails, every resource handle is as it was. */
  lemma ResizeHandleKept(d: GraphicsData, log: seq<Event>, i: nat, env: Environment, res: Resource)
    requires Ready(d) && i < |d.modes|
    requires !AllSucceed(env, |log| + 1, Prelude(d.fullscreen, Queried(d, env, |log|), d.modes[i]))
    ensures HandleOf(Resize(d, log, i, env).data, res) == HandleOf(d, res)
  {
    var m := d.modes[i];
    var q := Queried(d, env, |log|);
    var r0 := AfterQuery(d, log, i, env);
    var r2 := Exec(Exec(r0, Flip(d.fullscreen, q, m), env), Refit(m), env);
    AfterQueryFacts(d, log, i, env);
    PreludeStage(r0, d.fullscreen, q, m, env);
    assert Resize(d, log, i, env) == r2 by {
      ResizeStages(d, log, i, env);
    }
  }

  /**
   * Once everything before the release succeeded, a resource was released
   * and is live again exactly when the buffers were resized and every
   * rebuild call up to and including its creation succeeded.
   */
  lemma ResizeHandleRebuilt(d: GraphicsData, log: seq<Event>, i: nat, env: Environment, res: Resource)
    requires Ready(d) && i < |d.modes|
    requires AllSucceed(env, |log| + 1, Prelude(d.fullscreen, Queried(d, env, |log|), d.modes[i]))
    ensures var m := d.modes[i];
      var pre := Prelude(d.fullscreen, Queried(d, env, |log|), m);
      HandleOf(Resize(d, log, i, env).data, res).Live? <==>
        && Succeeds(env, |log| + |pre| + 2)
        && AllSucceed(env, |log| + |pre| + 3, RebuildCalls(m.width, m.height)[..RebuildIndex(res) + 1])
  {
    var m := d.modes[i];
    var r3 := ResizeReleased(d, log, i, env);
    if r3.ok {
      RebuildHandle(r3, m.width, m.height, env, res);
    } else {
      ExecFailed(r3, RebuildCalls(m.width, m.height), env);
    }
  }

  /** Once everything before the release succeeded, the transition goes on
      from a run with every resource released and the buffers resized. */
  lemma ResizeReleased(d: GraphicsData, log: seq<Event>, i: nat, env: Environment) returns (r3: Run)
    requires Ready(d) && i < |d.modes|
    requires AllSucceed(env, |log| + 1, Prelude(d.fullscreen, Queried(d, env, |log|), d.modes[i]))
    ensures var m := d.modes[i];
      var pre := Prelude(d.fullscreen, Queried(d, env, |log|), m);
      && r3.ok == Succeeds(env, |log| + |pre| + 2)
      && |r3.log| == |log| + |pre| + 3
      && r3.data.resources == Resources(Null, Null, Null, Null, Null)
      && Resize(d, log, i, env) == Exec(r3, RebuildCalls(m.width, m.height), env)
  {
    var m := d.modes[i];
    var q := Queried(d, env, |log|);
    var r0 := AfterQuery(d, log, i, env);
    var r2 := Exec(Exec(r0, Flip(d.fullscreen, q, m), env), Refit(m), env);
    r3 := Exec(r2, Teardown, env);
    ResizeStages(d, log, i, env);
    var pre := Prelude(d.fullscreen, q, m);
    assert r2.ok && |r2.log| == |log| + 1 + |pre| by {
      AfterQueryFacts(d, log, i, env);
      PreludeStage(r0, d.fullscreen, q, m, env);
    }
    TeardownStage(r2, env);
  }

  /**
   * Teardown and rebuild, resource by resource: if a call before the release
   * fails, the handle is as it was; otherwise it was released, and it is live
   * again exactly when the buffers were resized and every rebuild call up to
   * and including its creation succeeded.
   */
  lemma ResizeHandle(d: GraphicsData, log: seq<Event>, i: nat, env: Environment, res: Resource)
    requires Ready(d) && i < |d.modes|
    ensures var m := d.modes[i];
      var pre := Prelude(d.fullscreen, Queried(d, env, |log|), m);
      var r := Resize(d, log, i, env);
      && (!AllSucceed(env, |log| + 1, pre) ==> HandleOf(r.data, res) == HandleOf(d, res))
      && (AllSucceed(env, |log| + 1, pre) ==>
            (HandleOf(r.data, res).Live? <==>
               && Succeeds(env, |log| + |pre| + 2)
               && AllSucceed(env, |log| + |pre| + 3, RebuildCalls(m.width, m.height)[..RebuildIndex(res) + 1])))
  {
    if AllSucceed(env, |log| + 1, Prelude(d.fullscreen, Queried(d, env, |log|), d.modes[i])) {
      ResizeHandleRebuilt(d, log, i, env, res);
    } else {
      ResizeHandleKept(d, log, i, env, res);
    }
  }

  /** A failed rebuild leaves the failing resource and every later one null. */
  lemma ResizeLaterHandlesNull(d: GraphicsData, log: seq<Event>, i: nat, env: Environment, a: Resource, b: Resource)
    requires Ready(d) && i < |d.modes|
    requires RebuildIndex(a) < RebuildIndex(b)
    requires AllSucceed(env, |log| + 1, Prelude(d.fullscreen, Queried(d, env, |log|), d.modes[i]))
    requires HandleOf(Resize(d, log, i, env).data, a) == Null
    ensures HandleOf(Resize(d, log, i, env).data, b) == Null
  {
    var m := d.modes[i];
    var r3 := ResizeReleased(d, log, i, env);
    if r3.ok {
      RebuildLaterNull(r3, m.width, m.height, env, a, b);
    } else {
      ExecFailed(r3, RebuildCalls(m.width, m.height), env);
    }
  }

  /** A completed transition leaves every resource live, bound, and sized to the selected mode. */
  lemma ResizeSuccess(d: GraphicsData, log: seq<Event>, i: nat, env: Environment)
    requires Ready(d) && i < |d.modes|
    requires Resize(d, log, i, env).ok
    ensures var m := d.modes[i];
      var r := Resize(d, log, i, env);
      && (forall res :: HandleOf(r.data, res) == Live)
      && r.data.context == ContextState(true, true, Viewport(m.width, m.height))
  {
    var m := d.modes[i];
    var q := Queried(d, env, |log|);
    var r3 := Exec(Exec(Exec(AfterQuery(d, log, i, env), Flip(d.fullscreen, q, m), env), Refit(m), env), Teardown, env);
    assert Resize(d, log, i, env) == Exec(r3, RebuildCalls(m.width, m.height), env) by {
      ResizeStages(d, log, i, env);
    }
    forall res ensures HandleOf(Resize(d, log, i, env).data, res) == Live {
      RebuildLive(r3, m.width, m.height, env, res);
    }
    RebuildBinds(r3, m.width, m.height, env);
  }

  /**
   * `SetFullscreen` keeps the selected mode; and when the driver accepts the
   * switch and answers the query, no flip branch runs: the cached flag and
   * the swap chain both end in the requested state.
   */
  lemma SetFullscreenAgrees(d: GraphicsData, log: seq<Event>, fullscreen: bool, env: Environment)
    requires Ready(d) && |d.modes| <= 0x8000_0000
    ensures var r := SetFullscreenSpec(d, log, fullscreen, env);
      && r.data.index == d.index && r.data.modes == d.modes
      && (Succeeds(env, |log|) && Succeeds(env, |log| + 1) ==>
            r.data.fullscreen == fullscreen && r.data.objects.chainFullscreen == fullscreen)
  {
    var r := Probe(Run(d, log, true), SetFullscreenState(fullscreen), env);
    var d1 := r.data.(fullscreen := fullscreen);
    assert ToInt32(d.index) == d.index;
    ResizeSelects(d1, r.log, d.index, env);
    if Succeeds(env, |log|) && Succeeds(env, |log| + 1) {
      ResizeFlag(d1, r.log, d.index, env);
    }
  }

  // ---------------------------------------------------------------------
  // The stages of start-up

  /**
   * The adapter check: the queries up to the first failure; it succeeds
   * exactly when they all do and the catalog is not empty, and then records
   * the catalog, selects its last entry and stores the adapter's description
   * and memory. The device objects and resources are never touched.
   */
  lemma CheckVideoAdapterFacts(d: GraphicsData, log: seq<Event>, env: Environment)
    requires WellFormed(env)
    ensures var r := CheckVideoAdapterSpec(d, log, env);
      var modes := Collapsed(env.rawModes);
      && r.log == log + AdapterQueries[..Attempted(env, |log|, AdapterQueries)]
      && (r.ok <==> AllSucceed(env, |log|, AdapterQueries) && modes != [])
      && (r.ok ==> r.log == log + AdapterQueries)
      && r.data.objects == d.objects && r.data.resources == d.resources
      && (r.ok ==> r.data == d.(modes := modes, index := |modes| - 1,
                                adapterDescription := env.adapterDescription,
                                dedicatedVideoMemory := DedicatedMemoryMB(env.dedicatedVideoMemory)))
  {
    AdapterStage(Run(d, log, true), env);
  }

  /** The adapter queries change no data; they stop at the first failure. */
  lemma AdapterStage(r: Run, env: Environment)
    requires r.ok
    ensures var e := Exec(r, AdapterQueries, env);
      && e.data == r.data
      && e.log == r.log + AdapterQueries[..Attempted(env, |r.log|, AdapterQueries)]
      && e.ok == AllSucceed(env, |r.log|, AdapterQueries)
      && (e.ok ==> e.log == r.log + AdapterQueries)
  {
    AdapterQueriesInert();
    InertStage(r, AdapterQueries, env);
  }

  /** None of the adapter queries changes the data. */
  lemma AdapterQueriesInert()
    ensures forall j :: 0 <= j < |AdapterQueries| ==> Inert(AdapterQueries[j])
  {
    var es := AdapterQueries;
    forall j | 0 <= j < |es| ensures Inert(es[j]) {
      if j == 0 { assert es[j] == CreateDXGIFactory; }
      else if j == 1 { assert es[j] == EnumAdapters; }
      else if j == 2 { assert es[j] == GetAdapterDesc; }
      else if j == 3 { assert es[j] == EnumOutputs; }
      else if j == 4 { assert es[j] == GetDisplayModeCount; }
      else { assert es[j] == GetDisplayModeList; }
    }
  }

  /**
   * Device creation: the request is logged first; it completes exactly when
   * the driver creates the device at a known feature level and every rebuild
   * call succeeds, and then the device objects are live, the swap chain in
   * the requested state, every resource live and bound to the selected mode.
   */
  lemma CreateDeviceFacts(d: GraphicsData, log: seq<Event>, env: Environment)
    requires d.index < |d.modes|
    ensures var m := d.modes[d.index];
      var r := CreateDeviceSpec(d, log, env);
      && |r.log| > |log| && r.log[..|log|] == log && r.log[|log|] == CreateDeviceAndSwapChain(DeviceRequest(d))
      && (r.ok <==> && Succeeds(env, |log|)
                    && FeatureLevelName(env.featureLevel).Some?
                    && AllSucceed(env, |log| + 1, RebuildCalls(m.width, m.height)))
      && (r.ok ==> && r.data.modes == d.modes && r.data.index == d.index
                   && r.data.fullscreen == d.fullscreen && r.data.vsync == d.vsync
                   && r.data.objects == DeviceObjects(Live, Live, Live, d.fullscreen)
                   && (forall res :: HandleOf(r.data, res) == Live)
                   && r.data.context == ContextState(true, true, Viewport(m.width, m.height))
                   && r.data.featureLevel == env.featureLevel
                   && FeatureLevelName(env.featureLevel) == Some(r.data.featureLevelName)
                   && r.data.adapterDescription == d.adapterDescription
                   && r.data.dedicatedVideoMemory == d.dedicatedVideoMemory
                   && r.data.refreshRate == d.refreshRate)
  {
    CreateDeviceLog(d, log, env);
    CreateDeviceStatus(d, log, env);
    CreateDeviceData(d, log, env);
  }

  /** The device request, when the driver accepts it at a known level: the run the rebuild starts from. */
  function Created(d: GraphicsData, log: seq<Event>, env: Environment): Run
    requires d.index < |d.modes|
  {
    var s := Step(Run(d, log, true), CreateDeviceAndSwapChain(DeviceRequest(d)), env);
    var name := FeatureLevelName(env.featureLevel);
    Run(s.data.(featureLevelName := if name.Some? then name.value else "", featureLevel := env.featureLevel),
        s.log, s.ok && name.Some?)
  }

  lemma CreatedFacts(d: GraphicsData, log: seq<Event>, env: Environment)
    requires d.index < |d.modes|
    ensures var c := Created(d, log, env);
      var m := d.modes[d.index];
      && c.log == log + [CreateDeviceAndSwapChain(DeviceRequest(d))]
      && (c.ok <==> Succeeds(env, |log|) && FeatureLevelName(env.featureLevel).Some?)
      && (c.ok ==> CreateDeviceSpec(d, log, env) == Exec(c, RebuildCalls(m.width, m.height), env))
      && (!c.ok ==> CreateDeviceSpec(d, log, env).log == c.log && !CreateDeviceSpec(d, log, env).ok)
      && (c.ok ==> && c.data.modes == d.modes && c.data.index == d.index
                   && c.data.fullscreen == d.fullscreen && c.data.vsync == d.vsync
                   && c.data.objects == DeviceObjects(Live, Live, Live, d.fullscreen))
  {
  }

  lemma CreateDeviceLog(d: GraphicsData, log: seq<Event>, env: Environment)
    requires d.index < |d.modes|
    ensures var r := CreateDeviceSpec(d, log, env);
      && |r.log| > |log| && r.log[..|log|] == log && r.log[|log|] == CreateDeviceAndSwapChain(DeviceRequest(d))
  {
    var c := Created(d, log, env);
    CreatedFacts(d, log, env);
    if c.ok {
      var m := d.modes[d.index];
      var es := RebuildCalls(m.width, m.height);
      ExecTrace(c, es, env);
      var t := es[..Attempted(env, |c.log|, es)];
      assert (c.log + t)[..|log|] == log;
      assert (c.log + t)[|log|] == c.log[|log|];
    }
  }

  lemma CreateDeviceStatus(d: GraphicsData, log: seq<Event>, env: Environment)
    requires d.index < |d.modes|
    ensures var m := d.modes[d.index];
      CreateDeviceSpec(d, log, env).ok <==>
        && Succeeds(env, |log|)
        && FeatureLevelName(env.featureLevel).Some?
        && AllSucceed(env, |log| + 1, RebuildCalls(m.width, m.height))
  {
    var c := Created(d, log, env);
    CreatedFacts(d, log, env);
    if c.ok {
      var m := d.modes[d.index];
      ExecTrace(c, RebuildCalls(m.width, m.height), env);
    }
  }

  lemma CreateDeviceData(d: GraphicsData, log: seq<Event>, env: Environment)
    requires d.index < |d.modes|
    ensures var m := d.modes[d.index];
      var r := CreateDeviceSpec(d, log, env);
      r.ok ==> && r.data.modes == d.modes && r.data.index == d.index
               && r.data.fullscreen == d.fullscreen && r.data.vsync == d.vsync
               && r.data.objects == DeviceObjects(Live, Live, Live, d.fullscreen)
               && (forall res :: HandleOf(r.data, res) == Live)
               && r.data.context == ContextState(true, true, Viewport(m.width, m.height))
               && r.data.featureLevel == env.featureLevel
               && FeatureLevelName(env.featureLevel) == Some(r.data.featureLevelName)
               && r.data.adapterDescription == d.adapterDescription
               && r.data.dedicatedVideoMemory == d.dedicatedVideoMemory
               && r.data.refreshRate == d.refreshRate
  {
    var c := Created(d, log, env);
    CreatedFacts(d, log, env);
    var m := d.modes[d.index];
    var e := Exec(c, RebuildCalls(m.width, m.height), env);
    if c.ok && e.ok {
      ExecFrame(c, RebuildCalls(m.width, m.height), env);
      RebuildStage(c, m.width, m.height, env);
      forall res ensures HandleOf(e.data, res) == Live {
        RebuildLive(c, m.width, m.height, env, res);
      }
      RebuildBinds(c, m.width, m.height, env);
    }
  }

  // ---------------------------------------------------------------------
  // Properties of start-up

  /** When the adapter check fails, start-up stops there: no device creation is attempted. */
  lemma StartupSkipsDevice(vsync: bool, fullscreen: bool, env: Environment)
    requires WellFormed(env)
    requires !CheckVideoAdapterSpec(InitialData(vsync, fullscreen, env.staleRefreshRate), [], env).ok
    ensures var r := Startup(vsync, fullscreen, env);
      && !r.ok
      && (forall k :: 0 <= k < |r.log| ==> !r.log[k].CreateDeviceAndSwapChain?)
      && (forall res :: HandleOf(r.data, res) == Null)
  {
    var d := InitialData(vsync, fullscreen, env.staleRefreshRate);
    CheckVideoAdapterFacts(d, [], env);
    var r := CheckVideoAdapterSpec(d, [], env);
    AdapterQueriesInert();
    forall k | 0 <= k < |r.log| ensures !r.log[k].CreateDeviceAndSwapChain? {
      assert r.log[k] == AdapterQueries[k];
    }
  }

  /**
   * Start-up succeeds exactly when the adapter queries succeed, the catalog is
   * not empty, the device is created at a known feature level and every
   * resource is built.
   */
  lemma StartupStatus(vsync: bool, fullscreen: bool, env: Environment)
    requires WellFormed(env)
    ensures var modes := Collapsed(env.rawModes);
      Startup(vsync, fullscreen, env).ok <==>
        && AllSucceed(env, 0, AdapterQueries)
        && |modes| > 0
        && Succeeds(env, |AdapterQueries|)
        && FeatureLevelName(env.featureLevel).Some?
        && AllSucceed(env, |AdapterQueries| + 1, RebuildCalls(Last(modes).width, Last(modes).height))
  {
    var d := InitialData(vsync, fullscreen, env.staleRefreshRate);
    var r := CheckVideoAdapterSpec(d, [], env);
    assert Startup(vsync, fullscreen, env) == if r.ok then CreateDeviceSpec(r.data, r.log, env) else r;
    CheckVideoAdapterFacts(d, [], env);
    if r.ok {
      assert |r.log| == |AdapterQueries|;
      assert r.data.modes[r.data.index] == Last(Collapsed(env.rawModes));
      CreateDeviceFacts(r.data, r.log, env);
    }
  }

  /**
   * The swap chain start-up asks for, once the catalog is built: sized to the
   * last catalog entry, windowed exactly when not fullscreen, and with
   * refresh rate 0/1 unless vsync is on.
   */
  lemma StartupDeviceRequest(vsync: bool, fullscreen: bool, env: Environment)
    requires WellFormed(env)
    requires CheckVideoAdapterSpec(InitialData(vsync, fullscreen, env.staleRefreshRate), [], env).ok
    ensures var m := Last(Collapsed(env.rawModes));
      var r := Startup(vsync, fullscreen, env);
      && |r.log| > |AdapterQueries|
      && r.log[..|AdapterQueries|] == AdapterQueries
      && r.log[|AdapterQueries|] == CreateDeviceAndSwapChain(SwapChainDesc(
           m.width, m.height, if vsync then env.staleRefreshRate else RefreshRate(0, 1), !fullscreen))
  {
    var d := InitialData(vsync, fullscreen, env.staleRefreshRate);
    var r := CheckVideoAdapterSpec(d, [], env);
    assert Startup(vsync, fullscreen, env) == CreateDeviceSpec(r.data, r.log, env);
    CheckVideoAdapterFacts(d, [], env);
    CreateDeviceFacts(r.data, r.log, env);
    assert r.log == AdapterQueries;
  }

  /**
   * A successful start-up leaves the backend ready for transitions: the
   * catalog built from the driver's list, the last entry selected, the swap
   * chain in the requested fullscreen state, every resource live and bound,
   * and the adapter information and feature level recorded.
   */
  lemma StartupReady(vsync: bool, fullscreen: bool, env: Environment)
    requires WellFormed(env)
    requires Startup(vsync, fullscreen, env).ok
    ensures var r := Startup(vsync, fullscreen, env);
      && Ready(r.data)
      && r.data.modes == Collapsed(env.rawModes)
      && r.data.index == |r.data.modes| - 1
      && r.data.fullscreen == fullscreen && r.data.objects.chainFullscreen == fullscreen
      && r.data.vsync == vsync
      && (forall res :: HandleOf(r.data, res) == Live)
      && r.data.context == ContextState(true, true, Viewport(Last(r.data.modes).width, Last(r.data.modes).height))
      && r.data.featureLevel == env.featureLevel
      && FeatureLevelName(env.featureLevel) == Some(r.data.featureLevelName)
      && r.data.adapterDescription == env.adapterDescription
      && r.data.dedicatedVideoMemory == DedicatedMemoryMB(env.dedicatedVideoMemory)
      && r.data.refreshRate == env.staleRefreshRate
  {
    var d := InitialData(vsync, fullscreen, env.staleRefreshRate);
    CheckVideoAdapterFacts(d, [], env);
    var r := CheckVideoAdapterSpec(d, [], env);
    CreateDeviceFacts(r.data, r.log, env);
  }
}
