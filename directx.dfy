/**
 * The DirectX 11 backend object (`DirectXAPI`): its data, the trace of the
 * driver calls it has made, and its status, updated call by call as the
 * source does. Every method is proved to leave exactly the state the
 * corresponding function of `Protocol` describes, so the lemmas proved
 * there are facts about these methods.
 */
module DirectX {
  import opened Catalog
  import opened Driver
  import opened Protocol

  // ---------------------------------------------------------------------
  // Call plans, as seen by the methods of the class

  /** t holds the run before each event of es and after the last. */
  ghost predicate StepsOf(t: seq<Run>, es: seq<Event>, env: Environment)
  {
    && |t| == |es| + 1
    && (forall j {:trigger Step(t[j], es[j], env)} :: 0 <= j < |es| ==> t[j + 1] == Step(t[j], es[j], env))
  }

  /** The runs of es from r: they start at r and end where Exec does. */
  lemma {:induction false} StepsFrom(r: Run, es: seq<Event>, env: Environment) returns (t: seq<Run>)
    ensures StepsOf(t, es, env) && t[0] == r && t[|es|] == Exec(r, es, env)
    decreases |es|
  {
    if es == [] {
      t := [r];
    } else {
      var rest := StepsFrom(Step(r, es[0], env), es[1..], env);
      t := [r] + rest;
      forall j | 0 <= j < |es|
        ensures t[j + 1] == Step(t[j], es[j], env)
      {
        if j > 0 {
          assert t[j] == rest[j - 1] && es[j] == es[1..][j - 1];
          assert rest[j] == Step(rest[j - 1], es[1..][j - 1], env);
        }
      }
    }
  }

  /** t holds the runs of plan, whose event k is e, and r is the run before it. */
  ghost predicate At(plan: seq<Event>, t: seq<Run>, k: int, e: Event, r: Run, env: Environment)
  {
    StepsOf(t, plan, env) && 0 <= k < |plan| && plan[k] == e && t[k] == r
  }

  /** Once a run has failed, the runs after it are the same. */
  lemma {:induction false} StepsStuck(t: seq<Run>, es: seq<Event>, k: nat, env: Environment)
    requires StepsOf(t, es, env) && k <= |es| && !t[k].ok
    ensures t[|es|] == t[k]
    decreases |es| - k
  {
    if k < |es| {
      assert t[k + 1] == Step(t[k], es[k], env);
      StepsStuck(t, es, k + 1, env);
    }
  }

  /** The adapter queries, call by call. */
  lemma AdapterPlan() returns (plan: seq<Event>)
    ensures plan == AdapterQueries
    ensures |plan| == 6 && plan[0] == CreateDXGIFactory && plan[1] == EnumAdapters && plan[2] == GetAdapterDesc
    ensures plan[3] == EnumOutputs && plan[4] == GetDisplayModeCount && plan[5] == GetDisplayModeList
  {
    plan := AdapterQueries;
  }

  /** The resource rebuild, call by call. */
  lemma RebuildPlan(width: nat, height: nat) returns (plan: seq<Event>)
    ensures plan == RebuildCalls(width, height)
    ensures |plan| == 9 && plan[0] == GetBuffer && plan[1] == CreateRenderTargetView
    ensures plan[2] == CreateDepthStencilBuffer(width, height) && plan[3] == CreateDepthStencilState
    ensures plan[4] == CreateDepthStencilView && plan[5] == SetRenderTargets && plan[6] == CreateRasterizerState
    ensures plan[7] == SetRasterizerState && plan[8] == SetViewport(width, height)
  {
    plan := RebuildCalls(width, height);
  }

  /** The arms of the flip branch, call by call. */
  lemma FromFullscreenPlan(m: DisplayMode) returns (plan: seq<Event>)
    ensures plan == FlipCalls(true, m)
    ensures |plan| == 2 && plan[0] == ResizeTarget(ZeroRefresh(m)) && plan[1] == SetFullscreenState(true)
  {
    plan := FlipCalls(true, m);
  }

  /** The windowed arm of the flip, call by call. */
  lemma FromWindowedPlan(m: DisplayMode) returns (plan: seq<Event>)
    ensures plan == FlipCalls(false, m)
    ensures |plan| == 3 && plan[0] == SetFullscreenState(true)
    ensures plan[1] == AdjustWindowRect(m.width, m.height) && plan[2] == SetWindowPos
  {
    plan := FlipCalls(false, m);
  }

  /** The resize of the target and of the buffers, call by call. */
  lemma RefitPlan(m: DisplayMode) returns (plan: seq<Event>)
    ensures plan == Refit(m) + Teardown
    ensures |plan| == 4 && plan[0] == ResizeTarget(ZeroRefresh(m)) && plan[1] == ClearState
    ensures plan[2] == ReleaseResources && plan[3] == ResizeBuffers
  {
    plan := Refit(m) + Teardown;
  }

  /** The flag update after a completed flip arm. */
  function Toggled(r: Run): Run
  {
    if r.ok then Run(r.data.(fullscreen := !r.data.fullscreen), r.log + [ToggleFullscreenFlag], true) else r
  }

  /** The transition to index i in its three stages, each started only if
      the one before has succeeded. */
  lemma ResizeSplit(d: GraphicsData, log: seq<Event>, i: nat, env: Environment) returns (flipped: Run, refitted: Run)
    requires Ready(d) && i < |d.modes|
    ensures var q := Queried(d, env, |log|);
      d.fullscreen == q ==> flipped == AfterQuery(d, log, i, env)
    ensures var q := Queried(d, env, |log|);
      d.fullscreen != q ==> flipped == Toggled(Exec(AfterQuery(d, log, i, env), FlipCalls(q, d.modes[i]), env))
    ensures flipped.ok ==> refitted == Exec(flipped, Refit(d.modes[i]) + Teardown, env)
    ensures var m := d.modes[i];
      Resize(d, log, i, env) ==
        if !flipped.ok then flipped
        else if !refitted.ok then refitted
        else Exec(refitted, RebuildCalls(m.width, m.height), env)
  {
    var m := d.modes[i];
    var r0 := AfterQuery(d, log, i, env);
    var q := Queried(d, env, |log|);
    var flip := Flip(d.fullscreen, q, m);
    var rebuild := RebuildCalls(m.width, m.height);
    flipped := Exec(r0, flip, env);
    refitted := Exec(flipped, Refit(m) + Teardown, env);
    if d.fullscreen != q {
      var armed := Exec(r0, FlipCalls(q, m), env);
      ExecAppend(r0, FlipCalls(q, m), [ToggleFullscreenFlag], env);
      ExecOne(armed, ToggleFullscreenFlag, env);
      if armed.ok {
        EffectToggle(armed.data);
      }
    }
    assert ResizePlan(d.fullscreen, Queried(d, env, |log|), m) == flip + ((Refit(m) + Teardown) + rebuild);
    ExecAppend(r0, flip, (Refit(m) + Teardown) + rebuild, env);
    ExecAppend(flipped, Refit(m) + Teardown, rebuild, env);
    if !flipped.ok {
      ExecFailed(flipped, (Refit(m) + Teardown) + rebuild, env);
    } else if !refitted.ok {
      ExecFailed(refitted, rebuild, env);
    }
  }

  class DirectXApi {
    /** The driver, the window system and the adapter, as seen by this object. */
    const env: Environment
    /** `m_Data`. */
    var data: GraphicsData
    /** The calls made so far, in order. */
    var log: seq<Event>
    /** `m_Status`. */
    var status: bool
    /** Whether `m_RenderingAPI` was set to `RENDERING_API_DIRECTX`. */
    var renderingApi: bool

    /**
     * The constructor: the vsync and fullscreen flags recorded, then the
     * adapter checked and the device created, stopping at the first that
     * fails; the rendering API is set only when both succeed.
     */
    constructor (vsync: bool, fullscreen: bool, env: Environment)
      requires WellFormed(env)
      ensures this.env == env
      ensures Run(data, log, status) == Startup(vsync, fullscreen, env)
      ensures renderingApi == status
    {
      this.env := env;
      data := InitialData(vsync, fullscreen, env.staleRefreshRate);
      log := [];
      status := false;
      renderingApi := false;
      new;
      status := Initialize();
      if !status {
        return;
      }
      renderingApi := true;
    }

    /** The constructor's two checked steps: the adapter, then the device,
        stopping at the first that fails. */
    method Initialize() returns (ok: bool)
      requires WellFormed(env)
      modifies this`data, this`log
      ensures var r := CheckVideoAdapterSpec(old(data), old(log), env);
        Run(data, log, ok) == if r.ok then CreateDeviceSpec(r.data, r.log, env) else r
    {
      AdapterSelects(data, log, env);
      ok := CheckVideoAdapter();
      if !ok {
        return;
      }
      ok := CreateDeviceAndSwapChain();
    }

    /**
     * A call whose status is checked, made as event k of `plan` whose runs
     * are t: the object moves to the next run, and a failure ends the plan
     * there.
     */
    method Invoke(e: Event, ghost plan: seq<Event>, ghost t: seq<Run>, ghost k: int) returns (ok: bool)
      requires At(plan, t, k, e, Run(data, log, true), env)
      modifies this`data, this`log
      ensures Run(data, log, ok) == t[k + 1]
      ensures !ok ==> Run(data, log, ok) == t[|plan|]
    {
      assert t[k + 1] == Step(t[k], plan[k], env);
      ok := !Fallible(e) || Succeeds(env, |log|);
      if ok {
        data := Effect(data, e);
      }
      log := log + [e];
      if !ok {
        StepsStuck(t, plan, k + 1, env);
      }
    }

    /** A call that returns nothing (or whose status nothing depends on), or a
        bookkeeping step, made as event k of `plan` whose runs are t. */
    method Perform(e: Event, ghost plan: seq<Event>, ghost t: seq<Run>, ghost k: int)
      requires !Fallible(e)
      requires At(plan, t, k, e, Run(data, log, true), env)
      modifies this`data, this`log
      ensures Run(data, log, true) == t[k + 1]
    {
      assert t[k + 1] == Step(t[k], plan[k], env);
      data := Effect(data, e);
      log := log + [e];
    }

    /** A call whose status is ignored: its effect happens only if it succeeds. */
    method Ignore(e: Event)
      modifies this`data, this`log
      ensures Run(data, log, true) == Probe(Run(old(data), old(log), true), e, env)
    {
      if !Fallible(e) || Succeeds(env, |log|) {
        data := Effect(data, e);
      }
      log := log + [e];
    }

    /**
     * The back buffer fetched, the render target view, depth-stencil buffer,
     * state and view created, the targets bound, the rasterizer state created
     * and bound and the viewport set; the same sequence ends both
     * `CreateDeviceAndSwapChain` and `ChangeWindowResolution`.
     */
    method BuildResources(width: nat, height: nat) returns (ok: bool)
      modifies this`data, this`log
      ensures Run(data, log, ok) == Exec(Run(old(data), old(log), true), RebuildCalls(width, height), env)
    {
      ghost var plan := RebuildPlan(width, height);
      ghost var t := StepsFrom(Run(data, log, true), plan, env);
      ok := Invoke(GetBuffer, plan, t, 0);
      if !ok { return; }
      ok := Invoke(CreateRenderTargetView, plan, t, 1);
      if !ok { return; }
      ok := Invoke(CreateDepthStencilBuffer(width, height), plan, t, 2);
      if !ok { return; }
      ok := Invoke(CreateDepthStencilState, plan, t, 3);
      if !ok { return; }
      ok := Invoke(CreateDepthStencilView, plan, t, 4);
      if !ok { return; }
      Perform(SetRenderTargets, plan, t, 5);
      ok := Invoke(CreateRasterizerState, plan, t, 6);
      if !ok { return; }
      Perform(SetRasterizerState, plan, t, 7);
      Perform(SetViewport(width, height), plan, t, 8);
    }

    /** The factory, the primary adapter, its description, its primary
        output and the two mode-list queries, stopping at the first failure. */
    method QueryAdapter() returns (ok: bool)
      modifies this`data, this`log
      ensures Run(data, log, ok) == Exec(Run(old(data), old(log), true), AdapterQueries, env)
    {
      ghost var plan := AdapterPlan();
      ghost var t := StepsFrom(Run(data, log, true), plan, env);
      ok := Invoke(CreateDXGIFactory, plan, t, 0);
      if !ok { return; }
      ok := Invoke(EnumAdapters, plan, t, 1);
      if !ok { return; }
      ok := Invoke(GetAdapterDesc, plan, t, 2);
      if !ok { return; }
      ok := Invoke(EnumOutputs, plan, t, 3);
      if !ok { return; }
      ok := Invoke(GetDisplayModeCount, plan, t, 4);
      if !ok { return; }
      ok := Invoke(GetDisplayModeList, plan, t, 5);
    }

    /**
     * `CheckVideoAdapter`: the adapter queries, then the catalog filled from
     * the mode list, its last entry selected and the adapter's description
     * and memory recorded. An empty list is reported as a failure, and the
     * memory is divided before it is narrowed (`Catalog.DedicatedMemoryMB`).
     */
    method CheckVideoAdapter() returns (ok: bool)
      requires WellFormed(env)
      modifies this`data, this`log
      ensures Run(data, log, ok) == CheckVideoAdapterSpec(old(data), old(log), env)
    {
      ok := QueryAdapter();
      if !ok { return; }
      var modes := Deduplicate(env.rawModes);
      data := data.(modes := modes);
      if |modes| == 0 {
        return false;
      }
      data := data.(index := |modes| - 1,
                    adapterDescription := env.adapterDescription,
                    dedicatedVideoMemory := DedicatedMemoryMB(env.dedicatedVideoMemory));
      return true;
    }

    /**
     * `CreateDeviceAndSwapChain`: the device, its context and a swap chain
     * sized to the selected mode (windowed unless fullscreen, refresh rate
     * 0/1 unless vsync), the selected feature level named (an unknown level
     * fails), then the resources built for the selected mode.
     */
    method CreateDeviceAndSwapChain() returns (ok: bool)
      requires data.index < |data.modes|
      modifies this`data, this`log
      ensures Run(data, log, ok) == CreateDeviceSpec(old(data), old(log), env)
    {
      var width := data.modes[data.index].width;
      var height := data.modes[data.index].height;
      var refreshRate := if data.vsync then data.refreshRate else RefreshRate(0, 1);
      var windowed := !data.fullscreen;
      var create := Driver.CreateDeviceAndSwapChain(SwapChainDesc(width, height, refreshRate, windowed));
      ghost var t := StepsFrom(Run(data, log, true), [create], env);
      ExecOne(Run(data, log, true), create, env);
      ok := Invoke(create, [create], t, 0);
      if !ok { return; }
      match FeatureLevelName(env.featureLevel)
      case None =>
        return false;
      case Some(name) =>
        data := data.(featureLevelName := name, featureLevel := env.featureLevel);
        ok := BuildResources(width, height);
    }

    /** `GetFullscreenState`, whose status is ignored: the `BOOL` it fills
        stays false when the call fails. */
    method QueryFullscreenState() returns (isFullscreen: bool)
      modifies this`data, this`log
      ensures isFullscreen == Queried(old(data), env, |old(log)|)
      ensures Run(data, log, true) == Probe(Run(old(data), old(log), true), GetFullscreenState, env)
    {
      isFullscreen := false;
      if Succeeds(env, |log|) {
        isFullscreen := data.objects.chainFullscreen;
      }
      Ignore(GetFullscreenState);
    }

    /** The arm taken when the swap chain is fullscreen: the target resized,
        then the swap chain switched to fullscreen (as written). */
    method FromFullscreen(mode: DisplayMode) returns (ok: bool)
      modifies this`data, this`log
      ensures Run(data, log, ok) == Exec(Run(old(data), old(log), true), FlipCalls(true, mode), env)
    {
      ghost var plan := FromFullscreenPlan(mode);
      ghost var t := StepsFrom(Run(data, log, true), plan, env);
      ok := Invoke(ResizeTarget(mode.(refreshRate := RefreshRate(0, 0))), plan, t, 0);
      if !ok { return; }
      ok := Invoke(SetFullscreenState(true), plan, t, 1);
    }

    /** The arm taken when the swap chain is windowed: the swap chain switched
        to fullscreen (as written), the window rectangle adjusted to the mode
        and the window resized. */
    method FromWindowed(mode: DisplayMode) returns (ok: bool)
      modifies this`data, this`log
      ensures Run(data, log, ok) == Exec(Run(old(data), old(log), true), FlipCalls(false, mode), env)
    {
      ghost var plan := FromWindowedPlan(mode);
      ghost var t := StepsFrom(Run(data, log, true), plan, env);
      ok := Invoke(SetFullscreenState(true), plan, t, 0);
      if !ok { return; }
      ok := Invoke(AdjustWindowRect(mode.width, mode.height), plan, t, 1);
      if !ok { return; }
      Perform(SetWindowPos, plan, t, 2);
    }

    /** The target resized to the mode, the context cleared, the five
        resources set to `nullptr` and the buffers resized. */
    method ResizeSwapChain(mode: DisplayMode) returns (ok: bool)
      modifies this`data, this`log
      ensures Run(data, log, ok) == Exec(Run(old(data), old(log), true), Refit(mode) + Teardown, env)
    {
      ghost var plan := RefitPlan(mode);
      ghost var t := StepsFrom(Run(data, log, true), plan, env);
      ok := Invoke(ResizeTarget(mode.(refreshRate := RefreshRate(0, 0))), plan, t, 0);
      if !ok { return; }
      Perform(ClearState, plan, t, 1);
      Perform(ReleaseResources, plan, t, 2);
      ok := Invoke(ResizeBuffers, plan, t, 3);
    }

    /**
     * `ChangeWindowResolution(index)`: the index wrapped into the catalog and
     * stored, the swap chain's fullscreen state queried, the flip branch run
     * when it differs from the cached flag, the target resized, the context
     * cleared, the resources released, the buffers resized and the resources
     * rebuilt for the new mode, stopping at the first call that fails. It
     * returns false on every path.
     */
    method ChangeWindowResolution(index: Int32) returns (result: bool)
      requires Ready(data)
      modifies this`data, this`log
      ensures !result
      ensures var r := Resize(old(data), old(log), StoredIndex(index, |old(data).modes|), env);
        data == r.data && log == r.log
      ensures Ready(data)
    {
      ResizeSelects(data, log, StoredIndex(index, |data.modes|), env);
      var size := |data.modes|;
      var wrapped := ToInt32(WrapIndex(index, size));
      data := data.(index := ToSize(wrapped) % size);
      var mode := data.modes[data.index];
      var isFullscreen := QueryFullscreenState();
      ghost var flipped, refitted := ResizeSplit(old(data), old(log), data.index, env);
      var ok;
      if data.fullscreen != isFullscreen {
        if isFullscreen {
          ok := FromFullscreen(mode);
        } else {
          ok := FromWindowed(mode);
        }
        if !ok { return false; }
        // the arm completed: the cached flag is inverted
        data := data.(fullscreen := !data.fullscreen);
        log := log + [ToggleFullscreenFlag];
      }
      ok := ResizeSwapChain(mode);
      if !ok { return false; }
      ok := BuildResources(mode.width, mode.height);
      return false;
    }

    /** `ChangeResolution(index)`: the transition, its result discarded. */
    method ChangeResolution(index: Int32)
      requires Ready(data)
      modifies this`data, this`log
      ensures var r := Resize(old(data), old(log), StoredIndex(index, |old(data).modes|), env);
        data == r.data && log == r.log
      ensures Ready(data)
    {
      var _ := ChangeWindowResolution(index);
    }

    /**
     * `SetFullscreen(fullscreen)`: the swap chain switched (its status
     * ignored), the cached flag set, then a transition to the selected
     * index, converted from `size_t` to the `int` parameter.
     */
    method SetFullscreen(fullscreen: bool)
      requires Ready(data)
      modifies this`data, this`log
      ensures var r := SetFullscreenSpec(old(data), old(log), fullscreen, env);
        data == r.data && log == r.log
      ensures Ready(data)
    {
      EffectKeepsDevice(data, SetFullscreenState(fullscreen));
      Ignore(SetFullscreenState(fullscreen));
      data := data.(fullscreen := fullscreen);
      var _ := ChangeWindowResolution(ToInt32(data.index));
    }

    /** `GetSupportedResolution`: the width and height of every catalog entry, in order. */
    method GetSupportedResolution() returns (resolutions: seq<(nat, nat)>)
      ensures |resolutions| == |data.modes|
      ensures forall i :: 0 <= i < |data.modes| ==> resolutions[i] == Resolution(data.modes[i])
    {
      resolutions := SupportedResolutions(data.modes);
    }

    /** `StartFrame`: the render target and the depth-stencil view cleared. */
    method StartFrame()
      modifies this`log
      ensures log == old(log) + FrameClears
    {
      log := log + [ClearRenderTargetView];
      log := log + [ClearDepthStencilView];
    }

    /** `EndFrame`: the frame presented, waiting for one vertical blank under vsync and none otherwise. */
    method EndFrame()
      modifies this`log
      ensures log == old(log) + [Present(PresentInterval(data.vsync))]
    {
      if data.vsync {
        log := log + [Present(1)];
      } else {
        log := log + [Present(0)];
      }
    }
  }

  /**
   * `GraphicsAPI::UseDirectX`: the backend constructed, and handed out only
   * when its start-up succeeded; a backend handed out is ready for the
   * transitions.
   */
  method UseDirectX(vsync: bool, fullscreen: bool, env: Environment) returns (api: DirectXApi?)
    requires WellFormed(env)
    ensures api == null <==> !Startup(vsync, fullscreen, env).ok
    ensures api != null ==>
              && fresh(api) && api.env == env && api.status && api.renderingApi
              && Run(api.data, api.log, true) == Startup(vsync, fullscreen, env)
              && Ready(api.data)
  {
    var created := new DirectXApi(vsync, fullscreen, env);
    if !created.status {
      return null;
    }
    StartupReady(vsync, fullscreen, env);
    return created;
  }
}
