/**
 * The driver side of the DirectX backend, reduced to what the backend's
 * bookkeeping can observe: each DXGI/D3D11/Win32 call is an event with no
 * internal semantics, whose success is decided by an oracle, and whose effect
 * on the backend's `GraphicsData` is fixed. The backend's state is threaded
 * through a `Run`: the data, the trace of events so far, and whether every
 * checked call so far succeeded.
 */
module Driver {
  import opened Catalog

  /** A `ComPtr` field: empty, or holding a driver object. */
  datatype Handle = Null | Live

  datatype Viewport = NoViewport | Viewport(width: nat, height: nat)

  /** The parts of `DXGI_SWAP_CHAIN_DESC` that depend on the backend's state. */
  datatype SwapChainDesc = SwapChainDesc(width: nat, height: nat, refreshRate: RefreshRate, windowed: bool)

  /** The per-resolution resources, in the order they are created. */
  datatype Resource = RenderTarget | DepthStencilBuffer | DepthStencilState | DepthStencilView | RasterizerState

  /**
   * One entry of the trace: a driver or window-system call, or one of the two
   * bookkeeping steps of the resize path whose place in the order matters
   * (negating the cached fullscreen flag, releasing the five resources).
   */
  datatype Event =
    // adapter and output queries
    | CreateDXGIFactory | EnumAdapters | GetAdapterDesc | EnumOutputs
    | GetDisplayModeCount | GetDisplayModeList
    // device creation
    | CreateDeviceAndSwapChain(desc: SwapChainDesc)
    // swap chain and window
    | GetFullscreenState | SetFullscreenState(fullscreen: bool) | ResizeTarget(mode: DisplayMode)
    | AdjustWindowRect(width: nat, height: nat) | SetWindowPos
    | ResizeBuffers | GetBuffer
    // per-resolution resources
    | CreateRenderTargetView | CreateDepthStencilBuffer(width: nat, height: nat)
    | CreateDepthStencilState | CreateDepthStencilView | CreateRasterizerState
    // device context
    | ClearState | SetRenderTargets | SetRasterizerState | SetViewport(width: nat, height: nat)
    | ClearRenderTargetView | ClearDepthStencilView | Present(syncInterval: nat)
    // bookkeeping of the resize path
    | ToggleFullscreenFlag | ReleaseResources

  /**
   * Whether the event can report failure. The device-context calls return
   * nothing, and neither do the bookkeeping steps; `SetWindowPos` and
   * `Present` do, but the backend ignores their status and nothing it keeps
   * depends on them, so they are treated as calls that cannot fail.
   */
  predicate Fallible(e: Event)
  {
    !(e.ClearState? || e.SetRenderTargets? || e.SetRasterizerState? || e.SetViewport? ||
      e.ClearRenderTargetView? || e.ClearDepthStencilView? || e.Present? || e.SetWindowPos? ||
      e.ToggleFullscreenFlag? || e.ReleaseResources?)
  }

  /**
   * Everything the backend receives from outside: the outcome of the k-th
   * trace entry (entries beyond the list succeed), the raw mode list, the
   * adapter's description and memory size, the feature level the driver
   * selects, and the refresh rate left in `GraphicsData` (never assigned by
   * the backend, read when vsync is on).
   */
  datatype Environment = Environment(
    outcomes: seq<bool>,
    rawModes: seq<DisplayMode>,
    adapterDescription: string,
    dedicatedVideoMemory: nat,
    featureLevel: nat,
    staleRefreshRate: RefreshRate)

  predicate Succeeds(env: Environment, k: nat)
  {
    k >= |env.outcomes| || env.outcomes[k]
  }

  /** The device, its immediate context and the swap chain, with the swap chain's actual fullscreen state. */
  datatype DeviceObjects = DeviceObjects(swapChain: Handle, device: Handle, deviceContext: Handle, chainFullscreen: bool)

  /** The five per-resolution `ComPtr` fields. */
  datatype Resources = Resources(
    renderTarget: Handle,
    depthStencilBuffer: Handle,
    depthStencilState: Handle,
    depthStencilView: Handle,
    rasterizerState: Handle)

  /** What is bound to the device context: render target and depth view, rasterizer state, viewport. */
  datatype ContextState = ContextState(targetsBound: bool, rasterizerBound: bool, viewport: Viewport)

  /** `GraphicsData`; the driver objects are grouped by what changes them. */
  datatype GraphicsData = GraphicsData(
    modes: seq<DisplayMode>,
    index: nat,
    dedicatedVideoMemory: nat,
    adapterDescription: string,
    refreshRate: RefreshRate,
    vsync: bool,
    fullscreen: bool,
    featureLevel: nat,
    featureLevelName: string,
    objects: DeviceObjects,
    resources: Resources,
    context: ContextState)

  function HandleOf(d: GraphicsData, r: Resource): Handle
  {
    match r
    case RenderTarget => d.resources.renderTarget
    case DepthStencilBuffer => d.resources.depthStencilBuffer
    case DepthStencilState => d.resources.depthStencilState
    case DepthStencilView => d.resources.depthStencilView
    case RasterizerState => d.resources.rasterizerState
  }

  /** The event that creates resource r. */
  predicate Creates(e: Event, r: Resource)
  {
    match r
    case RenderTarget => e.CreateRenderTargetView?
    case DepthStencilBuffer => e.CreateDepthStencilBuffer?
    case DepthStencilState => e.CreateDepthStencilState?
    case DepthStencilView => e.CreateDepthStencilView?
    case RasterizerState => e.CreateRasterizerState?
  }

  /** A handle after a successful event: set by its creation, emptied by the release. */
  function HandleAfter(h: Handle, e: Event, r: Resource): Handle
  {
    if Creates(e, r) then Live else if e.ReleaseResources? then Null else h
  }

  function ObjectsEffect(o: DeviceObjects, e: Event): DeviceObjects
  {
    if e.CreateDeviceAndSwapChain? then DeviceObjects(Live, Live, Live, !e.desc.windowed)
    else if e.SetFullscreenState? then o.(chainFullscreen := e.fullscreen)
    else o
  }

  function ResourcesEffect(rs: Resources, e: Event): Resources
  {
    Resources(
      HandleAfter(rs.renderTarget, e, RenderTarget),
      HandleAfter(rs.depthStencilBuffer, e, DepthStencilBuffer),
      HandleAfter(rs.depthStencilState, e, DepthStencilState),
      HandleAfter(rs.depthStencilView, e, DepthStencilView),
      HandleAfter(rs.rasterizerState, e, RasterizerState))
  }

  function ContextEffect(c: ContextState, e: Event): ContextState
  {
    if e.ClearState? then ContextState(false, false, NoViewport)
    else if e.SetRenderTargets? then c.(targetsBound := true)
    else if e.SetRasterizerState? then c.(rasterizerBound := true)
    else if e.SetViewport? then c.(viewport := Viewport(e.width, e.height))
    else c
  }

  /** What a successful event does to the backend's data. */
  function Effect(d: GraphicsData, e: Event): GraphicsData
  {
    d.(fullscreen := if e.ToggleFullscreenFlag? then !d.fullscreen else d.fullscreen,
       objects := ObjectsEffect(d.objects, e),
       resources := ResourcesEffect(d.resources, e),
       context := ContextEffect(d.context, e))
  }

  /** Only the creating event and the release touch a resource handle. */
  lemma EffectOnHandle(d: GraphicsData, e: Event, res: Resource)
    ensures HandleOf(Effect(d, e), res) == HandleAfter(HandleOf(d, res), e, res)
  {
  }

  /** The flag toggle inverts the cached fullscreen flag and nothing else. */
  lemma EffectToggle(d: GraphicsData)
    ensures Effect(d, ToggleFullscreenFlag) == d.(fullscreen := !d.fullscreen)
  {
  }

  /** No event releases the device, its context or the swap chain. */
  lemma EffectKeepsDevice(d: GraphicsData, e: Event)
    ensures d.objects.swapChain.Live? ==> Effect(d, e).objects.swapChain.Live?
    ensures d.objects.device.Live? ==> Effect(d, e).objects.device.Live?
    ensures d.objects.deviceContext.Live? ==> Effect(d, e).objects.deviceContext.Live?
  {
  }

  /** The backend's data, the trace so far, and whether no checked call has failed. */
  datatype Run = Run(data: GraphicsData, log: seq<Event>, ok: bool)

  /** A call whose status the backend checks: on failure it stops (every later step is skipped). */
  function Step(r: Run, e: Event, env: Environment): (r': Run)
    ensures !r.ok ==> r' == r
    ensures r.ok ==> r'.log == r.log + [e] && r'.ok == (!Fallible(e) || Succeeds(env, |r.log|))
  {
    if !r.ok then r
    else
      var success := !Fallible(e) || Succeeds(env, |r.log|);
      Run(if success then Effect(r.data, e) else r.data, r.log + [e], success)
  }

  /** A call whose status the backend ignores: its effect happens only if it succeeds. */
  function Probe(r: Run, e: Event, env: Environment): (r': Run)
    ensures !r.ok ==> r' == r
    ensures r.ok ==> r'.log == r.log + [e] && r'.ok
  {
    if !r.ok then r
    else Run(if !Fallible(e) || Succeeds(env, |r.log|) then Effect(r.data, e) else r.data, r.log + [e], true)
  }

  /** A fixed sequence of checked calls, each made only if all before it succeeded. */
  function Exec(r: Run, es: seq<Event>, env: Environment): Run
    decreases |es|
  {
    if es == [] || !r.ok then r else Exec(Step(r, es[0], env), es[1..], env)
  }

  /** Every fallible event of es, made from trace position start on, succeeds
      (stated call by call, in the shape of Exec). */
  predicate AllSucceed(env: Environment, start: nat, es: seq<Event>)
    decreases |es|
  {
    es == [] || ((!Fallible(es[0]) || Succeeds(env, start)) && AllSucceed(env, start + 1, es[1..]))
  }

  /** The same, stated position by position. */
  predicate EverySucceeds(env: Environment, start: nat, es: seq<Event>)
  {
    forall j :: 0 <= j < |es| && Fallible(es[j]) ==> Succeeds(env, start + j)
  }

  /** The two statements agree. */
  lemma {:induction false} AllSucceedMeans(env: Environment, start: nat, es: seq<Event>)
    ensures AllSucceed(env, start, es) <==> EverySucceeds(env, start, es)
    decreases |es|
  {
    if es != [] {
      AllSucceedMeans(env, start + 1, es[1..]);
      var rest := es[1..];
      if EverySucceeds(env, start, es) {
        forall j | 0 <= j < |rest| && Fallible(rest[j]) ensures Succeeds(env, start + 1 + j) {
          assert rest[j] == es[j + 1];
        }
      }
      if AllSucceed(env, start, es) {
        forall j | 0 <= j < |es| && Fallible(es[j]) ensures Succeeds(env, start + j) {
          if j > 0 {
            assert rest[j - 1] == es[j];
          }
        }
      }
    }
  }

  /** How many events of es are made: all of them, or up to and including the first that fails. */
  function Attempted(env: Environment, start: nat, es: seq<Event>): (n: nat)
    ensures n <= |es|
    decreases |es|
  {
    if es == [] then 0
    else if Fallible(es[0]) && !Succeeds(env, start) then 1
    else 1 + Attempted(env, start + 1, es[1..])
  }

  /** Early exit: the calls made stop exactly at the first failure, and every call before it succeeded. */
  lemma {:induction false} AttemptedStopsAtFirstFailure(env: Environment, start: nat, es: seq<Event>)
    ensures AllSucceed(env, start, es) ==> Attempted(env, start, es) == |es|
    ensures !AllSucceed(env, start, es) ==>
      var n := Attempted(env, start, es);
      && 0 < n
      && Fallible(es[n - 1]) && !Succeeds(env, start + n - 1)
      && AllSucceed(env, start, es[..n - 1])
    decreases |es|
  {
    if es != [] {
      if Fallible(es[0]) && !Succeeds(env, start) {
        assert es[..0] == [];
      } else {
        AttemptedStopsAtFirstFailure(env, start + 1, es[1..]);
        if !AllSucceed(env, start + 1, es[1..]) {
          var n := Attempted(env, start, es);
          assert es[1..][n - 2] == es[n - 1];
          assert es[..n - 1][1..] == es[1..][..n - 2];
        }
      }
    }
  }

  /** Exec makes exactly the attempted prefix of its events, and ends well exactly when all succeed. */
  lemma {:induction false} ExecTrace(r: Run, es: seq<Event>, env: Environment)
    requires r.ok
    ensures Exec(r, es, env).log == r.log + es[..Attempted(env, |r.log|, es)]
    ensures Exec(r, es, env).ok == AllSucceed(env, |r.log|, es)
    decreases |es|
  {
    if es != [] {
      var s := Step(r, es[0], env);
      if s.ok {
        ExecTrace(s, es[1..], env);
        var n := Attempted(env, |r.log| + 1, es[1..]);
        assert [es[0]] + es[1..][..n] == es[..n + 1];
      } else {
        assert es[..1] == [es[0]];
      }
    }
  }

  /** A single checked call. */
  lemma ExecOne(r: Run, e: Event, env: Environment)
    ensures Exec(r, [e], env) == Step(r, e, env)
  {
    assert [e][1..] == [];
  }

  /** Two checked calls, the second made only if the first succeeded. */
  lemma ExecTwo(r: Run, a: Event, b: Event, env: Environment)
    ensures Exec(r, [a, b], env) == Exec(Step(r, a, env), [b], env)
    ensures Exec(r, [a, b], env) == Step(Step(r, a, env), b, env)
  {
    assert [a, b][1..] == [b];
    ExecOne(Step(r, a, env), b, env);
  }

  /** A failed run stays as it is. */
  lemma ExecFailed(r: Run, es: seq<Event>, env: Environment)
    requires !r.ok
    ensures Exec(r, es, env) == r
  {
  }

  /** Running two sequences one after the other is running their concatenation. */
  lemma {:induction false} ExecAppend(r: Run, a: seq<Event>, b: seq<Event>, env: Environment)
    ensures Exec(r, a + b, env) == Exec(Exec(r, a, env), b, env)
    decreases |a|
  {
    if a != [] && r.ok {
      assert (a + b)[1..] == a[1..] + b;
      ExecAppend(Step(r, a[0], env), a[1..], b, env);
    } else if a == [] {
      assert a + b == b;
    }
  }

  /** The catalog and the selected index are never touched by driver events. */
  lemma {:induction false} ExecKeepsCatalog(r: Run, es: seq<Event>, env: Environment)
    ensures Exec(r, es, env).data.modes == r.data.modes
    ensures Exec(r, es, env).data.index == r.data.index
    ensures r.data.objects.swapChain.Live? ==> Exec(r, es, env).data.objects.swapChain.Live?
    ensures r.data.objects.device.Live? ==> Exec(r, es, env).data.objects.device.Live?
    ensures r.data.objects.deviceContext.Live? ==> Exec(r, es, env).data.objects.deviceContext.Live?
    decreases |es|
  {
    if es != [] && r.ok {
      EffectKeepsDevice(r.data, es[0]);
      ExecKeepsCatalog(Step(r, es[0], env), es[1..], env);
    }
  }

  /** A resource no event touches keeps its handle. */
  lemma {:induction false} ExecUntouched(r: Run, es: seq<Event>, env: Environment, res: Resource)
    requires forall j :: 0 <= j < |es| ==> !Creates(es[j], res) && !es[j].ReleaseResources?
    ensures HandleOf(Exec(r, es, env).data, res) == HandleOf(r.data, res)
    decreases |es|
  {
    if es != [] && r.ok {
      EffectOnHandle(r.data, es[0], res);
      ExecUntouched(Step(r, es[0], env), es[1..], env, res);
    }
  }

  /**
   * A resource created by exactly one event of es, starting from a null
   * handle, ends up live exactly when that event and every event before it
   * succeeded.
   */
  lemma {:induction false} ExecCreatesOnce(r: Run, es: seq<Event>, env: Environment, res: Resource, p: nat)
    requires r.ok && HandleOf(r.data, res) == Null
    requires p < |es| && Creates(es[p], res)
    requires forall j :: 0 <= j < |es| && j != p ==> !Creates(es[j], res) && !es[j].ReleaseResources?
    ensures HandleOf(Exec(r, es, env).data, res).Live? <==> AllSucceed(env, |r.log|, es[..p + 1])
    decreases |es|
  {
    var s := Step(r, es[0], env);
    EffectOnHandle(r.data, es[0], res);
    AllSucceedCons(env, |r.log|, es, p + 1);
    if p == 0 {
      if s.ok {
        ExecUntouched(s, es[1..], env, res);
      }
    } else {
      assert !es[0].ReleaseResources? && !Creates(es[0], res);
      if s.ok {
        ExecCreatesOnce(s, es[1..], env, res, p - 1);
      }
    }
  }

  /** AllSucceed of a non-empty prefix: the first event, then the rest one position later. */
  lemma AllSucceedCons(env: Environment, start: nat, es: seq<Event>, k: nat)
    requires 0 < k <= |es|
    ensures AllSucceed(env, start, es[..k]) <==>
      (!Fallible(es[0]) || Succeeds(env, start)) && AllSucceed(env, start + 1, es[1..][..k - 1])
  {
    assert es[..k][1..] == es[1..][..k - 1];
  }

  /** AllSucceed of a sequence holds of each of its prefixes. */
  lemma {:induction false} AllSucceedPrefix(env: Environment, start: nat, es: seq<Event>, k: nat)
    requires k <= |es| && AllSucceed(env, start, es)
    ensures AllSucceed(env, start, es[..k])
    decreases k
  {
    if k > 0 {
      AllSucceedPrefix(env, start + 1, es[1..], k - 1);
      AllSucceedCons(env, start, es, k);
    } else {
      assert es[..k] == [];
    }
  }

  /** When a run ends well, its last event took effect on the state before it. */
  lemma ExecLast(r: Run, es: seq<Event>, e: Event, env: Environment)
    requires Exec(r, es + [e], env).ok
    ensures Exec(r, es, env).ok
    ensures Exec(r, es + [e], env).data == Effect(Exec(r, es, env).data, e)
  {
    ExecAppend(r, es, [e], env);
    var s := Exec(r, es, env);
    if !s.ok {
      ExecFailed(s, [e], env);
    }
  }

  /** Events other than the flag toggle leave the cached fullscreen flag alone. */
  lemma {:induction false} ExecKeepsFullscreenFlag(r: Run, es: seq<Event>, env: Environment)
    requires forall j :: 0 <= j < |es| ==> !es[j].ToggleFullscreenFlag?
    ensures Exec(r, es, env).data.fullscreen == r.data.fullscreen
    decreases |es|
  {
    if es != [] && r.ok {
      ExecKeepsFullscreenFlag(Step(r, es[0], env), es[1..], env);
    }
  }

  /** Events other than SetFullscreenState and device creation leave the device objects alone. */
  lemma {:induction false} ExecKeepsObjects(r: Run, es: seq<Event>, env: Environment)
    requires forall j :: 0 <= j < |es| ==> !es[j].SetFullscreenState? && !es[j].CreateDeviceAndSwapChain?
    ensures Exec(r, es, env).data.objects == r.data.objects
    decreases |es|
  {
    if es != [] && r.ok {
      ExecKeepsObjects(Step(r, es[0], env), es[1..], env);
    }
  }

  /** Driver events change only the fullscreen flag, the device objects, the resources and the bindings. */
  lemma {:induction false} ExecFrame(r: Run, es: seq<Event>, env: Environment)
    ensures var d := Exec(r, es, env).data;
      d == r.data.(fullscreen := d.fullscreen, objects := d.objects, resources := d.resources, context := d.context)
    decreases |es|
  {
    if es != [] && r.ok {
      ExecFrame(Step(r, es[0], env), es[1..], env);
    }
  }

  /** Events that change nothing of the backend's data: queries, window calls, clears and presents. */
  predicate Inert(e: Event)
  {
    || e.CreateDXGIFactory? || e.EnumAdapters? || e.GetAdapterDesc? || e.EnumOutputs?
    || e.GetDisplayModeCount? || e.GetDisplayModeList? || e.GetFullscreenState?
    || e.ResizeTarget? || e.AdjustWindowRect? || e.SetWindowPos? || e.ResizeBuffers? || e.GetBuffer?
    || e.ClearRenderTargetView? || e.ClearDepthStencilView? || e.Present?
  }

  lemma EffectInert(d: GraphicsData, e: Event)
    requires Inert(e)
    ensures Effect(d, e) == d
  {
  }

  /** A run of inert events leaves the data as it was, whatever the driver answers. */
  lemma {:induction false} ExecInert(r: Run, es: seq<Event>, env: Environment)
    requires forall j :: 0 <= j < |es| ==> Inert(es[j])
    ensures Exec(r, es, env).data == r.data
    decreases |es|
  {
    if es != [] && r.ok {
      EffectInert(r.data, es[0]);
      ExecInert(Step(r, es[0], env), es[1..], env);
    }
  }

  /** A run of inert events: the data is kept, the calls stop at the first failure. */
  lemma InertStage(r: Run, es: seq<Event>, env: Environment)
    requires r.ok
    requires forall j :: 0 <= j < |es| ==> Inert(es[j])
    ensures var e := Exec(r, es, env);
      && e.data == r.data
      && e.log == r.log + es[..Attempted(env, |r.log|, es)]
      && e.ok == AllSucceed(env, |r.log|, es)
      && (e.ok ==> e.log == r.log + es)
  {
    ExecInert(r, es, env);
    ExecTrace(r, es, env);
    AttemptedStopsAtFirstFailure(env, |r.log|, es);
    assert es[..|es|] == es;
  }

  /** AllSucceed of a prefix holds of every shorter prefix. */
  lemma AllSucceedShorter(env: Environment, start: nat, es: seq<Event>, j: nat, k: nat)
    requires j <= k <= |es|
    ensures AllSucceed(env, start, es[..k]) ==> AllSucceed(env, start, es[..j])
  {
    if AllSucceed(env, start, es[..k]) {
      AllSucceedPrefix(env, start, es[..k], j);
      assert es[..k][..j] == es[..j];
    }
  }

  /** Like ExecCreatesOnce, from any initial handle: when every call up to the
      creation succeeds, the resource is live. */
  lemma {:induction false} ExecCreatesOnceFrom(r: Run, es: seq<Event>, env: Environment, res: Resource, p: nat)
    requires r.ok
    requires p < |es| && Creates(es[p], res)
    requires forall j :: 0 <= j < |es| && j != p ==> !Creates(es[j], res) && !es[j].ReleaseResources?
    requires AllSucceed(env, |r.log|, es[..p + 1])
    ensures HandleOf(Exec(r, es, env).data, res) == Live
  {
    var pre := es[..p];
    var post := es[p + 1..];
    assert es == pre + [es[p]] + post;
    ExecAppend(r, pre + [es[p]], post, env);
    AllSucceedPrefix(env, |r.log|, es[..p + 1], p);
    assert es[..p + 1][..p] == pre;
    ExecTrace(r, pre, env);
    ExecTrace(r, pre + [es[p]], env);
    assert pre + [es[p]] == es[..p + 1];
    ExecLast(r, pre, es[p], env);
    EffectOnHandle(Exec(r, pre, env).data, es[p], res);
    assert forall j :: 0 <= j < |post| ==> post[j] == es[p + 1 + j];
    ExecUntouched(Exec(r, pre + [es[p]], env), post, env, res);
  }

  /** Swap-chain and window calls change nothing of the backend's data but the swap chain's state. */
  lemma {:induction false} ExecOnlyChainState(r: Run, es: seq<Event>, env: Environment)
    requires forall j :: 0 <= j < |es| ==>
      es[j].ResizeTarget? || es[j].SetFullscreenState? || es[j].AdjustWindowRect? || es[j].SetWindowPos?
    ensures var d := Exec(r, es, env).data;
      d == r.data.(objects := r.data.objects.(chainFullscreen := d.objects.chainFullscreen))
    decreases |es|
  {
    if es != [] && r.ok {
      ExecOnlyChainState(Step(r, es[0], env), es[1..], env);
    }
  }
}
