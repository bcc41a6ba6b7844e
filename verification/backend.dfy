/** The `InterfaceDX12` object's lifecycle: `Init` (`LoadPipeline` then
    `LoadAssets`), `Update`, `Render` (`PopulateCommandList`, execute, present,
    `WaitForPreviousFrame`) and `Destroy`.

    The object's state is a `Renderer` value and each operation is a function
    from the state before to a `Result` holding the state after, or the fault
    that ended it. Everything the operations learn from the platform (the
    result of each checked call, the heaps' handles and increment sizes, the
    swap chain's first back buffer, how far the GPU gets) is a parameter. The
    faults other than `Failed` are the misuses a wrong ordering of these steps
    would commit; `Valid` is the invariant under which none of them occurs. */
module Backend {
  import opened Api
  import opened Layout
  import opened Descriptors
  import opened Commands
  import opened Adapters
  import opened Sync
  import opened Animation
  import opened Checkerboard

  /** `GetDescriptorHandleIncrementSize` is positive. */
  type Increment = x: nat | x > 0 witness 1

  /** `GetCurrentBackBufferIndex` names one of the swap chain's buffers. */
  type BufferIndex = x: nat | x < FRAME_COUNT

  /** The adapter the device is created on: the WARP adapter, the one
      `GetHardwareAdapter` chose, or, when it returned null, whatever default
      adapter `D3D12CreateDevice` picks for a null adapter pointer. */
  datatype DeviceAdapter = Warp | Hardware(adapter: Adapter) | DefaultAdapter

  datatype RootSignatureVersion = Version1_0 | Version1_1

  /** A `DXGI_SWAP_EFFECT_FLIP_DISCARD` swap chain: the buffer
      `GetCurrentBackBufferIndex` reports and the buffers presented so far. Each
      `Present` hands the current buffer over and makes the next one, in
      round-robin order, current. */
  datatype SwapChain = SwapChain(current: nat, presented: seq<nat>)

  function PresentBuffer(c: SwapChain): SwapChain {
    SwapChain((c.current + 1) % FRAME_COUNT, c.presented + [c.current])
  }

  /** What `Init` learns from the platform. `outcome` is the result of each
      checked call; `CreateEvent` reports failure through `eventCreated` and
      `GetLastError` instead. `useWarp` is `m_use_warp_device`. The root
      signature query's result and the version it reports decide the version
      the root signature is serialised at. */
  datatype InitEnv = InitEnv(
    outcome: Call -> HResult,
    useWarp: bool,
    factory: Factory,
    rootSignatureQuery: HResult,
    reportedVersion: RootSignatureVersion,
    eventCreated: bool,
    lastError: Dword,
    rtvStart: nat,
    rtvStride: Increment,
    srvCpuStart: nat,
    srvGpuStart: nat,
    srvStride: Increment,
    initialBackBuffer: BufferIndex,
    progress: nat)

  /** The result `ThrowIfFailed` sees for a call during `Init`. For
      `CreateEvent` that is `HRESULT_FROM_WIN32(GetLastError())`, checked only
      when the event handle is null. */
  function Outcome(env: InitEnv, c: Call): HResult {
    if c == CreateEvent then HresultFromWin32(env.lastError) else env.outcome(c)
  }

  /** One `GetBuffer(n)` per swap-chain buffer, in order. */
  function BufferCalls(): (calls: seq<Call>)
    ensures |calls| == FRAME_COUNT
    ensures forall n :: 0 <= n < FRAME_COUNT ==> calls[n] == GetBuffer(n)
  {
    seq(FRAME_COUNT, n requires 0 <= n => GetBuffer(n))
  }

  /** The checked calls of `LoadPipeline`, in program order. The factory comes
      first; `EnumWarpAdapter` is checked exactly on the WARP path, and the
      device is created right after the adapter is chosen; every swap-chain
      buffer is fetched; the bundle allocator is last. */
  function PipelineCalls(env: InitEnv): (calls: seq<Call>)
    ensures |calls| == (if env.useWarp then 11 else 10) + FRAME_COUNT
    ensures calls[0] == CreateFactory
    ensures EnumWarpAdapter in calls <==> env.useWarp
    ensures calls[if env.useWarp then 2 else 1] == CreateDevice
    ensures forall n :: 0 <= n < FRAME_COUNT ==> GetBuffer(n) in calls
    ensures calls[|calls| - 1] == CreateBundleAllocator
  {
    [CreateFactory]
    + (if env.useWarp then [EnumWarpAdapter] else [])
    + [CreateDevice, CreateCommandQueue, CreateSwapChain, MakeWindowAssociation, QuerySwapChain3,
       CreateRtvHeap, CreateSrvHeap]
    + BufferCalls()
    + [CreateCommandAllocator, CreateBundleAllocator]
  }

  /** The checked calls of `LoadAssets` up to the final wait, in program order.
      The root signature is serialised first; `CreateEvent`'s error is checked
      exactly when the event handle is null, and it is then the last check,
      otherwise `CreateFence` is. */
  function AssetCalls(env: InitEnv): (calls: seq<Call>)
    ensures |calls| == if env.eventCreated then 16 else 17
    ensures calls[0] == SerializeRootSignature
    ensures CreateEvent in calls <==> !env.eventCreated
    ensures calls[|calls| - 1] == (if env.eventCreated then CreateFence else CreateEvent)
  {
    [ SerializeRootSignature, CreateRootSignature, CompileVertexShader, CompilePixelShader,
      CreatePipelineState, CreateCommandList, CreateVertexBuffer, MapVertexBuffer,
      CreateBundle, CloseBundle, CreateTexture, CreateTextureUpload, CreateConstantBuffer,
      MapConstantBuffer, CloseCommandList, CreateFence ]
    + (if env.eventCreated then [] else [CreateEvent])
  }

  function InitCalls(env: InitEnv): seq<Call> {
    PipelineCalls(env) + AssetCalls(env)
  }

  /** The first failing call of `calls`, as `ThrowIfFailed` reports it. */
  function FirstFailure(env: InitEnv, calls: seq<Call>): (r: Option<Fault>)
    ensures r.None? <==> forall i :: 0 <= i < |calls| ==> Outcome(env, calls[i]) == S_OK
    ensures r.Some? ==>
      exists i :: 0 <= i < |calls| && IsFirstFailure(env, calls, i) && r.value == Failed(calls[i], Outcome(env, calls[i]))
  {
    if calls == [] then None
    else if Outcome(env, calls[0]) != S_OK then
      assert IsFirstFailure(env, calls, 0);
      Some(Failed(calls[0], Outcome(env, calls[0])))
    else
      var r := FirstFailure(env, calls[1..]);
      if r.Some? then
        var i :| 0 <= i < |calls[1..]| && IsFirstFailure(env, calls[1..], i) &&
          r.value == Failed(calls[1..][i], Outcome(env, calls[1..][i]));
        assert IsFirstFailure(env, calls, i + 1);
        r
      else
        assert forall i :: 1 <= i < |calls| ==> calls[i] == calls[1..][i - 1];
        r
  }

  /** Call `i` is the earliest call whose result is not `S_OK`. */
  predicate IsFirstFailure(env: InitEnv, calls: seq<Call>, i: nat) {
    && i < |calls| && Outcome(env, calls[i]) != S_OK
    && forall k :: 0 <= k < i ==> Outcome(env, calls[k]) == S_OK
  }

  /** The object's state between the public operations. */
  datatype Renderer = Renderer(
    adapter: DeviceAdapter,
    rootSignatureVersion: RootSignatureVersion,
    bindings: Bindings,
    bundle: seq<Command>,
    commandList: seq<Command>,
    texture: seq<byte>,
    states: States,
    gpu: Gpu,
    chain: SwapChain,
    fenceValue: nat,
    frameIndex: nat,
    /** `m_constantBufferData.offset.x`. */
    constants: real,
    /** What the persistently mapped constant buffer holds. */
    mapped: real,
    /** `m_fenceEvent` is an open handle. */
    eventOpen: bool)

  /** `[1, 2, ..., fenceValue - 1]`: the values signalled before `fenceValue`. */
  function SignalHistory(fenceValue: nat): seq<nat>
    requires fenceValue >= 1
  {
    seq(fenceValue - 1, i requires 0 <= i => i + 1)
  }

  /** The state between operations: descriptors and back buffers as created,
      every resource at rest, the GPU idle with every signal up to
      `fenceValue - 1` retired, the frame index naming the swap chain's current
      buffer, and the mapped constant buffer in step with the CPU copy. */
  predicate Valid(r: Renderer) {
    && BindingsWellFormed(r.bindings)
    && r.bundle == BundleCommands
    && r.texture == TextureData()
    && r.states == AtRest()
    && r.fenceValue >= 2
    && r.gpu.pending == []
    && r.gpu.completed == r.fenceValue - 1
    && r.gpu.signalled == SignalHistory(r.fenceValue)
    && r.frameIndex == r.chain.current < FRAME_COUNT
    && r.mapped == r.constants
    && -OffsetBounds <= r.constants <= OffsetBounds
  }

  /** Some submitted command list may still be executing. */
  predicate ListsOutstanding(g: Gpu) {
    exists i :: 0 <= i < |g.pending| && g.pending[i].Execute?
  }

  function Guard(hazard: bool, fault: Fault): Result<()> {
    if hazard then Err(fault) else Ok(())
  }

  /** The adapter `LoadPipeline` creates the device on: WARP exactly when
      `m_use_warp_device` is set, otherwise the hardware adapter the search
      found, or the default adapter when the search came back null. */
  function ChooseAdapter(env: InitEnv): (a: DeviceAdapter)
    ensures a.Warp? <==> env.useWarp
    ensures a.Hardware? <==> !env.useWarp && GetHardwareAdapter(env.factory, false).Some?
    ensures a.Hardware? ==> !IsSoftware(a.adapter) && GetHardwareAdapter(env.factory, false) == Some(a.adapter)
  {
    if env.useWarp then Warp
    else match GetHardwareAdapter(env.factory, false)
      case Some(a) => Hardware(a)
      case None => DefaultAdapter
  }

  /** Version 1.1 unless the feature query fails, in which case 1.0. */
  function RootSignatureVersionFor(env: InitEnv): RootSignatureVersion {
    if Succeeded(env.rootSignatureQuery) then env.reportedVersion else Version1_0
  }

  function InitialBindings(env: InitEnv): (b: Bindings)
    ensures BindingsWellFormed(b)
  {
    Bindings(
      RtvHeap(env.rtvStart, env.rtvStride),
      SrvHeap(env.srvCpuStart, env.srvGpuStart, env.srvStride),
      seq(FRAME_COUNT, n requires 0 <= n => BackBuffer(n)))
  }

  /** `Init`: every checked call of `LoadPipeline` and `LoadAssets` in order,
      aborting at the first that fails; then the upload list runs, the fence is
      created at 0 with `m_fenceValue = 1`, and `WaitForPreviousFrame` waits for
      the upload before the staging buffer goes out of scope. The list is
      submitted before the fence is created; since no call between the two can
      observe the queue, the model submits it after the checks. */
  function Init(env: InitEnv): Result<Renderer>
  {
    var _ :- CheckAll(env, InitCalls(env));
    Boot(env)
  }

  /** `ThrowIfFailed` on each call in turn. */
  function CheckAll(env: InitEnv, calls: seq<Call>): Result<()> {
    match FirstFailure(env, calls)
    case Some(f) => Err(f)
    case None => Ok(())
  }

  /** The rest of `Init` once every checked call has succeeded. */
  function Boot(env: InitEnv): Result<Renderer>
  {
    var b := InitialBindings(env);
    var uploaded :- Replay(b, CreationStates(), UploadCommands);
    var w :- InitialWait(env);
    var _ :- Guard(ListsOutstanding(w.gpu), ReleasedWhileInUse);
    Ok(Renderer(
      ChooseAdapter(env), RootSignatureVersionFor(env), b, BundleCommands, UploadCommands,
      TextureData(), uploaded - {TextureUpload}, w.gpu, SwapChain(env.initialBackBuffer, []),
      w.fenceValue, w.frameIndex, 0.0, 0.0, env.eventCreated))
  }

  /** The wait that ends `Init`: the upload list is the only work submitted,
      the fence was created at 0 and `m_fenceValue` is 1. */
  function InitialWait(env: InitEnv): Result<Waited> {
    WaitForPreviousFrame(1, ExecuteList(FreshGpu, UploadList), env.initialBackBuffer,
      WaitEnv(Outcome(env, Signal), Outcome(env, SetEventOnCompletion), env.progress))
  }

  /** `Update`: advance `offset.x` and copy the constant buffer into its mapping. */
  function Update(r: Renderer): (res: Result<Renderer>)
    ensures res.Err? <==> ListsOutstanding(r.gpu)
    ensures res.Ok? ==> res.value.constants == StepOffset(r.constants)
    ensures res.Ok? ==> res.value.mapped == res.value.constants
    ensures res.Ok? ==> res.value == r.(constants := res.value.constants, mapped := res.value.mapped)
  {
    var x := StepOffset(r.constants);
    var _ :- Guard(ListsOutstanding(r.gpu), MappedBufferInUse);
    Ok(r.(constants := x, mapped := x))
  }

  /** What the platform does during one `Render`. */
  datatype FrameEnv = FrameEnv(
    hrResetAllocator: HResult,
    hrResetList: HResult,
    hrClose: HResult,
    hrPresent: HResult,
    wait: WaitEnv)

  /** Every checked call of a frame succeeds, the wait included. */
  predicate FrameSucceeds(r: Renderer, env: FrameEnv)
  {
    && env.hrResetAllocator == S_OK && env.hrResetList == S_OK
    && env.hrClose == S_OK && env.hrPresent == S_OK
    && WaitForPreviousFrame(r.fenceValue, ExecuteList(r.gpu, FrameList),
         PresentBuffer(r.chain).current, env.wait).Ok?
  }

  /** `Render`: record the frame list (`PopulateCommandList`), execute it,
      present, and wait for the frame. */
  function Render(r: Renderer, env: FrameEnv): (res: Result<Renderer>)
    requires WellFormed(r.bindings.rtv) && WellFormed(r.bindings.srv)
    requires r.frameIndex < |r.bindings.renderTargets|
    ensures res.Ok? ==> res.value.fenceValue == r.fenceValue + 1
    ensures res.Ok? ==> res.value.chain.presented == r.chain.presented + [r.frameIndex]
    ensures res.Ok? ==> res.value.frameIndex == (r.frameIndex + 1) % FRAME_COUNT
    ensures res.Ok? ==> res.value.gpu.signalled == r.gpu.signalled + [r.fenceValue]
    ensures res.Ok? ==> res.value.bindings == r.bindings
  {
    var _ :- Guard(ListsOutstanding(r.gpu), AllocatorInUse);
    var _ :- Check(ResetAllocator, env.hrResetAllocator);
    var _ :- Check(ResetCommandList, env.hrResetList);
    var cmds := FrameCommands(r.bindings, r.frameIndex);
    var _ :- Check(CloseCommandList, env.hrClose);
    var states :- Replay(r.bindings, r.states, cmds);
    var gpu := ExecuteList(r.gpu, FrameList);
    var _ :- Check(SwapChainPresent, env.hrPresent);
    var _ :- Guard(r.chain.current != r.frameIndex, PresentMismatch);
    var chain := PresentBuffer(r.chain);
    var w :- WaitForPreviousFrame(r.fenceValue, gpu, chain.current, env.wait);
    Ok(r.(commandList := cmds, states := states, gpu := w.gpu, chain := chain,
          fenceValue := w.fenceValue, frameIndex := w.frameIndex))
  }

  /** `Destroy`: wait for the GPU, then close the fence event. */
  function Destroy(r: Renderer, wait: WaitEnv): (res: Result<Renderer>)
    ensures res.Ok? ==> !res.value.eventOpen && res.value.fenceValue == r.fenceValue + 1
  {
    var w :- WaitForPreviousFrame(r.fenceValue, r.gpu, r.chain.current, wait);
    Ok(r.(gpu := w.gpu, fenceValue := w.fenceValue, frameIndex := w.frameIndex, eventOpen := false))
  }

  // ----- What the lifecycle guarantees -----

  /** `Init` stops at the earliest checked call whose result is not `S_OK` and
      reports that call and its result. */
  lemma InitAbortsAtFirstFailure(env: InitEnv, i: nat)
    requires IsFirstFailure(env, InitCalls(env), i)
    ensures Init(env) == Err(Failed(InitCalls(env)[i], Outcome(env, InitCalls(env)[i])))
  {
    var calls := InitCalls(env);
    var f := FirstFailure(env, calls);
    var j :| 0 <= j < |calls| && IsFirstFailure(env, calls, j) && f.value == Failed(calls[j], Outcome(env, calls[j]));
    assert Outcome(env, calls[i]) != S_OK && Outcome(env, calls[j]) != S_OK;
  }

  /** `ThrowIfFailed` compares against `S_OK`, so a call answering `S_FALSE`
      aborts `Init` although `SUCCEEDED` would accept it. */
  lemma SFalseAbortsInit(env: InitEnv, i: nat)
    requires i < |InitCalls(env)| && Outcome(env, InitCalls(env)[i]) == 1
    ensures Init(env).Err? && Init(env).error.Failed?
  {
    CheckAllOutcome(env, InitCalls(env));
  }

  /** The wait that ends `Init` fails only through a failed call and otherwise
      returns with the upload list retired, the fence at 1 and the next value 2. */
  lemma InitialWaitOutcome(env: InitEnv)
    ensures InitialWait(env).Err? ==> InitialWait(env).error.Failed?
    ensures InitialWait(env).Ok? ==>
      var w := InitialWait(env).value;
      && w.fenceValue == 2 && w.gpu == Gpu([], 1, [1]) && w.frameIndex == env.initialBackBuffer
  {
    assert Coherent(FreshGpu, 1);
    ExecuteCoherent(FreshGpu, 1, UploadList);
  }

  /** Once the checked calls have succeeded, start-up fails only if the final
      wait does, and then through a failed call: the upload list finds the
      texture and the staging buffer as created, and the staging buffer is
      released only after the wait has retired the list reading it. On success
      the object holds the creation-time bindings, every resource at rest, an
      idle GPU that has retired the signal of 1, and nothing presented. */
  lemma BootOutcome(env: InitEnv)
    ensures Boot(env).Ok? <==> InitialWait(env).Ok?
    ensures Boot(env).Err? ==> Boot(env).error.Failed?
    ensures Boot(env).Ok? ==> Boot(env).value == Renderer(
      ChooseAdapter(env), RootSignatureVersionFor(env), InitialBindings(env), BundleCommands,
      UploadCommands, TextureData(), AtRest(), Gpu([], 1, [1]),
      SwapChain(env.initialBackBuffer, []), 2, env.initialBackBuffer, 0.0, 0.0, env.eventCreated)
  {
    UploadReplay(InitialBindings(env));
    InitialWaitOutcome(env);
    assert !ListsOutstanding(Gpu([], 1, [1]));
  }

  /** A successful start-up leaves the object `Valid`. */
  lemma BootValid(env: InitEnv)
    ensures Boot(env).Ok? ==> Valid(Boot(env).value)
  {
    BootOutcome(env);
    assert SignalHistory(2) == [1];
  }

  /** A successful start-up has retired the one signal of value 1, leaves the
      fence's next value 2, the frame index the swap chain's first back buffer,
      the offset 0 and nothing presented yet. It holds an open fence event
      only when `CreateEvent` returned a handle. */
  lemma BootInitialState(env: InitEnv)
    ensures Boot(env).Ok? ==>
      var r := Boot(env).value;
      && r.fenceValue == 2 && r.gpu.signalled == [1] && r.gpu.completed == 1
      && r.frameIndex == env.initialBackBuffer && r.chain.presented == []
      && r.constants == 0.0 && r.eventOpen == env.eventCreated && r.adapter == ChooseAdapter(env)
  {
    BootOutcome(env);
  }

  /** A null event handle with `GetLastError` at 0 passes the check on
      `CreateEvent`, so start-up can complete without an open fence event. */
  lemma NullEventPassesInit(env: InitEnv)
    requires !env.eventCreated && env.lastError == 0
    requires forall c :: env.outcome(c) == S_OK
    requires InitialWait(env).Ok?
    ensures CreateEvent in InitCalls(env)
    ensures Init(env).Ok? && !Init(env).value.eventOpen
  {
    var calls := InitCalls(env);
    forall i | 0 <= i < |calls|
      ensures Outcome(env, calls[i]) == S_OK
    {
    }
    InitEstablishesValid(env);
    BootInitialState(env);
  }

  /** `Init` succeeds exactly when every checked call returns `S_OK` and the
      final wait succeeds, fails only through a failed call, never through a
      misuse, and on success establishes `Valid`. */
  lemma InitEstablishesValid(env: InitEnv)
    ensures Init(env).Ok? <==>
      (forall i :: 0 <= i < |InitCalls(env)| ==> Outcome(env, InitCalls(env)[i]) == S_OK) && InitialWait(env).Ok?
    ensures Init(env).Err? ==> Init(env).error.Failed?
    ensures Init(env).Ok? ==> Init(env) == Boot(env) && Valid(Init(env).value)
  {
    CheckAllOutcome(env, InitCalls(env));
    BootOutcome(env);
    BootValid(env);
  }

  /** `ThrowIfFailed` over a list of calls passes exactly when every call
      returns `S_OK`, and otherwise reports a failed call. */
  lemma CheckAllOutcome(env: InitEnv, calls: seq<Call>)
    ensures CheckAll(env, calls).Ok? <==> forall i :: 0 <= i < |calls| ==> Outcome(env, calls[i]) == S_OK
    ensures CheckAll(env, calls).Err? ==> CheckAll(env, calls).error.Failed?
  {
    if FirstFailure(env, calls).Some? {
      var i :| 0 <= i < |calls| && IsFirstFailure(env, calls, i) &&
        FirstFailure(env, calls).value == Failed(calls[i], Outcome(env, calls[i]));
    }
  }

  /** The order a flip-model swap chain hands out its buffers: `count` buffers
      starting from `first`, each followed by the next one round-robin. */
  function RoundRobin(first: nat, count: nat): (s: seq<nat>)
    ensures |s| == count
    decreases count
  {
    if count == 0 then [] else [first % FRAME_COUNT] + RoundRobin((first + 1) % FRAME_COUNT, count - 1)
  }

  /** The `k`-th buffer handed out is `first + k` modulo the buffer count. */
  lemma {:induction false} RoundRobinAt(first: nat, count: nat, k: nat)
    requires k < count
    ensures RoundRobin(first, count)[k] == (first + k) % FRAME_COUNT
    decreases k
  {
    if k > 0 {
      RoundRobinAt((first + 1) % FRAME_COUNT, count - 1, k - 1);
    }
  }

  /** Consecutive frames present different buffers. */
  lemma RoundRobinAlternates(first: nat, count: nat, k: nat)
    requires k + 1 < count
    ensures RoundRobin(first, count)[k + 1] != RoundRobin(first, count)[k]
  {
    RoundRobinAt(first, count, k);
    RoundRobinAt(first, count, k + 1);
  }


  /** `Update` from a `Valid` state cannot meet a list in flight: it succeeds,
      moves the offset by one animation step and keeps the object `Valid`. */
  lemma UpdatePreservesValid(r: Renderer)
    requires Valid(r)
    ensures Update(r).Ok?
    ensures Update(r).value.constants == StepOffset(r.constants)
    ensures Valid(Update(r).value)
  {
  }

  /** `Render` from a `Valid` state succeeds exactly when every checked call
      does, and fails only through a failed call: the allocator is never reset
      under a list in flight, every barrier finds its resource in the expected
      state, and the buffer presented is the one rendered. */
  lemma RenderOutcome(r: Renderer, env: FrameEnv)
    requires Valid(r)
    ensures Render(r, env).Ok? <==> FrameSucceeds(r, env)
    ensures Render(r, env).Err? ==> Render(r, env).error.Failed?
  {
    FrameReplay(r.bindings, r.states, r.frameIndex);
    AtRestIsFrameReady(r.bindings, r.frameIndex);
    assert !ListsOutstanding(r.gpu);
  }

  /** A successful frame from a `Valid` state leaves the object `Valid`, with
      the frame's signal retired. */
  lemma RenderPreservesValid(r: Renderer, env: FrameEnv)
    requires Valid(r)
    ensures Render(r, env).Ok? ==> Valid(Render(r, env).value) && Render(r, env).value.gpu.completed == r.fenceValue
  {
    FrameReplay(r.bindings, r.states, r.frameIndex);
    assert Coherent(r.gpu, r.fenceValue);
    ExecuteCoherent(r.gpu, r.fenceValue, FrameList);
    assert SignalHistory(r.fenceValue + 1) == SignalHistory(r.fenceValue) + [r.fenceValue];
  }

  /** The list a successful frame recorded is the frame list for the buffer it
      presented: its first barrier moves that buffer to `RENDER_TARGET`. */
  lemma RenderRecordsPresentedBuffer(r: Renderer, env: FrameEnv)
    requires Valid(r)
    ensures Render(r, env).Ok? ==>
      var next := Render(r, env).value;
      && next.commandList == FrameCommands(r.bindings, r.frameIndex)
      && next.commandList[7] == Barrier(BackBuffer(next.chain.presented[|next.chain.presented| - 1]), Present, RenderTarget)
  {
    FrameShape(r.bindings, r.frameIndex);
  }

  /** `Destroy` from a `Valid` state fails only through a failed call, and on
      success the GPU has retired everything, so no resource is released while
      the GPU may use it. */
  lemma DestroyIdlesGpu(r: Renderer, wait: WaitEnv)
    requires Valid(r)
    ensures Destroy(r, wait).Err? ==> Destroy(r, wait).error.Failed?
    ensures Destroy(r, wait).Ok? ==>
      Destroy(r, wait).value.gpu.pending == [] && Destroy(r, wait).value.gpu.completed == r.fenceValue
  {
    assert Coherent(r.gpu, r.fenceValue);
  }

  /** One call of the main loop. */
  datatype Op = UpdateOp | RenderOp(env: FrameEnv)

  /** What the main loop needs to call the next operation at all: the
      descriptor heaps and back buffers as created and a frame index naming one
      of them. Every `Valid` state has it, and every operation keeps it. */
  predicate Steppable(r: Renderer) {
    BindingsWellFormed(r.bindings) && r.frameIndex < FRAME_COUNT
  }

  function Step(r: Renderer, op: Op): (res: Result<Renderer>)
    requires Steppable(r)
    ensures res.Ok? ==> Steppable(res.value)
  {
    match op
    case UpdateOp => Update(r)
    case RenderOp(env) => Render(r, env)
  }

  lemma StepPreservesValid(r: Renderer, op: Op)
    requires Valid(r)
    ensures Step(r, op).Err? ==> Step(r, op).error.Failed?
    ensures Step(r, op).Ok? ==> Valid(Step(r, op).value)
  {
    match op
    case UpdateOp => UpdatePreservesValid(r);
    case RenderOp(env) =>
      RenderOutcome(r, env);
      RenderPreservesValid(r, env);
  }

  /** The main loop after `Init`: the operations in order, stopping at the
      first failure. */
  function Run(r: Renderer, ops: seq<Op>): Result<Renderer>
    requires Steppable(r)
    decreases |ops|
  {
    if ops == [] then Ok(r)
    else
      var next :- Step(r, ops[0]);
      Run(next, ops[1..])
  }

  function Updates(ops: seq<Op>): nat {
    if ops == [] then 0 else (if ops[0].UpdateOp? then 1 else 0) + Updates(ops[1..])
  }

  function Renders(ops: seq<Op>): nat {
    if ops == [] then 0 else (if ops[0].RenderOp? then 1 else 0) + Renders(ops[1..])
  }

  /** Over any run of updates and frames from a `Valid` state no misuse ever
      occurs and the object stays `Valid`. */
  lemma {:induction false} RunKeepsValid(r: Renderer, ops: seq<Op>)
    requires Valid(r)
    ensures Run(r, ops).Err? ==> Run(r, ops).error.Failed?
    ensures Run(r, ops).Ok? ==> Valid(Run(r, ops).value)
    decreases |ops|
  {
    if ops != [] {
      StepPreservesValid(r, ops[0]);
      if Step(r, ops[0]).Ok? {
        RunKeepsValid(Step(r, ops[0]).value, ops[1..]);
      }
    }
  }

  /** Over any run every frame signals the next fence value. */
  lemma {:induction false} RunSignals(r: Renderer, ops: seq<Op>)
    requires Steppable(r)
    ensures Run(r, ops).Ok? ==> Run(r, ops).value.fenceValue == r.fenceValue + Renders(ops)
    decreases |ops|
  {
    if ops != [] && Step(r, ops[0]).Ok? {
      StepEffect(r, ops[0]);
      RunSignals(Step(r, ops[0]).value, ops[1..]);
    }
  }

  /** Over any run the frames present the swap chain's buffers in round-robin
      order, starting from the current one. */
  lemma {:induction false} RunPresents(r: Renderer, ops: seq<Op>)
    requires Steppable(r)
    ensures Run(r, ops).Ok? ==>
      Run(r, ops).value.chain.presented == r.chain.presented + RoundRobin(r.frameIndex, Renders(ops))
    decreases |ops|
  {
    if ops == [] {
      assert r.chain.presented + RoundRobin(r.frameIndex, 0) == r.chain.presented;
    } else if Step(r, ops[0]).Ok? {
      StepEffect(r, ops[0]);
      RunPresents(Step(r, ops[0]).value, ops[1..]);
      if ops[0].RenderOp? {
        PresentsStep(r, ops);
      } else {
        assert Renders(ops) == Renders(ops[1..]);
      }
    }
  }

  /** A run whose first operation succeeds continues from that operation's
      result. */
  lemma RunCons(r: Renderer, ops: seq<Op>)
    requires Steppable(r) && ops != [] && Step(r, ops[0]).Ok?
    ensures Run(r, ops) == Run(Step(r, ops[0]).value, ops[1..])
  {
  }

  /** The inductive step of `RunPresents` for a frame. */
  lemma PresentsStep(r: Renderer, ops: seq<Op>)
    requires Steppable(r) && ops != [] && ops[0].RenderOp? && Step(r, ops[0]).Ok?
    requires var next := Step(r, ops[0]).value;
      Run(next, ops[1..]).Ok? ==>
        Run(next, ops[1..]).value.chain.presented == next.chain.presented + RoundRobin(next.frameIndex, Renders(ops[1..]))
    ensures Run(r, ops).Ok? ==>
      Run(r, ops).value.chain.presented == r.chain.presented + RoundRobin(r.frameIndex, Renders(ops))
  {
    var next := Step(r, ops[0]).value;
    var rest := ops[1..];
    StepEffect(r, ops[0]);
    RunCons(r, ops);
    if Run(next, rest).Ok? {
      var final := Run(next, rest).value.chain.presented;
      assert Renders(ops) == 1 + Renders(rest);
      PresentedAfterFrame(r.chain.presented, next.chain.presented, final, r.frameIndex, Renders(rest), Renders(ops));
    }
  }

  /** Over any run the offset has taken one animation step per update. */
  lemma {:induction false} RunAnimates(r: Renderer, ops: seq<Op>)
    requires Steppable(r)
    ensures Run(r, ops).Ok? ==> Run(r, ops).value.constants == Advance(r.constants, Updates(ops))
    decreases |ops|
  {
    if ops != [] && Step(r, ops[0]).Ok? {
      var next := Step(r, ops[0]).value;
      var rest := ops[1..];
      StepEffect(r, ops[0]);
      RunAnimates(next, rest);
      if ops[0].UpdateOp? {
        assert Updates(ops) == Updates(rest) + 1;
        AdvanceShift(r.constants, Updates(rest));
      } else {
        assert Updates(ops) == Updates(rest);
      }
    }
  }

  /** What one successful step changes: a frame signals one more value,
      presents the current buffer and moves to the next; an update takes one
      animation step and changes nothing else. */
  lemma StepEffect(r: Renderer, op: Op)
    requires Steppable(r) && Step(r, op).Ok?
    ensures var next := Step(r, op).value;
      && (op.RenderOp? ==>
            && next.fenceValue == r.fenceValue + 1
            && next.chain.presented == r.chain.presented + [r.frameIndex]
            && next.frameIndex == (r.frameIndex + 1) % FRAME_COUNT
            && next.constants == r.constants)
      && (op.UpdateOp? ==>
            && next.fenceValue == r.fenceValue
            && next.chain == r.chain && next.frameIndex == r.frameIndex
            && next.constants == StepOffset(r.constants))
  {
  }

  /** The presentation record after a frame followed by further frames. */
  lemma PresentedAfterFrame(before: seq<nat>, after: seq<nat>, final: seq<nat>, x: nat, n: nat, total: nat)
    requires x < FRAME_COUNT && after == before + [x] && total == n + 1
    requires final == after + RoundRobin((x + 1) % FRAME_COUNT, n)
    ensures final == before + RoundRobin(x, total)
  {
  }

  /** A whole session: `Init`, then the main loop. */
  function Session(env: InitEnv, ops: seq<Op>): Result<Renderer>
  {
    InitEstablishesValid(env);
    var r :- Init(env);
    Run(r, ops)
  }

  /** From start-up on: the session fails only through a failed call; the fence
      values signalled are exactly 1, 2, ... up to the last, so they strictly
      increase; every frame presents the buffer after the previous one,
      starting from the swap chain's first back buffer; and the offset is the
      animation after as many steps as there were updates. */
  lemma SessionGuarantees(env: InitEnv, ops: seq<Op>)
    ensures Session(env, ops).Err? ==> Session(env, ops).error.Failed?
    ensures Session(env, ops).Ok? ==>
      var last := Session(env, ops).value;
      && Valid(last)
      && last.fenceValue == 2 + Renders(ops)
      && last.gpu.signalled == SignalHistory(last.fenceValue)
      && (forall i, j :: 0 <= i < j < |last.gpu.signalled| ==> last.gpu.signalled[i] < last.gpu.signalled[j])
      && last.chain.presented == RoundRobin(env.initialBackBuffer, Renders(ops))
      && last.constants == OffsetAfter(Updates(ops))
  {
    InitEstablishesValid(env);
    if Init(env).Ok? {
      BootInitialState(env);
      RunFromStart(Init(env).value, ops, env.initialBackBuffer);
    }
  }

  /** The main loop from the state `Init` leaves behind. */
  lemma RunFromStart(r: Renderer, ops: seq<Op>, start: nat)
    requires Valid(r) && r.fenceValue == 2 && r.chain.presented == [] && r.frameIndex == start && r.constants == 0.0
    ensures Run(r, ops).Err? ==> Run(r, ops).error.Failed?
    ensures Run(r, ops).Ok? ==>
      var last := Run(r, ops).value;
      && Valid(last)
      && last.fenceValue == 2 + Renders(ops)
      && last.gpu.signalled == SignalHistory(last.fenceValue)
      && (forall i, j :: 0 <= i < j < |last.gpu.signalled| ==> last.gpu.signalled[i] < last.gpu.signalled[j])
      && last.chain.presented == RoundRobin(start, Renders(ops))
      && last.constants == OffsetAfter(Updates(ops))
  {
    RunKeepsValid(r, ops);
    RunSignals(r, ops);
    RunPresents(r, ops);
    RunAnimates(r, ops);
    if Run(r, ops).Ok? {
      assert [] + RoundRobin(start, Renders(ops)) == RoundRobin(start, Renders(ops));
    }
  }

}
