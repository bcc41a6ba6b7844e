/** Command lists and the resource-state discipline they must follow.

    A recorded list is a sequence of `Command`s. `Replay` walks a list against
    the current state of every resource and the descriptor heaps it refers to,
    applying each barrier and rejecting any command that finds a resource, a
    render target view or a descriptor table in the wrong state. The three lists
    the backend records are `UploadCommands` (once, at load), `BundleCommands`
    (once, replayed every frame) and `FrameCommands` (every frame). */
module Commands {
  import opened Api
  import opened Layout
  import opened Descriptors

  /** `D3D12_RESOURCE_STATE_*`. `Present` is the same state as `COMMON`, the one a
      swap-chain buffer starts in. */
  datatype ResourceState = Present | RenderTarget | CopyDest | PixelShaderResource | GenericRead

  /** The GPU resources the backend owns. `TextureUpload` is the staging buffer
      that lives only until the texture copy has retired. */
  datatype Resource = BackBuffer(index: nat) | Texture | TextureUpload | VertexBuffer | ConstantBuffer

  type States = map<Resource, ResourceState>

  datatype Command =
    | Reset
    | SetGraphicsRootSignature
    | SetDescriptorHeaps
    | SetGraphicsRootDescriptorTable(parameter: nat, gpuHandle: nat)
    | SetViewport
    | SetScissorRect
    | Barrier(resource: Resource, before: ResourceState, after: ResourceState)
    | SetRenderTarget(rtv: nat)
    | ClearRenderTarget(rtv: nat)
    | ExecuteBundle
    /** `UpdateSubresources`: copy the staging buffer into the texture. */
    | UploadTexture
    | SetPrimitiveTopology
    | SetVertexBuffer(stride: nat, size: nat)
    | DrawInstanced(vertexCount: nat, instanceCount: nat, startVertex: nat, startInstance: nat)
    | Close

  /** What a list's handles refer to: the RTV heap, the shader-visible heap and
      the swap-chain buffers (`m_renderTargets`). */
  datatype Bindings = Bindings(rtv: Heap, srv: Heap, renderTargets: seq<Resource>)

  predicate BindingsWellFormed(b: Bindings) {
    && WellFormed(b.rtv) && b.rtv.capacity == FRAME_COUNT
    && WellFormed(b.srv) && b.srv.capacity == SrvHeapCapacity
    && |b.renderTargets| == FRAME_COUNT
    && forall n :: 0 <= n < FRAME_COUNT ==> b.renderTargets[n] == BackBuffer(n)
  }

  /** The resource a render target view handle designates. */
  function TargetOf(b: Bindings, handle: nat): Option<Resource>
    requires WellFormed(b.rtv)
  {
    match CpuSlot(b.rtv, handle)
    case Some(n) => if n < |b.renderTargets| then Some(b.renderTargets[n]) else None
    case None => None
  }

  predicate InState(states: States, r: Resource, s: ResourceState) {
    r in states && states[r] == s
  }

  /** A render target view command is valid when the handle designates a
      render target that is in `RENDER_TARGET` state. */
  predicate TargetReady(b: Bindings, states: States, handle: nat)
    requires WellFormed(b.rtv)
  {
    TargetOf(b, handle).Some? && InState(states, TargetOf(b, handle).value, RenderTarget)
  }

  /** A descriptor table binding is valid when the GPU handle designates a slot of
      the shader-visible heap holding the kind of view the parameter declares. */
  predicate TableReady(b: Bindings, p: nat, handle: nat)
    requires WellFormed(b.srv)
  {
    && p < |RootParameters|
    && GpuSlot(b.srv, handle).Some?
    && ViewAt(b.srv, GpuSlot(b.srv, handle).value) == Some(RootParameters[p])
  }

  /** The bundle's draw samples the texture and reads the vertex and constant
      buffers. */
  predicate DrawInputsReady(states: States) {
    && InState(states, Texture, PixelShaderResource)
    && InState(states, VertexBuffer, GenericRead)
    && InState(states, ConstantBuffer, GenericRead)
  }

  /** The effect of one command on the resource states, or `None` when the
      command is invalid in them. */
  function Apply(b: Bindings, states: States, c: Command): Option<States>
    requires WellFormed(b.rtv) && WellFormed(b.srv)
  {
    match c
    case Barrier(r, before, after) =>
      if InState(states, r, before) then Some(states[r := after]) else None
    case SetRenderTarget(h) =>
      if TargetReady(b, states, h) then Some(states) else None
    case ClearRenderTarget(h) =>
      if TargetReady(b, states, h) then Some(states) else None
    case SetGraphicsRootDescriptorTable(p, h) =>
      if TableReady(b, p, h) then Some(states) else None
    case UploadTexture =>
      if InState(states, Texture, CopyDest) && InState(states, TextureUpload, GenericRead) then Some(states) else None
    case ExecuteBundle =>
      if DrawInputsReady(states) then Some(states) else None
    case _ => Some(states)
  }

  /** Executes a list against the resource states: the states after its last
      barrier, or `InvalidCommand` at the first command that is invalid. */
  function Replay(b: Bindings, states: States, cmds: seq<Command>): Result<States>
    requires WellFormed(b.rtv) && WellFormed(b.srv)
    decreases |cmds|
  {
    if cmds == [] then Ok(states)
    else
      match Apply(b, states, cmds[0])
      case None => Err(InvalidCommand)
      case Some(next) => Replay(b, next, cmds[1..])
  }

  lemma ReplayStep(b: Bindings, states: States, c: Command, rest: seq<Command>)
    requires WellFormed(b.rtv) && WellFormed(b.srv)
    ensures Replay(b, states, [c] + rest) ==
      match Apply(b, states, c)
      case None => Err(InvalidCommand)
      case Some(next) => Replay(b, next, rest)
  {
    assert ([c] + rest)[0] == c;
    assert ([c] + rest)[1..] == rest;
  }

  /** Executing two lists back to back is executing the first and then the
      second from the states it leaves; a fault in the first stops both. */
  lemma {:induction false} ReplayConcat(b: Bindings, states: States, first: seq<Command>, second: seq<Command>)
    requires WellFormed(b.rtv) && WellFormed(b.srv)
    ensures Replay(b, states, first + second) ==
      match Replay(b, states, first)
      case Err(e) => Err(e)
      case Ok(mid) => Replay(b, mid, second)
    decreases |first|
  {
    if first != [] {
      ReplayStep(b, states, first[0], first[1..] + second);
      assert first + second == [first[0]] + (first[1..] + second);
      match Apply(b, states, first[0])
      case None =>
      case Some(next) => ReplayConcat(b, next, first[1..], second);
    } else {
      assert first + second == second;
    }
  }

  // ----- The frame's command list -----

  /** `PopulateCommandList` for back buffer `frameIndex`: reset, bind the root
      signature, the shader-visible heap and both descriptor tables, set viewport
      and scissor, move the back buffer to `RENDER_TARGET`, bind and clear its
      view, replay the bundle, move the back buffer back to `PRESENT`, close. */
  function FrameCommands(b: Bindings, frameIndex: nat): seq<Command>
    requires frameIndex < |b.renderTargets|
  {
    var backBuffer := b.renderTargets[frameIndex];
    FrameSetup(b)
    + [Barrier(backBuffer, Present, RenderTarget)]
    + FrameDraw(RenderTargetHandle(b.rtv, frameIndex))
    + [Barrier(backBuffer, RenderTarget, Present), Close]
  }

  /** The state-setting head of the frame list. */
  function FrameSetup(b: Bindings): seq<Command> {
    [ Reset,
      SetGraphicsRootSignature,
      SetDescriptorHeaps,
      SetGraphicsRootDescriptorTable(0, TableHandle(b.srv, 0)),
      SetGraphicsRootDescriptorTable(1, TableHandle(b.srv, 1)),
      SetViewport,
      SetScissorRect ]
  }

  /** The commands issued while the back buffer is a render target. */
  function FrameDraw(rtv: nat): seq<Command> {
    [SetRenderTarget(rtv), ClearRenderTarget(rtv), ExecuteBundle]
  }

  /** What a frame needs of the resource states: its back buffer presentable and
      the draw's inputs readable. */
  predicate FrameReady(b: Bindings, states: States, frameIndex: nat)
    requires frameIndex < |b.renderTargets|
  {
    InState(states, b.renderTargets[frameIndex], Present) && DrawInputsReady(states)
  }

  /** The frame list is valid exactly in the states `FrameReady` describes, and
      then leaves every resource in the state it found it: the back buffer starts
      and ends the frame in `PRESENT` and nothing else is touched. */
  lemma {:induction false} FrameReplay(b: Bindings, states: States, frameIndex: nat)
    requires BindingsWellFormed(b) && frameIndex < FRAME_COUNT
    ensures Replay(b, states, FrameCommands(b, frameIndex)).Ok? <==> FrameReady(b, states, frameIndex)
    ensures Replay(b, states, FrameCommands(b, frameIndex)).Ok? ==>
      Replay(b, states, FrameCommands(b, frameIndex)).value == states
  {
    var bb := b.renderTargets[frameIndex];
    var rtv := RenderTargetHandle(b.rtv, frameIndex);
    var setup := FrameSetup(b);
    var draw := FrameDraw(rtv);
    var close := [Barrier(bb, RenderTarget, Present), Close];
    var afterSetup := [Barrier(bb, Present, RenderTarget)] + (draw + close);
    assert FrameCommands(b, frameIndex) == setup + afterSetup;

    ShaderVisibleSlots(b.srv);
    SetupKeepsStates(b, states, setup, afterSetup);
    ReplayStep(b, states, Barrier(bb, Present, RenderTarget), draw + close);
    if InState(states, bb, Present) {
      var inRt := states[bb := RenderTarget];
      DrawKeepsStates(b, inRt, frameIndex, close);
      if DrawInputsReady(states) {
        ReplayStep(b, inRt, close[0], [Close]);
        assert inRt[bb := Present] == states;
        ReplayStep(b, states, Close, []);
      }
    }
  }

  /** Replaying the binding commands at the head of the frame list changes no
      state. */
  lemma {:induction false} SetupKeepsStates(b: Bindings, states: States, setup: seq<Command>, rest: seq<Command>)
    requires WellFormed(b.rtv) && WellFormed(b.srv) && b.srv.capacity == SrvHeapCapacity
    requires setup == FrameSetup(b)
    ensures Replay(b, states, setup + rest) == Replay(b, states, rest)
  {
    ShaderVisibleSlots(b.srv);
    assert TableReady(b, 0, TableHandle(b.srv, 0));
    assert TableReady(b, 1, TableHandle(b.srv, 1));
    NeutralPrefix(b, states, setup, rest);
  }

  /** A prefix of commands each of which leaves the states alone can be skipped. */
  lemma {:induction false} NeutralPrefix(b: Bindings, states: States, prefix: seq<Command>, rest: seq<Command>)
    requires WellFormed(b.rtv) && WellFormed(b.srv)
    requires forall k :: 0 <= k < |prefix| ==> Apply(b, states, prefix[k]) == Some(states)
    ensures Replay(b, states, prefix + rest) == Replay(b, states, rest)
    decreases |prefix|
  {
    if prefix != [] {
      assert Apply(b, states, prefix[0]) == Some(states);
      assert prefix + rest == [prefix[0]] + (prefix[1..] + rest);
      ReplayStep(b, states, prefix[0], prefix[1..] + rest);
      assert Replay(b, states, prefix + rest) == Replay(b, states, prefix[1..] + rest);
      forall k | 0 <= k < |prefix[1..]|
        ensures Apply(b, states, prefix[1..][k]) == Some(states)
      {
        assert prefix[1..][k] == prefix[k + 1];
      }
      NeutralPrefix(b, states, prefix[1..], rest);
    } else {
      assert prefix + rest == rest;
    }
  }

  /** With the back buffer in `RENDER_TARGET`, the draw commands succeed exactly
      when the draw's inputs are readable, and change no state. */
  lemma {:induction false} DrawKeepsStates(b: Bindings, inRt: States, frameIndex: nat, rest: seq<Command>)
    requires BindingsWellFormed(b) && frameIndex < FRAME_COUNT
    requires InState(inRt, b.renderTargets[frameIndex], RenderTarget)
    ensures var draw := FrameDraw(RenderTargetHandle(b.rtv, frameIndex));
      Replay(b, inRt, draw + rest) == if DrawInputsReady(inRt) then Replay(b, inRt, rest) else Err(InvalidCommand)
  {
    var rtv := RenderTargetHandle(b.rtv, frameIndex);
    RenderTargetSlot(b.rtv, frameIndex);
    assert TargetOf(b, rtv) == Some(b.renderTargets[frameIndex]);
    var draw := FrameDraw(rtv);
    assert draw + rest == [draw[0]] + ([draw[1]] + ([draw[2]] + rest));
    ReplayStep(b, inRt, draw[0], [draw[1]] + ([draw[2]] + rest));
    ReplayStep(b, inRt, draw[1], [draw[2]] + rest);
    ReplayStep(b, inRt, draw[2], rest);
  }

  /** The frame list is opened by `Reset` and closed by `Close` and nothing in
      between opens or closes it; its only barriers are the two on the current
      back buffer, PRESENT to RENDER_TARGET first and RENDER_TARGET to PRESENT
      last, and every command that writes the render target or draws lies
      strictly between them. */
  lemma FrameShape(b: Bindings, frameIndex: nat)
    requires frameIndex < |b.renderTargets|
    ensures var cmds := FrameCommands(b, frameIndex);
      && cmds[0] == Reset && cmds[|cmds| - 1] == Close
      && (forall k :: 0 < k < |cmds| - 1 ==> cmds[k] != Reset && cmds[k] != Close)
      && cmds[7] == Barrier(b.renderTargets[frameIndex], Present, RenderTarget)
      && cmds[|cmds| - 2] == Barrier(b.renderTargets[frameIndex], RenderTarget, Present)
      && (forall k :: 0 <= k < |cmds| && cmds[k].Barrier? ==> k == 7 || k == |cmds| - 2)
      && (forall k :: 0 <= k < |cmds| && (cmds[k].SetRenderTarget? || cmds[k].ClearRenderTarget? || cmds[k] == ExecuteBundle)
            ==> 7 < k < |cmds| - 2)
  {
  }

  // ----- Resource states outside a frame -----

  function BackBuffers(): set<Resource> {
    set n | 0 <= n < FRAME_COUNT :: BackBuffer(n)
  }

  /** The state each long-lived resource is in between frames. */
  function RestState(r: Resource): ResourceState {
    match r
    case BackBuffer(_) => Present
    case Texture => PixelShaderResource
    case TextureUpload => GenericRead
    case VertexBuffer => GenericRead
    case ConstantBuffer => GenericRead
  }

  function AtRest(): States {
    map r | r in BackBuffers() + {Texture, VertexBuffer, ConstantBuffer} :: RestState(r)
  }

  /** Between frames every frame's requirements hold. */
  lemma AtRestIsFrameReady(b: Bindings, frameIndex: nat)
    requires BindingsWellFormed(b) && frameIndex < FRAME_COUNT
    ensures FrameReady(b, AtRest(), frameIndex)
  {
    assert b.renderTargets[frameIndex] in BackBuffers();
  }

  // ----- The load-time lists -----

  /** States right after creation: swap-chain buffers in `PRESENT`/`COMMON`, the
      upload-heap buffers (vertex, staging, constant) in `GENERIC_READ`, the
      default-heap texture in `COPY_DEST`. */
  function CreationStates(): States {
    AtRest()[Texture := CopyDest][TextureUpload := GenericRead]
  }

  /** The load-time list: copy the staging buffer into the texture, then move the
      texture to `PIXEL_SHADER_RESOURCE`. */
  const UploadCommands: seq<Command> :=
    [UploadTexture, Barrier(Texture, CopyDest, PixelShaderResource), Close]

  /** From the creation states the upload list is valid and leaves exactly the
      at-rest states plus the staging buffer, which is then released. */
  lemma UploadReplay(b: Bindings)
    requires WellFormed(b.rtv) && WellFormed(b.srv)
    ensures Replay(b, CreationStates(), UploadCommands) == Ok(AtRest()[TextureUpload := GenericRead])
    ensures AtRest()[TextureUpload := GenericRead] - {TextureUpload} == AtRest()
  {
    var s0 := CreationStates();
    ReplayStep(b, s0, UploadCommands[0], UploadCommands[1..]);
    var s1 := s0[Texture := PixelShaderResource];
    ReplayStep(b, s0, UploadCommands[1], UploadCommands[2..]);
    ReplayStep(b, s1, UploadCommands[2], []);
    assert s1 == AtRest()[TextureUpload := GenericRead];
    assert TextureUpload !in AtRest();
  }

  /** The three vertices of the triangle and the vertex buffer holding them,
      `sizeof(triangleVertices)` bytes. */
  const TriangleVertexCount: nat := 3
  const VertexBufferSize: nat := TriangleVertexCount * VertexStride

  /** The bundle: root signature, triangle-list topology, the vertex buffer view,
      one instance of a 3-vertex draw, close. */
  const BundleCommands: seq<Command> :=
    [ SetGraphicsRootSignature,
      SetPrimitiveTopology,
      SetVertexBuffer(VertexStride, VertexBufferSize),
      DrawInstanced(3, 1, 0, 0),
      Close ]

  /** Every draw in a list reads only whole vertices inside the vertex buffer view
      bound before it. */
  predicate DrawsInBounds(cmds: seq<Command>) {
    forall k :: 0 <= k < |cmds| && cmds[k].DrawInstanced? ==>
      exists j :: 0 <= j < k && cmds[j].SetVertexBuffer? &&
        (cmds[k].startVertex + cmds[k].vertexCount) * cmds[j].stride <= cmds[j].size
  }

  /** The bundle draws exactly the triangle's vertices, every one of them inside
      the vertex buffer, with the stride `sizeof(Vertex)`. */
  lemma BundleDrawsTriangle()
    ensures DrawsInBounds(BundleCommands)
    ensures BundleCommands[3].vertexCount == TriangleVertexCount
    ensures BundleCommands[2].stride == SizeOf(Vertex) == 20 && VertexBufferSize == 60
    ensures BundleCommands[|BundleCommands| - 1] == Close
  {
    InputLayoutMatchesVertex();
    assert BundleCommands[2].SetVertexBuffer?;
  }
}
