# ScribbleKit DX12 backend — a Dafny model

This project models the core of ScribbleKit's Direct3D 12 backend, the
`InterfaceDX12` class. The class draws one textured triangle. It has four
lifecycle calls:

- `Init` builds the pipeline and loads the assets.
- `Update` moves the triangle.
- `Render` records a frame, submits it, presents it and waits for it.
- `Destroy` waits for the GPU before the resources go.

Each part of the class is a Dafny module. Every lifecycle operation is a
function of the object's state and the platform's results; the texture
generator and the render-target-view loop are methods that fill arrays and
sequences as the source's loops do.

- `Api` holds the HRESULT arithmetic, including `ThrowIfFailed` (continue only
  on `S_OK`), `SUCCEEDED` and `HRESULT_FROM_WIN32`. It also names the checked
  calls and the faults.
- `Layout` holds the header's constants and the C++ byte layouts of `Vertex` and
  `SceneConstantBuffer`.
- `Checkerboard` models `GenerateTextureData` and the texel layout that the
  texture upload reads.
- `Descriptors` models the descriptor heaps and the `CD3DX12_*` handle
  arithmetic.
- `Commands` models the recorded command lists (upload, bundle and frame). It
  also models the resource-state discipline that each list must follow.
- `Adapters` models `GetHardwareAdapter`.
- `Sync` models the command queue as a FIFO of work, the fence, and
  `WaitForPreviousFrame`.
- `Animation` models `Update`'s offset sweep.
- `Backend` models the object's state and the four lifecycle operations. It
  covers whole sessions: `Init` followed by any sequence of `Update`s and
  `Render`s.

The platform's results are parameters of the model. These include every checked
call's HRESULT, the heap start handles and increments, the swap chain's first
back buffer, and how far the GPU gets while the CPU is not waiting. The model
also reports faults that the API leaves undefined:

- resetting an allocator whose list may still execute;
- writing the mapped constant buffer while the GPU may read it;
- releasing the staging buffer before the copy from it retires;
- a barrier whose `before` state is wrong, or a view or descriptor table that
  points at the wrong thing;
- presenting a buffer other than the one rendered.

On every path the model covers, the lifecycle lemmas show that none of these
faults arises, and the only way anything fails is a checked call that does not
return `S_OK`. The one path left out is an abort during `Init` after the upload
list has been submitted; see "## Left out".

What the code does at its decision points:

- `GetHardwareAdapter` returns a null adapter when none qualifies, and
  `D3D12CreateDevice` then uses the default adapter (`DefaultAdapter`).
- A software (WARP) adapter is chosen only through `m_use_warp_device`, never by
  the search.
- The fallback pass runs whenever the preference pass found nothing, not only
  when `IDXGIFactory6` is unavailable.
- `ThrowIfFailed` treats `S_FALSE` as a failure, while the adapter probes and
  `QueryInterface` accept it.
- Every failure is one `Failed(call, hr)` value naming the call.

## Model

| member | source | states |
|---|---|---|
| Api.HresultFromWin32 | DX12/InterfaceDX12.cpp:457-461 | A zero error code maps to `S_OK` and every other code maps to a failing HRESULT. A small code keeps its low 16 bits, so a failed `CreateEvent` aborts `Init` unless `GetLastError` is 0. |
| Layout.ConstantBufferIsAligned | DX12/InterfaceDX12.h:75-80 | `SceneConstantBuffer` is 256 bytes, so the static assertion that its size is a multiple of 256 holds. `offset` is at byte 0 and is 16 bytes long. |
| Layout.InputLayoutMatchesVertex | DX12/InterfaceDX12.cpp:283-287 | Each input element starts at the byte offset of its `Vertex` field and has that field's size. TEXCOORD sits at `sizeof(Float3)` = 12, and the stride `sizeof(Vertex)` is 20. |
| Layout.FieldsAreDisjoint | DX12/InterfaceDX12.h:69-79 | The fields of a struct occupy disjoint byte ranges in declaration order, all inside the struct. |
| Checkerboard.GenerateTextureData | DX12/InterfaceDX12.cpp:471-506 | The generator returns exactly `rowPitch * TextureHeight` bytes. Byte `n` is the byte the colour test prescribes for offset `n`, which covers every byte, alpha included. |
| Checkerboard.WriteTexel | DX12/InterfaceDX12.cpp:489-502 | One loop step writes the four bytes of the texel at `n`: black or white per the colour test, alpha 0xff. It leaves every other byte of the buffer unchanged. |
| Checkerboard.ColourRule | DX12/InterfaceDX12.cpp:484-489 | The generator's test `i % 2 == j % 2`, computed from byte offsets, is black exactly where the intended 8 x 8 board (cell size 32 pixels, top-left cell black) is black. |
| Checkerboard.TexelShape | DX12/InterfaceDX12.cpp:489-502 | Every texel is opaque, and R = G = B is 0x00 or 0xff. It is 0x00 exactly on the reference board's black cells. |
| Checkerboard.ByteOffsetRoundTrip | DX12/InterfaceDX12.cpp:400-403 | The upload's texel addressing (`RowPitch`, `TexturePixelSize`) and the generator's `x`/`y` decomposition are inverse. Every texel lies inside the buffer. |
| Checkerboard.OffsetDecomposes | DX12/InterfaceDX12.cpp:482-486 | The other direction: every byte offset below the texture size splits into an in-range column and row, and is the offset of that pixel and its channel. Together with `ByteOffsetRoundTrip` the two maps are a bijection. |
| Checkerboard.SampledTexel | DX12/InterfaceDX12.cpp:398-405 | Round trip: the four bytes the upload reads for pixel (px, py) of the generated buffer are `[0,0,0,255]` on a black reference cell and `[255,255,255,255]` elsewhere. |
| Descriptors.SlotFrom | DX12/InterfaceDX12.cpp:198-206 | A handle designates a slot exactly when it is `start + i * stride` for some `i` inside the heap, and then that `i` is the slot. |
| Descriptors.SlotRoundTrip | DX12/InterfaceDX12.cpp:540 | The handle built for index `i` designates slot `i` exactly when `i` is inside the heap, and nothing otherwise. |
| Descriptors.CreateRenderTargetViews | DX12/InterfaceDX12.cpp:198-206 | The creation loop's handles are `start + n * stride` for each swap-chain buffer `n`. Each designates slot `n` of the RTV heap, the same handle that rendering later binds for frame `n`. |
| Descriptors.ShaderVisibleSlots | DX12/InterfaceDX12.cpp:416-436 | The SRV lands in slot 0 and the CBV in slot 1 of the 2-entry heap. Root table 0 (SRV range) and root table 1 (CBV range) each point, through the GPU handle bound at lines 528-530, at the slot holding their kind of view. |
| Descriptors.RenderTargetSlot | DX12/InterfaceDX12.cpp:540 | The view bound for frame `n` is slot `n` of the RTV heap, which exists exactly when `n < FRAME_COUNT`. |
| Descriptors.RenderTargetsDistinct | DX12/InterfaceDX12.cpp:540 | Distinct frame indices bind distinct render target view handles. |
| Commands.FrameReplay | DX12/InterfaceDX12.cpp:508-561 | `FrameCommands`, the list `PopulateCommandList` records, is valid exactly when its back buffer is in PRESENT and the texture, vertex and constant buffers are readable. It then leaves every resource in the state it found it. |
| Commands.FrameShape | DX12/InterfaceDX12.cpp:513-560 | `FrameCommands` opens with `Reset` and ends with `Close`, and nothing in between opens or closes it. Its only barriers are PRESENT to RENDER_TARGET and back on the current back buffer. Every render-target write and the bundle lie strictly between them. |
| Commands.ReplayConcat | DX12/InterfaceDX12.cpp:72-73 | `Replay` executes a list command by command: running two lists back to back is running the first and then the second from the states it leaves, and a fault in the first stops both. |
| Commands.UploadReplay | DX12/InterfaceDX12.cpp:377-408 | From the creation states (texture in COPY_DEST, staging buffer in GENERIC_READ) the upload list is valid. It leaves the texture in PIXEL_SHADER_RESOURCE, the at-rest state once the staging buffer is released. |
| Commands.AtRestIsFrameReady | DX12/InterfaceDX12.cpp:534-537 | Between frames every resource is in the state a frame needs, for either back buffer. |
| Commands.BundleDrawsTriangle | DX12/InterfaceDX12.cpp:343-354 | The bundle's single draw reads exactly the triangle's three vertices, all inside the 60-byte vertex buffer view with stride `sizeof(Vertex)`. The bundle ends with `Close`. |
| Adapters.FirstQualifying | DX12/InterfaceDX12.cpp:626-649 | The enumeration loop stops at the earliest non-software adapter whose probe succeeds, and every adapter before it fails that test. If it runs off the end, no adapter passes the test. |
| Adapters.SearchPass | DX12/InterfaceDX12.cpp:595-620 | A pass finds an adapter exactly when some adapter in the order qualifies, and then it finds the first qualifying one. |
| Adapters.GetHardwareAdapter | DX12/InterfaceDX12.cpp:585-653 | The result is never a software adapter. It is null exactly when neither the preference pass (needs `IDXGIFactory6` and 12_0) nor the index pass (11_0) has a qualifying adapter. |
| Adapters.SelectionRule | DX12/InterfaceDX12.cpp:593-625 | The preference pass decides whenever it finds a 12_0 adapter. Otherwise the result is the index pass's first 11_0 adapter, or null. |
| Adapters.FirstMatchIsUnique | DX12/InterfaceDX12.cpp:616-618 | The first-match description determines the answer: two adapters that both satisfy it are the same. |
| Adapters.PreferencePass | DX12/InterfaceDX12.cpp:593-621 | The preference pass finds an adapter exactly when `IDXGIFactory6` is available and some adapter of the chosen GPU-preference order is not software and supports 12_0; it then finds the first such adapter. |
| Adapters.SoftwareOnlyGivesNull | DX12/InterfaceDX12.cpp:606-609 | For any factory: if every adapter whose probe succeeds, in either pass, is a software adapter, the result is null. Software adapters are skipped even when they are the only ones that support the feature level (lines 631-636). |
| Adapters.SFalseProbeIsSupport | DX12/InterfaceDX12.cpp:611-615 | For any factory with `IDXGIFactory6`: when the first non-software adapter of the preference order answers the 12_0 probe with `S_FALSE`, that adapter is chosen, because the probe is judged with `SUCCEEDED`. |
| Sync.RetireCoherent | DX12/InterfaceDX12.cpp:571-573 | GPU progress preserves the fence discipline: the completed value stays below the next value, and outstanding signals lie above it in strictly increasing order. |
| Sync.RetireMonotone | DX12/InterfaceDX12.cpp:576 | Under the discipline the fence's completed value never decreases. |
| Sync.RunUntil | DX12/InterfaceDX12.cpp:576-580 | The blocking wait returns once the completed value has reached the target, or, should that never happen, once the queue has run dry; it never changes which values were signalled. |
| Sync.RunUntilDrains | DX12/InterfaceDX12.cpp:576-580 | Blocking until the newest signal completes returns with the queue empty and the completed value exactly that signal. |
| Sync.WaitForPreviousFrame | DX12/InterfaceDX12.cpp:563-583 | The wait fails exactly when `Signal` fails, or when it had to block and `SetEventOnCompletion` failed. It blocks exactly when the observed completed value is below the signalled one. On success the fence value is one higher, the signal is recorded, the frame index is the swap chain's, and under the discipline the GPU is idle with the completed value at the signal. |
| Animation.StepOffset | DX12/InterfaceDX12.cpp:53-62 | An in-bounds offset stays in [-1.25, 1.25]. Each update is one step to the right or exactly -1.25, and the reset happens only after passing the right bound. |
| Animation.OffsetClosedForm | DX12/InterfaceDX12.cpp:55-62 | After `n` updates from 0 the offset equals an independent sweep: 250 steps up to 1.25, then repeated rounds from -1.25 in steps of 0.005. |
| Animation.OffsetStaysInBounds | DX12/InterfaceDX12.cpp:58-62 | From 0, the offset stays in [-1.25, 1.25] after any number of updates. |
| Animation.Periodic | DX12/InterfaceDX12.cpp:55-61 | After the first pass the motion repeats every 501 updates. 1.25 itself is reached, and the next update lands exactly on -1.25. |
| Backend.PipelineCalls | DX12/InterfaceDX12.cpp:91-211 | The checked calls of `LoadPipeline` in program order: the factory first, `EnumWarpAdapter` exactly on the WARP path, device creation right after the adapter choice, `GetBuffer(n)` for every swap-chain buffer, the bundle allocator last. |
| Backend.AssetCalls | DX12/InterfaceDX12.cpp:213-461 | The checked calls of `LoadAssets` in program order: root-signature serialisation first; `CreateEvent`'s error is checked exactly when the event handle is null (lines 457-461), and then it is the last check, otherwise `CreateFence` is. |
| Backend.ChooseAdapter | DX12/InterfaceDX12.cpp:110-127 | The device is created on WARP exactly when `m_use_warp_device` is set; otherwise on the non-software adapter `GetHardwareAdapter` returned, or on the default adapter when it returned null. |
| Backend.FirstFailure | GraphicsApiInterface.h:14-20 | There is no failure exactly when every call returns `S_OK`. Otherwise the result names the earliest call whose result is not `S_OK`, together with that result. |
| Backend.CheckAllOutcome | GraphicsApiInterface.h:14-20 | `ThrowIfFailed` applied to each call of a list in turn lets execution continue exactly when every call returns `S_OK`, and otherwise reports a failed call. |
| Backend.InitAbortsAtFirstFailure | DX12/InterfaceDX12.cpp:91-461 | `Init` stops at the earliest checked call of `LoadPipeline`/`LoadAssets` that does not return `S_OK`, and reports that call and its result. |
| Backend.SFalseAbortsInit | GraphicsApiInterface.h:14-20 | A checked call answering `S_FALSE` aborts `Init`, because `ThrowIfFailed` compares against `S_OK`. |
| Backend.InitialWaitOutcome | DX12/InterfaceDX12.cpp:453-466 | `InitialWait`, the wait that ends `LoadAssets` (fence created at 0, `m_fenceValue` 1, only the upload list submitted), fails only through a failed call. Otherwise the upload list has retired, the fence has completed 1, and the next value is 2. |
| Backend.BootOutcome | DX12/InterfaceDX12.cpp:446-467 | `Boot` is the rest of `Init` once the checked calls pass (upload list replayed, final wait, staging buffer released). It fails only through the final wait's calls. On success the object has the creation bindings, every resource at rest, the staging buffer released after its copy retired, an idle GPU, and nothing presented. |
| Backend.BootValid | DX12/InterfaceDX12.cpp:446-467 | A successful start-up establishes the between-operations invariant `Valid`. |
| Backend.BootInitialState | DX12/InterfaceDX12.cpp:453-466 | After start-up the fence value is 2, the only signal is 1 and it has completed, the frame index is the swap chain's first back buffer, and the offset is 0. The fence event is open exactly when `CreateEvent` returned a handle. |
| Backend.NullEventPassesInit | DX12/InterfaceDX12.cpp:457-461 | A null event handle with `GetLastError` at 0 passes the check, since `HRESULT_FROM_WIN32(0)` is `S_OK`. `Init` can then succeed with no open fence event. |
| Backend.InitEstablishesValid | DX12/InterfaceDX12.cpp:30-51 | `Init` (`LoadPipeline` then `LoadAssets`) succeeds exactly when every checked call returns `S_OK` and the final wait succeeds. On every path the model covers it fails only through a failed call, never a misuse; an abort after the upload list is submitted is left out (see "## Left out"). On success the object is `Valid`. |
| Backend.Update | DX12/InterfaceDX12.cpp:53-64 | `Update` fails exactly when a list may still be executing. On success the offset is one animation step from the old one, the mapped copy equals the CPU copy, and nothing else changes. |
| Backend.UpdatePreservesValid | DX12/InterfaceDX12.cpp:53-64 | From a `Valid` state `Update` succeeds, takes one animation step, and keeps the object `Valid`. |
| Backend.Render | DX12/InterfaceDX12.cpp:66-79 | A successful frame raises the fence value by one, records the signal, presents the frame's buffer, moves to the other buffer, and keeps the bindings. |
| Backend.RenderOutcome | DX12/InterfaceDX12.cpp:66-79 | From a `Valid` state a frame succeeds exactly when every checked call does. It fails only through a failed call: no allocator reset under a running list, no wrong barrier, no mismatched present. |
| Backend.RenderPreservesValid | DX12/InterfaceDX12.cpp:66-79 | A successful frame from a `Valid` state keeps the object `Valid`, with the frame's signal completed. |
| Backend.RenderRecordsPresentedBuffer | DX12/InterfaceDX12.cpp:534-541 | The recorded list is the frame list for the buffer just presented. Its first barrier moves that buffer to RENDER_TARGET. |
| Backend.Destroy | DX12/InterfaceDX12.cpp:81-88 | A successful `Destroy` closes the event and raises the fence value by one. |
| Backend.DestroyIdlesGpu | DX12/InterfaceDX12.cpp:81-88 | From a `Valid` state `Destroy` fails only through a failed call. On success the GPU has retired everything, so no resource is freed while the GPU may use it. |
| Backend.Step | DX12/InterfaceDX12.cpp:53-79 | A successful `Update` or `Render` keeps the heaps, back buffers and frame index well formed, so the next call can be made. |
| Backend.StepPreservesValid | DX12/InterfaceDX12.cpp:53-79 | One main-loop call from a `Valid` state fails only through a failed call and otherwise keeps `Valid`. |
| Backend.StepEffect | DX12/InterfaceDX12.cpp:53-79 | A frame signals one more value, presents the current buffer and advances the index. An update takes one animation step and changes neither the fence nor the swap chain. |
| Backend.RoundRobinAt | DX12/InterfaceDX12.cpp:148 | With flip-discard presentation, the `k`-th buffer presented is `first + k` modulo `FRAME_COUNT`. |
| Backend.RoundRobinAlternates | DX12/InterfaceDX12.cpp:582 | Consecutive frames render and present different back buffers. |
| Backend.RunKeepsValid | DX12/InterfaceDX12.cpp:66-79 | Over any sequence of updates and frames from a `Valid` state no misuse occurs and the object stays `Valid`. |
| Backend.RunSignals | DX12/InterfaceDX12.cpp:571-573 | Over any run the fence value rises by exactly the number of frames. |
| Backend.RunPresents | DX12/InterfaceDX12.cpp:76-78 | Over any run the presented buffers continue round-robin from the current one, one per frame. |
| Backend.RunAnimates | DX12/InterfaceDX12.cpp:53-62 | Over any run the offset has taken exactly one animation step per update. |
| Backend.SessionGuarantees | DX12/InterfaceDX12.cpp:30-79 | A whole session fails only through a failed call. Otherwise the object is `Valid` and the signalled values are exactly 1, 2, ..., so they strictly increase. The buffers presented go round-robin from the first back buffer, and the offset is the sweep after as many updates as were made. |
| Backend.RunFromStart | DX12/InterfaceDX12.cpp:66-79 | The main loop from the state `Init` leaves behind has the same guarantees as a whole session. |

## Left out

- GPU execution and `WaitForSingleObject` are not simulated. The GPU is a FIFO
  queue, and how far it gets between CPU steps is an environment parameter. The
  blocking wait retires items until the fence reaches its target. Timeouts do
  not exist, since the wait is `INFINITE`.
- Animation.StepOffset: computes in exact `real` arithmetic rather than 32-bit
  `float`. The step count to the bound (250) and the period (501) assume exact
  decimal steps, which `float` rounding may shift by one.
- The creation of opaque objects is not modelled: device, queue, swap chain,
  heaps, root signature, shaders, pipeline state, resources and views. Each one
  is only a checked call with an HRESULT parameter, plus the handle arithmetic
  that `Descriptors` covers.
- `memcpy` into mapped memory, the triangle's vertex positions and the aspect
  ratio are not modelled. The vertex buffer is modelled only by its size and
  stride, and the constant buffer only by `offset.x`.
- The debug layer (lines 94-104), `printf` and the error message strings are
  left out, because they do not affect the state.
- `GetAssetFullPath`, shader compilation from disk, and the shader source are
  left out. Compilation is a checked call.
- GLFW window queries, the viewport, the scissor rectangle and the clear colour
  are left out. Each is an unchecked command with no state effect.
- `main.cpp` and `PlatformIncludes.h` are not part of this model. The host only
  calls the four lifecycle operations.
- `UINT` and `UINT64` widths are unbounded `nat`. The fence counter cannot
  overflow in any realistic session.
- Backend.PresentBuffer: the swap chain's round-robin order is taken as the
  platform's behaviour, not derived.
- `DefaultAdapter`: the adapter `D3D12CreateDevice` picks for a null pointer is
  not modelled further.
- Backend.Boot: `UpdateSubresources`' result is ignored by the source (line
  405), where 0 means the copy was not recorded; the model assumes the copy is
  recorded, so a successful `Init` always holds the generated texture.
- Backend.Boot: `ExecuteCommandLists` for the upload list (line 449) is applied
  after all the checks, not between `CloseCommandList` and `CreateFence`. No
  checked call in between observes the queue. The abort paths after line 449
  are not modelled: if `CreateFence` (line 453), `CreateEvent` (line 460),
  `Signal` (line 572) or `SetEventOnCompletion` (line 578) fails, the exception
  unwinds `LoadAssets` and releases the local staging buffer (line 361, which
  the comment at lines 357-360 says must outlive the copy) while the upload
  list may still be pending. That is a `ReleasedWhileInUse` the model reports
  as the plain `Failed` of the call that aborted.
- Backend.Destroy: when `CreateEvent` returned null and start-up went on (see
  Backend.NullEventPassesInit), `CloseHandle` at line 87 is called on a null
  handle; its result is ignored by the source, and the model only records that
  no event is open afterwards.
- Backend.Init: the assignment `m_frameIndex = 0` (line 37) is not modelled,
  because line 166 overwrites it before any use.
- Checkerboard.GenerateTextureData: "every byte is written exactly once" is
  stated through `WriteTexel`'s frame condition, not through a write counter.
- Checkerboard.CellHeight is taken from the texture width (`TextureWidth >> 3`),
  as the source does. The texture is square, so this equals height / 8.
- Exceptions are `Err` values; stack unwinding and destructors are not
  modelled.
