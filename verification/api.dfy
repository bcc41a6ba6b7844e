/** Outcomes of the opaque Direct3D 12 / DXGI / Win32 calls the backend makes,
    and the faults the model itself can detect.

    Every fatal call goes through `ThrowIfFailed`, which aborts on any result
    other than `S_OK`; the model represents that abort as an `Err(Failed(call, hr))`
    value. The remaining `Fault` constructors are the misuses the API leaves
    undefined (resetting an allocator that is still executing, writing a buffer
    the GPU may be reading, a barrier whose `before` state is wrong, ...): the
    model reports them so that lemmas can show they never arise. */
module Api {

  /** An HRESULT read as a signed 32-bit value. */
  type HResult = x: int | -0x8000_0000 <= x < 0x8000_0000

  const S_OK: HResult := 0

  /** Win32 `DWORD` error codes, as returned by `GetLastError`. */
  type Dword = x: int | 0 <= x < 0x1_0000_0000

  /** The `SUCCEEDED` macro: every non-negative code succeeds, `S_FALSE` included. */
  predicate Succeeded(hr: HResult) {
    hr >= 0
  }

  /** `HRESULT_FROM_WIN32`: zero and codes already negative as an HRESULT pass
      through, every other code is tagged with `FACILITY_WIN32` (7) and the
      severity bit. */
  function HresultFromWin32(err: Dword): (hr: HResult)
    ensures hr == S_OK <==> err == 0
    ensures err != 0 ==> !Succeeded(hr)
    ensures 0 < err < 0x8000_0000 ==> hr % 0x1_0000 == err % 0x1_0000
  {
    if err == 0 || err >= 0x8000_0000 then
      if err == 0 then 0 else err - 0x1_0000_0000
    else
      err % 0x1_0000 + 0x8007_0000 - 0x1_0000_0000
  }

  /** The calls whose result the backend checks with `ThrowIfFailed`. */
  datatype Call =
    // LoadPipeline
    | CreateFactory
    | EnumWarpAdapter
    | CreateDevice
    | CreateCommandQueue
    | CreateSwapChain
    | MakeWindowAssociation
    | QuerySwapChain3
    | CreateRtvHeap
    | CreateSrvHeap
    | GetBuffer(n: nat)
    | CreateCommandAllocator
    | CreateBundleAllocator
    // LoadAssets
    | SerializeRootSignature
    | CreateRootSignature
    | CompileVertexShader
    | CompilePixelShader
    | CreatePipelineState
    | CreateCommandList
    | CreateVertexBuffer
    | MapVertexBuffer
    | CreateBundle
    | CloseBundle
    | CreateTexture
    | CreateTextureUpload
    | CreateConstantBuffer
    | MapConstantBuffer
    | CloseCommandList
    | CreateFence
    | CreateEvent
    // WaitForPreviousFrame
    | Signal
    | SetEventOnCompletion
    // PopulateCommandList and Render
    | ResetAllocator
    | ResetCommandList
    | SwapChainPresent

  datatype Fault =
    /** `ThrowIfFailed` saw a result other than `S_OK`. */
    | Failed(call: Call, hr: HResult)
    /** The command allocator was reset while a list recorded from it may still execute. */
    | AllocatorInUse
    /** The CPU wrote the mapped constant buffer while the GPU may still read it. */
    | MappedBufferInUse
    /** The texture staging buffer was released before the copy reading it retired. */
    | ReleasedWhileInUse
    /** A recorded command found a resource or descriptor in the wrong state. */
    | InvalidCommand
    /** The swap chain presented a buffer other than the one the frame rendered. */
    | PresentMismatch

  datatype Option<+T> = None | Some(value: T)

  datatype Result<+T> = Ok(value: T) | Err(error: Fault) {
    predicate IsFailure() {
      Err?
    }

    function PropagateFailure<U>(): Result<U>
      requires Err?
    {
      Err(error)
    }

    function Extract(): T
      requires Ok?
    {
      value
    }
  }

  /** `ThrowIfFailed`: only `S_OK` lets execution continue. */
  function Check(call: Call, hr: HResult): Result<()>
  {
    if hr == S_OK then Ok(()) else Err(Failed(call, hr))
  }
}
