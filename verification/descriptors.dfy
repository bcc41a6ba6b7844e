/** Descriptor heaps and the handle arithmetic the backend uses on them.

    A heap is a contiguous table of `capacity` descriptors, `stride` bytes apart
    (`GetDescriptorHandleIncrementSize`), reachable through a CPU start handle
    and, for a shader-visible heap, a GPU start handle. The `CD3DX12_*` handle
    helpers compute `start + index * stride`; a handle designates slot `i` of the
    heap when it equals that value for some `i < capacity`. */
module Descriptors {
  import opened Api
  import opened Layout
  import opened Arith

  datatype Heap = Heap(cpuStart: nat, gpuStart: nat, capacity: nat, stride: nat)

  /** The increment size the device reports is positive. */
  predicate WellFormed(h: Heap) {
    h.stride > 0
  }

  /** `CD3DX12_{CPU,GPU}_DESCRIPTOR_HANDLE(start, index, increment)` and
      `Offset(index, increment)`. */
  function Offset(base: nat, index: nat, increment: nat): nat {
    base + index * increment
  }

  /** `CD3DX12_GPU_DESCRIPTOR_HANDLE(start, offsetScaledByIncrementSize)`. */
  function OffsetBytes(base: nat, bytes: nat): nat {
    base + bytes
  }

  /** The slot a handle designates relative to `start`, if any. */
  function SlotFrom(h: Heap, start: nat, handle: nat): (r: Option<nat>)
    requires WellFormed(h)
    ensures r.Some? <==> exists i :: 0 <= i < h.capacity && handle == Offset(start, i, h.stride)
    ensures r.Some? ==> r.value < h.capacity && handle == Offset(start, r.value, h.stride)
  {
    if handle >= start && (handle - start) % h.stride == 0 then
      var i := (handle - start) / h.stride;
      assert handle == Offset(start, i, h.stride);
      if i < h.capacity then
        Some(i)
      else
        OnlySlot(h, start, i);
        None
    else
      NotASlot(h, start, handle);
      None
  }

  /** A handle is the offset of at most one index. */
  lemma OnlySlot(h: Heap, start: nat, i: nat)
    requires WellFormed(h)
    ensures forall j :: 0 <= j && Offset(start, i, h.stride) == Offset(start, j, h.stride) ==> j == i
  {
    forall j | 0 <= j && Offset(start, i, h.stride) == Offset(start, j, h.stride)
      ensures j == i
    {
      MulCancel(i, j, h.stride);
    }
  }

  lemma NotASlot(h: Heap, start: nat, handle: nat)
    requires WellFormed(h)
    requires !(handle >= start && (handle - start) % h.stride == 0)
    ensures forall i :: 0 <= i ==> handle != Offset(start, i, h.stride)
  {
    forall i | 0 <= i
      ensures handle != Offset(start, i, h.stride)
    {
      if handle == Offset(start, i, h.stride) {
        DivModUnique(handle - start, h.stride, i, 0);
      }
    }
  }

  function CpuSlot(h: Heap, handle: nat): Option<nat>
    requires WellFormed(h)
  {
    SlotFrom(h, h.cpuStart, handle)
  }

  function GpuSlot(h: Heap, handle: nat): Option<nat>
    requires WellFormed(h)
  {
    SlotFrom(h, h.gpuStart, handle)
  }

  /** Round trip: the handle for slot `i` designates slot `i` exactly when `i` is
      inside the heap. */
  lemma SlotRoundTrip(h: Heap, start: nat, i: nat)
    requires WellFormed(h)
    ensures SlotFrom(h, start, Offset(start, i, h.stride)) == (if i < h.capacity then Some(i) else None)
  {
    DivModUnique(i * h.stride, h.stride, i, 0);
    OnlySlot(h, start, i);
  }

  /** The render-target-view heap holds one descriptor per swap-chain buffer. */
  function RtvHeap(cpuStart: nat, stride: nat): Heap {
    Heap(cpuStart, 0, FRAME_COUNT, stride)
  }

  /** The shader-visible heap holds the texture SRV and the constant-buffer CBV. */
  const SrvHeapCapacity: nat := 2

  function SrvHeap(cpuStart: nat, gpuStart: nat, stride: nat): Heap {
    Heap(cpuStart, gpuStart, SrvHeapCapacity, stride)
  }

  /** The creation loop for the render target views: start at the heap's CPU
      start and advance the handle by one increment after each view. The handles
      it creates are exactly the ones `start + n * stride` that rendering later
      binds for frame `n`, each one a distinct slot inside the heap. */
  method CreateRenderTargetViews(h: Heap) returns (handles: seq<nat>)
    requires WellFormed(h) && h.capacity == FRAME_COUNT
    ensures |handles| == FRAME_COUNT
    ensures forall n :: 0 <= n < FRAME_COUNT ==> handles[n] == Offset(h.cpuStart, n, h.stride)
    ensures forall n :: 0 <= n < FRAME_COUNT ==> CpuSlot(h, handles[n]) == Some(n)
  {
    var rtvHandle := h.cpuStart;
    handles := [];
    var n := 0;
    while n < FRAME_COUNT
      invariant n <= FRAME_COUNT && |handles| == n
      invariant rtvHandle == Offset(h.cpuStart, n, h.stride)
      invariant forall k :: 0 <= k < n ==> handles[k] == Offset(h.cpuStart, k, h.stride)
    {
      handles := handles + [rtvHandle];
      rtvHandle := Offset(rtvHandle, 1, h.stride);
      n := n + 1;
    }
    forall k | 0 <= k < FRAME_COUNT
      ensures CpuSlot(h, handles[k]) == Some(k)
    {
      SlotRoundTrip(h, h.cpuStart, k);
    }
  }

  /** The handle the frame binds and clears for back buffer `frameIndex`. */
  function RenderTargetHandle(h: Heap, frameIndex: nat): nat {
    Offset(h.cpuStart, frameIndex, h.stride)
  }

  /** The kinds of view the shader-visible heap holds. */
  datatype ViewKind = Srv | Cbv

  /** The root signature's two descriptor tables: parameter 0 is a one-entry SRV
      range (`t0`, pixel shader), parameter 1 a one-entry CBV range (`b0`, vertex
      shader). */
  const RootParameters: seq<ViewKind> := [Srv, Cbv]

  /** Where the texture SRV is created: the heap's CPU start. */
  function TextureViewHandle(h: Heap): nat { h.cpuStart }

  /** Where the constant-buffer view is created: one increment past the start. */
  function ConstantViewHandle(h: Heap): nat { Offset(h.cpuStart, 1, h.stride) }

  /** The GPU handle each frame binds to root parameter `p`: the heap's GPU start
      for parameter 0, the start plus one increment for parameter 1. */
  function TableHandle(h: Heap, p: nat): nat {
    if p == 0 then h.gpuStart else OffsetBytes(h.gpuStart, h.stride)
  }

  /** The kind of view created in `slot`: the texture SRV at its creation
      handle, the CBV at its creation handle, nothing elsewhere. */
  function ViewAt(h: Heap, slot: nat): Option<ViewKind>
    requires WellFormed(h)
  {
    if CpuSlot(h, TextureViewHandle(h)) == Some(slot) then Some(Srv)
    else if CpuSlot(h, ConstantViewHandle(h)) == Some(slot) then Some(Cbv)
    else None
  }

  /** Both views land inside the 2-entry heap, in distinct slots, and each root
      table points, through the GPU handle the frame binds, at the slot holding
      the kind of view its range declares. */
  lemma ShaderVisibleSlots(h: Heap)
    requires WellFormed(h) && h.capacity == SrvHeapCapacity
    ensures CpuSlot(h, TextureViewHandle(h)) == Some(0)
    ensures CpuSlot(h, ConstantViewHandle(h)) == Some(1)
    ensures forall p :: 0 <= p < |RootParameters| ==>
      && GpuSlot(h, TableHandle(h, p)).Some?
      && ViewAt(h, GpuSlot(h, TableHandle(h, p)).value) == Some(RootParameters[p])
  {
    SlotRoundTrip(h, h.cpuStart, 0);
    SlotRoundTrip(h, h.cpuStart, 1);
    SlotRoundTrip(h, h.gpuStart, 0);
    SlotRoundTrip(h, h.gpuStart, 1);
    assert TableHandle(h, 0) == Offset(h.gpuStart, 0, h.stride);
    assert TableHandle(h, 1) == Offset(h.gpuStart, 1, h.stride);
  }

  /** The render target view bound for frame `n` is slot `n` of the heap, which
      exists exactly when `n < FRAME_COUNT`. */
  lemma RenderTargetSlot(h: Heap, n: nat)
    requires WellFormed(h) && h.capacity == FRAME_COUNT
    ensures CpuSlot(h, RenderTargetHandle(h, n)) == (if n < FRAME_COUNT then Some(n) else None)
  {
    SlotRoundTrip(h, h.cpuStart, n);
  }

  /** Distinct frames use distinct render target views. */
  lemma RenderTargetsDistinct(h: Heap, a: nat, b: nat)
    requires WellFormed(h) && a != b
    ensures RenderTargetHandle(h, a) != RenderTargetHandle(h, b)
  {
    if RenderTargetHandle(h, a) == RenderTargetHandle(h, b) {
      MulCancel(a, b, h.stride);
    }
  }
}
