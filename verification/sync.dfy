/** The direct command queue, the fence, and `WaitForPreviousFrame`.

    The GPU is a first-in first-out queue of submitted work. A command list
    submitted with `ExecuteCommandLists` and a `Signal(fence, v)` both join the
    back of the queue; when the GPU retires a signal, the fence's completed
    value becomes `v`. How far the GPU has got at any moment is not something the
    CPU controls, so every operation that looks at the fence takes the number of
    items the GPU retired in the meantime as a parameter. A blocking wait on the
    fence event retires items until the completed value reaches the target. */
module Sync {
  import opened Api

  /** The two command lists ever submitted: the load-time upload list and the
      per-frame list (both are the same `m_commandList`, re-recorded). */
  datatype ListKind = UploadList | FrameList

  datatype Work = Execute(list: ListKind) | SignalFence(value: nat)

  /** `pending`: submitted and not yet retired, oldest first. `completed`: the
      fence's completed value. `signalled`: every value the queue was asked to
      signal, in order. */
  datatype Gpu = Gpu(pending: seq<Work>, completed: nat, signalled: seq<nat>)

  /** A queue with nothing submitted and a fence created with initial value 0. */
  const FreshGpu: Gpu := Gpu([], 0, [])

  /** `ExecuteCommandLists` with one list. */
  function ExecuteList(g: Gpu, list: ListKind): Gpu {
    g.(pending := g.pending + [Execute(list)])
  }

  /** `ID3D12CommandQueue::Signal(fence, value)`, once it has been accepted. */
  function QueueSignal(g: Gpu, value: nat): Gpu {
    g.(pending := g.pending + [SignalFence(value)], signalled := g.signalled + [value])
  }

  /** The GPU finishes the oldest outstanding item. */
  function RetireOne(g: Gpu): Gpu
    requires g.pending != []
  {
    var w := g.pending[0];
    g.(pending := g.pending[1..], completed := if w.SignalFence? then w.value else g.completed)
  }

  /** The GPU finishes up to `k` items, oldest first. */
  function Retire(g: Gpu, k: nat): (r: Gpu)
    ensures r.signalled == g.signalled
    ensures |r.pending| <= |g.pending| && r.pending == g.pending[|g.pending| - |r.pending|..]
    ensures |g.pending| <= k ==> r.pending == []
    decreases k
  {
    if k == 0 || g.pending == [] then g else Retire(RetireOne(g), k - 1)
  }

  /** `SetEventOnCompletion(target, event)` followed by
      `WaitForSingleObject(event, INFINITE)`: the CPU resumes once the completed
      value has reached `target`, or, should that never happen, once the queue
      has run dry. */
  function RunUntil(g: Gpu, target: nat): (r: Gpu)
    ensures r.signalled == g.signalled
    ensures r.completed >= target || r.pending == []
    decreases |g.pending|
  {
    if g.pending == [] || g.completed >= target then g else RunUntil(RetireOne(g), target)
  }

  /** The fence discipline when `next` is the CPU's next value to signal: the
      completed value is below it, and the outstanding signals are above the
      completed value, below `next`, and strictly increasing. */
  predicate Coherent(g: Gpu, next: nat) {
    && g.completed < next
    && (forall i :: 0 <= i < |g.pending| && g.pending[i].SignalFence? ==>
          g.completed < g.pending[i].value < next)
    && (forall i, j :: 0 <= i < j < |g.pending| && g.pending[i].SignalFence? && g.pending[j].SignalFence? ==>
          g.pending[i].value < g.pending[j].value)
  }

  /** Retiring one item keeps the discipline and never lowers the completed value. */
  lemma RetireOneCoherent(g: Gpu, next: nat)
    requires Coherent(g, next) && g.pending != []
    ensures Coherent(RetireOne(g), next)
    ensures RetireOne(g).completed >= g.completed
  {
    var r := RetireOne(g);
    forall i | 0 <= i < |r.pending| && r.pending[i].SignalFence?
      ensures r.completed < r.pending[i].value < next
    {
      assert r.pending[i] == g.pending[i + 1];
    }
    forall i, j | 0 <= i < j < |r.pending| && r.pending[i].SignalFence? && r.pending[j].SignalFence?
      ensures r.pending[i].value < r.pending[j].value
    {
      assert r.pending[i] == g.pending[i + 1] && r.pending[j] == g.pending[j + 1];
    }
  }

  /** GPU progress keeps the discipline. */
  lemma {:induction false} RetireCoherent(g: Gpu, next: nat, k: nat)
    requires Coherent(g, next)
    ensures Coherent(Retire(g, k), next)
    decreases k
  {
    if k > 0 && g.pending != [] {
      RetireOneCoherent(g, next);
      RetireCoherent(RetireOne(g), next, k - 1);
    }
  }

  /** Under the discipline the fence's completed value never decreases. */
  lemma {:induction false} RetireMonotone(g: Gpu, next: nat, k: nat)
    requires Coherent(g, next)
    ensures Retire(g, k).completed >= g.completed
    decreases k
  {
    if k > 0 && g.pending != [] {
      var g1 := RetireOne(g);
      RetireOneCoherent(g, next);
      RetireMonotone(g1, next, k - 1);
      assert Retire(g, k) == Retire(g1, k - 1);
    }
  }

  /** Signalling `next` and then advancing to `next + 1` keeps the discipline. */
  lemma SignalCoherent(g: Gpu, next: nat)
    requires Coherent(g, next)
    ensures Coherent(QueueSignal(g, next), next + 1)
  {
    var s := QueueSignal(g, next);
    assert forall i :: 0 <= i < |g.pending| ==> s.pending[i] == g.pending[i];
  }

  /** Submitting a command list keeps the discipline. */
  lemma ExecuteCoherent(g: Gpu, next: nat, list: ListKind)
    requires Coherent(g, next)
    ensures Coherent(ExecuteList(g, list), next)
  {
    var s := ExecuteList(g, list);
    assert forall i :: 0 <= i < |g.pending| ==> s.pending[i] == g.pending[i];
  }

  /** The signal of `fence` is the newest outstanding item. */
  predicate AwaitsLast(g: Gpu, fence: nat) {
    g.pending != [] && g.pending[|g.pending| - 1] == SignalFence(fence)
  }

  /** Either the signal of `fence` is still outstanding and the completed value
      is below it, or everything has retired and the completed value is `fence`. */
  predicate Toward(g: Gpu, fence: nat) {
    || (AwaitsLast(g, fence) && g.completed < fence)
    || (g.pending == [] && g.completed == fence)
  }

  lemma RetireOneToward(g: Gpu, fence: nat)
    requires Coherent(g, fence + 1) && AwaitsLast(g, fence)
    ensures Coherent(RetireOne(g), fence + 1) && Toward(RetireOne(g), fence)
  {
    RetireOneCoherent(g, fence + 1);
    var r := RetireOne(g);
    if r.pending != [] {
      assert r.pending[|r.pending| - 1] == g.pending[|g.pending| - 1];
      assert r.completed < fence;
    }
  }

  /** While the signal of `fence` is the newest item, GPU progress either leaves
      it outstanding with the completed value below `fence`, or retires
      everything with the completed value exactly `fence`: the completed value
      reaches `fence` only once the whole queue has drained. */
  lemma {:induction false} RetireToward(g: Gpu, fence: nat, k: nat)
    requires Coherent(g, fence + 1) && Toward(g, fence)
    ensures Coherent(Retire(g, k), fence + 1) && Toward(Retire(g, k), fence)
    decreases k
  {
    if k > 0 && g.pending != [] {
      RetireOneToward(g, fence);
      RetireToward(RetireOne(g), fence, k - 1);
    }
  }

  /** The blocking wait for the newest signal returns with the queue drained and
      the completed value exactly `fence`. */
  lemma {:induction false} RunUntilDrains(g: Gpu, fence: nat)
    requires Coherent(g, fence + 1) && Toward(g, fence)
    ensures RunUntil(g, fence).pending == [] && RunUntil(g, fence).completed == fence
    ensures Coherent(RunUntil(g, fence), fence + 1)
    decreases |g.pending|
  {
    if g.pending != [] && g.completed < fence {
      RetireOneToward(g, fence);
      RunUntilDrains(RetireOne(g), fence);
    }
  }

  /** What the GPU does while the CPU runs `WaitForPreviousFrame`: the results of
      `Signal` and `SetEventOnCompletion`, and how many items it retires before
      the CPU reads `GetCompletedValue`. */
  datatype WaitEnv = WaitEnv(hrSignal: HResult, hrSetEvent: HResult, progress: nat)

  /** The state `WaitForPreviousFrame` returns: the new `m_fenceValue`, the GPU,
      the new `m_frameIndex`, and whether the CPU had to block. */
  datatype Waited = Waited(fenceValue: nat, gpu: Gpu, frameIndex: nat, blocked: bool)

  /** `WaitForPreviousFrame`: signal the current fence value, increment it, block
      on the fence event only if the completed value is still below the value
      just signalled, then take the frame index from the swap chain's current
      back buffer. Under the fence discipline the GPU is idle on return. */
  function WaitForPreviousFrame(fenceValue: nat, g: Gpu, backBufferIndex: nat, env: WaitEnv): (r: Result<Waited>)
    ensures r.Err? <==>
      || env.hrSignal != S_OK
      || (Retire(QueueSignal(g, fenceValue), env.progress).completed < fenceValue && env.hrSetEvent != S_OK)
    ensures r.Err? ==> r.error == (if env.hrSignal != S_OK then Failed(Signal, env.hrSignal)
                                   else Failed(SetEventOnCompletion, env.hrSetEvent))
    ensures r.Ok? ==> r.value.fenceValue == fenceValue + 1 && r.value.frameIndex == backBufferIndex
    ensures r.Ok? ==> r.value.gpu.signalled == g.signalled + [fenceValue]
    ensures r.Ok? ==> (r.value.blocked <==> Retire(QueueSignal(g, fenceValue), env.progress).completed < fenceValue)
    ensures r.Ok? && Coherent(g, fenceValue) ==>
      && r.value.gpu.completed == fenceValue && r.value.gpu.pending == []
      && Coherent(r.value.gpu, r.value.fenceValue)
  {
    var fence := fenceValue;
    var _ :- Check(Signal, env.hrSignal);
    var afterSignal := QueueSignal(g, fence);
    var nextValue := fenceValue + 1;
    var observed := Retire(afterSignal, env.progress);
    WaitDrains(g, fence, env.progress);
    if observed.completed < fence then
      var _ :- Check(SetEventOnCompletion, env.hrSetEvent);
      Ok(Waited(nextValue, RunUntil(observed, fence), backBufferIndex, true))
    else
      Ok(Waited(nextValue, observed, backBufferIndex, false))
  }

  /** The proof step behind `WaitForPreviousFrame`'s contract. */
  lemma WaitDrains(g: Gpu, fence: nat, progress: nat)
    ensures var observed := Retire(QueueSignal(g, fence), progress);
      Coherent(g, fence) ==>
        && Coherent(observed, fence + 1)
        && (observed.completed >= fence ==> observed.pending == [] && observed.completed == fence)
        && RunUntil(observed, fence).pending == [] && RunUntil(observed, fence).completed == fence
        && Coherent(RunUntil(observed, fence), fence + 1)
  {
    if Coherent(g, fence) {
      var s := QueueSignal(g, fence);
      SignalCoherent(g, fence);
      assert Toward(s, fence);
      RetireToward(s, fence, progress);
      RunUntilDrains(Retire(s, progress), fence);
    }
  }
}
