/**
 The frame-slot pool and the per-frame step sequence of `Engine` (engine.hpp,
 engine.cpp): two slots used round-robin, each with a command buffer, an
 acquire semaphore (`render_semaphore`), a render-complete semaphore
 (`present_semaphore`), a fence created signaled, and a private deletion queue.

 Native calls are replaced by their result codes, supplied as parameters. A
 fence is `Signaled`, `Unsignaled`, or `Pending(k)`: the submission of frame
 number k signals it when the GPU finishes that frame. Waiting with the
 unbounded timeout on an `Unsignaled` fence never returns (`Blocked`).
 */
module Engine {
  import opened Gpu
  import opened Commands
  import DeletionQueue

  /** `NUM_FRAMES_IN_FLIGHT`. */
  const NumFramesInFlight: nat := 2

  datatype Fence = Signaled | Unsignaled | Pending(frame: nat)

  /** The per-slot native objects, named by kind and slot. */
  datatype SlotObject =
    | CommandPool(slot: nat)
    | CommandBuffer(slot: nat)
    | PresentSemaphore(slot: nat)
    | RenderSemaphore(slot: nat)
    | FrameFence(slot: nat)

  /** `FrameData`: the slot's fence state and its own deletion queue (transient resource ids). */
  datatype FrameData = FrameData(fence: Fence, queue: DeletionQueue.Queue<Id>)

  /** The engine's frame bookkeeping: `m_frame_idx`, `m_frames`, the engine-wide queue, the swapchain images. */
  datatype EngineState = EngineState(
    frameIdx: nat,
    frames: seq<FrameData>,
    frameNumber: nat,
    queue: DeletionQueue.Queue<Id>,
    swapchainImages: seq<Id>)

  predicate Valid(e: EngineState)
  {
    |e.frames| == NumFramesInFlight && e.frameIdx < NumFramesInFlight
  }

  // ---------------------------------------------------------------- init

  /** The library bootstrap steps of `Engine::init`, in order; each may fail. */
  datatype BootStep = CreateInstance | CreateSurface | SelectPhysicalDevice | CreateDevice | CreateSwapchain | GetGraphicsQueue

  const BootOrder: seq<BootStep> := [CreateInstance, CreateSurface, SelectPhysicalDevice, CreateDevice, CreateSwapchain, GetGraphicsQueue]

  /** The per-frame creation calls for one slot, in source order. */
  function SlotCreation(slot: nat): seq<SlotObject>
  {
    [CommandPool(slot), CommandBuffer(slot), PresentSemaphore(slot), RenderSemaphore(slot), FrameFence(slot)]
  }

  /** All per-frame creation calls: slot 0 then slot 1. */
  function FrameCreationOrder(): seq<SlotObject>
  {
    SlotCreation(0) + SlotCreation(1)
  }

  /** The state right after a successful init: slot 0 next, every fence signaled, every queue empty. */
  function Initial(swapchainImages: seq<Id>): EngineState
  {
    EngineState(0, [FrameData(Signaled, DeletionQueue.Empty()), FrameData(Signaled, DeletionQueue.Empty())], 0, DeletionQueue.Empty(), swapchainImages)
  }

  datatype InitResult = InitResult(ok: bool, booted: seq<BootStep>, created: seq<SlotObject>, state: EngineState)

  /**
   `Engine::init`: the bootstrap chain, then the per-frame objects; the first
   failure returns false. Nothing is rolled back: `booted` and `created` list
   what exists at that point.
   */
  method Init(bootOk: BootStep -> bool, create: SlotObject -> VkResult, swapchainImages: seq<Id>) returns (r: InitResult)
    ensures r.ok <==> (forall s :: s in BootOrder ==> bootOk(s)) && (forall o :: o in FrameCreationOrder() ==> create(o) == Success)
    ensures r.ok ==> r.booted == BootOrder && r.created == FrameCreationOrder() && r.state == Initial(swapchainImages)
    ensures r.ok ==> Valid(r.state) && forall s :: 0 <= s < NumFramesInFlight ==> r.state.frames[s].fence == Signaled
    // short-circuit: what exists is exactly what was created before the first failure
    ensures r.booted <= BootOrder && r.created <= FrameCreationOrder()
    ensures forall s :: s in r.booted ==> bootOk(s)
    ensures forall o :: o in r.created ==> create(o) == Success
    ensures |r.created| > 0 ==> r.booted == BootOrder
    ensures !r.ok && r.booted == BootOrder ==> |r.created| < |FrameCreationOrder()| && create(FrameCreationOrder()[|r.created|]) != Success
    ensures !r.ok && r.booted != BootOrder ==> r.created == [] && !bootOk(BootOrder[|r.booted|])
  {
    var i := 0;
    while i < |BootOrder|
      invariant 0 <= i <= |BootOrder|
      invariant forall j :: 0 <= j < i ==> bootOk(BootOrder[j])
    {
      if !bootOk(BootOrder[i]) {
        return InitResult(false, BootOrder[..i], [], Initial(swapchainImages));
      }
      i := i + 1;
    }
    var order := FrameCreationOrder();
    var k := 0;
    while k < |order|
      invariant 0 <= k <= |order|
      invariant forall j :: 0 <= j < k ==> create(order[j]) == Success
    {
      if create(order[k]) != Success {
        return InitResult(false, BootOrder, order[..k], Initial(swapchainImages));
      }
      k := k + 1;
    }
    assert order[..k] == order;
    r := InitResult(true, BootOrder, order, Initial(swapchainImages));
  }

  // ---------------------------------------------------------------- render_frame

  /** A native call made by `render_frame`, with the objects it names. */
  datatype Call =
    | WaitForFence(fence: SlotObject)
    | ResetFence(fence: SlotObject)
    | AcquireNextImage(signal: SlotObject)
    | ResetCommandBuffer(cmd: SlotObject)
    | BeginCommandBuffer(cmd: SlotObject)
    | Record(command: Cmd)
    | EndCommandBuffer(cmd: SlotObject)
    | Submit(cmd: SlotObject, wait: SlotObject, waitStage: Stage, signal: SlotObject, signalStage: Stage, fence: SlotObject)
    | Present(wait: SlotObject, imageIndex: nat)

  /** The result codes the fallible calls of one frame return, and the acquired image index. */
  datatype FrameResults = FrameResults(
    wait: VkResult, resetFence: VkResult, acquire: VkResult, resetCmd: VkResult,
    beginCmd: VkResult, endCmd: VkResult, submit: VkResult, present: VkResult, imageIndex: nat)

  /** `Rendered` is `render_frame` returning true, `Failed` returning false, `Blocked` never returning. */
  datatype Outcome = Rendered | Failed | Blocked

  /** The outcome of a frame, how many calls of the full frame it made, and the engine afterwards. */
  datatype FrameRun = FrameRun(outcome: Outcome, made: nat, state: EngineState)

  const FullFrameLength: nat := 11

  /** Every call a frame on `slot` makes when nothing fails, in order. */
  function FullFrame(slot: nat, image: Id, imageIndex: nat): (r: seq<Call>)
    ensures |r| == FullFrameLength
  {
    [ WaitForFence(FrameFence(slot)),
      ResetFence(FrameFence(slot)),
      AcquireNextImage(RenderSemaphore(slot)),
      ResetCommandBuffer(CommandBuffer(slot)),
      BeginCommandBuffer(CommandBuffer(slot)),
      Record(PipelineBarrier(TransitionImageAsWritten(image, Undefined, General))),
      Record(ClearColorImage(image, General, FullImageRange(ColorAspect))),
      Record(PipelineBarrier(TransitionImageAsWritten(image, General, PresentSrc))),
      EndCommandBuffer(CommandBuffer(slot)),
      Submit(CommandBuffer(slot), RenderSemaphore(slot), ColorAttachmentOutput, PresentSemaphore(slot), AllGraphics, FrameFence(slot)),
      Present(PresentSemaphore(slot), imageIndex) ]
  }

  /** The result code a call returned; recording commands cannot fail. */
  function ResultOf(c: Call, r: FrameResults): VkResult
  {
    match c
    case WaitForFence(_) => r.wait
    case ResetFence(_) => r.resetFence
    case AcquireNextImage(_) => r.acquire
    case ResetCommandBuffer(_) => r.resetCmd
    case BeginCommandBuffer(_) => r.beginCmd
    case Record(_) => Success
    case EndCommandBuffer(_) => r.endCmd
    case Submit(_, _, _, _, _, _) => r.submit
    case Present(_, _) => r.present
  }

  predicate AllSucceed(r: FrameResults)
  {
    && r.wait == Success && r.resetFence == Success && r.acquire == Success && r.resetCmd == Success
    && r.beginCmd == Success && r.endCmd == Success && r.submit == Success && r.present == Success
  }

  /** The swapchain image the acquired index names (only consulted after a successful acquire). */
  function AcquiredImage(e: EngineState, r: FrameResults): Id
  {
    if r.imageIndex < |e.swapchainImages| then e.swapchainImages[r.imageIndex] else 0
  }

  function SetFence(e: EngineState, slot: nat, f: Fence): EngineState
    requires slot < |e.frames|
  {
    e.(frames := e.frames[slot := e.frames[slot].(fence := f)])
  }

  /**
   `Engine::render_frame`. The slot index is read and advanced before any
   fallible call; each call that does not return `VK_SUCCESS` ends the frame.
   */
  function RenderFrame(e: EngineState, r: FrameResults): (f: FrameRun)
    requires Valid(e)
    requires r.acquire == Success ==> r.imageIndex < |e.swapchainImages|
    ensures Valid(f.state)
    // round robin, whatever happens
    ensures f.state.frameIdx == (e.frameIdx + 1) % NumFramesInFlight
    ensures f.state.frameNumber == e.frameNumber + 1
    // only the used slot's fence changes; every queue and the swapchain are untouched
    ensures f.state.frames[1 - e.frameIdx] == e.frames[1 - e.frameIdx]
    ensures f.state.frames[e.frameIdx].queue == e.frames[e.frameIdx].queue
    ensures f.state.queue == e.queue && f.state.swapchainImages == e.swapchainImages
    // the calls made are a non-empty prefix of the eleven calls of the full frame
    ensures 0 < f.made <= FullFrameLength
    ensures f.outcome == Rendered <==> e.frames[e.frameIdx].fence != Unsignaled && AllSucceed(r)
    ensures f.outcome == Rendered ==> f.made == FullFrameLength
    ensures f.outcome == Blocked <==> e.frames[e.frameIdx].fence == Unsignaled
    // fence bookkeeping
    ensures f.outcome == Rendered ==> f.state.frames[e.frameIdx].fence == Pending(e.frameNumber)
    // a failure after the fence reset and before the submit leaves the fence unsignaled;
    // a failed present leaves it pending on the submitted frame
    ensures f.outcome == Failed && 2 < f.made < FullFrameLength ==> f.state.frames[e.frameIdx].fence == Unsignaled
    ensures f.outcome == Failed && f.made == FullFrameLength ==> f.state.frames[e.frameIdx].fence == Pending(e.frameNumber)
  {
    var slot := e.frameIdx;
    var advanced := e.(frameIdx := (e.frameIdx + 1) % NumFramesInFlight, frameNumber := e.frameNumber + 1);
    if e.frames[slot].fence == Unsignaled then
      FrameRun(Blocked, 1, advanced)
    else if r.wait != Success then
      FrameRun(Failed, 1, advanced)
    else if r.resetFence != Success then
      FrameRun(Failed, 2, SetFence(advanced, slot, Signaled))
    else
      var reset := SetFence(advanced, slot, Unsignaled);
      if r.acquire != Success then FrameRun(Failed, 3, reset)
      else if r.resetCmd != Success then FrameRun(Failed, 4, reset)
      else if r.beginCmd != Success then FrameRun(Failed, 5, reset)
      else if r.endCmd != Success then FrameRun(Failed, 9, reset)
      else if r.submit != Success then FrameRun(Failed, 10, reset)
      else
        var submitted := SetFence(advanced, slot, Pending(e.frameNumber));
        if r.present != Success then FrameRun(Failed, 11, submitted)
        else FrameRun(Rendered, 11, submitted)
  }

  /** The calls a frame made: the first `made` calls of the full frame on its slot. */
  function Calls(e: EngineState, r: FrameResults, f: FrameRun): seq<Call>
    requires f.made <= FullFrameLength
  {
    FullFrame(e.frameIdx, AcquiredImage(e, r), r.imageIndex)[..f.made]
  }

  /**
   Short circuit: every call of a frame but the last one it made returned
   `VK_SUCCESS`, and the last call of a failed frame did not.
   */
  lemma FrameShortCircuits(e: EngineState, r: FrameResults)
    requires Valid(e)
    requires r.acquire == Success ==> r.imageIndex < |e.swapchainImages|
    ensures var f := RenderFrame(e, r);
            var calls := Calls(e, r, f);
            && (forall i :: 0 <= i < |calls| - 1 ==> ResultOf(calls[i], r) == Success)
            && (f.outcome == Failed ==> ResultOf(calls[|calls| - 1], r) != Success)
  {
  }

  /** Calls that touch the slot's command buffer. */
  predicate UsesCommandBuffer(c: Call)
  {
    c.ResetCommandBuffer? || c.BeginCommandBuffer? || c.Record? || c.EndCommandBuffer? || c.Submit?
  }

  /**
   Semaphore pairing in a frame: the acquire signals the semaphore the submit
   waits on, and the submit signals the semaphore present waits on and the
   fence that was waited and reset at the start of the frame.
   */
  lemma FrameSemaphorePairing(slot: nat, image: Id, imageIndex: nat)
    ensures var full := FullFrame(slot, image, imageIndex);
      && full[2].AcquireNextImage? && full[9].Submit? && full[10].Present?
      && full[2].signal == full[9].wait
      && full[9].signal == full[10].wait
      && full[9].fence == full[0].fence == full[1].fence
  {
  }

  /**
   Fence gating within a frame: whatever prefix of the frame runs, the slot's
   command buffer is touched only after that slot's fence was waited on and
   reset.
   */
  lemma CommandBufferUsedOnlyAfterFenceReset(e: EngineState, r: FrameResults)
    requires Valid(e)
    requires r.acquire == Success ==> r.imageIndex < |e.swapchainImages|
    ensures var f := RenderFrame(e, r);
            var calls := Calls(e, r, f);
            forall i :: 0 <= i < |calls| && UsesCommandBuffer(calls[i]) ==>
              2 <= i && calls[0] == WaitForFence(FrameFence(e.frameIdx)) && calls[1] == ResetFence(FrameFence(e.frameIdx))
  {
  }

  /** Any non-success code, out-of-date and suboptimal included, ends the frame unrendered. */
  lemma OutOfDateFailsFrame(e: EngineState, r: FrameResults)
    requires Valid(e)
    requires r.acquire == Success ==> r.imageIndex < |e.swapchainImages|
    requires r.acquire == OutOfDate || r.present == OutOfDate || r.acquire == Suboptimal || r.present == Suboptimal
    ensures RenderFrame(e, r).outcome != Rendered
  {
  }

  /** After a failure between the fence reset and the submit, the slot's next use blocks forever. */
  lemma FailedFrameBlocksSlotReuse(e: EngineState, r: FrameResults, r2: FrameResults, r3: FrameResults)
    requires Valid(e)
    requires r.acquire == Success ==> r.imageIndex < |e.swapchainImages|
    requires e.frames[e.frameIdx].fence != Unsignaled && r.wait == Success && r.resetFence == Success
    requires !(r.acquire == Success && r.resetCmd == Success && r.beginCmd == Success && r.endCmd == Success && r.submit == Success)
    requires r2.acquire == Success ==> r2.imageIndex < |e.swapchainImages|
    requires r3.acquire == Success ==> r3.imageIndex < |e.swapchainImages|
    ensures var f1 := RenderFrame(e, r);
            var f2 := RenderFrame(f1.state, r2);
            f1.outcome == Failed && RenderFrame(f2.state, r3).outcome == Blocked
  {
    var slot := e.frameIdx;
    var f1 := RenderFrame(e, r);
    assert f1.made > 2 && f1.state.frames[slot].fence == Unsignaled;
    var f2 := RenderFrame(f1.state, r2);
    assert f1.state.frameIdx == 1 - slot && f2.state.frameIdx == slot;
    assert f2.state.frames[slot] == f1.state.frames[slot];
  }

  // ---------------------------------------------------------------- run

  datatype Tick = Tick(quit: bool, frame: FrameResults)

  /** What a run loop did: per frame, the slot used, the fence state its wait saw, and the outcome. */
  datatype RunTrace = RunTrace(slots: seq<nat>, waited: seq<Fence>, outcomes: seq<Outcome>, state: EngineState)

  predicate AcquiresInRange(e: EngineState, ticks: seq<Tick>)
  {
    forall i :: 0 <= i < |ticks| ==> (ticks[i].frame.acquire == Success ==> ticks[i].frame.imageIndex < |e.swapchainImages|)
  }

  /** `slots` starts at `start` and each entry is the one after its predecessor, mod the pool size. */
  predicate Alternates(slots: seq<nat>, start: nat)
  {
    && (|slots| > 0 ==> slots[0] == start)
    && forall j :: 0 <= j < |slots| - 1 ==> slots[j + 1] == (slots[j] + 1) % NumFramesInFlight
  }

  /** `Engine::run` over a finite prefix of loop iterations: stop on quit or on a frame that does not render. */
  function Run(e: EngineState, ticks: seq<Tick>): (t: RunTrace)
    requires Valid(e) && AcquiresInRange(e, ticks)
    ensures |t.slots| == |t.waited| == |t.outcomes| <= |ticks|
    ensures forall k :: 0 <= k < |t.outcomes| - 1 ==> t.outcomes[k] == Rendered
    // a quit ends the loop before its frame; otherwise the loop goes on until a frame does not render
    ensures forall k :: 0 <= k < |t.outcomes| ==> !ticks[k].quit
    ensures |t.outcomes| < |ticks| ==>
              ticks[|t.outcomes|].quit || (|t.outcomes| > 0 && t.outcomes[|t.outcomes| - 1] != Rendered)
    // round robin from the current slot, whether frames succeed or not
    ensures Alternates(t.slots, e.frameIdx)
    decreases |ticks|
  {
    if |ticks| == 0 || ticks[0].quit then RunTrace([], [], [], e)
    else
      var f := RenderFrame(e, ticks[0].frame);
      var seen := e.frames[e.frameIdx].fence;
      if f.outcome != Rendered then RunTrace([e.frameIdx], [seen], [f.outcome], f.state)
      else
        assert AcquiresInRange(f.state, ticks[1..]) by {
          forall i | 0 <= i < |ticks[1..]| ensures ticks[1..][i] == ticks[i + 1] { }
        }
        var rest := Run(f.state, ticks[1..]);
        RunTrace([e.frameIdx] + rest.slots, [seen] + rest.waited, [Rendered] + rest.outcomes, rest.state)
  }

  /**
   A run is made of `render_frame` calls: its first frame waits on the current
   slot's fence and has the outcome `render_frame` gives on the current state;
   a run that stops at its first frame ends in that frame's state, and a run
   with no frame leaves the state as it was. With `RunStep` and
   `RunStepOutcomes` this pins every
   frame of the run to `render_frame`.
   */
  lemma RunFollowsRenderFrame(e: EngineState, ticks: seq<Tick>)
    requires Valid(e) && AcquiresInRange(e, ticks)
    ensures var t := Run(e, ticks);
            && (|t.outcomes| == 0 ==> t.state == e)
            && (|t.outcomes| > 0 ==>
                  t.waited[0] == e.frames[e.frameIdx].fence && t.outcomes[0] == RenderFrame(e, ticks[0].frame).outcome)
            && (|t.outcomes| > 0 && t.outcomes[0] != Rendered ==> t.state == RenderFrame(e, ticks[0].frame).state)
  {
    if |ticks| > 0 && !ticks[0].quit && RenderFrame(e, ticks[0].frame).outcome == Rendered {
      RunStep(e, ticks);
    }
  }

  /** One rendered frame at the head of a run: the slots and waits are that frame's followed by the run from its state. */
  lemma RunStep(e: EngineState, ticks: seq<Tick>)
    requires Valid(e) && AcquiresInRange(e, ticks)
    requires |ticks| > 0 && !ticks[0].quit && RenderFrame(e, ticks[0].frame).outcome == Rendered
    ensures var f := RenderFrame(e, ticks[0].frame);
            && AcquiresInRange(f.state, ticks[1..])
            && Run(e, ticks).slots == [e.frameIdx] + Run(f.state, ticks[1..]).slots
            && Run(e, ticks).waited == [e.frames[e.frameIdx].fence] + Run(f.state, ticks[1..]).waited
  {
    var f := RenderFrame(e, ticks[0].frame);
    assert AcquiresInRange(f.state, ticks[1..]) by {
      forall i | 0 <= i < |ticks[1..]| ensures ticks[1..][i] == ticks[i + 1] { }
    }
  }

  /** After a rendered first frame, the outcomes and the final state are those of the run from that frame's state. */
  lemma RunStepOutcomes(e: EngineState, ticks: seq<Tick>)
    requires Valid(e) && AcquiresInRange(e, ticks)
    requires |ticks| > 0 && !ticks[0].quit && RenderFrame(e, ticks[0].frame).outcome == Rendered
    ensures var f := RenderFrame(e, ticks[0].frame);
            && AcquiresInRange(f.state, ticks[1..])
            && Run(e, ticks).outcomes == [Rendered] + Run(f.state, ticks[1..]).outcomes
            && Run(e, ticks).state == Run(f.state, ticks[1..]).state
  {
    RunStep(e, ticks);
  }

  /** A sequence that starts at `start` and steps round robin holds `(start + k) % NumFramesInFlight` at `k`. */
  lemma {:induction false} RoundRobin(slots: seq<nat>, start: nat, k: nat)
    requires k < |slots| && Alternates(slots, start)
    requires start < NumFramesInFlight
    ensures slots[k] == (start + k) % NumFramesInFlight
  {
    if k > 0 {
      RoundRobin(slots, start, k - 1);
    }
  }

  /** Slots alternate 0, 1, 0, 1 from the current index. */
  lemma SlotsAlternate(e: EngineState, ticks: seq<Tick>, k: nat)
    requires Valid(e) && AcquiresInRange(e, ticks)
    requires k < |Run(e, ticks).slots|
    ensures Run(e, ticks).slots[k] == (e.frameIdx + k) % NumFramesInFlight
  {
    var t := Run(e, ticks);
    RoundRobin(t.slots, e.frameIdx, k);
  }

  /** The fence frame number k waits on: signaled at creation for the first two frames, else frame k-2's submission. */
  function ExpectedFence(k: nat): Fence
  {
    if k < NumFramesInFlight then Signaled else Pending(k - NumFramesInFlight)
  }

  /** The pool invariant when every frame so far rendered: slot k%2 is next and holds frame k-2's fence. */
  predicate Gated(e: EngineState)
  {
    && Valid(e)
    && e.frameIdx == e.frameNumber % NumFramesInFlight
    && e.frames[e.frameNumber % NumFramesInFlight].fence == ExpectedFence(e.frameNumber)
    && e.frames[(e.frameNumber + 1) % NumFramesInFlight].fence == ExpectedFence(e.frameNumber + 1)
  }

  lemma InitialIsGated(swapchainImages: seq<Id>)
    ensures Gated(Initial(swapchainImages))
  {
  }

  lemma RenderedFrameKeepsGating(e: EngineState, r: FrameResults)
    requires Gated(e)
    requires r.acquire == Success ==> r.imageIndex < |e.swapchainImages|
    requires RenderFrame(e, r).outcome == Rendered
    ensures Gated(RenderFrame(e, r).state)
  {
    var n := e.frameNumber;
    assert (n + 2) % NumFramesInFlight == n % NumFramesInFlight;
    assert (n + 1 + 1) % NumFramesInFlight == n % NumFramesInFlight;
  }

  /**
   Fence gating across frames: frame k of a run that starts gated waits on the
   fence signaled by frame k-2's submission (or the initially signaled fence),
   so the CPU never gets more than two frames ahead of the GPU.
   */
  lemma {:induction false} FramesWaitTwoBack(e: EngineState, ticks: seq<Tick>)
    requires Gated(e) && AcquiresInRange(e, ticks)
    ensures var t := Run(e, ticks);
            forall k :: 0 <= k < |t.waited| ==> t.waited[k] == ExpectedFence(e.frameNumber + k)
    decreases |ticks|
  {
    if |ticks| > 0 && !ticks[0].quit {
      var f := RenderFrame(e, ticks[0].frame);
      if f.outcome == Rendered {
        RunStep(e, ticks);
        RenderedFrameKeepsGating(e, ticks[0].frame);
        FramesWaitTwoBack(f.state, ticks[1..]);
        var waited := Run(e, ticks).waited;
        var rest := Run(f.state, ticks[1..]).waited;
        assert waited == [e.frames[e.frameIdx].fence] + rest;
        assert f.state.frameNumber == e.frameNumber + 1;
        forall k | 0 < k < |waited|
          ensures waited[k] == ExpectedFence(e.frameNumber + k)
        {
          assert waited[k] == rest[k - 1] == ExpectedFence(f.state.frameNumber + (k - 1));
        }
      }
    }
  }

}
