/**
 Recorded GPU commands as values, and the layout-transition helper
 (`transition_image` and `full_image_range` in engine.cpp).

 The helper as written picks the depth aspect only when the OLD layout is
 depth-attachment-optimal, so a transition of a depth image INTO that layout
 gets the colour aspect. `TransitionImageAsWritten` keeps that rule;
 `TransitionImage` is the corrected rule. `AspectRule` selects which of the
 two a recorded trace follows; the program's traces are the `AsWritten` ones.
 */
module Commands {
  import opened Gpu

  datatype LevelCount = Exactly(n: nat) | Remaining

  datatype SubresourceRange = SubresourceRange(
    aspect: Aspect,
    baseMipLevel: nat,
    levelCount: LevelCount,
    baseArrayLayer: nat,
    layerCount: LevelCount)

  predicate CoversWholeImage(r: SubresourceRange)
  {
    r.baseMipLevel == 0 && r.levelCount == Remaining && r.baseArrayLayer == 0 && r.layerCount == Remaining
  }

  /** `full_image_range`: every mip level and every layer, for one aspect. */
  function FullImageRange(aspect: Aspect): (r: SubresourceRange)
    ensures r.aspect == aspect
    ensures CoversWholeImage(r)
  {
    SubresourceRange(aspect, 0, Remaining, 0, Remaining)
  }

  datatype Stage = AllCommands | ColorAttachmentOutput | AllGraphics

  datatype Access = MemoryRead | MemoryWrite

  datatype Barrier = Barrier(
    srcStage: Stage,
    srcAccess: set<Access>,
    dstStage: Stage,
    dstAccess: set<Access>,
    oldLayout: Layout,
    newLayout: Layout,
    image: Id,
    range: SubresourceRange)

  /** The barrier policy: all commands to all commands, earlier writes made visible to reads and writes. */
  predicate ConservativeScope(b: Barrier)
  {
    && b.srcStage == AllCommands
    && b.dstStage == AllCommands
    && b.srcAccess == {MemoryWrite}
    && b.dstAccess == {MemoryWrite, MemoryRead}
  }

  function MakeBarrier(image: Id, src: Layout, dst: Layout, aspect: Aspect): Barrier
  {
    Barrier(AllCommands, {MemoryWrite}, AllCommands, {MemoryWrite, MemoryRead}, src, dst, image, FullImageRange(aspect))
  }

  /** Which aspect rule a recorded `transition_image` follows: the program's, or the corrected one. */
  datatype AspectRule = AsWritten | Corrected

  /**
   The aspect `transition_image` names: as written, depth only when leaving the
   depth-attachment layout; corrected, also when entering it.
   */
  function RuleAspect(rule: AspectRule, src: Layout, dst: Layout): Aspect
  {
    if src == DepthAttachmentOptimal || (rule == Corrected && dst == DepthAttachmentOptimal) then DepthAspect else ColorAspect
  }

  /** `transition_image` following `rule`. */
  function Transition(rule: AspectRule, image: Id, src: Layout, dst: Layout): Barrier
  {
    MakeBarrier(image, src, dst, RuleAspect(rule, src, dst))
  }

  /** `transition_image` as written: the aspect follows the source layout only. */
  function TransitionImageAsWritten(image: Id, src: Layout, dst: Layout): (b: Barrier)
    ensures b.image == image && b.oldLayout == src && b.newLayout == dst
    ensures b.range.aspect == DepthAspect <==> src == DepthAttachmentOptimal
    ensures CoversWholeImage(b.range)
    ensures ConservativeScope(b)
  {
    Transition(AsWritten, image, src, dst)
  }

  /** `transition_image` with the corrected aspect rule: a transition into or out of the depth-attachment layout is a depth transition. */
  function TransitionImage(image: Id, src: Layout, dst: Layout): (b: Barrier)
    ensures b.image == image && b.oldLayout == src && b.newLayout == dst
    ensures b.range.aspect == DepthAspect <==> (src == DepthAttachmentOptimal || dst == DepthAttachmentOptimal)
    ensures CoversWholeImage(b.range)
    ensures ConservativeScope(b)
  {
    Transition(Corrected, image, src, dst)
  }

  /**
   The discrepancy: the forward pass moves its depth target from UNDEFINED to
   DEPTH_ATTACHMENT_OPTIMAL; as written that barrier names the colour aspect
   of a depth-only image.
   */
  lemma DepthTransitionAsWrittenNamesColor(image: Id)
    ensures TransitionImageAsWritten(image, Undefined, DepthAttachmentOptimal).range.aspect == ColorAspect
    ensures TransitionImage(image, Undefined, DepthAttachmentOptimal).range.aspect == DepthAspect
  {
  }

  /** The correction changes nothing for transitions that do not enter the depth-attachment layout. */
  lemma CorrectionOnlyAffectsDepthTargets(image: Id, src: Layout, dst: Layout)
    ensures dst != DepthAttachmentOptimal ==> TransitionImage(image, src, dst) == TransitionImageAsWritten(image, src, dst)
    ensures dst == DepthAttachmentOptimal && src != DepthAttachmentOptimal ==>
              TransitionImage(image, src, dst) != TransitionImageAsWritten(image, src, dst)
  {
  }

  datatype LoadOp = LoadContents | ClearContents

  datatype StoreOp = StoreContents

  datatype IndexType = IndexUint32

  datatype Rect2D = Rect2D(x: int, y: int, extent: Extent2D)

  datatype Attachment = Attachment(view: Id, layout: Layout, load: LoadOp, store: StoreOp)

  /** A command recorded into a command buffer. Viewport and push-constant matrices are floating point and left abstract. */
  datatype Cmd =
    | PipelineBarrier(barrier: Barrier)
    | ClearColorImage(image: Id, layout: Layout, range: SubresourceRange)
    | BeginRendering(area: Rect2D, layerCount: nat, color: Attachment, depth: Attachment)
    | BindPipeline(pipeline: Id)
    | SetViewport
    | SetScissor(scissor: Rect2D)
    | BindDescriptorSet(pipelineLayout: Id, descriptorSet: Id)
    | PushConstants(pipelineLayout: Id, vertexBufferAddress: Id)
    | BindIndexBuffer(buffer: Id, offset: nat, indexType: IndexType)
    | DrawIndexed(indexCount: U32, instanceCount: nat, firstIndex: nat, vertexOffset: int, firstInstance: nat)
    | EndRendering
}
