/**
 The forward geometry pass (forward_pass.cpp). `init` creates seven objects in
 a fixed order and registers one teardown closure in the pass's deletion
 queue right after each creation succeeds; the first failure returns false
 with the closures of everything created so far still queued, and the
 destructor flushes the queue. `render` records a fixed prologue, one
 bind/push/bind/draw group per scene object, and the end of rendering.

 `create_image` belongs to an engine variant that is not part of this model:
 on success it yields a live image and view, on failure nothing. Its
 `destroy_image` is not defined either and is taken to be `GPUImage::release`
 (view, then image). The other
 creations are native calls that either yield one live handle or fail.
 */
module ForwardPass {
  import opened Gpu
  import opened Commands
  import opened DeletionQueue
  import opened SceneTypes
  import GpuImage

  // ---------------------------------------------------------------- init

  /** The objects `init` creates, in creation order. */
  datatype Step = RenderTarget | DepthTarget | SetLayout | PipelineLayout | VertexShader | FragmentShader | Pipeline

  function InitOrder(): seq<Step>
  {
    [RenderTarget, DepthTarget, SetLayout, PipelineLayout, VertexShader, FragmentShader, Pipeline]
  }

  /** Handles one creation yields: an image and its view for the two targets, one handle otherwise. */
  function Arity(s: Step): nat
  {
    if s == RenderTarget || s == DepthTarget then 2 else 1
  }

  /** A queued teardown closure: destroy what `step` created, whose handles are `handles`. */
  datatype Closure = Closure(step: Step, handles: seq<Id>)

  /** The handles one closure destroys. */
  function Handles(c: Closure): set<Id>
  {
    set h | h in c.handles
  }

  /** Every handle the closures of `cs` destroy. */
  function Owned(cs: seq<Closure>): set<Id>
  {
    if |cs| == 0 then {} else Owned(cs[..|cs| - 1]) + Handles(cs[|cs| - 1])
  }

  lemma OwnedSnoc(cs: seq<Closure>, c: Closure)
    ensures Owned(cs + [c]) == Owned(cs) + Handles(c)
  {
    assert (cs + [c])[..|cs|] == cs;
  }

  lemma {:induction false} OwnedCons(c: Closure, cs: seq<Closure>)
    ensures Owned([c] + cs) == Handles(c) + Owned(cs)
    decreases |cs|
  {
    if |cs| == 0 {
      assert [c] + cs == [c] && [c][..0] == [];
    } else {
      assert ([c] + cs)[..|cs|] == [c] + cs[..|cs| - 1];
      OwnedCons(c, cs[..|cs| - 1]);
    }
  }

  lemma {:induction false} OwnedHas(cs: seq<Closure>, k: nat)
    requires k < |cs|
    ensures Handles(cs[k]) <= Owned(cs)
    decreases |cs|
  {
    if k < |cs| - 1 {
      OwnedHas(cs[..|cs| - 1], k);
    }
  }

  /** The order of the closures does not matter to what they destroy. */
  lemma {:induction false} OwnedReverse(cs: seq<Closure>)
    ensures Owned(Reverse(cs)) == Owned(cs)
    decreases |cs|
  {
    if |cs| > 0 {
      OwnedReverse(cs[..|cs| - 1]);
      OwnedCons(cs[|cs| - 1], Reverse(cs[..|cs| - 1]));
    }
  }

  /** What `create_image` is asked for. */
  datatype TargetRequest = TargetRequest(
    memoryUsage: GpuImage.MemoryUsage,
    format: Format,
    extent: Extent3D,
    usage: set<GpuImage.ImageUsage>,
    aspect: Aspect)

  /** Both targets have the swapchain's width and height and depth 1. */
  function ColorTargetRequest(swapchain: Extent2D): (r: TargetRequest)
    ensures r.extent == Extent3D(swapchain.width, swapchain.height, 1)
    ensures r.format == R16G16B16A16Sfloat && r.aspect == ColorAspect && GpuImage.ColorAttachment in r.usage
  {
    TargetRequest(
      GpuImage.GpuOnly, R16G16B16A16Sfloat, Extent3D(swapchain.width, swapchain.height, 1),
      {GpuImage.TransferSrc, GpuImage.TransferDst, GpuImage.Storage, GpuImage.ColorAttachment}, ColorAspect)
  }

  function DepthTargetRequest(swapchain: Extent2D): (r: TargetRequest)
    ensures r.extent == Extent3D(swapchain.width, swapchain.height, 1)
    ensures r.format == D32Sfloat && r.aspect == DepthAspect && r.usage == {GpuImage.DepthStencilAttachment}
  {
    TargetRequest(GpuImage.GpuOnly, D32Sfloat, Extent3D(swapchain.width, swapchain.height, 1), {GpuImage.DepthStencilAttachment}, DepthAspect)
  }

  /** Fresh handles for one successful creation. */
  function Create(a: Allocator, s: Step): (r: (Allocator, seq<Id>))
    requires a.Valid()
    ensures r.0.Valid() && |r.1| == Arity(s)
    ensures forall h :: h in r.1 ==> h !in a.live
    ensures r.0.live == a.live + Handles(Closure(s, r.1))
  {
    var first := Alloc(a);
    if Arity(s) == 2 then
      var second := Alloc(first.allocator);
      (second.allocator, [first.id, second.id])
    else
      (first.allocator, [first.id])
  }

  /** One successful step keeps the live set equal to what was live before plus what the queue destroys. */
  lemma OwnedGrow(live: set<Id>, live1: set<Id>, added: set<Id>, owned: set<Id>, owned1: set<Id>)
    requires live1 == live + owned && owned !! live
    requires owned1 == owned + added && added !! live1
    ensures live1 + added == live + owned1 && owned1 !! live
  {
  }

  /**
   What `init` leaves behind, for the creation outcomes `created`: the
   closures of the objects created before the first failure, in creation
   order and nothing else; `ok` exactly when every creation succeeded; and a
   live set grown by exactly the handles those closures destroy.
   */
  predicate Registered(a: Allocator, created: Step -> bool, ok: bool, q: Queue<Closure>, alloc: Allocator)
  {
    && alloc.Valid()
    && |q.entries| <= |InitOrder()|
    && (forall i :: 0 <= i < |q.entries| ==>
          q.entries[i].step == InitOrder()[i] && created(InitOrder()[i]) && |q.entries[i].handles| == Arity(InitOrder()[i]))
    && (ok <==> |q.entries| == |InitOrder()|)
    && (!ok ==> !created(InitOrder()[|q.entries|]))
    && alloc.live == a.live + Owned(q.entries) && Owned(q.entries) !! a.live
  }

  /** The handles of a fully initialised pass and the extent of its targets. */
  datatype Pass = Pass(
    colorImage: Id,
    colorView: Id,
    depthImage: Id,
    depthView: Id,
    extent: Extent2D,
    setLayout: Id,
    pipelineLayout: Id,
    pipeline: Id)

  /** The closures a successful `init` queued, one per step with that step's number of handles. */
  predicate Complete(cs: seq<Closure>)
  {
    |cs| == |InitOrder()| && forall i :: 0 <= i < |cs| ==> cs[i].step == InitOrder()[i] && |cs[i].handles| == Arity(InitOrder()[i])
  }

  function PassOf(cs: seq<Closure>, extent: Extent2D): Pass
    requires Complete(cs)
  {
    Pass(cs[0].handles[0], cs[0].handles[1], cs[1].handles[0], cs[1].handles[1], extent, cs[2].handles[0], cs[3].handles[0], cs[6].handles[0])
  }

  /**
   `ForwardPass::init` on a fresh pass, whose deletion queue is empty. Each
   creation is tried in order; a failure returns at once, a success queues
   the closure that destroys what was created.
   */
  method Init(a: Allocator, swapchain: Extent2D, created: Step -> bool)
    returns (ok: bool, queue: Queue<Closure>, alloc: Allocator, requests: seq<TargetRequest>)
    requires a.Valid()
    ensures Registered(a, created, ok, queue, alloc)
    ensures ok <==> forall s :: s in InitOrder() ==> created(s)
    ensures !created(RenderTarget) ==> queue.entries == []
    // the depth target is requested only after the colour target exists
    ensures requests == if created(RenderTarget) then [ColorTargetRequest(swapchain), DepthTargetRequest(swapchain)] else [ColorTargetRequest(swapchain)]
  {
    requests := [ColorTargetRequest(swapchain)];
    if created(RenderTarget) {
      requests := requests + [DepthTargetRequest(swapchain)];
    }
    ok, queue, alloc := CreateAll(a, created);
  }

  /** The creations of `init` in order, stopping at the first failure. */
  method CreateAll(a: Allocator, created: Step -> bool) returns (ok: bool, queue: Queue<Closure>, alloc: Allocator)
    requires a.Valid()
    ensures Registered(a, created, ok, queue, alloc)
    ensures ok <==> forall s :: s in InitOrder() ==> created(s)
    ensures !created(RenderTarget) ==> queue.entries == []
  {
    queue := Empty();
    alloc := a;
    var i := 0;
    while i < |InitOrder()|
      invariant 0 <= i <= |InitOrder()| && |queue.entries| == i
      invariant i > 0 ==> created(RenderTarget)
      invariant alloc.Valid()
      invariant forall j :: 0 <= j < i ==>
                  queue.entries[j].step == InitOrder()[j] && created(InitOrder()[j]) && |queue.entries[j].handles| == Arity(InitOrder()[j])
      invariant alloc.live == a.live + Owned(queue.entries) && Owned(queue.entries) !! a.live
    {
      var step := InitOrder()[i];
      if !created(step) {
        return false, queue, alloc;
      }
      queue, alloc := Register(a, alloc, queue, step);
      i := i + 1;
    }
    ok := true;
  }

  /** One successful creation of `init`: the new handles, and their closure queued. */
  method Register(a: Allocator, alloc: Allocator, queue: Queue<Closure>, step: Step) returns (queue1: Queue<Closure>, alloc1: Allocator)
    requires alloc.Valid() && alloc.live == a.live + Owned(queue.entries) && Owned(queue.entries) !! a.live
    ensures alloc1.Valid() && alloc1.live == a.live + Owned(queue1.entries) && Owned(queue1.entries) !! a.live
    ensures |queue1.entries| == |queue.entries| + 1 && queue1.entries[..|queue.entries|] == queue.entries
    ensures queue1.entries[|queue.entries|].step == step && |queue1.entries[|queue.entries|].handles| == Arity(step)
  {
    var c := Create(alloc, step);
    var closure := Closure(step, c.1);
    OwnedSnoc(queue.entries, closure);
    OwnedGrow(a.live, alloc.live, Handles(closure), Owned(queue.entries), Owned(queue.entries + [closure]));
    queue1 := Add(queue, closure);
    assert queue1.entries[..|queue.entries|] == queue.entries;
    alloc1 := c.0;
  }

  /** Runs closures in order; each destroys its handles. */
  function RunClosures(a: Allocator, ran: seq<Closure>): (r: Allocator)
    ensures r.live == a.live - Owned(ran)
    ensures a.Valid() ==> r.Valid()
    decreases |ran|
  {
    if |ran| == 0 then a
    else
      assert Owned(ran) == Handles(ran[0]) + Owned(ran[1..]) by {
        assert ran == [ran[0]] + ran[1..];
        OwnedCons(ran[0], ran[1..]);
      }
      RunClosures(FreeAll(a, ran[0].handles), ran[1..])
  }

  function FreeAll(a: Allocator, hs: seq<Id>): (r: Allocator)
    ensures r.live == a.live - (set h | h in hs)
    ensures a.Valid() ==> r.Valid()
    decreases |hs|
  {
    if |hs| == 0 then a else FreeAll(Free(a, hs[0]), hs[1..])
  }

  datatype TornDown = TornDown(ran: seq<Closure>, queue: Queue<Closure>, allocator: Allocator)

  /** `~ForwardPass`: the deletion queue is flushed. */
  function Destroy(q: Queue<Closure>, a: Allocator): (r: TornDown)
    ensures |r.ran| == |q.entries| && forall i :: 0 <= i < |r.ran| ==> r.ran[i] == q.entries[|q.entries| - 1 - i]
    ensures r.queue.entries == []
    ensures r.allocator.live == a.live - Owned(q.entries)
    ensures a.Valid() ==> r.allocator.Valid()
  {
    var f := Flush(q);
    OwnedReverse(q.entries);
    TornDown(f.ran, f.queue, RunClosures(a, f.ran))
  }

  /**
   Zero net allocations: whatever `init` did, success or a failure at any
   step, destroying the pass afterwards leaves exactly the handles that were
   live before.
   */
  lemma InitThenDestroy(a: Allocator, created: Step -> bool, ok: bool, q: Queue<Closure>, alloc: Allocator)
    requires Registered(a, created, ok, q, alloc)
    ensures Destroy(q, alloc).allocator.live == a.live
  {
    assert (a.live + Owned(q.entries)) - Owned(q.entries) == a.live;
  }

  /**
   Teardown after a successful `init` runs the closures in reverse
   registration order: the pipeline first and the render target last.
   */
  lemma DestroyAfterInitOrder(a: Allocator, created: Step -> bool, q: Queue<Closure>, alloc: Allocator)
    requires Registered(a, created, true, q, alloc)
    ensures var ran := Destroy(q, alloc).ran;
            && |ran| == 7
            && (forall i :: 0 <= i < 7 ==> ran[i].step == InitOrder()[6 - i])
            && ran[0].step == Pipeline && ran[6].step == RenderTarget
  {
  }

  /**
   Teardown after a failed `init` destroys exactly the objects created before
   the failure, newest first, each once.
   */
  lemma DestroyAfterFailedInit(a: Allocator, created: Step -> bool, q: Queue<Closure>, alloc: Allocator)
    requires Registered(a, created, false, q, alloc)
    ensures var ran := Destroy(q, alloc).ran;
            && |ran| < 7 && !created(InitOrder()[|ran|])
            && (forall i :: 0 <= i < |ran| ==> ran[i].step == InitOrder()[|ran| - 1 - i] && created(ran[i].step))
  {
  }

  // ---------------------------------------------------------------- render

  /** The draw of `scene.objects` is well defined: every mesh index and every mesh's material index is in range. */
  predicate Renderable(s: Scene)
  {
    && (forall o :: o in s.objects ==> o.meshIdx < |s.meshes|)
    && (forall m :: m in s.meshes ==> m.materialIdx < |s.materials|)
  }

  /**
   The commands before the first draw: two transitions, the clear, begin
   rendering, pipeline, viewport, scissor. The transitions follow `rule`; the
   program records them with the `AsWritten` rule.
   */
  function Prologue(p: Pass, rule: AspectRule): seq<Cmd>
  {
    [ PipelineBarrier(Transition(rule, p.colorImage, Undefined, General)),
      PipelineBarrier(Transition(rule, p.depthImage, Undefined, DepthAttachmentOptimal)),
      ClearColorImage(p.colorImage, General, FullImageRange(ColorAspect)),
      BeginRendering(
        Rect2D(0, 0, p.extent), 1,
        Attachment(p.colorView, ColorAttachmentOptimal, LoadContents, StoreContents),
        Attachment(p.depthView, DepthAttachmentOptimal, ClearContents, StoreContents)),
      BindPipeline(p.pipeline),
      SetViewport,
      SetScissor(Rect2D(0, 0, p.extent)) ]
  }

  /** The four commands for one object. */
  function DrawGroup(p: Pass, s: Scene, o: Object): seq<Cmd>
    requires o.meshIdx < |s.meshes| && s.meshes[o.meshIdx].materialIdx < |s.materials|
  {
    var mesh := s.meshes[o.meshIdx];
    [ BindDescriptorSet(p.pipelineLayout, s.materials[mesh.materialIdx].diffuseSet),
      PushConstants(p.pipelineLayout, mesh.vertexBufferAddress),
      BindIndexBuffer(mesh.indexBuffer, 0, IndexUint32),
      DrawIndexed(mesh.indexCount, 1, 0, 0, 0) ]
  }

  /** The loop over `scene.objects`. */
  function Draws(p: Pass, s: Scene, objects: seq<Object>): (r: seq<Cmd>)
    requires Renderable(s) && forall o :: o in objects ==> o in s.objects
    ensures |r| == 4 * |objects|
  {
    if |objects| == 0 then []
    else
      var last := objects[|objects| - 1];
      assert last in s.objects && s.meshes[last.meshIdx] in s.meshes;
      Draws(p, s, objects[..|objects| - 1]) + DrawGroup(p, s, last)
  }

  /**
   `ForwardPass::render`: the commands recorded into the frame's command
   buffer, with `transition_image` following `rule`. `Render(p, s, AsWritten)`
   is the trace the program records.
   */
  function Render(p: Pass, s: Scene, rule: AspectRule): (r: seq<Cmd>)
    requires Renderable(s)
    ensures |r| == 8 + 4 * |s.objects|
  {
    Prologue(p, rule) + Draws(p, s, s.objects) + [EndRendering]
  }

  /** Command `4 * i + m` of the draw loop is command `m` of object `i`'s group. */
  lemma {:induction false} DrawsLayout(p: Pass, s: Scene, objects: seq<Object>)
    requires Renderable(s) && forall o :: o in objects ==> o in s.objects
    ensures forall i, m :: 0 <= i < |objects| && 0 <= m < 4 ==>
              objects[i] in s.objects && Draws(p, s, objects)[4 * i + m] == DrawGroup(p, s, objects[i])[m]
  {
    if |objects| > 0 {
      var init := objects[..|objects| - 1];
      DrawsLayout(p, s, init);
      forall i, m | 0 <= i < |objects| && 0 <= m < 4
        ensures objects[i] in s.objects && Draws(p, s, objects)[4 * i + m] == DrawGroup(p, s, objects[i])[m]
      {
        if i < |init| {
          assert objects[i] == init[i];
        }
      }
    }
  }

  /** Command `7 + k` of the trace is command `k` of the draw loop. */
  lemma RenderAt(p: Pass, s: Scene, rule: AspectRule, k: nat)
    requires Renderable(s) && k < 4 * |s.objects|
    ensures Render(p, s, rule)[7 + k] == Draws(p, s, s.objects)[k]
  {
    var pro, d := Prologue(p, rule), Draws(p, s, s.objects);
    assert |pro| == 7;
    assert Render(p, s, rule) == pro + (d + [EndRendering]);
  }

  /** The trace opens with the seven prologue commands and closes with the end of rendering. */
  lemma RenderHead(p: Pass, s: Scene, rule: AspectRule)
    requires Renderable(s)
    ensures var r := Render(p, s, rule);
            && (forall j :: 0 <= j < 7 ==> r[j] == Prologue(p, rule)[j])
            && r[|r| - 1] == EndRendering
  {
    var pro, d := Prologue(p, rule), Draws(p, s, s.objects);
    assert |pro| == 7;
    assert Render(p, s, rule) == pro + (d + [EndRendering]);
  }

  /**
   Object `i` is drawn by the commands at `7 + 4 * i` onwards: its mesh's
   material's descriptor set, its mesh's vertex buffer address, its mesh's
   index buffer, and one instance of its mesh's index count.
   */
  lemma RenderObjectGroup(p: Pass, s: Scene, i: nat, rule: AspectRule)
    requires Renderable(s) && i < |s.objects|
    ensures var r := Render(p, s, rule);
            var mesh := s.meshes[s.objects[i].meshIdx];
            && mesh.materialIdx < |s.materials|
            && r[7 + 4 * i] == BindDescriptorSet(p.pipelineLayout, s.materials[mesh.materialIdx].diffuseSet)
            && r[7 + 4 * i + 1] == PushConstants(p.pipelineLayout, mesh.vertexBufferAddress)
            && r[7 + 4 * i + 2] == BindIndexBuffer(mesh.indexBuffer, 0, IndexUint32)
            && r[7 + 4 * i + 3] == DrawIndexed(mesh.indexCount, 1, 0, 0, 0)
  {
    DrawsLayout(p, s, s.objects);
    var d := Draws(p, s, s.objects);
    var g := DrawGroup(p, s, s.objects[i]);
    assert d[4 * i] == g[0] && d[4 * i + 1] == g[1] && d[4 * i + 2] == g[2] && d[4 * i + 3] == g[3];
    RenderAt(p, s, rule, 4 * i);
    RenderAt(p, s, rule, 4 * i + 1);
    RenderAt(p, s, rule, 4 * i + 2);
    RenderAt(p, s, rule, 4 * i + 3);
  }

  /** The index counts of the indexed draws in `cmds`, in recording order. */
  function DrawCounts(cmds: seq<Cmd>): seq<U32>
  {
    if |cmds| == 0 then []
    else DrawCounts(cmds[..|cmds| - 1]) + (if cmds[|cmds| - 1].DrawIndexed? then [cmds[|cmds| - 1].indexCount] else [])
  }

  lemma {:induction false} DrawCountsAppend(a: seq<Cmd>, b: seq<Cmd>)
    ensures DrawCounts(a + b) == DrawCounts(a) + DrawCounts(b)
    decreases |b|
  {
    if |b| == 0 {
      assert a + b == a;
    } else {
      assert (a + b)[..|a + b| - 1] == a + b[..|b| - 1];
      assert (a + b)[|a + b| - 1] == b[|b| - 1];
      DrawCountsAppend(a, b[..|b| - 1]);
    }
  }

  /** Commands without an indexed draw contribute no index counts. */
  lemma {:induction false} NoDrawCounts(cmds: seq<Cmd>)
    requires forall j :: 0 <= j < |cmds| ==> !cmds[j].DrawIndexed?
    ensures DrawCounts(cmds) == []
  {
    if |cmds| > 0 {
      NoDrawCounts(cmds[..|cmds| - 1]);
    }
  }

  lemma {:induction false} DrawsCounts(p: Pass, s: Scene, objects: seq<Object>)
    requires Renderable(s) && forall o :: o in objects ==> o in s.objects
    ensures |DrawCounts(Draws(p, s, objects))| == |objects|
    ensures forall i :: 0 <= i < |objects| ==> objects[i].meshIdx < |s.meshes| && DrawCounts(Draws(p, s, objects))[i] == s.meshes[objects[i].meshIdx].indexCount
  {
    if |objects| > 0 {
      var init := objects[..|objects| - 1];
      var last := objects[|objects| - 1];
      assert last in s.objects && s.meshes[last.meshIdx] in s.meshes;
      DrawsCounts(p, s, init);
      var g := DrawGroup(p, s, last);
      assert Draws(p, s, objects) == Draws(p, s, init) + g;
      DrawCountsAppend(Draws(p, s, init), g);
      assert DrawCounts(g) == [s.meshes[last.meshIdx].indexCount] by {
        NoDrawCounts(g[..3]);
      }
      var counts, before := DrawCounts(Draws(p, s, objects)), DrawCounts(Draws(p, s, init));
      assert counts == before + [s.meshes[last.meshIdx].indexCount];
      forall i | 0 <= i < |objects|
        ensures objects[i].meshIdx < |s.meshes| && counts[i] == s.meshes[objects[i].meshIdx].indexCount
      {
        assert objects[i] in s.objects;
        if i < |init| {
          assert objects[i] == init[i] && counts[i] == before[i];
        }
      }
    }
  }

  /** The prologue issues no indexed draw, under either aspect rule. */
  lemma PrologueDrawsNothing(p: Pass, rule: AspectRule)
    ensures DrawCounts(Prologue(p, rule)) == []
  {
    NoDrawCounts(Prologue(p, rule));
  }

  /** The indexed draws of the whole trace are those of the draw loop. */
  lemma RenderDrawCounts(p: Pass, s: Scene, rule: AspectRule)
    requires Renderable(s)
    ensures DrawCounts(Render(p, s, rule)) == DrawCounts(Draws(p, s, s.objects))
  {
    var pro := Prologue(p, rule);
    var d := Draws(p, s, s.objects);
    assert Render(p, s, rule) == pro + d + [EndRendering];
    DrawCountsAppend(pro + d, [EndRendering]);
    DrawCountsAppend(pro, d);
    NoDrawCounts([EndRendering]);
    PrologueDrawsNothing(p, rule);
  }

  /** One indexed draw per scene object, in object order, each with the index count of the object's mesh. */
  lemma RenderDrawsEachObject(p: Pass, s: Scene, rule: AspectRule)
    requires Renderable(s)
    ensures var counts := DrawCounts(Render(p, s, rule));
            && |counts| == |s.objects|
            && forall i :: 0 <= i < |s.objects| ==> s.objects[i].meshIdx < |s.meshes| && counts[i] == s.meshes[s.objects[i].meshIdx].indexCount
  {
    RenderDrawCounts(p, s, rule);
    DrawsCounts(p, s, s.objects);
  }

  /**
   The shape of the trace: the colour target moves UNDEFINED to GENERAL, the
   depth target UNDEFINED to DEPTH_ATTACHMENT_OPTIMAL (with the colour aspect
   as the program records it, the depth aspect under the corrected rule), and
   the colour target is cleared, all before the one begin-rendering; the
   render area and the scissor cover the whole target from (0, 0); one
   end-rendering closes the trace and every draw lies between the two.
   */
  lemma RenderBracketsDraws(p: Pass, s: Scene, rule: AspectRule)
    requires Renderable(s)
    ensures var r := Render(p, s, rule);
            && r[0] == PipelineBarrier(Transition(rule, p.colorImage, Undefined, General))
            && r[0].barrier.range.aspect == ColorAspect
            && r[1] == PipelineBarrier(Transition(rule, p.depthImage, Undefined, DepthAttachmentOptimal))
            && r[1].barrier.range.aspect == (if rule == Corrected then DepthAspect else ColorAspect)
            && r[2] == ClearColorImage(p.colorImage, General, FullImageRange(ColorAspect))
            && r[3].BeginRendering? && r[3].area == Rect2D(0, 0, p.extent)
            && r[6] == SetScissor(Rect2D(0, 0, p.extent))
            && r[|r| - 1] == EndRendering
            && (forall j :: 0 <= j < |r| ==> (r[j].BeginRendering? <==> j == 3))
            && (forall j :: 0 <= j < |r| ==> (r[j].EndRendering? <==> j == |r| - 1))
            && (forall j :: 0 <= j < |r| && r[j].DrawIndexed? ==> 3 < j < |r| - 1)
  {
    RenderOpens(p, s, rule);
    RenderBrackets(p, s, rule);
  }

  /** The first seven commands: the two transitions, the clear, begin rendering over the whole target, and the scissor. */
  lemma RenderOpens(p: Pass, s: Scene, rule: AspectRule)
    requires Renderable(s)
    ensures var r := Render(p, s, rule);
            && r[0] == PipelineBarrier(Transition(rule, p.colorImage, Undefined, General))
            && r[0].barrier.range.aspect == ColorAspect
            && r[1] == PipelineBarrier(Transition(rule, p.depthImage, Undefined, DepthAttachmentOptimal))
            && r[1].barrier.range.aspect == (if rule == Corrected then DepthAspect else ColorAspect)
            && r[2] == ClearColorImage(p.colorImage, General, FullImageRange(ColorAspect))
            && r[3].BeginRendering? && r[3].area == Rect2D(0, 0, p.extent)
            && r[6] == SetScissor(Rect2D(0, 0, p.extent))
  {
    RenderHead(p, s, rule);
  }

  /** One begin-rendering at 3, one end-rendering closing the trace, and every draw between them. */
  lemma RenderBrackets(p: Pass, s: Scene, rule: AspectRule)
    requires Renderable(s)
    ensures var r := Render(p, s, rule);
            && r[|r| - 1] == EndRendering
            && (forall j :: 0 <= j < |r| ==> (r[j].BeginRendering? <==> j == 3))
            && (forall j :: 0 <= j < |r| ==> (r[j].EndRendering? <==> j == |r| - 1))
            && (forall j :: 0 <= j < |r| && r[j].DrawIndexed? ==> 3 < j < |r| - 1)
  {
    var r := Render(p, s, rule);
    RenderHead(p, s, rule);
    DrawsLayout(p, s, s.objects);
    forall j | 7 <= j < |r| - 1
      ensures !r[j].BeginRendering? && !r[j].EndRendering?
    {
      var i, m := (j - 7) / 4, (j - 7) % 4;
      assert j - 7 == 4 * i + m;
      RenderAt(p, s, rule, j - 7);
      assert r[j] == DrawGroup(p, s, s.objects[i])[m];
    }
  }

  /**
   The depth barrier the program records names the colour aspect of the D32
   depth target; the corrected rule names the depth aspect, and that barrier
   is the only command in which the two traces differ.
   */
  lemma RenderDepthBarrierAsWritten(p: Pass, s: Scene)
    requires Renderable(s)
    ensures Render(p, s, AsWritten)[1].barrier.range.aspect == ColorAspect
    ensures Render(p, s, Corrected)[1].barrier.range.aspect == DepthAspect
    ensures forall j :: 0 <= j < |Render(p, s, AsWritten)| && j != 1 ==> Render(p, s, AsWritten)[j] == Render(p, s, Corrected)[j]
  {
    DepthTransitionAsWrittenNamesColor(p.depthImage);
    CorrectionOnlyAffectsDepthTargets(p.colorImage, Undefined, General);
    var w, c := Render(p, s, AsWritten), Render(p, s, Corrected);
    var d := Draws(p, s, s.objects);
    assert w == Prologue(p, AsWritten) + d + [EndRendering];
    assert c == Prologue(p, Corrected) + d + [EndRendering];
  }

  /** A pass that `init` completed renders into the targets it created, with the swapchain's extent. */
  lemma InitThenRender(a: Allocator, swapchain: Extent2D, created: Step -> bool, q: Queue<Closure>, alloc: Allocator, s: Scene, rule: AspectRule)
    requires Registered(a, created, true, q, alloc) && Renderable(s)
    ensures Complete(q.entries)
    ensures var p := PassOf(q.entries, swapchain);
            && p.colorImage in alloc.live && p.colorImage !in a.live
            && p.depthImage in alloc.live && p.depthImage !in a.live
            && Render(p, s, rule)[3].area == Rect2D(0, 0, swapchain)
  {
    var cs := q.entries;
    OwnedHas(cs, 0);
    OwnedHas(cs, 1);
    assert cs[0].handles[0] in Handles(cs[0]) && cs[1].handles[0] in Handles(cs[1]);
  }
}
