/**
 `Engine::release` (engine.cpp): wait for the device to go idle, destroy each
 slot's semaphores, fence, command buffer and pool, then the swapchain views,
 the swapchain, the device, the surface, the debug messenger and finally the
 instance. The teardown is checked against the native parent/child relation:
 every object is destroyed once, and before anything it depends on.
 */
module EngineRelease {
  import opened Engine

  datatype Obj =
    | Instance
    | Messenger
    | Surface
    | Device
    | Swapchain
    | SwapchainView(index: nat)
    | Slot(slotObject: SlotObject)

  datatype ReleaseCall = WaitIdle | Destroy(obj: Obj)

  /** The objects that must outlive `o`. */
  function Parents(o: Obj): set<Obj>
  {
    match o
    case Instance => {}
    case Messenger => {Instance}
    case Surface => {Instance}
    case Device => {Instance}
    case Swapchain => {Device, Surface}
    case SwapchainView(_) => {Device, Swapchain}
    case Slot(CommandBuffer(s)) => {Device, Slot(CommandPool(s))}
    case Slot(_) => {Device}
  }

  /** Everything the engine owns when it has `numViews` swapchain views. */
  function Owned(numViews: nat): set<Obj>
  {
    {Instance, Messenger, Surface, Device, Swapchain}
    + (set i | 0 <= i < numViews :: SwapchainView(i))
    + (set o | o in FrameCreationOrder() :: Slot(o))
  }

  function SlotTeardown(slot: nat): seq<ReleaseCall>
  {
    [ Destroy(Slot(RenderSemaphore(slot))),
      Destroy(Slot(PresentSemaphore(slot))),
      Destroy(Slot(FrameFence(slot))),
      Destroy(Slot(CommandBuffer(slot))),
      Destroy(Slot(CommandPool(slot))) ]
  }

  /** The loop over `m_swapchain_image_views`. */
  function ViewTeardown(n: nat): (r: seq<ReleaseCall>)
    ensures |r| == n
    ensures forall i :: 0 <= i < n ==> r[i] == Destroy(SwapchainView(i))
  {
    if n == 0 then [] else ViewTeardown(n - 1) + [Destroy(SwapchainView(n - 1))]
  }

  function Release(numViews: nat): seq<ReleaseCall>
  {
    [WaitIdle] + SlotTeardown(0) + SlotTeardown(1) + ViewTeardown(numViews)
    + [Destroy(Swapchain), Destroy(Device), Destroy(Surface), Destroy(Messenger), Destroy(Instance)]
  }

  /** A correct teardown: idle first, each owned object destroyed exactly once, children before parents. */
  predicate IdleFirst(calls: seq<ReleaseCall>)
  {
    |calls| > 0 && calls[0] == WaitIdle && forall i :: 0 < i < |calls| ==> calls[i] != WaitIdle
  }

  predicate EachOnce(calls: seq<ReleaseCall>, owned: set<Obj>)
  {
    && (forall o :: o in owned ==> Destroy(o) in calls)
    && (forall i :: 0 <= i < |calls| && calls[i].Destroy? ==> calls[i].obj in owned)
    && (forall i, j :: 0 <= i < j < |calls| ==> calls[i] != calls[j])
  }

  predicate ChildrenFirst(calls: seq<ReleaseCall>)
  {
    forall i, j ::
      (0 <= i < |calls| && 0 <= j < |calls| && calls[i].Destroy? && calls[j].Destroy? && calls[j].obj in Parents(calls[i].obj))
      ==> i < j
  }

  /** Where `o` sits in `Release(numViews)`. */
  function Position(o: Obj, numViews: nat): nat
  {
    match o
    case Slot(RenderSemaphore(s)) => 1 + 5 * s
    case Slot(PresentSemaphore(s)) => 2 + 5 * s
    case Slot(FrameFence(s)) => 3 + 5 * s
    case Slot(CommandBuffer(s)) => 4 + 5 * s
    case Slot(CommandPool(s)) => 5 + 5 * s
    case SwapchainView(i) => 11 + i
    case Swapchain => 11 + numViews
    case Device => 12 + numViews
    case Surface => 13 + numViews
    case Messenger => 14 + numViews
    case Instance => 15 + numViews
  }

  lemma ReleaseLayout(numViews: nat)
    ensures var r := Release(numViews);
      && |r| == 16 + numViews
      && r[0] == WaitIdle
      && (forall i :: 1 <= i < |r| ==> r[i].Destroy? && Position(r[i].obj, numViews) == i && r[i].obj in Owned(numViews))
  {
    var r := Release(numViews);
    var views := ViewTeardown(numViews);
    var head := [WaitIdle] + SlotTeardown(0) + SlotTeardown(1);
    var tail := [Destroy(Swapchain), Destroy(Device), Destroy(Surface), Destroy(Messenger), Destroy(Instance)];
    assert r == head + views + tail;
    assert FrameCreationOrder() == SlotCreation(0) + SlotCreation(1);
    forall i | 1 <= i < |r|
      ensures r[i].Destroy? && Position(r[i].obj, numViews) == i && r[i].obj in Owned(numViews)
    {
      if i < 11 {
        assert r[i] == head[i];
        assert r[i].obj.Slot? && r[i].obj.slotObject in FrameCreationOrder();
      } else if i < 11 + numViews {
        assert r[i] == views[i - 11];
      } else {
        assert r[i] == tail[i - 11 - numViews];
      }
    }
  }

  /** Parents sit later in the release order than their children. */
  lemma ParentsLater(o: Obj, p: Obj, numViews: nat)
    requires o in Owned(numViews) && p in Parents(o)
    ensures Position(o, numViews) < Position(p, numViews)
  {
    if o.Slot? {
      assert o.slotObject in FrameCreationOrder();
    }
  }

  lemma ReleaseIdleFirst(numViews: nat)
    ensures IdleFirst(Release(numViews))
  {
    ReleaseLayout(numViews);
  }

  lemma ReleaseCoversOwned(numViews: nat)
    ensures forall o :: o in Owned(numViews) ==> Destroy(o) in Release(numViews)
  {
    var r := Release(numViews);
    ReleaseLayout(numViews);
    forall o | o in Owned(numViews)
      ensures Destroy(o) in r
    {
      var k := Position(o, numViews);
      if o.Slot? {
        assert o.slotObject in FrameCreationOrder();
      }
      assert 1 <= k < |r|;
      PositionInjective(o, r[k].obj, numViews);
    }
  }

  lemma ReleaseDistinct(numViews: nat)
    ensures var r := Release(numViews);
            forall i, j :: 0 <= i < j < |r| ==> r[i] != r[j]
  {
    var r := Release(numViews);
    ReleaseLayout(numViews);
    forall i, j | 0 <= i < j < |r|
      ensures r[i] != r[j]
    {
      if i > 0 {
        assert Position(r[i].obj, numViews) != Position(r[j].obj, numViews);
      }
    }
  }

  lemma ReleaseEachOnce(numViews: nat)
    ensures EachOnce(Release(numViews), Owned(numViews))
  {
    ReleaseLayout(numViews);
    ReleaseCoversOwned(numViews);
    ReleaseDistinct(numViews);
  }

  lemma ReleaseChildrenFirst(numViews: nat)
    ensures ChildrenFirst(Release(numViews))
  {
    var r := Release(numViews);
    ReleaseLayout(numViews);
    forall i, j | 0 <= i < |r| && 0 <= j < |r| && r[i].Destroy? && r[j].Destroy? && r[j].obj in Parents(r[i].obj)
      ensures i < j
    {
      ParentsLater(r[i].obj, r[j].obj, numViews);
    }
  }

  /** `release` is a correct teardown of everything the engine owns. */
  lemma ReleaseIsCorrectTeardown(numViews: nat)
    ensures IdleFirst(Release(numViews))
    ensures EachOnce(Release(numViews), Owned(numViews))
    ensures ChildrenFirst(Release(numViews))
  {
    ReleaseIdleFirst(numViews);
    ReleaseEachOnce(numViews);
    ReleaseChildrenFirst(numViews);
  }

  /** Different owned objects have different positions. */
  lemma PositionInjective(o: Obj, p: Obj, numViews: nat)
    requires o in Owned(numViews) && p in Owned(numViews)
    requires Position(o, numViews) == Position(p, numViews)
    ensures o == p
  {
    if o.Slot? {
      assert o.slotObject in FrameCreationOrder();
    }
    if p.Slot? {
      assert p.slotObject in FrameCreationOrder();
    }
  }
}
