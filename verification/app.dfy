/**
 The application (app.hpp, app.cpp): `init` brings up the engine, the forward
 pass and the UI pass, creates the default sampler and loads the scene,
 queueing the sampler's teardown and then the scene's; `run` is the event
 loop with its minimize/restore render switch; `~App` waits for the device,
 flushes the application queue, and then the members are destroyed in
 reverse declaration order.

 The UI pass, the body of `~Engine`, `start_frame`/`finish_frame` and the
 swapchain refresh are not part of this model: each enters as an outcome or
 as a single opaque teardown event.
 */
module App {
  import opened Wrappers
  import opened Gpu
  import opened DeletionQueue
  import opened SceneTypes
  import opened Assets
  import SceneLoader
  import ForwardPass
  import Engine

  // ---------------------------------------------------------------- run loop

  datatype Event = Quit | WindowResized | WindowMinimized | WindowRestored | OtherEvent

  /**
   One iteration of the loop: the event polled, if any; the outcome of the
   swapchain refresh a resize triggers; the outcome of `render_frame` should
   it be called.
   */
  datatype Tick = Tick(event: Option<Event>, refreshOk: bool, renderOk: bool)

  /** `m_disable_render` starts false: rendering starts enabled. */
  const RenderInitiallyDisabled: bool := false

  /** Minimize sets the flag, restore clears it, any other event leaves it. */
  function Toggle(disabled: bool, event: Option<Event>): bool
  {
    match event
    case Some(WindowMinimized) => true
    case Some(WindowRestored) => false
    case _ => disabled
  }

  /** The flag after the events of the first `n` ticks, starting from `disabled`. */
  function FlagAt(disabled: bool, ticks: seq<Tick>, n: nat): bool
    requires n <= |ticks|
  {
    if n == 0 then disabled else Toggle(FlagAt(disabled, ticks, n - 1), ticks[n - 1].event)
  }

  predicate FailedRefresh(t: Tick)
  {
    t.event == Some(WindowResized) && !t.refreshOk
  }

  /** Whether the tick reaches `render_frame`, given the flag after its event. */
  predicate CallsRender(t: Tick, disabled: bool)
  {
    t.event != Some(Quit) && !FailedRefresh(t) && !disabled
  }

  /** Whether the tick leaves the loop: quit, a failed refresh, or a failed frame. */
  predicate EndsRun(t: Tick, disabled: bool)
  {
    t.event == Some(Quit) || FailedRefresh(t) || (CallsRender(t, disabled) && !t.renderOk)
  }

  /** Whether the `k`-th tick calls `render_frame`. */
  predicate RendersAt(disabled0: bool, ticks: seq<Tick>, k: nat)
    requires k < |ticks|
  {
    CallsRender(ticks[k], FlagAt(disabled0, ticks, k + 1))
  }

  /** Whether the `k`-th tick leaves the loop. */
  predicate EndsAt(disabled0: bool, ticks: seq<Tick>, k: nat)
    requires k < |ticks|
  {
    EndsRun(ticks[k], FlagAt(disabled0, ticks, k + 1))
  }

  datatype Exit = QuitRequested | RefreshFailed | RenderFailed | InputExhausted

  /**
   `App::run` over the finite input `ticks`. `processed` ticks are consumed;
   `calls` lists the ticks that called `render_frame`.
   */
  method Run(disabled0: bool, ticks: seq<Tick>) returns (exit: Exit, processed: nat, calls: seq<nat>, disabled: bool)
    ensures processed <= |ticks|
    ensures disabled == FlagAt(disabled0, ticks, processed)
    // render_frame is called exactly on the ticks that are not quits or failed refreshes and find rendering enabled
    ensures forall k :: k in calls <==> 0 <= k < processed && RendersAt(disabled0, ticks, k)
    // only the last tick consumed can leave the loop
    ensures forall k :: 0 <= k < processed && (k < processed - 1 || exit == InputExhausted) ==> !EndsAt(disabled0, ticks, k)
    ensures exit == InputExhausted <==> processed == |ticks| && (processed == 0 || !EndsAt(disabled0, ticks, processed - 1))
    ensures exit == QuitRequested ==> 0 < processed && ticks[processed - 1].event == Some(Quit)
    ensures exit == RefreshFailed ==> 0 < processed && FailedRefresh(ticks[processed - 1])
    ensures exit == RenderFailed ==> 0 < processed && processed - 1 in calls && !ticks[processed - 1].renderOk
  {
    disabled := disabled0;
    calls := [];
    var i := 0;
    while i < |ticks|
      invariant 0 <= i <= |ticks|
      invariant disabled == FlagAt(disabled0, ticks, i)
      invariant forall k :: k in calls <==> 0 <= k < i && RendersAt(disabled0, ticks, k)
      invariant forall k :: 0 <= k < i ==> !EndsAt(disabled0, ticks, k)
    {
      var t := ticks[i];
      if t.event == Some(Quit) {
        return QuitRequested, i + 1, calls, Toggle(disabled, t.event);
      }
      if t.event == Some(WindowResized) && !t.refreshOk {
        return RefreshFailed, i + 1, calls, Toggle(disabled, t.event);
      }
      disabled := Toggle(disabled, t.event);
      if !disabled {
        calls := calls + [i];
        if !t.renderOk {
          return RenderFailed, i + 1, calls, disabled;
        }
      }
      i := i + 1;
    }
    return InputExhausted, |ticks|, calls, disabled;
  }

  predicate IsToggle(e: Option<Event>)
  {
    e == Some(WindowMinimized) || e == Some(WindowRestored)
  }

  /**
   The flag is set exactly when the last minimize or restore was a minimize,
   or when there was none and it started set.
   */
  lemma {:induction false} FlagIsLastToggle(disabled: bool, ticks: seq<Tick>, n: nat)
    requires n <= |ticks|
    ensures FlagAt(disabled, ticks, n) <==>
              || (exists j :: 0 <= j < n && ticks[j].event == Some(WindowMinimized)
                               && forall m :: j < m < n ==> !IsToggle(ticks[m].event))
              || (disabled && forall m :: 0 <= m < n ==> !IsToggle(ticks[m].event))
  {
    if n > 0 {
      var last := n - 1;
      FlagIsLastToggle(disabled, ticks, last);
      if ticks[last].event == Some(WindowMinimized) {
        assert FlagAt(disabled, ticks, n);
      } else if ticks[last].event == Some(WindowRestored) {
        assert !FlagAt(disabled, ticks, n);
        forall j | 0 <= j < n && ticks[j].event == Some(WindowMinimized)
          ensures !(forall m :: j < m < n ==> !IsToggle(ticks[m].event))
        {
          assert IsToggle(ticks[last].event);
        }
      } else if FlagAt(disabled, ticks, last) {
        if exists j :: 0 <= j < last && ticks[j].event == Some(WindowMinimized) && forall m :: j < m < last ==> !IsToggle(ticks[m].event) {
          var j :| 0 <= j < last && ticks[j].event == Some(WindowMinimized) && forall m :: j < m < last ==> !IsToggle(ticks[m].event);
          assert forall m :: j < m < n ==> !IsToggle(ticks[m].event);
        }
      } else {
        forall j | 0 <= j < n && ticks[j].event == Some(WindowMinimized)
          ensures !(forall m :: j < m < n ==> !IsToggle(ticks[m].event))
        {
          var m :| j < m < last && IsToggle(ticks[m].event);
        }
        if disabled {
          var m :| 0 <= m < last && IsToggle(ticks[m].event);
        }
      }
    }
  }

  /**
   After a minimize, `render_frame` is not called again until a restore:
   every later tick up to the next restore finds rendering disabled.
   */
  lemma {:induction false} NoRenderWhileMinimized(disabled0: bool, ticks: seq<Tick>, j: nat, k: nat)
    requires j <= k < |ticks|
    requires ticks[j].event == Some(WindowMinimized)
    requires forall m :: j < m <= k ==> ticks[m].event != Some(WindowRestored)
    ensures FlagAt(disabled0, ticks, k + 1)
    ensures !CallsRender(ticks[k], FlagAt(disabled0, ticks, k + 1))
    decreases k - j
  {
    if k > j {
      NoRenderWhileMinimized(disabled0, ticks, j, k - 1);
    }
  }

  /** Rendering starts enabled: without a minimize, every tick that is not a quit or a failed refresh calls `render_frame`. */
  lemma {:induction false} EnabledWithoutMinimize(ticks: seq<Tick>, k: nat)
    requires k < |ticks|
    requires forall m :: 0 <= m <= k ==> ticks[m].event != Some(WindowMinimized)
    ensures !FlagAt(RenderInitiallyDisabled, ticks, k + 1)
    ensures ticks[k].event != Some(Quit) && !FailedRefresh(ticks[k]) ==> CallsRender(ticks[k], FlagAt(RenderInitiallyDisabled, ticks, k + 1))
  {
    if k > 0 {
      EnabledWithoutMinimize(ticks, k - 1);
    }
  }

  // ---------------------------------------------------------------- init

  /** The closures of the application queue. */
  datatype AppAction = DestroySampler(sampler: Id) | DestroyCurrentScene

  /** What the application owns besides the engine: its queue, the forward pass's queue, the scene, the sampler. */
  datatype AppState = AppState(
    queue: Queue<AppAction>,
    forwardQueue: Queue<ForwardPass.Closure>,
    scene: Scene,
    sampler: Option<Id>,
    allocator: Allocator)

  /** The outcomes of everything `init` calls. */
  datatype InitCalls = InitCalls(
    engineBoot: Engine.BootStep -> bool,
    engineCreate: Engine.SlotObject -> VkResult,
    swapchainImages: seq<Id>,
    swapchain: Extent2D,
    forwardCreated: ForwardPass.Step -> bool,
    imguiOk: bool,
    samplerResult: VkResult,
    sceneFile: Option<SceneLoader.AiScene>,
    env: SceneLoader.Env)

  /** The handles the sampler field holds. */
  function SamplerIds(sampler: Option<Id>): set<Id>
  {
    if sampler.Some? then {sampler.value} else {}
  }

  /**
   Every allocation made since `a` is owned by something teardown reaches:
   the forward pass's queue, the sampler or the scene; the application queue
   holds the sampler's closure once the sampler exists, followed by the
   scene's closure, and without the scene's closure the scene is empty.
   */
  predicate Accounted(a: Allocator, app: AppState)
  {
    && app.allocator.Valid()
    && (app.sampler.None? <==> app.queue.entries == [])
    && (app.sampler.Some? ==>
          app.queue.entries == [DestroySampler(app.sampler.value)] || app.queue.entries == [DestroySampler(app.sampler.value), DestroyCurrentScene])
    && (|app.queue.entries| < 2 ==> app.scene == EmptyScene())
    && var extra := ForwardPass.Owned(app.forwardQueue.entries) + SamplerIds(app.sampler) + Resources(app.scene);
    && app.allocator.live == a.live + extra
    && extra !! a.live
  }

  /**
   `App::init`. The scene starts empty. A failed scene load destroys whatever
   the loader left in the scene and does not queue the scene's teardown.
   */
  method Init(a: Allocator, calls: InitCalls) returns (ok: bool, app: AppState)
    requires a.Valid()
    requires calls.sceneFile.Some? ==> forall m :: m in calls.sceneFile.value.meshes ==> SceneLoader.WellFormedMesh(m)
    ensures Accounted(a, app)
    ensures ok ==> app.sampler.Some? && app.queue.entries == [DestroySampler(app.sampler.value), DestroyCurrentScene]
    ensures ok ==> |app.forwardQueue.entries| == |ForwardPass.InitOrder()|
    ensures !ok ==> app.scene == EmptyScene()
    ensures ok <==>
              && (forall s :: s in Engine.BootOrder ==> calls.engineBoot(s))
              && (forall o :: o in Engine.FrameCreationOrder() ==> calls.engineCreate(o) == Success)
              && (forall s :: s in ForwardPass.InitOrder() ==> calls.forwardCreated(s))
              && calls.imguiOk && calls.samplerResult == Success
              && calls.sceneFile.Some? && calls.sceneFile.value.root.Some?
              && SceneLoader.MaterialsOk(calls.env, |calls.sceneFile.value.materials|)
              && SceneLoader.MeshesOk(calls.env, |calls.sceneFile.value.meshes|)
  {
    app := AppState(Empty(), Empty(), EmptyScene(), None, a);
    var engine := Engine.Init(calls.engineBoot, calls.engineCreate, calls.swapchainImages);
    if !engine.ok {
      return false, app;
    }
    var forwardOk, forwardQueue, alloc, _ := ForwardPass.Init(a, calls.swapchain, calls.forwardCreated);
    app := app.(forwardQueue := forwardQueue, allocator := alloc);
    if !forwardOk {
      return false, app;
    }
    if !calls.imguiOk {
      return false, app;
    }
    ok, app := InitSamplerAndScene(a, app, calls);
  }

  /** The tail of `App::init` once the passes are up: the default sampler, then the scene. */
  method InitSamplerAndScene(a: Allocator, app0: AppState, calls: InitCalls) returns (ok: bool, app: AppState)
    requires Accounted(a, app0) && app0.sampler.None?
    requires calls.sceneFile.Some? ==> forall m :: m in calls.sceneFile.value.meshes ==> SceneLoader.WellFormedMesh(m)
    ensures Accounted(a, app) && app.forwardQueue == app0.forwardQueue
    ensures ok ==> app.sampler.Some? && app.queue.entries == [DestroySampler(app.sampler.value), DestroyCurrentScene]
    ensures !ok ==> app.scene == EmptyScene()
    ensures ok <==>
              && calls.samplerResult == Success
              && calls.sceneFile.Some? && calls.sceneFile.value.root.Some?
              && SceneLoader.MaterialsOk(calls.env, |calls.sceneFile.value.materials|)
              && SceneLoader.MeshesOk(calls.env, |calls.sceneFile.value.meshes|)
  {
    app := app0;
    if calls.samplerResult != Success {
      return false, app;
    }
    var sampler := Alloc(app.allocator);
    app := app.(queue := Add(app.queue, DestroySampler(sampler.id)), sampler := Some(sampler.id), allocator := sampler.allocator);
    assert app.queue.entries == [DestroySampler(sampler.id)];
    var loaded, scene, alloc2, _, _, _ := SceneLoader.CreateSceneFromFile(calls.sceneFile, EmptyScene(), sampler.allocator, sampler.id, calls.env);
    if !loaded {
      var d := DestroyScene(alloc2, scene);
      app := app.(scene := d.scene, allocator := d.allocator);
      return false, app;
    }
    app := app.(queue := Add(app.queue, DestroyCurrentScene), scene := scene, allocator := alloc2);
    ok := true;
  }

  // ---------------------------------------------------------------- teardown

  /** One step of tearing the application down. */
  datatype TeardownEvent =
    | DeviceWaitIdle
    | AppClosure(action: AppAction)
    | ImGuiQueueFlushed
    | ForwardClosure(closure: ForwardPass.Closure)
    | EngineDestroyed
    | AppQueueDropped(pending: nat)

  datatype TornDown = TornDown(events: seq<TeardownEvent>, scene: Scene, allocator: Allocator)

  /** Runs the application queue's closures in order; the scene closure destroys the scene as it is at that moment. */
  function RunAppActions(ran: seq<AppAction>, scene: Scene, a: Allocator): (r: SceneDestroyed)
    ensures r.allocator.live == a.live - (set x | x in ran && x.DestroySampler? :: x.sampler) - (if DestroyCurrentScene in ran then Resources(scene) else {})
    ensures a.Valid() ==> r.allocator.Valid()
    ensures DestroyCurrentScene in ran ==> r.scene == EmptyScene()
    ensures DestroyCurrentScene !in ran ==> r.scene == scene
    decreases |ran|
  {
    if |ran| == 0 then SceneDestroyed(scene, a)
    else
      var rest := ran[1..];
      assert forall x :: x in ran <==> x == ran[0] || x in rest;
      match ran[0]
      case DestroySampler(s) => RunAppActions(rest, scene, Free(a, s))
      case DestroyCurrentScene =>
        var d := DestroyScene(a, scene);
        RunAppActions(rest, d.scene, d.allocator)
  }

  function Wrap<A>(xs: seq<A>, f: A -> TeardownEvent): (r: seq<TeardownEvent>)
    ensures |r| == |xs| && forall i :: 0 <= i < |xs| ==> r[i] == f(xs[i])
  {
    if |xs| == 0 then [] else [f(xs[0])] + Wrap(xs[1..], f)
  }

  /**
   `~App` followed by the destruction of the members, last declared first:
   wait for the device, flush the application queue, then the UI pass
   flushes its queue, the forward pass flushes its queue, the engine is
   destroyed, and the application queue is dropped.
   */
  function Teardown(app: AppState): (r: TornDown)
    ensures |r.events| >= 4
    ensures r.events[0] == DeviceWaitIdle
    ensures r.events[|r.events| - 1] == AppQueueDropped(0)
    ensures DestroyCurrentScene in app.queue.entries ==> r.scene == EmptyScene()
    ensures DestroyCurrentScene !in app.queue.entries ==> r.scene == app.scene
  {
    var ran := Flush(app.queue).ran;
    assert DestroyCurrentScene in app.queue.entries <==> DestroyCurrentScene in ran by {
      var n := |app.queue.entries|;
      if DestroyCurrentScene in app.queue.entries {
        var i :| 0 <= i < n && app.queue.entries[i] == DestroyCurrentScene;
        assert ran[n - 1 - i] == DestroyCurrentScene;
      }
      if DestroyCurrentScene in ran {
        var i :| 0 <= i < n && ran[i] == DestroyCurrentScene;
      }
    }
    var afterApp := RunAppActions(ran, app.scene, app.allocator);
    var forward := ForwardPass.Destroy(app.forwardQueue, afterApp.allocator);
    TornDown(TeardownEvents(app), afterApp.scene, forward.allocator)
  }

  /** The events of `Teardown`: they depend only on the two queues. */
  function TeardownEvents(app: AppState): seq<TeardownEvent>
  {
    [DeviceWaitIdle] + Wrap(Flush(app.queue).ran, x => AppClosure(x)) + [ImGuiQueueFlushed]
    + Wrap(Flush(app.forwardQueue).ran, x => ForwardClosure(x)) + [EngineDestroyed, AppQueueDropped(|Flush(app.queue).queue.entries|)]
  }

  /**
   Zero net allocations across the application's lifetime: after `init`,
   whatever its outcome, the teardown frees every allocation `init` made.
   */
  lemma TeardownFreesEverything(a: Allocator, app: AppState)
    requires Accounted(a, app)
    ensures Teardown(app).allocator.live == a.live
  {
    AppClosuresFree(a, app);
  }

  /** The application queue's closures free exactly the sampler and the scene's resources. */
  lemma AppClosuresFree(a: Allocator, app: AppState)
    requires Accounted(a, app)
    ensures RunAppActions(Flush(app.queue).ran, app.scene, app.allocator).allocator.live == app.allocator.live - SamplerIds(app.sampler) - Resources(app.scene)
  {
    var appRan := Flush(app.queue).ran;
    var sampled := set x | x in appRan && x.DestroySampler? :: x.sampler;
    if app.queue.entries == [] {
      assert appRan == [];
      assert sampled == {};
    } else if |app.queue.entries| == 1 {
      assert appRan == [DestroySampler(app.sampler.value)];
      assert sampled == {app.sampler.value};
    } else {
      assert appRan == [DestroyCurrentScene, DestroySampler(app.sampler.value)];
      assert sampled == {app.sampler.value};
    }
  }

  /** After `init`, whatever its outcome, teardown leaves the scene empty: either the scene's closure ran, or the scene was never filled. */
  lemma TeardownEmptiesScene(a: Allocator, app: AppState)
    requires Accounted(a, app)
    ensures Teardown(app).scene == EmptyScene()
  {
  }

  /**
   The shape of every teardown: the device goes idle, the application queue
   runs last-queued first, the UI pass flushes, the forward pass's queue runs
   last-queued first, the engine is destroyed, and the then-empty application
   queue is dropped.
   */
  lemma TeardownShape(app: AppState)
    ensures var ev := Teardown(app).events;
            var n, m := |app.queue.entries|, |app.forwardQueue.entries|;
            && |ev| == n + m + 4
            && ev[0] == DeviceWaitIdle
            && (forall i :: 1 <= i <= n ==> ev[i] == AppClosure(app.queue.entries[n - i]))
            && ev[1 + n] == ImGuiQueueFlushed
            && (forall i :: 2 + n <= i < 2 + n + m ==> ev[i] == ForwardClosure(app.forwardQueue.entries[n + m + 1 - i]))
            && ev[2 + n + m] == EngineDestroyed
            && ev[3 + n + m] == AppQueueDropped(0)
  {
    var appEvents := Wrap(Flush(app.queue).ran, x => AppClosure(x));
    var forwardEvents := Wrap(Flush(app.forwardQueue).ran, x => ForwardClosure(x));
    var head := [DeviceWaitIdle] + appEvents + [ImGuiQueueFlushed];
    var ev := head + forwardEvents + [EngineDestroyed, AppQueueDropped(0)];
    assert Teardown(app).events == ev;
    forall i | 1 <= i <= |appEvents| ensures ev[i] == appEvents[i - 1] {
      assert ev[i] == head[i];
    }
    forall i | |head| <= i < |head| + |forwardEvents| ensures ev[i] == forwardEvents[i - |head|] {
    }
  }

  /**
   The order of a full teardown after a successful `init`: the scene is
   destroyed before the sampler, because the sampler's closure was queued
   first; the forward pass releases its pipeline first and its render target
   last.
   */
  lemma TeardownOrder(app: AppState)
    requires app.sampler.Some?
    requires app.queue.entries == [DestroySampler(app.sampler.value), DestroyCurrentScene]
    requires |app.forwardQueue.entries| == 7 && forall i :: 0 <= i < 7 ==> app.forwardQueue.entries[i].step == ForwardPass.InitOrder()[i]
    ensures var ev := Teardown(app).events;
            && |ev| == 13
            && ev[0] == DeviceWaitIdle
            && ev[1] == AppClosure(DestroyCurrentScene)
            && ev[2] == AppClosure(DestroySampler(app.sampler.value))
            && ev[3] == ImGuiQueueFlushed
            && (forall i :: 4 <= i < 11 ==> ev[i].ForwardClosure? && ev[i].closure.step == ForwardPass.InitOrder()[10 - i])
            && ev[4].closure.step == ForwardPass.Pipeline && ev[10].closure.step == ForwardPass.RenderTarget
            && ev[11] == EngineDestroyed
            && ev[12] == AppQueueDropped(0)
  {
    TeardownShape(app);
    ShapedEventsOrder(app, Teardown(app).events);
  }

  /** `TeardownOrder` for any event sequence of the shape `TeardownShape` proves. */
  lemma ShapedEventsOrder(app: AppState, ev: seq<TeardownEvent>)
    requires app.sampler.Some?
    requires app.queue.entries == [DestroySampler(app.sampler.value), DestroyCurrentScene]
    requires |app.forwardQueue.entries| == 7 && forall i :: 0 <= i < 7 ==> app.forwardQueue.entries[i].step == ForwardPass.InitOrder()[i]
    requires |ev| == 13 && ev[0] == DeviceWaitIdle
    requires forall i :: 1 <= i <= 2 ==> ev[i] == AppClosure(app.queue.entries[2 - i])
    requires ev[3] == ImGuiQueueFlushed
    requires forall i :: 4 <= i < 11 ==> ev[i] == ForwardClosure(app.forwardQueue.entries[10 - i])
    requires ev[11] == EngineDestroyed && ev[12] == AppQueueDropped(0)
    ensures && ev[1] == AppClosure(DestroyCurrentScene)
            && ev[2] == AppClosure(DestroySampler(app.sampler.value))
            && (forall i :: 4 <= i < 11 ==> ev[i].ForwardClosure? && ev[i].closure.step == ForwardPass.InitOrder()[10 - i])
            && ev[4].closure.step == ForwardPass.Pipeline && ev[10].closure.step == ForwardPass.RenderTarget
  {
    var fq := app.forwardQueue.entries;
    assert ev[1] == AppClosure(app.queue.entries[1]) && ev[2] == AppClosure(app.queue.entries[0]);
    assert ev[4] == ForwardClosure(fq[6]) && ev[10] == ForwardClosure(fq[0]);
  }
}
