/** `WindowRenderContext` of src/vulkan_backend/state_machine.rs over the abstract device. */
module WindowContext {
  import opened Wrappers
  import opened VulkanDevice
  import opened ResizeMailbox
  import opened WindowSwapchain

  /** Creates n objects one after another, stopping at the first failure. */
  method CreateAll(device: Device, kind: Kind, n: nat) returns (ok: bool, made: seq<Handle>)
    requires VulkanDevice.Valid(device.d)
    modifies device`d, device`failed
    ensures VulkanDevice.Valid(device.d)
    ensures device.failed == old(device.failed) + if ok then multiset{} else multiset{kind}
    ensures |made| <= n && (ok <==> |made| == n)
    ensures made == Batch(kind, old(device.d).next, |made|)
    ensures device.d == Created(old(device.d), kind, |made|)
  {
    made := [];
    ghost var was := device.d;
    assert Created(was, kind, 0) == was;
    for i := 0 to n
      invariant |made| == i && made == Batch(kind, was.next, i) && device.failed == old(device.failed)
      invariant VulkanDevice.Valid(device.d) && device.d == Created(was, kind, i)
    {
      var h := device.Create(kind);
      if h.None? { return false, made; }
      made := made + [h.value];
      assert Elems(made) == Elems(Batch(kind, was.next, i)) + {h.value};
      assert made == Batch(kind, was.next, i + 1);
    }
    ok := true;
  }

  /** Between two counts of failed creations, one failed of a kind created in a loop that gives up what
      it had created. */
  predicate LoopFailed(before: multiset<Kind>, after: multiset<Kind>) {
    || after[View] > before[View] || after[Framebuffer] > before[Framebuffer]
    || after[Available] > before[Available] || after[Finished] > before[Finished] || after[Fence] > before[Fence]
  }

  method DestroyAll(device: Device, hs: seq<Handle>)
    requires VulkanDevice.Valid(device.d) && device.d.pending == []
    requires Elems(hs) <= device.d.live && Distinct(hs)
    modifies device`d
    ensures VulkanDevice.Valid(device.d) && device.d == old(device.d).(live := old(device.d).live - Elems(hs))
  {
    for i := 0 to |hs|
      invariant VulkanDevice.Valid(device.d)
      invariant device.d == old(device.d).(live := old(device.d).live - Elems(hs[..i]))
    {
      assert hs[i] !in hs[..i];
      assert Elems(hs[..i + 1]) == Elems(hs[..i]) + {hs[i]};
      device.Destroy(hs[i]);
    }
    assert hs[..|hs|] == hs;
  }

  /** Frees the command buffers, then destroys framebuffers, render pass and views. */
  method DestroyResources(device: Device, commandBuffers: seq<Handle>, framebuffers: seq<Handle>, renderPass: Handle,
                           views: seq<Handle>)
    requires VulkanDevice.Valid(device.d) && device.d.pending == []
    requires Elems(commandBuffers) + Elems(framebuffers) + OrNothing(renderPass) + Elems(views) <= device.d.live
    requires Elems(commandBuffers) !! Elems(framebuffers) !! OrNothing(renderPass) !! Elems(views)
    requires Distinct(framebuffers) && Distinct(views)
    modifies device`d
    ensures VulkanDevice.Valid(device.d)
    ensures device.d == old(device.d).(live :=
      old(device.d).live - (Elems(commandBuffers) + Elems(framebuffers) + OrNothing(renderPass) + Elems(views)))
  {
    hide Elems, Distinct, VulkanDevice.Valid;
    NoElems();
    if commandBuffers != [] {
      device.FreeCommandBuffers(commandBuffers);
    }
    DestroyAll(device, framebuffers);
    if !renderPass.Null() {
      device.Destroy(renderPass);
    }
    DestroyAll(device, views);
  }

  method DestroyFrames(device: Device, frames: seq<FrameSync>)
    requires VulkanDevice.Valid(device.d) && device.d.pending == []
    requires FrameHandles(frames) <= device.d.live && FrameLists(frames)
    modifies device`d
    ensures VulkanDevice.Valid(device.d)
    ensures device.d == old(device.d).(live := old(device.d).live - FrameHandles(frames))
  {
    hide FrameHandles, FrameLists, VulkanDevice.Valid;
    ghost var was := device.d;
    NoFrames();
    for i := 0 to |frames|
      invariant VulkanDevice.Valid(device.d) && device.d == was.(live := was.live - FrameHandles(frames[..i]))
    {
      NextFrameHandles(frames, i);
      device.Destroy(frames[i].imageAvailable);
      device.Destroy(frames[i].renderFinished);
      device.Destroy(frames[i].inFlight);
      assert device.d.live == was.live - FrameHandles(frames[..i + 1]);
    }
    assert frames[..|frames|] == frames;
  }

  /** What creating frames changes on the device. */
  ghost predicate OnlyNewFrames(was: DeviceState, d: DeviceState, made: set<Handle>) {
    && VulkanDevice.Valid(d) && d.next >= was.next
    && d == was.(next := d.next, live := was.live + made, signaledFences := d.signaledFences)
    && was.signaledFences <= d.signaledFences
    && (forall h <- d.signaledFences - was.signaledFences :: h.id >= was.next)
    && forall h <- made :: h.id >= was.next
  }

  method CreateFrame(device: Device) returns (r: Option<FrameSync>, ghost made: set<Handle>)
    requires VulkanDevice.Valid(device.d)
    modifies device`d, device`failed
    ensures OnlyNewFrames(old(device.d), device.d, made)
    ensures old(device.failed) <= device.failed && (r.None? ==> LoopFailed(old(device.failed), device.failed))
    ensures r.Some? ==> made == {r.value.imageAvailable, r.value.renderFinished, r.value.inFlight}
    ensures r.Some? ==> NewFrame(old(device.d), device.d, r.value)
  {
    made := {};
    var available := device.Create(Available);
    if available.None? { return None, made; }
    made := made + {available.value};
    var finished := device.Create(Finished);
    if finished.None? { return None, made; }
    made := made + {finished.value};
    var fence := device.CreateFence();
    if fence.None? { return None, made; }
    made := made + {fence.value};
    r := Some(FrameSync(available.value, finished.value, fence.value));
  }

  /** The three handles of each frame in flight; the first failure gives up the rest. */
  method CreateFrames(device: Device) returns (ok: bool, frames: seq<FrameSync>, ghost made: set<Handle>)
    requires VulkanDevice.Valid(device.d)
    modifies device`d, device`failed
    ensures OnlyNewFrames(old(device.d), device.d, made)
    ensures old(device.failed) <= device.failed && (!ok ==> LoopFailed(old(device.failed), device.failed))
    ensures ok ==> |frames| == MAX_FRAMES_IN_FLIGHT && made == FrameHandles(frames) && FrameLists(frames)
    ensures ok ==> forall f <- frames :: NewFrame(old(device.d), device.d, f)
  {
    hide FrameHandles, FrameLists;
    frames, made := [], {};
    ghost var was := device.d;
    NoFrames();
    for i := 0 to MAX_FRAMES_IN_FLIGHT
      invariant |frames| == i
      invariant OnlyNewFrames(was, device.d, made) && old(device.failed) <= device.failed
      invariant made == FrameHandles(frames) && FrameLists(frames)
      invariant forall f <- frames :: NewFrame(was, device.d, f)
    {
      ghost var before := device.d;
      var f, more := CreateFrame(device);
      made := made + more;
      if f.None? { return false, [], made; }
      FrameAppended(was, before, device.d, frames, f.value);
      frames := frames + [f.value];
    }
    ok := true;
  }

  ghost predicate NewFrame(was: DeviceState, d: DeviceState, f: FrameSync) {
    && was.next <= f.imageAvailable.id < d.next && was.next <= f.renderFinished.id < d.next
    && was.next <= f.inFlight.id < d.next
    && f.imageAvailable.kind == Available && f.renderFinished.kind == Finished && f.inFlight.kind == Fence
    && f.inFlight in d.signaledFences
  }

  lemma FrameAppended(was: DeviceState, before: DeviceState, d: DeviceState, frames: seq<FrameSync>, f: FrameSync)
    requires FrameLists(frames) && (forall g <- frames :: NewFrame(was, before, g)) && NewFrame(before, d, f)
    ensures FrameHandles(frames + [f]) == FrameHandles(frames) + {f.imageAvailable, f.renderFinished, f.inFlight}
    ensures FrameLists(frames + [f])
  {
    HandlesAppended(frames, f);
    assert forall i | 0 <= i < |frames| :: NewFrame(was, before, frames[i]);
  }

  /** The same resources: nothing was rebuilt. */
  ghost predicate Unbuilt(c: Held, g: Held) {
    g == c.(stranded := g.stranded, held := g.held)
  }

  /** The result of a rebuild. */
  predicate Rebuilding(r: Outcome<TickOutcome>) {
    match r
    case Done(t) => t.Recreated?
    case Failed(e) => e != NoCommandBuffer && e != NeverReturns
  }

  /** A tick without a resize waits for the current frame's fence, acquires an image with its semaphore,
      and resets the fence; where it stops, and which image it returns, is as the device answers. */
  ghost predicate TickCalls(before: seq<FrameCall>, after: seq<FrameCall>, c: Held, r: Outcome<TickOutcome>) {
    c.currentFrame < |c.frames| &&
    var f := c.frames[c.currentFrame];
    || (after == before + [Waited(f.inFlight, WaitFailed)] && r == Failed(Vk))
    || (after == before + [Waited(f.inFlight, Hung)] && r == Failed(NeverReturns))
    || exists image ::
         && AcquireCalls(before, after, f, c.swapchain, image, r)
  }

  ghost predicate AcquireCalls(before: seq<FrameCall>, after: seq<FrameCall>, f: FrameSync, swapchain: Handle,
                               image: AcquireResult, r: Outcome<TickOutcome>) {
    var calls := before + [Waited(f.inFlight, Signaled)] + [Acquiring(swapchain, f.imageAvailable, image)];
    match image
    case AcquireFailed => after == calls && r == Failed(Vk)
    case OutOfDate => after == calls && Rebuilding(r)
    case Image(i, suboptimal) =>
      if suboptimal then after == calls && Rebuilding(r)
      else
        && after == calls + [Resetting(f.inFlight, r != Failed(Vk))]
        && (r == Failed(Vk) || r == Done(AcquiredImage(i)) || r == Failed(NoCommandBuffer))
  }

  lemma WaitLogged(before: seq<FrameCall>, after: seq<FrameCall>, c: Held, waited: WaitResult)
    requires c.currentFrame < |c.frames| && after == before + [Waited(c.frames[c.currentFrame].inFlight, waited)]
    ensures waited.WaitFailed? ==> TickCalls(before, after, c, Failed(Vk))
    ensures waited.Hung? ==> TickCalls(before, after, c, Failed(NeverReturns))
  {
  }

  lemma AcquireLogged(before: seq<FrameCall>, after: seq<FrameCall>, c: Held, image: AcquireResult,
                      r: Outcome<TickOutcome>)
    requires c.currentFrame < |c.frames|
    requires AcquireCalls(before, after, c.frames[c.currentFrame], c.swapchain, image, r)
    ensures TickCalls(before, after, c, r)
  {
  }

  /** What drawing image i for the current frame submits, and presents once that succeeded. */
  ghost predicate SentCalls(before: seq<FrameCall>, after: seq<FrameCall>, c: Held, i: nat, sent: Sent) {
    c.currentFrame < |c.frames| && i < |c.commandBuffers| && i < |c.framebuffers| && i < |c.views| &&
    var f := c.frames[c.currentFrame];
    var uses := {c.commandBuffers[i], c.framebuffers[i], c.views[i], c.renderPass, c.swapchain};
    var drawing := Submission(f.inFlight, f.imageAvailable, f.renderFinished, uses);
    var submitted := before + [Submitting(drawing, true)];
    match sent
    case NotSubmitted => after == before + [Submitting(drawing, false)]
    case NotPresented => after == submitted + [Showing(c.swapchain, f.renderFinished, i, PresentFailed)]
    case Rebuilt => after == submitted + [Showing(c.swapchain, f.renderFinished, i, PresentOutOfDate)]
    case Shown => after == submitted + [Showing(c.swapchain, f.renderFinished, i, Presented)]
  }

  /** How far a submission got. */
  datatype Sent = NotSubmitted | NotPresented | Rebuilt | Shown

  class WindowRenderContext {
    const device: Device
    const surface: Handle
    const pendingResize: PendingResize
    var swapchain: Handle
    var images: nat
    var views: seq<Handle>
    var framebuffers: seq<Handle>
    var renderPass: Handle
    var commandBuffers: seq<Handle>
    var frames: seq<FrameSync>
    var extent: Size
    var currentFrame: nat
    var state: WindowRenderState
    ghost const others: set<Handle>
    ghost const failedBefore: multiset<Kind>
    ghost var leaked: set<Handle>
    ghost var stranded: bool
    ghost var held: bool

    ghost function Snap(): Held
      reads this
    {
      Held(surface, swapchain, images, views, framebuffers, renderPass, commandBuffers, frames,
           currentFrame, leaked, stranded, held)
    }

    ghost predicate Owned()
      reads this, device
    {
      VulkanDevice.Valid(device.d) && Ownership(device.d, Snap(), others) && failedBefore <= device.failed
      && (leaked != {} ==> LoopFailed(failedBefore, device.failed))
    }

    ghost predicate Valid()
      reads this, device
    {
      Owned() && Protocol(device.d, Snap()) && (frames == [] ==> currentFrame == 0)
    }

    constructor Empty(device: Device, surface: Handle, size: Size)
      requires VulkanDevice.Valid(device.d) && device.d.pending == []
      requires surface in device.d.live && surface.kind == Surface
      ensures Valid() && this.device == device && this.surface == surface && fresh(pendingResize)
      ensures others == device.d.live - {surface} && failedBefore == device.failed && leaked == {}
      ensures swapchain.Null() && frames == []
      ensures Snap() == Held(surface, NullOf(Swapchain), 0, [], [], NullOf(RenderPass), [], [], 0, {}, false, false)
      ensures state == Uninitialized && extent == size
    {
      this.device, this.surface := device, surface;
      pendingResize := new PendingResize();
      swapchain, images, views, framebuffers, renderPass := NullOf(Swapchain), 0, [], [], NullOf(RenderPass);
      commandBuffers, frames, extent, currentFrame, state := [], [], size, 0, Uninitialized;
      others, leaked, stranded, held := device.d.live - {surface}, {}, false, false;
      failedBefore := device.failed;
    }

    /** Waits for the device and destroys everything made for one swapchain but the swapchain. */
    method DestroySwapchainResources()
      requires Owned()
      modifies this`commandBuffers, this`framebuffers, this`renderPass, this`views, this`images, device`d
      ensures Owned() && Snap() == Emptied(old(Snap()))
      ensures var d := old(device.d); var done := Completed(d, |d.pending|);
        device.d == done.(live := d.live - SwapchainResources(old(Snap())))
    {
      hide Ownership, Owns, Lists, Elems, Distinct, VulkanDevice.Valid, Completed;
      ghost var was, c := device.d, Snap();
      ResourcesOwned(was, c, others);
      device.WaitIdle();
      DestroyResources(device, commandBuffers, framebuffers, renderPass, views);
      commandBuffers, framebuffers, renderPass, views, images := [], [], NullOf(RenderPass), [], 0;
      EmptiedKeeps(was, c, device.d, others);
    }

    method QuerySurface(want: Size) returns (r: Outcome<Size>)
      modifies device`report
      ensures r == SurfaceExtent(device.report, want)
    {
      var report := device.QuerySurface();
      if report.caps.None? || report.formats.None? { return Failed(Vk); }
      if report.formats.value == 0 { return Failed(NoSurfaceFormats); }
      if report.modes.None? { return Failed(Vk); }
      if report.modes.value == 0 { return Failed(NoPresentModes); }
      r := ChooseExtent(report.caps.value, want);
    }

    /** On failure the old swapchain stays. */
    method ReplaceSwapchain() returns (ok: bool)
      requires Valid() && device.d.pending == []
      modifies this`swapchain, device`d, device`failed
      ensures Valid() && Quiet(old(device.d), device.d)
      ensures ok ==> !swapchain.Null() && swapchain.id == old(device.d).next
      ensures !ok ==> swapchain == old(swapchain) && device.d == old(device.d)
    {
      hide Ownership, Protocol;
      ghost var was, c := device.d, Snap();
      SwapchainMade(was, c, others);
      OwnedSwapchain(was, c, others);
      var h := device.Create(Swapchain);
      if h.None? { return false; }
      if !swapchain.Null() {
        device.Destroy(swapchain);
      }
      swapchain := h.value;
      ghost var made := WithHandle(was, h.value);
      assert device.d == made.(live := made.live - OrNothing(c.swapchain));
      assert Snap() == c.(swapchain := h.value);
      ok := true;
    }

    method CreateViews() returns (ok: bool)
      requires Valid() && device.d.pending == [] && views == []
      modifies this`views, this`leaked, device`d, device`failed
      ensures Valid() && Quiet(old(device.d), device.d)
      ensures ok ==> |views| == images && leaked == old(leaked)
      ensures !ok ==> leaked == old(leaked) + (device.d.live - old(device.d.live))
    {
      hide Ownership, Protocol;
      ghost var was, c := device.d, Snap();
      var all, made := CreateAll(device, View, images);
      BatchFresh(was, View, |made|);
      if !all {
        HandlesLost(was, c, device.d, others, Elems(made));
        leaked := leaked + Elems(made);
        assert Snap() == c.(leaked := leaked);
        return false;
      }
      ViewsMade(was, c, others, images);
      views := made;
      assert Snap() == c.(views := made);
      ok := true;
    }

    method CreateRenderPass() returns (ok: bool)
      requires Valid() && device.d.pending == [] && renderPass.Null()
      modifies this`renderPass, device`d, device`failed
      ensures Valid() && Quiet(old(device.d), device.d)
      ensures ok ==> !renderPass.Null()
    {
      hide Ownership, Protocol;
      RenderPassMade(device.d, Snap(), others);
      var pass := device.Create(RenderPass);
      if pass.None? { return false; }
      renderPass := pass.value;
      ok := true;
    }

    method AllocateCommandBuffers() returns (ok: bool)
      requires Valid() && device.d.pending == [] && commandBuffers == []
      modifies this`commandBuffers, device`d, device`failed
      ensures Valid() && Quiet(old(device.d), device.d)
      ensures if ok then |commandBuffers| == images else commandBuffers == []
    {
      hide Ownership, Protocol;
      CommandBuffersMade(device.d, Snap(), others, images);
      var buffers := device.AllocateCommandBuffers(images);
      if buffers.None? { return false; }
      commandBuffers := buffers.value;
      ok := true;
    }

    method CreateFramebuffers() returns (ok: bool)
      requires Valid() && device.d.pending == [] && framebuffers == []
      modifies this`framebuffers, this`leaked, device`d, device`failed
      ensures Valid() && Quiet(old(device.d), device.d)
      ensures ok ==> |framebuffers| == |views| && leaked == old(leaked)
      ensures !ok ==> leaked == old(leaked) + (device.d.live - old(device.d.live))
    {
      hide Ownership, Protocol;
      ghost var was, c := device.d, Snap();
      var all, made := CreateAll(device, Framebuffer, |views|);
      BatchFresh(was, Framebuffer, |made|);
      if !all {
        HandlesLost(was, c, device.d, others, Elems(made));
        leaked := leaked + Elems(made);
        assert Snap() == c.(leaked := leaked);
        return false;
      }
      FramebuffersMade(was, c, others, |views|);
      framebuffers := made;
      assert Snap() == c.(framebuffers := made);
      ok := true;
    }

    /** Only the first successful build creates the frames. */
    method CreateFrameSyncs() returns (ok: bool)
      requires Valid() && device.d.pending == []
      modifies this`frames, this`leaked, device`d, device`failed
      ensures Valid() && Quiet(old(device.d), device.d)
      ensures old(frames) != [] ==> ok && frames == old(frames)
      ensures ok ==> frames != [] && leaked == old(leaked)
      ensures !ok ==> leaked == old(leaked) + (device.d.live - old(device.d.live))
    {
      hide Ownership, Protocol, FrameHandles, FrameLists;
      if frames != [] { return true; }
      ghost var was, c := device.d, Snap();
      var all, created, made := CreateFrames(device);
      if !all {
        HandlesLost(was, c, device.d, others, made);
        leaked := leaked + made;
        assert Snap() == c.(leaked := leaked);
        return false;
      }
      FramesMade(was, c, device.d, others, created);
      frames := created;
      assert Snap() == c.(frames := frames);
      ok := true;
    }

    /** Nothing is left of the last build but the swapchain and the frames. */
    method ClearSwapchain()
      requires Valid()
      modifies this`commandBuffers, this`framebuffers, this`renderPass, this`views, this`images, device`d
      ensures Valid() && device.d.pending == []
      ensures device.d.dirtyAcquires == old(device.d.dirtyAcquires) && device.d.next == old(device.d.next)
      ensures views == framebuffers == commandBuffers == [] && renderPass == NullOf(RenderPass)
    {
      hide LoopFailed, Ownership, Protocol, SwapchainResources, Completed, VulkanDevice.Valid;
      ghost var was, c := device.d, Snap();
      DestroySwapchainResources();
      EmptiedInv(was, c, device.d, others);
    }

    method GetImages() returns (ok: bool)
      requires Valid() && !swapchain.Null()
      modifies this`images, device`d
      ensures Valid() && device.d == old(device.d).(imageCount := device.d.imageCount)
      ensures ok ==> swapchain in device.d.imageCount && device.d.imageCount[swapchain] == images
      ensures !ok ==> images == old(images)
    {
      hide LoopFailed, Ownership, Protocol, VulkanDevice.Valid;
      OwnedSwapchain(device.d, Snap(), others);
      ghost var known := device.d;
      var n := device.GetSwapchainImages(swapchain);
      if n.None? { return false; }
      ImagesKnown(known, Snap(), device.d, others, n.value);
      images := n.value;
      ok := true;
    }

    /** Rebuilds everything that belongs to one swapchain, whatever state an earlier failure left. */
    method BuildSwapchain(want: Size) returns (r: Outcome<Unit>)
      requires Valid()
      modifies this`swapchain, this`images, this`views, this`framebuffers, this`renderPass, this`commandBuffers
      modifies this`frames, this`extent, this`leaked, device`d, device`report, device`failed
      ensures Valid() && device.d.pending == [] && device.d.dirtyAcquires == old(device.d.dirtyAcquires)
      ensures old(frames) != [] ==> frames == old(frames)
      ensures !old(swapchain).Null() ==> !swapchain.Null()
      ensures old(leaked) <= leaked
      ensures r.Done? ==> Complete(device.d, Snap()) && leaked == old(leaked)
      ensures r.Done? ==> swapchain.id >= old(device.d.next) && SurfaceExtent(device.report, want) == Done(extent)
      ensures r.Failed? && old(frames) != [] ==> commandBuffers == []
      ensures r.Failed? ==>
        r.error == match SurfaceExtent(device.report, want) { case Failed(e) => e case Done(_) => Vk }
      ensures r.Failed? ==> r.error != NoCommandBuffer && r.error != NeverReturns
    {
      hide LoopFailed, Ownership, Protocol, VulkanDevice.Valid, SurfaceExtent;
      ClearSwapchain();
      var size := QuerySurface(want);
      SurfaceErrors(device.report, want);
      if size.Failed? { return Failed(size.error); }
      var ok := ReplaceSwapchain();
      if !ok { return Failed(Vk); }
      extent := size.value;
      ok := GetImages();
      if !ok { return Failed(Vk); }
      r := BuildPerImage();
    }

    /** A view, framebuffer and command buffer for each image, the render pass, and the frames. */
    method BuildPerImage() returns (r: Outcome<Unit>)
      requires Valid() && device.d.pending == []
      requires views == framebuffers == commandBuffers == [] && renderPass == NullOf(RenderPass)
      modifies this`views, this`framebuffers, this`renderPass, this`commandBuffers
      modifies this`frames, this`leaked, device`d, device`failed
      ensures Valid() && Quiet(old(device.d), device.d)
      ensures old(frames) != [] ==> frames == old(frames)
      ensures old(leaked) <= leaked
      ensures r.Done? ==> leaked == old(leaked) && frames != [] && !renderPass.Null()
      ensures r.Done? ==> |views| == |framebuffers| == |commandBuffers| == images
      ensures r.Failed? ==> r.error == Vk && (old(frames) != [] ==> commandBuffers == [])
    {
      hide LoopFailed, Ownership, Protocol, VulkanDevice.Valid, Valid;
      var ok := CreateViews();
      if !ok { return Failed(Vk); }
      ok := CreateRenderPass();
      if !ok { return Failed(Vk); }
      ok := CreateFramebuffers();
      if !ok { return Failed(Vk); }
      ok := AllocateCommandBuffers();
      if !ok { return Failed(Vk); }
      ok := CreateFrameSyncs();
      return if ok then Done(Unit) else Failed(Vk);
    }

    /** After a first successful build: what a later failed rebuild leaves is visibly incomplete. */
    ghost predicate Built()
      reads this, device
    {
      frames != [] && !swapchain.Null() && (commandBuffers == [] || Complete(device.d, Snap()))
    }

    /** On failure the context is dropped, and the caller's surface with it. */
    static method New(device: Device, surface: Handle, size: Size)
        returns (r: Outcome<WindowRenderContext>, ghost leaked: set<Handle>)
      requires VulkanDevice.Valid(device.d) && device.d.pending == []
      requires surface in device.d.live && surface.kind == Surface
      modifies device
      ensures device.d.dirtyAcquires == old(device.d.dirtyAcquires)
      ensures r.Done? ==> fresh(r.value) && fresh(r.value.pendingResize)
      ensures r.Done? ==> r.value.device == device && r.value.surface == surface
      ensures r.Done? ==> r.value.Valid() && r.value.Built() && !r.value.held && !r.value.stranded
      ensures r.Done? ==> r.value.state == Ready && r.value.others == old(device.d.live) - {surface}
      ensures r.Done? ==> r.value.failedBefore == old(device.failed)
      ensures Unclean(device) == old(Unclean(device)) && device.mostPending == old(device.mostPending)
      ensures device.calls == old(device.calls)
      ensures r.Done? ==> SurfaceExtent(device.report, size) == Done(r.value.extent)
      ensures r.Done? ==> leaked == r.value.leaked == {} && device.d.pending == [] && Complete(device.d, r.value.Snap())
      ensures r.Failed? ==> device.d.live == old(device.d.live) - {surface} + leaked
      ensures leaked != {} ==> LoopFailed(old(device.failed), device.failed)
    {
      hide Ownership, Protocol;
      var ctx := new WindowRenderContext.Empty(device, surface, size);
      var built := ctx.BuildSwapchain(size);
      if built.Failed? {
        ctx.Drop();
        return Failed(built.error), ctx.leaked;
      }
      ctx.state := Ready;
      r, leaked := Done(ctx), {};
    }

    method Rebuild(size: Size) returns (r: Outcome<TickOutcome>)
      requires Valid() && Built()
      modifies this`swapchain, this`images, this`views, this`framebuffers, this`renderPass, this`commandBuffers
      modifies this`frames, this`extent, this`leaked, this`state, device`d, device`report, device`failed
      ensures Valid() && Built() && device.d.pending == [] && device.d.dirtyAcquires == old(device.d.dirtyAcquires)
      ensures old(leaked) <= leaked
      ensures r.Done? ==>
        r.value == TickOutcome.Recreated && state == Ready && Complete(device.d, Snap()) && leaked == old(leaked)
      ensures r.Done? ==> swapchain.id >= old(device.d.next) && SurfaceExtent(device.report, size) == Done(extent)
      ensures r.Failed? ==> state == Recreating && r.error != NoCommandBuffer && r.error != NeverReturns
      ensures Unclean(device) == old(Unclean(device)) && device.mostPending == old(device.mostPending)
    {
      hide Ownership, Protocol;
      state := Recreating;
      var built := BuildSwapchain(size);
      if built.Failed? { return Failed(built.error); }
      state := Ready;
      r := Done(TickOutcome.Recreated);
    }

    /** The current frame's fence has signaled, and its handles and the swapchain's are live. */
    ghost predicate ImageWanted()
      reads this, device
    {
      && currentFrame < |frames| && swapchain in device.d.live && frames[currentFrame].imageAvailable in device.d.live
      && frames[currentFrame].inFlight in device.d.signaledFences && !Pending(device.d, frames[currentFrame].inFlight)
    }

    /** Waits until the current frame's last submission is done: without end exactly when the frame is held. */
    method WaitForFrame() returns (r: WaitResult)
      requires Valid() && Built()
      modifies device`d, device`calls
      ensures currentFrame < |frames| && device.calls == old(device.calls) + [Waited(frames[currentFrame].inFlight, r)]
      ensures Valid() && Built() && device.d.dirtyAcquires == old(device.d.dirtyAcquires)
      ensures device.d.imageCount == old(device.d.imageCount) && device.d.next == old(device.d.next)
      ensures !r.WaitFailed? ==> (r.Hung? <==> held)
      ensures r.Signaled? ==> ImageWanted() && (Clean(device.d, frames[currentFrame].imageAvailable) <==> !stranded)
    {
      hide Ownership, Protocol, Completed, VulkanDevice.Valid, FrameLists, Clean;
      CurrentFrame(device.d, Snap());
      ghost var was := device.d;
      ghost var k;
      r, k := device.WaitForFence(frames[currentFrame].inFlight);
      CompletedInv(was, Snap(), others, k);
      FrameOwned(device.d, Snap(), others, currentFrame);
      OwnedSwapchain(device.d, Snap(), others);
      if held {
        UnsubmittedFrameHangs(was, Snap(), k);
      } else {
        FenceArrives(was, Snap());
        FenceArrives(device.d, Snap());
        if r.Signaled? {
          CleanUnlessStranded(device.d, Snap(), others);
        }
      }
    }

    /** An acquired image strands its frame until it is handed over. */
    method AcquireImage() returns (r: AcquireResult)
      requires Valid() && Built() && ImageWanted() && !held
      requires Clean(device.d, frames[currentFrame].imageAvailable) <==> !stranded
      modifies this`stranded, device`d, device`suboptimals, device`calls
      ensures device.calls == old(device.calls) + [Acquiring(swapchain, frames[currentFrame].imageAvailable, r)]
      ensures Valid() && Built() && ImageWanted()
      ensures device.d.imageCount == old(device.d.imageCount) && device.d.next == old(device.d.next)
      ensures stranded == (r.Image? || old(stranded))
      ensures device.d.dirtyAcquires == old(device.d.dirtyAcquires) + if r.Image? && old(stranded) then 1 else 0
      ensures device.suboptimals == old(device.suboptimals) + if r.Image? && r.suboptimal then 1 else 0
      ensures r.Image? && swapchain in device.d.imageCount ==> r.index < device.d.imageCount[swapchain]
    {
      hide Ownership, Protocol, VulkanDevice.Valid, Clean;
      ghost var d, c := device.d, Snap();
      r := device.AcquireNextImage(swapchain, frames[currentFrame].imageAvailable);
      if r.Image? {
        stranded := true;
        AcquiredInv(d, c, device.d, Snap(), others);
      }
    }

    /** Resets the fence, which makes the frame held, and finds the image's resources; without them the
        source panics. */
    method HandOver(index: nat) returns (r: Outcome<TickOutcome>)
      requires Valid() && Built() && ImageWanted() && stranded
      requires Complete(device.d, Snap()) ==> index < images
      modifies this`stranded, this`held, device`d, device`failedResets, device`calls
      ensures device.calls == old(device.calls) + [Resetting(old(frames[currentFrame].inFlight), r != Failed(Vk))]
      ensures Valid() && Built()
      ensures device.d.imageCount == old(device.d.imageCount) && device.d.dirtyAcquires == old(device.d.dirtyAcquires)
      ensures device.failedResets == old(device.failedResets) + if r == Failed(Vk) then 1 else 0
      ensures stranded == (r == Failed(Vk)) && held == !stranded
      ensures r.Done? ==> r.value == AcquiredImage(index) && index < |commandBuffers|
      ensures r.Failed? ==> r == Failed(Vk) || (r == Failed(NoCommandBuffer) && !Complete(device.d, Snap()))
    {
      hide Ownership, Protocol, VulkanDevice.Valid;
      ghost var d, c := device.d, Snap();
      StrandedNotHeld(d, c);
      var reset := device.ResetFence(frames[currentFrame].inFlight);
      if !reset { return Failed(Vk); }
      held, stranded := true, false;
      ResetInv(d, c, device.d, Snap(), others);
      if index >= |commandBuffers| || index >= |framebuffers| {
        return Failed(NoCommandBuffer);
      }
      r := Done(AcquiredImage(index));
    }

    /** The part of a tick without a resize. */
    method AcquireFrame() returns (r: Outcome<TickOutcome>, ghost got: bool)
      requires Valid() && Built()
      modifies this, device
      ensures Valid() && Built() && old(leaked) <= leaked
      ensures TickCalls(old(device.calls), device.calls, old(Snap()), r)
      ensures old(Complete(device.d, Snap())) ==> r != Failed(NoCommandBuffer)
      ensures if old(held) then r == Failed(NeverReturns) || r == Failed(Vk) else r != Failed(NeverReturns)
      ensures old(held) ==> !got && Snap() == old(Snap())
      ensures !old(held) ==> held == ((r.Done? && r.value.AcquiredImage?) || r == Failed(NoCommandBuffer))
      ensures device.d.dirtyAcquires == old(device.d.dirtyAcquires) + if got && old(stranded) then 1 else 0
      ensures Unclean(device) == old(Unclean(device)) + if got && stranded then 1 else 0
      ensures !got ==> stranded == old(stranded)
      ensures r.Done? && r.value.AcquiredImage? ==> got && held && r.value.index < |commandBuffers|
      ensures r.Done? && r.value.AcquiredImage? ==>
        leaked == old(leaked) && state == old(state) && Unbuilt(old(Snap()), Snap())
      ensures r.Done? && r.value.Recreated? ==> leaked == old(leaked) && state == Ready && Complete(device.d, Snap())
      ensures r.Done? && r.value.Recreated? ==>
        swapchain.id >= old(device.d.next) && SurfaceExtent(device.report, old(extent)) == Done(extent)
      ensures r.Failed? ==> state == old(state) || state == Recreating
      ensures device.mostPending == old(device.mostPending)
    {
      hide LoopFailed, Ownership, Protocol, Completed, VulkanDevice.Valid, Clean, Valid, TickCalls;
      got := false;
      ghost var before, c := device.calls, Snap();
      var waited := WaitForFrame();
      WaitLogged(before, device.calls, c, waited);
      if waited.WaitFailed? { return Failed(Vk), false; }
      if waited.Hung? { return Failed(NeverReturns), false; }
      var image := AcquireImage();
      if image.AcquireFailed? {
        r := Failed(Vk);
      } else if image.OutOfDate? {
        r := Rebuild(extent);
      } else {
        got := true;
        if image.suboptimal {
          r := Rebuild(extent);
        } else {
          r := HandOver(image.index);
        }
      }
      AcquireLogged(before, device.calls, c, image, r);
    }

    /** `got` says whether the device signaled the frame's image semaphore. It was signaled or in use
        before exactly when the frame was stranded, and the frame gets stranded exactly by a suboptimal
        acquisition or a failed reset. A held frame is waited for without end, unless the wait fails. */
    method Tick() returns (r: Outcome<TickOutcome>, ghost got: bool)
      requires Valid() && Built()
      modifies this, device, pendingResize
      ensures Valid() && Built() && old(leaked) <= leaked
      ensures if old(pendingResize.flag) then device.calls == old(device.calls) && Rebuilding(r)
              else TickCalls(old(device.calls), device.calls, old(Snap()), r)
      ensures old(Complete(device.d, Snap())) ==> r != Failed(NoCommandBuffer)
      ensures !old(pendingResize.flag) ==>
        if old(held) then r == Failed(NeverReturns) || r == Failed(Vk) else r != Failed(NeverReturns)
      ensures old(pendingResize.flag) ==> r != Failed(NeverReturns) && !got && held == old(held)
      ensures !old(pendingResize.flag) && old(held) ==> !got && Snap() == old(Snap())
      ensures !old(pendingResize.flag) && !old(held) ==>
        held == ((r.Done? && r.value.AcquiredImage?) || r == Failed(NoCommandBuffer))
      ensures device.d.dirtyAcquires == old(device.d.dirtyAcquires) + if got && old(stranded) then 1 else 0
      ensures Unclean(device) == old(Unclean(device)) + if got && stranded then 1 else 0
      ensures !got ==> stranded == old(stranded)
      ensures r.Done? && r.value.AcquiredImage? ==> got && held && r.value.index < |commandBuffers|
      ensures r.Done? && r.value.AcquiredImage? ==>
        leaked == old(leaked) && state == old(state) && Unbuilt(old(Snap()), Snap())
      ensures r.Done? && r.value.Recreated? ==>
        leaked == old(leaked) && state == Ready && Complete(device.d, Snap()) && swapchain.id >= old(device.d.next)
      ensures r.Done? && r.value.Recreated? ==>
        var want := if old(pendingResize.flag) then Size(pendingResize.width, pendingResize.height) else old(extent);
        SurfaceExtent(device.report, want) == Done(extent)
      ensures r.Failed? ==> state == old(state) || state == Recreating
      ensures !pendingResize.flag && device.mostPending == old(device.mostPending)
    {
      hide LoopFailed, Ownership, Protocol, Completed, VulkanDevice.Valid, Clean;
      got := false;
      var resize := pendingResize.Take();
      if resize.Some? {
        r := Rebuild(resize.value);
        return;
      }
      r, got := AcquireFrame();
    }

    method Drop()
      requires Owned()
      modifies this, device`d
      ensures device.d.live == others + leaked && leaked == old(leaked)
      ensures leaked != {} ==> LoopFailed(failedBefore, device.failed)
      ensures device.d.dirtyAcquires == old(device.d.dirtyAcquires)
    {
      hide VulkanDevice.Valid, Completed;
      device.WaitIdle();
      SameOwnership(old(device.d), Snap(), device.d, Snap(), others);
      DestroySwapchainResources();
      ghost var c := Snap();
      ghost var emptied := device.d;
      OnlyFramesLeft(emptied, c, others);
      if !swapchain.Null() {
        device.Destroy(swapchain);
      }
      DestroyFrames(device, frames);
      device.Destroy(surface);
      assert device.d.live == emptied.live - OrNothing(swapchain) - FrameHandles(frames) - {surface};
    }

    /** Submits the drawing of image k with the frame's fence and semaphores. */
    method SubmitDrawing(k: nat) returns (ok: bool)
      requires Valid() && Built() && held && k < |commandBuffers|
      modifies device`d, device`mostPending, device`calls
      ensures Complete(old(device.d), Snap())
      ensures device.calls == old(device.calls) + [Submitting(DrawingOf(Snap(), k), ok)]
      ensures currentFrame < |frames| == MAX_FRAMES_IN_FLIGHT && Complete(device.d, Snap()) && k < images
      ensures VulkanDevice.Valid(device.d) && swapchain in device.d.live
      ensures device.d == if ok then Submitted(old(device.d), DrawingOf(Snap(), k)) else old(device.d)
      ensures device.mostPending <= Max(old(device.mostPending), MAX_FRAMES_IN_FLIGHT)
    {
      hide Ownership, Protocol, VulkanDevice.Valid, Pending;
      CanSubmit(device.d, Snap(), others, k);
      AtMostThreeSubmitted(device.d, Snap(), others, DrawingOf(Snap(), k));
      var f := frames[currentFrame];
      var drawing := Submission(f.inFlight, f.imageAvailable, f.renderFinished,
                                {commandBuffers[k], framebuffers[k], views[k], renderPass, swapchain});
      ok := device.QueueSubmit(drawing);
    }

    /** Submission and presentation; a swapchain out of date is still to be rebuilt. */
    method SubmitThenPresent(imageIndex: nat) returns (sent: Sent)
      requires Valid() && Built() && held && imageIndex < |commandBuffers|
      modifies this`currentFrame, this`held, device`d, device`mostPending, device`calls
      ensures SentCalls(old(device.calls), device.calls, old(Snap()), imageIndex, sent)
      ensures Owned() && Built() && (!sent.NotPresented? ==> Valid())
      ensures device.d.dirtyAcquires == old(device.d.dirtyAcquires) && device.d.next == old(device.d.next)
      ensures device.mostPending <= Max(old(device.mostPending), MAX_FRAMES_IN_FLIGHT)
      ensures sent.NotSubmitted? ==> device.d == old(device.d) && Snap() == old(Snap())
      ensures !sent.NotSubmitted? ==> !held && currentFrame == (old(currentFrame) + 1) % MAX_FRAMES_IN_FLIGHT
      ensures !sent.NotSubmitted? && !sent.NotPresented? ==>
        && Complete(old(device.d), old(Snap())) && imageIndex < old(images) && Snap() == NextFrame(old(Snap()))
        && device.d == Presenting(old(device.d), DrawingOf(old(Snap()), imageIndex))
    {
      hide LoopFailed, Ownership, Protocol, VulkanDevice.Valid, Pending, Max;
      ghost var d, c := device.d, Snap();
      var submitted := SubmitDrawing(imageIndex);
      if !submitted { return NotSubmitted; }
      ghost var drawing := DrawingOf(c, imageIndex);
      var presented := device.QueuePresent(swapchain, frames[currentFrame].renderFinished, imageIndex);
      currentFrame := (currentFrame + 1) % |frames|;
      held := false;
      if presented.PresentFailed? {
        SameOwnership(d, c, device.d, Snap(), others);
        return NotPresented;
      }
      assert Snap() == NextFrame(c) && device.d == Presenting(d, drawing);
      PresentedInv(d, c, others, drawing);
      sent := if presented.PresentOutOfDate? then Rebuilt else Shown;
    }

    /** Submits the drawing of the given image for a held frame and presents it; the source panics without
        a command buffer for it. A failed rebuild leaves `state` as it was. */
    method SubmitAndPresent(imageIndex: nat) returns (r: Outcome<Unit>, sent: Sent)
      requires Valid() && Built() && held
      modifies this, device`d, device`report, device`failed, device`mostPending, device`calls
      ensures imageIndex >= old(|commandBuffers|) ==> device.calls == old(device.calls)
      ensures imageIndex < old(|commandBuffers|) ==>
        SentCalls(old(device.calls), device.calls, old(Snap()), imageIndex, sent)
      ensures Owned() && Built() && state == old(state) && old(leaked) <= leaked
      ensures !sent.NotPresented? ==> Valid()
      ensures device.d.dirtyAcquires == old(device.d.dirtyAcquires) && stranded == old(stranded)
      ensures device.mostPending <= Max(old(device.mostPending), MAX_FRAMES_IN_FLIGHT)
      ensures sent.NotSubmitted? ==> device.d == old(device.d) && Snap() == old(Snap())
      ensures sent.NotSubmitted? ==> r == Failed(if imageIndex < |commandBuffers| then Vk else NoCommandBuffer)
      ensures !sent.NotSubmitted? ==> !held && currentFrame == (old(currentFrame) + 1) % MAX_FRAMES_IN_FLIGHT
      ensures sent.NotPresented? ==> r == Failed(Vk)
      ensures sent.Shown? ==> r == Done(Unit) && Snap() == NextFrame(old(Snap()))
      ensures sent.Shown? ==> Complete(old(device.d), old(Snap())) && imageIndex < old(images)
      ensures sent.Shown? ==> device.d == Presenting(old(device.d), DrawingOf(old(Snap()), imageIndex))
      ensures sent.Rebuilt? ==> device.d.pending == []
      ensures sent.Rebuilt? && r.Done? ==> Complete(device.d, Snap()) && leaked == old(leaked)
      ensures sent.Rebuilt? && r.Done? ==>
        swapchain.id >= old(device.d.next) && SurfaceExtent(device.report, old(extent)) == Done(extent)
    {
      hide LoopFailed, Ownership, Protocol, DrawingOf, VulkanDevice.Valid, Presenting, NextFrame,
        SentCalls, Complete, SurfaceExtent;
      if imageIndex >= |commandBuffers| { return Failed(NoCommandBuffer), NotSubmitted; }
      sent := SubmitThenPresent(imageIndex);
      if sent.NotSubmitted? || sent.NotPresented? { return Failed(Vk), sent; }
      if sent.Rebuilt? {
        r := BuildSwapchain(extent);
        return;
      }
      r := Done(Unit);
    }
  }

  /** The events after which an image semaphore is left signaled without an image for the caller. */
  ghost function Unclean(device: Device): nat
    reads device`suboptimals, device`failedResets
  {
    device.suboptimals + device.failedResets
  }

  datatype Event = Resize(size: Size) | Tick | Submit

  /** Between two ticks the caller submits. */
  predicate Disciplined(events: seq<Event>, ticked: bool) {
    events == []
    || match events[0] {
      case Resize(_) => Disciplined(events[1..], ticked)
      case Tick => !ticked && Disciplined(events[1..], true)
      case Submit => Disciplined(events[1..], false)
    }
  }

  /** The image acquired last. */
  function LastAcquired(calls: seq<FrameCall>): Option<nat> {
    if calls == [] then None
    else
      match calls[|calls| - 1]
      case Acquiring(_, _, Image(i, _)) => Some(i)
      case _ => LastAcquired(calls[..|calls| - 1])
  }

  /** Every image shown is the one acquired last before it. */
  ghost predicate ShownAsAcquired(calls: seq<FrameCall>) {
    forall k | 0 <= k < |calls| && calls[k].Showing? :: LastAcquired(calls[..k]) == Some(calls[k].index)
  }

  lemma NothingShown()
    ensures ShownAsAcquired([])
  {
  }

  lemma CallsSnoc(calls: seq<FrameCall>, call: FrameCall)
    requires ShownAsAcquired(calls) && (call.Showing? ==> LastAcquired(calls) == Some(call.index))
    ensures ShownAsAcquired(calls + [call])
    ensures LastAcquired(calls + [call])
         == if call.Acquiring? && call.image.Image? then Some(call.image.index) else LastAcquired(calls)
  {
    var longer := calls + [call];
    assert longer[..|calls|] == calls;
    forall k | 0 <= k < |longer| && longer[k].Showing? ensures LastAcquired(longer[..k]) == Some(longer[k].index) {
      assert longer[..k] == calls[..k];
    }
  }

  /** The calls made since a moment, and one more. */
  lemma SinceSnoc(start: nat, calls: seq<FrameCall>, call: FrameCall)
    requires start <= |calls|
    ensures (calls + [call])[start..] == calls[start..] + [call]
  {
  }

  lemma TickShows(start: nat, before: seq<FrameCall>, after: seq<FrameCall>, c: Held, r: Outcome<TickOutcome>)
    requires start <= |before| && ShownAsAcquired(before[start..]) && TickCalls(before, after, c, r)
    ensures before <= after && ShownAsAcquired(after[start..])
    ensures r.Done? && r.value.AcquiredImage? ==> LastAcquired(after[start..]) == Some(r.value.index)
  {
    hide ShownAsAcquired, LastAcquired;
    var f := c.frames[c.currentFrame];
    var calls := before;
    forall call: FrameCall | !call.Showing? ensures ShownAsAcquired(before[start..] + [call]) {
      CallsSnoc(before[start..], call);
    }
    if image :| AcquireCalls(before, after, f, c.swapchain, image, r) {
      var waited, acquiring := Waited(f.inFlight, Signaled), Acquiring(c.swapchain, f.imageAvailable, image);
      SinceSnoc(start, before, waited);
      CallsSnoc(before[start..], waited);
      var first := before + [waited];
      SinceSnoc(start, first, acquiring);
      CallsSnoc(first[start..], acquiring);
      var second := first + [acquiring];
      var resetting := Resetting(f.inFlight, r != Failed(Vk));
      SinceSnoc(start, second, resetting);
      CallsSnoc(second[start..], resetting);
    } else {
      var last := after[|before|];
      SinceSnoc(start, before, last);
    }
  }

  lemma SentShows(start: nat, before: seq<FrameCall>, after: seq<FrameCall>, c: Held, i: nat, sent: Sent)
    requires start <= |before| && ShownAsAcquired(before[start..]) && SentCalls(before, after, c, i, sent)
    requires LastAcquired(before[start..]) == Some(i)
    ensures before <= after && ShownAsAcquired(after[start..])
  {
    hide ShownAsAcquired, LastAcquired;
    var first := after[|before|];
    SinceSnoc(start, before, first);
    CallsSnoc(before[start..], first);
    if !sent.NotSubmitted? {
      var submitted := before + [first];
      var shown := after[|before| + 1];
      SinceSnoc(start, submitted, shown);
      CallsSnoc(submitted[start..], shown);
    }
  }

  /** The run goes on with the image the caller holds, is over, or waits without end. */
  datatype Turn = GoOn(image: Option<nat>) | Over | Hanging

  /** Acquisitions on a semaphore in use, one more for a stranded frame, less what strands one. */
  ghost function Balance(ctx: WindowRenderContext): int
    reads ctx, ctx.device
  {
    ctx.device.d.dirtyAcquires + (if ctx.stranded then 1 else 0) - Unclean(ctx.device)
  }

  /** Nothing but acquired images was shown since a moment, and the caller's image is the last one. */
  ghost predicate Honest(start: nat, calls: seq<FrameCall>, image: Option<nat>) {
    start <= |calls| && ShownAsAcquired(calls[start..]) && (image.Some? ==> LastAcquired(calls[start..]) == image)
  }

  /** One event of a session. */
  method Play(ctx: WindowRenderContext, event: Event, image: Option<nat>, ghost start: nat) returns (turn: Turn)
    requires ctx.Valid() && ctx.Built() && (image.Some? ==> ctx.held)
    requires Honest(start, ctx.device.calls, image)
    modifies ctx, ctx.device, ctx.pendingResize
    ensures ctx.Owned() && Balance(ctx) == old(Balance(ctx))
    ensures ctx.device.mostPending <= Max(old(ctx.device.mostPending), MAX_FRAMES_IN_FLIGHT)
    ensures old(ctx.device.calls) <= ctx.device.calls
    ensures Honest(start, ctx.device.calls, if turn.GoOn? then turn.image else None)
    ensures turn.GoOn? ==> ctx.Valid() && ctx.Built() && (turn.image.Some? ==> ctx.held)
    ensures event.Resize? ==> turn == GoOn(image) && ctx.held == old(ctx.held)
    ensures event.Tick? && !old(ctx.held) ==> !turn.Hanging? && (turn.GoOn? ==> ctx.held == turn.image.Some?)
    ensures event.Submit? ==> !turn.Hanging? && (turn.GoOn? ==> turn.image.None?)
    ensures event.Submit? && image.Some? && turn.GoOn? ==> !ctx.held
    ensures event.Submit? && image.None? ==> turn.GoOn? && ctx.held == old(ctx.held)
  {
    hide Ownership, Protocol, Complete, VulkanDevice.Valid, LoopFailed, TickCalls, SentCalls;
    hide ShownAsAcquired, LastAcquired;
    ghost var calls, c, flag := ctx.device.calls, ctx.Snap(), ctx.pendingResize.flag;
    match event
    case Resize(s) =>
      ctx.pendingResize.Request(s.width, s.height);
      turn := GoOn(image);
    case Tick =>
      var t, got := ctx.Tick();
      if !flag {
        TickShows(start, calls, ctx.device.calls, c, t);
      }
      if t == Failed(NeverReturns) { return Hanging; }
      if t == Failed(NoCommandBuffer) { return Over; }
      turn := GoOn(if t.Done? && t.value.AcquiredImage? then Some(t.value.index) else None);
    case Submit =>
      if image.None? { return GoOn(None); }
      var shown, sent := ctx.SubmitAndPresent(image.value);
      if image.value < |c.commandBuffers| {
        SentShows(start, calls, ctx.device.calls, c, image.value, sent);
      }
      turn := if sent.NotSubmitted? || sent.NotPresented? then Over else GoOn(None);
  }

  /** A whole life of a context under any events, up to a failed submission or presentation, a panic or
      a wait without end: the device's demands are met at every step and at most three submissions are
      ever pending; an image is acquired on a semaphore in use once for every suboptimal acquisition and
      failed reset, but for the last if nothing was acquired on its frame again; a caller that submits
      between ticks never waits without end; and in the end the context's handles are all gone but those
      that a loop dropped when a creation of its kind failed. */
  method Session(device: Device, surface: Handle, size: Size, events: seq<Event>)
      returns (hung: bool, ghost leaked: set<Handle>)
    requires VulkanDevice.Valid(device.d) && device.d.pending == []
    requires surface in device.d.live && surface.kind == Surface
    modifies device
    ensures device.mostPending <= Max(old(device.mostPending), MAX_FRAMES_IN_FLIGHT)
    ensures device.d.dirtyAcquires - old(device.d.dirtyAcquires) <= Unclean(device) - old(Unclean(device))
      <= device.d.dirtyAcquires - old(device.d.dirtyAcquires) + 1
    ensures Disciplined(events, false) ==> !hung
    ensures old(device.calls) <= device.calls && ShownAsAcquired(device.calls[|old(device.calls)|..])
    ensures !hung ==> device.d.live == old(device.d.live) - {surface} + leaked
    ensures leaked != {} ==> LoopFailed(old(device.failed), device.failed)
  {
    hide Ownership, Protocol, Complete, VulkanDevice.Valid, LoopFailed, ShownAsAcquired, LastAcquired;
    hung := false;
    var made, dropped := WindowRenderContext.New(device, surface, size);
    NothingShown();
    assert device.calls[|device.calls|..] == [];
    if made.Failed? {
      return false, dropped;
    }
    var ctx, image, ticked := made.value, None, false;
    ghost var start := |device.calls|;
    assert events[0..] == events;
    for i := 0 to |events|
      invariant fresh(ctx) && fresh(ctx.pendingResize) && ctx.device == device
      invariant ctx.others == old(device.d.live) - {surface} && ctx.failedBefore == old(device.failed)
      invariant ctx.Valid() && ctx.Built() && (image.Some? ==> ctx.held)
      invariant device.mostPending <= Max(old(device.mostPending), MAX_FRAMES_IN_FLIGHT)
      invariant Balance(ctx) == old(device.d.dirtyAcquires) - old(Unclean(device))
      invariant old(device.calls) <= device.calls && Honest(start, device.calls, image)
      invariant Disciplined(events, false) ==> Disciplined(events[i..], ticked) && (ctx.held ==> ticked && image.Some?)
    {
      assert events[i..][1..] == events[i + 1..];
      var turn := Play(ctx, events[i], image, start);
      if turn.Hanging? { return true, ctx.leaked; }
      if turn.Over? { break; }
      image := turn.image;
      ticked := if events[i].Resize? then ticked else events[i].Tick?;
    }
    ctx.Drop();
    return false, ctx.leaked;
  }

  ghost predicate Quiet(d: DeviceState, e: DeviceState) {
    e.pending == d.pending && e.dirtyAcquires == d.dirtyAcquires && e.imageCount == d.imageCount
  }
}
