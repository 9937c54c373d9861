/** The window render context of src/vulkan_backend/state_machine.rs over the abstract device:
    who owns which handle, and how fences and semaphores travel through a frame. */
module WindowSwapchain {
  import opened Wrappers
  import opened VulkanDevice
  import opened ResizeMailbox

  const MAX_FRAMES_IN_FLIGHT := 3

  /** `CrossedBounds` and `NoCommandBuffer` stand for the panics of a clamp whose bounds are crossed
      and of an index past the command buffers or framebuffers, `NeverReturns` for a wait without end. */
  datatype SwapchainError =
    | Vk
    | NoSurfaceFormats
    | NoPresentModes
    | ZeroExtent
    | CrossedBounds
    | NoCommandBuffer
    | NeverReturns

  datatype Outcome<+T> = Done(value: T) | Failed(error: SwapchainError)

  datatype FrameSync = FrameSync(imageAvailable: Handle, renderFinished: Handle, inFlight: Handle)

  datatype WindowRenderState = Uninitialized | Ready | Recreating | Lost

  datatype TickOutcome = Recreated | AcquiredImage(index: nat)

  datatype Unit = Unit

  /** The width of a surface that leaves its extent to the swapchain. */
  const ANY_WIDTH := 0xFFFF_FFFF

  predicate Within(x: nat, low: nat, high: nat) { low <= x <= high }

  /** Clamping with crossed bounds panics. */
  function Clamp(x: nat, low: nat, high: nat): (r: Outcome<nat>)
    ensures r.Done? <==> low <= high
    ensures r.Done? ==> Within(r.value, low, high) && (Within(x, low, high) ==> r.value == x)
    ensures r.Done? ==> forall y | Within(y, low, high) :: x <= r.value <= y || x >= r.value >= y
  {
    if low > high then Failed(CrossedBounds) else Done(if x < low then low else if x > high then high else x)
  }

  function ChooseExtent(caps: Caps, want: Size): Outcome<Size> {
    if caps.current.width != ANY_WIDTH then NonZero(caps.current)
    else
      match Clamp(want.width, caps.minExtent.width, caps.maxExtent.width)
      case Failed(e) => Failed(e)
      case Done(w) =>
        match Clamp(want.height, caps.minExtent.height, caps.maxExtent.height)
        case Failed(e) => Failed(e)
        case Done(h) => NonZero(Size(w, h))
  }

  /** The extent for the new swapchain, or the first thing that stands in its way. */
  function SurfaceExtent(report: Report, want: Size): Outcome<Size> {
    match report.caps
    case None => Failed(Vk)
    case Some(caps) =>
      if report.formats.None? then Failed(Vk)
      else if report.formats.value == 0 then Failed(NoSurfaceFormats)
      else if report.modes.None? then Failed(Vk)
      else if report.modes.value == 0 then Failed(NoPresentModes)
      else ChooseExtent(caps, want)
  }

  /** Each error has its cause: the first query that fails or comes back empty, crossed bounds, a zero side. */
  lemma SurfaceErrors(report: Report, want: Size)
    ensures var r := SurfaceExtent(report, want);
      && (r == Failed(Vk) <==>
            report.caps.None? || report.formats.None? || (report.formats.value > 0 && report.modes.None?))
      && (r == Failed(NoSurfaceFormats) <==> report.caps.Some? && report.formats == Some(0))
      && (r == Failed(NoPresentModes) <==>
            report.caps.Some? && report.formats.Some? && report.formats.value > 0 && report.modes == Some(0))
      && (r.Failed? ==> r.error in {Vk, NoSurfaceFormats, NoPresentModes, CrossedBounds, ZeroExtent})
  {
  }

  /** A surface that leaves the extent open gets the wanted size brought within its bounds, and exactly
      that size if it lies within them; any other surface gets its own. It fails on crossed bounds of an
      open extent, and otherwise on a side that comes out as zero. */
  lemma ExtentChosen(caps: Caps, want: Size)
    ensures var free := caps.current.width == ANY_WIDTH;
      var crossed := caps.minExtent.width > caps.maxExtent.width || caps.minExtent.height > caps.maxExtent.height;
      var r := ChooseExtent(caps, want);
      && (r == Failed(CrossedBounds) <==> free && crossed)
      && (r == Failed(ZeroExtent) <==>
            if free then !crossed && (Nothing(want.width, caps.minExtent.width, caps.maxExtent.width)
                                      || Nothing(want.height, caps.minExtent.height, caps.maxExtent.height))
            else caps.current.width == 0 || caps.current.height == 0)
      && (r.Failed? ==> r.error == CrossedBounds || r.error == ZeroExtent)
    ensures ChooseExtent(caps, want).Done? ==>
      var e := ChooseExtent(caps, want).value;
      && e.width > 0 && e.height > 0
      && (caps.current.width != ANY_WIDTH ==> e == caps.current)
      && (caps.current.width == ANY_WIDTH ==>
            && Within(e.width, caps.minExtent.width, caps.maxExtent.width)
            && Within(e.height, caps.minExtent.height, caps.maxExtent.height)
            && (Within(want.width, caps.minExtent.width, caps.maxExtent.width) ==> e.width == want.width)
            && (Within(want.height, caps.minExtent.height, caps.maxExtent.height) ==> e.height == want.height))
  {
  }

  /** Brought within the bounds, the side vanishes. */
  predicate Nothing(want: nat, low: nat, high: nat) { high == 0 || (want == 0 && low == 0) }

  function NonZero(size: Size): (r: Outcome<Size>)
    ensures r.Done? <==> size.width > 0 && size.height > 0
    ensures if r.Done? then r.value == size else r.error == ZeroExtent
  {
    if size.width == 0 || size.height == 0 then Failed(ZeroExtent) else Done(size)
  }

  /** The handles a context holds, and its ghost record: the handles a failed creation loop dropped,
      whether the current frame's image semaphore was left signaled by a tick that acquired no image
      for its caller, and whether the frame's fence was reset and nothing submitted for it since. */
  datatype Held = Held(
    surface: Handle,
    swapchain: Handle,
    images: nat,
    views: seq<Handle>,
    framebuffers: seq<Handle>,
    renderPass: Handle,
    commandBuffers: seq<Handle>,
    frames: seq<FrameSync>,
    currentFrame: nat,
    leaked: set<Handle>,
    stranded: bool,
    held: bool)

  function Availables(frames: seq<FrameSync>): seq<Handle> {
    seq(|frames|, i requires 0 <= i < |frames| => frames[i].imageAvailable)
  }

  function Finisheds(frames: seq<FrameSync>): seq<Handle> {
    seq(|frames|, i requires 0 <= i < |frames| => frames[i].renderFinished)
  }

  function InFlights(frames: seq<FrameSync>): seq<Handle> {
    seq(|frames|, i requires 0 <= i < |frames| => frames[i].inFlight)
  }

  /** The context is responsible for destroying the handle. */
  predicate Owns(c: Held, h: Handle) {
    match h.kind
    case Surface => h == c.surface
    case Swapchain => h == c.swapchain && !h.Null()
    case View => h in c.views
    case RenderPass => h == c.renderPass && !h.Null()
    case Framebuffer => h in c.framebuffers
    case CommandBuffer => h in c.commandBuffers
    case Available => h in Availables(c.frames)
    case Finished => h in Finisheds(c.frames)
    case Fence => h in InFlights(c.frames)
  }

  /** Every list holds handles of its kind, each once. */
  ghost predicate Lists(c: Held) {
    && c.surface.kind == Surface && c.swapchain.kind == Swapchain && c.renderPass.kind == RenderPass
    && (forall h <- c.views :: h.kind == View) && Distinct(c.views)
    && (forall h <- c.framebuffers :: h.kind == Framebuffer) && Distinct(c.framebuffers)
    && (forall h <- c.commandBuffers :: h.kind == CommandBuffer) && Distinct(c.commandBuffers)
    && FrameLists(c.frames)
  }

  ghost predicate FrameLists(frames: seq<FrameSync>) {
    && (forall i | 0 <= i < |frames| ::
          frames[i].imageAvailable.kind == Available && frames[i].renderFinished.kind == Finished
          && frames[i].inFlight.kind == Fence)
    && (forall i, j | 0 <= i < j < |frames| ::
          frames[i].imageAvailable != frames[j].imageAvailable && frames[i].renderFinished != frames[j].renderFinished
          && frames[i].inFlight != frames[j].inFlight)
  }

  /** The live handles are exactly those others own, those leaked, and those the context owns. */
  ghost predicate Ownership(d: DeviceState, c: Held, others: set<Handle>) {
    && Lists(c)
    && (forall h <- d.live :: h in others || h in c.leaked || Owns(c, h))
    && (forall h <- others + c.leaked :: h in d.live && !Owns(c, h))
    && (forall h :: Owns(c, h) ==> h in d.live)
    && others !! c.leaked
  }

  /** Every pending submission belongs to a frame, and no two to the same one. */
  ghost predicate PendingByFrame(d: DeviceState, c: Held) {
    && (forall k | 0 <= k < |d.pending| :: OfSomeFrame(d.pending[k], c.frames))
    && (forall j, k | 0 <= j < k < |d.pending| :: d.pending[j].fence != d.pending[k].fence)
  }

  ghost predicate OfSomeFrame(s: Submission, frames: seq<FrameSync>) {
    exists i :: 0 <= i < |frames| && SubmissionOf(s, frames[i])
  }

  ghost predicate SubmissionOf(s: Submission, f: FrameSync) {
    s.fence == f.inFlight && s.wait == f.imageAvailable && s.signal == f.renderFinished
  }

  /** Frame i between frames: its fence is signaled or on its way, its semaphores are unsignaled, and
      only the current frame's image semaphore can be signaled. */
  ghost predicate FrameReady(d: DeviceState, c: Held, i: nat)
    requires i < |c.frames|
  {
    var f := c.frames[i];
    && f.renderFinished !in d.signaledSems
    && (f.inFlight in d.signaledFences ==> !Pending(d, f.inFlight))
    && if i == c.currentFrame && c.held then
         f.inFlight !in d.signaledFences && !Pending(d, f.inFlight) && f.imageAvailable in d.signaledSems
       else
         && (f.inFlight in d.signaledFences || Pending(d, f.inFlight))
         && (f.imageAvailable in d.signaledSems <==> i == c.currentFrame && c.stranded)
  }

  ghost predicate Protocol(d: DeviceState, c: Held) {
    && (c.frames == [] || (|c.frames| == MAX_FRAMES_IN_FLIGHT && c.currentFrame < MAX_FRAMES_IN_FLIGHT))
    && PendingByFrame(d, c)
    && (forall i | 0 <= i < |c.frames| :: FrameReady(d, c, i))
    && (c.frames == [] ==> !c.held && !c.stranded)
    && (c.held ==> !c.stranded)
  }

  ghost predicate Inv(d: DeviceState, c: Held, others: set<Handle>) {
    VulkanDevice.Valid(d) && Ownership(d, c, others) && Protocol(d, c)
  }

  /** The per-swapchain resources are all there, one for each image. */
  ghost predicate Complete(d: DeviceState, c: Held) {
    && !c.swapchain.Null() && !c.renderPass.Null() && c.frames != []
    && c.swapchain in d.imageCount && d.imageCount[c.swapchain] == c.images
    && |c.views| == |c.framebuffers| == |c.commandBuffers| == c.images
  }

  // ----- consequences -----

  lemma FrameOf(d: DeviceState, c: Held, k: nat) returns (i: nat)
    requires PendingByFrame(d, c) && k < |d.pending|
    ensures i < |c.frames| && SubmissionOf(d.pending[k], c.frames[i])
  {
    assert OfSomeFrame(d.pending[k], c.frames);
    var f :| 0 <= f < |c.frames| && SubmissionOf(d.pending[k], c.frames[f]);
    i := f;
  }

  /** At most three submissions are in flight. */
  lemma AtMostThreeInFlight(d: DeviceState, c: Held)
    requires Protocol(d, c)
    ensures |d.pending| <= MAX_FRAMES_IN_FLIGHT
  {
    if |d.pending| > MAX_FRAMES_IN_FLIGHT {
      var a := FrameOf(d, c, 0);
      var b := FrameOf(d, c, 1);
      var e := FrameOf(d, c, 2);
      var f := FrameOf(d, c, 3);
    }
  }

  /** The image semaphore of the current frame can be handed to an acquisition exactly when no earlier
      tick of the frame left it signaled, once the frame's fence has signaled. */
  lemma CleanUnlessStranded(d: DeviceState, c: Held, others: set<Handle>)
    requires Inv(d, c, others) && c.frames != [] && !c.held
    requires c.frames[c.currentFrame].inFlight in d.signaledFences
    ensures Clean(d, c.frames[c.currentFrame].imageAvailable) <==> !c.stranded
  {
    var f := c.frames[c.currentFrame];
    assert FrameReady(d, c, c.currentFrame);
    forall s <- d.pending ensures s.wait != f.imageAvailable {
      var k :| 0 <= k < |d.pending| && d.pending[k] == s;
      var i := FrameOf(d, c, k);
      assert i != c.currentFrame;
    }
  }

  /** Until something is submitted for a held frame, no completion of pending work signals its fence. */
  lemma UnsubmittedFrameHangs(d: DeviceState, c: Held, k: nat)
    requires Protocol(d, c) && c.held && k <= |d.pending|
    ensures c.frames != [] && c.currentFrame < |c.frames|
    ensures var fence := c.frames[c.currentFrame].inFlight;
      fence !in Completed(d, k).signaledFences && !Pending(Completed(d, k), fence)
  {
    CompletedKeeps(d, c, k);
    assert FrameReady(Completed(d, k), c, c.currentFrame);
  }

  // ----- how device changes carry the invariants -----

  lemma Gained(d: DeviceState, c: Held, e: DeviceState, g: Held, others: set<Handle>, made: set<Handle>)
    requires Ownership(d, c, others) && Lists(g) && g.leaked == c.leaked
    requires made !! d.live && e.live == d.live + made
    requires forall h :: Owns(g, h) <==> Owns(c, h) || h in made
    ensures Ownership(e, g, others)
  {
    hide Owns, Lists;
  }

  lemma Dropped(d: DeviceState, c: Held, e: DeviceState, g: Held, others: set<Handle>, gone: set<Handle>)
    requires Ownership(d, c, others) && Lists(g) && g.leaked == c.leaked
    requires e.live == d.live - gone && forall h <- gone :: Owns(c, h)
    requires forall h :: Owns(g, h) <==> Owns(c, h) && h !in gone
    ensures Ownership(e, g, others)
  {
    hide Owns, Lists;
  }

  lemma LostHandles(d: DeviceState, c: Held, e: DeviceState, g: Held, others: set<Handle>, made: set<Handle>)
    requires Ownership(d, c, others) && g == c.(leaked := c.leaked + made)
    requires made !! d.live && e.live == d.live + made
    ensures Ownership(e, g, others)
  {
    assert Lists(g);
    assert forall h :: Owns(g, h) <==> Owns(c, h);
    hide Owns, Lists;
  }

  lemma BatchFresh(d: DeviceState, kind: Kind, n: nat)
    requires VulkanDevice.Valid(d)
    ensures Elems(Batch(kind, d.next, n)) !! d.live && Distinct(Batch(kind, d.next, n))
    ensures VulkanDevice.Valid(Created(d, kind, n))
  {
  }

  /** Completing submissions signals their fences and keeps the protocol. */
  lemma CompletedKeeps(d: DeviceState, c: Held, k: nat)
    requires Protocol(d, c) && k <= |d.pending|
    ensures Protocol(Completed(d, k), c)
  {
    var e := Completed(d, k);
    forall j | 0 <= j < |e.pending| ensures OfSomeFrame(e.pending[j], c.frames) {
      var i := FrameOf(d, c, j + k);
    }
    forall i | 0 <= i < |c.frames| ensures FrameReady(e, c, i) {
      assert FrameReady(d, c, i);
      var fence := c.frames[i].inFlight;
      if Pending(d, fence) {
        var s :| s in d.pending && s.fence == fence;
        var p :| 0 <= p < |d.pending| && d.pending[p] == s;
        if p < k {
          assert d.pending[..k][p] == s;
          assert fence in e.signaledFences;
        } else {
          assert e.pending[p - k] == s;
          assert fence !in Fences(d.pending[..k]);
        }
      } else {
        assert fence !in Fences(d.pending[..k]);
        assert !Pending(e, fence);
      }
    }
  }

  /** The protocol looks only at the frames, the pending submissions and what is signaled. */
  lemma SameProtocol(d: DeviceState, c: Held, e: DeviceState, g: Held)
    requires Protocol(d, c) && FrameLists(c.frames)
    requires g.frames == c.frames && g.currentFrame == c.currentFrame && g.stranded == c.stranded && g.held == c.held
    requires e.pending == d.pending && e.signaledSems == d.signaledSems
    requires forall f <- c.frames :: f.inFlight in e.signaledFences <==> f.inFlight in d.signaledFences
    ensures Protocol(e, g)
  {
    forall k | 0 <= k < |e.pending| ensures OfSomeFrame(e.pending[k], g.frames) {
      var i := FrameOf(d, c, k);
    }
    forall i | 0 <= i < |g.frames| ensures FrameReady(e, g, i) {
      assert FrameReady(d, c, i);
      assert Pending(d, c.frames[i].inFlight) == Pending(e, c.frames[i].inFlight);
    }
  }

  /** Three new frames: fences signaled, semaphores not. */
  lemma NewFramesProtocol(d: DeviceState, c: Held)
    requires |c.frames| == MAX_FRAMES_IN_FLIGHT && c.currentFrame < |c.frames| && !c.held && !c.stranded
    requires d.pending == []
    requires forall f <- c.frames ::
      f.inFlight in d.signaledFences && f.imageAvailable !in d.signaledSems && f.renderFinished !in d.signaledSems
    ensures Protocol(d, c)
  {
    forall i | 0 <= i < |c.frames| ensures FrameReady(d, c, i) {
      assert c.frames[i] in c.frames;
    }
  }

  /** An acquisition leaves the image semaphore signaled. Until its fence is reset the frame is stranded. */
  lemma AcquiredKeeps(d: DeviceState, c: Held, e: DeviceState, g: Held)
    requires Protocol(d, c) && FrameLists(c.frames) && !c.held && c.frames != []
    requires g == c.(stranded := true) && e == Acquired(d, c.frames[c.currentFrame].imageAvailable)
    requires c.frames[c.currentFrame].inFlight in d.signaledFences
    ensures Protocol(e, g)
  {
    hide SubmissionOf;
    forall i | 0 <= i < |g.frames| ensures FrameReady(e, g, i) {
      assert FrameReady(d, c, i) && FrameReady(d, c, c.currentFrame);
      assert c.frames[i].renderFinished.kind == Finished;
    }
  }

  /** Resetting the fence of a stranded frame makes it held. */
  lemma ResetKeeps(d: DeviceState, c: Held, e: DeviceState, g: Held)
    requires Protocol(d, c) && FrameLists(c.frames) && c.stranded
    requires g == c.(stranded := false, held := true)
    requires var fence := c.frames[c.currentFrame].inFlight;
      fence in d.signaledFences && e == d.(signaledFences := d.signaledFences - {fence})
    ensures Protocol(e, g)
  {
    hide SubmissionOf;
    forall i | 0 <= i < |g.frames| ensures FrameReady(e, g, i) {
      assert FrameReady(d, c, i) && FrameReady(d, c, c.currentFrame);
    }
  }

  /** What a successful submission and presentation leave. */
  function Presenting(d: DeviceState, s: Submission): DeviceState {
    var submitted := Submitted(d, s);
    submitted.(signaledSems := submitted.signaledSems - {s.signal})
  }

  function NextFrame(c: Held): Held
    requires |c.frames| == MAX_FRAMES_IN_FLIGHT
  {
    c.(held := false, currentFrame := (c.currentFrame + 1) % MAX_FRAMES_IN_FLIGHT)
  }

  lemma PresentedKeeps(d: DeviceState, c: Held, s: Submission)
    requires Protocol(d, c) && FrameLists(c.frames) && c.held && SubmissionOf(s, c.frames[c.currentFrame])
    ensures |c.frames| == MAX_FRAMES_IN_FLIGHT && Protocol(Presenting(d, s), NextFrame(c))
  {
    var e, g := Presenting(d, s), NextFrame(c);
    assert FrameReady(d, c, c.currentFrame);
    forall k | 0 <= k < |e.pending| ensures OfSomeFrame(e.pending[k], g.frames) {
      if k < |d.pending| {
        var i := FrameOf(d, c, k);
      }
    }
    forall i | 0 <= i < |g.frames| ensures FrameReady(e, g, i) {
      assert FrameReady(d, c, i);
      assert s in e.pending;
      assert c.frames[i].imageAvailable.kind != s.signal.kind && c.frames[i].renderFinished.kind != s.wait.kind;
    }
  }

  // ----- the phases of a rebuild -----

  function NullOf(kind: Kind): Handle { Handle(kind, 0) }

  /** The context without its per-swapchain handles, and those handles. */
  function Emptied(c: Held): Held {
    c.(views := [], framebuffers := [], commandBuffers := [], renderPass := NullOf(RenderPass), images := 0)
  }

  function OrNothing(h: Handle): set<Handle> { if h.Null() then {} else {h} }

  function SwapchainResources(c: Held): set<Handle> {
    Elems(c.commandBuffers) + Elems(c.framebuffers) + OrNothing(c.renderPass) + Elems(c.views)
  }

  lemma OwnedSwapchain(d: DeviceState, c: Held, others: set<Handle>)
    requires Ownership(d, c, others)
    ensures OrNothing(c.swapchain) <= d.live
  {
    assert !c.swapchain.Null() ==> Owns(c, c.swapchain);
  }

  lemma NoElems()
    ensures Elems([]) == {}
  {
  }

  lemma ResourcesOwned(d: DeviceState, c: Held, others: set<Handle>)
    requires Ownership(d, c, others)
    ensures SwapchainResources(c) <= d.live && c.renderPass.kind == RenderPass
    ensures Distinct(c.commandBuffers) && Distinct(c.framebuffers) && Distinct(c.views)
    ensures Elems(c.commandBuffers) !! Elems(c.framebuffers) !! OrNothing(c.renderPass) !! Elems(c.views)
  {
    assert forall h <- SwapchainResources(c) :: Owns(c, h);
  }

  lemma EmptiedKeeps(d: DeviceState, c: Held, e: DeviceState, others: set<Handle>)
    requires Ownership(d, c, others) && e.live == d.live - SwapchainResources(c)
    ensures Ownership(e, Emptied(c), others)
  {
    assert forall h <- SwapchainResources(c) :: Owns(c, h);
    Dropped(d, c, e, Emptied(c), others, SwapchainResources(c));
  }

  lemma EmptiedInv(d: DeviceState, c: Held, e: DeviceState, others: set<Handle>)
    requires Inv(d, c, others) && VulkanDevice.Valid(e) && Ownership(e, Emptied(c), others)
    requires e == Completed(d, |d.pending|).(live := e.live)
    ensures Inv(e, Emptied(c), others)
  {
    CompletedKeeps(d, c, |d.pending|);
    SameProtocol(Completed(d, |d.pending|), c, e, Emptied(c));
  }

  lemma ImagesKnown(d: DeviceState, c: Held, e: DeviceState, others: set<Handle>, n: nat)
    requires Inv(d, c, others) && e == d.(imageCount := e.imageCount)
    ensures Inv(e, c.(images := n), others)
  {
    Gained(d, c, e, c.(images := n), others, {});
    SameProtocol(d, c, e, c.(images := n));
  }

  lemma ViewsMade(d: DeviceState, c: Held, others: set<Handle>, n: nat)
    requires Inv(d, c, others) && c.views == []
    ensures Inv(Created(d, View, n), c.(views := Batch(View, d.next, n)), others)
  {
    var e, g := Created(d, View, n), c.(views := Batch(View, d.next, n));
    BatchFresh(d, View, n);
    Gained(d, c, e, g, others, Elems(g.views));
    SameProtocol(d, c, e, g);
  }

  lemma FramebuffersMade(d: DeviceState, c: Held, others: set<Handle>, n: nat)
    requires Inv(d, c, others) && c.framebuffers == []
    ensures Inv(Created(d, Framebuffer, n), c.(framebuffers := Batch(Framebuffer, d.next, n)), others)
  {
    var e, g := Created(d, Framebuffer, n), c.(framebuffers := Batch(Framebuffer, d.next, n));
    BatchFresh(d, Framebuffer, n);
    Gained(d, c, e, g, others, Elems(g.framebuffers));
    SameProtocol(d, c, e, g);
  }

  lemma CommandBuffersMade(d: DeviceState, c: Held, others: set<Handle>, n: nat)
    requires Inv(d, c, others) && c.commandBuffers == []
    ensures Inv(Created(d, CommandBuffer, n), c.(commandBuffers := Batch(CommandBuffer, d.next, n)), others)
  {
    var e, g := Created(d, CommandBuffer, n), c.(commandBuffers := Batch(CommandBuffer, d.next, n));
    BatchFresh(d, CommandBuffer, n);
    Gained(d, c, e, g, others, Elems(g.commandBuffers));
    SameProtocol(d, c, e, g);
  }

  lemma RenderPassMade(d: DeviceState, c: Held, others: set<Handle>)
    requires Inv(d, c, others) && c.renderPass.Null()
    ensures var h := Handle(RenderPass, d.next);
      Inv(WithHandle(d, h), c.(renderPass := h), others)
  {
    var h := Handle(RenderPass, d.next);
    Gained(d, c, WithHandle(d, h), c.(renderPass := h), others, {h});
    SameProtocol(d, c, WithHandle(d, h), c.(renderPass := h));
  }

  lemma SwapchainOwned(d: DeviceState, c: Held, others: set<Handle>, h: Handle, e: DeviceState)
    requires Ownership(d, c, others) && h.kind == Swapchain && !h.Null() && h !in d.live
    requires e.live == d.live + {h} - OrNothing(c.swapchain)
    ensures Ownership(e, c.(swapchain := h), others)
  {
    hide FrameLists;
    var rest := d.(live := d.live - OrNothing(c.swapchain));
    var bare := c.(swapchain := NullOf(Swapchain));
    Dropped(d, c, rest, bare, others, OrNothing(c.swapchain));
    Gained(rest, bare, e, c.(swapchain := h), others, {h});
  }

  /** A new swapchain takes the place of the old one, which is destroyed. */
  lemma SwapchainMade(d: DeviceState, c: Held, others: set<Handle>)
    requires Inv(d, c, others)
    ensures var h := Handle(Swapchain, d.next); var made := WithHandle(d, h);
      Inv(made.(live := made.live - OrNothing(c.swapchain)), c.(swapchain := h), others)
  {
    hide Protocol;
    var h := Handle(Swapchain, d.next);
    var made := WithHandle(d, h);
    var e := made.(live := made.live - OrNothing(c.swapchain));
    SwapchainOwned(d, c, others, h, e);
    SameProtocol(d, c, e, c.(swapchain := h));
  }

  lemma HandlesLost(d: DeviceState, c: Held, e: DeviceState, others: set<Handle>, made: set<Handle>)
    requires Inv(d, c, others)
    requires made !! d.live && e.live == d.live + made && VulkanDevice.Valid(e)
    requires e.pending == d.pending && d.signaledFences <= e.signaledFences && e.signaledSems == d.signaledSems
    requires forall h <- e.signaledFences - d.signaledFences :: h.id >= d.next
    ensures Inv(e, c.(leaked := c.leaked + made), others)
  {
    var g := c.(leaked := c.leaked + made);
    LostHandles(d, c, e, g, others, made);
    forall f <- c.frames ensures f.inFlight.id < d.next {
      var i: nat :| i < |c.frames| && c.frames[i] == f;
      assert InFlights(c.frames)[i] == f.inFlight;
      assert Owns(c, f.inFlight);
    }
    SameProtocol(d, c, e, g);
  }

  function FrameHandles(frames: seq<FrameSync>): set<Handle> {
    Elems(Availables(frames)) + Elems(Finisheds(frames)) + Elems(InFlights(frames))
  }

  lemma FramesMade(d: DeviceState, c: Held, e: DeviceState, others: set<Handle>, frames: seq<FrameSync>)
    requires Inv(d, c, others) && c.frames == [] && c.currentFrame == 0 && d.pending == []
    requires |frames| == MAX_FRAMES_IN_FLIGHT && FrameLists(frames)
    requires FrameHandles(frames) !! d.live && e.live == d.live + FrameHandles(frames) && VulkanDevice.Valid(e)
    requires e.pending == []
    requires forall f <- frames ::
      f.inFlight in e.signaledFences && f.imageAvailable !in e.signaledSems && f.renderFinished !in e.signaledSems
    ensures Inv(e, c.(frames := frames), others)
  {
    var g := c.(frames := frames);
    Gained(d, c, e, g, others, FrameHandles(frames));
    NewFramesProtocol(e, g);
  }

  // ----- the phases of a frame -----

  lemma CompletedInv(d: DeviceState, c: Held, others: set<Handle>, k: nat)
    requires Inv(d, c, others) && k <= |d.pending| && VulkanDevice.Valid(Completed(d, k))
    ensures Inv(Completed(d, k), c, others)
  {
    CompletedKeeps(d, c, k);
  }

  lemma FrameOwned(d: DeviceState, c: Held, others: set<Handle>, i: nat)
    requires Ownership(d, c, others) && i < |c.frames|
    ensures var f := c.frames[i]; f.imageAvailable in d.live && f.renderFinished in d.live && f.inFlight in d.live
  {
    var f := c.frames[i];
    assert Availables(c.frames)[i] == f.imageAvailable && Finisheds(c.frames)[i] == f.renderFinished &&
      InFlights(c.frames)[i] == f.inFlight;
    assert Owns(c, f.imageAvailable) && Owns(c, f.renderFinished) && Owns(c, f.inFlight);
  }

  lemma CurrentFrame(d: DeviceState, c: Held)
    requires Protocol(d, c) && c.frames != []
    ensures c.currentFrame < |c.frames|
  {
  }

  lemma StrandedNotHeld(d: DeviceState, c: Held)
    requires Protocol(d, c) && c.stranded
    ensures !c.held && c.frames != [] && c.currentFrame < |c.frames|
  {
  }

  /** The current frame's fence is signaled or on its way unless the frame is held. */
  lemma FenceArrives(d: DeviceState, c: Held)
    requires Protocol(d, c) && !c.held && c.frames != []
    ensures c.currentFrame < |c.frames|
    ensures var fence := c.frames[c.currentFrame].inFlight; fence in d.signaledFences || Pending(d, fence)
    ensures var fence := c.frames[c.currentFrame].inFlight; fence in d.signaledFences ==> !Pending(d, fence)
  {
    assert FrameReady(d, c, c.currentFrame);
  }

  lemma AcquiredInv(d: DeviceState, c: Held, e: DeviceState, g: Held, others: set<Handle>)
    requires Inv(d, c, others) && !c.held && c.frames != [] && VulkanDevice.Valid(e)
    requires g == c.(stranded := true) && e == Acquired(d, c.frames[c.currentFrame].imageAvailable)
    requires c.frames[c.currentFrame].inFlight in d.signaledFences
    ensures Inv(e, g, others)
  {
    AcquiredKeeps(d, c, e, g);
    SameOwnership(d, c, e, g, others);
  }

  lemma ResetInv(d: DeviceState, c: Held, e: DeviceState, g: Held, others: set<Handle>)
    requires Inv(d, c, others) && c.stranded && VulkanDevice.Valid(e)
    requires g == c.(stranded := false, held := true)
    requires var fence := c.frames[c.currentFrame].inFlight;
      fence in d.signaledFences && e == d.(signaledFences := d.signaledFences - {fence})
    ensures Inv(e, g, others)
  {
    ResetKeeps(d, c, e, g);
    SameOwnership(d, c, e, g, others);
  }

  /** The handles that drawing image k for the current frame uses. */
  function DrawingOf(c: Held, k: nat): Submission
    requires c.currentFrame < |c.frames| && k < |c.views| && k < |c.framebuffers| && k < |c.commandBuffers|
  {
    var f := c.frames[c.currentFrame];
    Submission(f.inFlight, f.imageAvailable, f.renderFinished,
               {c.commandBuffers[k], c.framebuffers[k], c.views[k], c.renderPass, c.swapchain})
  }

  lemma DrawingOwned(d: DeviceState, c: Held, others: set<Handle>, k: nat)
    requires Ownership(d, c, others) && Complete(d, c) && k < c.images && c.currentFrame < |c.frames|
    ensures DrawingOf(c, k).uses <= d.live
  {
    assert Owns(c, c.commandBuffers[k]) && Owns(c, c.framebuffers[k]) && Owns(c, c.views[k]);
    assert Owns(c, c.renderPass) && Owns(c, c.swapchain);
  }

  /** Everything that submitting image k's drawing for a held frame demands. */
  lemma CanSubmit(d: DeviceState, c: Held, others: set<Handle>, k: nat)
    requires Inv(d, c, others) && c.held && Complete(d, c) && k < c.images
    ensures c.currentFrame < |c.frames| == MAX_FRAMES_IN_FLIGHT
    ensures var s := DrawingOf(c, k);
      && s.uses <= d.live && s.fence in d.live && s.signal in d.live && c.swapchain in d.live
      && s.fence !in d.signaledFences && !Pending(d, s.fence)
      && s.wait in d.signaledSems && s.signal !in d.signaledSems
  {
    assert FrameReady(d, c, c.currentFrame);
    DrawingOwned(d, c, others, k);
    FrameOwned(d, c, others, c.currentFrame);
    OwnedSwapchain(d, c, others);
  }

  /** The submission for a held frame is at most the third one pending. */
  lemma AtMostThreeSubmitted(d: DeviceState, c: Held, others: set<Handle>, s: Submission)
    requires Inv(d, c, others) && c.held && SubmissionOf(s, c.frames[c.currentFrame])
    ensures |Submitted(d, s).pending| <= MAX_FRAMES_IN_FLIGHT
  {
    PresentedKeeps(d, c, s);
    AtMostThreeInFlight(Presenting(d, s), NextFrame(c));
  }

  lemma PresentedInv(d: DeviceState, c: Held, others: set<Handle>, s: Submission)
    requires Inv(d, c, others) && c.held && SubmissionOf(s, c.frames[c.currentFrame])
    requires VulkanDevice.Valid(Presenting(d, s))
    ensures |c.frames| == MAX_FRAMES_IN_FLIGHT && Inv(Presenting(d, s), NextFrame(c), others)
  {
    PresentedKeeps(d, c, s);
    Gained(d, c, Presenting(d, s), NextFrame(c), others, {});
  }

  lemma SameOwnership(d: DeviceState, c: Held, e: DeviceState, g: Held, others: set<Handle>)
    requires Ownership(d, c, others) && e.live == d.live
    requires g == c.(currentFrame := g.currentFrame, stranded := g.stranded, held := g.held)
    ensures Ownership(e, g, others)
  {
    Gained(d, c, e, g, others, {});
  }

  // ----- dropping the context -----

  lemma NoFrames()
    ensures FrameHandles([]) == {} && FrameLists([])
  {
  }

  lemma HandlesAppended(frames: seq<FrameSync>, f: FrameSync)
    ensures FrameHandles(frames + [f]) == FrameHandles(frames) + {f.imageAvailable, f.renderFinished, f.inFlight}
  {
    assert Availables(frames + [f]) == Availables(frames) + [f.imageAvailable];
    assert Finisheds(frames + [f]) == Finisheds(frames) + [f.renderFinished];
    assert InFlights(frames + [f]) == InFlights(frames) + [f.inFlight];
  }

  /** The handles of frame i are three more, all different, than those of the frames before it. */
  lemma NextFrameHandles(frames: seq<FrameSync>, i: nat)
    requires i < |frames| && FrameLists(frames)
    ensures var f := frames[i]; var three := {f.imageAvailable, f.renderFinished, f.inFlight};
      && f.imageAvailable != f.renderFinished && f.imageAvailable != f.inFlight && f.renderFinished != f.inFlight
      && FrameHandles(frames[..i + 1]) == FrameHandles(frames[..i]) + three
      && FrameHandles(frames[..i]) !! three && three <= FrameHandles(frames)
  {
    var f := frames[i];
    assert frames[..i + 1] == frames[..i] + [f];
    HandlesAppended(frames[..i], f);
    assert Availables(frames)[i] == f.imageAvailable && Finisheds(frames)[i] == f.renderFinished &&
      InFlights(frames)[i] == f.inFlight;
  }

  lemma OnlyFramesLeft(d: DeviceState, c: Held, others: set<Handle>)
    requires Ownership(d, c, others) && c == Emptied(c)
    ensures OrNothing(c.swapchain) + FrameHandles(c.frames) + {c.surface} <= d.live
    ensures OrNothing(c.swapchain) !! FrameHandles(c.frames) !! {c.surface}
    ensures d.live - OrNothing(c.swapchain) - FrameHandles(c.frames) - {c.surface} == others + c.leaked
    ensures FrameLists(c.frames)
  {
    var mine := OrNothing(c.swapchain) + FrameHandles(c.frames) + {c.surface};
    assert forall h :: Owns(c, h) <==> h in mine;
  }
}
