/** A small Vulkan device: which handles are live, which fences and semaphores are signaled, and
    which submissions are pending. The preconditions are valid-usage rules of the Vulkan 1.3
    specification (sections 7.3 and 7.4 for fences and semaphores); whether a call fails is free. */
module VulkanDevice {
  import opened Wrappers
  import opened ResizeMailbox

  datatype Kind = Surface | Swapchain | View | RenderPass | Framebuffer | CommandBuffer | Available | Finished | Fence

  /** Handle 0 is the null handle. Semaphores come in the two kinds the frames use. */
  datatype Handle = Handle(kind: Kind, id: nat) {
    predicate Null() { id == 0 }
  }

  datatype Submission = Submission(fence: Handle, wait: Handle, signal: Handle, uses: set<Handle>)

  /** `dirtyAcquires` counts acquisitions on a semaphore that was still signaled or in use. */
  datatype DeviceState = DeviceState(
    next: nat,
    live: set<Handle>,
    signaledFences: set<Handle>,
    signaledSems: set<Handle>,
    pending: seq<Submission>,
    imageCount: map<Handle, nat>,
    dirtyAcquires: nat)

  ghost predicate Valid(d: DeviceState) {
    && d.next > 0
    && (forall h <- d.live :: 0 < h.id < d.next)
    && (forall h <- d.signaledFences :: h.id < d.next)
    && (forall h <- d.signaledSems :: h.id < d.next)
    && (forall s <- d.pending :: s.fence.id < d.next)
  }

  function Elems(s: seq<Handle>): set<Handle> { set h | h in s }

  ghost predicate Distinct(s: seq<Handle>) { forall i, j | 0 <= i < j < |s| :: s[i] != s[j] }

  ghost predicate Pending(d: DeviceState, fence: Handle) {
    exists s <- d.pending :: s.fence == fence
  }

  /** No pending submission uses the handle. */
  ghost predicate Idle(d: DeviceState, h: Handle) {
    forall s <- d.pending :: h !in s.uses && h != s.fence && h != s.wait && h != s.signal
  }

  /** The handles of n objects created one after another. */
  function Batch(kind: Kind, first: nat, n: nat): (s: seq<Handle>)
    ensures |s| == n
  {
    seq(n, i requires 0 <= i < n => Handle(kind, first + i))
  }

  function Created(d: DeviceState, kind: Kind, n: nat): DeviceState {
    d.(next := d.next + n, live := d.live + Elems(Batch(kind, d.next, n)))
  }

  function Fences(subs: seq<Submission>): set<Handle> { set s | s in subs :: s.fence }

  function WithHandle(d: DeviceState, h: Handle): DeviceState {
    d.(next := d.next + 1, live := d.live + {h})
  }

  /** The first k pending submissions complete: their fences are signaled. */
  function Completed(d: DeviceState, k: nat): (r: DeviceState)
    requires k <= |d.pending|
    ensures r.pending == d.pending[k..] && r.live == d.live && r.dirtyAcquires == d.dirtyAcquires &&
      r.imageCount == d.imageCount && r.next == d.next
  {
    d.(pending := d.pending[k..], signaledFences := d.signaledFences + Fences(d.pending[..k]))
  }

  function Max(a: nat, b: nat): nat { if a < b then b else a }

  datatype WaitResult = Signaled | WaitFailed | Hung

  datatype AcquireResult = Image(index: nat, suboptimal: bool) | OutOfDate | AcquireFailed

  datatype PresentResult = Presented | PresentOutOfDate | PresentFailed

  /** What a surface reports about its extent. */
  datatype Caps = Caps(current: Size, minExtent: Size, maxExtent: Size)

  /** Capabilities, and the numbers of formats and present modes; each query can fail. */
  datatype Report = Report(caps: Option<Caps>, formats: Option<nat>, modes: Option<nat>)

  /** A call that moves a frame along, with its arguments and its answer. */
  datatype FrameCall =
    | Waited(fence: Handle, wait: WaitResult)
    | Acquiring(swapchain: Handle, available: Handle, image: AcquireResult)
    | Resetting(fence: Handle, ok: bool)
    | Submitting(submission: Submission, ok: bool)
    | Showing(swapchain: Handle, finished: Handle, index: nat, shown: PresentResult)

  class Device {
    var d: DeviceState
    /** What the surface reported last. */
    ghost var report: Report
    /** How often the creation of each kind has failed, images were acquired with a suboptimal
        swapchain, and fences could not be reset; and the most submissions ever pending at once. */
    ghost var failed: multiset<Kind>
    ghost var suboptimals: nat
    ghost var failedResets: nat
    ghost var mostPending: nat
    /** The frame calls so far. */
    ghost var calls: seq<FrameCall>

    constructor (surface: Handle)
      requires surface.kind == Surface && surface.id > 0
      ensures Valid(d) && d.live == {surface} && d.pending == [] && failed == multiset{}
    {
      d := DeviceState(surface.id + 1, {surface}, {}, {}, [], map[], 0);
      failed, suboptimals, failedResets, mostPending, calls := multiset{}, 0, 0, 0, [];
    }

    /** The answers may be different every time. */
    method QuerySurface() returns (r: Report)
      modifies this`report
      ensures report == r
    {
      var answer: Report := *;
      r, report := answer, answer;
    }

    method Create(kind: Kind) returns (r: Option<Handle>)
      requires Valid(d)
      modifies this`d, this`failed
      ensures failed == old(failed) + if r.None? then multiset{kind} else multiset{}
      ensures Valid(d)
      ensures r.None? ==> d == old(d)
      ensures r.Some? ==> r.value == Handle(kind, old(d).next) && d == WithHandle(old(d), r.value)
    {
      var ok: bool := *;
      if !ok {
        failed := failed + multiset{kind};
        return None;
      }
      r := Some(Handle(kind, d.next));
      d := WithHandle(d, r.value);
    }

    /** A fence created signaled. */
    method CreateFence() returns (r: Option<Handle>)
      requires Valid(d)
      modifies this`d, this`failed
      ensures failed == old(failed) + if r.None? then multiset{Fence} else multiset{}
      ensures Valid(d)
      ensures r.None? ==> d == old(d)
      ensures r.Some? ==> r.value == Handle(Fence, old(d).next)
      ensures r.Some? ==> d == WithHandle(old(d), r.value).(signaledFences := old(d).signaledFences + {r.value})
    {
      r := Create(Fence);
      if r.Some? {
        d := d.(signaledFences := d.signaledFences + {r.value});
      }
    }

    /** All n command buffers or none. */
    method AllocateCommandBuffers(n: nat) returns (r: Option<seq<Handle>>)
      requires Valid(d)
      modifies this`d
      ensures Valid(d)
      ensures r.None? ==> d == old(d)
      ensures r.Some? ==> r.value == Batch(CommandBuffer, old(d).next, n) && d == Created(old(d), CommandBuffer, n)
    {
      var ok: bool := *;
      if !ok { return None; }
      r := Some(Batch(CommandBuffer, d.next, n));
      d := Created(d, CommandBuffer, n);
    }

    method Destroy(h: Handle)
      requires Valid(d) && h in d.live && Idle(d, h)
      modifies this`d
      ensures Valid(d) && d == old(d).(live := old(d).live - {h})
    {
      d := d.(live := d.live - {h});
    }

    method FreeCommandBuffers(hs: seq<Handle>)
      requires Valid(d) && Elems(hs) <= d.live && forall h <- hs :: Idle(d, h)
      modifies this`d
      ensures Valid(d) && d == old(d).(live := old(d).live - Elems(hs))
    {
      d := d.(live := d.live - Elems(hs));
    }

    /** The images of a swapchain belong to it; their number is fixed. */
    method GetSwapchainImages(swapchain: Handle) returns (r: Option<nat>)
      requires Valid(d) && swapchain in d.live
      modifies this`d
      ensures Valid(d)
      ensures r.None? ==> d == old(d)
      ensures r.Some? ==> d == old(d).(imageCount := old(d).imageCount[swapchain := r.value])
    {
      var ok: bool := *;
      if !ok { return None; }
      var n: nat := *;
      d := d.(imageCount := d.imageCount[swapchain := n]);
      return Some(n);
    }

    /** After the call nothing is pending, also when it reports a lost device. */
    method WaitIdle()
      requires Valid(d)
      modifies this`d
      ensures Valid(d) && d == Completed(old(d), |old(d).pending|)
    {
      d := Completed(d, |d.pending|);
    }

    /** Waits forever for a fence. Work completes in submission order, and a fence that is neither
        signaled nor on its way is never signaled. */
    method WaitForFence(fence: Handle) returns (r: WaitResult, ghost k: nat)
      requires Valid(d)
      modifies this`d, this`calls
      ensures Valid(d) && k <= |old(d).pending| && d == Completed(old(d), k)
      ensures r.Signaled? ==> fence in d.signaledFences
      ensures calls == old(calls) + [Waited(fence, r)]
      ensures r.Hung? ==> fence !in old(d).signaledFences && !Pending(old(d), fence)
    {
      var ok: bool := *;
      var done: nat := *;
      if done > |d.pending| {
        done := 0;
      }
      if ok {
        done := |d.pending|;
      }
      k := done;
      d := Completed(d, done);
      r := if !ok then WaitFailed else if fence in d.signaledFences then Signaled else Hung;
      calls := calls + [Waited(fence, r)];
    }

    method ResetFence(fence: Handle) returns (ok: bool)
      requires Valid(d) && !Pending(d, fence)
      modifies this`d, this`failedResets, this`calls
      ensures calls == old(calls) + [Resetting(fence, ok)]
      ensures Valid(d)
      ensures d == if ok then old(d).(signaledFences := old(d).signaledFences - {fence}) else old(d)
      ensures failedResets == old(failedResets) + if ok then 0 else 1
    {
      ok := *;
      if ok {
        d := d.(signaledFences := d.signaledFences - {fence});
      } else {
        failedResets := failedResets + 1;
      }
      calls := calls + [Resetting(fence, ok)];
    }

    method AcquireNextImage(swapchain: Handle, available: Handle) returns (r: AcquireResult)
      requires Valid(d) && swapchain in d.live && available in d.live
      modifies this`d, this`suboptimals, this`calls
      ensures calls == old(calls) + [Acquiring(swapchain, available, r)]
      ensures Valid(d)
      ensures r.Image? ==> d == Acquired(old(d), available)
      ensures r.Image? && swapchain in d.imageCount ==> r.index < d.imageCount[swapchain]
      ensures !r.Image? ==> d == old(d)
      ensures suboptimals == old(suboptimals) + if r.Image? && r.suboptimal then 1 else 0
    {
      var what: AcquireResult := *;
      r := what;
      if r.Image? && swapchain in d.imageCount && r.index >= d.imageCount[swapchain] {
        r := OutOfDate;
      }
      calls := calls + [Acquiring(swapchain, available, r)];
      if r.Image? {
        d := Acquired(d, available);
        suboptimals := suboptimals + if r.suboptimal then 1 else 0;
      }
    }

    method QueueSubmit(s: Submission) returns (ok: bool)
      requires Valid(d) && s.uses <= d.live && s.fence in d.live
      requires s.fence !in d.signaledFences && !Pending(d, s.fence)
      requires s.wait in d.signaledSems && s.signal !in d.signaledSems && s.signal in d.live
      modifies this`d, this`mostPending, this`calls
      ensures calls == old(calls) + [Submitting(s, ok)]
      ensures Valid(d) && d == if ok then Submitted(old(d), s) else old(d)
      ensures mostPending == if ok then Max(old(mostPending), |d.pending|) else old(mostPending)
    {
      ok := *;
      calls := calls + [Submitting(s, ok)];
      if ok {
        d := Submitted(d, s);
        mostPending := Max(mostPending, |d.pending|);
      }
    }

    /** Presentation consumes its wait semaphore unless it fails outright. */
    method QueuePresent(swapchain: Handle, wait: Handle, index: nat) returns (r: PresentResult)
      requires Valid(d) && swapchain in d.live && wait in d.signaledSems
      modifies this`d, this`calls
      ensures calls == old(calls) + [Showing(swapchain, wait, index, r)]
      ensures Valid(d)
      ensures d == if r.PresentFailed? then old(d) else old(d).(signaledSems := old(d).signaledSems - {wait})
    {
      var what: PresentResult := *;
      r := what;
      calls := calls + [Showing(swapchain, wait, index, r)];
      if !r.PresentFailed? {
        d := d.(signaledSems := d.signaledSems - {wait});
      }
    }
  }

  /** The semaphore can be handed to an acquisition: unsignaled, and no submission waits for it. */
  predicate Clean(d: DeviceState, available: Handle) {
    available !in d.signaledSems && forall s <- d.pending :: s.wait != available
  }

  function Acquired(d: DeviceState, available: Handle): DeviceState {
    d.(signaledSems := d.signaledSems + {available},
       dirtyAcquires := d.dirtyAcquires + if Clean(d, available) then 0 else 1)
  }

  function Submitted(d: DeviceState, s: Submission): DeviceState {
    d.(pending := d.pending + [s], signaledSems := d.signaledSems - {s.wait} + {s.signal})
  }
}
