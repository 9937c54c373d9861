/** The resize mailbox of src/vulkan_backend/state_machine.rs: one requester storing width, height
    and flag, one taker swapping the flag and loading both, each access atomic. */
module ResizeMailbox {
  import opened Wrappers

  datatype Size = Size(width: nat, height: nat)

  class PendingResize {
    var flag: bool
    var width: nat
    var height: nat

    constructor ()
      ensures !flag && width == 0 && height == 0
    {
      flag, width, height := false, 0, 0;
    }

    method Request(w: nat, h: nat)
      modifies this
      ensures flag && width == w && height == h
    {
      width := w;
      height := h;
      flag := true;
    }

    method Take() returns (r: Option<Size>)
      modifies this
      ensures !flag && width == old(width) && height == old(height)
      ensures r == if old(flag) then Some(Size(width, height)) else None
    {
      var raised := flag;
      flag := false;
      if raised {
        return Some(Size(width, height));
      }
      return None;
    }
  }

  // ----- one requester and one taker -----

  datatype Requester = Resting | StoreHeight(size: Size) | RaiseFlag

  datatype Taker = Waiting | LoadWidth | LoadHeight(width: nat)

  /** The shared cells and both program counters. The rest is ghost state: the sizes requested so far
      and, by their index among the requests, whose width and height stand in the cells and were
      taken last (-1 before the first). */
  datatype System = System(
    flag: bool, width: nat, height: nat,
    requester: Requester, taker: Taker,
    taken: Option<Size>,
    requests: seq<Size>, widthOf: int, heightOf: int, takenWidthOf: int, takenHeightOf: int)

  const INITIAL := System(false, 0, 0, Resting, Waiting, None, [], -1, -1, -1, -1)

  datatype Action = RequesterStep(size: Size) | TakerStep

  /** The next atomic access of one side; a resting requester starts on the given size. */
  function Step(s: System, a: Action): System {
    match a
    case RequesterStep(size) =>
      (match s.requester
       case Resting =>
         s.(width := size.width, requester := StoreHeight(size),
            requests := s.requests + [size], widthOf := |s.requests|)
       case StoreHeight(sz) => s.(height := sz.height, requester := RaiseFlag, heightOf := |s.requests| - 1)
       case RaiseFlag => s.(flag := true, requester := Resting))
    case TakerStep =>
      (match s.taker
       case Waiting => s.(flag := false, taker := if s.flag then LoadWidth else Waiting)
       case LoadWidth => s.(taker := LoadHeight(s.width), takenWidthOf := s.widthOf)
       case LoadHeight(w) => s.(taker := Waiting, taken := Some(Size(w, s.height)), takenHeightOf := s.heightOf))
  }

  function Run(s: System, actions: seq<Action>): System
    decreases |actions|
  {
    if actions == [] then s else Run(Step(s, actions[0]), actions[1..])
  }

  function WidthAt(requests: seq<Size>, i: int): nat
    requires i < |requests|
  {
    if i < 0 then 0 else requests[i].width
  }

  function HeightAt(requests: seq<Size>, i: int): nat
    requires i < |requests|
  {
    if i < 0 then 0 else requests[i].height
  }

  /** Whose values the cells hold, and what the taker has in hand. */
  ghost predicate Values(s: System) {
    var n := |s.requests|;
    && s.widthOf == n - 1
    && s.heightOf == (if s.requester.StoreHeight? then n - 2 else n - 1)
    && (!s.requester.Resting? || s.flag || !s.taker.Waiting? || s.taken.Some? ==> n > 0)
    && (s.requester.StoreHeight? ==> s.requester.size == s.requests[n - 1])
    && s.width == WidthAt(s.requests, s.widthOf) && s.height == HeightAt(s.requests, s.heightOf)
    && s.takenWidthOf <= s.widthOf && s.takenHeightOf <= s.heightOf
    && (s.taker.LoadHeight? ==> s.taker.width == WidthAt(s.requests, s.takenWidthOf))
    && (s.taker.Waiting? ==>
          if s.taken.None? then s.takenWidthOf == s.takenHeightOf == -1
          else s.taken == Some(Size(WidthAt(s.requests, s.takenWidthOf), HeightAt(s.requests, s.takenHeightOf))))
  }

  /** The last request that has raised the flag. */
  function Raised(s: System): int {
    if s.requester.Resting? then |s.requests| - 1 else |s.requests| - 2
  }

  /** While the flag is down, what the taker loads or has loaded is no older than the last raised request. */
  ghost predicate Fresh(s: System) {
    !s.flag ==>
      && (s.taker.LoadHeight? ==> s.takenWidthOf >= Raised(s))
      && (s.taker.Waiting? ==> s.takenWidthOf >= Raised(s) && s.takenHeightOf >= Raised(s))
  }

  lemma StepKeeps(s: System, a: Action)
    requires Values(s) && Fresh(s)
    ensures Values(Step(s, a)) && Fresh(Step(s, a))
  {
  }

  lemma {:induction false} RunKeeps(s: System, actions: seq<Action>)
    requires Values(s) && Fresh(s)
    ensures Values(Run(s, actions)) && Fresh(Run(s, actions))
    decreases |actions|
  {
    hide Values, Fresh, Step;
    if actions != [] {
      StepKeeps(s, actions[0]);
      RunKeeps(Step(s, actions[0]), actions[1..]);
    }
  }

  /** No lost resize: over every interleaving, whenever both sides are idle and the flag is down, the
      last size taken is the last size requested. */
  lemma NoLostResize(actions: seq<Action>)
    ensures var s := Run(INITIAL, actions);
      s.requester.Resting? && s.taker.Waiting? && !s.flag ==>
        s.taken == if s.requests == [] then None else Some(s.requests[|s.requests| - 1])
  {
    RunKeeps(INITIAL, actions);
  }

  /** A completed take that mixed two requests has one of them still unfinished, or the flag raised
      again: the mixed size is not the last one taken. */
  lemma MixedTakeIsFollowed(actions: seq<Action>)
    ensures var s := Run(INITIAL, actions);
      s.taker.Waiting? && s.takenWidthOf != s.takenHeightOf ==> !s.requester.Resting? || s.flag
  {
    RunKeeps(INITIAL, actions);
  }

  /** A take can mix the width of one request with the height of another. */
  lemma TakeCanMix(a: Size, b: Size)
    ensures var s := Run(INITIAL,
      [RequesterStep(a), RequesterStep(a), RequesterStep(a), TakerStep, RequesterStep(b), TakerStep, TakerStep]);
      s.taken == Some(Size(b.width, a.height)) && s.takenWidthOf == 1 && s.takenHeightOf == 0
  {
    var ra, rb, t := RequesterStep(a), RequesterStep(b), TakerStep;
    var s0 := INITIAL;
    RunCons(s0, ra, [ra, ra, t, rb, t, t]);
    var s1 := Step(s0, ra);
    RunCons(s1, ra, [ra, t, rb, t, t]);
    var s2 := Step(s1, ra);
    RunCons(s2, ra, [t, rb, t, t]);
    var s3 := Step(s2, ra);
    RunCons(s3, t, [rb, t, t]);
    var s4 := Step(s3, t);
    RunCons(s4, rb, [t, t]);
    var s5 := Step(s4, rb);
    RunCons(s5, t, [t]);
    var s6 := Step(s5, t);
    RunCons(s6, t, []);
    assert [ra, ra, ra, t, rb, t, t] == [ra] + [ra, ra, t, rb, t, t];
    assert [t] + [] == [t];
  }

  lemma RunCons(s: System, a: Action, rest: seq<Action>)
    ensures Run(s, [a] + rest) == Run(Step(s, a), rest)
  {
    assert ([a] + rest)[1..] == rest;
  }

  lemma {:induction false} RequesterRuns(s: System, steps: seq<Action>)
    requires forall a <- steps :: a.RequesterStep?
    ensures var t := Run(s, steps);
      && t.taker == s.taker && t.taken == s.taken && s.requests <= t.requests
      && t.takenWidthOf == s.takenWidthOf && t.takenHeightOf == s.takenHeightOf
    decreases |steps|
  {
    if steps != [] {
      RequesterRuns(Step(s, steps[0]), steps[1..]);
    }
  }

  /** When a take is not mixed: over every interleaving, a take that loads the width after n1 requests and
      the height after n2 gets both from one request exactly if no request has begun in between and the
      requester is not between its two stores, or one has and it is. Such a take is the request counted
      last at the width load. */
  lemma TakeUnmixed(before: seq<Action>, between: seq<Action>)
    requires Run(INITIAL, before).taker.LoadWidth? && forall a <- between :: a.RequesterStep?
    ensures var s1 := Run(INITIAL, before); var s2 := Run(Step(s1, TakerStep), between); var s3 := Step(s2, TakerStep);
      var n1, n2, storing := |s1.requests|, |s2.requests|, s2.requester.StoreHeight?;
      && 0 < n1 <= n2 && s3.taker.Waiting?
      && (s3.takenWidthOf == s3.takenHeightOf <==> (n2 == n1 && !storing) || (n2 == n1 + 1 && storing))
      && (s3.takenWidthOf == s3.takenHeightOf ==> s3.taken == Some(s2.requests[n1 - 1]))
  {
    hide Run;
    RunKeeps(INITIAL, before);
    var s1 := Run(INITIAL, before);
    StepKeeps(s1, TakerStep);
    RunKeeps(Step(s1, TakerStep), between);
    RequesterRuns(Step(s1, TakerStep), between);
    StepKeeps(Run(Step(s1, TakerStep), between), TakerStep);
  }

  /** Three steps of the requester with nothing in between are `PendingResize.Request`. */
  lemma UninterruptedRequest(s: System, size: Size)
    requires s.requester.Resting?
    ensures var r := RequesterStep(size); var t := Run(s, [r, r, r]);
      && t.flag && t.width == size.width && t.height == size.height && t.requester.Resting?
      && t.requests == s.requests + [size] && t.taker == s.taker && t.taken == s.taken
  {
    RunThree(s, RequesterStep(size));
  }

  /** A take with nothing in between is `PendingResize.Take`. */
  lemma UninterruptedTake(s: System)
    requires s.taker.Waiting?
    ensures var t := Run(s, if s.flag then [TakerStep, TakerStep, TakerStep] else [TakerStep]);
      && !t.flag && t.width == s.width && t.height == s.height && t.taker.Waiting? && t.requester == s.requester
      && t.taken == if s.flag then Some(Size(s.width, s.height)) else s.taken
  {
    RunThree(s, TakerStep);
    RunCons(s, TakerStep, []);
  }

  lemma RunThree(s: System, a: Action)
    ensures Run(s, [a, a, a]) == Step(Step(Step(s, a), a), a)
  {
    RunCons(s, a, [a, a]);
    RunCons(Step(s, a), a, [a]);
    RunCons(Step(Step(s, a), a), a, []);
    assert [a] + [a, a] == [a, a, a] && [a] + [a] == [a, a] && [a] + [] == [a];
  }
}
