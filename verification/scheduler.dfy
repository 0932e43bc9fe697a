/** The render debounce of `scheduleRender`: a `dirty` flag set when a render
    is requested and cleared by the animation-frame callback, so that any
    number of requests between two frames is served by one render. The
    animation-frame queue is modelled by the number of callbacks waiting;
    the asynchronous drawing itself is not. */
module RenderScheduler {
  datatype Scheduler = Scheduler(dirty: bool, queued: nat)

  /** The page as loaded: nothing pending. */
  const Idle: Scheduler := Scheduler(false, 0)

  /** At most one callback waits, and exactly while the flag is set. */
  predicate Valid(s: Scheduler) {
    s.queued <= 1 && (s.dirty <==> s.queued == 1)
  }

  /** `scheduleRender()`: a pending render absorbs the request; otherwise
      the flag is set and one callback queued. */
  function Schedule(s: Scheduler): (r: Scheduler)
    ensures r.dirty
    ensures Valid(s) ==> Valid(r) && r.queued == 1
    ensures s.dirty ==> r == s
    ensures !s.dirty ==> r.queued == s.queued + 1
  {
    if s.dirty then s else Scheduler(true, s.queued + 1)
  }

  /** An animation frame: each waiting callback clears the flag and renders. */
  datatype Outcome = Outcome(state: Scheduler, renders: nat)

  function Frame(s: Scheduler): (r: Outcome)
    ensures r.state == Idle
    ensures Valid(s) ==> (r.renders == 1 <==> s.dirty)
    ensures r.renders <= s.queued
  {
    Outcome(Idle, s.queued)
  }

  datatype Event = Request | Tick

  /** The state and the number of renders after a sequence of events. */
  function Run(s: Scheduler, evs: seq<Event>): Outcome
    decreases |evs|
  {
    if |evs| == 0 then Outcome(s, 0)
    else
      var before := Run(s, evs[..|evs| - 1]);
      match evs[|evs| - 1]
      case Request => Outcome(Schedule(before.state), before.renders)
      case Tick =>
        var f := Frame(before.state);
        Outcome(f.state, before.renders + f.renders)
  }

  function Count(evs: seq<Event>, e: Event): (n: nat)
    ensures n <= |evs|
    decreases |evs|
  {
    if |evs| == 0 then 0
    else Count(evs[..|evs| - 1], e) + (if evs[|evs| - 1] == e then 1 else 0)
  }

  /** A request that no frame has served yet: some request after the last
      frame. */
  predicate PendingRequest(evs: seq<Event>) {
    exists i :: 0 <= i < |evs| && evs[i] == Request && forall j :: i < j < |evs| ==> evs[j] != Tick
  }

  /** From a valid state, every sequence of events keeps at most one
      callback waiting; from the idle page, the flag is set exactly when a
      request came after the last frame. */
  lemma {:induction false} RunValid(s: Scheduler, evs: seq<Event>)
    requires Valid(s)
    ensures Valid(Run(s, evs).state)
    ensures s == Idle ==> (Run(s, evs).state.dirty <==> PendingRequest(evs))
    decreases |evs|
  {
    if |evs| > 0 {
      var init := evs[..|evs| - 1];
      RunValid(s, init);
      if s == Idle {
        if evs[|evs| - 1] == Request {
          assert PendingRequest(evs) by {
            assert evs[|evs| - 1] == Request;
          }
        } else {
          forall i | 0 <= i < |evs| && evs[i] == Request
            ensures exists j :: i < j < |evs| && evs[j] == Tick
          {
            assert evs[|evs| - 1] == Tick;
          }
        }
      }
    }
  }

  /** Renders never outnumber frames, nor the requests plus the callbacks
      already waiting. */
  lemma {:induction false} RunRenderBound(s: Scheduler, evs: seq<Event>)
    requires Valid(s)
    ensures Run(s, evs).renders <= Count(evs, Tick)
    ensures Run(s, evs).renders + Run(s, evs).state.queued <= Count(evs, Request) + s.queued
    decreases |evs|
  {
    if |evs| > 0 {
      var init := evs[..|evs| - 1];
      RunRenderBound(s, init);
      RunValid(s, init);
    }
  }

  function Requests(n: nat): (r: seq<Event>)
    ensures |r| == n
    ensures forall i :: 0 <= i < n ==> r[i] == Request
  {
    seq(n, i => Request)
  }

  /** A burst of requests leaves one callback waiting, however long it is. */
  lemma {:induction false} BurstQueuesOne(n: nat)
    ensures Run(Idle, Requests(n)).state == (if n == 0 then Idle else Scheduler(true, 1))
    ensures Run(Idle, Requests(n)).renders == 0
    decreases n
  {
    if n > 0 {
      assert Requests(n)[..n - 1] == Requests(n - 1);
      BurstQueuesOne(n - 1);
    }
  }

  /** A burst of requests followed by one frame renders exactly once, and
      not at all for an empty burst. */
  lemma BurstThenFrame(n: nat)
    ensures Run(Idle, Requests(n) + [Tick]).renders == (if n == 0 then 0 else 1)
    ensures Run(Idle, Requests(n) + [Tick]).state == Idle
  {
    var evs := Requests(n) + [Tick];
    assert evs[..|evs| - 1] == Requests(n);
    assert evs[|evs| - 1] == Tick;
    BurstQueuesOne(n);
  }
}
