/** The browser's repeating timers as the sliders use them. `setInterval`
    starts a new interval and returns a fresh positive id, which the slider
    keeps in its `slideInterval` variable (the handle); `clearInterval`
    stops the interval with the given id and does nothing for an id that is
    already stopped or was never issued. Ids of intervals started earlier
    and no longer held in the handle stay live: nothing can stop them. */
module Intervals {

  /** `live` holds the ids of running intervals, `handle` the id stored in
      the slider's variable (0 while it was never assigned), and `nextId` the
      id the next `setInterval` returns. */
  datatype Timers = Timers(live: set<nat>, handle: nat, nextId: nat)

  /** Ids are issued from 1 upwards, so every live id and the handle lie
      below the next one to be issued. */
  predicate Valid(t: Timers) {
    && 0 < t.nextId
    && t.handle < t.nextId
    && forall id | id in t.live :: 0 < id < t.nextId
  }

  /** No interval started yet; the handle is still undefined. */
  const Idle: Timers := Timers({}, 0, 1)

  /** The stored handle names a running interval: auto-advance is armed. */
  predicate Armed(t: Timers) {
    t.handle in t.live
  }

  /** No interval runs except, possibly, the one the handle names: a later
      `clearInterval` on the handle stops every automatic advance. */
  predicate Single(t: Timers) {
    t.live <= {t.handle}
  }

  /** `slideInterval = setInterval(...)`: one more interval runs and the
      handle now names it; the interval it named before keeps running. */
  function SetInterval(t: Timers): (r: Timers)
    requires Valid(t)
    ensures Valid(r) && Armed(r)
    ensures t.nextId !in t.live && r.live == t.live + {r.handle}
    ensures |r.live| == |t.live| + 1
  {
    Timers(t.live + {t.nextId}, t.nextId, t.nextId + 1)
  }

  /** `clearInterval(slideInterval)`: the interval the handle names stops,
      every other interval keeps running, and the handle keeps its value. */
  function ClearInterval(t: Timers): (r: Timers)
    requires Valid(t)
    ensures Valid(r) && !Armed(r) && r.handle == t.handle
    ensures r.live == t.live - {t.handle}
    ensures |r.live| == if Armed(t) then |t.live| - 1 else |t.live|
    ensures Single(t) ==> r.live == {}
  {
    Timers(t.live - {t.handle}, t.handle, t.nextId)
  }

  /** `resetAutoSlide`: clear the handle's interval, then start a new one. */
  function Reset(t: Timers): (r: Timers)
    requires Valid(t)
    ensures Valid(r) && Armed(r)
    ensures |r.live| == if Armed(t) then |t.live| else |t.live| + 1
    ensures Single(t) ==> r.live == {r.handle}
  {
    SetInterval(ClearInterval(t))
  }

  /** Starting an interval keeps at most one running exactly when none was
      running before: starting over a running interval leaks it. */
  lemma SetIntervalSingleIff(t: Timers)
    requires Valid(t)
    ensures Single(SetInterval(t)) <==> t.live == {}
  {
  }

  /** Clearing and resetting never start a second running interval. */
  lemma ClearAndResetKeepSingle(t: Timers)
    requires Valid(t) && Single(t)
    ensures Single(ClearInterval(t)) && Single(Reset(t))
  {
  }

  /** A leaked interval (one the handle no longer names) survives every later
      clear, reset and start. */
  lemma LeakedIntervalSurvives(t: Timers, id: nat)
    requires Valid(t) && id in t.live && id != t.handle
    ensures id in ClearInterval(t).live
    ensures id in Reset(t).live && id != Reset(t).handle
    ensures id in SetInterval(t).live && id != SetInterval(t).handle
  {
  }
}
