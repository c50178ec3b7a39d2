/** The hero background slider: its closure state (`currentIndex`,
    `slideInterval`) as a class over the valid slides, and its set-up from
    the probed slides. The slide shown, and the dot marked active, are the
    ones at `index`. */
module Hero {
  import opened Rotation
  import opened Intervals
  import opened ImageProbe

  class HeroSlider {
    /** Number of valid slides (and of dots). */
    const n: nat
    /** `currentIndex`: the active slide and dot. */
    var index: nat
    /** The intervals started by `startAutoSlide` and the `slideInterval` handle. */
    var timers: Timers

    ghost predicate Valid()
      reads this
    {
      n > 0 && index < n && Intervals.Valid(timers)
    }

    /** `initializeSlider`: slide 0 is active, and auto-advance starts only
        when there is more than one slide. */
    constructor (n: nat)
      requires n > 0
      ensures Valid() && this.n == n && index == 0
      ensures timers == if n > 1 then SetInterval(Idle) else Idle
      ensures Armed(timers) <==> n > 1
      ensures Single(timers)
    {
      this.n := n;
      index := 0;
      timers := if n > 1 then SetInterval(Idle) else Idle;
    }

    /** A firing of the live interval `id`: `nextSlide`, which leaves the
        timers as they are. */
    method Tick(id: nat)
      requires Valid() && id in timers.live
      modifies this
      ensures Valid() && index == NextIndex(old(index), n) && timers == old(timers)
    {
      index := NextIndex(index, n);
    }

    /** The next button: `nextSlide` then `resetAutoSlide`. */
    method ClickNext()
      requires Valid()
      modifies this
      ensures Valid() && index == NextIndex(old(index), n) && timers == Reset(old(timers))
      ensures Armed(timers) && |timers.live| >= |old(timers.live)|
    {
      index := NextIndex(index, n);
      timers := Reset(timers);
    }

    /** The previous button: `prevSlide` then `resetAutoSlide`. */
    method ClickPrev()
      requires Valid()
      modifies this
      ensures Valid() && index == PrevIndex(old(index), n) && timers == Reset(old(timers))
      ensures Armed(timers) && |timers.live| >= |old(timers.live)|
    {
      index := PrevIndex(index, n);
      timers := Reset(timers);
    }

    /** Dot `k`: `goToSlide(k)` makes slide `k` active and resets the timer,
        even when there is only one slide. */
    method ClickDot(k: nat)
      requires Valid() && k < n
      modifies this
      ensures Valid() && index == k && timers == Reset(old(timers))
      ensures Armed(timers)
    {
      index := k;
      timers := Reset(timers);
    }

    /** `mouseenter` on the hero section: clear the handle's interval; the
        active slide does not change. */
    method MouseEnter()
      requires Valid()
      modifies this
      ensures Valid() && index == old(index) && timers == ClearInterval(old(timers))
      ensures !Armed(timers)
      ensures old(Single(timers)) ==> timers.live == {}
    {
      timers := ClearInterval(timers);
    }

    /** `mouseleave` on the hero section: start a new interval when there is
        more than one slide, without clearing the one the handle names. */
    method MouseLeave()
      requires Valid()
      modifies this
      ensures Valid() && index == old(index)
      ensures timers == if n > 1 then SetInterval(old(timers)) else old(timers)
      ensures n > 1 ==> |timers.live| == |old(timers.live)| + 1
    {
      if n > 1 {
        timers := SetInterval(timers);
      }
    }
  }

  /** `initHeroSlider`: probe the slides, keep the valid ones and, when there
      is at least one, initialise the slider over them; with none, nothing
      is initialised. */
  method InitHero(images: seq<string>, loads: string -> bool) returns (valid: seq<ValidSlide>, hero: HeroSlider?)
    ensures valid == ValidSlides(images, loads)
    ensures hero == null <==> valid == []
    ensures hero != null ==> fresh(hero) && hero.Valid() && hero.n == |valid| && hero.index == 0
    ensures hero != null ==> (Armed(hero.timers) <==> |valid| > 1)
  {
    valid := LoadAvailableSlides(images, loads);
    if |valid| == 0 {
      return valid, null;
    }
    hero := new HeroSlider(|valid|);
  }

  /** Hovering, clicking next while the pointer is over the hero and
      leaving again leaves two intervals running: the click re-arms the
      timer and `mouseleave` starts a second one beside it. Each then calls
      `nextSlide`, so the slides advance twice per period. */
  method HoverClickLeaveLeaks() returns (live: nat, index: nat)
    ensures live == 2 && index == 1
  {
    var hero := new HeroSlider(3);
    hero.MouseEnter();
    hero.ClickNext();
    hero.MouseLeave();
    live, index := |hero.timers.live|, hero.index;
  }

  /** Without navigation during the hover, pausing and resuming keeps a
      single running interval. */
  method HoverLeaveKeepsOne() returns (live: nat, single: bool)
    ensures live == 1 && single
  {
    var hero := new HeroSlider(3);
    hero.MouseEnter();
    hero.MouseLeave();
    live, single := |hero.timers.live|, Single(hero.timers);
    SetIntervalSingleIff(ClearInterval(SetInterval(Idle)));
  }
}
