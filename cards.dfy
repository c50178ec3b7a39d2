/** The two card carousels, popular tests and why choose us, which differ
    only in their desktop cards per view. The state is the closure state of
    `initPopularTestsSlider` / `initWhyChooseUsSlider`: `currentIndex` (a
    page), `slideInterval`, the pending debounce `resizeTimeout`, and the
    window width that `getCardsPerView` reads on every call. */
module Cards {
  import opened Paging
  import opened Intervals

  class CardSlider {
    const carousel: CardCarousel
    /** Number of cards. */
    const n: nat
    /** `window.innerWidth`, updated as soon as the window is resized. */
    var width: int
    /** `currentIndex`: the page shown. */
    var index: nat
    var timers: Timers
    /** A resize happened and its 250 ms debounce has not yet fired. */
    var resizePending: bool

    /** `getCardsPerView()` at the current width. */
    function View(): nat
      reads this
    {
      CardsPerView(carousel, width)
    }

    /** The page shown exists at the current width, except between a resize
        and its debounced handler. */
    ghost predicate Valid()
      reads this
    {
      && n > 0
      && Intervals.Valid(timers)
      && (!resizePending ==> index < Pages(n, View()))
    }

    /** Set-up: page 0, and auto-advance only when the cards do not all fit
        in one view. */
    constructor (carousel: CardCarousel, n: nat, width: int)
      requires n > 0
      ensures Valid() && this.carousel == carousel && this.n == n && this.width == width
      ensures index == 0 && !resizePending
      ensures timers == if n > View() then SetInterval(Idle) else Idle
      ensures Armed(timers) <==> Pages(n, View()) > 1
    {
      this.carousel := carousel;
      this.n := n;
      this.width := width;
      index := 0;
      resizePending := false;
      timers := if n > CardsPerView(carousel, width) then SetInterval(Idle) else Idle;
      PagesBounds(n, CardsPerView(carousel, width));
      MorePagesIffOverflow(n, CardsPerView(carousel, width));
    }

    /** `nextSlide`, the next button's handler: step forward over the pages at
        the current width, then `resetAutoSlide`. */
    method ClickNext()
      requires Valid()
      modifies this
      ensures Valid() && index == CardNext(old(index), n, View()) && timers == Reset(old(timers))
      ensures width == old(width) && resizePending == old(resizePending)
      ensures Armed(timers)
    {
      CardStepsInRange(index, n, View());
      PagesBounds(n, View());
      index := CardNext(index, n, View());
      timers := Reset(timers);
    }

    /** `prevSlide`, the previous button's handler: step backward, then
        `resetAutoSlide`. */
    method ClickPrev()
      requires Valid()
      modifies this
      ensures Valid() && index == CardPrev(old(index), n, View()) && timers == Reset(old(timers))
      ensures width == old(width) && resizePending == old(resizePending)
      ensures Armed(timers)
    {
      CardStepsInRange(index, n, View());
      PagesBounds(n, View());
      index := CardPrev(index, n, View());
      timers := Reset(timers);
    }

    /** A firing of the live interval `id` calls `nextSlide` too, so it also
        clears the handle's interval and starts a new one; an interval leaked
        earlier is not the handle's and keeps running. */
    method Tick(id: nat)
      requires Valid() && id in timers.live
      modifies this
      ensures Valid() && index == CardNext(old(index), n, View()) && timers == Reset(old(timers))
      ensures width == old(width) && resizePending == old(resizePending)
      ensures id != old(timers.handle) ==> id in timers.live
    {
      ClickNext();
    }

    /** `mouseenter` on the slider container: clear the handle's interval;
        the page does not change. */
    method MouseEnter()
      requires Valid()
      modifies this
      ensures Valid() && timers == ClearInterval(old(timers))
      ensures index == old(index) && width == old(width) && resizePending == old(resizePending)
      ensures old(Single(timers)) ==> timers.live == {}
    {
      timers := ClearInterval(timers);
    }

    /** `mouseleave` on the slider container: start a new interval when the
        cards do not fit in one view, without clearing the handle's. */
    method MouseLeave()
      requires Valid()
      modifies this
      ensures Valid() && timers == if n > View() then SetInterval(old(timers)) else old(timers)
      ensures index == old(index) && width == old(width) && resizePending == old(resizePending)
      ensures n > View() ==> |timers.live| == |old(timers.live)| + 1
    {
      if n > View() {
        timers := SetInterval(timers);
      }
    }

    /** A `resize` event: the width changes at once and the debounced handler
        is (re)scheduled; nothing else changes until it fires. */
    method Resize(newWidth: int)
      requires Valid()
      modifies this
      ensures Valid() && width == newWidth && resizePending
      ensures index == old(index) && timers == old(timers)
    {
      width := newWidth;
      resizePending := true;
    }

    /** The debounced resize handler: back to page 0 and `resetAutoSlide`,
        unconditionally, so a timer runs afterwards even when every card
        fits in one view. */
    method ResizeSettled()
      requires Valid() && resizePending
      modifies this
      ensures Valid() && index == 0 && !resizePending && timers == Reset(old(timers))
      ensures width == old(width)
      ensures Armed(timers)
    {
      PagesBounds(n, View());
      index := 0;
      resizePending := false;
      timers := Reset(timers);
    }
  }

  /** `initPopularTestsSlider` / `initWhyChooseUsSlider`: with no cards
      nothing is set up. */
  method InitCards(carousel: CardCarousel, n: nat, width: int) returns (slider: CardSlider?)
    ensures slider == null <==> n == 0
    ensures slider != null ==> fresh(slider) && slider.Valid() && slider.carousel == carousel
    ensures slider != null ==> slider.n == n && slider.index == 0
    ensures slider != null ==> slider.width == width && !slider.resizePending
    ensures slider != null ==> (Armed(slider.timers) <==> n > CardsPerView(carousel, width))
  {
    if n == 0 {
      return null;
    }
    slider := new CardSlider(carousel, n, width);
  }

  /** The card carousels leak like the hero: hover, click next, leave. The
      leaked interval then survives every firing. */
  method HoverClickLeaveLeaks() returns (live: nat, liveAfterTick: nat)
    ensures live == 2 && liveAfterTick == 2
  {
    var cards := new CardSlider(PopularTests, 10, 1280);
    cards.MouseEnter();
    cards.ClickNext();
    var leaked := cards.timers.handle;
    cards.MouseLeave();
    live := |cards.timers.live|;
    cards.Tick(leaked);
    liveAfterTick := |cards.timers.live|;
  }

  /** Every card fits (three cards, four per desktop view) and no timer runs;
      a settled resize starts one all the same, and its firings keep the
      carousel on page 0. */
  method ResizeArmsStaticCarousel() returns (armedBefore: bool, armedAfter: bool, page: nat)
    ensures !armedBefore && armedAfter && page == 0
  {
    var cards := new CardSlider(PopularTests, 3, 1280);
    armedBefore := Armed(cards.timers);
    cards.Resize(1300);
    cards.ResizeSettled();
    armedAfter := Armed(cards.timers);
    cards.Tick(cards.timers.handle);
    page := cards.index;
  }
}
