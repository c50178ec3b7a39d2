/** Page arithmetic of the two card carousels (popular tests and why choose
    us): how many cards one view shows at a given window width, how many
    pages the cards fill, and the forward and backward step over pages. */
module Paging {
  import opened Rotation

  /** The two card carousels differ only in how many cards a desktop view shows. */
  datatype CardCarousel = PopularTests | WhyChooseUs

  /** Cards per view above the 1024-pixel breakpoint. */
  function DesktopCardsPerView(c: CardCarousel): (v: nat)
    ensures c == PopularTests ==> v == 4
    ensures c == WhyChooseUs ==> v == 3
  {
    match c
    case PopularTests => 4
    case WhyChooseUs => 3
  }

  /** `getCardsPerView`: one card up to 768 pixels, two up to 1024, the
      desktop count above. */
  function CardsPerView(c: CardCarousel, width: int): (v: nat)
    ensures 1 <= v <= DesktopCardsPerView(c)
    ensures v == 1 <==> width <= 768
    ensures 768 < width <= 1024 ==> v == 2
    ensures v == DesktopCardsPerView(c) <==> width > 1024
  {
    if width <= 768 then 1
    else if width <= 1024 then 2
    else DesktopCardsPerView(c)
  }

  /** A wider window never shows fewer cards per view. */
  lemma CardsPerViewMonotone(c: CardCarousel, w1: int, w2: int)
    requires w1 <= w2
    ensures CardsPerView(c, w1) <= CardsPerView(c, w2)
  {
  }

  /** `Math.ceil(n / v)`: the number of pages `n` cards fill at `v` per page. */
  function Pages(n: nat, v: nat): (p: nat)
    requires v >= 1
    ensures n <= p * v
    ensures p == 0 || (p - 1) * v < n
  {
    var p := (n + v - 1) / v;
    assert n + v - 1 == p * v + (n + v - 1) % v;
    assert p * v - v == (p - 1) * v;
    p
  }

  /** There is a page exactly when there is a card, and never more pages than cards. */
  lemma PagesBounds(n: nat, v: nat)
    requires v >= 1
    ensures Pages(n, v) == 0 <==> n == 0
    ensures Pages(n, v) <= n
  {
    var p := Pages(n, v);
    if p > 0 {
      TimesAtLeast(p - 1, v);
    }
  }

  /** Scaling by a positive factor does not shrink a natural number. */
  lemma TimesAtLeast(a: int, v: int)
    requires a >= 0 && v >= 1
    ensures a * v >= a
  {
    assert a * v == a * (v - 1) + a;
  }

  /** There is more than one page exactly when the cards do not fit in one
      view: the condition `n > cardsPerView` that arms auto-advance is the
      condition `maxIndex > 0` of the step functions. */
  lemma MorePagesIffOverflow(n: nat, v: nat)
    requires v >= 1
    ensures Pages(n, v) > 1 <==> n > v
  {
    var p := Pages(n, v);
    if p > 1 {
      assert (p - 1) * v >= 1 * v;
    }
    if n > v {
      assert p * v > 1 * v;
    }
  }

  /** One card per view gives one page per card. */
  lemma OnePerViewPages(n: nat)
    ensures Pages(n, 1) == n
  {
  }

  /** The first card of every page exists: the final page may be short, but
      it is never empty. */
  lemma PageStartsOnACard(n: nat, v: nat, page: nat)
    requires v >= 1 && page < Pages(n, v)
    ensures page * v < n
  {
    var p := Pages(n, v);
    assert page * v <= (p - 1) * v;
  }

  /** `nextSlide` of a card carousel: wrap forward over the pages, or stay
      at page 0 when there is at most one page. */
  function CardNext(i: nat, n: nat, v: nat): (r: nat)
    requires v >= 1
    ensures n > 0 ==> r < Pages(n, v)
    ensures Pages(n, v) <= 1 ==> r == 0
    ensures Pages(n, v) > 1 && i + 1 < Pages(n, v) ==> r == i + 1
    ensures Pages(n, v) > 1 && i + 1 == Pages(n, v) ==> r == 0
  {
    PagesBounds(n, v);
    var maxIndex := Pages(n, v) - 1;
    if maxIndex > 0 then
      var r := (i + 1) % (maxIndex + 1);
      assert r == NextIndex(i, maxIndex + 1);
      r
    else 0
  }

  /** `prevSlide` of a card carousel: wrap backward over the pages, or stay
      at page 0 when there is at most one page. */
  function CardPrev(i: nat, n: nat, v: nat): (r: nat)
    requires v >= 1
    ensures n > 0 ==> r < Pages(n, v)
    ensures Pages(n, v) <= 1 ==> r == 0
    ensures Pages(n, v) > 1 && 0 < i <= Pages(n, v) ==> r == i - 1
    ensures Pages(n, v) > 1 && i == 0 ==> r == Pages(n, v) - 1
  {
    PagesBounds(n, v);
    var maxIndex := Pages(n, v) - 1;
    if maxIndex > 0 then
      var r := (i - 1 + (maxIndex + 1)) % (maxIndex + 1);
      assert r == PrevIndex(i, maxIndex + 1);
      r
    else 0
  }

  /** Both steps land on a page that exists (page 0 when there is no card),
      whatever page they start from, even one left over from another width;
      with one page either step yields page 0. */
  lemma CardStepsInRange(i: nat, n: nat, v: nat)
    requires v >= 1
    ensures CardNext(i, n, v) < Pages(n, v) || (n == 0 && CardNext(i, n, v) == 0)
    ensures CardPrev(i, n, v) < Pages(n, v) || (n == 0 && CardPrev(i, n, v) == 0)
    ensures Pages(n, v) <= 1 ==> CardNext(i, n, v) == 0 && CardPrev(i, n, v) == 0
  {
    PagesBounds(n, v);
  }

  /** With at least one card, the guarded card steps are exactly the
      single-slide steps over pages: the `maxIndex > 0` guard changes nothing
      when there is one page, since `(i + 1) % 1 == 0`. */
  lemma CardStepsArePageRotation(i: nat, n: nat, v: nat)
    requires v >= 1 && n > 0
    ensures CardNext(i, n, v) == NextIndex(i, Pages(n, v))
    ensures CardPrev(i, n, v) == PrevIndex(i, Pages(n, v))
  {
    PagesBounds(n, v);
  }

  /** With more than one page, the forward step is `(i + 1) mod pages` and
      the backward step its inverse. */
  lemma CardPrevUndoesNext(i: nat, n: nat, v: nat)
    requires v >= 1 && i < Pages(n, v)
    ensures CardPrev(CardNext(i, n, v), n, v) == i
    ensures CardNext(CardPrev(i, n, v), n, v) == i
  {
    PagesBounds(n, v);
    CardStepsArePageRotation(i, n, v);
    CardStepsArePageRotation(CardNext(i, n, v), n, v);
    CardStepsArePageRotation(CardPrev(i, n, v), n, v);
    PrevUndoesNext(i, Pages(n, v));
    NextUndoesPrev(i, Pages(n, v));
  }

  /** `pages` forward steps of a card carousel return to the starting page. */
  lemma CardFullCycle(i: nat, n: nat, v: nat)
    requires v >= 1 && i < Pages(n, v)
    ensures CardAdvance(i, Pages(n, v), n, v) == i
  {
    var p := Pages(n, v);
    PagesBounds(n, v);
    CardAdvanceIsAdvance(i, p, n, v);
    FullCycleForward(i, p);
  }

  /** The page reached after `k` forward card steps. */
  function CardAdvance(i: nat, k: nat, n: nat, v: nat): (r: nat)
    requires v >= 1
    decreases k
  {
    if k == 0 then i else CardNext(CardAdvance(i, k - 1, n, v), n, v)
  }

  /** `k` card steps are `k` page rotations. */
  lemma {:induction false} CardAdvanceIsAdvance(i: nat, k: nat, n: nat, v: nat)
    requires v >= 1 && n > 0
    ensures CardAdvance(i, k, n, v) == Advance(i, k, Pages(n, v))
  {
    PagesBounds(n, v);
    if k > 0 {
      CardAdvanceIsAdvance(i, k - 1, n, v);
      CardStepsArePageRotation(CardAdvance(i, k - 1, n, v), n, v);
    }
  }

  /** Desktop `translateX` of the card track, in pixels, for page `index`
      with `cardWidth` pixels per card (its width plus the gap). */
  function DesktopOffset(index: nat, cardWidth: int, v: nat): (offset: int)
    ensures index == 0 ==> offset == 0
    ensures cardWidth >= 0 ==> offset <= 0
  {
    -((index as int) * cardWidth * v)
  }

  /** Each page moves the track left by exactly one view of `v` cards, and
      page `index` starts at card `index * v`. */
  lemma DesktopOffsetPerPage(index: nat, cardWidth: int, v: nat)
    ensures DesktopOffset(index + 1, cardWidth, v) == DesktopOffset(index, cardWidth, v) - v * cardWidth
    ensures DesktopOffset(index, cardWidth, v) == -((index * v) * cardWidth)
  {
    assert (index + 1) * cardWidth == index * cardWidth + cardWidth;
    assert (index * cardWidth + cardWidth) * v == index * cardWidth * v + cardWidth * v;
    assert index * cardWidth * v == (index * v) * cardWidth;
  }
}
