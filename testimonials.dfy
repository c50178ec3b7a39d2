/** The testimonials slider: one testimonial active at a time, a button per
    testimonial that selects it, and a permanent auto-advance interval when
    there is more than one testimonial. It has no hover pause, no previous
    or next buttons and no resize handling, and its interval is never
    cleared. */
module Testimonials {
  import opened Rotation

  class TestimonialSlider {
    /** Number of testimonial items. */
    const n: nat
    /** Number of `.slider-btn` buttons, counted independently of the items. */
    const buttons: nat
    /** Whether the auto-advance interval was started. */
    const autoSlide: bool
    /** `currentIndex`: the testimonial (and button) marked active. */
    var index: nat

    ghost predicate Valid()
      reads this
    {
      n > 0 && autoSlide == (n > 1)
    }

    /** `initTestimonialSlider` with at least one item: testimonial 0 is
        active and the interval runs exactly when there is more than one. */
    constructor (n: nat, buttons: nat)
      requires n > 0
      ensures Valid() && this.n == n && this.buttons == buttons && index == 0
      ensures autoSlide <==> n > 1
    {
      this.n := n;
      this.buttons := buttons;
      autoSlide := n > 1;
      index := 0;
    }

    /** Whether some testimonial is shown: the buttons are not tied to the
        number of items, so a button beyond the last item selects none. */
    predicate ShowsTestimonial()
      reads this
    {
      index < n
    }

    /** Button `k`: make testimonial `k` active, without touching the interval. */
    method ClickButton(k: nat)
      requires Valid() && k < buttons
      modifies this
      ensures Valid() && index == k
      ensures ShowsTestimonial() <==> k < n
    {
      index := k;
    }

    /** A firing of the interval: advance with wrap-around. This also brings
        an index left beyond the last item by a button back into range. */
    method Tick()
      requires Valid() && autoSlide
      modifies this
      ensures Valid() && index == NextIndex(old(index), n)
      ensures ShowsTestimonial()
    {
      index := NextIndex(index, n);
    }
  }

  /** `initTestimonialSlider`: with no items nothing is set up. */
  method InitTestimonials(n: nat, buttons: nat) returns (slider: TestimonialSlider?)
    ensures slider == null <==> n == 0
    ensures slider != null ==> fresh(slider) && slider.Valid() && slider.n == n && slider.index == 0
    ensures slider != null ==> slider.buttons == buttons && (slider.autoSlide <==> n > 1)
  {
    if n == 0 {
      return null;
    }
    slider := new TestimonialSlider(n, buttons);
  }
}
