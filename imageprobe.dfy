/** The hero slider's image discovery. Each slide names an image number in
    its `data-image` attribute; the probe tries
    `assets/images/hero-slider/image<number>.<format>` for the formats jpg,
    jpeg, png and webp in that order and keeps the first that loads. Slides
    whose probe finds nothing are dropped. Whether a path loads is an oracle
    `loads`, standing for the browser's image loader. */
module ImageProbe {
  import opened Options

  const Formats: seq<string> := ["jpg", "jpeg", "png", "webp"]

  const HeroSliderPath: string := "assets/images/hero-slider/"

  /** The path tried for image `number` in `format`. */
  function ImagePath(number: string, format: string): (path: string) {
    HeroSliderPath + "image" + number + "." + format
  }

  /** The path of the `k`-th format tried for image `number`. */
  function CandidatePath(number: string, k: nat): (path: string)
    requires k < |Formats|
  {
    ImagePath(number, Formats[k])
  }

  /** Some format from position `k` onwards loads. */
  ghost predicate SomeLoadsFrom(number: string, loads: string -> bool, k: nat) {
    exists j :: k <= j < |Formats| && loads(CandidatePath(number, j))
  }

  /** Format `j` is the earliest from position `from` whose path loads. */
  ghost predicate EarliestLoading(number: string, loads: string -> bool, from: nat, j: nat) {
    && from <= j < |Formats|
    && loads(CandidatePath(number, j))
    && forall m :: from <= m < j ==> !loads(CandidatePath(number, m))
  }

  /** The probe's answer when it resumes at format `k`: the first loading
      path from there on, or `None`. */
  function ProbeFrom(number: string, loads: string -> bool, k: nat): (r: Option<string>)
    decreases |Formats| - k
  {
    if k >= |Formats| then None
    else if loads(CandidatePath(number, k)) then Some(CandidatePath(number, k))
    else ProbeFrom(number, loads, k + 1)
  }

  /** What `checkImageExists` resolves with. */
  function FirstLoadable(number: string, loads: string -> bool): (r: Option<string>) {
    ProbeFrom(number, loads, 0)
  }

  /** The probe from `k` finds a path iff some format from `k` loads, and the
      path it finds is the earliest such format's. */
  lemma {:induction false} ProbeFromIsFirst(number: string, loads: string -> bool, k: nat)
    ensures ProbeFrom(number, loads, k).None? <==> !SomeLoadsFrom(number, loads, k)
    ensures ProbeFrom(number, loads, k).Some? ==>
      exists j :: EarliestLoading(number, loads, k, j) && ProbeFrom(number, loads, k).value == CandidatePath(number, j)
    decreases |Formats| - k
  {
    if k < |Formats| && !loads(CandidatePath(number, k)) {
      ProbeFromIsFirst(number, loads, k + 1);
      if ProbeFrom(number, loads, k).Some? {
        var j :| EarliestLoading(number, loads, k + 1, j) && ProbeFrom(number, loads, k).value == CandidatePath(number, j);
        assert EarliestLoading(number, loads, k, j);
      }
      if SomeLoadsFrom(number, loads, k) {
        var j :| k <= j < |Formats| && loads(CandidatePath(number, j));
        assert j != k;
      }
    }
  }

  /** `checkImageExists` as its format loop: try the format at `formatIndex`,
      move to the next one on failure, and give up after the last. */
  method CheckImageExists(number: string, loads: string -> bool) returns (path: Option<string>)
    ensures path == FirstLoadable(number, loads)
    ensures path.None? <==> forall k :: 0 <= k < |Formats| ==> !loads(CandidatePath(number, k))
    ensures path.Some? ==> exists k :: EarliestLoading(number, loads, 0, k) && path.value == CandidatePath(number, k)
  {
    var formatIndex := 0;
    while formatIndex < |Formats|
      invariant 0 <= formatIndex <= |Formats|
      invariant forall m :: 0 <= m < formatIndex ==> !loads(CandidatePath(number, m))
      invariant ProbeFrom(number, loads, formatIndex) == FirstLoadable(number, loads)
    {
      var imagePath := ImagePath(number, Formats[formatIndex]);
      if loads(imagePath) {
        ProbeFromIsFirst(number, loads, 0);
        return Some(imagePath);
      }
      formatIndex := formatIndex + 1;
    }
    ProbeFromIsFirst(number, loads, 0);
    return None;
  }

  /** A slide kept by `loadAvailableSlides`: its position among all hero
      slides and the background image path chosen for it. */
  datatype ValidSlide = ValidSlide(position: nat, path: string)

  /** What the slide at `position` contributes: nothing when its
      `data-image` is missing or empty (it is never probed), nothing when no
      format loads (it is hidden), otherwise its chosen path. */
  function SlideIfFound(position: nat, number: string, loads: string -> bool): (r: seq<ValidSlide>) {
    if number == "" then []
    else match FirstLoadable(number, loads)
      case None => []
      case Some(p) => [ValidSlide(position, p)]
  }

  /** The valid slides among `images`, the `data-image` attributes of all
      hero slides in document order. */
  function ValidSlides(images: seq<string>, loads: string -> bool): (valid: seq<ValidSlide>)
    decreases |images|
  {
    if images == [] then []
    else
      var last := |images| - 1;
      ValidSlides(images[..last], loads) + SlideIfFound(last, images[last], loads)
  }

  /** A slide is valid, with a given path, exactly when it has an image
      number and the probe for it resolves with that path. */
  lemma {:induction false} ValidSlidesExactly(images: seq<string>, loads: string -> bool, s: ValidSlide)
    ensures s in ValidSlides(images, loads) <==>
      s.position < |images| && images[s.position] != ""
      && FirstLoadable(images[s.position], loads) == Some(s.path)
    decreases |images|
  {
    if images != [] {
      var last := |images| - 1;
      ValidSlidesExactly(images[..last], loads, s);
    }
  }

  /** Valid slides keep document order, and each is at a real position. */
  lemma {:induction false} ValidSlidesOrdered(images: seq<string>, loads: string -> bool)
    ensures forall a :: 0 <= a < |ValidSlides(images, loads)| ==> ValidSlides(images, loads)[a].position < |images|
    ensures forall a, b :: 0 <= a < b < |ValidSlides(images, loads)| ==>
      ValidSlides(images, loads)[a].position < ValidSlides(images, loads)[b].position
    decreases |images|
  {
    if images != [] {
      var last := |images| - 1;
      ValidSlidesOrdered(images[..last], loads);
    }
  }

  /** `loadAvailableSlides`: probe every slide that has an image number and
      push, in document order, those whose probe found a path. */
  method LoadAvailableSlides(images: seq<string>, loads: string -> bool) returns (valid: seq<ValidSlide>)
    ensures valid == ValidSlides(images, loads)
  {
    valid := [];
    var i := 0;
    while i < |images|
      invariant 0 <= i <= |images|
      invariant valid == ValidSlides(images[..i], loads)
    {
      assert images[..i + 1][..i] == images[..i];
      if images[i] != "" {
        var imagePath := CheckImageExists(images[i], loads);
        if imagePath.Some? {
          valid := valid + [ValidSlide(i, imagePath.value)];
        }
      }
      i := i + 1;
    }
    assert images[..|images|] == images;
  }
}
