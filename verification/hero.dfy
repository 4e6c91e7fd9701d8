/**
 * The hero carousel: a list of image paths, the index of the one shown, a
 * timer tick that advances the index modulo the number of images (only
 * scheduled when there is an image), and one indicator button per image
 * that selects it directly.
 */
module Hero {
  import opened Opt

  /** The configured images: a single one. */
  const Images: seq<string> := ["/images/bio1.jpg"]

  /** The carousel state; `loading` is always false in the configured page. */
  datatype Carousel = Carousel(images: seq<string>, index: int, loading: bool)

  /** The state on first render. */
  function Initial(images: seq<string>): Carousel {
    Carousel(images, 0, false)
  }

  /** What can happen: the rotation timer fires, or indicator `k` is clicked. */
  datatype HeroEvent = Tick | Pick(k: int)

  /** JavaScript's `%`: the remainder takes the sign of the dividend. */
  function JsRem(a: int, b: int): (r: int)
    requires b > 0
    ensures a >= 0 ==> 0 <= r < b && r == a % b
    ensures a < 0 ==> -b < r <= 0
  {
    if a >= 0 then a % b else -((-a) % b)
  }

  /** `(i + 1) % count`: the next image, wrapping from the last to the first. */
  function Advance(index: int, count: nat): (r: int)
    requires count > 0
    ensures 0 <= index < count ==> 0 <= r < count
    ensures 0 <= index < count - 1 ==> r == index + 1
    ensures index == count - 1 ==> r == 0
  {
    JsRem(index + 1, count)
  }

  /** The timer is set up only when there is at least one image. */
  predicate RotationScheduled(images: seq<string>) {
    |images| > 0
  }

  /** The indicators are drawn only when not loading and there is an image. */
  predicate IndicatorsShown(c: Carousel) {
    !c.loading && |c.images| > 0
  }

  /** One event: a tick advances when the timer exists; a click on a drawn indicator selects it. */
  function Handle(c: Carousel, e: HeroEvent): (c': Carousel)
    ensures c'.images == c.images && c'.loading == c.loading
    ensures e.Tick? && !RotationScheduled(c.images) ==> c' == c
    ensures e.Tick? && RotationScheduled(c.images) ==> c'.index == Advance(c.index, |c.images|)
    ensures e.Pick? && IndicatorsShown(c) && 0 <= e.k < |c.images| ==> c'.index == e.k
  {
    match e
    case Tick => if RotationScheduled(c.images) then c.(index := Advance(c.index, |c.images|)) else c
    case Pick(k) => if IndicatorsShown(c) && 0 <= k < |c.images| then c.(index := k) else c
  }

  function Run(c: Carousel, events: seq<HeroEvent>): Carousel
    decreases |events|
  {
    if events == [] then c else Run(Handle(c, events[0]), events[1..])
  }

  /** The index names an image whenever there is one. */
  predicate IndexValid(c: Carousel) {
    0 <= c.index && (|c.images| > 0 ==> c.index < |c.images|)
  }

  /** From the first render on, the index always names an image. */
  lemma {:induction false} RunKeepsIndexValid(c: Carousel, events: seq<HeroEvent>)
    requires IndexValid(c)
    ensures IndexValid(Run(c, events))
    ensures Run(c, events).images == c.images
    decreases |events|
  {
    if events != [] {
      RunKeepsIndexValid(Handle(c, events[0]), events[1..]);
    }
  }

  function Ticks(n: nat): (ts: seq<HeroEvent>)
    ensures |ts| == n
    ensures forall i :: 0 <= i < n ==> ts[i] == Tick
  {
    seq(n, _ => Tick)
  }

  /** After `n` ticks the index has moved `n` places around the circle. */
  lemma {:induction false} TicksMoveAround(c: Carousel, n: nat)
    requires RotationScheduled(c.images) && IndexValid(c)
    ensures Run(c, Ticks(n)).index == (c.index + n) % |c.images|
    decreases n
  {
    if n > 0 {
      var c' := Handle(c, Tick);
      assert Ticks(n)[1..] == Ticks(n - 1);
      TicksMoveAround(c', n - 1);
      var len := |c.images|;
      assert c'.index == (c.index + 1) % len;
      ModAddMod(c.index + 1, n - 1, len);
    }
  }

  lemma MulNonNegative(x: int, m: int)
    requires x >= 0 && m >= 0
    ensures x * m >= 0
  {
  }

  /** The only multiple of `m` strictly between `-m` and `m` is zero. */
  lemma ZeroMultiple(k: int, m: int)
    requires m > 0 && -m < k * m < m
    ensures k == 0
  {
    if k > 0 {
      MulNonNegative(k - 1, m);
    } else if k < 0 {
      MulNonNegative(-k - 1, m);
    }
  }

  /** The remainder is determined by `a == d * m + r` with `0 <= r < m`. */
  lemma DivModUnique(a: int, m: int, d: int, r: int)
    requires m > 0 && 0 <= r < m && a == d * m + r
    ensures a % m == r
  {
    var k := d - a / m;
    assert a == (a / m) * m + a % m;
    assert k * m == d * m - (a / m) * m;
    ZeroMultiple(k, m);
  }

  lemma ModAddMod(a: int, b: int, m: int)
    requires m > 0
    ensures (a % m + b) % m == (a + b) % m
  {
    var x := a % m + b;
    var d, r := x / m, x % m;
    assert x == d * m + r;
    assert a + b == (d + a / m) * m + r by {
      assert a == (a / m) * m + a % m;
      assert (d + a / m) * m == d * m + (a / m) * m;
    }
    DivModUnique(a + b, m, d + a / m, r);
  }

  /** As many ticks as there are images bring the carousel back to where it was. */
  lemma FullRotationReturns(c: Carousel)
    requires RotationScheduled(c.images) && IndexValid(c)
    ensures Run(c, Ticks(|c.images|)).index == c.index
  {
    TicksMoveAround(c, |c.images|);
    DivModUnique(c.index + |c.images|, |c.images|, 1, c.index);
  }

  /** With the single configured image the index is always 0, whatever happens. */
  lemma ConfiguredCarouselStaysOnFirst(events: seq<HeroEvent>)
    ensures Run(Initial(Images), events).index == 0
  {
    RunKeepsIndexValid(Initial(Images), events);
  }

  /** What the hero section draws: the current image and one indicator per image, true for the active one. */
  datatype Slide = Slide(src: string, indicators: seq<bool>)

  /**
   * The image and indicators are drawn only when not loading and there is an
   * image; then exactly the indicator of the current index is active.
   */
  function View(c: Carousel): (v: Option<Slide>)
    requires IndexValid(c)
    ensures v.Some? <==> IndicatorsShown(c)
    ensures v.Some? ==> v.value.src == c.images[c.index]
    ensures v.Some? ==> |v.value.indicators| == |c.images|
    ensures v.Some? ==> forall k :: 0 <= k < |c.images| ==> (v.value.indicators[k] <==> k == c.index)
  {
    if IndicatorsShown(c) then
      Some(Slide(c.images[c.index], seq(|c.images|, k => k == c.index)))
    else None
  }

  /** Clicking an indicator makes exactly that indicator the active one. */
  lemma PickActivates(c: Carousel, k: int)
    requires IndexValid(c) && IndicatorsShown(c) && 0 <= k < |c.images|
    ensures View(Handle(c, Pick(k))).Some?
    ensures forall j :: 0 <= j < |c.images| ==> (View(Handle(c, Pick(k))).value.indicators[j] <==> j == k)
  {
  }
}
