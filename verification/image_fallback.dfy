/**
 * The image wrappers: each shows its `src` until the image reports a load
 * error, then switches for good to a fixed placeholder path. The shown source
 * lives in component state seeded from the FIRST `src` only, so later
 * re-renders with other props change the alt text or class but never the
 * shown source.
 */
module ImageFallback {
  import opened Opt

  const EventPlaceholder: string := "/images/event-placeholder.svg"
  const VideoPlaceholder: string := "/images/video-placeholder.svg"

  /** The class used when the caller passes none (or an empty one). */
  const DefaultClassName: string := "object-cover"

  /** Every property any wrapper accepts; a wrapper that does not declare one never forwards it. */
  datatype ImageProps = ImageProps(
    src: string,
    alt: string,
    className: Option<string>,
    priority: Option<bool>,
    sizes: Option<string>)

  /** What the wrapped image element is given. */
  datatype RenderedImage = RenderedImage(
    src: string,
    alt: string,
    className: string,
    priority: Option<bool>,
    sizes: Option<string>)

  /** A mounted wrapper: the props of its latest render and the source it currently shows. */
  datatype Instance = Instance(props: ImageProps, shown: string)

  /** What can happen to a mounted wrapper: the image fails to load, or the parent renders it again. */
  datatype Signal = LoadError | Rerender(props: ImageProps)

  /** Mounting seeds the shown source from `src`. */
  function Mount(props: ImageProps): (i: Instance)
    ensures i.shown == props.src && i.props == props
  {
    Instance(props, props.src)
  }

  /** One transition: an error shows the placeholder; a re-render only replaces the props. */
  function Handle(i: Instance, placeholder: string, s: Signal): Instance {
    match s
    case LoadError => i.(shown := placeholder)
    case Rerender(props) => i.(props := props)
  }

  /** The props of the latest render. */
  function LatestProps(first: ImageProps, signals: seq<Signal>): ImageProps
    decreases |signals|
  {
    if signals == [] then first
    else LatestProps(if signals[0].Rerender? then signals[0].props else first, signals[1..])
  }

  /**
   * The wrapper after a run of signals: the shown source is the placeholder
   * once any error has occurred and the starting source otherwise, whatever
   * `src` later renders pass.
   */
  function Run(i: Instance, placeholder: string, signals: seq<Signal>): (j: Instance)
    ensures j.shown == (if LoadError in signals then placeholder else i.shown)
    ensures j.shown == i.shown || j.shown == placeholder
    ensures j.props == LatestProps(i.props, signals)
    decreases |signals|
  {
    if signals == [] then i
    else
      assert signals == [signals[0]] + signals[1..];
      Run(Handle(i, placeholder, signals[0]), placeholder, signals[1..])
  }

  /** Running two batches of signals is running them one after the other. */
  lemma {:induction false} RunComposes(i: Instance, placeholder: string, a: seq<Signal>, b: seq<Signal>)
    ensures Run(i, placeholder, a + b) == Run(Run(i, placeholder, a), placeholder, b)
    decreases |a|
  {
    if a != [] {
      assert (a + b)[0] == a[0];
      assert (a + b)[1..] == a[1..] + b;
      RunComposes(Handle(i, placeholder, a[0]), placeholder, a[1..], b);
    } else {
      assert a + b == b;
    }
  }

  /**
   * The fallback is absorbing: once the placeholder is shown, no signal
   * brings the original back, and further errors change nothing.
   */
  lemma FallbackAbsorbing(props: ImageProps, placeholder: string, before: seq<Signal>, after: seq<Signal>)
    requires LoadError in before
    ensures Run(Mount(props), placeholder, before + after).shown == placeholder
    ensures Run(Mount(props), placeholder, before + [LoadError]) == Run(Mount(props), placeholder, before)
  {
    RunComposes(Mount(props), placeholder, before, after);
    RunComposes(Mount(props), placeholder, before, [LoadError]);
  }

  /** `className || 'object-cover'`: a missing or empty class falls back to the default. */
  function ClassNameOrDefault(c: Option<string>): (r: string)
    ensures r != ""
    ensures c.Some? && c.value != "" ==> r == c.value
    ensures c.None? || c.value == "" ==> r == DefaultClassName
  {
    if c.Some? && c.value != "" then c.value else DefaultClassName
  }

  /** EventCardImage: event placeholder; forwards alt, sizes and priority. */
  function EventCardImage(first: ImageProps, signals: seq<Signal>): (img: RenderedImage)
    ensures img.src == (if LoadError in signals then EventPlaceholder else first.src)
    ensures var p := LatestProps(first, signals);
      img.alt == p.alt && img.className == ClassNameOrDefault(p.className) &&
      img.priority == p.priority && img.sizes == p.sizes
  {
    var i := Run(Mount(first), EventPlaceholder, signals);
    RenderedImage(i.shown, i.props.alt, ClassNameOrDefault(i.props.className), i.props.priority, i.props.sizes)
  }

  /** ResourceCardImage: video placeholder; forwards alt, sizes and priority. */
  function ResourceCardImage(first: ImageProps, signals: seq<Signal>): (img: RenderedImage)
    ensures img.src == (if LoadError in signals then VideoPlaceholder else first.src)
    ensures var p := LatestProps(first, signals);
      img.alt == p.alt && img.className == ClassNameOrDefault(p.className) &&
      img.priority == p.priority && img.sizes == p.sizes
  {
    var i := Run(Mount(first), VideoPlaceholder, signals);
    RenderedImage(i.shown, i.props.alt, ClassNameOrDefault(i.props.className), i.props.priority, i.props.sizes)
  }

  /** EventImage: event placeholder; forwards alt and priority, has no sizes. */
  function EventImage(first: ImageProps, signals: seq<Signal>): (img: RenderedImage)
    ensures img.src == (if LoadError in signals then EventPlaceholder else first.src)
    ensures var p := LatestProps(first, signals);
      img.alt == p.alt && img.className == ClassNameOrDefault(p.className) &&
      img.priority == p.priority && img.sizes == None
  {
    var i := Run(Mount(first), EventPlaceholder, signals);
    RenderedImage(i.shown, i.props.alt, ClassNameOrDefault(i.props.className), i.props.priority, None)
  }

  /** RelatedEventImage: event placeholder; forwards alt only. */
  function RelatedEventImage(first: ImageProps, signals: seq<Signal>): (img: RenderedImage)
    ensures img.src == (if LoadError in signals then EventPlaceholder else first.src)
    ensures var p := LatestProps(first, signals);
      img.alt == p.alt && img.className == ClassNameOrDefault(p.className) &&
      img.priority == None && img.sizes == None
  {
    var i := Run(Mount(first), EventPlaceholder, signals);
    RenderedImage(i.shown, i.props.alt, ClassNameOrDefault(i.props.className), None, None)
  }

  /** GalleryImage: event placeholder; forwards alt only. */
  function GalleryImage(first: ImageProps, signals: seq<Signal>): (img: RenderedImage)
    ensures img.src == (if LoadError in signals then EventPlaceholder else first.src)
    ensures var p := LatestProps(first, signals);
      img.alt == p.alt && img.className == ClassNameOrDefault(p.className) &&
      img.priority == None && img.sizes == None
  {
    var i := Run(Mount(first), EventPlaceholder, signals);
    RenderedImage(i.shown, i.props.alt, ClassNameOrDefault(i.props.className), None, None)
  }
}
