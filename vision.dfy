/** The image-processing layer the recognition engine stands on, kept
    abstract: images are shapes with an opaque content tag, and OpenCV's
    correlation and histogram comparison are functions supplied by the caller.
    What is modelled exactly is what the engine does with their answers:
    `minMaxLoc` over a score map, the colour-to-grey conversion rule, and the
    `(x, y, w, h)` boxes it reports. */
module Vision {
  import opened Basics

  /** A pixel buffer: `shape == (height, width, 3)` when `color`, else
      `(height, width)`. `content` stands for the pixel values, which no
      decision of the engine inspects directly. */
  datatype Image = Image(height: nat, width: nat, color: bool, content: int)

  /** `cv2.cvtColor(img, cv2.COLOR_BGR2GRAY)`: defined only for a 3-channel
      input; OpenCV raises on a single-plane one. */
  function ToGray(img: Image): (r: Option<Image>)
    ensures r.Some? <==> img.color
    ensures r.Some? ==> !r.value.color && r.value.height == img.height && r.value.width == img.width
  {
    if img.color then Some(img.(color := false)) else None
  }

  /** The OpenCV matching constants the engine distinguishes. */
  datatype MatchMethod = SqDiff | SqDiffNormed | CCorr | CCorrNormed | CCoeff | CCoeffNormed
  {
    /** For the squared-difference methods a LOW score is a good match. */
    predicate IsSqDiff() { this == SqDiff || this == SqDiffNormed }
  }

  /** One entry of a `cv2.matchTemplate` result: the score of the template
      placed with its top-left corner at `(x, y)`. */
  datatype Cell = Cell(x: int, y: int, score: real)

  /** A `cv2.matchTemplate` result in row-major scan order, or the exception
      it raised (a template larger than the image, mismatched depths, ...). */
  datatype ScoreMap = Raised | Scores(cells: seq<Cell>)

  /** The numerical kernels, as given functions of their inputs.
      `correlate(image, template, method)` is `cv2.matchTemplate`;
      `histCorrel(template, image, x, y)` is the HSV-histogram correlation of
      the template against the equally sized region of `image` at `(x, y)`. */
  datatype Kernels = Kernels(
    correlate: (Image, Image, MatchMethod) -> ScoreMap,
    histCorrel: (Image, Image, int, int) -> real)

  /** A position and size in capture-local pixels, `(x, y, w, h)`. */
  datatype Box = Box(x: int, y: int, w: int, h: int)

  const NoBox := Box(0, 0, 0, 0)

  /** A confidence and the top-left corner it was obtained at. */
  datatype Scored = Scored(confidence: real, x: int, y: int)

  /** Index of the first maximal cell (`minMaxLoc`'s `max_loc`). */
  function ArgMax(cells: seq<Cell>): (k: nat)
    requires |cells| > 0
    ensures k < |cells|
    ensures forall i :: 0 <= i < |cells| ==> cells[i].score <= cells[k].score
    ensures forall i :: 0 <= i < k ==> cells[i].score < cells[k].score
  {
    if |cells| == 1 then 0
    else
      var k := ArgMax(cells[..|cells| - 1]);
      if cells[|cells| - 1].score > cells[k].score then |cells| - 1 else k
  }

  /** Index of the first minimal cell (`minMaxLoc`'s `min_loc`). */
  function ArgMin(cells: seq<Cell>): (k: nat)
    requires |cells| > 0
    ensures k < |cells|
    ensures forall i :: 0 <= i < |cells| ==> cells[k].score <= cells[i].score
    ensures forall i :: 0 <= i < k ==> cells[k].score < cells[i].score
  {
    if |cells| == 1 then 0
    else
      var k := ArgMin(cells[..|cells| - 1]);
      if cells[|cells| - 1].score < cells[k].score then |cells| - 1 else k
  }

  /** The confidence a correlation attempt yields: `1 - min_val` at
      `min_loc` for the squared-difference methods, `max_val` at `max_loc`
      otherwise; `None` when `matchTemplate`/`minMaxLoc` raised. */
  function Extreme(scores: ScoreMap, mode: MatchMethod): (r: Option<Scored>)
    ensures scores.Raised? || |scores.cells| == 0 ==> r.None?
    ensures r.Some? && mode.IsSqDiff() ==>
      exists i :: 0 <= i < |scores.cells| && r.value == Scored(1.0 - scores.cells[i].score, scores.cells[i].x, scores.cells[i].y)
    ensures r.Some? && mode.IsSqDiff() ==>
      forall i :: 0 <= i < |scores.cells| ==> 1.0 - scores.cells[i].score <= r.value.confidence
    ensures r.Some? && !mode.IsSqDiff() ==>
      exists i :: 0 <= i < |scores.cells| && r.value == Scored(scores.cells[i].score, scores.cells[i].x, scores.cells[i].y)
    ensures r.Some? && !mode.IsSqDiff() ==>
      forall i :: 0 <= i < |scores.cells| ==> scores.cells[i].score <= r.value.confidence
  {
    if scores.Raised? || |scores.cells| == 0 then None
    else if mode.IsSqDiff() then
      var c := scores.cells[ArgMin(scores.cells)];
      Some(Scored(1.0 - c.score, c.x, c.y))
    else
      var c := scores.cells[ArgMax(scores.cells)];
      Some(Scored(c.score, c.x, c.y))
  }

  /** The centre of a matched box, with Python's floor division. */
  function Centre(b: Box): (c: (int, int))
    ensures b.w > 0 ==> b.x <= c.0 < b.x + b.w
    ensures b.h > 0 ==> b.y <= c.1 < b.y + b.h
  {
    (b.x + b.w / 2, b.y + b.h / 2)
  }
}
