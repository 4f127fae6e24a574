/** The recognition engine of `core/image_recognition.py`: a table of named
    template images, loaded from a directory listing or added one at a time,
    and three searches over a capture — best single match (native and
    greyscale correlation, the better one wins), every match above a
    threshold with greedy distance-based deduplication, and colour-histogram
    re-scoring of correlation candidates. */
module Recognition {
  import opened Basics
  import opened Vision

  // ---------------------------------------------------------------------
  // Template table and loading
  // ---------------------------------------------------------------------

  /** One entry of a directory listing: the file name and what `cv2.imread`
      made of the file (`None`: unreadable or not an image). */
  datatype DirEntry = DirEntry(filename: string, decoded: Option<Image>)

  /** name -> image; `add_template` may store `None`. */
  type Templates = map<string, Option<Image>>

  /** `filename.lower().endswith(('.png', '.jpg', '.jpeg'))`. */
  predicate Admitted(filename: string)
  {
    var low := LowerString(filename);
    EndsWith(low, ".png") || EndsWith(low, ".jpg") || EndsWith(low, ".jpeg")
  }

  /** Index of the last '.' of `s`, or -1. */
  function LastDot(s: string): (k: int)
    ensures -1 <= k < |s|
    ensures k >= 0 ==> s[k] == '.'
    ensures forall j :: k < j < |s| ==> s[j] != '.'
  {
    if s == [] then -1
    else if s[|s| - 1] == '.' then |s| - 1
    else LastDot(s[..|s| - 1])
  }

  predicate AllDots(s: string)
  {
    forall j :: 0 <= j < |s| ==> s[j] == '.'
  }

  /** `os.path.splitext(filename)[0]` for a bare file name: everything before
      the last dot, unless only dots precede it (".png" has no extension). */
  function Stem(filename: string): (stem: string)
    ensures stem <= filename
  {
    var d := LastDot(filename);
    if d >= 0 && !AllDots(filename[..d]) then filename[..d] else filename
  }

  /** A file name with no dot of its own, followed by an extension, loses
      exactly the extension: the key of "button.png" is "button". */
  lemma StemDropsExtension(base: string, ext: string)
    requires |base| > 0 && '.' !in base
    requires |ext| > 0 && ext[0] == '.' && '.' !in ext[1..]
    ensures Stem(base + ext) == base
  {
    var s := base + ext;
    var d := LastDot(s);
    assert s[|base|] == '.';
    forall j | |base| < j < |s| ensures s[j] != '.'
    {
      assert s[j] == ext[1..][j - |base| - 1];
    }
    assert d == |base|;
    assert s[..d] == base;
    assert s[0] == base[0] && base[0] in base;
    assert !AllDots(s[..d]);
  }

  /** The entries `load_templates` stores: an admitted name that decoded. */
  predicate Loads(e: DirEntry)
  {
    Admitted(e.filename) && e.decoded.Some?
  }

  /** What `load_templates` does with one listing entry. */
  function LoadOne(m: Templates, e: DirEntry): Templates
  {
    if Loads(e) then m[Stem(e.filename) := e.decoded] else m
  }

  /** The table after `load_templates` has gone through `listing` in order. */
  function Load(m: Templates, listing: seq<DirEntry>): (r: Templates)
    ensures m.Keys <= r.Keys
    ensures forall key :: key in m && key !in LoadedStems(listing) ==> r[key] == m[key]
  {
    if listing == [] then m
    else LoadOne(Load(m, listing[..|listing| - 1]), listing[|listing| - 1])
  }

  /** The count `load_templates` returns: admitted files that decoded. */
  function LoadCount(listing: seq<DirEntry>): (n: nat)
    ensures n <= |listing|
  {
    if listing == [] then 0
    else LoadCount(listing[..|listing| - 1]) + (if Loads(listing[|listing| - 1]) then 1 else 0)
  }

  /** The stems a listing contributes: those of the admitted files that
      decoded. */
  function LoadedStems(listing: seq<DirEntry>): set<string>
  {
    if listing == [] then {}
    else
      var e := listing[|listing| - 1];
      LoadedStems(listing[..|listing| - 1]) + (if Loads(e) then {Stem(e.filename)} else {})
  }

  lemma LoadOneOverrides(m: Templates, n: Templates, e: DirEntry)
    ensures LoadOne(m + n, e) == m + LoadOne(n, e)
  {
    if Loads(e) {
      var k := Stem(e.filename);
      assert (m + n)[k := e.decoded] == m + n[k := e.decoded];
    }
  }

  /** Loading overwrites: entries already in the table are replaced, never
      merged, so loading into `m + n` is `m` overridden by loading into `n`. */
  lemma {:induction false} LoadOverrides(m: Templates, n: Templates, listing: seq<DirEntry>)
    ensures Load(m + n, listing) == m + Load(n, listing)
  {
    if listing != [] {
      var init, e := listing[..|listing| - 1], listing[|listing| - 1];
      LoadOverrides(m, n, init);
      LoadOneOverrides(m, Load(n, init), e);
    }
  }

  /** Loading the same directory twice leaves the same table as loading it
      once. */
  lemma LoadIdempotent(m: Templates, listing: seq<DirEntry>)
    ensures Load(Load(m, listing), listing) == Load(m, listing)
  {
    var l := Load(map[], listing);
    LoadOverrides(m, map[], listing);
    assert m + map[] == m;
    LoadOverrides(m + l, map[], listing);
    assert (m + l) + map[] == m + l;
    assert (m + l) + l == m + l;
  }

  /** Every admitted, decoded file of the listing contributes its stem. */
  lemma {:induction false} LoadedStemsHas(listing: seq<DirEntry>, i: int)
    requires 0 <= i < |listing| && Loads(listing[i])
    ensures Stem(listing[i].filename) in LoadedStems(listing)
  {
    if i < |listing| - 1 {
      var init := listing[..|listing| - 1];
      assert init[i] == listing[i];
      LoadedStemsHas(init, i);
    }
  }

  /** Every contributed stem comes from an admitted, decoded file. */
  lemma {:induction false} LoadedStemsFrom(listing: seq<DirEntry>, s: string)
    requires s in LoadedStems(listing)
    ensures exists i :: 0 <= i < |listing| && Loads(listing[i]) && Stem(listing[i].filename) == s
  {
    var init, e := listing[..|listing| - 1], listing[|listing| - 1];
    if s in LoadedStems(init) {
      LoadedStemsFrom(init, s);
      var i :| 0 <= i < |init| && Loads(init[i]) && Stem(init[i].filename) == s;
      assert listing[i] == init[i];
    } else {
      assert Loads(e) && Stem(listing[|listing| - 1].filename) == s;
    }
  }

  /** The keys after loading are the old keys plus the stems of the admitted,
      decoded files, and nothing else. */
  lemma {:induction false} LoadKeys(m: Templates, listing: seq<DirEntry>)
    ensures Load(m, listing).Keys == m.Keys + LoadedStems(listing)
  {
    if listing != [] {
      LoadKeys(m, listing[..|listing| - 1]);
    }
  }

  /** The returned count bounds the number of new keys; it exceeds it when
      two files share a stem ("a.png" and "a.jpg") or a stem was present. */
  lemma {:induction false} LoadCountBoundsNewKeys(m: Templates, listing: seq<DirEntry>)
    ensures |Load(m, listing).Keys - m.Keys| <= LoadCount(listing)
  {
    if listing != [] {
      var init := listing[..|listing| - 1];
      LoadCountBoundsNewKeys(m, init);
      var before := Load(m, init);
      var e := listing[|listing| - 1];
      if Loads(e) {
        assert Load(m, listing).Keys - m.Keys <= (before.Keys - m.Keys) + {Stem(e.filename)};
        SubsetCard(Load(m, listing).Keys - m.Keys, (before.Keys - m.Keys) + {Stem(e.filename)});
      }
    }
  }

  lemma SubsetCard<T>(a: set<T>, b: set<T>)
    requires a <= b
    ensures |a| <= |b|
  {
    assert b == a + (b - a);
  }

  // ---------------------------------------------------------------------
  // Channel harmonisation (see the finding in README)
  // ---------------------------------------------------------------------

  /** The conversion as written at lines 93-97 and 171-175: when the depths
      differ it converts the TEMPLATE if the image is 3-channel, otherwise the
      IMAGE — in both cases the single-plane side, on which `BGR2GRAY`
      raises. `None` stands for that exception. */
  function ConvertAsWritten(img: Image, tpl: Image): (r: Option<(Image, Image)>)
    ensures img.color == tpl.color ==> r == Some((img, tpl))
  {
    if img.color == tpl.color then Some((img, tpl))
    else if img.color then
      (match ToGray(tpl) case Some(g) => Some((img, g)) case None => None)
    else
      (match ToGray(img) case Some(g) => Some((g, tpl)) case None => None)
  }

  /** A colour/gray mismatch in either direction makes the as-written
      conversion apply BGR2GRAY to the single-plane side, which raises. */
  lemma ConvertAsWrittenRaisesOnMismatch(img: Image, tpl: Image)
    requires img.color != tpl.color
    ensures ConvertAsWritten(img, tpl).None?
  {
  }

  /** The intended conversion: when the depths differ, the 3-channel side is
      turned to greyscale, so both sides have the same depth and their shapes
      are kept. */
  function Harmonise(img: Image, tpl: Image): (r: (Image, Image))
    ensures r.0.color == r.1.color
    ensures r.0.height == img.height && r.0.width == img.width
    ensures r.1.height == tpl.height && r.1.width == tpl.width
    ensures img.color == tpl.color ==> r == (img, tpl)
    ensures img.color != tpl.color ==> !r.0.color
  {
    if img.color == tpl.color then (img, tpl)
    else if img.color then (ToGray(img).value, tpl)
    else (img, ToGray(tpl).value)
  }

  /** The corrected conversion agrees with the written one wherever the
      written one does not raise. */
  lemma HarmoniseExtendsAsWritten(img: Image, tpl: Image)
    ensures ConvertAsWritten(img, tpl).Some? ==> ConvertAsWritten(img, tpl).value == Harmonise(img, tpl)
  {
  }

  // ---------------------------------------------------------------------
  // find_template
  // ---------------------------------------------------------------------

  /** `(found, (x, y, w, h), confidence)`. */
  datatype Match = Match(found: bool, box: Box, confidence: real)

  const NotFound := Match(false, NoBox, 0.0)

  /** The running best of `find_template` / `find_by_histogram`. */
  datatype Best = Best(confidence: real, box: Box)

  const Start := Best(0.0, NoBox)

  /** One `if confidence > best_confidence` update; ties keep the earlier. */
  function Improve(b: Best, a: Option<Scored>, tpl: Image): (r: Best)
    ensures r == b || (a.Some? && a.value.confidence > b.confidence &&
                        r == Best(a.value.confidence, Box(a.value.x, a.value.y, tpl.width, tpl.height)))
    ensures a.Some? && a.value.confidence > b.confidence ==> r.confidence == a.value.confidence
    ensures r.confidence >= b.confidence
  {
    if a.Some? && a.value.confidence > b.confidence
    then Best(a.value.confidence, Box(a.value.x, a.value.y, tpl.width, tpl.height))
    else b
  }

  /** The first attempt: correlation of the depth-harmonised pair. */
  function NativeAttempt(img: Image, tpl: Image, mode: MatchMethod, k: Kernels): (r: Option<Scored>)
  {
    var pair := Harmonise(img, tpl);
    Extreme(k.correlate(pair.0, pair.1, mode), mode)
  }

  /** The second attempt: both sides forced to greyscale, tried only when both
      are 3-channel. */
  function GrayAttempt(img: Image, tpl: Image, mode: MatchMethod, k: Kernels): (r: Option<Scored>)
    ensures !(img.color && tpl.color) ==> r.None?
  {
    if img.color && tpl.color
    then Extreme(k.correlate(ToGray(img).value, ToGray(tpl).value, mode), mode)
    else None
  }

  function ConfidenceOf(a: Option<Scored>): real
  {
    if a.Some? then a.value.confidence else 0.0
  }

  /** `find_template(image, name, threshold, method)`. */
  function TemplateMatch(ts: Templates, image: Option<Image>, name: string, threshold: real,
                         mode: MatchMethod, k: Kernels): (r: Match)
    ensures name !in ts || image.None? || ts[name].None? ==> r == NotFound
    ensures !r.found ==> r.box == NoBox
  {
    if name !in ts || image.None? || ts[name].None? then NotFound
    else
      var img, tpl := image.value, ts[name].value;
      var b := Improve(Improve(Start, NativeAttempt(img, tpl, mode, k), tpl), GrayAttempt(img, tpl, mode, k), tpl);
      if b.confidence >= threshold then Match(true, b.box, b.confidence)
      else Match(false, NoBox, b.confidence)
  }

  /** The confidence `find_template` reports is the largest of 0, the native
      score and the greyscale score; it is found exactly when that reaches the
      threshold (inclusive); and a positive confidence comes with a box of the
      template's own size at the FIRST attempt reaching it. */
  lemma TemplateMatchSelectsBest(ts: Templates, image: Option<Image>, name: string, threshold: real,
                                 mode: MatchMethod, k: Kernels)
    requires name in ts && image.Some? && ts[name].Some?
    ensures var r := TemplateMatch(ts, image, name, threshold, mode, k);
            var img, tpl := image.value, ts[name].value;
            var a1, a2 := NativeAttempt(img, tpl, mode, k), GrayAttempt(img, tpl, mode, k);
            && r.confidence >= 0.0
            && r.confidence >= ConfidenceOf(a1) && r.confidence >= ConfidenceOf(a2)
            && (r.confidence == 0.0 || r.confidence == ConfidenceOf(a1) || r.confidence == ConfidenceOf(a2))
            && (r.found <==> r.confidence >= threshold)
            && (r.found && r.confidence > 0.0 ==> r.box.w == tpl.width && r.box.h == tpl.height)
            && (r.found && r.confidence > 0.0 && a1.Some? && a1.value.confidence == r.confidence ==>
                  r.box == Box(a1.value.x, a1.value.y, tpl.width, tpl.height))
            && (r.found && r.confidence > 0.0 && ConfidenceOf(a1) < r.confidence ==>
                  r.box == Box(a2.value.x, a2.value.y, tpl.width, tpl.height))
  {
  }

  /** When the kernels never score above 1 (for the squared-difference
      methods: never below 0), a threshold above 1 is never met. */
  lemma TemplateMatchAboveOneNeverFound(ts: Templates, image: Option<Image>, name: string, threshold: real,
                                        mode: MatchMethod, k: Kernels)
    requires threshold > 1.0
    requires forall a: Image, b: Image :: k.correlate(a, b, mode).Scores? ==>
               forall c :: c in k.correlate(a, b, mode).cells ==> 0.0 <= c.score <= 1.0
    ensures !TemplateMatch(ts, image, name, threshold, mode, k).found
  {
    if name in ts && image.Some? && ts[name].Some? {
      var img, tpl := image.value, ts[name].value;
      AttemptAtMostOne(Harmonise(img, tpl).0, Harmonise(img, tpl).1, mode, k);
      if img.color && tpl.color {
        AttemptAtMostOne(ToGray(img).value, ToGray(tpl).value, mode, k);
      }
    }
  }

  lemma AttemptAtMostOne(a: Image, b: Image, mode: MatchMethod, k: Kernels)
    requires k.correlate(a, b, mode).Scores? ==>
               forall c :: c in k.correlate(a, b, mode).cells ==> 0.0 <= c.score <= 1.0
    ensures ConfidenceOf(Extreme(k.correlate(a, b, mode), mode)) <= 1.0
  {
    var e := Extreme(k.correlate(a, b, mode), mode);
    if e.Some? {
      var cells := k.correlate(a, b, mode).cells;
      var i :| 0 <= i < |cells| && (e.value.confidence == cells[i].score || e.value.confidence == 1.0 - cells[i].score);
      assert cells[i] in cells;
    }
  }

  // ---------------------------------------------------------------------
  // find_all_templates and _is_duplicate
  // ---------------------------------------------------------------------

  /** `(x, y, w, h, confidence)`. */
  datatype Hit = Hit(x: int, y: int, w: int, h: int, confidence: real)

  /** The list `find_all_templates` returns, or the exception of its
      unguarded `matchTemplate`. */
  datatype AllResult = Hits(hits: seq<Hit>) | MatchRaised

  /** The score as a confidence: `1 - score` for the squared differences. */
  function CellConfidence(mode: MatchMethod, score: real): real
  {
    if mode.IsSqDiff() then 1.0 - score else score
  }

  /** The positions at or above the threshold, in scan order. */
  function Candidates(cells: seq<Cell>, mode: MatchMethod, threshold: real, w: int, h: int): (r: seq<Hit>)
    ensures forall m :: m in r ==> m.confidence >= threshold && m.w == w && m.h == h
    ensures |r| <= |cells|
  {
    if cells == [] then []
    else
      var c := cells[|cells| - 1];
      var conf := CellConfidence(mode, c.score);
      Candidates(cells[..|cells| - 1], mode, threshold, w, h) +
        (if conf >= threshold then [Hit(c.x, c.y, w, h, conf)] else [])
  }

  predicate NonIncreasing(s: seq<Hit>)
  {
    forall i, j :: 0 <= i < j < |s| ==> s[i].confidence >= s[j].confidence
  }

  /** Stable insertion of `x` before the first element not above it. */
  function Insert(x: Hit, s: seq<Hit>): (r: seq<Hit>)
    ensures multiset(r) == multiset(s) + multiset{x}
    ensures forall m :: m in r ==> m == x || m in s
  {
    if s == [] then [x]
    else if x.confidence >= s[0].confidence then [x] + s
    else
      assert s == [s[0]] + s[1..];
      [s[0]] + Insert(x, s[1..])
  }

  lemma ConsSorted(h: Hit, t: seq<Hit>)
    requires NonIncreasing(t)
    requires forall m :: m in t ==> m.confidence <= h.confidence
    ensures NonIncreasing([h] + t)
  {
    var r := [h] + t;
    forall i, j | 0 <= i < j < |r| ensures r[i].confidence >= r[j].confidence
    {
      assert r[j] == t[j - 1] && t[j - 1] in t;
      if i > 0 { assert r[i] == t[i - 1]; }
    }
  }

  lemma {:induction false} InsertSorted(x: Hit, s: seq<Hit>)
    requires NonIncreasing(s)
    ensures NonIncreasing(Insert(x, s))
  {
    if s == [] {
    } else if x.confidence >= s[0].confidence {
      forall m | m in s ensures m.confidence <= x.confidence
      {
        var i :| 0 <= i < |s| && s[i] == m;
      }
      ConsSorted(x, s);
    } else {
      var rest := Insert(x, s[1..]);
      assert NonIncreasing(s[1..]);
      InsertSorted(x, s[1..]);
      forall m | m in rest ensures m.confidence <= s[0].confidence
      {
        if m != x {
          var i :| 0 <= i < |s[1..]| && s[1..][i] == m;
          assert s[i + 1] == m;
        }
      }
      ConsSorted(s[0], rest);
    }
  }

  /** `sorted(matches, key=confidence, reverse=True)`: a stable sort into
      non-increasing confidence (an element is inserted ahead of the equal
      ones that followed it). */
  function SortDesc(s: seq<Hit>): (r: seq<Hit>)
    ensures multiset(r) == multiset(s)
  {
    if s == [] then []
    else
      assert s == [s[0]] + s[1..];
      Insert(s[0], SortDesc(s[1..]))
  }

  lemma {:induction false} SortDescSorted(s: seq<Hit>)
    ensures NonIncreasing(SortDesc(s))
  {
    if s != [] {
      SortDescSorted(s[1..]);
      InsertSorted(s[0], SortDesc(s[1..]));
    }
  }

  function DistSq(a: Hit, b: Hit): int
  {
    (a.x - b.x) * (a.x - b.x) + (a.y - b.y) * (a.y - b.y)
  }

  /** `_is_duplicate(a, b, radius)`: the top-left corners are closer than
      `radius`. `sqrt(d2) < radius` is stated as `d2 < radius * radius`
      for a non-negative radius (see DuplicateIsDistanceBelowRadius). */
  predicate IsDuplicate(a: Hit, b: Hit, radius: int)
  {
    radius > 0 && DistSq(a, b) < radius * radius
  }

  /** The integer test is the Euclidean one: for any non-negative `d` with
      `d * d` equal to the squared distance, `IsDuplicate` holds exactly when
      `d < radius`. */
  lemma DuplicateIsDistanceBelowRadius(a: Hit, b: Hit, radius: int, d: real)
    requires radius >= 0 && d >= 0.0 && d * d == DistSq(a, b) as real
    ensures IsDuplicate(a, b, radius) <==> d < radius as real
  {
    var r := radius as real;
    assert (radius * radius) as real == r * r;
    if d < r {
      ScaleLe(d, r, d);
      ScaleLt(d, r, r);
      assert d * d < r * r;
    } else {
      ScaleLe(r, d, r);
      ScaleLe(r, d, d);
      assert r * r <= d * d;
    }
  }

  lemma ScaleLe(x: real, y: real, c: real)
    requires x <= y && c >= 0.0
    ensures x * c <= y * c
  {
  }

  lemma ScaleLt(x: real, y: real, c: real)
    requires x < y && c > 0.0
    ensures x * c < y * c
  {
  }

  lemma DuplicateSymmetric(a: Hit, b: Hit, radius: int)
    ensures IsDuplicate(a, b, radius) == IsDuplicate(b, a, radius)
  {
    assert DistSq(a, b) == DistSq(b, a);
  }

  /** `any(_is_duplicate(m, e, radius) for e in kept)`. */
  predicate AnyDuplicate(m: Hit, kept: seq<Hit>, radius: int)
  {
    exists e :: e in kept && IsDuplicate(m, e, radius)
  }

  /** The greedy filter: keep a match unless it duplicates one already kept. */
  function Dedup(s: seq<Hit>, radius: int): (r: seq<Hit>)
    ensures forall m :: m in r ==> m in s
  {
    if s == [] then []
    else
      var kept := Dedup(s[..|s| - 1], radius);
      var m := s[|s| - 1];
      if AnyDuplicate(m, kept, radius) then kept else kept + [m]
  }

  /** No two entries are duplicates of each other. */
  predicate Separated(r: seq<Hit>, radius: int)
  {
    forall i, j :: 0 <= i < |r| && 0 <= j < |r| && i != j ==> !IsDuplicate(r[i], r[j], radius)
  }

  /** Kept matches are pairwise further apart than the radius. */
  lemma {:induction false} DedupSeparated(s: seq<Hit>, radius: int)
    ensures Separated(Dedup(s, radius), radius)
  {
    if s != [] {
      var kept := Dedup(s[..|s| - 1], radius);
      DedupSeparated(s[..|s| - 1], radius);
      var m := s[|s| - 1];
      if !AnyDuplicate(m, kept, radius) {
        var r := kept + [m];
        forall i, j | 0 <= i < |r| && 0 <= j < |r| && i != j ensures !IsDuplicate(r[i], r[j], radius)
        {
          if i == |kept| {
            assert kept[j] in kept;
          } else if j == |kept| {
            assert kept[i] in kept;
            DuplicateSymmetric(kept[i], m, radius);
          } else {
            assert r[i] == kept[i] && r[j] == kept[j];
          }
        }
      }
    }
  }

  /** Filtering a non-increasing list keeps it non-increasing. */
  lemma {:induction false} DedupNonIncreasing(s: seq<Hit>, radius: int)
    requires NonIncreasing(s)
    ensures NonIncreasing(Dedup(s, radius))
  {
    if s != [] {
      var init := s[..|s| - 1];
      assert NonIncreasing(init);
      DedupNonIncreasing(init, radius);
      var kept := Dedup(init, radius);
      var m := s[|s| - 1];
      if !AnyDuplicate(m, kept, radius) {
        forall e | e in kept ensures e.confidence >= m.confidence
        {
          assert e in init;
          var i :| 0 <= i < |init| && init[i] == e;
          assert s[i] == e;
        }
        var r := kept + [m];
        forall i, j | 0 <= i < j < |r| ensures r[i].confidence >= r[j].confidence
        {
          if j == |kept| { assert r[i] == kept[i] && kept[i] in kept; }
          else { assert r[i] == kept[i] && r[j] == kept[j]; }
        }
      }
    }
  }

  /** `m` is in `r`, or within the radius of an entry of `r` scoring at least
      as high. */
  predicate Covered(m: Hit, r: seq<Hit>, radius: int)
  {
    m in r || exists e :: e in r && IsDuplicate(m, e, radius) && e.confidence >= m.confidence
  }

  lemma CoveredGrows(m: Hit, a: seq<Hit>, b: seq<Hit>, radius: int)
    requires Covered(m, a, radius)
    requires forall e :: e in a ==> e in b
    ensures Covered(m, b, radius)
  {
    if m !in a {
      var e :| e in a && IsDuplicate(m, e, radius) && e.confidence >= m.confidence;
      assert e in b;
    }
  }

  /** Every dropped match lies within the radius of a kept match of greater
      or equal confidence. */
  lemma {:induction false} DedupCovers(s: seq<Hit>, radius: int)
    requires NonIncreasing(s)
    ensures forall m :: m in s ==> Covered(m, Dedup(s, radius), radius)
  {
    if s != [] {
      var init := s[..|s| - 1];
      assert NonIncreasing(init);
      DedupCovers(init, radius);
      var kept := Dedup(init, radius);
      var r := Dedup(s, radius);
      var last := s[|s| - 1];
      assert forall e :: e in kept ==> e in r;
      forall m | m in s ensures Covered(m, r, radius)
      {
        if m in init {
          CoveredGrows(m, kept, r, radius);
        } else {
          assert s == init + [last];
          if AnyDuplicate(last, kept, radius) {
            var e :| e in kept && IsDuplicate(last, e, radius);
            assert e in init;
            var i :| 0 <= i < |init| && init[i] == e;
            assert s[i] == e;
            assert e in r;
          }
        }
      }
    }
  }

  /** The sorted, deduplicated list `find_all_templates` builds from its
      candidates. */
  function Filtered(cands: seq<Hit>, radius: int): (r: seq<Hit>)
    ensures forall m :: m in r ==> m in cands
  {
    var sorted := SortDesc(cands);
    assert forall m :: m in sorted ==> m in multiset(sorted);
    Dedup(sorted, radius)
  }

  /** The filtered list is ordered by non-increasing confidence, no two of
      its entries are duplicates, and every candidate is kept or lies within
      the radius of a kept entry scoring at least as high. */
  lemma FilteredProperties(cands: seq<Hit>, radius: int)
    ensures var r := Filtered(cands, radius);
            NonIncreasing(r) && Separated(r, radius) && forall m :: m in cands ==> Covered(m, r, radius)
  {
    var sorted := SortDesc(cands);
    forall m | m in cands ensures m in sorted
    {
      assert m in multiset(cands);
    }
    SortDescSorted(cands);
    DedupSeparated(sorted, radius);
    DedupNonIncreasing(sorted, radius);
    DedupCovers(sorted, radius);
  }

  /** `find_all_templates(image, name, threshold, method)`. */
  function AllMatches(ts: Templates, image: Option<Image>, name: string, threshold: real,
                      mode: MatchMethod, k: Kernels): (r: AllResult)
    ensures name !in ts || image.None? || ts[name].None? ==> r == Hits([])
    ensures r.Hits? && r.hits != [] ==> name in ts && image.Some? && ts[name].Some?
    ensures r.Hits? ==> forall m :: m in r.hits ==> m.confidence >= threshold
    ensures r.Hits? && name in ts && ts[name].Some? ==>
              forall m :: m in r.hits ==> m.w == ts[name].value.width && m.h == ts[name].value.height
  {
    if name !in ts || image.None? || ts[name].None? then Hits([])
    else
      var pair := Harmonise(image.value, ts[name].value);
      var tpl := pair.1;
      match k.correlate(pair.0, tpl, mode)
      case Raised => MatchRaised
      case Scores(cells) =>
        Hits(Filtered(Candidates(cells, mode, threshold, tpl.width, tpl.height), tpl.width / 2))
  }

  /** The candidates of a search, in scan order (none when it raised). */
  function AllCandidates(img: Image, tpl: Image, threshold: real, mode: MatchMethod, k: Kernels): seq<Hit>
  {
    var pair := Harmonise(img, tpl);
    match k.correlate(pair.0, pair.1, mode)
    case Raised => []
    case Scores(cells) => Candidates(cells, mode, threshold, tpl.width, tpl.height)
  }

  /** What `find_all_templates` promises about its list: confidences never
      increase, no two entries' top-left corners are closer than half the
      template width, and every position scoring at or above the threshold is
      either reported or within that distance of a reported entry scoring at
      least as high. */
  lemma AllMatchesProperties(ts: Templates, image: Option<Image>, name: string, threshold: real,
                             mode: MatchMethod, k: Kernels)
    requires name in ts && image.Some? && ts[name].Some?
    requires AllMatches(ts, image, name, threshold, mode, k).Hits?
    ensures var tpl := ts[name].value;
            var r := AllMatches(ts, image, name, threshold, mode, k).hits;
            && NonIncreasing(r)
            && Separated(r, tpl.width / 2)
            && (forall m :: m in AllCandidates(image.value, tpl, threshold, mode, k) ==> Covered(m, r, tpl.width / 2))
  {
    var tpl := ts[name].value;
    var cands := AllCandidates(image.value, tpl, threshold, mode, k);
    assert AllMatches(ts, image, name, threshold, mode, k).hits == Filtered(cands, tpl.width / 2);
    FilteredProperties(cands, tpl.width / 2);
  }

  // ---------------------------------------------------------------------
  // find_by_histogram
  // ---------------------------------------------------------------------

  /** `np.where(result >= threshold * 0.7)`, in scan order. */
  function HistCandidates(cells: seq<Cell>, threshold: real): (r: seq<Cell>)
    ensures forall c :: c in r ==> c in cells && c.score >= threshold * 0.7
    ensures forall c :: c in cells && c.score >= threshold * 0.7 ==> c in r
  {
    if cells == [] then []
    else
      var c := cells[|cells| - 1];
      HistCandidates(cells[..|cells| - 1], threshold) + (if c.score >= threshold * 0.7 then [c] else [])
  }

  /** The region of the candidate lies inside the image. */
  predicate Fits(c: Cell, img: Image, tpl: Image)
  {
    !(c.x + tpl.width > img.width || c.y + tpl.height > img.height)
  }

  /** The histogram score of candidate `c`, or nothing when it is skipped. */
  function HistScore(c: Cell, img: Image, tpl: Image, k: Kernels): Option<real>
  {
    if Fits(c, img, tpl) then Some(k.histCorrel(tpl, img, c.x, c.y)) else None
  }

  /** The running best over the candidates: strictly greater histogram
      correlation of a fitting region replaces it. */
  function HistBest(cands: seq<Cell>, img: Image, tpl: Image, k: Kernels): (b: Best)
    ensures b.confidence >= 0.0
    ensures b.confidence == 0.0 ==> b.box == NoBox
  {
    if cands == [] then Start
    else
      var b := HistBest(cands[..|cands| - 1], img, tpl, k);
      var c := cands[|cands| - 1];
      var s := HistScore(c, img, tpl, k);
      if s.Some? && s.value > b.confidence then Best(s.value, Box(c.x, c.y, tpl.width, tpl.height)) else b
  }

  /** No fitting candidate scores above the best. */
  lemma {:induction false} HistBestIsMax(cands: seq<Cell>, img: Image, tpl: Image, k: Kernels)
    ensures forall i :: 0 <= i < |cands| && HistScore(cands[i], img, tpl, k).Some? ==>
              HistScore(cands[i], img, tpl, k).value <= HistBest(cands, img, tpl, k).confidence
  {
    if cands != [] {
      var init := cands[..|cands| - 1];
      HistBestIsMax(init, img, tpl, k);
      forall i | 0 <= i < |init| ensures cands[i] == init[i] { }
    }
  }

  /** A positive best is the score of the first fitting candidate reaching
      it, and its box is that candidate's corner with the template's size. */
  lemma {:induction false} HistBestAttained(cands: seq<Cell>, img: Image, tpl: Image, k: Kernels)
    ensures var b := HistBest(cands, img, tpl, k);
            b.confidence > 0.0 ==>
              exists i :: 0 <= i < |cands| && HistScore(cands[i], img, tpl, k) == Some(b.confidence)
                && b.box == Box(cands[i].x, cands[i].y, tpl.width, tpl.height)
                && forall j :: 0 <= j < i && HistScore(cands[j], img, tpl, k).Some? ==>
                     HistScore(cands[j], img, tpl, k).value < b.confidence
  {
    if cands != [] {
      var init := cands[..|cands| - 1];
      var b0 := HistBest(init, img, tpl, k);
      var b := HistBest(cands, img, tpl, k);
      HistBestAttained(init, img, tpl, k);
      HistBestIsMax(init, img, tpl, k);
      if b != b0 {
        var i := |cands| - 1;
        forall j | 0 <= j < i && HistScore(cands[j], img, tpl, k).Some?
          ensures HistScore(cands[j], img, tpl, k).value < b.confidence
        {
          assert cands[j] == init[j];
        }
      } else if b.confidence > 0.0 {
        var i :| 0 <= i < |init| && HistScore(init[i], img, tpl, k) == Some(b.confidence)
                && b.box == Box(init[i].x, init[i].y, tpl.width, tpl.height)
                && forall j :: 0 <= j < i && HistScore(init[j], img, tpl, k).Some? ==>
                     HistScore(init[j], img, tpl, k).value < b.confidence;
        assert cands[i] == init[i];
        forall j | 0 <= j < i ensures cands[j] == init[j] { }
      }
    }
  }

  /** `find_by_histogram(image, name, threshold)`. Unlike `find_template`
      it reports the best box whether or not the threshold is met. */
  function HistogramMatch(ts: Templates, image: Option<Image>, name: string, threshold: real, k: Kernels): (r: Match)
    ensures name !in ts || image.None? || ts[name].None? ==> r == NotFound
  {
    if name !in ts || image.None? || ts[name].None? then NotFound
    else
      var img, tpl := image.value, ts[name].value;
      match k.correlate(img, tpl, CCoeffNormed)
      case Raised => NotFound
      case Scores(cells) =>
        var cands := HistCandidates(cells, threshold);
        if cands == [] then NotFound
        else
          var b := HistBest(cands, img, tpl, k);
          Match(b.confidence >= threshold, b.box, b.confidence)
  }

  /** `find_by_histogram` reports as found exactly when the best histogram
      correlation of a fitting candidate (or 0) reaches the threshold; no
      fitting candidate whose correlation reached `0.7 * threshold` scores
      higher, and a positive best is attained at the reported box. */
  lemma HistogramMatchProperties(ts: Templates, image: Option<Image>, name: string, threshold: real, k: Kernels)
    requires name in ts && image.Some? && ts[name].Some?
    ensures var r := HistogramMatch(ts, image, name, threshold, k);
            var img, tpl := image.value, ts[name].value;
            var sm := k.correlate(img, tpl, CCoeffNormed);
            && (sm.Raised? || HistCandidates(sm.cells, threshold) == [] ==> r == NotFound)
            && (sm.Scores? && HistCandidates(sm.cells, threshold) != [] ==>
                  && r.confidence >= 0.0
                  && (r.found <==> r.confidence >= threshold)
                  && (forall c :: c in sm.cells && c.score >= threshold * 0.7 && Fits(c, img, tpl) ==>
                        k.histCorrel(tpl, img, c.x, c.y) <= r.confidence)
                  && (r.confidence > 0.0 ==>
                        exists c :: c in sm.cells && c.score >= threshold * 0.7 && Fits(c, img, tpl)
                          && k.histCorrel(tpl, img, c.x, c.y) == r.confidence
                          && r.box == Box(c.x, c.y, tpl.width, tpl.height)))
  {
    var img, tpl := image.value, ts[name].value;
    var sm := k.correlate(img, tpl, CCoeffNormed);
    if sm.Scores? && HistCandidates(sm.cells, threshold) != [] {
      var cands := HistCandidates(sm.cells, threshold);
      var b := HistBest(cands, img, tpl, k);
      HistBestIsMax(cands, img, tpl, k);
      HistBestAttained(cands, img, tpl, k);
      forall c | c in sm.cells && c.score >= threshold * 0.7 && Fits(c, img, tpl)
        ensures k.histCorrel(tpl, img, c.x, c.y) <= b.confidence
      {
        assert c in cands;
        var i :| 0 <= i < |cands| && cands[i] == c;
        assert HistScore(cands[i], img, tpl, k).Some?;
      }
      if b.confidence > 0.0 {
        var i :| 0 <= i < |cands| && HistScore(cands[i], img, tpl, k) == Some(b.confidence)
          && b.box == Box(cands[i].x, cands[i].y, tpl.width, tpl.height);
        assert cands[i] in cands;
      }
    }
  }

  // ---------------------------------------------------------------------
  // The engine object
  // ---------------------------------------------------------------------

  /** `ImageRecognition`: the template table and the operations on it. */
  class ImageRecognition {
    var templates: Templates

    /** `ImageRecognition(templates_dir)`: an empty table, then the directory
        loaded when there is one (an absent directory is an empty listing). */
    constructor (listing: seq<DirEntry>)
      ensures templates == Load(map[], listing)
    {
      templates := map[];
      new;
      var _ := LoadTemplates(listing);
    }

    /** `load_templates(directory)`. */
    method LoadTemplates(listing: seq<DirEntry>) returns (count: nat)
      modifies this
      ensures templates == Load(old(templates), listing)
      ensures count == LoadCount(listing)
    {
      count := 0;
      var i := 0;
      while i < |listing|
        invariant 0 <= i <= |listing|
        invariant templates == Load(old(templates), listing[..i])
        invariant count == LoadCount(listing[..i])
      {
        var e := listing[i];
        assert listing[..i + 1][..i] == listing[..i];
        if Admitted(e.filename) {
          var name := Stem(e.filename);
          if e.decoded.Some? {
            templates := templates[name := e.decoded];
            count := count + 1;
          }
        }
        i := i + 1;
      }
      assert listing[..i] == listing;
    }

    /** `add_template(name, image)`: insert or overwrite one entry. */
    method AddTemplate(name: string, image: Option<Image>)
      modifies this
      ensures templates == old(templates)[name := image]
    {
      templates := templates[name := image];
    }

    /** `find_template`: two attempts, each replacing the running best only
        when strictly better, then the inclusive threshold test. */
    method FindTemplate(image: Option<Image>, name: string, threshold: real, mode: MatchMethod, k: Kernels)
      returns (r: Match)
      ensures r == TemplateMatch(templates, image, name, threshold, mode, k)
    {
      if name !in templates {
        return NotFound;
      }
      var template := templates[name];
      if image.None? || template.None? {
        return NotFound;
      }
      var img, tpl := image.value, template.value;
      var best := Start;
      var pair := Harmonise(img, tpl);
      var native := Extreme(k.correlate(pair.0, pair.1, mode), mode);
      if native.Some? && native.value.confidence > best.confidence {
        best := Best(native.value.confidence, Box(native.value.x, native.value.y, tpl.width, tpl.height));
      }
      if img.color && tpl.color {
        var gray := Extreme(k.correlate(ToGray(img).value, ToGray(tpl).value, mode), mode);
        if gray.Some? && gray.value.confidence > best.confidence {
          best := Best(gray.value.confidence, Box(gray.value.x, gray.value.y, tpl.width, tpl.height));
        }
      }
      if best.confidence >= threshold {
        r := Match(true, best.box, best.confidence);
      } else {
        r := Match(false, NoBox, best.confidence);
      }
    }

    /** `find_all_templates`: collect the candidates, sort them, then keep
        each one that duplicates no kept match. */
    method FindAllTemplates(image: Option<Image>, name: string, threshold: real, mode: MatchMethod, k: Kernels)
      returns (r: AllResult)
      ensures r == AllMatches(templates, image, name, threshold, mode, k)
    {
      if name !in templates || image.None? || templates[name].None? {
        return Hits([]);
      }
      var pair := Harmonise(image.value, templates[name].value);
      var tpl := pair.1;
      var w, h := tpl.width, tpl.height;
      var scores := k.correlate(pair.0, tpl, mode);
      if scores.Raised? {
        return MatchRaised;
      }
      var cells := scores.cells;
      var matches: seq<Hit> := [];
      for i := 0 to |cells|
        invariant matches == Candidates(cells[..i], mode, threshold, w, h)
      {
        assert cells[..i + 1][..i] == cells[..i];
        var conf := CellConfidence(mode, cells[i].score);
        if conf >= threshold {
          matches := matches + [Hit(cells[i].x, cells[i].y, w, h, conf)];
        }
      }
      assert cells[..|cells|] == cells;
      var sorted := SortDesc(matches);
      var kept: seq<Hit> := [];
      for i := 0 to |sorted|
        invariant kept == Dedup(sorted[..i], w / 2)
      {
        assert sorted[..i + 1][..i] == sorted[..i];
        if !AnyDuplicate(sorted[i], kept, w / 2) {
          kept := kept + [sorted[i]];
        }
      }
      assert sorted[..|sorted|] == sorted;
      r := Hits(kept);
    }

    /** `find_by_histogram`: correlation candidates at 0.7 of the threshold,
        re-scored by histogram correlation; the strictly better one wins. */
    method FindByHistogram(image: Option<Image>, name: string, threshold: real, k: Kernels)
      returns (r: Match)
      ensures r == HistogramMatch(templates, image, name, threshold, k)
    {
      if name !in templates || image.None? || templates[name].None? {
        return NotFound;
      }
      var img, tpl := image.value, templates[name].value;
      var scores := k.correlate(img, tpl, CCoeffNormed);
      if scores.Raised? {
        return NotFound;
      }
      var cands := HistCandidates(scores.cells, threshold);
      if cands == [] {
        return NotFound;
      }
      var best := Start;
      for i := 0 to |cands|
        invariant best == HistBest(cands[..i], img, tpl, k)
      {
        assert cands[..i + 1][..i] == cands[..i];
        var c := cands[i];
        if Fits(c, img, tpl) {
          var score := k.histCorrel(tpl, img, c.x, c.y);
          if score > best.confidence {
            best := Best(score, Box(c.x, c.y, tpl.width, tpl.height));
          }
        }
      }
      assert cands[..|cands|] == cands;
      r := Match(best.confidence >= threshold, best.box, best.confidence);
    }
  }
}
