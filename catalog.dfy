/** The rules by which a WALLPAPERS batch is accepted and cut down to the
    configured number of entries, and the random choice of an entry. */
module ImageCatalog {
  import opened WallpaperTypes
  import opened ViewportQuery

  /** A batch's source matches the configuration: list membership when the
      configured source is an array, `===` otherwise (MMM-Wallpaper.js:127-128).
      A `String` object is never `===` to the primitive string a batch
      carries. */
  predicate SourceMatches(configured: Source, batchSource: string)
  {
    match configured
    case Many(names) => batchSource in names
    case Single(name) => name == batchSource
    case Boxed(_) => false
  }

  /** The acceptance condition of MMM-Wallpaper.js:126-128: the batch was
      fetched for the orientation the module currently has and for one of
      its configured sources. */
  predicate Accepts(config: Config, vp: Viewport, b: Batch)
  {
    b.orientation == Orientation(config.orientation, vp) && SourceMatches(config.source, b.source)
  }

  /** `s.slice(0, end)` for an integer `end`: a negative end counts from the
      back, an end past the length is the length. */
  function SliceToEnd<T>(s: seq<T>, end: int): (r: seq<T>)
    ensures r <= s
    ensures 0 <= end ==> |r| == if end < |s| then end else |s|
    ensures end < 0 ==> |r| == if |s| + end < 0 then 0 else |s| + end
  {
    if end < 0 then
      (if |s| + end < 0 then [] else s[..|s| + end])
    else if end < |s| then s[..end]
    else s
  }

  /** A batch already within the bound is kept whole; cutting twice with the
      same bound cuts nothing more when the bound is not negative. */
  lemma SliceWithinBound<T>(s: seq<T>, end: int)
    ensures 0 <= end && |s| <= end ==> SliceToEnd(s, end) == s
    ensures 0 <= end ==> SliceToEnd(SliceToEnd(s, end), end) == SliceToEnd(s, end)
    ensures 0 <= end ==> |SliceToEnd(s, end)| <= end
  {
  }

  /** `Math.floor(rand * n)` with `rand` drawn from `[0, 1)`. */
  function RandomIndex(rand: real, n: nat): (i: int)
    requires 0.0 <= rand < 1.0
    ensures n == 0 ==> i == 0
    ensures n > 0 ==> 0 <= i < n
  {
    FloorBounds(rand, n);
    (rand * n as real).Floor
  }

  lemma FloorBounds(rand: real, n: nat)
    requires 0.0 <= rand < 1.0
    ensures 0 <= (rand * n as real).Floor
    ensures n > 0 ==> (rand * n as real).Floor < n
    ensures n == 0 ==> (rand * n as real).Floor == 0
  {
    var x := rand * n as real;
    assert 0.0 <= x;
    if n > 0 {
      assert x < n as real;
    }
  }

  /** Every index of a non-empty catalog is the choice of some draw. */
  lemma RandomIndexReachesAll(i: nat, n: nat)
    requires i < n
    ensures RandomIndex(i as real / n as real, n) == i
  {
    var r := i as real / n as real;
    assert r * n as real == i as real;
  }
}
