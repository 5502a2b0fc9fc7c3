/** Choice of the resolution variant of an image for the current viewport,
    bounded by the configured maximum width and height. */
module VariantResolver {
  import opened WallpaperTypes

  /** The variant is larger than a configured maximum on some axis. */
  predicate OverCap(v: Variant, maxWidth: int, maxHeight: int)
  {
    v.width > maxWidth || v.height > maxHeight
  }

  /** The variant is at least as large as the viewport on both axes. */
  predicate Covers(v: Variant, vp: Viewport)
  {
    v.width >= vp.width && v.height >= vp.height
  }

  /** Index of the first variant over a cap, or `|vs|` when there is none. */
  function FirstOverCap(vs: seq<Variant>, maxWidth: int, maxHeight: int): (k: nat)
    ensures k <= |vs|
    ensures forall j :: 0 <= j < k ==> !OverCap(vs[j], maxWidth, maxHeight)
    ensures k < |vs| ==> OverCap(vs[k], maxWidth, maxHeight)
  {
    if vs == [] then 0
    else if OverCap(vs[0], maxWidth, maxHeight) then 0
    else 1 + FirstOverCap(vs[1..], maxWidth, maxHeight)
  }

  /** Index of the first variant covering the viewport, or `|vs|` when there
      is none. */
  function FirstCovering(vs: seq<Variant>, vp: Viewport): (k: nat)
    ensures k <= |vs|
    ensures forall j :: 0 <= j < k ==> !Covers(vs[j], vp)
    ensures k < |vs| ==> Covers(vs[k], vp)
  {
    if vs == [] then 0
    else if Covers(vs[0], vp) then 0
    else 1 + FirstCovering(vs[1..], vp)
  }

  /** The variant the resolver adopts last, if any: among the variants that
      come before the first over-cap one, the first that covers the viewport,
      or else the last of them. None when the first variant is already over
      a cap or there are no variants. */
  function Adopted(vs: seq<Variant>, maxWidth: int, maxHeight: int, vp: Viewport): (a: Option<nat>)
    ensures a.Some? ==> a.value < |vs|
  {
    var k := FirstOverCap(vs, maxWidth, maxHeight);
    var c := FirstCovering(vs[..k], vp);
    if c < k then Some(c)
    else if k > 0 then Some(k - 1)
    else None
  }

  /** The url the resolver returns for `image`: always the entry's own url or
      the url of one of its variants. */
  function ResolvedUrl(image: Image, maxWidth: int, maxHeight: int, vp: Viewport): (r: string)
    ensures r == image.url || exists i :: 0 <= i < |image.variants| && r == image.variants[i].url
  {
    match Adopted(image.variants, maxWidth, maxHeight, vp)
    case None => image.url
    case Some(i) => image.variants[i].url
  }

  /** `getImageUrl` (MMM-Wallpaper.js:222-243): start from the entry's url,
      walk the variants in order, stop before the first one over a cap,
      otherwise adopt it and stop once it covers the viewport. */
  method GetImageUrl(image: Image, maxWidth: int, maxHeight: int, vp: Viewport) returns (url: string)
    ensures url == ResolvedUrl(image, maxWidth, maxHeight, vp)
  {
    var vs := image.variants;
    url := image.url;
    var i := 0;
    while i < |vs|
      invariant 0 <= i <= |vs|
      invariant forall j :: 0 <= j < i ==> !OverCap(vs[j], maxWidth, maxHeight) && !Covers(vs[j], vp)
      invariant url == if i == 0 then image.url else vs[i - 1].url
    {
      if OverCap(vs[i], maxWidth, maxHeight) {
        AdoptedBeforeCap(vs, maxWidth, maxHeight, vp, i);
        return;
      }
      url := vs[i].url;
      if Covers(vs[i], vp) {
        AdoptedAtCovering(vs, maxWidth, maxHeight, vp, i);
        return;
      }
      i := i + 1;
    }
    AdoptedBeforeCap(vs, maxWidth, maxHeight, vp, i);
  }

  /** When the walk stops at `i` because `vs[i]` is over a cap (or the
      variants are exhausted), without having met a covering variant, the
      adopted variant is the one before `i`. */
  lemma AdoptedBeforeCap(vs: seq<Variant>, maxWidth: int, maxHeight: int, vp: Viewport, i: nat)
    requires i <= |vs|
    requires forall j :: 0 <= j < i ==> !OverCap(vs[j], maxWidth, maxHeight) && !Covers(vs[j], vp)
    requires i < |vs| ==> OverCap(vs[i], maxWidth, maxHeight)
    ensures Adopted(vs, maxWidth, maxHeight, vp) == if i == 0 then None else Some(i - 1)
  {
    var k := FirstOverCap(vs, maxWidth, maxHeight);
    assert k == i;
    var c := FirstCovering(vs[..k], vp);
    assert c == k;
  }

  /** When the walk stops at `i` because `vs[i]` is within the caps and
      covers the viewport, the adopted variant is `i`. */
  lemma AdoptedAtCovering(vs: seq<Variant>, maxWidth: int, maxHeight: int, vp: Viewport, i: nat)
    requires i < |vs|
    requires forall j :: 0 <= j < i ==> !OverCap(vs[j], maxWidth, maxHeight) && !Covers(vs[j], vp)
    requires !OverCap(vs[i], maxWidth, maxHeight) && Covers(vs[i], vp)
    ensures Adopted(vs, maxWidth, maxHeight, vp) == Some(i)
  {
    var k := FirstOverCap(vs, maxWidth, maxHeight);
    assert i < k;
    var c := FirstCovering(vs[..k], vp);
    assert vs[..k][i] == vs[i];
    assert c == i;
  }

  /** The resolved url is the entry's own url exactly when there are no
      variants or the first one is over a cap; otherwise it is the url of a
      variant within both caps. */
  lemma ResolvedRespectsCaps(image: Image, maxWidth: int, maxHeight: int, vp: Viewport)
    ensures var a := Adopted(image.variants, maxWidth, maxHeight, vp);
      a.None? <==> (image.variants == [] || OverCap(image.variants[0], maxWidth, maxHeight))
    ensures var a := Adopted(image.variants, maxWidth, maxHeight, vp);
      a.None? ==> ResolvedUrl(image, maxWidth, maxHeight, vp) == image.url
    ensures var a := Adopted(image.variants, maxWidth, maxHeight, vp);
      a.Some? ==>
        && !OverCap(image.variants[a.value], maxWidth, maxHeight)
        && ResolvedUrl(image, maxWidth, maxHeight, vp) == image.variants[a.value].url
  {
    var vs := image.variants;
    var k := FirstOverCap(vs, maxWidth, maxHeight);
    var c := FirstCovering(vs[..k], vp);
    if c < k {
      assert vs[..k][c] == vs[c];
    }
  }

  /** The adopted variant is the first covering one when a covering variant
      precedes the first over-cap one; otherwise it is the last variant before
      the first over-cap one. */
  lemma AdoptedIsSmallestCovering(vs: seq<Variant>, maxWidth: int, maxHeight: int, vp: Viewport)
    ensures var a := Adopted(vs, maxWidth, maxHeight, vp);
      a.Some? ==> forall j :: 0 <= j < a.value ==>
        !Covers(vs[j], vp) && !OverCap(vs[j], maxWidth, maxHeight)
    ensures var a := Adopted(vs, maxWidth, maxHeight, vp);
      forall j :: 0 <= j < FirstOverCap(vs, maxWidth, maxHeight) && Covers(vs[j], vp) ==>
        (a.Some? && a.value <= j && Covers(vs[a.value], vp))
    ensures var a := Adopted(vs, maxWidth, maxHeight, vp);
      a.Some? && !Covers(vs[a.value], vp) ==>
        a.value + 1 == FirstOverCap(vs, maxWidth, maxHeight)
  {
    var k := FirstOverCap(vs, maxWidth, maxHeight);
    var c := FirstCovering(vs[..k], vp);
    assert forall j :: 0 <= j < k ==> vs[..k][j] == vs[j];
  }

  /** An entry with three variants in ascending order: 800x600, 1920x1080
      and 3840x2160. */
  function ExampleImage(): Image
  {
    Image("base", "", [Variant(800, 600, "a"), Variant(1920, 1080, "b"), Variant(3840, 2160, "c")])
  }

  /** With caps of 2000 on both axes and a 1024x768 viewport the resolver
      picks the 1920x1080 variant, the first one covering the viewport. */
  lemma ExampleFirstCovering()
    ensures ResolvedUrl(ExampleImage(), 2000, 2000, Viewport(1024, 768)) == "b"
  {
    var vs := ExampleImage().variants;
    assert FirstOverCap(vs, 2000, 2000) == 2;
    assert vs[..2] == [vs[0], vs[1]];
    assert FirstCovering(vs[..2], Viewport(1024, 768)) == 1;
  }

  /** With a maximum width of 500 no variant is admissible and the entry's
      own url is returned. */
  lemma ExampleAllOverCap()
    ensures ResolvedUrl(ExampleImage(), 500, 2000, Viewport(1024, 768)) == "base"
  {
    assert FirstOverCap(ExampleImage().variants, 500, 2000) == 0;
  }

  /** A viewport larger than every admissible variant gets the largest
      admissible one. */
  lemma ExampleLargestAdmissible()
    ensures ResolvedUrl(ExampleImage(), 2000, 2000, Viewport(2560, 1440)) == "b"
  {
    var vs := ExampleImage().variants;
    assert FirstOverCap(vs, 2000, 2000) == 2;
    assert vs[..2] == [vs[0], vs[1]];
    assert FirstCovering(vs[..2], Viewport(2560, 1440)) == 2;
  }
}
