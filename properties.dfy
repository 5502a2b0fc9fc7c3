/** Properties of runs of several handlers of the slide scheduler. */
module SchedulerProperties {
  import opened WallpaperTypes
  import opened ImageCatalog
  import opened ContentList
  import opened SlideScheduler
  import opened ConfigController

  predicate Draws(rands: seq<real>)
  {
    forall i :: 0 <= i < |rands| ==> 0.0 <= rands[i] < 1.0
  }

  /** A run of LOAD_NEXT_WALLPAPER notifications, one draw each. */
  function ForcedAdvances(s: State, rands: seq<real>, vp: Viewport): (r: State)
    requires Inv(s) && Draws(rands)
    ensures Inv(r)
    ensures r.config == s.config && r.imageElement == s.imageElement
    decreases |rands|
  {
    if rands == [] then s
    else ForcedAdvances(NotificationReceived(s, LoadNextWallpaper, rands[0], vp), rands[1..], vp)
  }

  /** However many forced advances arrive in a row, exactly one slide timer
      is outstanding afterwards, and every pending load they started except
      the last one has been detached, as has the load pending before them. */
  lemma {:induction false} ForcedAdvancesLeaveOneTimer(s: State, rands: seq<real>, vp: Viewport)
    requires Inv(s) && Draws(rands) && |rands| > 0 && s.config.slideInterval > 0
    ensures var r := ForcedAdvances(s, rands, vp);
      && r.loadNextImageTimer.Some?
      && SlideTimers(r) == {r.loadNextImageTimer.value}
      && LiveLoads(r) <= (LiveLoads(s) - OptSet(s.nextImageElement)) + OptSet(r.nextImageElement)
    decreases |rands|
  {
    var s1 := NotificationReceived(s, LoadNextWallpaper, rands[0], vp);
    if |rands| > 1 {
      ForcedAdvancesLeaveOneTimer(s1, rands[1..], vp);
    }
  }

  /** Two forced advances within one network round trip: the element the
      first one started is detached and out of the content, so its load can
      never reach the module. */
  lemma SecondAdvanceDetachesFirst(s: State, rand: real, rand': real, vp: Viewport)
    requires Inv(s) && 0.0 <= rand < 1.0 && 0.0 <= rand' < 1.0
    ensures var s1 := NotificationReceived(s, LoadNextWallpaper, rand, vp);
      var s2 := NotificationReceived(s1, LoadNextWallpaper, rand', vp);
      s1.nextImageElement.Some? ==>
        var a := s1.nextImageElement.value;
        a in s2.elements && a !in LiveLoads(s2) && Img(a) !in s2.content && s2.nextImageElement != Some(a)
  {
    var s1 := NotificationReceived(s, LoadNextWallpaper, rand, vp);
    var s2 := NotificationReceived(s1, LoadNextWallpaper, rand', vp);
    if s1.nextImageElement.Some? {
      var a := s1.nextImageElement.value;
      assert |s1.images| > 0;
      assert s2 == LoadNextImage(s1, rand', vp);
    }
  }

  /** The first accepted batch with a usable first draw starts the first
      image loading; with a positive slide interval the slide timer is armed
      once. */
  lemma FirstBatchStartsDisplay(config: Config, vp: Viewport, b: Batch, rand: real, rand': real)
    requires Accepts(config, vp, b) && 0.0 <= rand < 1.0 && 0.0 <= rand' < 1.0
    requires config.maximumEntries > 0 && |b.images| > 0
    requires forall i :: 0 <= i < |b.images| ==> b.images[i].Some?
    ensures var s := WallpapersReceived(Start(config, vp), b, rand, rand', vp);
      && 0 < |s.images| <= config.maximumEntries
      && 0 <= s.imageIndex < |s.images|
      && s.nextImageElement.Some? && s.imageElement.None?
      && LiveLoads(s) == {s.nextImageElement.value}
      && (config.slideInterval > 0 ==> |SlideTimers(s)| == 1)
  {
    var s0 := Start(config, vp);
    var imgs := SliceToEnd(b.images, config.maximumEntries);
    assert imgs[0] == b.images[0];
    var s := WallpapersReceived(s0, b, rand, rand', vp);
    assert s.images == imgs;
    assert s.images[s.imageIndex] == b.images[s.imageIndex];
    if config.slideInterval > 0 {
      assert SlideTimers(s) == {s0.nextHandle};
    }
  }

  /** Every image in the content is transparent: the display shows no
      wallpaper. */
  predicate NothingVisible(s: State)
    requires Inv(s)
  {
    forall n :: n in s.content && n.Img? ==> s.elements[n.id].opacity == 0
  }

  /** A forced advance (LOAD_NEXT_WALLPAPER, which calls `loadNextImage`)
      that arrives after an image has loaded but before its settle step runs
      (within the 1000 ms crossfade) makes the settle step
      promote the new, still transparent element: the image that had just
      faded in and the one before it are both gone from the content, and
      nothing is visible until the new element loads. */
  lemma ForcedAdvanceDuringCrossfade(s: State, h: nat, rand: real, vp: Viewport)
    requires Inv(s) && 0.0 <= rand < 1.0
    requires s.nextImageElement.Some? && s.elements[s.nextImageElement.value].loadFired
    requires h in s.timers && s.timers[h].Settle?
    requires |s.images| > 0 && forall i :: 0 <= i < |s.images| ==> s.images[i].Some?
    ensures var s1 := LoadNextImage(s, rand, vp);
      var s2 := Settled(s1, h);
      && s2.imageElement.Some? && s2.imageElement == s1.nextImageElement
      && s2.imageElement.value in LiveLoads(s2)
      && Img(s.nextImageElement.value) !in s2.content
      && (s.imageElement.Some? ==> Img(s.imageElement.value) !in s2.content)
      && NothingVisible(s2)
  {
    var s1 := LoadNextImage(s, rand, vp);
    assert s1.timers[h] == s.timers[h];
    var s2 := Settled(s1, h);
    var b := s1.nextImageElement.value;
    assert s2.elements == s1.elements;
    forall n | n in s2.content && n.Img? ensures s2.elements[n.id].opacity == 0 {
      assert n == Img(b);
    }
  }

  /** Continuing that run: when the promoted element then loads, it becomes
      opaque in the content and is shown until its own settle step, after
      the crossfade delay, removes it. The module is then left with no
      current element and no image in the content until `loadNextImage`
      runs again. */
  lemma LateLoadOfPromotedElement(s: State)
    requires Inv(s)
    requires s.imageElement.Some? && s.imageElement.value in LiveLoads(s) && s.nextImageElement.None?
    ensures var s1 := ImageLoaded(s, s.imageElement.value);
      && s1.imageElement == s.imageElement && Img(s.imageElement.value) in s1.content
      && s1.elements[s.imageElement.value].opacity == 1
    ensures var s1 := ImageLoaded(s, s.imageElement.value);
      var s2 := Settled(s1, SettleHandle(s));
      && s2.imageElement.None? && s2.nextImageElement.None?
      && forall n :: n in s2.content ==> !n.Img?
  {
    var s1 := ImageLoaded(s, s.imageElement.value);
    assert s1.nextImageElement.None?;
    var h := SettleHandle(s);
    var s2 := Settled(s1, h);
    assert s2.imageElement.None? && s2.nextImageElement.None? && Inv(s2);
  }

  /** The settle step detaches nothing: it removes the current element from
      the content with its load handler still attached (only the pending
      element is ever detached, MMM-Wallpaper.js:251). Start from a current
      element `b` that has not loaded yet (as after
      `ForcedAdvanceDuringCrossfade`) and a pending element `c`. When `c`
      loads and settles it is shown, opaque, as the current image, while `b`
      is out of the content but still live. When `b`'s late load then
      arrives, its settle step removes the shown `c` and leaves no current
      element and no image in the content. */
  lemma StaleLoadHidesShownImage(s: State)
    requires Inv(s)
    requires s.imageElement.Some? && s.imageElement.value in LiveLoads(s)
    requires s.nextImageElement.Some? && s.nextImageElement.value in LiveLoads(s)
    ensures var b, c := s.imageElement.value, s.nextImageElement.value;
      var s1 := ImageLoaded(s, c);
      var s2 := Settled(s1, SettleHandle(s));
      && s2.imageElement == Some(c) && Img(c) in s2.content && s2.elements[c].opacity == 1
      && Img(b) !in s2.content && b in LiveLoads(s2)
      && var s3 := ImageLoaded(s2, b);
         var s4 := Settled(s3, SettleHandle(s2));
         && s4.imageElement.None? && s4.nextImageElement.None?
         && Img(c) !in s4.content
         && forall n :: n in s4.content ==> !n.Img?
  {
    var b, c := s.imageElement.value, s.nextImageElement.value;
    var s1 := ImageLoaded(s, c);
    var s2 := Settled(s1, SettleHandle(s));
    assert b in LiveLoads(s2) by {
      assert b != c;
      assert s2.elements == s1.elements;
    }
    var s3 := ImageLoaded(s2, b);
    assert s3.imageElement == Some(c) && s3.nextImageElement.None?;
    var s4 := Settled(s3, SettleHandle(s2));
    assert Inv(s4);
  }

  /** Lowering `maximumEntries` through UPDATE_WALLPAPER_CONFIG does not
      shorten the catalog already held: it stays longer than the new bound
      until the next accepted batch replaces it. */
  lemma LoweredBoundWaitsForNextBatch(s: State, m: int, vp: Viewport)
    requires Inv(s) && 0 < m < |s.images|
    ensures var r := ConfigUpdated(s, Options(EmptyPatch().(maximumEntries := Some(m))), vp);
      r.config.maximumEntries == m && r.images == s.images && |r.images| > r.config.maximumEntries
  {
  }
}
