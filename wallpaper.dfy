/** The wallpaper module object: the fields its handlers update in place,
    and one method per handler. Each method is proved to leave the object in
    the state that the corresponding SlideScheduler function computes from
    the state before it, so the invariant and the properties proved there
    hold of the object. */
module WallpaperModule {
  import opened WallpaperTypes
  import opened VariantResolver
  import opened ImageCatalog
  import opened ConfigController
  import opened ContentList
  import opened SlideScheduler

  class Wallpaper {
    var config: Config
    var images: seq<Option<Image>>
    var imageIndex: int
    /** Children of the `content` element. */
    var content: seq<Node>
    /** The `<img>` elements created so far, by id. */
    var elements: map<nat, ImageElement>
    var imageElement: Option<nat>
    var nextImageElement: Option<nat>
    /** `title.innerHTML` and whether `title.style.display` is not "none". */
    var titleText: string
    var titleShown: bool
    /** Whether the host has hidden the module. */
    var hidden: bool
    var loadNextImageTimer: Option<nat>
    var updateTimer: Option<nat>
    /** The browser's queue of timer callbacks, by handle, and the next
        handle it gives out. */
    var timers: map<nat, Task>
    var nextHandle: nat
    var nextNode: nat
    /** The FETCH_WALLPAPERS requests sent so far. */
    var requests: seq<Config>

    /** The object's fields as one value. */
    function S(): State
      reads this
    {
      State(config, images, imageIndex, content, elements, imageElement, nextImageElement,
            titleText, titleShown, hidden, loadNextImageTimer, updateTimer, timers,
            nextHandle, nextNode, requests)
    }

    ghost predicate Valid()
      reads this
    {
      Inv(S())
    }

    /** `start` (MMM-Wallpaper.js:55-94), without the styling. */
    constructor (config0: Config, vp: Viewport)
      ensures S() == Start(config0, vp) && Valid()
    {
      config := config0;
      loadNextImageTimer := None;
      imageIndex := -1;
      images := [];
      content := [Title] + (if config0.fadeEdges then [TopGradient, BottomGradient] else []);
      elements := map[];
      imageElement := None;
      nextImageElement := None;
      titleText := "";
      titleShown := true;
      hidden := false;
      updateTimer := None;
      timers := map[];
      nextHandle := 0;
      nextNode := 0;
      requests := [];
      new;
      GetData(vp);
      var h := SetTimer(Refresh(config.updateInterval));
      updateTimer := Some(h);
    }

    /** `setTimeout` / `setInterval`: queue a callback under a fresh handle. */
    method SetTimer(t: Task) returns (h: nat)
      modifies this`timers, this`nextHandle
      ensures h == old(nextHandle) && nextHandle == h + 1
      ensures timers == old(timers)[h := t]
    {
      h := nextHandle;
      timers := timers[h := t];
      nextHandle := nextHandle + 1;
    }

    /** `clearTimeout` / `clearInterval`. */
    method ClearTimer(h: Option<nat>)
      modifies this`timers
      ensures timers == Cleared(old(timers), h)
    {
      if h.Some? {
        timers := timers - {h.value};
      }
    }

    /** `getData` (MMM-Wallpaper.js:146-152). */
    method GetData(vp: Viewport)
      modifies this`requests
      ensures requests == old(requests) + [Snapshot(config, vp)]
    {
      var snapshot := config.(orientation := ViewportQuery.Orientation(config.orientation, vp));
      requests := requests + [snapshot];
    }

    /** `resetLoadImageTimer` (MMM-Wallpaper.js:266-273). */
    method ResetLoadImageTimer()
      requires Valid()
      modifies this`timers, this`nextHandle, this`loadNextImageTimer
      ensures S() == SlideScheduler.ResetLoadImageTimer(old(S())) && Valid()
    {
      if config.slideInterval > 0 {
        ClearTimer(loadNextImageTimer);
        var h := SetTimer(SlideAdvance(config.slideInterval));
        loadNextImageTimer := Some(h);
      }
    }

    /** `createImage` (MMM-Wallpaper.js:194-205): a transparent element with
        the load handler attached and the resolved url as its `src`. */
    method CreateImage(data: Image, vp: Viewport) returns (id: nat)
      modifies this`elements, this`nextNode
      ensures id == old(nextNode) && nextNode == id + 1
      ensures elements == old(elements)[id := ImageElement(data, ResolvedUrl(data, config.maxWidth, config.maxHeight, vp), 0, true, false)]
    {
      var url := GetImageUrl(data, config.maxWidth, config.maxHeight, vp);
      id := nextNode;
      nextNode := nextNode + 1;
      elements := elements[id := ImageElement(data, url, 0, true, false)];
    }

    /** Lines 250-254 of `loadNextImage`: the pending element loses its load
        handler and leaves the content. */
    method DiscardPendingLoad()
      requires Valid()
      modifies this
      ensures S() == DiscardPending(old(S())) && Valid()
    {
      if nextImageElement.Some? {
        var p := nextImageElement.value;
        elements := elements[p := elements[p].(hasOnload := false)];
        content := Without(content, Img(p));
        nextImageElement := None;
      }
    }

    /** Lines 258-262 of `loadNextImage`: the element `createImage` makes for
        the drawn entry becomes the pending element, just before the title. */
    method ShowPending(data: Image, vp: Viewport)
      requires Valid() && nextImageElement.None?
      modifies this
      ensures S() == CreatePending(old(S()), data, vp) && Valid()
    {
      var id := CreateImage(data, vp);
      nextImageElement := Some(id);
      content := InsertBefore(content, Img(id), Title);
    }

    /** `loadNextImage` (MMM-Wallpaper.js:245-264) on a non-empty catalog. */
    method LoadNextImage(rand: real, vp: Viewport)
      requires Valid() && |images| > 0 && 0.0 <= rand < 1.0
      modifies this
      ensures S() == SlideScheduler.LoadNextImage(old(S()), rand, vp) && Valid()
    {
      ghost var s0 := S();
      ResetLoadImageTimer();
      DiscardPendingLoad();
      ghost var s2 := S();
      assert s2 == DiscardPending(SlideScheduler.ResetLoadImageTimer(s0));
      imageIndex := RandomIndex(rand, |images|);
      assert S() == s2.(imageIndex := imageIndex);
      var nextImageData := images[imageIndex];
      if nextImageData.Some? {
        ShowPending(nextImageData.value, vp);
      }
    }

    /** `loadNextImage` on an empty catalog, up to the TypeError the source
        raises there. */
    method AdvanceWithoutImages(rand: real)
      requires Valid() && |images| == 0 && 0.0 <= rand < 1.0
      modifies this
      ensures S() == SlideScheduler.AdvanceWithoutImages(old(S()), rand) && Valid()
    {
      ResetLoadImageTimer();
      DiscardPendingLoad();
      if imageIndex != -1 {
        imageIndex := RandomIndex(rand, |images|);
      }
    }

    /** A call of `loadNextImage`, whatever the catalog holds. */
    method Advance(rand: real, vp: Viewport)
      requires Valid() && 0.0 <= rand < 1.0
      modifies this
      ensures S() == SlideScheduler.Advance(old(S()), rand, vp) && Valid()
    {
      if |images| > 0 {
        LoadNextImage(rand, vp);
      } else {
        AdvanceWithoutImages(rand);
      }
    }

    /** The load handler of element `el` (MMM-Wallpaper.js:168-177), which
        queues the settle step. */
    method OnImageLoaded(el: nat)
      requires Valid() && el in elements && elements[el].hasOnload && !elements[el].loadFired
      modifies this
      ensures S() == ImageLoaded(old(S()), el) && Valid()
    {
      ResetLoadImageTimer();
      Reveal(el);
    }

    /** Lines 174-190 of the load handler: `el` becomes opaque, the title is
        hidden and the settle step is queued. */
    method Reveal(el: nat)
      requires Valid() && el in elements && !elements[el].loadFired
      modifies this`elements, this`titleShown, this`timers, this`nextHandle
      ensures S() == RevealLoaded(old(S()), el) && Valid()
    {
      ghost var r := RevealLoaded(S(), el);
      var e := elements[el];
      elements := elements[el := e.(opacity := 1, loadFired := true)];
      titleShown := false;
      var _ := SetTimer(Settle(e.image, if config.crossfade then CrossfadeMillis else 0));
      assert S() == r;
    }

    /** The settle step (MMM-Wallpaper.js:178-190), run when its timer
        fires. */
    method SettleTimerFired(h: nat)
      requires Valid() && h in timers && timers[h].Settle?
      modifies this
      ensures S() == Settled(old(S()), h) && Valid()
    {
      var caption := timers[h].image.caption;
      timers := timers - {h};
      assert Valid() by {
        assert SlideTimers(S()) <= SlideTimers(old(S()));
      }
      if config.caption && caption != "" {
        titleText := caption;
        titleShown := true;
      }
      PromotePending();
    }

    /** Lines 185-189 of the settle step: the current element leaves the
        content and the pending element, if any, becomes current. */
    method PromotePending()
      requires Valid()
      modifies this
      ensures S() == Promote(old(S())) && Valid()
    {
      if imageElement.Some? {
        content := Without(content, Img(imageElement.value));
      }
      imageElement := nextImageElement;
      nextImageElement := None;
    }

    /** The slide timer fires and calls `loadNextImage`. */
    method SlideTimerFired(h: nat, rand: real, vp: Viewport)
      requires Valid() && h in timers && timers[h].SlideAdvance? && 0.0 <= rand < 1.0
      modifies this
      ensures S() == SlideScheduler.SlideTimerFired(old(S()), h, rand, vp) && Valid()
    {
      timers := timers - {h};
      assert SlideTimers(S()) == {} by {
        assert SlideTimers(old(S())) <= {h};
      }
      Advance(rand, vp);
    }

    /** The refresh interval fires and calls `getData`. */
    method RefreshTimerFired(h: nat, vp: Viewport)
      requires Valid() && h in timers && timers[h].Refresh?
      modifies this
      ensures S() == SlideScheduler.RefreshTimerFired(old(S()), h, vp) && Valid()
    {
      GetData(vp);
    }

    /** `socketNotificationReceived` (MMM-Wallpaper.js:122-144). `rand` is the
        draw of line 134, `rand'` the draw inside `loadNextImage`. */
    method SocketNotificationReceived(n: SocketNotification, rand: real, rand': real, vp: Viewport)
      requires Valid() && 0.0 <= rand < 1.0 && 0.0 <= rand' < 1.0
      modifies this
      ensures S() == SlideScheduler.SocketNotificationReceived(old(S()), n, rand, rand', vp) && Valid()
    {
      if n.Wallpapers? {
        WallpapersReceived(n.batch, rand, rand', vp);
      }
    }

    /** A WALLPAPERS batch (MMM-Wallpaper.js:125-143). */
    method WallpapersReceived(payload: Batch, rand: real, rand': real, vp: Viewport)
      requires Valid() && 0.0 <= rand < 1.0 && 0.0 <= rand' < 1.0
      modifies this
      ensures S() == SlideScheduler.WallpapersReceived(old(S()), payload, rand, rand', vp) && Valid()
    {
      if payload.orientation == ViewportQuery.Orientation(config.orientation, vp) && SourceMatches(config.source, payload.source) {
        StoreImages(payload, rand);
        if imageElement.None? && |images| > 0 {
          LoadNextImage(rand', vp);
        }
      }
    }

    /** Lines 130-137: keep the first `maximumEntries` entries of the batch
        and draw an index into them. */
    method StoreImages(payload: Batch, rand: real)
      requires Valid() && 0.0 <= rand < 1.0
      modifies this`images, this`imageIndex
      ensures images == SliceToEnd(payload.images, config.maximumEntries)
      ensures imageIndex == if |images| > 0 then RandomIndex(rand, |images|) else 0
      ensures Valid()
    {
      images := SliceToEnd(payload.images, config.maximumEntries);
      if |images| > 0 {
        imageIndex := RandomIndex(rand, |images|);
      } else {
        imageIndex := 0;
      }
    }

    /** The UPDATE_WALLPAPER_CONFIG branch (MMM-Wallpaper.js:109-119), with
        a string payload replacing the source whichever way the string is
        represented. */
    method UpdateConfig(payload: ConfigPayload, vp: Viewport)
      requires Valid()
      modifies this`config, this`timers, this`updateTimer, this`nextHandle, this`requests
      ensures S() == ConfigUpdated(old(S()), payload, vp) && Valid()
    {
      config := ApplyUpdate(config, payload);
      RestartRefresh(vp);
    }

    /** Lines 115-118: cancel the refresh interval, fetch at once and arm a
        new refresh interval. */
    method RestartRefresh(vp: Viewport)
      requires Valid()
      modifies this`timers, this`updateTimer, this`nextHandle, this`requests
      ensures S() == SlideScheduler.RestartRefresh(old(S()), vp) && Valid()
    {
      ghost var r := SlideScheduler.RestartRefresh(S(), vp);
      ClearTimer(updateTimer);
      GetData(vp);
      var h := SetTimer(Refresh(config.updateInterval));
      updateTimer := Some(h);
      assert S() == r;
    }

    /** `notificationReceived` (MMM-Wallpaper.js:96-120). `rand` is the draw
        inside `loadNextImage`. */
    method NotificationReceived(n: Notification, rand: real, vp: Viewport)
      requires Valid() && 0.0 <= rand < 1.0
      modifies this
      ensures S() == SlideScheduler.NotificationReceived(old(S()), n, rand, vp) && Valid()
    {
      match n
      case ModuleDomCreated =>
        if config.userPresenceAction == ShowOnPresence {
          hidden := true;
        }
      case LoadNextWallpaper =>
        Advance(rand, vp);
      case UserPresence(present) =>
        if config.userPresenceAction == ShowOnPresence {
          hidden := !present;
        } else if config.userPresenceAction == HideOnPresence {
          hidden := present;
        }
      case UpdateWallpaperConfig(payload) =>
        UpdateConfig(payload, vp);
      case OtherNotification =>
    }
  }
}
