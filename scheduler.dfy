/** The slide scheduler of the wallpaper module as a state machine over the
    module object's fields. Every handler of the module is a function from
    the state before it runs to the state after it has run; the class in
    wallpaper.dfy performs the same steps in place and is proved to agree
    with these functions. */
module SlideScheduler {
  import opened WallpaperTypes
  import opened ViewportQuery
  import opened VariantResolver
  import opened ImageCatalog
  import opened ConfigController
  import opened ContentList

  /** A callback waiting in the browser's timer queue. */
  datatype Task =
    | SlideAdvance(delay: int)            // setTimeout(loadNextImage, slideInterval)
    | Refresh(interval: int)              // setInterval(getData, updateInterval)
    | Settle(image: Image, delay: int)    // the delayed second half of onImageLoaded

  /** An `<img>` element the module created: the entry it shows, its `src`,
      its opacity, whether its `onload` handler is still attached, and
      whether the browser has delivered its load event. */
  datatype ImageElement = ImageElement(image: Image, src: string, opacity: int, hasOnload: bool, loadFired: bool)

  /** Notifications from other modules (the `notificationReceived` hook). */
  datatype Notification =
    | ModuleDomCreated
    | LoadNextWallpaper
    | UserPresence(present: bool)
    | UpdateWallpaperConfig(payload: ConfigPayload)
    | OtherNotification

  /** Notifications from the fetching backend. */
  datatype SocketNotification = Wallpapers(batch: Batch) | OtherSocketNotification

  /** Delay of the settle step when crossfading. */
  const CrossfadeMillis: int := 1000

  /** The fields of the module object. `imageIndex == -1` means that no batch
      has been accepted yet, when `images` is still undefined. */
  datatype State = State(
    config: Config,
    images: seq<Option<Image>>,
    imageIndex: int,
    content: seq<Node>,
    elements: map<nat, ImageElement>,
    imageElement: Option<nat>,
    nextImageElement: Option<nat>,
    titleText: string,
    titleShown: bool,
    hidden: bool,
    loadNextImageTimer: Option<nat>,
    updateTimer: Option<nat>,
    timers: map<nat, Task>,
    nextHandle: nat,
    nextNode: nat,
    requests: seq<Config>)

  function OptSet(o: Option<nat>): set<nat>
  {
    match o
    case None => {}
    case Some(v) => {v}
  }

  /** The content node of an optional element. */
  function ImgNodes(o: Option<nat>): set<Node>
  {
    match o
    case None => {}
    case Some(id) => {Img(id)}
  }

  /** Handles of the outstanding slide timers. */
  function SlideTimers(s: State): set<nat>
  {
    set h | h in s.timers && s.timers[h].SlideAdvance?
  }

  /** Handles of the outstanding refresh timers. */
  function RefreshTimers(s: State): set<nat>
  {
    set h | h in s.timers && s.timers[h].Refresh?
  }

  /** Elements whose load event can still reach the module. */
  function LiveLoads(s: State): set<nat>
  {
    set id | id in s.elements && s.elements[id].hasOnload && !s.elements[id].loadFired
  }

  /** What the module keeps true between handlers. */
  predicate Inv(s: State)
  {
    && DomOk(s.content, s.elements, s.imageElement, s.nextImageElement, s.nextNode)
    && TimersOk(s.timers, s.loadNextImageTimer, s.updateTimer, s.nextHandle)
    && CatalogOk(s.images, s.imageIndex)
  }

  /** The content holds the title once and every node at most once; its
      images are the current and the pending element, which are distinct,
      were created by the module, and the pending one still has its load
      handler. */
  predicate DomOk(content: seq<Node>, elements: map<nat, ImageElement>,
                  imageElement: Option<nat>, nextImageElement: Option<nat>, nextNode: nat)
  {
    && Title in content
    && Distinct(content)
    && (forall n :: n in content && n.Img? ==> n.id in elements)
    && (forall n :: n in content && n.Img? ==> Some(n.id) == imageElement || Some(n.id) == nextImageElement)
    && (forall id :: id in elements ==> id < nextNode)
    && (imageElement.Some? ==> Img(imageElement.value) in content)
    && (nextImageElement.Some? ==>
          Img(nextImageElement.value) in content && elements[nextImageElement.value].hasOnload)
    && (imageElement.Some? && nextImageElement.Some? ==> imageElement != nextImageElement)
  }

  /** Handles already given out are below the next one; every outstanding
      slide timer is the one `loadNextImageTimer` holds and every outstanding
      refresh timer the one `updateTimer` holds. */
  predicate TimersOk(timers: map<nat, Task>, loadNextImageTimer: Option<nat>, updateTimer: Option<nat>, nextHandle: nat)
  {
    && (forall h :: h in timers ==> h < nextHandle)
    && (loadNextImageTimer.Some? ==> loadNextImageTimer.value < nextHandle)
    && (updateTimer.Some? ==> updateTimer.value < nextHandle)
    && (forall h :: h in timers && timers[h].SlideAdvance? ==> loadNextImageTimer == Some(h))
    && (forall h :: h in timers && timers[h].Refresh? ==> updateTimer == Some(h))
    && (loadNextImageTimer.Some? && loadNextImageTimer.value in timers ==>
          timers[loadNextImageTimer.value].SlideAdvance?)
    && (updateTimer.Some? && updateTimer.value in timers ==> timers[updateTimer.value].Refresh?)
  }

  /** The index is -1 only before the first batch, and otherwise within the
      catalog, or 0 for an empty one. */
  predicate CatalogOk(images: seq<Option<Image>>, imageIndex: int)
  {
    && -1 <= imageIndex
    && (|images| > 0 ==> imageIndex < |images|)
    && (|images| == 0 ==> imageIndex <= 0)
    && (imageIndex == -1 ==> images == [])
  }

  /** At most one slide timer and at most one refresh timer are ever
      outstanding, and they are the ones the module holds handles of. */
  lemma AtMostOneTimerOfEachKind(s: State)
    requires Inv(s)
    ensures SlideTimers(s) <= OptSet(s.loadNextImageTimer) && |SlideTimers(s)| <= 1
    ensures RefreshTimers(s) <= OptSet(s.updateTimer) && |RefreshTimers(s)| <= 1
  {
    assert SlideTimers(s) <= OptSet(s.loadNextImageTimer);
    assert RefreshTimers(s) <= OptSet(s.updateTimer);
    SubsetSize(SlideTimers(s), OptSet(s.loadNextImageTimer));
    SubsetSize(RefreshTimers(s), OptSet(s.updateTimer));
  }

  lemma SubsetSize(a: set<nat>, b: set<nat>)
    requires a <= b && |b| <= 1
    ensures |a| <= 1
  {
    if |a| > 1 {
      var x :| x in a;
      assert |a - {x}| == |a| - 1;
      var y :| y in a - {x};
      assert {x, y} <= b;
      assert |{x, y}| == 2;
      SubsetCardinality({x, y}, b);
    }
  }

  lemma SubsetCardinality(a: set<nat>, b: set<nat>)
    requires a <= b
    ensures |a| <= |b|
  {
    assert b == a + (b - a);
  }

  /** `clearTimeout(h)` / `clearInterval(h)`: cancelling a handle that is
      null or has already fired does nothing. */
  function Cleared(ts: map<nat, Task>, h: Option<nat>): (r: map<nat, Task>)
    ensures r.Keys == ts.Keys - OptSet(h)
    ensures forall k :: k in r ==> r[k] == ts[k]
  {
    match h
    case None => ts
    case Some(k) => ts - {k}
  }

  /** `start` (MMM-Wallpaper.js:55-94): the content holds the title (and the
      edge gradients when `fadeEdges` is set), one fetch request has gone
      out and the refresh interval is armed. */
  function Start(config: Config, vp: Viewport): (s: State)
    ensures Inv(s)
    ensures s.imageElement.None? && s.nextImageElement.None? && LiveLoads(s) == {}
    ensures s.requests == [Snapshot(config, vp)]
    ensures s.updateTimer.Some? && RefreshTimers(s) == {s.updateTimer.value} && SlideTimers(s) == {}
  {
    var content := [Title] + (if config.fadeEdges then [TopGradient, BottomGradient] else []);
    var s := State(config, [], -1, content, map[], None, None, "", true, false,
                   None, Some(0), map[0 := Refresh(config.updateInterval)], 1, 0,
                   [Snapshot(config, vp)]);
    assert Distinct(content);
    assert RefreshTimers(s) == {0};
    s
  }

  /** `resetLoadImageTimer` (MMM-Wallpaper.js:266-273): with a positive
      slide interval, cancel the slide timer and arm a fresh one; otherwise
      leave the timers alone. */
  function ResetLoadImageTimer(s: State): (r: State)
    requires Inv(s)
    ensures Inv(r)
    ensures s.config.slideInterval > 0 ==>
      && s.nextHandle !in s.timers
      && r.loadNextImageTimer == Some(s.nextHandle)
      && SlideTimers(r) == {s.nextHandle}
      && r.timers[s.nextHandle] == SlideAdvance(s.config.slideInterval)
    ensures s.config.slideInterval <= 0 ==> r == s
    ensures forall h :: h in s.timers && !s.timers[h].SlideAdvance? ==> h in r.timers && r.timers[h] == s.timers[h]
    ensures forall h :: h in r.timers && !r.timers[h].SlideAdvance? ==> h in s.timers
    ensures RefreshTimers(r) == RefreshTimers(s)
    ensures r.(timers := s.timers, nextHandle := s.nextHandle, loadNextImageTimer := s.loadNextImageTimer) == s
  {
    if s.config.slideInterval > 0 then
      var h := s.nextHandle;
      var r := s.(timers := Cleared(s.timers, s.loadNextImageTimer)[h := SlideAdvance(s.config.slideInterval)],
                  nextHandle := h + 1, loadNextImageTimer := Some(h));
      assert SlideTimers(r) == {h};
      assert RefreshTimers(r) == RefreshTimers(s);
      r
    else
      s
  }

  /** Lines 250-254 of `loadNextImage`: the pending element loses its load
      handler and leaves the content. */
  function DiscardPending(s: State): (r: State)
    requires Inv(s)
    ensures Inv(r)
    ensures r.nextImageElement.None?
    ensures s.nextImageElement.Some? ==>
      var p := s.nextImageElement.value;
      && p in r.elements && !r.elements[p].hasOnload
      && r.content == Without(s.content, Img(p))
      && r.elements == s.elements[p := s.elements[p].(hasOnload := false)]
      && LiveLoads(r) == LiveLoads(s) - {p}
    ensures s.nextImageElement.None? ==> r == s
    ensures r.(content := s.content, elements := s.elements, nextImageElement := s.nextImageElement) == s
  {
    match s.nextImageElement
    case None => s
    case Some(p) =>
      var r := s.(elements := s.elements[p := s.elements[p].(hasOnload := false)],
                  content := Without(s.content, Img(p)),
                  nextImageElement := None);
      DistinctWithout(s.content, Img(p));
      assert LiveLoads(r) == LiveLoads(s) - {p};
      r
  }

  /** `loadNextImage` (MMM-Wallpaper.js:245-264) for a non-empty catalog:
      re-arm the slide timer, discard the pending element, draw an index,
      and, unless that entry is null, create the one new pending element
      just before the title. The current element is not touched. */
  function LoadNextImage(s: State, rand: real, vp: Viewport): (r: State)
    requires Inv(s) && |s.images| > 0 && 0.0 <= rand < 1.0
    ensures Inv(r)
    ensures r.images == s.images && r.imageIndex == RandomIndex(rand, |s.images|)
    ensures 0 <= r.imageIndex < |r.images|
    ensures r.imageElement == s.imageElement
    ensures s.nextImageElement.Some? ==>
      var p := s.nextImageElement.value;
      p in r.elements && !r.elements[p].hasOnload && Img(p) !in r.content
    ensures r.nextImageElement.Some? <==> s.images[r.imageIndex].Some?
    ensures r.nextImageElement.Some? ==>
      var id := r.nextImageElement.value;
      var data := s.images[r.imageIndex].value;
      && id !in s.elements && Img(id) in r.content
      && r.elements[id] == ImageElement(data, ResolvedUrl(data, s.config.maxWidth, s.config.maxHeight, vp), 0, true, false)
      && LiveLoads(r) == (LiveLoads(s) - OptSet(s.nextImageElement)) + {id}
    ensures r.nextImageElement.None? ==> LiveLoads(r) == LiveLoads(s) - OptSet(s.nextImageElement)
    ensures forall x :: x in r.content <==>
      (x in s.content && x !in ImgNodes(s.nextImageElement)) || x in ImgNodes(r.nextImageElement)
    ensures s.config.slideInterval > 0 ==> SlideTimers(r) == {s.nextHandle} && r.loadNextImageTimer == Some(s.nextHandle)
    ensures RefreshTimers(r) == RefreshTimers(s)
    ensures r.config == s.config && r.requests == s.requests && r.hidden == s.hidden
    ensures r.titleText == s.titleText && r.titleShown == s.titleShown
  {
    var s1 := ResetLoadImageTimer(s);
    var s2 := DiscardPending(s1);
    DrawNext(s2, rand, vp)
  }

  /** Lines 256-262 of `loadNextImage`, once no element is pending: draw an
      index and, unless that entry is null, make the element `createImage`
      builds for it the pending element. */
  function DrawNext(s: State, rand: real, vp: Viewport): (r: State)
    requires Inv(s) && |s.images| > 0 && s.nextImageElement.None? && 0.0 <= rand < 1.0
    ensures Inv(r)
    ensures r.imageIndex == RandomIndex(rand, |s.images|) && r.images == s.images
    ensures r.nextImageElement.Some? <==> s.images[r.imageIndex].Some?
    ensures r.nextImageElement.None? ==> r == s.(imageIndex := r.imageIndex)
    ensures forall x :: x in r.content <==> x in s.content || x in ImgNodes(r.nextImageElement)
    ensures r.nextImageElement.Some? ==>
      var data := s.images[r.imageIndex].value;
      && r.nextImageElement == Some(s.nextNode) && s.nextNode !in s.elements
      && r.elements == s.elements[s.nextNode := ImageElement(data, ResolvedUrl(data, s.config.maxWidth, s.config.maxHeight, vp), 0, true, false)]
      && r.content == InsertBefore(s.content, Img(s.nextNode), Title)
      && Img(s.nextNode) !in s.content
      && LiveLoads(r) == LiveLoads(s) + {s.nextNode}
      && r == s.(imageIndex := r.imageIndex, elements := r.elements, content := r.content,
                 nextImageElement := r.nextImageElement, nextNode := s.nextNode + 1)
  {
    var i := RandomIndex(rand, |s.images|);
    var s3 := s.(imageIndex := i);
    match s3.images[i]
    case None => s3
    case Some(data) => CreatePending(s3, data, vp)
  }

  /** `createImage` (MMM-Wallpaper.js:194-205) and the insertion before the
      title (MMM-Wallpaper.js:261-262): a fresh transparent element for the
      entry, with its load handler attached and its `src` the resolved
      variant url, becomes the pending element. */
  function CreatePending(s: State, data: Image, vp: Viewport): (r: State)
    requires Inv(s) && s.nextImageElement.None?
    ensures Inv(r)
    ensures r.nextImageElement == Some(s.nextNode) && s.nextNode !in s.elements
    ensures r.elements == s.elements[s.nextNode := ImageElement(data, ResolvedUrl(data, s.config.maxWidth, s.config.maxHeight, vp), 0, true, false)]
    ensures r.content == InsertBefore(s.content, Img(s.nextNode), Title)
    ensures forall x :: x in r.content <==> x in s.content || x == Img(s.nextNode)
    ensures Img(s.nextNode) !in s.content
    ensures LiveLoads(r) == LiveLoads(s) + {s.nextNode}
    ensures r.nextNode == s.nextNode + 1
    ensures r.(elements := s.elements, content := s.content, nextImageElement := s.nextImageElement, nextNode := s.nextNode) == s
  {
    var id := s.nextNode;
    var el := ImageElement(data, ResolvedUrl(data, s.config.maxWidth, s.config.maxHeight, vp), 0, true, false);
    DistinctInsert(s.content, Img(id), Title);
    InsertBeforeMembers(s.content, Img(id), Title);
    var r := s.(elements := s.elements[id := el],
                content := InsertBefore(s.content, Img(id), Title),
                nextImageElement := Some(id),
                nextNode := id + 1);
    assert LiveLoads(r) == LiveLoads(s) + {id};
    r
  }

  /** `loadNextImage` on an empty catalog. The source has no guard: after
      re-arming the slide timer and discarding the pending element it reads
      `images.length` (a TypeError while no batch has been accepted) or
      passes the undefined entry `images[0]` to `createImage`, whose
      `image.url` raises a TypeError. What happened before the error stays. */
  function AdvanceWithoutImages(s: State, rand: real): (r: State)
    requires Inv(s) && |s.images| == 0 && 0.0 <= rand < 1.0
    ensures Inv(r)
    ensures r.nextImageElement.None? && r.imageElement == s.imageElement
    ensures r.imageIndex == (if s.imageIndex == -1 then -1 else 0)
    ensures s.config.slideInterval > 0 ==> SlideTimers(r) == {s.nextHandle}
    ensures r.nextNode == s.nextNode
  {
    var s1 := DiscardPending(ResetLoadImageTimer(s));
    if s1.imageIndex == -1 then s1 else s1.(imageIndex := RandomIndex(rand, 0))
  }

  /** One call of `loadNextImage`, whatever the catalog holds. */
  function Advance(s: State, rand: real, vp: Viewport): (r: State)
    requires Inv(s) && 0.0 <= rand < 1.0
    ensures Inv(r)
    ensures r.nextImageElement.Some? ==> r.nextImageElement.value !in s.elements
    ensures s.config.slideInterval > 0 ==> SlideTimers(r) == {s.nextHandle} && r.loadNextImageTimer == Some(s.nextHandle)
    ensures LiveLoads(r) <= (LiveLoads(s) - OptSet(s.nextImageElement)) + OptSet(r.nextImageElement)
    ensures r.imageElement == s.imageElement && r.config == s.config
  {
    if |s.images| > 0 then LoadNextImage(s, rand, vp) else AdvanceWithoutImages(s, rand)
  }

  /** The handle under which a load event queues its settle step: the next
      free one, or the one after it when the slide timer is re-armed first. */
  function SettleHandle(s: State): nat
  {
    if s.config.slideInterval > 0 then s.nextHandle + 1 else s.nextHandle
  }

  /** The handler `onImageLoaded` installs (MMM-Wallpaper.js:168-191), run
      when the browser delivers the load event of element `el`: re-arm the
      slide timer, make `el` opaque, hide the title and queue the settle
      step, after 1000 ms when crossfading and 0 ms otherwise. */
  function ImageLoaded(s: State, el: nat): (r: State)
    requires Inv(s) && el in s.elements && s.elements[el].hasOnload && !s.elements[el].loadFired
    ensures Inv(r)
    ensures el in r.elements && r.elements[el].opacity == 1 && r.elements[el].loadFired
    ensures r.elements == s.elements[el := s.elements[el].(opacity := 1, loadFired := true)]
    ensures !r.titleShown && r.titleText == s.titleText
    ensures r.content == s.content && r.imageElement == s.imageElement && r.nextImageElement == s.nextImageElement
    ensures LiveLoads(r) == LiveLoads(s) - {el}
    ensures r.nextHandle == SettleHandle(s) + 1
    ensures SettleHandle(s) !in s.timers && SettleHandle(s) in r.timers
    ensures r.timers[SettleHandle(s)] == Settle(s.elements[el].image, if s.config.crossfade then CrossfadeMillis else 0)
    ensures s.config.slideInterval > 0 ==> SlideTimers(r) == {s.nextHandle}
    ensures s.config.slideInterval <= 0 ==> SlideTimers(r) == SlideTimers(s)
  {
    RevealLoaded(ResetLoadImageTimer(s), el)
  }

  /** Lines 174-190 of the load handler, after the slide timer is re-armed:
      `el` becomes opaque, the title is hidden and the settle step is queued.
      Content, current and pending element are untouched. */
  function RevealLoaded(s: State, el: nat): (r: State)
    requires Inv(s) && el in s.elements && !s.elements[el].loadFired
    ensures Inv(r)
    ensures r.elements == s.elements[el := s.elements[el].(opacity := 1, loadFired := true)]
    ensures LiveLoads(r) == LiveLoads(s) - {el}
    ensures s.nextHandle !in s.timers && r.nextHandle == s.nextHandle + 1
    ensures r.timers == s.timers[s.nextHandle := Settle(s.elements[el].image, if s.config.crossfade then CrossfadeMillis else 0)]
    ensures SlideTimers(r) == SlideTimers(s)
    ensures r == s.(elements := r.elements, titleShown := false, timers := r.timers, nextHandle := r.nextHandle)
  {
    var e := s.elements[el];
    var h := s.nextHandle;
    var r := s.(elements := s.elements[el := e.(opacity := 1, loadFired := true)],
                titleShown := false,
                timers := s.timers[h := Settle(e.image, if s.config.crossfade then CrossfadeMillis else 0)],
                nextHandle := h + 1);
    assert SlideTimers(r) == SlideTimers(s);
    assert RefreshTimers(r) == RefreshTimers(s);
    assert LiveLoads(r) == LiveLoads(s) - {el};
    r
  }

  /** The settle step (MMM-Wallpaper.js:178-190): show the caption when
      captions are on and the entry has one, remove the current element, and
      promote whatever element is pending at this moment. */
  function Settled(s: State, h: nat): (r: State)
    requires Inv(s) && h in s.timers && s.timers[h].Settle?
    ensures Inv(r)
    ensures r.timers == s.timers - {h}
    ensures var caption := s.timers[h].image.caption;
      if s.config.caption && caption != "" then r.titleText == caption && r.titleShown
      else r.titleText == s.titleText && r.titleShown == s.titleShown
    ensures s.imageElement.Some? ==> Img(s.imageElement.value) !in r.content
    ensures r.content == (if s.imageElement.Some? then Without(s.content, Img(s.imageElement.value)) else s.content)
    ensures r.imageElement == s.nextImageElement && r.nextImageElement.None?
    ensures r.elements == s.elements && SlideTimers(r) == SlideTimers(s)
  {
    var caption := s.timers[h].image.caption;
    var s1 := s.(timers := s.timers - {h});
    assert Inv(s1) by {
      assert SlideTimers(s1) <= SlideTimers(s);
    }
    assert SlideTimers(s1) == SlideTimers(s);
    var s2 := if s.config.caption && caption != "" then s1.(titleText := caption, titleShown := true) else s1;
    Promote(s2)
  }

  /** Lines 185-189 of the settle step: the current element leaves the
      content and the pending element, if any, becomes current. */
  function Promote(s: State): (r: State)
    requires Inv(s)
    ensures Inv(r)
    ensures r.content == (if s.imageElement.Some? then Without(s.content, Img(s.imageElement.value)) else s.content)
    ensures r.imageElement == s.nextImageElement && r.nextImageElement.None?
    ensures r == s.(content := r.content, imageElement := r.imageElement, nextImageElement := None)
  {
    match s.imageElement
    case None => s.(imageElement := s.nextImageElement, nextImageElement := None)
    case Some(c) =>
      DistinctWithout(s.content, Img(c));
      s.(content := Without(s.content, Img(c)), imageElement := s.nextImageElement, nextImageElement := None)
  }

  /** `getData` (MMM-Wallpaper.js:146-152): record a fetch request carrying
      the configuration snapshot. */
  function GetData(s: State, vp: Viewport): (r: State)
    ensures r.requests == s.requests + [Snapshot(s.config, vp)]
    ensures r.(requests := s.requests) == s
    ensures Inv(s) ==> Inv(r)
  {
    s.(requests := s.requests + [Snapshot(s.config, vp)])
  }

  /** A WALLPAPERS batch (MMM-Wallpaper.js:125-143). */
  function WallpapersReceived(s: State, b: Batch, rand: real, rand': real, vp: Viewport): (r: State)
    requires Inv(s) && 0.0 <= rand < 1.0 && 0.0 <= rand' < 1.0
    ensures Inv(r)
    ensures !Accepts(s.config, vp, b) ==> r == s
    ensures Accepts(s.config, vp, b) ==>
      && r.images == SliceToEnd(b.images, s.config.maximumEntries)
      && (|r.images| > 0 ==> 0 <= r.imageIndex < |r.images|)
      && (|r.images| == 0 ==> r.imageIndex == 0)
    ensures Accepts(s.config, vp, b) && (s.imageElement.Some? || |r.images| == 0) ==>
      r == s.(images := r.images, imageIndex := r.imageIndex)
    ensures Accepts(s.config, vp, b) && s.imageElement.None? && |r.images| > 0 ==>
      r == LoadNextImage(s.(images := r.images, imageIndex := RandomIndex(rand, |r.images|)), rand', vp)
  {
    if !Accepts(s.config, vp, b) then s
    else
      var imgs := SliceToEnd(b.images, s.config.maximumEntries);
      var s1 := s.(images := imgs, imageIndex := if |imgs| > 0 then RandomIndex(rand, |imgs|) else 0);
      if s1.imageElement.None? && |imgs| > 0 then LoadNextImage(s1, rand', vp) else s1
  }

  /** `socketNotificationReceived` (MMM-Wallpaper.js:122-144): only
      WALLPAPERS is handled. */
  function SocketNotificationReceived(s: State, n: SocketNotification, rand: real, rand': real, vp: Viewport): (r: State)
    requires Inv(s) && 0.0 <= rand < 1.0 && 0.0 <= rand' < 1.0
    ensures Inv(r)
    ensures n.OtherSocketNotification? ==> r == s
    ensures n.Wallpapers? ==> r == WallpapersReceived(s, n.batch, rand, rand', vp)
  {
    match n
    case Wallpapers(b) => WallpapersReceived(s, b, rand, rand', vp)
    case OtherSocketNotification => s
  }

  /** The UPDATE_WALLPAPER_CONFIG branch (MMM-Wallpaper.js:109-119), with the
      string payload handled as intended (see ConfigController.ApplyUpdate):
      update the configuration, cancel the refresh interval, fetch at once and
      arm a new refresh interval. The slide timer is left alone. */
  function ConfigUpdated(s: State, payload: ConfigPayload, vp: Viewport): (r: State)
    requires Inv(s)
    ensures Inv(r)
    ensures r.config == ApplyUpdate(s.config, payload)
    ensures r.requests == s.requests + [Snapshot(r.config, vp)]
    ensures r.updateTimer == Some(s.nextHandle) && s.nextHandle !in s.timers
    ensures RefreshTimers(r) == {s.nextHandle} && r.timers[s.nextHandle] == Refresh(r.config.updateInterval)
    ensures r.loadNextImageTimer == s.loadNextImageTimer && SlideTimers(r) == SlideTimers(s)
    ensures forall h :: h in s.timers && !s.timers[h].Refresh? ==> h in r.timers && r.timers[h] == s.timers[h]
    ensures r.(config := s.config, requests := s.requests, timers := s.timers, updateTimer := s.updateTimer, nextHandle := s.nextHandle) == s
  {
    var s1 := s.(config := ApplyUpdate(s.config, payload));
    assert Inv(s1);
    RestartRefresh(s1, vp)
  }

  /** Lines 115-118 of the UPDATE_WALLPAPER_CONFIG branch: cancel the refresh
      interval, fetch at once with the current configuration and arm a new
      refresh interval under a fresh handle. */
  function RestartRefresh(s: State, vp: Viewport): (r: State)
    requires Inv(s)
    ensures Inv(r)
    ensures r.requests == s.requests + [Snapshot(s.config, vp)]
    ensures r.updateTimer == Some(s.nextHandle) && s.nextHandle !in s.timers
    ensures r.timers == Cleared(s.timers, s.updateTimer)[s.nextHandle := Refresh(s.config.updateInterval)]
    ensures RefreshTimers(r) == {s.nextHandle}
    ensures r.loadNextImageTimer == s.loadNextImageTimer && SlideTimers(r) == SlideTimers(s)
    ensures forall h :: h in s.timers && !s.timers[h].Refresh? ==> h in r.timers && r.timers[h] == s.timers[h]
    ensures r == s.(requests := r.requests, timers := r.timers, updateTimer := r.updateTimer, nextHandle := s.nextHandle + 1)
  {
    var s2 := s.(timers := Cleared(s.timers, s.updateTimer));
    var s3 := GetData(s2, vp);
    var h := s3.nextHandle;
    var r := s3.(timers := s3.timers[h := Refresh(s3.config.updateInterval)], updateTimer := Some(h), nextHandle := h + 1);
    assert RefreshTimers(r) == {h};
    assert SlideTimers(r) == SlideTimers(s);
    r
  }

  /** `notificationReceived` (MMM-Wallpaper.js:96-120). */
  function NotificationReceived(s: State, n: Notification, rand: real, vp: Viewport): (r: State)
    requires Inv(s) && 0.0 <= rand < 1.0
    ensures Inv(r)
    ensures n.ModuleDomCreated? ==>
      r == (if s.config.userPresenceAction == ShowOnPresence then s.(hidden := true) else s)
    ensures n.LoadNextWallpaper? ==> r == Advance(s, rand, vp)
    ensures n.UserPresence? ==>
      && r.(hidden := s.hidden) == s
      && (s.config.userPresenceAction == ShowOnPresence ==> r.hidden == !n.present)
      && (s.config.userPresenceAction == HideOnPresence ==> r.hidden == n.present)
      && (s.config.userPresenceAction == NoAction ==> r == s)
    ensures n.UpdateWallpaperConfig? ==> r == ConfigUpdated(s, n.payload, vp)
    ensures n.OtherNotification? ==> r == s
  {
    match n
    case ModuleDomCreated =>
      if s.config.userPresenceAction == ShowOnPresence then s.(hidden := true) else s
    case LoadNextWallpaper => Advance(s, rand, vp)
    case UserPresence(present) =>
      (match s.config.userPresenceAction
       case ShowOnPresence => s.(hidden := !present)
       case HideOnPresence => s.(hidden := present)
       case NoAction => s)
    case UpdateWallpaperConfig(payload) => ConfigUpdated(s, payload, vp)
    case OtherNotification => s
  }

  /** The slide timer fires: its handle is spent and `loadNextImage` runs. */
  function SlideTimerFired(s: State, h: nat, rand: real, vp: Viewport): (r: State)
    requires Inv(s) && h in s.timers && s.timers[h].SlideAdvance? && 0.0 <= rand < 1.0
    ensures Inv(r)
    ensures s.config.slideInterval > 0 ==> SlideTimers(r) == {s.nextHandle}
    ensures s.config.slideInterval <= 0 ==> SlideTimers(r) == {}
  {
    var s1 := s.(timers := s.timers - {h});
    assert SlideTimers(s1) == {} by {
      assert SlideTimers(s) <= {h};
    }
    Advance(s1, rand, vp)
  }

  /** The refresh interval fires: another fetch request; the interval stays
      armed. */
  function RefreshTimerFired(s: State, h: nat, vp: Viewport): (r: State)
    requires Inv(s) && h in s.timers && s.timers[h].Refresh?
    ensures Inv(r)
    ensures r.requests == s.requests + [Snapshot(s.config, vp)]
    ensures r.timers == s.timers
  {
    GetData(s, vp)
  }
}
