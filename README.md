# MMM-Wallpaper display scheduler in Dafny

A model of the display-scheduling core of the MagicMirror module
MMM-Wallpaper (`MMM-Wallpaper.js`), with proofs of what it guarantees.

The module receives batches of wallpaper entries from its backend. It keeps
the first `maximumEntries` of them and draws a random entry every
`slideInterval` milliseconds. For the drawn entry it picks the resolution
variant that fits the viewport within `maxWidth`/`maxHeight`. The new image
loads off-screen as a transparent `<img>` (the pending element) inserted
before the caption. Once it has loaded it is faded in. After the crossfade
delay comes the settle step: the previous image (the current element) is
removed and the pending element becomes current. Notifications from other
modules force an advance, show or hide the module on user presence, or
change the configuration and fetch again.

Modules, one per part of the source:

- `WallpaperTypes` (types.dfy): entries, variants, viewport, configuration,
  configuration payloads and batches.
- `ViewportQuery` (viewport.dfy): `getOrientation`.
- `VariantResolver` (variants.dfy): `getImageUrl`. It is an imperative loop
  with early exits, proved equal to a first-index specification.
- `ImageCatalog` (catalog.dfy): batch acceptance, `slice(0, maximumEntries)`
  and `Math.floor(Math.random() * n)`.
- `ConfigController` (config.dfy): the `UPDATE_WALLPAPER_CONFIG` payload
  handling (`Object.assign`) and the configuration snapshot of `getData`.
- `ContentList` (contentlist.dfy): the child list of the `content` element,
  with `insertBefore` and `removeChild`.
- `SlideScheduler` (scheduler.dfy): all fields of the module object as one
  `State`, the invariant `Inv`, and one transition function per handler.
  Timers are a map from handle to queued callback (`SlideAdvance`,
  `Refresh`, or the settle step `Settle`), with one shared handle counter.
- `SchedulerProperties` (properties.dfy): properties of runs of several
  handlers.
- `WallpaperModule` (wallpaper.dfy): the class `Wallpaper`, with those
  fields updated in place by one method per handler. Each method is proved
  to leave the object in exactly the state the corresponding
  `SlideScheduler` function computes, so `Inv` and every property proved
  there hold of the object.

Inputs the source reads from its environment are parameters:

- `Math.random()` becomes a real `rand` in `[0, 1)`. The drawn index is
  `floor(rand * n)`, as in the source, and `RandomIndexReachesAll` shows that
  every index can be drawn.
- The viewport that `getViewport` measures becomes a `Viewport` argument.
- The browser delivering a load event, or a queued timer firing, is a call
  of the matching method (`OnImageLoaded`, `SettleTimerFired`,
  `SlideTimerFired`, `RefreshTimerFired`).

Where the intended behaviour and the code differ, the model
follows the code, with one exception: the handling of a string payload of
UPDATE_WALLPAPER_CONFIG is a bug (see "## Findings"). That handling is
modelled as written in `ConfigController.ApplyUpdateAsWritten`, but the
handlers (`SlideScheduler.ConfigUpdated`, `SlideScheduler.NotificationReceived`
and the matching methods of `Wallpaper`) use the corrected
`ConfigController.ApplyUpdate`. Elsewhere:

- The first image is not shown "directly". It takes the same path as every
  later one: transparent, revealed on load, settled after the crossfade
  delay.
- An accepted empty batch does not cancel the slide timer. It only sets
  `images` to `[]` and `imageIndex` to 0.
- A negative `maximumEntries` makes `slice` count from the back, so the
  catalog is then not bounded by `maximumEntries`.
- `maximumEntries` is applied only when a batch arrives. Lowering it through
  UPDATE_WALLPAPER_CONFIG leaves the catalog longer than the new bound until
  the next accepted batch (`LoweredBoundWaitsForNextBatch`).
- The slide timer is re-armed at the start of `loadNextImage` and again when
  the new image has loaded (MMM-Wallpaper.js:172), not when the crossfade
  settles. With `slideInterval <= 0` it is never armed.
- At most one element is pending at a time (`nextImageElement` is a single
  optional element, and `loadNextImage` detaches the previous one). Only
  the pending element is ever detached (MMM-Wallpaper.js:251). The settle
  step removes the old current element from the content with its load
  handler still attached, so the handlers still live are not bounded by
  the two elements in the content: an element that has left the content
  can still load and run a settle step of its own. The settle step
  promotes whatever is pending when it runs. `ForcedAdvanceDuringCrossfade`
  and `LateLoadOfPromotedElement` show the consequence: a forced advance
  inside the crossfade window leaves the display with no visible image.
  When the promoted element's own load arrives it fades in and is shown,
  but only until its settle step runs after the crossfade delay and removes
  it. That leaves no image element at all until `loadNextImage` runs again: when
  the slide timer fires (never, if `slideInterval <= 0`), on a forced
  advance, or when an accepted non-empty batch arrives, since nothing is
  current then (MMM-Wallpaper.js:139-141). Worse, if the next image loads
  and settles first, it is shown as the current image while the element
  promoted unloaded is out of the content but still live. That element's
  late load then runs a settle step that removes the shown image and
  leaves no current element and no image in the content
  (`StaleLoadHidesShownImage`).

The invariant `Inv` is preserved by every handler. It states:

- The title is in the content, and no node is in it twice.
- The content holds at most two images: the current element and the pending
  element. These are distinct, and each is in the content whenever it is
  set, so `removeChild` in the settle step and in `loadNextImage` always
  targets a child.
- The pending element still has its load handler.
- Every outstanding slide timer is the one `loadNextImageTimer` holds, and
  every outstanding refresh timer the one `updateTimer` holds. So there is
  at most one of each (`AtMostOneTimerOfEachKind`).
- `imageIndex` is within the catalog, or 0 for an empty one, or -1 before
  the first batch.

## Model

| member | source | states |
|---|---|---|
| ViewportQuery.Orientation | MMM-Wallpaper.js:154-163 | an explicit orientation is returned unchanged; "auto" gives "vertical" exactly when the viewport is narrower than tall and "horizontal" exactly when it is not |
| ViewportQuery.ResolvedIsNotAuto | MMM-Wallpaper.js:157-162 | the query never answers "auto" |
| ViewportQuery.RotationFlips | MMM-Wallpaper.js:159 | swapping width and height of a non-square viewport flips the derived orientation; a square one is horizontal |
| VariantResolver.OverCap | MMM-Wallpaper.js:230 | definition: the variant is wider than `maxWidth` or taller than `maxHeight` |
| VariantResolver.Covers | MMM-Wallpaper.js:236 | definition: the variant is at least as wide and as tall as the viewport |
| VariantResolver.FirstOverCap | MMM-Wallpaper.js:230-232 | the index of the first variant wider than `maxWidth` or taller than `maxHeight`: all before it are within both caps |
| VariantResolver.FirstCovering | MMM-Wallpaper.js:236-238 | the index of the first variant covering the viewport on both axes: none before it does |
| VariantResolver.Adopted | MMM-Wallpaper.js:224-242 | the adopted variant, if any, is an index of the variant list |
| VariantResolver.ResolvedUrl | MMM-Wallpaper.js:222-243 | the url returned is never made up: it is the entry's own url or the url of one of its variants |
| VariantResolver.GetImageUrl | MMM-Wallpaper.js:222-243 | the loop with its two `break`s returns exactly the url of the adopted variant, or the entry's own url when none is adopted |
| VariantResolver.AdoptedBeforeCap | MMM-Wallpaper.js:230-234 | a walk that stops at an over-cap variant, or runs out, without meeting a covering variant has adopted the variant before the stop |
| VariantResolver.AdoptedAtCovering | MMM-Wallpaper.js:234-238 | a walk that meets an in-cap covering variant adopts that variant |
| VariantResolver.ResolvedRespectsCaps | MMM-Wallpaper.js:224-242 | the entry's own url is returned exactly when there are no variants or the first is over a cap; otherwise the url of a variant within both caps |
| VariantResolver.AdoptedIsSmallestCovering | MMM-Wallpaper.js:227-239 | every variant before the adopted one is in-cap and not covering; if a covering variant precedes the first over-cap one, the first such is adopted; otherwise the last in-cap variant is adopted |
| VariantResolver.ExampleImage | MMM-Wallpaper.js:222-243 | definition: an entry with three variants in ascending order, the input of the examples below |
| VariantResolver.ExampleFirstCovering | MMM-Wallpaper.js:236-238 | with three ascending variants and caps of 2000, a 1024x768 viewport gets the 1920x1080 variant |
| VariantResolver.ExampleAllOverCap | MMM-Wallpaper.js:230-232 | with a width cap below the smallest variant the entry's own url is returned |
| VariantResolver.ExampleLargestAdmissible | MMM-Wallpaper.js:227-234 | a viewport larger than every in-cap variant gets the largest in-cap variant |
| ImageCatalog.SourceMatches | MMM-Wallpaper.js:127-128 | definition: membership when the configured source is an array, `===` otherwise, which a `String` object never satisfies |
| ImageCatalog.Accepts | MMM-Wallpaper.js:126-128 | definition: a batch is accepted exactly when its orientation is the derived one and its source matches the configured source |
| ImageCatalog.SliceToEnd | MMM-Wallpaper.js:130 | `slice(0, end)` is a prefix of the batch, of length `min(len, end)` for a non-negative end and `max(0, len + end)` for a negative one |
| ImageCatalog.SliceWithinBound | MMM-Wallpaper.js:130 | a batch within the bound is kept whole, cutting again changes nothing, and the result never exceeds a non-negative bound |
| ImageCatalog.RandomIndex | MMM-Wallpaper.js:134 | `floor(rand * n)` with `rand` in `[0, 1)` lies in `[0, n)` for a non-empty catalog, and is 0 for an empty one |
| ImageCatalog.FloorBounds | MMM-Wallpaper.js:257 | helper: the arithmetic bounds of `floor(rand * n)` that `RandomIndex` relies on |
| ImageCatalog.RandomIndexReachesAll | MMM-Wallpaper.js:134 | every index of a non-empty catalog is drawn by some value of `Math.random()` |
| ConfigController.Pick | MMM-Wallpaper.js:113 | definition: a key the payload carries takes the payload's value; any other key keeps the configuration's |
| ConfigController.Merge | MMM-Wallpaper.js:113 | `Object.assign` with an object payload overwrites exactly the options the payload carries, field by field, and keeps the rest |
| ConfigController.EmptyPatch | MMM-Wallpaper.js:113 | definition: an object payload that carries no key |
| ConfigController.MergeLaws | MMM-Wallpaper.js:113 | merging an empty object changes nothing; merging the same object twice is merging it once |
| ConfigController.DecimalString | MMM-Wallpaper.js:113 | the property name of a string index is a non-empty string of decimal digits |
| ConfigController.DecimalStringInjective | MMM-Wallpaper.js:113 | different string indices have different property names |
| ConfigController.IndexNames | MMM-Wallpaper.js:113 | definition: the property names of the string indices below `n` |
| ConfigController.IndexNamesStep | MMM-Wallpaper.js:113 | the names of the indices below `n + 1` are those below `n` plus the name of `n` |
| ConfigController.NewIndexName | MMM-Wallpaper.js:113 | the name of index `n` is not the name of any smaller index |
| ConfigController.IndexNamesSize | MMM-Wallpaper.js:113 | `n` indices have `n` distinct names |
| ConfigController.CharKeys | MMM-Wallpaper.js:113 | the own properties `Object.assign` copies from a string: their names are exactly the decimal names of its indices, and index `i` holds the i-th character |
| ConfigController.CharKeysSize | MMM-Wallpaper.js:113 | a string of length `n` contributes exactly `n` properties |
| ConfigController.CharKeysFirst | MMM-Wallpaper.js:113 | a non-empty string contributes the property "0" holding its first character |
| ConfigController.DecimalOfPositive | MMM-Wallpaper.js:113 | no index other than 0 is named "0" |
| ConfigController.ApplyUpdateAsWritten | MMM-Wallpaper.js:110-114 | as written: a `String` object is stored as the source, still an object; a primitive string changes no option and adds its character properties; an object payload is merged |
| ConfigController.PrimitiveStringIgnoredAsWritten | MMM-Wallpaper.js:110-114 | as written, the primitive payload "bing" leaves the source unchanged and adds the option "0" = "b" |
| ConfigController.StringUpdateFailsAsWritten | MMM-Wallpaper.js:110-128 | as written, after a `String` object payload no batch is accepted until a later object payload carrying `source` replaces it (which then restores acceptance), and after a primitive string payload a batch is accepted exactly when it was before |
| ConfigController.ApplyUpdate | MMM-Wallpaper.js:110-114 | a string payload, in either representation, replaces the source and nothing else; an object payload is merged key by key |
| ConfigController.StringUpdateSelectsSource | MMM-Wallpaper.js:110-111 | after a string update, a batch in the current orientation is accepted exactly when it comes from that source |
| ConfigController.Snapshot | MMM-Wallpaper.js:146-152 | the configuration copy a fetch request carries is the configuration with only its orientation resolved, never "auto" |
| ConfigController.SnapshotStable | MMM-Wallpaper.js:148-150 | resolving a snapshot again, for any viewport, changes nothing |
| ConfigController.AnswerToFetchIsAccepted | MMM-Wallpaper.js:126-128 | a backend answering a request with the orientation and one of the sources it carried is accepted, while configuration and derived orientation are unchanged |
| ContentList.InsertBefore | MMM-Wallpaper.js:262 | insertion adds one node, at the front when the reference is first |
| ContentList.InsertBeforeMembers | MMM-Wallpaper.js:262 | after insertion the nodes present are the old ones and the inserted one |
| ContentList.InsertBeforePlacement | MMM-Wallpaper.js:262 | the new node sits immediately before the first occurrence of the reference; nodes before it keep their positions and the rest move back by one |
| ContentList.IndexOf | MMM-Wallpaper.js:262 | the position of the first occurrence of a node |
| ContentList.Without | MMM-Wallpaper.js:186 | removal keeps exactly the other nodes and shortens a list that held the node |
| ContentList.RemoveInserted | MMM-Wallpaper.js:252 | removing a freshly inserted node gives back the list before the insertion |
| ContentList.NotInWithout | MMM-Wallpaper.js:252 | helper: a sequence fact, removing a node that is not there changes nothing; the DOM's `removeChild` would throw instead, a case `Inv` keeps the module from ever reaching |
| ContentList.DistinctInsert | MMM-Wallpaper.js:262 | inserting a new node keeps every node of the content unique |
| ContentList.DistinctTail | MMM-Wallpaper.js:262 | helper: the tail of a duplicate-free list is duplicate-free and lacks the head |
| ContentList.DistinctCons | MMM-Wallpaper.js:262 | helper: putting an absent node in front keeps a list duplicate-free |
| ContentList.DistinctWithout | MMM-Wallpaper.js:186 | removal keeps every node of the content unique |
| SlideScheduler.Inv | MMM-Wallpaper.js:55-94 | definition: the conjunction of `DomOk`, `TimersOk` and `CatalogOk` over the module's fields, preserved by every handler |
| SlideScheduler.DomOk | MMM-Wallpaper.js:245-264 | definition: the title is in the content, no node twice, the only images in it are the distinct current and pending elements, each of which is in it whenever set, and the pending one still has its load handler |
| SlideScheduler.TimersOk | MMM-Wallpaper.js:266-273 | definition: every slide timer is the one `loadNextImageTimer` holds, every refresh timer the one `updateTimer` holds, and all handles are below the next handle |
| SlideScheduler.CatalogOk | MMM-Wallpaper.js:130-137 | definition: `imageIndex` is an index of the catalog, or 0 for an empty one, or -1 before the first batch |
| SlideScheduler.AtMostOneTimerOfEachKind | MMM-Wallpaper.js:266-273 | in every reachable state at most one slide timer and at most one refresh timer are outstanding, each the one whose handle the module holds |
| SlideScheduler.SubsetSize | MMM-Wallpaper.js:270-271 | helper: a subset of a set of at most one handle has at most one |
| SlideScheduler.SubsetCardinality | MMM-Wallpaper.js:270-271 | helper: a subset is no larger than its superset |
| SlideScheduler.SlideTimers | MMM-Wallpaper.js:266-273 | definition: the handles of the outstanding slide timers |
| SlideScheduler.RefreshTimers | MMM-Wallpaper.js:93 | definition: the handles of the outstanding refresh intervals |
| SlideScheduler.LiveLoads | MMM-Wallpaper.js:168-191 | definition: the elements that still have their load handler and whose load event has not been delivered yet |
| SlideScheduler.SettleHandle | MMM-Wallpaper.js:172-190 | definition: the handle the settle step of a load gets, one past the re-armed slide timer when `slideInterval > 0` |
| SlideScheduler.Cleared | MMM-Wallpaper.js:270 | `clearTimeout`/`clearInterval` drop exactly the given handle, and nothing for `null` |
| SlideScheduler.Start | MMM-Wallpaper.js:55-94 | the initial state satisfies the invariant, shows nothing, has sent one fetch request and has exactly one refresh interval and no slide timer |
| SlideScheduler.ResetLoadImageTimer | MMM-Wallpaper.js:266-273 | with a positive slide interval exactly one slide timer remains, freshly armed, and other timers stay; otherwise the state is unchanged |
| SlideScheduler.DiscardPending | MMM-Wallpaper.js:250-254 | the pending element loses its load handler and leaves the content; nothing else changes |
| SlideScheduler.LoadNextImage | MMM-Wallpaper.js:245-264 | re-arms the slide timer, detaches and removes the old pending element, draws an index in range, and creates one new transparent pending element before the title exactly when the drawn entry is not null; the current element, configuration, requests and title stay |
| SlideScheduler.DrawNext | MMM-Wallpaper.js:257-263 | draws the index and, for a non-null entry, adds one fresh element to the content and makes it pending; for a null entry only the index changes |
| SlideScheduler.CreatePending | MMM-Wallpaper.js:194-205 | the new element is fresh, transparent, has its load handler and the resolved variant url as `src`, and is inserted before the title |
| SlideScheduler.AdvanceWithoutImages | MMM-Wallpaper.js:245-264 | on an empty catalog the timer is re-armed and the pending element discarded before the TypeError; no element is created |
| SlideScheduler.Advance | MMM-Wallpaper.js:245-264 | any call of `loadNextImage` leaves at most the one new element pending and keeps the current element |
| SlideScheduler.ImageLoaded | MMM-Wallpaper.js:168-191 | a load event re-arms the slide timer, makes the element opaque, hides the title and queues the settle step under the next handle with a delay of 1000 ms when crossfading and 0 otherwise |
| SlideScheduler.RevealLoaded | MMM-Wallpaper.js:174-190 | the element becomes opaque, the title is hidden and one settle step is queued; nothing else changes |
| SlideScheduler.Settled | MMM-Wallpaper.js:178-190 | the caption is shown only when captions are on and the entry has one; the old current element leaves the content; the element pending at this moment becomes current and nothing stays pending |
| SlideScheduler.Promote | MMM-Wallpaper.js:185-189 | the current element leaves the content and the pending element becomes current |
| SlideScheduler.GetData | MMM-Wallpaper.js:146-152 | one fetch request carrying the snapshot is recorded; nothing else changes |
| SlideScheduler.WallpapersReceived | MMM-Wallpaper.js:125-143 | a batch that does not match orientation and source changes nothing; an accepted one keeps the sliced prefix, puts the index in range (0 when empty), and starts a load exactly when nothing is current and the catalog is non-empty, and otherwise changes nothing else |
| SlideScheduler.SocketNotificationReceived | MMM-Wallpaper.js:122-144 | only WALLPAPERS is handled; any other notification changes nothing |
| SlideScheduler.ConfigUpdated | MMM-Wallpaper.js:109-119 | the configuration is updated by the corrected `ApplyUpdate` (a string payload of either form selects that source), one fetch with the new configuration is issued, and exactly one new refresh interval is armed; the slide timer is untouched |
| SlideScheduler.RestartRefresh | MMM-Wallpaper.js:116-118 | the old refresh interval is cancelled, one request goes out and one new interval under a fresh handle is armed |
| SlideScheduler.NotificationReceived | MMM-Wallpaper.js:96-120 | MODULE_DOM_CREATED hides only for "show"; LOAD_NEXT_WALLPAPER advances; USER_PRESENCE shows or hides as `userPresenceAction` says and does nothing for other values; UPDATE_WALLPAPER_CONFIG updates through `ConfigUpdated`, with the corrected string handling; anything else changes nothing |
| SlideScheduler.SlideTimerFired | MMM-Wallpaper.js:271 | the fired slide timer is spent and `loadNextImage` runs, after which a positive interval leaves exactly one new slide timer |
| SlideScheduler.RefreshTimerFired | MMM-Wallpaper.js:93 | each refresh tick sends one more request and the interval stays armed |
| SchedulerProperties.LoweredBoundWaitsForNextBatch | MMM-Wallpaper.js:113-130 | lowering `maximumEntries` by a configuration update keeps the catalog, which is then longer than the new bound |
| SchedulerProperties.Draws | MMM-Wallpaper.js:257 | definition: every value `Math.random()` delivers in a run lies in `[0, 1)` |
| SchedulerProperties.NothingVisible | MMM-Wallpaper.js:174 | definition: every image in the content still has opacity 0 |
| SchedulerProperties.ForcedAdvances | MMM-Wallpaper.js:101-102 | any run of forced advances keeps the invariant, the configuration and the current element |
| SchedulerProperties.ForcedAdvancesLeaveOneTimer | MMM-Wallpaper.js:248-273 | after any non-empty run of forced advances exactly one slide timer is outstanding, and the only load handlers still live are those from before, less the old pending one, plus the last new pending one |
| SchedulerProperties.SecondAdvanceDetachesFirst | MMM-Wallpaper.js:250-254 | the element a forced advance started is detached, out of the content and no longer pending after a second forced advance |
| SchedulerProperties.FirstBatchStartsDisplay | MMM-Wallpaper.js:130-141 | the first accepted non-empty batch of non-null entries leaves an in-range index, one pending element with the only live load handler, nothing current, and one slide timer when the interval is positive |
| SchedulerProperties.ForcedAdvanceDuringCrossfade | MMM-Wallpaper.js:178-190 | a forced advance between a load and its settle step makes the settle step promote the new, still transparent element and remove both earlier images: nothing is visible |
| SchedulerProperties.StaleLoadHidesShownImage | MMM-Wallpaper.js:178-190 | with an unloaded current element `b` and a pending `c`: once `c` loads and settles it is the opaque current image and `b` is out of the content but still live; `b`'s late load and settle then remove `c` and leave no current element and no image in the content |
| SchedulerProperties.LateLoadOfPromotedElement | MMM-Wallpaper.js:165-190 | when the promoted element then loads it is opaque in the content, shown until its settle step removes it and leaves no current element and no image in the content |
| WallpaperModule.Wallpaper.constructor | MMM-Wallpaper.js:55-94 | the new object is in the state `Start` describes |
| WallpaperModule.Wallpaper.SetTimer | MMM-Wallpaper.js:271 | a timer is queued under the next handle |
| WallpaperModule.Wallpaper.ClearTimer | MMM-Wallpaper.js:270 | the handle is cancelled as `Cleared` describes |
| WallpaperModule.Wallpaper.GetData | MMM-Wallpaper.js:146-152 | one request carrying the snapshot is appended |
| WallpaperModule.Wallpaper.ResetLoadImageTimer | MMM-Wallpaper.js:266-273 | the object reaches the state of `SlideScheduler.ResetLoadImageTimer` and keeps the invariant |
| WallpaperModule.Wallpaper.CreateImage | MMM-Wallpaper.js:194-205 | a fresh element with the resolved url (computed by the `GetImageUrl` loop), opacity 0 and its load handler is created |
| WallpaperModule.Wallpaper.DiscardPendingLoad | MMM-Wallpaper.js:250-254 | the object reaches the state of `DiscardPending` and keeps the invariant |
| WallpaperModule.Wallpaper.ShowPending | MMM-Wallpaper.js:259-263 | the object reaches the state of `CreatePending` and keeps the invariant |
| WallpaperModule.Wallpaper.LoadNextImage | MMM-Wallpaper.js:245-264 | the object reaches the state of `SlideScheduler.LoadNextImage` and keeps the invariant |
| WallpaperModule.Wallpaper.AdvanceWithoutImages | MMM-Wallpaper.js:245-257 | the object reaches the state of `SlideScheduler.AdvanceWithoutImages` and keeps the invariant |
| WallpaperModule.Wallpaper.Advance | MMM-Wallpaper.js:245-264 | the object reaches the state of `SlideScheduler.Advance` and keeps the invariant |
| WallpaperModule.Wallpaper.OnImageLoaded | MMM-Wallpaper.js:168-191 | the object reaches the state of `ImageLoaded` and keeps the invariant |
| WallpaperModule.Wallpaper.Reveal | MMM-Wallpaper.js:174-190 | the object reaches the state of `RevealLoaded` and keeps the invariant |
| WallpaperModule.Wallpaper.SettleTimerFired | MMM-Wallpaper.js:178-190 | the object reaches the state of `Settled` and keeps the invariant |
| WallpaperModule.Wallpaper.PromotePending | MMM-Wallpaper.js:185-189 | the object reaches the state of `Promote` and keeps the invariant |
| WallpaperModule.Wallpaper.SlideTimerFired | MMM-Wallpaper.js:271 | the object reaches the state of `SlideScheduler.SlideTimerFired` and keeps the invariant |
| WallpaperModule.Wallpaper.RefreshTimerFired | MMM-Wallpaper.js:93 | the object reaches the state of `SlideScheduler.RefreshTimerFired` and keeps the invariant |
| WallpaperModule.Wallpaper.SocketNotificationReceived | MMM-Wallpaper.js:122-144 | the object reaches the state of `SlideScheduler.SocketNotificationReceived` and keeps the invariant |
| WallpaperModule.Wallpaper.WallpapersReceived | MMM-Wallpaper.js:125-143 | the object reaches the state of `SlideScheduler.WallpapersReceived` and keeps the invariant |
| WallpaperModule.Wallpaper.StoreImages | MMM-Wallpaper.js:130-137 | the catalog becomes the sliced batch and the index is drawn in it, or 0 for an empty catalog, keeping the invariant |
| WallpaperModule.Wallpaper.UpdateConfig | MMM-Wallpaper.js:109-119 | the object reaches the state of `ConfigUpdated`, so its configuration is that of the corrected `ApplyUpdate`, and keeps the invariant |
| WallpaperModule.Wallpaper.RestartRefresh | MMM-Wallpaper.js:116-118 | the object reaches the state of `SlideScheduler.RestartRefresh` and keeps the invariant |
| WallpaperModule.Wallpaper.NotificationReceived | MMM-Wallpaper.js:96-120 | the object reaches the state of `SlideScheduler.NotificationReceived` (string payloads handled as corrected) and keeps the invariant |

## Left out

- DOM construction and styling: the wrapper, class names, `filter`, `object-fit`, fill region, width/height and the crossfade class name (MMM-Wallpaper.js:61-87, 174, 198-199). These are rendering only. `content` is a list of abstract nodes, an image is an id with its `src`, opacity and handler state, and the title is a text plus a shown flag.
- `getStyles`, `getDom` and `getViewport` (MMM-Wallpaper.js:51-53, 207-220). The viewport is a parameter.
- Real timers. The delays are recorded in the queued task but not interpreted, and which timer fires next is up to the caller. The module is single-threaded, so each handler runs atomically.
- `console.log` (MMM-Wallpaper.js:170): output only.
- `sendSocketNotification` and the fetching backends. A fetch request is recorded as the configuration snapshot it carries.
- `Math.random`: `rand` is a parameter in `[0, 1)`.
- `for (var i in image.variants)` is modelled as a walk over the indices in order, which is what it does on an array. Entries given as plain objects with extra enumerable keys are not modelled.
- An entry without a `variants` key is modelled as one with an empty variant list. For the resolver the two are indistinguishable.
- A caption is a string, with "" standing for every falsy caption. Non-string captions are not modelled.
- Configuration values are modelled with the types the module uses; the other recognised options are folded into a string-valued map. Non-integer intervals and dimensions, and option values of other types in a merged object, are not modelled.
- `userPresenceAction` is "none", "show" or "hide". Any other value acts like "none" in the source, and no other value is modelled.
- `loadNextImage` on an empty catalog throws a TypeError partway through. `AdvanceWithoutImages` keeps the effects before the throw. The exception itself, and its propagation to the caller, is not modelled.
- `SlideScheduler.ConfigUpdated`: uses the corrected `ApplyUpdate`, so a string payload in either form selects that source. As written (MMM-Wallpaper.js:110-114) neither form does; that behaviour is modelled only in `ConfigController.ApplyUpdateAsWritten` and its lemmas (see "## Findings").
- `SlideScheduler.NotificationReceived`: its UPDATE_WALLPAPER_CONFIG branch goes through `ConfigUpdated` and so uses the corrected `ApplyUpdate`: a string payload in either form selects that source. As written (MMM-Wallpaper.js:110-114) a primitive string leaves `config.source` unchanged and a `String` object is stored boxed and then never matches; that behaviour is modelled only in `ConfigController.ApplyUpdateAsWritten` and its lemmas (see "## Findings").
- `WallpaperModule.Wallpaper.UpdateConfig`: reaches the state of `ConfigUpdated`, which uses the corrected `ApplyUpdate`: a string payload in either form selects that source. As written (MMM-Wallpaper.js:110-114) a primitive string leaves `config.source` unchanged and a `String` object is stored boxed and then never matches; that behaviour is modelled only in `ConfigController.ApplyUpdateAsWritten` and its lemmas (see "## Findings").
- `WallpaperModule.Wallpaper.NotificationReceived`: reaches the state of `SlideScheduler.NotificationReceived`, whose UPDATE_WALLPAPER_CONFIG branch uses the corrected `ApplyUpdate`: a string payload in either form selects that source. As written (MMM-Wallpaper.js:110-114) a primitive string leaves `config.source` unchanged and a `String` object is stored boxed and then never matches; that behaviour is modelled only in `ConfigController.ApplyUpdateAsWritten` and its lemmas (see "## Findings").
- `show()` and `hide()` (MMM-Wallpaper.js:100, 105, 107) belong to the MagicMirror framework. They are modelled only as the `hidden` flag they set, with no animation or DOM effect.
- `ConfigController.CharKeys`: indexes the string's Dafny characters (Unicode scalar values). JavaScript indexes UTF-16 code units, so a character outside the Basic Multilingual Plane gives two properties there and one here.
- `SlideScheduler.WallpapersReceived`: the source's `payload.images.slice` on a payload without `images` throws. Batches always carry a (possibly empty) list here.

## Findings

| source | as written | input that shows it | evidently intended | confidence | as-written member | corrected member |
|---|---|---|---|---|---|---|
| MMM-Wallpaper.js:110-114 | neither form of a string payload selects the new source. `payload instanceof String` holds only for a `String` object, so a primitive string goes to `Object.assign`, which copies its characters as the options "0", "1", … and leaves `config.source` unchanged. A `String` object is stored as it is, and `===` at line 128 never holds between it and the primitive `payload.source` of a batch, so no batch is accepted until a later object payload with a `source` key replaces it | `UPDATE_WALLPAPER_CONFIG` with the payload `"bing"` while the source is something else: the source stays, the option "0" becomes "b". With `new String("bing")`: every later WALLPAPERS batch, even one from "bing", is dropped until an object payload sets `source` again | a string payload replaces `config.source` by that source name, whether it is a primitive or a `String` object | high (not executed; follows from the JavaScript semantics of `instanceof`, `Object.assign` and `===`) | ConfigController.StringUpdateFailsAsWritten | ConfigController.ApplyUpdate |
