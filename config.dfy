/** Configuration updates (UPDATE_WALLPAPER_CONFIG) and the configuration
    snapshot that goes out with a fetch request. */
module ConfigController {
  import opened WallpaperTypes
  import opened ViewportQuery
  import opened ImageCatalog

  /** The payload's value for a key when it carries the key, else the
      configuration's. */
  function Pick<T>(patched: Option<T>, current: T): T
  {
    match patched
    case Some(v) => v
    case None => current
  }

  /** `Object.assign(config, payload)` for an object payload: every key the
      payload carries overwrites the configuration's, every other key keeps
      its value. */
  function Merge(c: Config, p: ConfigPatch): (r: Config)
    ensures r.source == Pick(p.source, c.source)
    ensures r.updateInterval == Pick(p.updateInterval, c.updateInterval)
    ensures r.slideInterval == Pick(p.slideInterval, c.slideInterval)
    ensures r.maximumEntries == Pick(p.maximumEntries, c.maximumEntries)
    ensures r.orientation == Pick(p.orientation, c.orientation)
    ensures r.caption == Pick(p.caption, c.caption)
    ensures r.crossfade == Pick(p.crossfade, c.crossfade)
    ensures r.maxWidth == Pick(p.maxWidth, c.maxWidth)
    ensures r.maxHeight == Pick(p.maxHeight, c.maxHeight)
    ensures r.userPresenceAction == Pick(p.userPresenceAction, c.userPresenceAction)
    ensures r.fadeEdges == Pick(p.fadeEdges, c.fadeEdges)
    ensures r.extra.Keys == c.extra.Keys + p.extra.Keys
    ensures forall k :: k in p.extra ==> r.extra[k] == p.extra[k]
    ensures forall k :: k in c.extra && k !in p.extra ==> r.extra[k] == c.extra[k]
  {
    Config(
      Pick(p.source, c.source),
      Pick(p.updateInterval, c.updateInterval),
      Pick(p.slideInterval, c.slideInterval),
      Pick(p.maximumEntries, c.maximumEntries),
      Pick(p.orientation, c.orientation),
      Pick(p.caption, c.caption),
      Pick(p.crossfade, c.crossfade),
      Pick(p.maxWidth, c.maxWidth),
      Pick(p.maxHeight, c.maxHeight),
      Pick(p.userPresenceAction, c.userPresenceAction),
      Pick(p.fadeEdges, c.fadeEdges),
      c.extra + p.extra)
  }

  /** The payload that carries no keys. */
  function EmptyPatch(): ConfigPatch
  {
    ConfigPatch(None, None, None, None, None, None, None, None, None, None, None, map[])
  }

  /** Merging an empty object changes nothing; merging the same object twice
      is merging it once. */
  lemma MergeLaws(c: Config, p: ConfigPatch)
    ensures Merge(c, EmptyPatch()) == c
    ensures Merge(Merge(c, p), p) == Merge(c, p)
  {
    assert c.extra + map[] == c.extra;
    assert (c.extra + p.extra) + p.extra == c.extra + p.extra;
  }

  /** Decimal digits of `n`, the property name `Object.assign` uses for
      index `n` of a string. */
  function DecimalString(n: nat): (s: string)
    ensures |s| > 0
    ensures forall i :: 0 <= i < |s| ==> '0' <= s[i] <= '9'
  {
    var d := ['0' + (n % 10) as char];
    if n < 10 then d else DecimalString(n / 10) + d
  }

  /** Different indices have different property names. */
  lemma {:induction false} DecimalStringInjective(a: nat, b: nat)
    requires DecimalString(a) == DecimalString(b)
    ensures a == b
  {
    var da, db := DecimalString(a), DecimalString(b);
    if a >= 10 && b >= 10 {
      assert da[..|da| - 1] == DecimalString(a / 10);
      assert db[..|db| - 1] == DecimalString(b / 10);
      DecimalStringInjective(a / 10, b / 10);
      assert da[|da| - 1] == db[|db| - 1];
    } else if a < 10 && b < 10 {
      assert da[0] == db[0];
    }
  }

  /** The property names of the indices below `n`. */
  ghost function IndexNames(n: nat): set<string>
  {
    set i | 0 <= i < n :: DecimalString(i)
  }

  lemma IndexNamesStep(n: nat)
    ensures IndexNames(n + 1) == IndexNames(n) + {DecimalString(n)}
  {
    forall k | k in IndexNames(n + 1)
      ensures k in IndexNames(n) + {DecimalString(n)}
    {
      var i :| 0 <= i < n + 1 && k == DecimalString(i);
      if i < n {
        assert k in IndexNames(n);
      }
    }
  }

  /** The name of index `n` is not among those of the indices below it. */
  lemma NewIndexName(n: nat)
    ensures DecimalString(n) !in IndexNames(n)
  {
    forall i | 0 <= i < n
      ensures DecimalString(i) != DecimalString(n)
    {
      if DecimalString(i) == DecimalString(n) {
        DecimalStringInjective(i, n);
      }
    }
  }

  /** `n` indices have `n` distinct names. */
  lemma {:induction false} IndexNamesSize(n: nat)
    ensures |IndexNames(n)| == n
  {
    if n > 0 {
      IndexNamesSize(n - 1);
      IndexNamesStep(n - 1);
      NewIndexName(n - 1);
    } else {
      assert IndexNames(0) == {};
    }
  }

  /** The own properties of a string wrapped as an object: index `i` (in
      decimal) maps to the i-th character, and there are no others. */
  function CharKeys(s: string): (m: map<string, string>)
    ensures m.Keys == IndexNames(|s|)
    ensures forall i :: 0 <= i < |s| ==> m[DecimalString(i)] == [s[i]]
  {
    if s == [] then map[]
    else
      var t := s[..|s| - 1];
      var m := CharKeys(t);
      var n := |s| - 1;
      NewIndexName(n);
      IndexNamesStep(n);
      m[DecimalString(n) := [s[n]]]
  }

  /** A string of length `n` has exactly `n` index properties. */
  lemma CharKeysSize(s: string)
    ensures |CharKeys(s)| == |s|
  {
    IndexNamesSize(|s|);
    assert |CharKeys(s)| == |CharKeys(s).Keys|;
  }

  lemma CharKeysFirst(s: string)
    requires |s| > 0
    ensures "0" in CharKeys(s) && CharKeys(s)["0"] == [s[0]]
  {
    if |s| == 1 {
      assert DecimalString(0) == "0";
    } else {
      var t := s[..|s| - 1];
      assert CharKeys(s) == CharKeys(t)[DecimalString(|s| - 1) := [s[|s| - 1]]];
      CharKeysFirst(t);
      assert t[0] == s[0];
      assert DecimalString(|s| - 1) != "0" by {
        DecimalOfPositive(|s| - 1);
      }
    }
  }

  lemma DecimalOfPositive(n: nat)
    requires n > 0
    ensures DecimalString(n) != "0"
  {
    if n >= 10 {
      assert |DecimalString(n)| > 1;
    }
  }

  /** The handling of UPDATE_WALLPAPER_CONFIG's payload as written at
      MMM-Wallpaper.js:110-114. A `String` object is stored as the source
      as it is, still an object. `payload instanceof String` holds only of
      such an object, so a primitive string goes to `Object.assign`, which
      copies its characters under the keys "0", "1", ... and leaves the
      source alone. */
  function ApplyUpdateAsWritten(c: Config, payload: ConfigPayload): (r: Config)
    ensures payload.StringObject? ==> r == c.(source := Boxed(payload.text))
    ensures payload.PrimitiveString? ==> r.(extra := c.extra) == c && r.extra.Keys == c.extra.Keys + CharKeys(payload.text).Keys
    ensures payload.Options? ==> r == Merge(c, payload.patch)
  {
    match payload
    case StringObject(s) => c.(source := Boxed(s))
    case PrimitiveString(s) => c.(extra := c.extra + CharKeys(s))
    case Options(p) => Merge(c, p)
  }

  /** As written, the string "bing" sent as a primitive does not select the
      "bing" source; it adds the option "0" with value "b". */
  lemma PrimitiveStringIgnoredAsWritten(c: Config)
    requires c.source != Single("bing")
    ensures ApplyUpdateAsWritten(c, PrimitiveString("bing")).source == c.source
    ensures ApplyUpdateAsWritten(c, PrimitiveString("bing")).source != Single("bing")
    ensures var r := ApplyUpdateAsWritten(c, PrimitiveString("bing"));
      "0" in r.extra && r.extra["0"] == "b"
  {
    CharKeysFirst("bing");
  }

  /** As written, a string payload in either form fails to select its
      source: after a `String` object no batch is accepted until a later
      object payload carrying `source` replaces it, and after a primitive
      string a batch from that source is accepted only if the old source
      already accepted it. */
  lemma StringUpdateFailsAsWritten(c: Config, s: string, vp: Viewport, b: Batch)
    ensures !Accepts(ApplyUpdateAsWritten(c, StringObject(s)), vp, b)
    ensures Accepts(ApplyUpdateAsWritten(c, PrimitiveString(s)), vp, b) <==> Accepts(c, vp, b)
    ensures var boxed := ApplyUpdateAsWritten(c, StringObject(s));
      var restored := ApplyUpdateAsWritten(boxed, Options(EmptyPatch().(source := Some(Single(s)))));
      Accepts(restored, vp, b) <==> b.source == s && b.orientation == Orientation(c.orientation, vp)
  {
  }

  /** The update as intended: a string payload, in either representation,
      replaces the source and nothing else; an object payload is merged key
      by key. */
  function ApplyUpdate(c: Config, payload: ConfigPayload): (r: Config)
    ensures (payload.StringObject? || payload.PrimitiveString?) ==>
      r == c.(source := Single(payload.text))
    ensures payload.Options? ==> r == Merge(c, payload.patch)
  {
    match payload
    case StringObject(s) => c.(source := Single(s))
    case PrimitiveString(s) => c.(source := Single(s))
    case Options(p) => Merge(c, p)
  }

  /** A string payload selects exactly that source for the next fetches: a
      batch from that source, in the current orientation, is then accepted,
      and a batch from any other source is not. */
  lemma StringUpdateSelectsSource(c: Config, s: string, vp: Viewport, b: Batch)
    requires b.orientation == Orientation(c.orientation, vp)
    ensures Accepts(ApplyUpdate(c, PrimitiveString(s)), vp, b) <==> b.source == s
    ensures Accepts(ApplyUpdate(c, StringObject(s)), vp, b) <==> b.source == s
  {
  }

  /** The configuration copy that a fetch request carries
      (MMM-Wallpaper.js:146-152): the current configuration with its
      orientation resolved against the viewport. */
  function Snapshot(c: Config, vp: Viewport): (r: Config)
    ensures r.orientation != Auto
    ensures c.orientation != Auto ==> r == c
    ensures r.(orientation := c.orientation) == c
  {
    c.(orientation := Orientation(c.orientation, vp))
  }

  /** Resolving a snapshot again changes nothing, whatever the viewport is
      by then. */
  lemma SnapshotStable(c: Config, vp: Viewport, vp': Viewport)
    ensures Snapshot(Snapshot(c, vp), vp') == Snapshot(c, vp)
  {
  }

  /** A backend that answers a fetch request with the orientation it was
      sent and one of its sources produces a batch the module accepts, as
      long as neither the configuration nor the orientation of the viewport
      has changed meanwhile. */
  lemma AnswerToFetchIsAccepted(c: Config, vp: Viewport, vp': Viewport, b: Batch)
    requires b.orientation == Snapshot(c, vp).orientation
    requires SourceMatches(Snapshot(c, vp).source, b.source)
    requires Orientation(c.orientation, vp') == Orientation(c.orientation, vp)
    ensures Accepts(c, vp', b)
  {
  }
}
