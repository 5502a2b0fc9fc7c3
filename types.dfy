/** The values the wallpaper module works on: image entries and their
    resolution variants, the viewport, batches delivered by the fetching
    backend, and the module configuration with the partial configurations
    that update it. */
module WallpaperTypes {

  datatype Option<+T> = None | Some(value: T)

  /** One alternate rendition of an image. */
  datatype Variant = Variant(width: int, height: int, url: string)

  /** An entry of a batch. An entry without a `variants` key is modelled with
      `variants == []`; both make the resolver return `url`. A missing caption
      is the empty string: the module only tests the caption for truthiness. */
  datatype Image = Image(url: string, caption: string, variants: seq<Variant>)

  /** Dimensions of the display area, read by the module from the window. */
  datatype Viewport = Viewport(width: int, height: int)

  /** `config.source`: a single source name, an array of them, or a source
      name held as a `String` object (which is neither an array nor `===` to
      any primitive string). */
  datatype Source = Single(name: string) | Many(names: seq<string>) | Boxed(text: string)

  /** `config.userPresenceAction`; any value other than "show" and "hide"
      behaves as "none". */
  datatype PresenceAction = NoAction | ShowOnPresence | HideOnPresence

  const Auto: string := "auto"
  const Vertical: string := "vertical"
  const Horizontal: string := "horizontal"

  /** `Number.MAX_SAFE_INTEGER`, the default for `maxWidth` and `maxHeight`. */
  const MaxSafeInteger: int := 9007199254740991

  /** The recognised options of the module configuration. Options that the
      core only hands on (filter, size, nsfw, shuffle, API keys, ...) are kept
      by name in `extra`, with opaque string values. */
  datatype Config = Config(
    source: Source,
    updateInterval: int,
    slideInterval: int,
    maximumEntries: int,
    orientation: string,
    caption: bool,
    crossfade: bool,
    maxWidth: int,
    maxHeight: int,
    userPresenceAction: PresenceAction,
    fadeEdges: bool,
    extra: map<string, string>)

  /** An object payload of a configuration update: the keys it carries. */
  datatype ConfigPatch = ConfigPatch(
    source: Option<Source>,
    updateInterval: Option<int>,
    slideInterval: Option<int>,
    maximumEntries: Option<int>,
    orientation: Option<string>,
    caption: Option<bool>,
    crossfade: Option<bool>,
    maxWidth: Option<int>,
    maxHeight: Option<int>,
    userPresenceAction: Option<PresenceAction>,
    fadeEdges: Option<bool>,
    extra: map<string, string>)

  /** The payload of an UPDATE_WALLPAPER_CONFIG notification: a `String`
      object, a primitive string, or an object of options. */
  datatype ConfigPayload =
    | StringObject(text: string)
    | PrimitiveString(text: string)
    | Options(patch: ConfigPatch)

  /** The payload of a WALLPAPERS socket notification. An entry may be JSON
      `null`. */
  datatype Batch = Batch(source: string, orientation: string, images: seq<Option<Image>>)
}
