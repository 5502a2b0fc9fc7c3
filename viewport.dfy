/** The orientation query of the module: the configured orientation, or the
    one derived from the viewport when the configuration says "auto". */
module ViewportQuery {
  import opened WallpaperTypes

  /** `getOrientation` (MMM-Wallpaper.js:154-163), with the viewport that
      `getViewport` reads passed in. */
  function Orientation(setting: string, vp: Viewport): (o: string)
    ensures setting != Auto ==> o == setting
    ensures setting == Auto ==> (o == Vertical <==> vp.width < vp.height)
    ensures setting == Auto ==> (o == Horizontal <==> vp.height <= vp.width)
  {
    if setting == Auto then
      if vp.width < vp.height then Vertical else Horizontal
    else
      setting
  }

  /** The orientation a fetch request carries is never "auto". */
  lemma ResolvedIsNotAuto(setting: string, vp: Viewport)
    ensures Orientation(setting, vp) != Auto
  {
  }

  /** Turning a non-square display by a quarter flips the derived
      orientation; a square display is horizontal. */
  lemma RotationFlips(vp: Viewport)
    ensures vp.width != vp.height ==>
      Orientation(Auto, Viewport(vp.height, vp.width)) != Orientation(Auto, vp)
    ensures vp.width == vp.height ==> Orientation(Auto, vp) == Horizontal
  {
  }
}
