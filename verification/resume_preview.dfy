/** The live preview: a zoom level stepped by ten between 30 and 100 percent, and the
    choice of the template component that renders the résumé. */
module ResumePreview {

  const InitialZoom := 60
  const MinZoom := 30
  const MaxZoom := 100
  const ZoomStep := 10

  /** Every level reachable from the initial one. */
  predicate ZoomOk(z: int)
  {
    MinZoom <= z <= MaxZoom && z % ZoomStep == 0
  }

  /** `Math.min(prev + 10, 100)` */
  function ZoomedIn(z: int): int
  {
    if z + ZoomStep < MaxZoom then z + ZoomStep else MaxZoom
  }

  /** `Math.max(prev - 10, 30)` */
  function ZoomedOut(z: int): int
  {
    if z - ZoomStep > MinZoom then z - ZoomStep else MinZoom
  }

  /** The level after a sequence of clicks, `true` for zoom-in and `false` for zoom-out. */
  function AfterClicks(z: int, clicks: seq<bool>): int
    decreases |clicks|
  {
    if clicks == [] then z
    else AfterClicks(if clicks[0] then ZoomedIn(z) else ZoomedOut(z), clicks[1..])
  }

  /** Both steps keep the level a multiple of ten between 30 and 100. */
  lemma StepsKeepZoomOk(z: int)
    requires ZoomOk(z)
    ensures ZoomOk(ZoomedIn(z)) && ZoomOk(ZoomedOut(z))
    ensures ZoomedIn(z) >= z && ZoomedOut(z) <= z
  {
  }

  /** Whatever the user clicks, starting from 60, the level stays a multiple of ten
      between 30 and 100. */
  lemma {:induction false} ClicksKeepZoomOk(z: int, clicks: seq<bool>)
    requires ZoomOk(z)
    ensures ZoomOk(AfterClicks(z, clicks))
    decreases |clicks|
  {
    if clicks != [] {
      StepsKeepZoomOk(z);
      ClicksKeepZoomOk(if clicks[0] then ZoomedIn(z) else ZoomedOut(z), clicks[1..]);
    }
  }

  /** A button is disabled exactly when its click would not change the level: zoom-out at 30
      and zoom-in at 100. Away from the bounds, zooming in and back out returns to the same
      level, and so does zooming out and back in. */
  lemma ButtonsAndRoundTrips(z: int)
    requires ZoomOk(z)
    ensures ZoomedOut(z) == z <==> z <= MinZoom
    ensures ZoomedIn(z) == z <==> z >= MaxZoom
    ensures z < MaxZoom ==> ZoomedOut(ZoomedIn(z)) == z
    ensures z > MinZoom ==> ZoomedIn(ZoomedOut(z)) == z
  {
  }

  /** The zoom state of the preview. */
  class Zoom {
    var zoomLevel: int

    predicate Valid()
      reads this
    {
      ZoomOk(zoomLevel)
    }

    constructor()
      ensures zoomLevel == InitialZoom && Valid()
    {
      zoomLevel := InitialZoom;
    }

    /** `disabled={zoomLevel <= 30}` */
    predicate ZoomOutDisabled()
      reads this
    {
      zoomLevel <= MinZoom
    }

    /** `disabled={zoomLevel >= 100}` */
    predicate ZoomInDisabled()
      reads this
    {
      zoomLevel >= MaxZoom
    }

    /** `handleZoomIn` */
    method HandleZoomIn()
      requires Valid()
      modifies this
      ensures zoomLevel == ZoomedIn(old(zoomLevel)) && Valid()
      ensures old(ZoomInDisabled()) <==> zoomLevel == old(zoomLevel)
    {
      StepsKeepZoomOk(zoomLevel);
      zoomLevel := if zoomLevel + 10 < 100 then zoomLevel + 10 else 100;
    }

    /** `handleZoomOut` */
    method HandleZoomOut()
      requires Valid()
      modifies this
      ensures zoomLevel == ZoomedOut(old(zoomLevel)) && Valid()
      ensures old(ZoomOutDisabled()) <==> zoomLevel == old(zoomLevel)
    {
      StepsKeepZoomOk(zoomLevel);
      zoomLevel := if zoomLevel - 10 > 30 then zoomLevel - 10 else 30;
    }
  }

  /** The template components. */
  datatype TemplateView = Modern | Classic | CreativeView | Minimal | Elegant | AtsFriendly | Infographic | BlackWhiteMinimal

  /** `renderTemplate`: the seven named templates, and Modern for anything else. */
  function RenderTemplate(selected: string): (r: TemplateView)
    ensures r == Modern <==> selected !in {"classic", "creative", "minimal", "elegant", "ats", "infographic", "bwminimal"}
  {
    match selected
    case "classic" => Classic
    case "creative" => CreativeView
    case "minimal" => Minimal
    case "elegant" => Elegant
    case "ats" => AtsFriendly
    case "infographic" => Infographic
    case "bwminimal" => BlackWhiteMinimal
    case _ => Modern
  }

  /** The name each view is selected by; the Modern view is also the fallback. */
  function TemplateName(v: TemplateView): string
  {
    match v
    case Modern => "modern"
    case Classic => "classic"
    case CreativeView => "creative"
    case Minimal => "minimal"
    case Elegant => "elegant"
    case AtsFriendly => "ats"
    case Infographic => "infographic"
    case BlackWhiteMinimal => "bwminimal"
  }

  /** Every view is rendered for its own name, so the eight options of the template
      selector, "modern" included, each show a different view. */
  lemma {:induction false} RenderTemplateRoundTrip(v: TemplateView)
    ensures RenderTemplate(TemplateName(v)) == v
  {
    match v
    case Modern =>
      assert "modern" != "classic" && "modern" != "creative" && "modern" != "minimal" && "modern" != "elegant";
      assert "modern" != "ats" && "modern" != "infographic" && "modern" != "bwminimal";
    case _ =>
  }
}
