/**
 * The minimap's zoom in src/main.js: a closure variable `minimapZoom`,
 * starting at 200, that the zoom buttons move by 30 within [50, 500];
 * after each change the orthographic camera's extents are set to
 * `-zoom`, `zoom`, `zoom`, `-zoom`.
 */
module Minimap {

  const InitialZoom := 200
  const MinZoom := 50
  const MaxZoom := 500
  const ZoomStep := 30

  function Max(a: int, b: int): int { if a < b then b else a }
  function Min(a: int, b: int): int { if a < b then a else b }

  /** `Math.max(MIN_ZOOM, zoom - 30)`. */
  function ZoomedIn(zoom: int): int {
    Max(MinZoom, zoom - ZoomStep)
  }

  /** `Math.min(MAX_ZOOM, zoom + 30)`. */
  function ZoomedOut(zoom: int): int {
    Min(MaxZoom, zoom + ZoomStep)
  }

  /**
   * The zoom levels the buttons can reach from 200: the bounds 50 and 500
   * are themselves 200 plus a multiple of 30, so clamping never leaves
   * this grid.
   */
  predicate OnGrid(zoom: int) {
    MinZoom <= zoom <= MaxZoom && zoom % ZoomStep == InitialZoom % ZoomStep
  }

  /** Both steps keep the zoom on the grid. */
  lemma StepsKeepGrid(zoom: int)
    requires OnGrid(zoom)
    ensures OnGrid(ZoomedIn(zoom)) && OnGrid(ZoomedOut(zoom))
  {
  }

  /** Each step moves by exactly 30 unless the zoom is already at that bound. */
  lemma StepsMoveBy30(zoom: int)
    requires OnGrid(zoom)
    ensures zoom == MinZoom <==> ZoomedIn(zoom) == zoom
    ensures zoom != MinZoom ==> ZoomedIn(zoom) == zoom - ZoomStep
    ensures zoom == MaxZoom <==> ZoomedOut(zoom) == zoom
    ensures zoom != MaxZoom ==> ZoomedOut(zoom) == zoom + ZoomStep
  {
  }

  /** Zooming in and back out (or out and back in) returns to the same level, away from the bounds. */
  lemma ZoomRoundTrip(zoom: int)
    requires OnGrid(zoom)
    ensures zoom != MinZoom ==> ZoomedOut(ZoomedIn(zoom)) == zoom
    ensures zoom != MaxZoom ==> ZoomedIn(ZoomedOut(zoom)) == zoom
  {
  }

  /** Zooming in `k` times. */
  function ZoomedInTimes(zoom: int, k: nat): int {
    if k == 0 then zoom else ZoomedIn(ZoomedInTimes(zoom, k - 1))
  }

  /** `k` zoom-ins take 30 off `k` times, floored at 50: from 200, the fifth reaches 50. */
  lemma {:induction false} ZoomInReachesMin(zoom: int, k: nat)
    requires OnGrid(zoom)
    ensures OnGrid(ZoomedInTimes(zoom, k))
    ensures ZoomedInTimes(zoom, k) == Max(MinZoom, zoom - ZoomStep * k)
  {
    if k > 0 {
      ZoomInReachesMin(zoom, k - 1);
      StepsKeepGrid(ZoomedInTimes(zoom, k - 1));
    }
  }

  class MinimapZoom {
    var zoom: int
    var cameraLeft: int
    var cameraRight: int
    var cameraTop: int
    var cameraBottom: int

    /** The zoom is on the grid and the camera's extents follow it. */
    predicate Valid()
      reads this
    {
      && OnGrid(zoom)
      && cameraLeft == -zoom && cameraRight == zoom
      && cameraTop == zoom && cameraBottom == -zoom
    }

    constructor ()
      ensures Valid() && zoom == InitialZoom
    {
      zoom := InitialZoom;
      cameraLeft, cameraRight, cameraTop, cameraBottom := -InitialZoom, InitialZoom, InitialZoom, -InitialZoom;
    }

    /** `updateMinimapCamera`. */
    method UpdateCamera()
      modifies this
      ensures zoom == old(zoom)
      ensures cameraLeft == -zoom && cameraRight == zoom && cameraTop == zoom && cameraBottom == -zoom
    {
      cameraLeft := -zoom;
      cameraRight := zoom;
      cameraTop := zoom;
      cameraBottom := -zoom;
    }

    /** `minimapZoomIn`. */
    method ZoomIn()
      requires Valid()
      modifies this
      ensures Valid()
      ensures zoom == ZoomedIn(old(zoom))
    {
      StepsKeepGrid(zoom);
      zoom := Max(MinZoom, zoom - ZoomStep);
      UpdateCamera();
    }

    /** `minimapZoomOut`. */
    method ZoomOut()
      requires Valid()
      modifies this
      ensures Valid()
      ensures zoom == ZoomedOut(old(zoom))
    {
      StepsKeepGrid(zoom);
      zoom := Min(MaxZoom, zoom + ZoomStep);
      UpdateCamera();
    }
  }
}
