/**
 * The visual object: on every update it rebuilds its view model, hides itself
 * when there is nothing to show, and otherwise draws the layout the render
 * type names.
 */
module VisualState {
  import opened Types
  import Adapter
  import Grid
  import PackLayout
  import Emphasis

  /** What the visual last handed to the renderer. */
  datatype Frame =
    | Blank
    | GridFrame(layout: Grid.Layout, svgWidth: real, opacity: seq<real>)
    | PackFrame(children: seq<PackChild>, svgWidth: real, svgHeight: real,
                packWidth: real, packHeight: real, threshold: real, active: seq<SelectionId>)

  /**
   * How a circle frame draws a node the packing library returns for its
   * children: with the frame's resolution threshold and active selections.
   */
  function DrawPackedNode(f: Frame, node: PackNode, c: Circle): PackLayout.Drawn
    requires f.PackFrame?
  {
    PackLayout.DrawNode(node, c, f.threshold, f.active)
  }

  /** The circle frame of `children`: the svg is 10 shorter than the viewport, the packer gets the whole viewport. */
  function PackFrameOf(children: seq<PackChild>, s: Settings, viewport: Viewport, active: seq<SelectionId>): Frame
  {
    PackFrame(children, viewport.width, viewport.height - 10.0, viewport.width, viewport.height, s.minimumHQWidth, active)
  }

  /**
   * A child circle of a drawn pack frame shows its high-resolution image exactly
   * when its diameter is above the configured threshold, and is emphasised by
   * the active selection the frame was drawn with.
   */
  lemma PackedLeafDrawing(children: seq<PackChild>, s: Settings, viewport: Viewport, active: seq<SelectionId>,
                          child: PackChild, c: Circle)
    requires child.imageURLLQ != child.imageURLHQ
    ensures var d := DrawPackedNode(PackFrameOf(children, s, viewport, active), Leaf(child), c);
      && (d.href == Some(child.imageURLHQ) <==> c.r * 2.0 > s.minimumHQWidth)
      && d.opacity == Emphasis.SelectionOpacity(child.selectionId, active)
  {
  }

  /** The step `update` takes for a view model. */
  datatype Action = Hide | DrawGrid | DrawCircle | DrawTopList | KeepFrame

  /** No points hide the visual; otherwise the render type picks a layout, and an unknown one draws nothing new. */
  function Dispatch(pointCount: nat, renderType: string): (a: Action)
    ensures a == Hide <==> pointCount == 0
    ensures pointCount > 0 ==> (a == DrawGrid <==> renderType == "GRID")
    ensures pointCount > 0 ==> (a == DrawCircle <==> renderType == "CIRCLE")
    ensures pointCount > 0 ==> (a == DrawTopList <==> renderType == "CIRCLETOPLIST")
    ensures a == KeepFrame <==> pointCount > 0 && renderType !in {"GRID", "CIRCLE", "CIRCLETOPLIST"}
  {
    if pointCount == 0 then Hide
    else if renderType == "GRID" then DrawGrid
    else if renderType == "CIRCLE" then DrawCircle
    else if renderType == "CIRCLETOPLIST" then DrawTopList
    else KeepFrame
  }

  /** The opacity of every grid cell under the active selection. */
  function GridOpacities(cells: seq<Grid.Cell>, active: seq<SelectionId>): (opacity: seq<real>)
    ensures |opacity| == |cells|
    ensures forall i :: 0 <= i < |cells| ==> opacity[i] == Emphasis.SelectionOpacity(cells[i].selectionId, active)
  {
    seq(|cells|, i requires 0 <= i < |cells| => Emphasis.SelectionOpacity(cells[i].selectionId, active))
  }

  /** The grid frame of `points` for the given settings and viewport. */
  function GridFrameOf(points: seq<DataPoint>, s: Settings, viewport: Viewport, active: seq<SelectionId>): Frame
    requires s.maximumColumns >= 1
  {
    var layout := Grid.GridModel(points, viewport.width, viewport.height, s.maximumColumns, s.minimumHQWidth);
    GridFrame(layout, viewport.width, GridOpacities(layout.cells, active))
  }

  /** The settings a data view must carry for the grid layout to be defined. */
  predicate ColumnsConfigured(dataView: Option<Adapter.DataView>)
  {
    dataView.Some? && dataView.value.settings.renderType == "GRID" ==> dataView.value.settings.maximumColumns >= 1
  }

  class Visual {
    var settings: Option<Settings>
    var dataPoints: seq<DataPoint>
    var currentGridImageWidth: real
    var visible: bool
    var frame: Frame

    constructor ()
      ensures settings == None && dataPoints == [] && currentGridImageWidth == 0.0
      ensures visible && frame == Blank
    {
      settings := None;
      dataPoints := [];
      currentGridImageWidth := 0.0;
      visible := true;
      frame := Blank;
    }

    /** The grid layout of the current points, remembering its cell side for hovering. */
    method UpdateGridLayout(viewport: Viewport, active: seq<SelectionId>)
      requires settings.Some? && settings.value.maximumColumns >= 1
      modifies this
      ensures settings == old(settings) && dataPoints == old(dataPoints) && visible == old(visible)
      ensures frame == GridFrameOf(dataPoints, settings.value, viewport, active)
      ensures currentGridImageWidth == frame.layout.imgWidth
    {
      var s := settings.value;
      var layout := Grid.LayoutGrid(dataPoints, viewport.width, viewport.height, s.maximumColumns, s.minimumHQWidth);
      currentGridImageWidth := layout.imgWidth;
      frame := GridFrame(layout, viewport.width, GridOpacities(layout.cells, active));
    }

    /** The weighted circle layout of the current points, up to the packing library. */
    method UpdatePackedLayout(viewport: Viewport, active: seq<SelectionId>)
      requires settings.Some?
      modifies this
      ensures settings == old(settings) && dataPoints == old(dataPoints) && visible == old(visible)
      ensures frame == PackFrameOf(PackLayout.ProportionalChildren(dataPoints), settings.value, viewport, active)
      ensures currentGridImageWidth == old(currentGridImageWidth)
    {
      var children := PackLayout.BuildProportionalChildren(dataPoints);
      var s := settings.value;
      frame := PackFrame(children, viewport.width, viewport.height - 10.0,
                         viewport.width, viewport.height, s.minimumHQWidth, active);
    }

    /** The top-list circle layout of the current points, up to the packing library. */
    method UpdatePackedLayoutTopList(viewport: Viewport, active: seq<SelectionId>)
      requires settings.Some?
      modifies this
      ensures settings == old(settings) && dataPoints == old(dataPoints) && visible == old(visible)
      ensures frame == PackFrameOf(PackLayout.TopListChildren(dataPoints, settings.value.topListWeight),
                                   settings.value, viewport, active)
      ensures currentGridImageWidth == old(currentGridImageWidth)
    {
      var s := settings.value;
      var children := PackLayout.BuildTopListChildren(dataPoints, s.topListWeight);
      frame := PackFrame(children, viewport.width, viewport.height - 10.0,
                         viewport.width, viewport.height, s.minimumHQWidth, active);
    }

    /** One update: rebuild the view model, then hide, draw a layout, or keep the previous drawing. */
    method Update(dataView: Option<Adapter.DataView>, viewport: Viewport, active: seq<SelectionId>)
      requires dataView.Some? ==> Adapter.WellFormed(dataView.value)
      requires ColumnsConfigured(dataView)
      modifies this
      ensures settings == Adapter.Transform(dataView).settings
      ensures dataPoints == Adapter.Transform(dataView).dataPoints
      ensures visible <==> |dataPoints| > 0
      ensures |dataPoints| > 0 ==> settings.Some?
      ensures |dataPoints| == 0 ==> frame == old(frame) && currentGridImageWidth == old(currentGridImageWidth)
      ensures |dataPoints| > 0 && settings.Some? ==>
        var s := settings.value;
        match Dispatch(|dataPoints|, s.renderType)
        case DrawGrid =>
          s.maximumColumns >= 1 && frame == GridFrameOf(dataPoints, s, viewport, active)
          && currentGridImageWidth == frame.layout.imgWidth
        case DrawCircle =>
          frame == PackFrameOf(PackLayout.ProportionalChildren(dataPoints), s, viewport, active)
          && currentGridImageWidth == old(currentGridImageWidth)
        case DrawTopList =>
          frame == PackFrameOf(PackLayout.TopListChildren(dataPoints, s.topListWeight), s, viewport, active)
          && currentGridImageWidth == old(currentGridImageWidth)
        case _ =>
          frame == old(frame) && currentGridImageWidth == old(currentGridImageWidth)
    {
      var viewModel := Adapter.VisualTransform(dataView);
      Adapter.TransformPoints(dataView);
      settings := viewModel.settings;
      dataPoints := viewModel.dataPoints;
      if |dataPoints| == 0 {
        visible := false;
        return;
      }
      visible := true;
      var renderType := settings.value.renderType;
      if renderType == "GRID" {
        UpdateGridLayout(viewport, active);
      } else if renderType == "CIRCLE" {
        UpdatePackedLayout(viewport, active);
      } else if renderType == "CIRCLETOPLIST" {
        UpdatePackedLayoutTopList(viewport, active);
      }
    }
  }
}
