/**
 * Values shared by every part of the image grid visual: the view-model data
 * point, the resolved settings, the viewport, and the children and nodes that
 * the circle-pack layouts hand to the packing library.
 */
module Types {

  datatype Option<+T> = None | Some(value: T)

  /** A host selection identity; the visual only ever compares its `key`. */
  datatype SelectionId = SelectionId(key: string)

  /** One row of the view model: a nullable value, two image URLs, an identity. */
  datatype DataPoint = DataPoint(
    value: Option<real>,
    imageURL: string,
    imageURLHQ: string,
    selectionId: SelectionId)

  /** The per-update settings, after defaults have been applied. */
  datatype Settings = Settings(
    maximumColumns: nat,
    minimumHQWidth: real,
    renderType: string,
    topListWeight: real)

  datatype Viewport = Viewport(width: real, height: real)

  /** An axis-aligned rectangle, as the `x`, `y`, `width`, `height` attributes of an image. */
  datatype Rect = Rect(x: real, y: real, width: real, height: real)

  /** One child handed to the packing library: its weight and what it draws. */
  datatype PackChild = PackChild(
    value: real,
    imageURLLQ: string,
    imageURLHQ: string,
    selectionId: SelectionId)

  /**
   * A node returned by the packing library: the enclosing pack circle itself
   * (which carries no selection id) or one of the children.
   */
  datatype PackNode = Container | Leaf(child: PackChild)

  /** The geometry the packing library assigns to a node. */
  datatype Circle = Circle(x: real, y: real, r: real)
}
