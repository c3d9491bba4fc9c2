/** Points, rectangles and pictures of the cropping widget, and what each event does to its state. */
module CropGeometry {

  datatype Point = Point(x: int, y: int)

  function Plus(p: Point, q: Point): Point {
    Point(p.x + q.x, p.y + q.y)
  }

  function Minus(p: Point, q: Point): Point {
    Point(p.x - q.x, p.y - q.y)
  }

  datatype Rect = Rect(topLeft: Point, width: nat, height: nat)

  /** Both edges belong to a rectangle. */
  predicate Contains(r: Rect, p: Point) {
    && r.topLeft.x <= p.x < r.topLeft.x + r.width
    && r.topLeft.y <= p.y < r.topLeft.y + r.height
  }

  /** A picture is a photo, with the outlines that have been painted on it. */
  datatype Picture =
    | Photo(id: int, photoWidth: nat, photoHeight: nat)
    | Outlined(under: Picture, rect: Rect)
  {
    function Width(): nat {
      match this
      case Photo(_, width, _) => width
      case Outlined(under, _) => under.Width()
    }

    function Height(): nat {
      match this
      case Photo(_, _, height) => height
      case Outlined(under, _) => under.Height()
    }
  }

  /** Painting on an empty picture has no effect. */
  function DrawOutline(picture: Picture, rect: Rect): Picture {
    if picture.Width() == 0 || picture.Height() == 0 then picture else Outlined(picture, rect)
  }

  /** The widget: picture shown, clean original, crop outline, where the picture is, drag state. */
  datatype Area = Area(
    shown: Picture, original: Picture, outline: Rect, origin: Point, grab: Point, lastPos: Point)

  const NOT_DRAGGING := Point(-1, -1)
  const WHITE := Photo(0, 640, 480)
  const INITIAL := Area(WHITE, WHITE, Rect(Point(0, 0), 480, 640), Point(0, 0), Point(0, 0), NOT_DRAGGING)

  /** The crop rectangle in picture coordinates: what saving copies, and where the outline is drawn. */
  function Crop(a: Area): Rect {
    a.outline.(topLeft := Minus(a.outline.topLeft, a.origin))
  }

  function ClampAxis(wanted: int, low: int, high: int): int {
    var raised := if wanted < low then low else wanted;
    if raised > high then high else raised
  }

  function Clamp(a: Area, wanted: Point): Point {
    Point(
      ClampAxis(wanted.x, a.origin.x, a.origin.x + a.original.Width() - a.outline.width),
      ClampAxis(wanted.y, a.origin.y, a.origin.y + a.original.Height() - a.outline.height))
  }

  function MoveOutline(a: Area, wanted: Point): Area {
    var moved := a.(outline := a.outline.(topLeft := Clamp(a, wanted)));
    moved.(shown := DrawOutline(a.original, Crop(moved)))
  }

  datatype Event =
    | SetImage(picture: Picture)
    | Resize(center: Point)
    | Press(left: bool, cursor: Point, pos: Point)
    | MouseMove(leftHeld: bool, cursor: Point, pos: Point)
    | Release(left: bool)
    | LeftKey | RightKey | UpKey | DownKey
    | Save

  predicate Dragging(a: Area) {
    a.lastPos != NOT_DRAGGING
  }

  function OriginFor(center: Point, picture: Picture): Point {
    Point(center.x - picture.Width() / 2, center.y - picture.Height() / 2)
  }

  function Apply(a: Area, event: Event): Area {
    var at := a.outline.topLeft;
    match event
    case SetImage(picture) => a.(original := picture, shown := DrawOutline(picture, Crop(a)))
    case Resize(center) =>
      var origin := OriginFor(center, a.original);
      a.(origin := origin, outline := a.outline.(topLeft := Plus(origin, Minus(at, a.origin))))
    case Press(left, cursor, pos) =>
      if !left then a
      else a.(grab := Minus(cursor, at), lastPos := if Contains(a.outline, cursor) then pos else a.lastPos)
    case MouseMove(leftHeld, cursor, pos) =>
      if leftHeld && Dragging(a) then MoveOutline(a, Minus(cursor, a.grab)).(lastPos := pos) else a
    case Release(left) => if left then a.(lastPos := NOT_DRAGGING) else a
    case LeftKey => MoveOutline(a, Minus(at, Point(5, at.y)))
    case RightKey => MoveOutline(a, Plus(at, Point(5, at.y)))
    case UpKey => MoveOutline(a, Minus(at, Point(at.x, 5)))
    case DownKey => MoveOutline(a, Plus(at, Point(at.x, 5)))
    case Save => a
  }

  function Run(a: Area, events: seq<Event>): Area
    decreases |events|
  {
    if events == [] then a else Run(Apply(a, events[0]), events[1..])
  }
}
