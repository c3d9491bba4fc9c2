/**
 The capture state of a camera object and its event-loop timers, and what each slot does to it.
 The environment decides whether a device or file opens, and which timer identifiers it hands out.
 */
module CaptureState {

  const NO_TIMER := -1
  const DEFAULT_FPS := 25

  datatype Size = Size(width: int, height: int)

  /** `timers` holds the live timers of the object, with their intervals in milliseconds. */
  datatype Camera = Camera(
    fps: int, timerID: int, capturing: bool, captureStarted: bool, deviceOpen: bool,
    resolution: Size, timers: map<int, int>)

  const INITIAL := Camera(DEFAULT_FPS, NO_TIMER, false, false, false, Size(640, 480), map[])

  datatype FileOutcome = NotReadable | NotOpened | FileOpened

  /** `first` and `second` name the timers handed out, in order; a call may use none of them. */
  datatype Call =
    | StartCamera(available: bool, first: int, second: int)
    | StartFile(outcome: FileOutcome, first: int)
    | Stop
    | Pause
    | Resume(first: int)
    | ResetFps(newFps: int, first: int)
    | SetResolution(resolution: Size)

  /** Timer identifiers are positive, and never those of live timers. */
  predicate IsFresh(c: Camera, id: int) {
    id > 0 && id !in c.timers
  }

  function StartTimer(c: Camera, id: int): Camera
    requires c.fps != 0
  {
    c.(timerID := id, timers := c.timers[id := 1000 / c.fps])
  }

  function KillTimer(c: Camera): Camera {
    c.(timers := c.timers - {c.timerID})
  }

  function Paused(c: Camera): Camera {
    if c.timerID == NO_TIMER then c else KillTimer(c).(capturing := false)
  }

  function Resumed(c: Camera, id: int): Camera
    requires c.fps != 0
  {
    StartTimer(c, id).(capturing := true)
  }

  predicate IsValidFps(fps: int) {
    1 <= fps <= 50
  }

  function WithFps(c: Camera, newFps: int, id: int): Camera {
    var d := c.(fps := if IsValidFps(newFps) then newFps else DEFAULT_FPS);
    if d.capturing then StartTimer(KillTimer(d), id) else d
  }

  function WithResolution(c: Camera, resolution: Size): Camera {
    Paused(c.(resolution := resolution))
  }

  /** Opening a device resets the frame rate and the resolution, the latter by way of a pause. */
  function DeviceOpened(c: Camera, id: int): Camera {
    WithResolution(WithFps(c.(deviceOpen := true), DEFAULT_FPS, id), c.resolution).(captureStarted := true)
  }

  function NothingOpened(c: Camera): Camera {
    c.(deviceOpen := false, captureStarted := false)
  }

  predicate Enabled(c: Camera, call: Call) {
    match call
    case StartCamera(_, first, second) =>
      IsFresh(c, first) && IsFresh(DeviceOpened(c, first), second)
    case StartFile(_, first) => IsFresh(c, first)
    case Resume(first) => IsFresh(c, first)
    case ResetFps(_, first) => IsFresh(c, first)
    case _ => true
  }

  function Stopped(c: Camera): Camera {
    KillTimer(c).(deviceOpen := false, capturing := false, captureStarted := false)
  }

  function Apply(c: Camera, call: Call): (d: Camera)
    requires c.fps != 0
    ensures d.fps != 0
  {
    match call
    case StartCamera(available, first, second) =>
      if available then Resumed(DeviceOpened(c, first), second) else NothingOpened(c)
    case StartFile(outcome, first) => (
      match outcome
      case NotReadable => c
      case NotOpened => NothingOpened(c)
      case FileOpened => Resumed(c.(deviceOpen := true, captureStarted := true), first)
    )
    case Stop => Stopped(c)
    case Pause => Paused(c)
    case Resume(first) => Resumed(c, first)
    case ResetFps(newFps, first) => WithFps(c, newFps, first)
    case SetResolution(resolution) => WithResolution(c, resolution)
  }
}
