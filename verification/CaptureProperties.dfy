/** What every run of the camera's slots keeps: its timers are counted, and tick at a sane rate. */
module CaptureProperties {
  import opened CaptureState

  /**
   Kept by every call: the object is capturing exactly while the timer it remembers is live, that
   timer ticks at the current frame rate, and every live timer's interval is within 20..1000 ms.
   */
  predicate Consistent(c: Camera) {
    && IsValidFps(c.fps)
    && (c.capturing <==> c.timerID in c.timers)
    && (c.timerID == NO_TIMER || c.timerID > 0)
    && (c.capturing ==> c.timers[c.timerID] == 1000 / c.fps)
    && forall id | id in c.timers :: id > 0 && 20 <= c.timers[id] <= 1000
  }

  lemma IntervalInRange(fps: int)
    requires IsValidFps(fps)
    ensures 20 <= 1000 / fps <= 1000
  {
  }

  lemma StartingKeepsConsistent(c: Camera, id: int)
    requires IsValidFps(c.fps) && IsFresh(c, id)
    requires forall i | i in c.timers :: i > 0 && 20 <= c.timers[i] <= 1000
    ensures Consistent(Resumed(c, id))
  {
  }

  lemma CallKeepsConsistent(c: Camera, call: Call)
    requires Consistent(c) && Enabled(c, call)
    ensures Consistent(Apply(c, call))
  {
    match call
    case StartCamera(available, first, second) =>
      IntervalInRange(DEFAULT_FPS);
      if available {
        StartingKeepsConsistent(DeviceOpened(c, first), second);
      }
    case StartFile(_, first) =>
      StartingKeepsConsistent(c.(deviceOpen := true, captureStarted := true), first);
    case Resume(first) =>
      StartingKeepsConsistent(c, first);
    case ResetFps(newFps, first) =>
      IntervalInRange(Apply(c, call).fps);
    case _ =>
  }

  // ----- counting timers -----

  /** Live timers beyond the one that capturing needs: nobody remembers how to stop these. */
  function Surplus(c: Camera): int {
    |c.timers| - (if c.capturing then 1 else 0)
  }

  /** The call starts a timer without stopping the one that is ticking. */
  predicate Leaks(c: Camera, call: Call) {
    c.capturing && (call.Resume? || (call.StartFile? && call.outcome.FileOpened?))
  }

  lemma KillCounts(c: Camera)
    ensures |KillTimer(c).timers| == |c.timers| - (if c.timerID in c.timers then 1 else 0)
  {
  }

  lemma StartCounts(c: Camera, id: int)
    requires c.fps != 0 && IsFresh(c, id)
    ensures |StartTimer(c, id).timers| == |c.timers| + 1
  {
  }

  lemma WithFpsCounts(c: Camera, newFps: int, id: int)
    requires Consistent(c) && IsFresh(c, id)
    ensures |WithFps(c, newFps, id).timers| == |c.timers|
  {
  }

  lemma DeviceOpenedCounts(c: Camera, id: int)
    requires Consistent(c) && IsFresh(c, id)
    ensures |DeviceOpened(c, id).timers| == Surplus(c)
  {
  }

  /** Every call but the leaking ones keeps the number of surplus timers; those add exactly one. */
  lemma CallCountsTimers(c: Camera, call: Call)
    requires Consistent(c) && Enabled(c, call)
    ensures Surplus(Apply(c, call)) == Surplus(c) + (if Leaks(c, call) then 1 else 0)
  {
    match call
    case StartCamera(available, first, second) =>
      if available {
        DeviceOpenedCounts(c, first);
        StartCounts(DeviceOpened(c, first), second);
      }
    case StartFile(_, first) =>
      StartCounts(c.(deviceOpen := true, captureStarted := true), first);
    case Resume(first) =>
      StartCounts(c, first);
    case ResetFps(newFps, first) =>
      WithFpsCounts(c, newFps, first);
    case _ =>
      KillCounts(c);
  }

  // ----- runs -----

  predicate Possible(c: Camera, calls: seq<Call>)
    requires c.fps != 0
    decreases |calls|
  {
    calls == [] || (Enabled(c, calls[0]) && Possible(Apply(c, calls[0]), calls[1..]))
  }

  function Run(c: Camera, calls: seq<Call>): Camera
    requires c.fps != 0 && Possible(c, calls)
    decreases |calls|
  {
    if calls == [] then c else Run(Apply(c, calls[0]), calls[1..])
  }

  function LeakCount(c: Camera, calls: seq<Call>): nat
    requires c.fps != 0 && Possible(c, calls)
    decreases |calls|
  {
    if calls == [] then 0
    else (if Leaks(c, calls[0]) then 1 else 0) + LeakCount(Apply(c, calls[0]), calls[1..])
  }

  lemma {:induction false} RunCountsTimers(c: Camera, calls: seq<Call>)
    requires Consistent(c) && Possible(c, calls)
    ensures Consistent(Run(c, calls))
    ensures Surplus(Run(c, calls)) == Surplus(c) + LeakCount(c, calls)
    decreases |calls|
  {
    if calls != [] {
      CallKeepsConsistent(c, calls[0]);
      CallCountsTimers(c, calls[0]);
      RunCountsTimers(Apply(c, calls[0]), calls[1..]);
    }
  }

  /** The timers are those that capturing needs: the remembered one, or none. */
  predicate HasItsTimersOnly(c: Camera) {
    c.timers.Keys == if c.capturing then {c.timerID} else {}
  }

  /**
   In every run of a new camera object: its live timers are the remembered one while it captures and
   none otherwise, if and only if no call resumed or opened a file in the midst of capturing.
   Whatever the calls, the frame rate and all timer intervals stay in their ranges.
   */
  lemma TimersAreItsOwnIffNoneLeaked(calls: seq<Call>)
    requires Possible(INITIAL, calls)
    ensures var c := Run(INITIAL, calls);
      && Consistent(c)
      && (HasItsTimersOnly(c) <==> LeakCount(INITIAL, calls) == 0)
  {
    var c := Run(INITIAL, calls);
    RunCountsTimers(INITIAL, calls);
    if c.capturing {
      var others := c.timers.Keys - {c.timerID};
      assert |others| == Surplus(c);
      assert others == {} <==> c.timers.Keys == {c.timerID};
    }
    assert |c.timers.Keys| == |c.timers|;
  }

  // ----- what the calls do to the timers -----

  lemma OnlyTimerGone(c: Camera)
    requires Consistent(c)
    ensures c.timerID == NO_TIMER ==> c.timers - {c.timerID} == c.timers
    ensures HasItsTimersOnly(c) ==> c.timers - {c.timerID} == map[]
  {
    if HasItsTimersOnly(c) {
      assert (c.timers - {c.timerID}).Keys == {};
    }
  }

  /** Opening a device leaves a pause behind it, and the default rate. */
  lemma OpeningPauses(c: Camera, first: int)
    requires Consistent(c) && IsFresh(c, first)
    ensures var d := DeviceOpened(c, first);
      Consistent(d) && !d.capturing && d.fps == 25 && d.timers == c.timers - {c.timerID}
    ensures Consistent(NothingOpened(c))
  {
    IntervalInRange(DEFAULT_FPS);
    OnlyTimerGone(c);
    var d := DeviceOpened(c, first);
    assert d.timers == c.timers - {c.timerID};
  }

  lemma TimersOfStart(c: Camera, available: bool, first: int, second: int)
    requires Consistent(c) && Enabled(c, StartCamera(available, first, second)) && available
    ensures Apply(c, StartCamera(available, first, second)).timers == (c.timers - {c.timerID})[second := 40]
  {
    OpeningPauses(c, first);
  }

  lemma ResumingAddsTimer(c: Camera, id: int)
    requires Consistent(c) && IsFresh(c, id)
    ensures var d := Resumed(c, id);
      && |d.timers| == |c.timers| + 1
      && (HasItsTimersOnly(c) ==> (HasItsTimersOnly(d) <==> !c.capturing))
  {
    var d := Resumed(c, id);
    StartCounts(c, id);
    assert d.timers.Keys == c.timers.Keys + {id};
    if c.capturing {
      assert c.timerID in d.timers && c.timerID != id;
    }
  }

  lemma RateKeepsOwnTimer(c: Camera, newFps: int, id: int)
    requires Consistent(c) && IsFresh(c, id) && HasItsTimersOnly(c)
    ensures HasItsTimersOnly(WithFps(c, newFps, id))
  {
    OnlyTimerGone(c);
  }

  // ----- ticking without a device -----

  /** While any timer of the object is live, there is a device to take frames from. */
  predicate TicksOnDevice(c: Camera) {
    c.timers != map[] ==> c.deviceOpen
  }

  /** The call tries to open something and fails. */
  predicate FailsToOpen(call: Call) {
    || (call.StartCamera? && !call.available)
    || (call.StartFile? && call.outcome.NotOpened?)
  }

  /** The call leaves a timer ticking without a device: it can be told before the call. */
  predicate LosesDevice(c: Camera, call: Call) {
    || (FailsToOpen(call) && c.timers != map[])
    || (call.Resume? && !c.deviceOpen)
    || (call.Stop? && c.timers.Keys - {c.timerID} != {})
  }

  /**
   A timer is left ticking without a device in three ways only: by failing to open while one ticks,
   by resuming without a device, and by stopping when there are timers that stopping does not know of.
   */
  lemma TicksOnDeviceKeptIff(c: Camera, call: Call)
    requires Consistent(c) && TicksOnDevice(c) && Enabled(c, call)
    ensures TicksOnDevice(Apply(c, call)) <==> !LosesDevice(c, call)
  {
    if call.Stop? {
      assert Apply(c, call).timers.Keys == c.timers.Keys - {c.timerID};
    } else if (call.StartCamera? && call.available) || (call.StartFile? && call.outcome.FileOpened?) {
      assert Apply(c, call).deviceOpen;
    } else if call.Resume? {
      assert call.first in Apply(c, call).timers;
    }
  }

  predicate TicksOnDeviceThroughout(c: Camera, calls: seq<Call>)
    requires c.fps != 0 && Possible(c, calls)
    decreases |calls|
  {
    TicksOnDevice(c) && (calls == [] || TicksOnDeviceThroughout(Apply(c, calls[0]), calls[1..]))
  }

  predicate NeverLosesDevice(c: Camera, calls: seq<Call>)
    requires c.fps != 0 && Possible(c, calls)
    decreases |calls|
  {
    calls == [] || (!LosesDevice(c, calls[0]) && NeverLosesDevice(Apply(c, calls[0]), calls[1..]))
  }

  /** Over every run: at each point all live timers have a device, iff no call took it from them. */
  lemma {:induction false} TicksThroughoutIffNeverLost(c: Camera, calls: seq<Call>)
    requires Consistent(c) && TicksOnDevice(c) && Possible(c, calls)
    ensures TicksOnDeviceThroughout(c, calls) <==> NeverLosesDevice(c, calls)
    decreases |calls|
  {
    if calls != [] {
      var d := Apply(c, calls[0]);
      CallKeepsConsistent(c, calls[0]);
      TicksOnDeviceKeptIff(c, calls[0]);
      if LosesDevice(c, calls[0]) {
        assert !TicksOnDeviceThroughout(d, calls[1..]);
      } else {
        TicksThroughoutIffNeverLost(d, calls[1..]);
      }
    }
  }

  /** A leaked timer outlives the stop: it goes on ticking, and there is no device. */
  lemma LeakedTimerOutlivesStop()
    ensures var calls := [StartCamera(true, 1, 2), Resume(3), Stop];
      && Possible(INITIAL, calls)
      && Run(INITIAL, calls).timers == map[2 := 40]
      && !Run(INITIAL, calls).deviceOpen && !Run(INITIAL, calls).capturing
  {
    var a := Apply(INITIAL, StartCamera(true, 1, 2));
    assert DeviceOpened(INITIAL, 1).timers == map[];
    assert a.timers == map[2 := 40] && a.timerID == 2 && a.fps == 25;
    var b := Apply(a, Resume(3));
    assert b.timers == map[2 := 40, 3 := 40] && b.timerID == 3;
    var c := Apply(b, Stop);
    assert c.timers == map[2 := 40];
    OneCall(b, Stop, []);
    OneCall(a, Resume(3), [Stop]);
    OneCall(INITIAL, StartCamera(true, 1, 2), [Resume(3), Stop]);
  }

  lemma OneCall(c: Camera, call: Call, later: seq<Call>)
    requires c.fps != 0 && Enabled(c, call) && Possible(Apply(c, call), later)
    ensures Possible(c, [call] + later)
    ensures Run(c, [call] + later) == Run(Apply(c, call), later)
  {
    assert ([call] + later)[1..] == later;
  }
}
