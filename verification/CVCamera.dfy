/**
 The camera object with the fields its slots update. Each slot's contract gives the new state, and
 what that means for the object's timers when it was called in a consistent state.
 */
module CVCamera {
  import opened CaptureProperties
  import opened CaptureState

  class CVCamera {
    var capturing: bool
    var captureStarted: bool
    var pCapture: bool
    var fps: int
    var timerID: int
    var resolution: Size
    /** The event loop's timers of this object. */
    var timers: map<int, int>

    ghost function View(): Camera
      reads this
    {
      Camera(fps, timerID, capturing, captureStarted, pCapture, resolution, timers)
    }

    constructor ()
      ensures View() == INITIAL
    {
      capturing, captureStarted, pCapture := false, false, false;
      fps, timerID := 25, -1;
      resolution := Size(640, 480);
      timers := map[];
    }

    /** The event loop starts a timer and calls it `id`. */
    method StartTimer(interval: int, id: int) returns (started: int)
      modifies this`timers
      ensures started == id && timers == old(timers)[id := interval]
    {
      timers := timers[id := interval];
      return id;
    }

    /** The event loop drops a timer; a number that is no live timer is ignored. */
    method KillTimer(id: int)
      modifies this`timers
      ensures timers == old(timers) - {id}
    {
      timers := timers - {id};
    }

    method StartCameraCapture(available: bool, first: int, second: int) returns (ok: bool)
      requires fps != 0
      modifies this
      ensures View() == Apply(old(View()), StartCamera(available, first, second)) && ok == available
      ensures Consistent(old(View())) && Enabled(old(View()), StartCamera(available, first, second)) ==>
        && Consistent(View())
        && (ok ==> capturing && pCapture && captureStarted && resolution == old(resolution))
        && (ok ==> timers == (old(timers) - {old(timerID)})[second := 40] && timerID == second && fps == 25)
        && (!ok ==> timers == old(timers) && capturing == old(capturing) && !pCapture && !captureStarted)
      ensures !ok ==> fps == old(fps) && timerID == old(timerID) && resolution == old(resolution)
    {
      ghost var before := View();
      ghost var call := StartCamera(available, first, second);
      if Consistent(before) && Enabled(before, call) {
        CallKeepsConsistent(before, call);
        if available {
          TimersOfStart(before, available, first, second);
        }
      }
      ok := OpenCam(available, first);
      if ok {
        timerID := StartTimer(1000 / fps, second);
        capturing := true;
      }
    }

    method StartFileCapture(outcome: FileOutcome, first: int) returns (ok: bool)
      requires fps != 0
      modifies this`timers, this`timerID, this`capturing, this`pCapture, this`captureStarted
      ensures View() == Apply(old(View()), StartFile(outcome, first)) && ok == outcome.FileOpened?
      ensures Consistent(old(View())) && Enabled(old(View()), StartFile(outcome, first)) ==>
        && Consistent(View())
        && (ok ==> capturing && pCapture && timers == old(timers)[first := 1000 / fps])
        && (!ok ==> timers == old(timers) && capturing == old(capturing))
      ensures if ok then timerID == first && captureStarted else timerID == old(timerID)
    {
      ghost var before := View();
      if Consistent(before) && Enabled(before, StartFile(outcome, first)) {
        CallKeepsConsistent(before, StartFile(outcome, first));
      }
      ok := OpenFile(outcome);
      if ok {
        timerID := StartTimer(1000 / fps, first);
        capturing := true;
      }
    }

    method StopCapture() returns (ok: bool)
      modifies this`timers, this`pCapture, this`capturing, this`captureStarted
      ensures View() == Stopped(old(View())) && ok
      ensures !capturing && !pCapture && !captureStarted
      ensures Consistent(old(View())) ==>
        && Consistent(View()) && !capturing && !pCapture
        && timers == old(timers) - {old(timerID)}
        && (HasItsTimersOnly(old(View())) ==> timers == map[])
        && (TicksOnDevice(View()) <==> timers == map[])
    {
      ghost var before := View();
      if Consistent(before) {
        CallKeepsConsistent(before, Stop);
        OnlyTimerGone(before);
      }
      KillTimer(timerID);
      pCapture := false;
      capturing := false;
      captureStarted := false;
      return true;
    }

    method PauseCapture() returns (ok: bool)
      modifies this`timers, this`capturing
      ensures View() == Paused(old(View())) && ok
      ensures Consistent(old(View())) ==>
        && Consistent(View()) && !capturing
        && timers == old(timers) - {old(timerID)}
        && (HasItsTimersOnly(old(View())) ==> timers == map[])
    {
      ghost var before := View();
      if Consistent(before) {
        CallKeepsConsistent(before, Pause);
        OnlyTimerGone(before);
      }
      if timerID != -1 {
        KillTimer(timerID);
        capturing := false;
      }
      return true;
    }

    method ResumeCapture(first: int) returns (ok: bool)
      requires fps != 0
      modifies this`timers, this`timerID, this`capturing
      ensures View() == Apply(old(View()), Resume(first)) && ok
      ensures timers == old(timers)[first := 1000 / fps] && timerID == first
      ensures Consistent(old(View())) && Enabled(old(View()), Resume(first)) ==>
        && Consistent(View()) && capturing
        && |timers| == |old(timers)| + 1
        && (HasItsTimersOnly(old(View())) ==> (HasItsTimersOnly(View()) <==> !old(capturing)))
        && (TicksOnDevice(View()) <==> pCapture)
    {
      ghost var before := View();
      if Consistent(before) && Enabled(before, Resume(first)) {
        CallKeepsConsistent(before, Resume(first));
        ResumingAddsTimer(before, first);
      }
      timerID := StartTimer(1000 / fps, first);
      capturing := true;
      return true;
    }

    method ResetFPS(newFPS: int, first: int) returns (ok: bool)
      modifies this`fps, this`timers, this`timerID
      ensures View() == WithFps(old(View()), newFPS, first) && ok
      ensures fps == (if 1 <= newFPS <= 50 then newFPS else 25)
      ensures Consistent(old(View())) && Enabled(old(View()), ResetFps(newFPS, first)) ==>
        && Consistent(View()) && capturing == old(capturing) && |timers| == |old(timers)|
        && (if capturing
            then timerID == first && timers == (old(timers) - {old(timerID)})[first := 1000 / fps]
            else timerID == old(timerID) && timers == old(timers))
        && (HasItsTimersOnly(old(View())) ==> HasItsTimersOnly(View()))
    {
      ghost var before := View();
      if Consistent(before) && Enabled(before, ResetFps(newFPS, first)) {
        CallKeepsConsistent(before, ResetFps(newFPS, first));
        WithFpsCounts(before, newFPS, first);
        if HasItsTimersOnly(before) {
          RateKeepsOwnTimer(before, newFPS, first);
        }
      }
      var accepted := newFPS;
      if newFPS < 1 || newFPS > 50 {
        accepted := 25;
      }
      fps := accepted;
      if capturing {
        KillTimer(timerID);
        timerID := StartTimer(1000 / fps, first);
      }
      return true;
    }

    method SetResolution(size: Size)
      modifies this`resolution, this`timers, this`capturing
      ensures View() == WithResolution(old(View()), size)
      ensures resolution == size
      ensures Consistent(old(View())) ==>
        Consistent(View()) && !capturing && timers == old(timers) - {old(timerID)}
    {
      resolution := size;
      var _ := PauseCapture();
    }

    method OpenCam(available: bool, first: int) returns (ok: bool)
      modifies this
      ensures View() == (if available then DeviceOpened(old(View()), first) else NothingOpened(old(View())))
      ensures ok == available
      ensures Consistent(old(View())) && IsFresh(old(View()), first) ==>
        && Consistent(View()) && pCapture == ok
        && (ok ==> !capturing && fps == 25 && timers == old(timers) - {old(timerID)})
        && (!ok ==> timers == old(timers) && capturing == old(capturing) && fps == old(fps))
      ensures captureStarted == ok && pCapture == ok && resolution == old(resolution)
    {
      ghost var before := View();
      if Consistent(before) && IsFresh(before, first) {
        OpeningPauses(before, first);
      }
      pCapture := available;
      if !pCapture {
        captureStarted := false;
        return false;
      }
      var _ := ResetFPS(25, first);
      SetResolution(resolution);
      captureStarted := true;
      return true;
    }

    /** Opening a file touches nothing but the device; a file that is not there, not even that. */
    method OpenFile(outcome: FileOutcome) returns (ok: bool)
      modifies this`pCapture, this`captureStarted
      ensures ok ==> pCapture && captureStarted
      ensures !ok ==> outcome == NotReadable || (!pCapture && !captureStarted)
      ensures outcome == NotReadable ==> !ok && View() == old(View())
      ensures outcome == NotOpened ==> !ok
      ensures outcome == FileOpened ==> ok
      ensures Consistent(old(View())) ==> Consistent(View())
      ensures TicksOnDevice(old(View())) ==>
        (TicksOnDevice(View()) <==> outcome != NotOpened || timers == map[])
    {
      if outcome.NotReadable? {
        return false;
      }
      pCapture := outcome.FileOpened?;
      captureStarted := pCapture;
      return pCapture;
    }
  }
}
