/**
 * The drowsiness monitor as the program runs it: the module globals and the
 * `DrowsinessApp` attributes of dd.py become the fields of one object, and
 * `update_gui`, `start_detection`, `stop_detection`, `play_alert_sound` and
 * `handle_audio_events` become methods that update them step by step. Each
 * method is proved to agree with its counterpart in module Session, where
 * the properties of the monitor are proved.
 */
module Monitor {
  import opened Wrappers
  import opened Eye
  import opened Debounce
  import opened ActiveTime
  import opened TimerText
  import opened Alerts
  import opened Session

  class MonitorSession {
    var sleepCount: nat
    var drowsyCount: nat
    var activeCount: nat
    var status: Status
    var activeTimerStart: real
    var totalActiveTime: real
    var running: bool
    /** Whether `alarm_channel` holds a channel. */
    var alarmChannel: bool
    /** `current_alert_status`; None until the attribute is first set. */
    var currentAlertStatus: Option<Status>
    /** Sound-end events the mixer has queued and nobody has read yet. */
    var pendingEnds: nat
    /** What was sent to the alarm channel, oldest first. */
    ghost var audio: seq<AudioCmd>
    /** What the speech engine said, oldest first. */
    ghost var spoken: seq<string>

    ghost function State(): MonitorState
      reads this
    {
      MonitorState(Counters(sleepCount, drowsyCount, activeCount), status,
        Clock(activeTimerStart, totalActiveTime), running, alarmChannel,
        currentAlertStatus, pendingEnds, audio, spoken)
    }

    /** The state at program load; `now` is the load time the clock starts from. */
    constructor (now: real)
      ensures State() == Initial(now)
      ensures Inv(State())
    {
      sleepCount, drowsyCount, activeCount := 0, 0, 0;
      status := Active;
      activeTimerStart, totalActiveTime := now, 0.0;
      running := false;
      alarmChannel := false;
      currentAlertStatus := None;
      pendingEnds := 0;
      audio, spoken := [], [];
    }

    /** `start_detection`. */
    method Start()
      requires Inv(State())
      modifies this
      ensures State() == Apply(old(State()), StartPressed)
      ensures Inv(State())
    {
      running := true;
      ApplyInv(old(State()), StartPressed);
    }

    /** `stop_detection`: stop processing and silence the alarm channel. */
    method Stop()
      requires Inv(State())
      modifies this
      ensures State() == Apply(old(State()), StopPressed)
      ensures Inv(State())
    {
      ghost var before := State();
      running := false;
      StopAlarmChannel();
      assert State() == StopChannel(before.(running := false));
      ApplyInv(before, StopPressed);
    }

    /** The mixer posts the end event of the alarm sound. */
    method SoundEnded()
      requires Inv(State())
      modifies this
      ensures State() == Apply(old(State()), Event.SoundEnded)
      ensures Inv(State())
    {
      pendingEnds := pendingEnds + 1;
      ApplyInv(old(State()), Event.SoundEnded);
    }

    /**
     * `handle_audio_events`: drain the event queue, scheduling one speech
     * callback per sound-end event when an alert status has been recorded.
     */
    method HandleAudioEvents() returns (scheduled: nat)
      modifies this
      ensures State() == old(State()).(pendingEnds := 0)
      ensures scheduled == if currentAlertStatus.Some? then old(pendingEnds) else 0
    {
      var events := pendingEnds;
      pendingEnds := 0;
      scheduled := 0;
      var i := 0;
      while i < events
        invariant i <= events
        invariant scheduled == if currentAlertStatus.Some? then i else 0
      {
        if currentAlertStatus.Some? {
          scheduled := scheduled + 1;
        }
        i := i + 1;
      }
    }

    /** The scheduled callbacks run, each calling `speak_alert(current_alert_status)`. */
    method RunScheduledSpeech(scheduled: nat)
      modifies this
      ensures State() == old(State()).(spoken := old(spoken) + Speech(currentAlertStatus, scheduled))
    {
      var j := 0;
      while j < scheduled
        invariant j <= scheduled
        invariant State() == old(State()).(spoken := old(spoken) + Speech(currentAlertStatus, j))
      {
        match Phrase(currentAlertStatus) {
          case Some(p) => spoken := spoken + [p];
          case None =>
        }
        j := j + 1;
      }
    }

    /** `play_alert_sound`: take a free channel, if any, and play the sound on it. */
    method PlayAlertSound(snd: Sound, alert: Status, channelFound: bool)
      modifies this
      ensures State() == PlayAlert(old(State()), snd, alert, channelFound)
    {
      alarmChannel := channelFound;
      if channelFound {
        audio := audio + [Play(snd)];
        currentAlertStatus := Some(alert);
      }
    }

    /**
     * The debounce block of `update_gui` for one face: advance the counter of
     * the frame's category, reset the other two, and propose that category's
     * status once its counter reaches FRAME_THRESH.
     */
    method CountFrame(left: EyeState, right: EyeState) returns (newStatus: Status)
      modifies this
      ensures var d := Observe(Debouncer(old(State()).counters, status), Combine(left, right));
        State() == old(State()).(counters := d.counters) && newStatus == d.status
    {
      newStatus := status;
      if left == Closed && right == Closed {
        sleepCount := sleepCount + 1;
        drowsyCount, activeCount := 0, 0;
        if sleepCount >= FrameThresh {
          newStatus := Sleeping;
        }
      } else if left == Half || right == Half {
        drowsyCount := drowsyCount + 1;
        sleepCount, activeCount := 0, 0;
        if drowsyCount >= FrameThresh {
          newStatus := Drowsy;
        }
      } else {
        activeCount := activeCount + 1;
        sleepCount, drowsyCount := 0, 0;
        if activeCount >= FrameThresh {
          newStatus := Active;
        }
      }
    }

    /** Bank the ACTIVE segment when leaving ACTIVE, open one when entering it. */
    method SettleClock(newStatus: Status, now: real)
      modifies this
      ensures State() == old(State()).(clock := Settle(old(State()).clock, status, newStatus, now))
    {
      if status == Active {
        totalActiveTime := totalActiveTime + (now - activeTimerStart);
      }
      if newStatus == Active {
        activeTimerStart := now;
      }
    }

    /** `if alarm_channel: alarm_channel.stop()`. */
    method StopAlarmChannel()
      modifies this
      ensures State() == StopChannel(old(State()))
    {
      if alarmChannel {
        audio := audio + [StopAlarm];
      }
    }

    /**
     * The transition block of `update_gui`: bank or restart the active
     * clock, stop the held channel, start the new status's sound, and only
     * then commit the status.
     */
    method CommitTransition(newStatus: Status, now: real, channelFound: bool)
      modifies this
      ensures State() == Transition(old(State()), newStatus, now, channelFound)
    {
      if newStatus != status {
        SettleClock(newStatus, now);
        StopAlarmChannel();
        if newStatus == Sleeping {
          PlayAlertSound(SleepSound, Sleeping, channelFound);
        } else if newStatus == Drowsy {
          PlayAlertSound(DrowsySound, Drowsy, channelFound);
        }
        status := newStatus;
      }
    }

    /**
     * One `update_gui` call with the frame the camera delivered, the time it
     * reads and whether the mixer finds a free channel, followed by the
     * speech callbacks it scheduled. Returns the status and timer text shown.
     */
    method Tick(frame: Frame, now: real, channelFound: bool) returns (shown: Option<Readout>)
      requires ValidFrame(frame) && Inv(State())
      modifies this
      ensures State() == Update(old(State()), frame, now, channelFound)
      ensures shown == Display(old(State()), frame, now, channelFound)
      ensures Inv(State())
    {
      ApplyInv(State(), FrameTick(frame, now, channelFound));
      shown := None;
      if running {
        var scheduled := HandleAudioEvents();
        if frame.Face? {
          var left := Blinked(frame.left.up, frame.left.down);
          var right := Blinked(frame.right.up, frame.right.down);
          var newStatus := CountFrame(left, right);
          CommitTransition(newStatus, now, channelFound);
        }
        if !frame.ReadFailed? {
          var elapsed := Elapsed(Clock(activeTimerStart, totalActiveTime), status, now);
          shown := Some(Readout(status, FormatTimer(elapsed)));
        }
        RunScheduledSpeech(scheduled);
      }
    }
  }
}
