/**
 * The monitoring session of dd.py as a state machine over values: one
 * `update_gui` tick, the Start and Stop buttons, and the mixer's sound-end
 * event. The class in module Monitor performs the same steps in place and is
 * proved to agree with these functions.
 */
module Session {
  import opened Wrappers
  import opened Eye
  import opened Debounce
  import opened ActiveTime
  import opened TimerText
  import opened Alerts

  /** The landmark distances of one eye: lid height `up`, corner width `down`. */
  datatype EyeGeometry = EyeGeometry(up: real, down: real)

  /** One camera read: failed, no face found, or the first face's two eyes. */
  datatype Frame = ReadFailed | NoFace | Face(left: EyeGeometry, right: EyeGeometry)

  /** Distances from a norm are never negative. */
  predicate ValidFrame(f: Frame)
  {
    f.Face? ==> 0.0 <= f.left.up && 0.0 <= f.left.down && 0.0 <= f.right.up && 0.0 <= f.right.down
  }

  /**
   * What drives the session: a GUI tick with its camera frame, the time it
   * reads and whether the mixer finds a free channel; the Start and Stop
   * buttons; and the end of an alarm sound, posted by the mixer.
   */
  datatype Event =
    | FrameTick(frame: Frame, now: real, channelFound: bool)
    | StartPressed
    | StopPressed
    | SoundEnded

  predicate ValidEvent(e: Event)
  {
    e.FrameTick? ==> ValidFrame(e.frame)
  }

  predicate ValidEvents(es: seq<Event>)
  {
    forall i :: 0 <= i < |es| ==> ValidEvent(es[i])
  }

  /**
   * The module globals and app attributes the core reads and writes:
   * run counters, status, clock, `running`, whether `alarm_channel` holds a
   * channel, `current_alert_status`, the mixer's queued end events, and
   * logs of what was sent to the mixer and to the speech engine.
   */
  datatype MonitorState = MonitorState(
    counters: Counters,
    status: Status,
    clock: Clock,
    running: bool,
    alarmChannel: bool,
    alertStatus: Option<Status>,
    pendingEnds: nat,
    audio: seq<AudioCmd>,
    spoken: seq<string>)

  /** The state at program load, `now` being the load time. */
  function Initial(now: real): (r: MonitorState)
    ensures r.status == Active && r.counters == NoRuns && !r.running
    ensures Elapsed(r.clock, r.status, now) == 0.0
    ensures r.alertStatus.None? && !r.alarmChannel && r.pendingEnds == 0
  {
    MonitorState(NoRuns, Active, Clock(now, 0.0), false, false, None, 0, [], [])
  }

  function FrameCategory(f: Frame): Category
    requires f.Face? && ValidFrame(f)
  {
    Combine(Blinked(f.left.up, f.left.down), Blinked(f.right.up, f.right.down))
  }

  /** `play_alert_sound`: the channel lookup may fail, leaving no channel. */
  function PlayAlert(s: MonitorState, snd: Sound, alert: Status, found: bool): (r: MonitorState)
    ensures r.alarmChannel == found
    ensures found ==> r.alertStatus == Some(alert) && LastAlert(r.audio) == Some(SoundStatus(snd))
    ensures !found ==> r.audio == s.audio && r.alertStatus == s.alertStatus
    ensures r.counters == s.counters && r.status == s.status && r.clock == s.clock && r.spoken == s.spoken
  {
    if found then s.(alarmChannel := true, audio := s.audio + [Play(snd)], alertStatus := Some(alert))
    else s.(alarmChannel := false)
  }

  /** `if alarm_channel: alarm_channel.stop()`; the field keeps the stopped channel. */
  function StopChannel(s: MonitorState): (r: MonitorState)
    ensures !s.alarmChannel ==> r == s
    ensures s.alarmChannel ==> !EndsPlaying(r.audio)
    ensures LastAlert(r.audio) == LastAlert(s.audio)
    ensures r.alarmChannel == s.alarmChannel && r.alertStatus == s.alertStatus
  {
    if s.alarmChannel then s.(audio := s.audio + [StopAlarm]) else s
  }

  /** The transition block: clock, channel stop, new sound, then the status. */
  function Transition(s: MonitorState, newStatus: Status, now: real, found: bool): (r: MonitorState)
    ensures r.status == newStatus
    ensures newStatus == s.status ==> r == s
    ensures Elapsed(r.clock, r.status, now) == Elapsed(s.clock, s.status, now)
    ensures r.counters == s.counters && r.running == s.running && r.spoken == s.spoken
    ensures r.alertStatus != s.alertStatus ==> r.alertStatus == Some(newStatus) && newStatus != Active
  {
    if newStatus == s.status then s
    else
      var settled := StopChannel(s.(clock := Settle(s.clock, s.status, newStatus, now)));
      var alerted := match AlertSound(newStatus)
        case Some(snd) => PlayAlert(settled, snd, newStatus, found)
        case None => settled;
      alerted.(status := newStatus)
  }

  /** The debounce block followed by the transition block, for one face. */
  function Process(s: MonitorState, cat: Category, now: real, found: bool): MonitorState
  {
    var d := Observe(Debouncer(s.counters, s.status), cat);
    Transition(s.(counters := d.counters), d.status, now, found)
  }

  /**
   * One `update_gui` call and the speech callbacks it scheduled: while
   * running, the queued sound-end events are drained first (one callback
   * each, if an alert status was ever recorded), the frame is processed, and
   * the callbacks then speak for the alert status as it is after the frame.
   */
  function Update(s: MonitorState, frame: Frame, now: real, found: bool): (r: MonitorState)
    requires ValidFrame(frame)
    ensures r.running == s.running
    ensures !s.running ==> r == s
    ensures s.running ==> r.pendingEnds == 0
  {
    if !s.running then s
    else
      var scheduled := if s.alertStatus.Some? then s.pendingEnds else 0;
      var drained := s.(pendingEnds := 0);
      var processed := if frame.Face? then Process(drained, FrameCategory(frame), now, found) else drained;
      processed.(spoken := processed.spoken + Speech(processed.alertStatus, scheduled))
  }

  /** The status label and timer text a tick shows. */
  datatype Readout = Readout(status: Status, timer: string)

  function Display(s: MonitorState, frame: Frame, now: real, found: bool): (d: Option<Readout>)
    requires ValidFrame(frame)
    ensures d.Some? <==> s.running && !frame.ReadFailed?
    ensures d.Some? ==> d.value.status == Update(s, frame, now, found).status
  {
    if s.running && !frame.ReadFailed? then
      var next := Update(s, frame, now, found);
      Some(Readout(next.status, FormatTimer(Elapsed(next.clock, next.status, now))))
    else None
  }

  function Apply(s: MonitorState, e: Event): (r: MonitorState)
    requires ValidEvent(e)
    ensures !e.FrameTick? ==> r.counters == s.counters && r.status == s.status && r.clock == s.clock && r.spoken == s.spoken
    ensures e.StartPressed? ==> r.running
    ensures e.StopPressed? ==> !r.running
    ensures e.SoundEnded? ==> r.pendingEnds == s.pendingEnds + 1
  {
    match e
    case FrameTick(frame, now, found) => Update(s, frame, now, found)
    case StartPressed => s.(running := true)
    case StopPressed => StopChannel(s.(running := false))
    case SoundEnded => s.(pendingEnds := s.pendingEnds + 1)
  }

  function Run(s: MonitorState, es: seq<Event>): MonitorState
    requires ValidEvents(es)
    decreases |es|
  {
    if es == [] then s
    else Apply(Run(s, es[..|es| - 1]), es[|es| - 1])
  }

  // ----- Alert bookkeeping -----

  /** The status of the most recently started alert sound, if any. */
  function LastAlert(audio: seq<AudioCmd>): (r: Option<Status>)
    ensures r != Some(Active)
    ensures r.None? <==> forall i :: 0 <= i < |audio| ==> audio[i] == StopAlarm
    decreases |audio|
  {
    if audio == [] then None
    else match audio[|audio| - 1]
      case Play(snd) => Some(SoundStatus(snd))
      case StopAlarm => LastAlert(audio[..|audio| - 1])
  }

  /** Every alarm sound is stopped before anything else is sent to the mixer. */
  predicate NoOverlap(audio: seq<AudioCmd>)
  {
    forall i :: 0 <= i < |audio| - 1 && audio[i].Play? ==> audio[i + 1] == StopAlarm
  }

  predicate EndsPlaying(audio: seq<AudioCmd>)
  {
    |audio| > 0 && audio[|audio| - 1].Play?
  }

  /**
   * The session invariant: the run counters are exclusive, the recorded
   * alert status is that of the last sound started, sounds never overlap,
   * and a sound not yet stopped is held in `alarm_channel`.
   */
  predicate Inv(s: MonitorState)
  {
    Exclusive(s.counters)
    && s.alertStatus == LastAlert(s.audio)
    && NoOverlap(s.audio)
    && (EndsPlaying(s.audio) ==> s.alarmChannel)
  }

  lemma InitialInv(now: real)
    ensures Inv(Initial(now))
  {
  }

  lemma StopChannelInv(s: MonitorState)
    requires Inv(s)
    ensures var r := StopChannel(s);
      Inv(r) && !EndsPlaying(r.audio) && r.audio[..|s.audio|] == s.audio && |r.audio| <= |s.audio| + 1
  {
    var r := StopChannel(s);
    if s.alarmChannel {
      assert r.audio[..|r.audio| - 1] == s.audio;
    }
  }

  lemma PlayAlertInv(s: MonitorState, snd: Sound, alert: Status, found: bool)
    requires Inv(s) && !EndsPlaying(s.audio) && SoundStatus(snd) == alert
    ensures Inv(PlayAlert(s, snd, alert, found))
  {
    if found {
      var a := s.audio + [Play(snd)];
      assert a[..|a| - 1] == s.audio;
      forall i | 0 <= i < |a| - 2 && a[i].Play?
        ensures a[i + 1] == StopAlarm
      {
        assert a[i] == s.audio[i];
      }
    }
  }

  lemma TransitionInv(s: MonitorState, newStatus: Status, now: real, found: bool)
    requires Inv(s)
    ensures Inv(Transition(s, newStatus, now, found))
  {
    if newStatus != s.status {
      var settled := StopChannel(s.(clock := Settle(s.clock, s.status, newStatus, now)));
      StopChannelInv(s.(clock := Settle(s.clock, s.status, newStatus, now)));
      match AlertSound(newStatus)
      case Some(snd) => PlayAlertInv(settled, snd, newStatus, found);
      case None =>
    }
  }

  /** Every event keeps the session invariant. */
  lemma ApplyInv(s: MonitorState, e: Event)
    requires Inv(s) && ValidEvent(e)
    ensures Inv(Apply(s, e))
  {
    match e
    case FrameTick(frame, now, found) =>
      if s.running && frame.Face? {
        var drained := s.(pendingEnds := 0);
        var d := Observe(Debouncer(drained.counters, drained.status), FrameCategory(frame));
        TransitionInv(drained.(counters := d.counters), d.status, now, found);
      }
    case StartPressed =>
    case StopPressed => StopChannelInv(s.(running := false));
    case SoundEnded =>
  }

  /** Every reachable session satisfies the invariant. */
  lemma {:induction false} RunInv(now: real, es: seq<Event>)
    requires ValidEvents(es)
    ensures Inv(Run(Initial(now), es))
    decreases |es|
  {
    if es == [] {
      InitialInv(now);
    } else {
      RunInv(now, es[..|es| - 1]);
      ApplyInv(Run(Initial(now), es[..|es| - 1]), es[|es| - 1]);
    }
  }

  // ----- Properties of one tick -----

  /**
   * A tick that is not running, whose camera read failed or that finds no
   * face leaves the counters, the status, the clock and the alarm state as
   * they were.
   */
  lemma FreezeWithoutFace(s: MonitorState, frame: Frame, now: real, found: bool)
    requires ValidFrame(frame) && (!s.running || !frame.Face?)
    ensures var r := Update(s, frame, now, found);
      r.counters == s.counters && r.status == s.status && r.clock == s.clock
      && r.audio == s.audio && r.alarmChannel == s.alarmChannel && r.alertStatus == s.alertStatus
  {
  }

  /**
   * A running tick with a face advances the debouncer. Without a status
   * change nothing else moves; with one, the clock is settled, a held
   * channel is stopped and the new status's sound is started if a channel
   * is found.
   */
  lemma FaceTickEffects(s: MonitorState, frame: Frame, now: real, found: bool)
    requires s.running && frame.Face? && ValidFrame(frame)
    ensures var r := Update(s, frame, now, found);
      var d := Observe(Debouncer(s.counters, s.status), FrameCategory(frame));
      r.counters == d.counters && r.status == d.status
      && (r.status == s.status ==>
            r.clock == s.clock && r.audio == s.audio
            && r.alarmChannel == s.alarmChannel && r.alertStatus == s.alertStatus)
      && (r.status != s.status ==>
            r.clock == Settle(s.clock, s.status, r.status, now)
            && r.audio == s.audio + (if s.alarmChannel then [StopAlarm] else [])
                        + (if found && r.status != Active then [Play(AlertSound(r.status).value)] else []))
  {
  }

  /** A tick never makes the active time jump: elapsed at `now` is the same before and after. */
  lemma TickKeepsElapsed(s: MonitorState, frame: Frame, now: real, found: bool)
    requires ValidFrame(frame)
    ensures var r := Update(s, frame, now, found);
      Elapsed(r.clock, r.status, now) == Elapsed(s.clock, s.status, now)
  {
    if s.running && frame.Face? {
      FaceTickEffects(s, frame, now, found);
    }
  }

  /** With time that does not run backwards, the banked active time never decreases. */
  lemma TotalNeverDecreases(s: MonitorState, e: Event)
    requires ValidEvent(e) && (e.FrameTick? ==> s.clock.start <= e.now)
    ensures Apply(s, e).clock.total >= s.clock.total
  {
    if e.FrameTick? && s.running && e.frame.Face? {
      FaceTickEffects(s, e.frame, e.now, e.channelFound);
    }
  }

  /**
   * Stop only halts processing and the alarm sound: the status and the clock
   * are untouched, so an ACTIVE session keeps accruing time while stopped.
   */
  lemma StopKeepsClockRunning(s: MonitorState, t: real)
    ensures var r := Apply(s, StopPressed);
      !r.running && r.status == s.status && r.clock == s.clock && r.counters == s.counters
      && Elapsed(r.clock, r.status, t) == Elapsed(s.clock, s.status, t)
  {
  }

  /** The shown timer reads back as the whole seconds of active time. */
  lemma DisplayShowsElapsed(s: MonitorState, frame: Frame, now: real, found: bool)
    requires ValidFrame(frame)
    ensures var shown := Display(s, frame, now, found);
      var r := Update(s, frame, now, found);
      shown.Some? <==> s.running && !frame.ReadFailed?
    ensures var shown := Display(s, frame, now, found);
      var r := Update(s, frame, now, found);
      shown.Some? ==>
        shown.value.status == r.status
        && exists mins, secs :: ParseTimer(shown.value.timer) == Some((mins, secs))
             && 0 <= secs < 60 && mins * 60 + secs == Elapsed(r.clock, r.status, now).Floor
  {
    var shown := Display(s, frame, now, found);
    var r := Update(s, frame, now, found);
    if shown.Some? {
      var e := Elapsed(r.clock, r.status, now);
      TimerRoundTrip(e);
      var (mins, secs) := MinutesSeconds(e);
      assert ParseTimer(shown.value.timer) == Some((mins, secs));
    }
  }

  // ----- Speech -----

  /**
   * What a tick says is spoken for the most recently started alert sound,
   * read after the tick's own transition, and at most once per queued
   * sound-end event.
   */
  lemma SpeechNamesLastAlert(s: MonitorState, frame: Frame, now: real, found: bool)
    requires Inv(s) && ValidFrame(frame)
    ensures var r := Update(s, frame, now, found);
      |s.spoken| <= |r.spoken| <= |s.spoken| + s.pendingEnds
      && r.spoken[..|s.spoken|] == s.spoken
      && forall i :: |s.spoken| <= i < |r.spoken| ==> Phrase(LastAlert(r.audio)) == Some(r.spoken[i])
    ensures var r := Update(s, frame, now, found);
      |r.spoken| == |s.spoken| + (if s.running && s.alertStatus.Some? then s.pendingEnds else 0)
      && r.pendingEnds == (if s.running then 0 else s.pendingEnds)
  {
    var r := Update(s, frame, now, found);
    ApplyInv(s, FrameTick(frame, now, found));
    if s.running {
      var drained := s.(pendingEnds := 0);
      var processed := if frame.Face? then Process(drained, FrameCategory(frame), now, found) else drained;
      assert r.spoken == s.spoken + Speech(processed.alertStatus, if s.alertStatus.Some? then s.pendingEnds else 0);
    }
  }

  /**
   * Entering ACTIVE does not cancel a pending spoken alert: the sound-end
   * events queued before the tick still speak the phrase of the alert that
   * was recorded before it.
   */
  lemma ActiveTransitionStillSpeaks(s: MonitorState, frame: Frame, now: real, found: bool)
    requires Inv(s) && s.running && frame.Face? && ValidFrame(frame)
    requires s.alertStatus.Some? && s.pendingEnds > 0
    requires Update(s, frame, now, found).status == Active != s.status
    ensures var r := Update(s, frame, now, found);
      r.alertStatus == s.alertStatus
      && r.spoken == s.spoken + Speech(s.alertStatus, s.pendingEnds)
      && |r.spoken| == |s.spoken| + s.pendingEnds
  {
    FaceTickEffects(s, frame, now, found);
  }

  // ----- Whole runs and the debouncer -----

  /** Whether the session is running after `es`, starting from `running`. */
  function RunningAfter(running: bool, es: seq<Event>): bool
    decreases |es|
  {
    if es == [] then running
    else match es[|es| - 1]
      case StartPressed => true
      case StopPressed => false
      case _ => RunningAfter(running, es[..|es| - 1])
  }

  /** The face categories the debouncer actually consumes along `es`. */
  function Processed(running: bool, es: seq<Event>): seq<Category>
    requires ValidEvents(es)
    decreases |es|
  {
    if es == [] then []
    else
      var prefix := es[..|es| - 1];
      var e := es[|es| - 1];
      Processed(running, prefix)
        + (if RunningAfter(running, prefix) && e.FrameTick? && e.frame.Face? then [FrameCategory(e.frame)] else [])
  }

  /**
   * Over any run, the counters and the status are exactly those of the
   * debouncer fed with the faces seen while running: frames without a face,
   * failed reads, stopped ticks and the other events freeze them.
   */
  lemma {:induction false} RunFollowsDebouncer(s: MonitorState, es: seq<Event>)
    requires ValidEvents(es)
    ensures var r := Run(s, es);
      r.running == RunningAfter(s.running, es)
      && Debouncer(r.counters, r.status) == ObserveAll(Debouncer(s.counters, s.status), Processed(s.running, es))
    decreases |es|
  {
    if es != [] {
      var prefix := es[..|es| - 1];
      var e := es[|es| - 1];
      RunFollowsDebouncer(s, prefix);
      var cats := Processed(s.running, prefix);
      var d := Debouncer(s.counters, s.status);
      if RunningAfter(s.running, prefix) && e.FrameTick? && e.frame.Face? {
        var all := cats + [FrameCategory(e.frame)];
        assert all[..|all| - 1] == cats;
        FaceTickEffects(Run(s, prefix), e.frame, e.now, e.channelFound);
      } else {
        assert Processed(s.running, es) == cats;
      }
    }
  }

  /**
   * Hysteresis end to end: from program load, as long as no category of face
   * persists for FRAME_THRESH processed frames, the status stays ACTIVE.
   */
  lemma SessionHysteresis(now: real, es: seq<Event>)
    requires ValidEvents(es) && NoSustainedRun(Processed(false, es))
    ensures Run(Initial(now), es).status == Active
  {
    RunFollowsDebouncer(Initial(now), es);
    NoSustainedRunKeepsStatus(Debouncer(NoRuns, Active), Processed(false, es));
  }
}
