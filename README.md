# Drowsiness monitor: classification and alert state machine

A Dafny model of the core of a webcam drowsiness detector (`dd.py`). Each
video frame yields two eye measurements; each eye is classified as open,
half open or closed by its openness ratio. The pair is reduced to one of
three categories and debounced by run counters into a status: ACTIVE,
DROWSY or SLEEPING. A status change settles the active-time clock, stops
the alarm channel, starts the new status's alert sound, and then commits
the status. When a sound's end event is handled, a spoken phrase follows.
The phrase is chosen by the alert status recorded when it is spoken. The
GUI shows the status and the active time as `mm:ss`.

Modules, one per component:

- `Eye` (eye.dfy): `blinked`, the eye-aspect ratio and its two thresholds, 0.25 and 0.21.
- `Debounce` (debounce.dfy): the eye-pair reduction, the three run counters, FRAME_THRESH = 6 and the status proposal. It also holds lemmas about whole frame streams: run lengths, hysteresis, exactly-once transitions.
- `ActiveTime` (active_time.dfy): `active_timer_start` and `total_active_time`, the transition update and the elapsed time.
- `TimerText` (timer_text.dfy): `get_timer_text` with Python's `//`, `%`, `int()` and `02d`, and a parser proving the text determines minutes and seconds.
- `Alerts` (alerts.dfy): the two sounds, the alarm-channel commands and the `speak_alert` phrases.
- `Session` (session.dfy): the whole monitor as a function on values. It covers a GUI tick, Start, Stop and the mixer's sound-end event. It also has the session invariant and the lemmas about ticks and runs.
- `Monitor` (monitor.dfy): class `MonitorSession`. Its fields are the globals and app attributes the source mutates. Its methods follow `update_gui`, `play_alert_sound`, `handle_audio_events`, `start_detection` and `stop_detection` statement by statement. Each method is proved equal to its `Session` function.

Inputs the source gets from outside are parameters of the model:

- the camera frame: a failed read, no face, or two eyes' distances;
- the time `time.time()` returns (`now`);
- whether `pygame.mixer.find_channel()` finds a channel (`channelFound`);
- when the mixer posts a sound-end event (method `SoundEnded`).

What was sent to the mixer and what the speech engine said are ghost logs.

Behaviour of the code that the model keeps, although a reader might expect otherwise:

- Zero eye width: the float64 division `up / (2.0 * down)` does not raise. It gives +infinity when `up > 0`, which classifies as open, and NaN when `up == 0`, which classifies as closed. A zero-width eye is therefore not always closed.
- Frames without a face freeze the counters, status and clock. The code has no "treat as closed" option.
- Stop does not pause the active clock. The status and `active_timer_start` stay as they are, so time spent stopped while ACTIVE is counted. The clock starts at program load, not at Start. The code has no reset operation.
- Sound-end events carry no session token. Each handled event schedules `speak_alert(self.current_alert_status)`. The lambda reads the attribute when it runs, which is after the same tick's transition. So a phrase can still be spoken after a newer transition: see `Session.ActiveTransitionStillSpeaks`. The model does not add a token.
- The thresholds and FRAME_THRESH are module constants, not configuration. No configuration is validated.

## Model

| member | source | states |
|---|---|---|
| Eye.EyeAspectRatio | dd.py:55-57 | the float64 value of up / (2·down): a finite non-negative ratio r with r·2·down = up exactly when the width is positive; +infinity exactly for zero width with positive height; NaN exactly when both are zero |
| Eye.Classify | dd.py:58-62 | open exactly when the ratio is above 0.25, half exactly when it is in (0.21, 0.25], closed exactly when it is at most 0.21; +infinity is open and NaN is closed |
| Eye.Blinked | dd.py:54-62 | the per-eye state, restated without division: open iff up > 0.5·down, half iff 0.42·down < up ≤ 0.5·down, closed iff up ≤ 0.42·down (this covers zero width); its code is one of 0, 1, 2 |
| Eye.BlinkedScaleInvariant | dd.py:55-57 | scaling both distances by any positive factor leaves the classification unchanged |
| Eye.BlinkedMonotone | dd.py:58-62 | a larger lid height never gives a more closed state |
| Debounce.Combine | dd.py:181-191 | both closed is sleep; either half is drowsy; otherwise active exactly when neither eye is half and at least one is open, so one closed and one open eye is active |
| Debounce.Advance | dd.py:182-193 | the frame's counter is its old value plus one; the other two are zero; at most one counter is non-zero |
| Debounce.Observe | dd.py:180-195 | counters advance as above; once the frame's counter reaches FRAME_THRESH the status is that category's target; below it the status is unchanged |
| Debounce.ChangeAdoptsTarget | dd.py:184-197 | a status change only adopts the frame's target, and only with its counter at FRAME_THRESH or more |
| Debounce.ConfirmedStatusIsStable | dd.py:197 | more frames of the category whose target is the current status change nothing |
| Debounce.UniformRunCounts | dd.py:182-193 | n frames of one category add n to its counter |
| Debounce.ShortRunKeepsStatus | dd.py:180-195 | a run that keeps its counter below FRAME_THRESH leaves the status unchanged |
| Debounce.InterruptedRunKeepsStatus | dd.py:180-195 | a short run broken off by another category leaves the status unchanged, resets the run's counter and starts the other at 1 |
| Debounce.SustainedRunConfirms | dd.py:180-195 | FRAME_THRESH or more frames of one category set its target status from any state |
| Debounce.SustainedRunFiresOnce | dd.py:180-211 | from another status with the counter at zero, a uniform run fires exactly one transition once it is FRAME_THRESH long, and none before |
| Debounce.CountsAreTrailingRuns | dd.py:180-193 | from zero counters, each counter equals the length of its category's run at the end of the stream |
| Debounce.StatusChangeNeedsSustainedRun | dd.py:180-197 | from zero counters, a status change happens only on a frame that ends FRAME_THRESH equal categories, and then gives their target |
| Debounce.NoSustainedRunKeepsStatus | dd.py:180-195 | from zero counters, a stream with no FRAME_THRESH-long window of one category never changes the status |
| ActiveTime.Elapsed | dd.py:74-77 | away from ACTIVE the elapsed time is the banked total; in ACTIVE, with time not running backwards, it is at least the total |
| ActiveTime.Settle | dd.py:198-201 | elapsed time at the moment of a transition is the same before and after; entering ACTIVE restarts the segment at now; leaving ACTIVE banks it; the total never drops while time runs forward |
| ActiveTime.ElapsedRate | dd.py:74-77 | elapsed time grows one for one with the clock while ACTIVE and is frozen otherwise |
| TimerText.FloorDiv | dd.py:78 | Python's `//`: the integer q with q·d ≤ x < (q+1)·d |
| TimerText.FloorMod | dd.py:79 | Python's `%`: a remainder in [0, d) with x = q·d + r |
| TimerText.Trunc | dd.py:78-79 | `int()` truncates toward zero |
| TimerText.MinutesSeconds | dd.py:74-80 | seconds are in [0, 60) and mins·60 + secs is the floor of the elapsed time, negative times included |
| TimerText.Digits | dd.py:80 | decimal rendering: at least one character, all digits, a single digit exactly for values below ten |
| TimerText.Pad2 | dd.py:80 | the `02d` field: at least two characters, a leading '-' exactly for negatives followed by the magnitude's digits, all digits otherwise, and exactly two digits for 0..99 |
| TimerText.DigitsRoundTrip | dd.py:80 | the decimal digits read back as the number |
| TimerText.SecondsTwoDigits | dd.py:80 | the `02d` seconds field is exactly two digits and reads back as the seconds |
| TimerText.MinutesReadBack | dd.py:80 | the `02d` minutes field starts with '-' exactly for negative minutes and reads back as the minutes |
| TimerText.FormatTimer | dd.py:74-80 | the text is the minutes field, ':' and a two-digit seconds field |
| TimerText.TimerRoundTrip | dd.py:74-80 | parsing the rendered `mm:ss` text gives back the minutes and seconds |
| Alerts.SoundStatus | dd.py:206-209 | an alert sound never announces ACTIVE |
| Alerts.AlertSound | dd.py:206-209 | ACTIVE plays nothing; SLEEPING and DROWSY play the sound announcing them |
| Alerts.Phrase | dd.py:64-70 | the drowsy phrase exactly for DROWSY, the sleep phrase exactly for SLEEPING, nothing otherwise |
| Alerts.Speech | dd.py:155-160 | n deferred calls say the phrase n times when there is one, and nothing otherwise |
| Session.Initial | dd.py:44-49 | the load-time state: ACTIVE, zero counters, not running, no channel, no alert status, no queued events, and zero elapsed active time at load |
| Session.PlayAlert | dd.py:145-153 | the channel field is the lookup's result; a found channel starts the sound, making it the last alert, and records the alert status; otherwise audio and alert status are unchanged; debouncer and clock are untouched |
| Session.StopChannel | dd.py:132-133 | without a held channel nothing changes; with one, the last command is no longer a play; the last alert and the channel field are kept |
| Session.Transition | dd.py:197-211 | the status becomes the proposal; with no change the state is untouched; elapsed active time at that instant is unchanged; the alert status only ever changes to the new non-ACTIVE status |
| Session.Update | dd.py:162-212 | a tick never changes `running`; a stopped tick changes nothing; a running tick empties the event queue |
| Session.Display | dd.py:230-233 | something is shown exactly when running with a successful read, and the shown status is the status after the tick |
| Session.Apply | dd.py:125-131 | Start sets and Stop clears `running`; buttons and sound-end events leave counters, status, clock and speech alone; a sound-end event queues one event |
| Session.LastAlert | dd.py:145-153 | the last started sound's status is never ACTIVE, and is absent exactly when no sound was ever started |
| Session.InitialInv | dd.py:44-49 | the load-time state satisfies the session invariant |
| Session.ApplyInv | dd.py:125-212 | every tick, Start, Stop and sound-end event keeps the invariant: exclusive counters, the recorded alert status is that of the last started sound, every started sound is stopped before the next command, and a sound not yet stopped is held in the channel |
| Session.RunInv | dd.py:43-212 | every state reachable from program load satisfies the invariant |
| Session.FreezeWithoutFace | dd.py:165-176 | a stopped tick, a failed read or a frame without a face leaves counters, status, clock and alarm state unchanged |
| Session.FaceTickEffects | dd.py:180-212 | a running face tick advances the debouncer; without a change nothing else moves; with one the clock is settled, a held channel is stopped, and the new status's sound is started if a channel is found |
| Session.TickKeepsElapsed | dd.py:197-201 | no tick makes the active time jump at the tick's instant |
| Session.TotalNeverDecreases | dd.py:198-199 | with time not running backwards, the banked active time never decreases |
| Session.StopKeepsClockRunning | dd.py:129-133 | Stop leaves status, counters and clock alone, so an ACTIVE session's time keeps growing while stopped |
| Session.DisplayShowsElapsed | dd.py:230-233 | a tick shows something exactly when running with a successful read; it shows the new status, and the timer text reads back as the floor of the active time |
| Session.SpeechNamesLastAlert | dd.py:155-160 | a running tick speaks exactly once per queued end event once an alert status has been recorded, and not at all otherwise; it empties the queue only when running; it only appends to what was said, and says the phrase of the last started alert sound as of after the tick |
| Session.ActiveTransitionStillSpeaks | dd.py:155-211 | a transition into ACTIVE does not cancel queued end events: they still speak the previously recorded alert's phrase |
| Session.RunFollowsDebouncer | dd.py:162-212 | over any run, counters and status are those of the debouncer fed only the faces seen while running |
| Session.SessionHysteresis | dd.py:165-195 | from program load, if no face category persists for FRAME_THRESH processed frames, the status stays ACTIVE |
| Monitor.MonitorSession.constructor | dd.py:43-49 | the load-time state: zero counters, ACTIVE, clock started at load, not running, no channel, no alert status; it satisfies the invariant |
| Monitor.MonitorSession.Start | dd.py:125-127 | sets running, nothing else, and keeps the session invariant |
| Monitor.MonitorSession.Stop | dd.py:129-133 | clears running and stops a held channel, nothing else, and keeps the session invariant |
| Monitor.MonitorSession.SoundEnded | dd.py:150 | the mixer queues one more sound-end event, keeping the session invariant |
| Monitor.MonitorSession.HandleAudioEvents | dd.py:155-160 | drains the queue and schedules one speech callback per event if an alert status was ever recorded |
| Monitor.MonitorSession.RunScheduledSpeech | dd.py:64-72 | the scheduled callbacks say the phrase for the alert status read when they run |
| Monitor.MonitorSession.PlayAlertSound | dd.py:145-153 | the channel field becomes the lookup's result; a found channel plays the sound and records the alert status |
| Monitor.MonitorSession.CountFrame | dd.py:180-195 | the counter updates and the proposed status equal the debouncer's step on the combined eye states |
| Monitor.MonitorSession.SettleClock | dd.py:198-201 | the clock fields become `Settle` of the old clock; nothing else changes |
| Monitor.MonitorSession.StopAlarmChannel | dd.py:203-204 | equals `StopChannel` on the state |
| Monitor.MonitorSession.CommitTransition | dd.py:197-211 | the transition block equals the model's transition: clock, stop, sound, then status |
| Monitor.MonitorSession.Tick | dd.py:162-233 | one GUI tick equals `Session.Update`, what it shows equals `Session.Display`, and it keeps the session invariant |

## Left out

- Camera capture, dlib face detection, landmark prediction and `shape_to_np` are foreign vision calls. A frame is given as a failed read, no face, or two eyes' distances.
- `compute` (`np.linalg.norm`) is a floating-point square root. The distances are abstract non-negative reals: `up` is the sum of the two lid distances and `down` is the corner distance.
- Floating point in general: ratios, timestamps and elapsed times are exact reals. Rounding in `/`, `//` and `%` is not modelled.
- OpenCV drawing, colour conversion, resizing, PIL/Tk image handling, widget layout and label colours are UI. The status and timer text a tick shows are modelled; the "NO FACE DETECTED" overlay is not.
- Real pygame playback, channel lookup and the event queue are not modelled. Channel lookup is the `channelFound` parameter. The arrival of end events is the environment method `SoundEnded`, so the model does not decide whether stopping a channel posts one. Only sound-end events are counted; other event types, which `handle_audio_events` discards, are not.
- pyttsx3 synthesis, its blocking `runAndWait`, and the exception handler in `speak_alert` are not modelled. Speech is assumed to succeed, and the ghost log records the phrases.
- `root.after` and `mainloop` are the Tk scheduling mechanism. `Tick` is one `update_gui` call followed at once by the speech callbacks it scheduled. Start, Stop and sound-end events do not read or change the alert status, so running the callbacks before or after them gives the same result.
- `Monitor.MonitorSession.Tick`: one `now` stands for every `time.time()` call in the tick, including the one in `get_timer_text`.
- `quit_app`, the file-existence checks and the module-level initialisation of pygame, pyttsx3 and the camera are I/O.
- `last_status_change` is written but never read.
