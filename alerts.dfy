/**
 * Alert sequencing (dd.py): which sound a status transition starts, and which
 * phrase `speak_alert` says when a sound-end event is handled.
 */
module Alerts {
  import opened Wrappers
  import opened Debounce

  /** SLEEP_FILE (audio_alert.wav) and DROWSY_FILE (dddd.wav), loaded once as mixer sounds. */
  datatype Sound = SleepSound | DrowsySound

  /** A command given to the alarm channel. */
  datatype AudioCmd = Play(sound: Sound) | StopAlarm

  const DrowsyPhrase: string := "Stay alert! You are feeling drowsy"
  const SleepPhrase: string := "Wake up! You are falling asleep"

  /** The status an alert sound announces. */
  function SoundStatus(snd: Sound): (s: Status)
    ensures s != Active
  {
    match snd
    case SleepSound => Sleeping
    case DrowsySound => Drowsy
  }

  /** The sound a transition into `s` plays: none for ACTIVE. */
  function AlertSound(s: Status): (o: Option<Sound>)
    ensures o.None? <==> s == Active
    ensures o.Some? ==> SoundStatus(o.value) == s
  {
    match s
    case Sleeping => Some(SleepSound)
    case Drowsy => Some(DrowsySound)
    case Active => None
  }

  /**
   * What one `speak_alert(current_alert_status)` call says. `None` for the
   * alert status stands for the attribute never having been set.
   */
  function Phrase(alert: Option<Status>): (p: Option<string>)
    ensures p == Some(DrowsyPhrase) <==> alert == Some(Drowsy)
    ensures p == Some(SleepPhrase) <==> alert == Some(Sleeping)
    ensures p.None? <==> alert.None? || alert == Some(Active)
  {
    match alert
    case Some(Drowsy) => Some(DrowsyPhrase)
    case Some(Sleeping) => Some(SleepPhrase)
    case _ => None
  }

  /** What `n` deferred `speak_alert` calls say when each reads `alert`. */
  function Speech(alert: Option<Status>, n: nat): (r: seq<string>)
    ensures |r| == if Phrase(alert).Some? then n else 0
    ensures forall i :: 0 <= i < |r| ==> Phrase(alert) == Some(r[i])
    decreases n
  {
    if n == 0 then []
    else Speech(alert, n - 1) + (match Phrase(alert) case Some(p) => [p] case None => [])
  }
}
