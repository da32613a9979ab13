/**
  The alarm after a countdown (main.cpp:640-687): unless muted, the sound is
  played `alarmRepeat` times, with a pause of `alarmInterval` seconds between
  two plays and none after the last.
 */
module Alarm {

  /** The sound a play uses: the given file, or the built-in melody when there is none. */
  datatype Sound = File(path: string) | Builtin

  datatype Event = Play(sound: Sound) | Wait(seconds: int)

  /** The sound chosen at main.cpp:642: a file name when one was given. */
  function SoundOf(soundFile: string): (s: Sound)
    ensures s.Builtin? <==> soundFile == []
    ensures s.File? ==> s.path == soundFile
  {
    if soundFile == [] then Builtin else File(soundFile)
  }

  /** Plays at even positions, waits at odd ones. */
  predicate Alternates(events: seq<Event>, sound: Sound, interval: int) {
    forall k :: 0 <= k < |events| ==> events[k] == if k % 2 == 0 then Play(sound) else Wait(interval)
  }

  /** The whole alarm as one schedule: plays and waits alternating, starting with a play. */
  function Schedule(mute: bool, alarmRepeat: int, alarmInterval: int, soundFile: string): (events: seq<Event>)
    ensures Alternates(events, SoundOf(soundFile), alarmInterval)
  {
    var n := if mute || alarmRepeat <= 0 then 0 else 2 * alarmRepeat - 1;
    seq(n, k => if k % 2 == 0 then Play(SoundOf(soundFile)) else Wait(alarmInterval))
  }

  /** The alarm loop of main.cpp:640-686. */
  method SoundAlarm(mute: bool, alarmRepeat: int, alarmInterval: int, soundFile: string)
    returns (events: seq<Event>)
    ensures mute || alarmRepeat <= 0 ==> events == []
    ensures !mute && alarmRepeat > 0 ==> |events| == 2 * alarmRepeat - 1
    ensures Alternates(events, SoundOf(soundFile), alarmInterval)
    ensures events == Schedule(mute, alarmRepeat, alarmInterval, soundFile)
  {
    events := [];
    if !mute {
      var sound := SoundOf(soundFile);
      var r := 0;
      while r < alarmRepeat
        invariant if alarmRepeat > 0 then 0 <= r <= alarmRepeat else r == 0
        invariant |events| == if r < alarmRepeat || r == 0 then 2 * r else 2 * r - 1
        invariant Alternates(events, sound, alarmInterval)
      {
        events := events + [Play(sound)];
        if r < alarmRepeat - 1 {
          events := events + [Wait(alarmInterval)];
        }
        r := r + 1;
      }
    }
  }

  function Plays(events: seq<Event>): nat {
    if events == [] then 0 else (if events[0].Play? then 1 else 0) + Plays(events[1..])
  }

  function Waits(events: seq<Event>): nat {
    if events == [] then 0 else (if events[0].Wait? then 1 else 0) + Waits(events[1..])
  }

  /** An alternating schedule of odd length starts and ends with a play and has one wait fewer. */
  lemma {:induction false} AlternatingCounts(events: seq<Event>, sound: Sound, interval: int)
    requires Alternates(events, sound, interval) && |events| % 2 == 1
    ensures Plays(events) == |events| / 2 + 1 && Waits(events) == |events| / 2
    ensures events[|events| - 1].Play?
    decreases |events|
  {
    if |events| > 1 {
      var rest := events[2..];
      assert Alternates(rest, sound, interval) by {
        forall k | 0 <= k < |rest| ensures rest[k] == if k % 2 == 0 then Play(sound) else Wait(interval) {
          assert rest[k] == events[k + 2];
        }
      }
      AlternatingCounts(rest, sound, interval);
      assert events[1..][1..] == rest;
      assert events[0] == Play(sound) && events[1] == Wait(interval);
    }
  }

  /**
    Unmuted, the alarm plays exactly `alarmRepeat` times with exactly
    `alarmRepeat - 1` waits, and it ends on a play: no wait after the last.
   */
  lemma AlarmCounts(events: seq<Event>, alarmRepeat: int, sound: Sound, interval: int)
    requires alarmRepeat >= 1 && |events| == 2 * alarmRepeat - 1
    requires Alternates(events, sound, interval)
    ensures Plays(events) == alarmRepeat && Waits(events) == alarmRepeat - 1
    ensures events[|events| - 1] == Play(sound)
  {
    AlternatingCounts(events, sound, interval);
  }
}
