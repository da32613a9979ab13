/**
  The rounds of `main` (main.cpp:581-715): each round counts down, sounds the
  alarm, carries out the post action and shows the notification; with
  `--loop` it repeats, up to the given count or without end, and with `--at`
  every further round counts to the next occurrence of the time of day.
 */
module Timer {
  import opened Duration
  import opened Countdown
  import opened Alarm
  import opened Action
  import opened Arguments

  /**
    The clocks the rounds read, indexed by round (0 for the first):
    `start` is the steady clock when a round begins, `polls` the readings its
    countdown loop makes, and `untilNext` what `millisecondsUntilTime`
    (`Target.UntilTime`) answers for the time of day of `--at` after the round.
   */
  datatype Clocks = Clocks(
    start: nat -> int,
    polls: nat -> seq<Poll>,
    untilNext: nat -> int)

  /**
    What one round does: the round number shown when looping (`loopCount`,
    0 without `--loop`), the duration counted, the frames rendered, the alarm,
    the post action and whether the notification is shown.
   */
  datatype Round = Round(number: int, ms: int, frames: seq<Frame>, alarm: seq<Event>, effect: Effect, notify: bool)

  /** Round `n`, shown as `number`, counting down `ms`. */
  function RoundAt(o: Options, clocks: Clocks, n: nat, number: int, ms: int): Round {
    Round(number, ms,
      Renders(ms, clocks.start(n) + ms, o.preAlarmSeconds, clocks.polls(n), -1),
      Schedule(o.mute, o.alarmRepeat, o.alarmInterval, o.soundFile),
      Dispatch(o.post),
      o.showMessage)
  }

  /** The number shown for a round and the duration it counts down. */
  datatype Turn = Turn(number: int, ms: int)

  /** The round that round `n` of `turns` is. */
  function Performed(o: Options, clocks: Clocks, n: nat, t: Turn): Round {
    RoundAt(o, clocks, n, t.number, t.ms)
  }

  /** The loop condition of main.cpp:715. */
  predicate Again(o: Options, loopCount: int) {
    o.loop && (o.maxLoops == -1 || loopCount < o.maxLoops)
  }

  /**
    The turns from round `n` on, with `loopCount` as before the round and
    `ms` its duration, and the exit code. An endless loop is stopped by the
    user; `horizon` is the number of rounds run before that.
   */
  function RunFrom(o: Options, clocks: Clocks, horizon: nat, n: nat, loopCount: int, ms: int): (r: (seq<Turn>, int))
    requires n < horizon
    decreases horizon - n
  {
    var count := if o.loop then loopCount + 1 else loopCount;
    var round := Turn(count, ms);
    if o.useAtTime && clocks.untilNext(n) == 0 then ([round], 1)
    else
      var ms' := NextMs(o, clocks, n, ms);
      if Again(o, count) && n + 1 < horizon then
        var rest := RunFrom(o, clocks, horizon, n + 1, count, ms');
        ([round] + rest.0, rest.1)
      else ([round], 0)
  }

  /**
    The duration of the round after round `n` (main.cpp:706-712): with `--at`
    the time until the next occurrence, clamped to `MAX_MS`; otherwise the same.
   */
  function NextMs(o: Options, clocks: Clocks, n: nat, ms: int): int {
    if o.useAtTime then Min(clocks.untilNext(n), MAX_MS) else ms
  }

  /** One round of the plan: it stops on a failed reschedule, continues while `Again` holds. */
  lemma RunFromStep(o: Options, clocks: Clocks, horizon: nat, n: nat, loopCount: int, ms: int)
    requires n < horizon
    ensures var count := if o.loop then loopCount + 1 else loopCount;
      var r := RunFrom(o, clocks, horizon, n, loopCount, ms);
      if o.useAtTime && clocks.untilNext(n) == 0 then r == ([Turn(count, ms)], 1)
      else if Again(o, count) && n + 1 < horizon then
        var rest := RunFrom(o, clocks, horizon, n + 1, count, NextMs(o, clocks, n, ms));
        r.0 == [Turn(count, ms)] + rest.0 && r.1 == rest.1
      else r == ([Turn(count, ms)], 0)
  {
  }

  /** When round `n` of the plan is followed by another, the plan goes on from there. */
  lemma PlanContinues(o: Options, clocks: Clocks, horizon: nat, n: nat, loopCount: int, ms: int,
                      before: seq<Turn>, full: seq<Turn>)
    requires n + 1 < horizon && before + RunFrom(o, clocks, horizon, n, loopCount, ms).0 == full
    requires !(o.useAtTime && clocks.untilNext(n) == 0)
    requires Again(o, if o.loop then loopCount + 1 else loopCount)
    ensures var count := if o.loop then loopCount + 1 else loopCount;
      var rest := RunFrom(o, clocks, horizon, n + 1, count, NextMs(o, clocks, n, ms));
      && (before + [Turn(count, ms)]) + rest.0 == full
      && rest.1 == RunFrom(o, clocks, horizon, n, loopCount, ms).1
  {
    var count := if o.loop then loopCount + 1 else loopCount;
    var rest := RunFrom(o, clocks, horizon, n + 1, count, NextMs(o, clocks, n, ms)).0;
    RunFromStep(o, clocks, horizon, n, loopCount, ms);
    assert (before + [Turn(count, ms)]) + rest == before + ([Turn(count, ms)] + rest);
  }

  /** When round `n` of the plan is its last, the turns so far are the whole plan. */
  lemma PlanStops(o: Options, clocks: Clocks, horizon: nat, n: nat, loopCount: int, ms: int,
                  before: seq<Turn>, full: seq<Turn>)
    requires n < horizon && before + RunFrom(o, clocks, horizon, n, loopCount, ms).0 == full
    requires var count := if o.loop then loopCount + 1 else loopCount;
      (o.useAtTime && clocks.untilNext(n) == 0) || !Again(o, count) || n + 1 == horizon
    ensures before + [Turn(if o.loop then loopCount + 1 else loopCount, ms)] == full
    ensures RunFrom(o, clocks, horizon, n, loopCount, ms).1 == if o.useAtTime && clocks.untilNext(n) == 0 then 1 else 0
  {
    RunFromStep(o, clocks, horizon, n, loopCount, ms);
  }

  /** The duration of round `k` counted from round `n`: the first is `ms`, later ones are rescheduled. */
  function DurationOf(o: Options, clocks: Clocks, n: nat, k: nat, ms: int): int {
    if k == 0 || !o.useAtTime then ms else Min(clocks.untilNext(n + k - 1), MAX_MS)
  }

  /** How many rounds there are and why they stop: exit code 1 only when the next target cannot be computed. */
  lemma {:induction false} RunFromStops(o: Options, clocks: Clocks, horizon: nat, n: nat, loopCount: int, ms: int)
    requires n < horizon
    ensures var (rounds, code) := RunFrom(o, clocks, horizon, n, loopCount, ms);
      && 1 <= |rounds| <= horizon - n
      && (code == 0 || code == 1)
      && (code == 1 <==> o.useAtTime && clocks.untilNext(n + |rounds| - 1) == 0)
      && (forall j: nat :: n <= j < n + |rounds| - 1 ==> !o.useAtTime || clocks.untilNext(j) != 0)
    decreases horizon - n
  {
    var count := if o.loop then loopCount + 1 else loopCount;
    if !(o.useAtTime && clocks.untilNext(n) == 0) {
      var ms' := NextMs(o, clocks, n, ms);
      if Again(o, count) && n + 1 < horizon {
        RunFromStops(o, clocks, horizon, n + 1, count, ms');
      }
    }
  }

  /** Round `k` from round `n` on: its number counts up when looping, its duration is the rescheduled one. */
  lemma {:induction false} RunFromRounds(o: Options, clocks: Clocks, horizon: nat, n: nat, loopCount: int, ms: int)
    requires n < horizon
    ensures var rounds := RunFrom(o, clocks, horizon, n, loopCount, ms).0;
      forall k :: 0 <= k < |rounds| ==>
        rounds[k] == Turn(if o.loop then loopCount + k + 1 else loopCount, DurationOf(o, clocks, n, k, ms))
    decreases horizon - n
  {
    var count := if o.loop then loopCount + 1 else loopCount;
    if !(o.useAtTime && clocks.untilNext(n) == 0) {
      var ms' := NextMs(o, clocks, n, ms);
      if Again(o, count) && n + 1 < horizon {
        RunFromRounds(o, clocks, horizon, n + 1, count, ms');
        var rest := RunFrom(o, clocks, horizon, n + 1, count, ms').0;
        var rounds := RunFrom(o, clocks, horizon, n, loopCount, ms).0;
        assert rounds == [Turn(count, ms)] + rest;
        forall k | 1 <= k < |rounds|
          ensures rounds[k] == Turn(if o.loop then loopCount + k + 1 else loopCount, DurationOf(o, clocks, n, k, ms))
        {
          assert rounds[k] == rest[k - 1];
          assert DurationOf(o, clocks, n + 1, k - 1, ms') == DurationOf(o, clocks, n, k, ms);
        }
      }
    }
  }

  /** Every reschedule within the horizon succeeds. */
  predicate Reschedules(o: Options, clocks: Clocks, horizon: nat) {
    o.useAtTime ==> forall n :: 0 <= n < horizon ==> clocks.untilNext(n) != 0
  }

  /** The number of rounds the options ask for, within the horizon. */
  function Planned(o: Options, horizon: nat): nat {
    if !o.loop then 1
    else if o.maxLoops == -1 then horizon
    else if 0 < o.maxLoops < horizon then o.maxLoops
    else horizon
  }

  lemma {:induction false} RoundCount(o: Options, clocks: Clocks, horizon: nat, n: nat, ms: int)
    requires n < horizon && Floors(o) && Reschedules(o, clocks, horizon)
    requires o.loop ==> n < Planned(o, horizon)
    requires !o.loop ==> n == 0
    ensures var (rounds, code) := RunFrom(o, clocks, horizon, n, if o.loop then n else 0, ms);
      |rounds| == Planned(o, horizon) - n && code == 0
    decreases horizon - n
  {
    var loopCount := if o.loop then n else 0;
    var count := if o.loop then loopCount + 1 else loopCount;
    assert !(o.useAtTime && clocks.untilNext(n) == 0);
    var ms' := NextMs(o, clocks, n, ms);
    if Again(o, count) && n + 1 < horizon {
      RoundCount(o, clocks, horizon, n + 1, ms');
    }
  }

  /**
    `--loop k` runs exactly `k` rounds numbered 1 to `k`, `--loop` alone runs
    until stopped, and without `--loop` there is one round, the first counting
    the duration the options give.
   */
  lemma Rounds(o: Options, clocks: Clocks, horizon: nat)
    requires horizon >= 1 && Floors(o) && Reschedules(o, clocks, horizon)
    ensures var (rounds, code) := RunFrom(o, clocks, horizon, 0, 0, o.ms);
      && code == 0
      && |rounds| == Planned(o, horizon)
      && (forall k :: 0 <= k < |rounds| ==> rounds[k].number == (if o.loop then k + 1 else 0))
      && rounds[0].ms == o.ms
  {
    RoundCount(o, clocks, horizon, 0, o.ms);
    RunFromStops(o, clocks, horizon, 0, 0, o.ms);
    RunFromRounds(o, clocks, horizon, 0, 0, o.ms);
  }

  /** `main` exits with 1 exactly when computing the next time of day fails. */
  lemma ExitCode(o: Options, clocks: Clocks, horizon: nat)
    requires horizon >= 1
    ensures var (rounds, code) := RunFrom(o, clocks, horizon, 0, 0, o.ms);
      && (code == 1 <==> o.useAtTime && clocks.untilNext(|rounds| - 1) == 0)
      && (code == 1 || code == 0)
      && (forall k :: 1 <= k < |rounds| ==> rounds[k].ms == if o.useAtTime then Min(clocks.untilNext(k - 1), MAX_MS) else o.ms)
  {
    RunFromStops(o, clocks, horizon, 0, 0, o.ms);
    RunFromRounds(o, clocks, horizon, 0, 0, o.ms);
  }

  /** One round's body (main.cpp:584-702): the countdown, the alarm, the post action, the notification. */
  method PerformRound(o: Options, clocks: Clocks, n: nat, loopCount: int, ms: int) returns (round: Round)
    ensures round == Performed(o, clocks, n, Turn(loopCount, ms))
  {
    var frames := RunCountdown(ms, clocks.start(n), o.preAlarmSeconds, clocks.polls(n));
    var alarm := SoundAlarm(o.mute, o.alarmRepeat, o.alarmInterval, o.soundFile);
    round := Round(loopCount, ms, frames, alarm, Dispatch(o.post), o.showMessage);
  }

  /** The rounds performed so far are the planned turns, in order. */
  predicate PerformedAll(o: Options, clocks: Clocks, rounds: seq<Round>, turns: seq<Turn>) {
    |rounds| == |turns| && forall k :: 0 <= k < |rounds| ==> rounds[k] == Performed(o, clocks, k, turns[k])
  }

  lemma PerformedSnoc(o: Options, clocks: Clocks, rounds: seq<Round>, turns: seq<Turn>, round: Round, t: Turn)
    requires PerformedAll(o, clocks, rounds, turns) && round == Performed(o, clocks, |rounds|, t)
    ensures PerformedAll(o, clocks, rounds + [round], turns + [t])
  {
  }

  /**
    The do-while loop of main.cpp:583-715: the rounds are the turns `RunFrom`
    plans, each one counting down, sounding the alarm, carrying out the post
    action and showing the notification.
   */
  method Run(o: Options, clocks: Clocks, horizon: nat) returns (rounds: seq<Round>, exitCode: int)
    requires horizon >= 1
    ensures var (turns, code) := RunFrom(o, clocks, horizon, 0, 0, o.ms);
      && exitCode == code && |rounds| == |turns|
      && forall k :: 0 <= k < |rounds| ==> rounds[k] == Performed(o, clocks, k, turns[k])
  {
    ghost var full := RunFrom(o, clocks, horizon, 0, 0, o.ms).0;
    ghost var code := RunFrom(o, clocks, horizon, 0, 0, o.ms).1;
    ghost var turns: seq<Turn> := [];
    var loopCount := 0;
    var ms := o.ms;
    var n := 0;
    var again := true;
    rounds, exitCode := [], 0;
    while again
      invariant PerformedAll(o, clocks, rounds, turns) && |rounds| <= horizon
      invariant again ==> n == |rounds| < horizon && exitCode == 0
      invariant again ==> turns + RunFrom(o, clocks, horizon, n, loopCount, ms).0 == full
      invariant again ==> RunFrom(o, clocks, horizon, n, loopCount, ms).1 == code
      invariant !again ==> turns == full && exitCode == code
      decreases horizon - |rounds|
    {
      ghost var before, planned, counted := turns, ms, loopCount;
      if o.loop {
        loopCount := loopCount + 1;
      }
      var round := PerformRound(o, clocks, n, loopCount, ms);
      PerformedSnoc(o, clocks, rounds, turns, round, Turn(loopCount, ms));
      rounds, turns := rounds + [round], turns + [Turn(loopCount, ms)];
      if o.useAtTime && clocks.untilNext(n) == 0 {
        PlanStops(o, clocks, horizon, n, counted, planned, before, full);
        exitCode := 1;
        again := false;
      } else {
        if o.useAtTime {
          ms := clocks.untilNext(n);
          if ms > MAX_MS {
            ms := MAX_MS;
          }
        }
        if Again(o, loopCount) && n + 1 < horizon {
          PlanContinues(o, clocks, horizon, n, counted, planned, before, full);
          n := n + 1;
        } else {
          PlanStops(o, clocks, horizon, n, counted, planned, before, full);
          again := false;
        }
      }
    }
  }
}
