/**
  The `--at` rescheduling of main.cpp:705-712 with `millisecondsUntilTime`
  itself in place of the `untilNext` parameter of the rounds.
 */
module Reschedule {
  import opened Wrappers
  import opened Arguments
  import opened Target
  import opened Timer

  /**
    With `untilNext` answered by `millisecondsUntilTime` itself
    (`Target.UntilTime` of the clock after each round and that day's instant
    of the time of day), `main` exits with 1 exactly when the instant after
    the last round does not convert or lies a day or more back; every later
    round counts that answer; and when every answer within the horizon is a
    good one, the rounds are the ones the options ask for.
   */
  lemma ExitCodeOfTargets(o: Options, clocks: Clocks, horizon: nat, now: nat -> int, today: nat -> Option<int>)
    requires horizon >= 1
    requires forall n :: clocks.untilNext(n) == UntilTime(now(n), today(n))
    ensures var (rounds, code) := RunFrom(o, clocks, horizon, 0, 0, o.ms);
      var last := |rounds| - 1;
      && (code == 1 <==> o.useAtTime && (today(last).None? || today(last).value <= now(last) - DAY_MS))
      && (forall k :: 1 <= k < |rounds| ==>
            rounds[k].ms == if o.useAtTime then UntilTime(now(k - 1), today(k - 1)) else o.ms)
      && (Floors(o) && (forall n :: 0 <= n < horizon ==> today(n).Some? && today(n).value > now(n) - DAY_MS) ==>
            code == 0 && |rounds| == Planned(o, horizon))
  {
    ExitCode(o, clocks, horizon);
    if Floors(o) && (forall n :: 0 <= n < horizon ==> today(n).Some? && today(n).value > now(n) - DAY_MS) {
      assert Reschedules(o, clocks, horizon) by {
        forall n | 0 <= n < horizon ensures clocks.untilNext(n) != 0 {
          assert clocks.untilNext(n) == UntilTime(now(n), today(n));
        }
      }
      Rounds(o, clocks, horizon);
    }
  }
}
