/**
  One countdown (main.cpp:593-631): the loop polls the steady clock until the
  end instant, and each time the remaining whole seconds change it renders a
  frame with the remaining time, the progress bar and, inside the pre-alarm
  window, a beep. The clock is a parameter: the list of polls the loop makes.
 */
module Countdown {
  import opened Duration

  const BAR_WIDTH: int := 30

  /**
    One pass of the loop reads the clock twice: `check` in the loop condition
    (main.cpp:593) and `read` in the body (main.cpp:594).
   */
  datatype Poll = Poll(check: int, read: int)

  /** What one render shows: remaining seconds, whether it beeps, filled bar cells. */
  datatype Frame = Frame(sec: int, beep: bool, filled: int)

  /** Milliseconds to the end, never negative (main.cpp:595-596). */
  function RemainingMs(end: int, now: int): (r: nat)
    ensures end - now >= 0 ==> r == end - now
    ensures end - now < 0 ==> r == 0
  {
    if end - now < 0 then 0 else end - now
  }

  /** Remaining whole seconds, rounded up: `(ms + 999) / 1000` (main.cpp:597). */
  function RemainingSeconds(remMs: nat): (sec: nat)
    ensures sec == 0 <==> remMs == 0
    ensures sec > 0 ==> (sec - 1) * 1000 < remMs <= sec * 1000
  {
    (remMs + 999) / 1000
  }

  /** Less time left never shows more seconds. */
  lemma RemainingSecondsMonotone(a: nat, b: nat)
    requires a <= b
    ensures RemainingSeconds(a) <= RemainingSeconds(b)
  {
  }

  /** The seconds shown are the least whole number of seconds covering what is left. */
  lemma RemainingSecondsIsCeiling(remMs: nat, s: nat)
    requires remMs <= s * 1000
    ensures RemainingSeconds(remMs) <= s
  {
  }

  /** The pre-alarm beep of main.cpp:603-608. */
  function PreAlarm(preAlarmSeconds: int, sec: int): (beep: bool)
    ensures beep <==> 0 < sec <= preAlarmSeconds
  {
    preAlarmSeconds > 0 && sec > 0 && sec <= preAlarmSeconds
  }

  /**
    The filled cells of the progress bar (main.cpp:610-617): the elapsed
    fraction of the whole time, clamped to [0, 1], times the bar width,
    truncated. With no time at all the bar is full.
   */
  function Fill(totalMs: int, remMs: int): (filled: int)
    ensures 0 <= filled <= BAR_WIDTH
    ensures totalMs <= 0 ==> filled == BAR_WIDTH
  {
    var elapsed := if totalMs - remMs < 0 then 0 else totalMs - remMs;
    var fraction: real := if totalMs > 0 then elapsed as real / totalMs as real else 1.0;
    var clamped := if fraction < 0.0 then 0.0 else if fraction > 1.0 then 1.0 else fraction;
    var cells := (clamped * BAR_WIDTH as real).Floor;
    if cells > BAR_WIDTH then BAR_WIDTH else cells
  }

  /** Dividing both sides by a positive factor keeps a strict order. */
  lemma CancelLess(a: real, b: real, t: real)
    requires t > 0.0 && a * t < b * t
    ensures a < b
  {
  }

  /** Dividing both sides by a positive factor keeps an order. */
  lemma CancelAtMost(a: real, b: real, t: real)
    requires t > 0.0 && a * t <= b * t
    ensures a <= b
  {
  }

  /** Rounding a ratio of whole numbers down is integer division. */
  lemma FloorOfRatio(n: nat, t: int)
    requires t > 0
    ensures (n as real / t as real).Floor == n / t
  {
    var q, r := n / t, n % t;
    var x := n as real / t as real;
    RealProduct(q, t);
    var d := x - q as real;
    assert d * t as real == r as real;
    CancelAtMost(0.0, d, t as real);
    CancelLess(d, 1.0, t as real);
    assert q as real <= x < q as real + 1.0;
  }

  /** Scaling a ratio scales its numerator. */
  lemma ScaleRatio(a: int, k: int, t: int)
    requires t > 0
    ensures (a as real / t as real) * k as real == (a * k) as real / t as real
  {
    var x := a as real / t as real;
    assert x * t as real == a as real;
    assert (x * k as real) * t as real == (a * k) as real;
  }

  /**
    While time is left, the bar shows the elapsed share of the whole time,
    rounded down: `elapsed * 30 / total` cells.
   */
  lemma FillProportional(totalMs: int, remMs: int)
    requires 0 < totalMs && 0 <= remMs <= totalMs
    ensures Fill(totalMs, remMs) == (totalMs - remMs) * BAR_WIDTH / totalMs
  {
    var elapsed := totalMs - remMs;
    var fraction := elapsed as real / totalMs as real;
    assert fraction <= 1.0 by {
      CancelAtMost(fraction, 1.0, totalMs as real);
    }
    ScaleRatio(elapsed, BAR_WIDTH, totalMs);
    FloorOfRatio(elapsed * BAR_WIDTH, totalMs);
  }

  lemma MultiplyCancel(x: int, y: int, t: int)
    requires t > 0 && x * t < y * t
    ensures x < y
  {
    assert (y - x) * t == y * t - x * t;
  }

  lemma DivideMonotone(a: nat, b: nat, t: int)
    requires a <= b && t > 0
    ensures a / t <= b / t
  {
    var qa, qb := a / t, b / t;
    assert qa * t <= a;
    assert b < (qb + 1) * t;
    MultiplyCancel(qa, qb + 1, t);
  }

  /** The bar never empties while time passes. */
  lemma FillMonotone(totalMs: int, rem1: int, rem2: int)
    requires 0 <= rem2 <= rem1
    ensures Fill(totalMs, rem1) <= Fill(totalMs, rem2)
  {
    if 0 < totalMs && rem1 <= totalMs {
      FillProportional(totalMs, rem1);
      FillProportional(totalMs, rem2);
      DivideMonotone((totalMs - rem1) * BAR_WIDTH, (totalMs - rem2) * BAR_WIDTH, totalMs);
    } else if 0 < totalMs && rem2 <= totalMs {
      FillProportional(totalMs, rem2);
      assert Fill(totalMs, rem1) == 0;
    }
  }

  /** The frame rendered for `now`. */
  function FrameAt(totalMs: int, end: int, preAlarmSeconds: int, now: int): Frame {
    var remMs := RemainingMs(end, now);
    var sec := RemainingSeconds(remMs);
    Frame(sec, PreAlarm(preAlarmSeconds, sec), Fill(totalMs, remMs))
  }

  /**
    The frames the loop renders over `polls`, when the last rendered number
    of seconds is `last` (-1 before the first render).
   */
  function Renders(totalMs: int, end: int, preAlarmSeconds: int, polls: seq<Poll>, last: int): seq<Frame>
    decreases |polls|
  {
    if polls == [] || polls[0].check >= end then []
    else
      var frame := FrameAt(totalMs, end, preAlarmSeconds, polls[0].read);
      if frame.sec != last then [frame] + Renders(totalMs, end, preAlarmSeconds, polls[1..], frame.sec)
      else Renders(totalMs, end, preAlarmSeconds, polls[1..], last)
  }

  /** The clock never runs backwards. */
  predicate Monotone(polls: seq<Poll>) {
    forall i, j :: 0 <= i < j < |polls| ==> polls[i].read <= polls[j].read
  }

  /** The seconds of the frames strictly decrease, and all stay below `bound`. */
  predicate DecreasingBelow(fs: seq<Frame>, bound: int) {
    && (forall a, b :: 0 <= a < b < |fs| ==> fs[b].sec < fs[a].sec)
    && (forall a :: 0 <= a < |fs| ==> fs[a].sec < bound)
  }

  lemma ConsDecreasing(frame: Frame, tail: seq<Frame>, bound: int)
    requires DecreasingBelow(tail, frame.sec) && frame.sec < bound
    ensures DecreasingBelow([frame] + tail, bound)
  {
    var fs := [frame] + tail;
    forall a, b | 0 <= a < b < |fs| ensures fs[b].sec < fs[a].sec {
      assert fs[b] == tail[b - 1];
      if a > 0 {
        assert fs[a] == tail[a - 1];
      }
    }
    forall a | 0 <= a < |fs| ensures fs[a].sec < bound {
      if a > 0 {
        assert fs[a] == tail[a - 1];
      }
    }
  }

  /**
    With a clock that never runs backwards, the rendered seconds strictly
    decrease, so each number of seconds is rendered at most once. `bound` is
    one more than the seconds the first poll can show.
   */
  lemma {:induction false} RendersDecrease(totalMs: int, end: int, pre: int, polls: seq<Poll>, last: int, bound: int)
    requires Monotone(polls)
    requires polls != [] ==> RemainingSeconds(RemainingMs(end, polls[0].read)) < bound
    requires last < 0 || last < bound
    ensures DecreasingBelow(Renders(totalMs, end, pre, polls, last), bound)
    ensures Renders(totalMs, end, pre, polls, last) != [] ==> Renders(totalMs, end, pre, polls, last)[0].sec != last
    decreases |polls|
  {
    if polls != [] && polls[0].check < end {
      var frame := FrameAt(totalMs, end, pre, polls[0].read);
      var rest := polls[1..];
      if |polls| > 1 {
        RemainingSecondsMonotone(RemainingMs(end, polls[1].read), RemainingMs(end, polls[0].read));
      }
      assert Monotone(rest) by {
        forall i, j | 0 <= i < j < |rest| ensures rest[i].read <= rest[j].read {
          assert rest[i] == polls[i + 1] && rest[j] == polls[j + 1];
        }
      }
      if frame.sec != last {
        RendersDecrease(totalMs, end, pre, rest, frame.sec, frame.sec + 1);
        var tail := Renders(totalMs, end, pre, rest, frame.sec);
        assert DecreasingBelow(tail, frame.sec) by {
          forall a | 0 <= a < |tail| ensures tail[a].sec < frame.sec {
            if a > 0 {
              assert tail[a].sec < tail[0].sec;
            }
          }
        }
        ConsDecreasing(frame, tail, bound);
      } else {
        RendersDecrease(totalMs, end, pre, rest, last, bound);
      }
    }
  }

  /** In a whole countdown every number of seconds is rendered at most once. */
  lemma RenderedOnce(totalMs: int, end: int, pre: int, polls: seq<Poll>)
    requires Monotone(polls)
    ensures var fs := Renders(totalMs, end, pre, polls, -1);
      forall a, b :: 0 <= a < |fs| && 0 <= b < |fs| && a != b ==> fs[a].sec != fs[b].sec
  {
    if polls != [] {
      RendersDecrease(totalMs, end, pre, polls, -1, RemainingSeconds(RemainingMs(end, polls[0].read)) + 1);
    }
  }

  /** The frame of one poll shows the ceiling of the time left, its beep and its bar. */
  lemma FrameAtShows(totalMs: int, end: int, pre: int, now: int)
    ensures var frame := FrameAt(totalMs, end, pre, now);
      && frame.sec == RemainingSeconds(RemainingMs(end, now))
      && 0 <= frame.filled <= BAR_WIDTH
      && (frame.beep <==> 0 < frame.sec <= pre)
  {
  }

  /** The frame of every poll the loop body runs for, rendered or not. */
  function PollFrames(totalMs: int, end: int, pre: int, polls: seq<Poll>): seq<Frame>
    decreases |polls|
  {
    if polls == [] || polls[0].check >= end then []
    else [FrameAt(totalMs, end, pre, polls[0].read)] + PollFrames(totalMs, end, pre, polls[1..])
  }

  /** Every rendered frame is the frame of a poll made before the end was seen. */
  lemma {:induction false} RendersFrames(totalMs: int, end: int, pre: int, polls: seq<Poll>, last: int)
    ensures forall frame :: frame in Renders(totalMs, end, pre, polls, last) ==>
      frame in PollFrames(totalMs, end, pre, polls)
    decreases |polls|
  {
    if polls != [] && polls[0].check < end {
      var frame := FrameAt(totalMs, end, pre, polls[0].read);
      var next := if frame.sec != last then frame.sec else last;
      RendersFrames(totalMs, end, pre, polls[1..], next);
    }
  }

  /** The first poll always renders: the last value starts at -1 (main.cpp:589). */
  lemma FirstPollRenders(totalMs: int, end: int, pre: int, polls: seq<Poll>)
    requires polls != [] && polls[0].check < end
    ensures Renders(totalMs, end, pre, polls, -1) != []
    ensures Renders(totalMs, end, pre, polls, -1)[0] == FrameAt(totalMs, end, pre, polls[0].read)
  {
  }

  /** One poll of the loop: a frame is rendered when the seconds shown change. */
  lemma RendersStep(totalMs: int, end: int, pre: int, polls: seq<Poll>, i: nat, last: int)
    requires i < |polls| && polls[i].check < end
    ensures var frame := FrameAt(totalMs, end, pre, polls[i].read);
      Renders(totalMs, end, pre, polls[i..], last)
      == if frame.sec != last then [frame] + Renders(totalMs, end, pre, polls[i + 1..], frame.sec)
         else Renders(totalMs, end, pre, polls[i + 1..], last)
  {
    assert polls[i..][1..] == polls[i + 1..];
  }

  /** `steady_clock` counts nanoseconds. */
  const NS_PER_MS: int := 1_000_000

  const TWO_64: int := 0x1_0000_0000_0000_0000

  /** A result kept in a signed 64-bit integer, wrapped around in two's complement. */
  function Wrap64(x: int): (r: int)
    ensures -INT64_MAX - 1 <= r <= INT64_MAX
    ensures (r - x) % TWO_64 == 0
    ensures -INT64_MAX - 1 <= x <= INT64_MAX ==> r == x
  {
    (x + INT64_MAX + 1) % TWO_64 - INT64_MAX - 1
  }

  /** The largest duration whose nanosecond count fits in 64 bits: about 292 years. */
  const NS_SAFE_MS: int := INT64_MAX / NS_PER_MS

  /**
    The end instant as main.cpp:587 computes it: `milliseconds(ms)` becomes a
    count of nanoseconds in a `long long`, which wraps above NS_SAFE_MS. The
    instant is rounded down to a whole millisecond.
   */
  function EndAsWritten(start: int, ms: int): (end: int)
    ensures 0 <= ms <= NS_SAFE_MS ==> end == start + ms
  {
    start + Wrap64(ms * NS_PER_MS) / NS_PER_MS
  }

  /**
    As written, "300y" (9 460 800 000 000 ms, well below MAX_MS) wraps to an
    end before the start: the loop never runs and nothing is rendered.
   */
  lemma AsWrittenSkipsLongCountdown(start: int, pre: int, polls: seq<Poll>)
    requires polls != [] ==> polls[0].check >= start
    ensures EndAsWritten(start, 9_460_800_000_000) < start
    ensures Renders(9_460_800_000_000, EndAsWritten(start, 9_460_800_000_000), pre, polls, -1) == []
  {
    var ns := 9_460_800_000_000 * NS_PER_MS;
    assert Wrap64(ns) == ns - TWO_64;
  }

  /**
    With the exact end `start + ms`, a countdown polled first at its start
    renders first the whole duration in rounded-up seconds.
   */
  lemma ExactEndCountsDown(ms: int, start: int, pre: int, polls: seq<Poll>)
    requires 0 < ms && polls != [] && polls[0] == Poll(start, start)
    ensures var fs := Renders(ms, start + ms, pre, polls, -1);
      fs != [] && fs[0].sec == RemainingSeconds(ms) > 0
  {
    FirstPollRenders(ms, start + ms, pre, polls);
  }

  /** The time left at one poll, in milliseconds and in whole seconds (main.cpp:594-596). */
  method TimeLeft(end: int, now: int) returns (remMs: int, sec: int)
    ensures remMs == RemainingMs(end, now) && sec == RemainingSeconds(remMs)
  {
    remMs := end - now;
    if remMs < 0 {
      remMs := 0;
    }
    sec := (remMs + 999) / 1000;
  }

  /**
    The countdown loop of main.cpp:593-631 over the given polls. It stops at
    the first poll that finds the end reached, or when the polls run out.
   */
  method RunCountdown(totalMs: int, start: int, preAlarmSeconds: int, polls: seq<Poll>)
    returns (frames: seq<Frame>)
    ensures frames == Renders(totalMs, start + totalMs, preAlarmSeconds, polls, -1)
  {
    var end := start + totalMs;
    var last := -1;
    var i := 0;
    frames := [];
    while i < |polls| && polls[i].check < end
      invariant 0 <= i <= |polls|
      invariant frames + Renders(totalMs, end, preAlarmSeconds, polls[i..], last)
        == Renders(totalMs, end, preAlarmSeconds, polls, -1)
      decreases |polls| - i
    {
      var now := polls[i].read;
      var remMs, sec := TimeLeft(end, now);
      RendersStep(totalMs, end, preAlarmSeconds, polls, i, last);
      if sec != last {
        last := sec;
        var beep := preAlarmSeconds > 0 && sec > 0 && sec <= preAlarmSeconds;
        var frame := Frame(sec, beep, Fill(totalMs, remMs));
        assert frame == FrameAt(totalMs, end, preAlarmSeconds, now);
        ghost var rest := Renders(totalMs, end, preAlarmSeconds, polls[i + 1..], last);
        assert (frames + [frame]) + rest == frames + ([frame] + rest);
        frames := frames + [frame];
      }
      i := i + 1;
    }
    if i < |polls| {
      assert polls[i..] != [] && polls[i..][0].check >= end;
    } else {
      assert polls[i..] == [];
    }
  }
}
