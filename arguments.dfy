/**
  The command-line loop of `main` (main.cpp:404-563): options, the duration
  and the sound file, read left to right; an option that takes a value
  consumes the next argument. `args` are the arguments after the program name.
 */
module Arguments {
  import opened Wrappers
  import opened Duration
  import opened Convert
  import opened TimeParser
  import opened Target
  import opened Action

  /**
    What `--at` needs from outside the program text. `sscanf`, `localtime_s`,
    `mktime` and the system clock are not modelled; they are given here:
    `scanDate` is `Some` when "%d-%d-%d" assigns all three fields, `scanTime`
    is the count and the fields "%d:%d:%d" assigns, `todayAt` and `dateAt` are
    the instants `mktime` produces (`None` for its error -1), and `now` is the
    current instant in milliseconds.
   */
  datatype AtEnv = AtEnv(
    now: int,
    scanDate: string -> Option<(int, int, int)>,
    scanTime: string -> (int, Clock),
    todayAt: Clock -> Option<int>,
    dateAt: ((int, int, int), Clock) -> Option<int>)

  datatype Options = Options(
    noSleep: bool,
    mute: bool,
    loop: bool,
    maxLoops: int,
    showMessage: bool,
    alarmRepeat: int,
    alarmInterval: int,
    asyncSound: bool,
    useAtTime: bool,
    at: Clock,
    ms: int,
    post: PostAction,
    soundFile: string,
    preAlarmSeconds: int)

  /** The initial values of main.cpp:383-396. */
  const DEFAULTS: Options :=
    Options(false, false, false, -1, true, 1, 2, false, false, Clock(0, 0, 0), 0, NoPost, "", 0)

  /** The floors the option handling keeps (main.cpp:446-459, 543-544). */
  predicate Floors(o: Options) {
    && o.alarmRepeat >= 1
    && o.alarmInterval >= 1
    && o.preAlarmSeconds >= 0
    && (o.maxLoops == -1 || o.maxLoops > 0)
    && 0 <= o.ms <= MAX_MS
  }

  /** `v`, raised to `floor` when below it. */
  function AtLeast(v: int, floor: int): (r: int)
    ensures r >= floor && (r == v || r == floor)
  {
    if v < floor then floor else v
  }

  /** An argument that names no option; `main` refuses it when it starts with '-'. */
  predicate IsOption(arg: string) {
    |arg| > 0 && arg[0] == '-'
  }

  /** `--loop`: the next argument is taken as the count only when it is a positive number. */
  function LoopOption(o: Options, args: seq<string>, i: nat): (r: (Options, nat))
    requires i < |args|
    ensures r.0 == o.(loop := true, maxLoops := r.0.maxLoops)
    ensures r.1 == i + 2 <==> i + 1 < |args| && SafeStoi(args[i + 1], -1) > 0
    ensures r.1 == i + 2 ==> r.0.maxLoops == SafeStoi(args[i + 1], -1) > 0
    ensures r.1 != i + 2 ==> r.1 == i + 1 && r.0.maxLoops == o.maxLoops
  {
    var count := if i + 1 < |args| then SafeStoi(args[i + 1], -1) else -1;
    if count > 0 then (o.(loop := true, maxLoops := count), i + 2)
    else (o.(loop := true), i + 1)
  }

  /** The time of day `first` gives on its own (main.cpp:515-523), `None` without hours and minutes. */
  function TimeTarget(env: AtEnv, first: string): Option<Clock> {
    var (parsed, fields) := env.scanTime(first);
    TimeOnly(parsed, fields.hour, fields.minute, fields.second)
  }

  /**
    The time of day after a date (main.cpp:476-499), and whether `next` was
    taken for it: only an argument that is no option can be the time.
   */
  function DateClock(env: AtEnv, next: Option<string>): (Clock, bool) {
    AfterDate(if next.Some? && !IsOption(next.value) then Some(env.scanTime(next.value)) else None)
  }

  /**
    `--at` followed by `first` (main.cpp:469-535): a date, optionally
    followed by a time of day in the next argument, or a time of day alone.
    The answer is the time of day to count to again in later rounds, the
    duration, and whether `next` was consumed; `None` where `main` exits.
   */
  function AtOption(env: AtEnv, first: string, next: Option<string>): (r: Option<(Clock, nat, bool)>)
    ensures r.Some? ==> 0 < r.value.1 <= MAX_MS
    ensures r.Some? && r.value.2 ==> next.Some? && env.scanDate(first).Some?
    ensures env.scanDate(first).Some? ==>
      var (clock, consumed) := DateClock(env, next);
      var target := env.dateAt(env.scanDate(first).value, clock);
      && (r.Some? <==> target.Some? && target.value > env.now)
      && (r.Some? ==> r.value == (clock, Min(MAX_MS, target.value - env.now), consumed))
    ensures env.scanDate(first).None? ==>
      var clock := TimeTarget(env, first);
      && (r.Some? <==> clock.Some? && env.todayAt(clock.value).Some? && env.todayAt(clock.value).value > env.now - DAY_MS)
      && (r.Some? ==> r.value == (clock.value, UntilTime(env.now, env.todayAt(clock.value)), false))
  {
    match env.scanDate(first)
    case Some(date) =>
      var (clock, consumed) := DateClock(env, next);
      var ms := UntilDateTime(env.now, env.dateAt(date, clock));
      if ms == 0 then None else Some((clock, ms, consumed))
    case None =>
      match TimeTarget(env, first)
      case None => None
      case Some(clock) =>
        var ms := UntilTime(env.now, env.todayAt(clock));
        if ms == 0 then None else Some((clock, ms, false))
  }

  /** An argument that is not an option: a duration until `--at` is seen, else the first one is the sound file. */
  function Positional(o: Options, arg: string): (o': Options)
    ensures Floors(o) ==> Floors(o')
    ensures !o.useAtTime && TimeValue(arg) > 0 ==> o' == o.(ms := TimeValue(arg))
    ensures (o.useAtTime || TimeValue(arg) <= 0) && o.soundFile == [] ==> o' == o.(soundFile := arg)
    ensures (o.useAtTime || TimeValue(arg) <= 0) && o.soundFile != [] ==> o' == o
  {
    if !o.useAtTime then
      var possible := TimeValue(arg);
      if possible > 0 then o.(ms := possible)
      else if o.soundFile == [] then o.(soundFile := arg)
      else o
    else if o.soundFile == [] then o.(soundFile := arg)
    else o
  }

  /** The options `main` knows, each under its long and its short name. */
  datatype Name =
    | NoSleepFlag | MuteFlag | LoopFlag | NoMsgFlag | AlarmRepeatFlag | AlarmIntervalFlag
    | AsyncFlag | AtFlag | OpenFlag | CmdFlag | PreAlarmFlag | Unknown

  function NameOf(arg: string): Name {
    if arg == "--nosleep" || arg == "-ns" then NoSleepFlag
    else if arg == "--mute" || arg == "-m" then MuteFlag
    else if arg == "--loop" || arg == "-l" then LoopFlag
    else if arg == "--nomsg" then NoMsgFlag
    else if arg == "--alarm-repeat" || arg == "-ar" then AlarmRepeatFlag
    else if arg == "--alarm-interval" || arg == "-ai" then AlarmIntervalFlag
    else if arg == "--async" || arg == "-as" then AsyncFlag
    else if arg == "--at" then AtFlag
    else if arg == "--open" || arg == "-o" then OpenFlag
    else if arg == "--cmd" || arg == "-c" then CmdFlag
    else if arg == "--prealarm" || arg == "-pa" then PreAlarmFlag
    else Unknown
  }

  /** The options that take a value, given one (main.cpp:452-457, 536-544). */
  function ValueOption(o: Options, name: Name, value: string): (r: Option<Options>)
    ensures r.Some? <==> name.AlarmRepeatFlag? || name.AlarmIntervalFlag? || name.OpenFlag? || name.CmdFlag? || name.PreAlarmFlag?
    ensures r.Some? && Floors(o) ==> Floors(r.value)
    ensures name.AlarmRepeatFlag? ==> r == Some(o.(alarmRepeat := AtLeast(SafeStoi(value, 1), 1)))
    ensures name.AlarmIntervalFlag? ==> r == Some(o.(alarmInterval := AtLeast(SafeStoi(value, 2), 1)))
    ensures name.PreAlarmFlag? ==> r == Some(o.(preAlarmSeconds := AtLeast(SafeStoi(value, 0), 0)))
    ensures name.OpenFlag? ==> r == Some(o.(post := Open(value)))
    ensures name.CmdFlag? ==> r == Some(o.(post := Cmd(value)))
  {
    match name
    case AlarmRepeatFlag => Some(o.(alarmRepeat := AtLeast(SafeStoi(value, 1), 1)))
    case AlarmIntervalFlag => Some(o.(alarmInterval := AtLeast(SafeStoi(value, 2), 1)))
    case OpenFlag => Some(o.(post := Open(value)))
    case CmdFlag => Some(o.(post := Cmd(value)))
    case PreAlarmFlag => Some(o.(preAlarmSeconds := AtLeast(SafeStoi(value, 0), 0)))
    case _ => None
  }

  /** The options that take no value; `--loop` may take one. */
  function FlagStep(o: Options, name: Name, args: seq<string>, i: nat): (r: Option<(Options, nat)>)
    requires i < |args|
    ensures r.Some? ==> i < r.value.1 <= |args|
    ensures r.Some? && Floors(o) ==> Floors(r.value.0)
    ensures r.Some? <==> name.NoSleepFlag? || name.MuteFlag? || name.LoopFlag? || name.NoMsgFlag? || name.AsyncFlag?
    ensures r.Some? && !name.LoopFlag? ==> r.value.1 == i + 1
    ensures name.NoSleepFlag? ==> r.value.0 == o.(noSleep := true)
    ensures name.MuteFlag? ==> r.value.0 == o.(mute := true)
    ensures name.NoMsgFlag? ==> r.value.0 == o.(showMessage := false)
    ensures name.AsyncFlag? ==> r.value.0 == o.(asyncSound := true)
    ensures name.LoopFlag? ==> r.value == LoopOption(o, args, i)
  {
    match name
    case NoSleepFlag => Some((o.(noSleep := true), i + 1))
    case MuteFlag => Some((o.(mute := true), i + 1))
    case LoopFlag => Some(LoopOption(o, args, i))
    case NoMsgFlag => Some((o.(showMessage := false), i + 1))
    case AsyncFlag => Some((o.(asyncSound := true), i + 1))
    case _ => None
  }

  /** `--at` at argument `i`, with its text at `i + 1` and maybe a time of day at `i + 2`. */
  function AtStep(o: Options, args: seq<string>, i: nat, env: AtEnv): (r: Option<(Options, nat)>)
    requires i + 1 < |args|
    ensures r.Some? ==> i + 2 <= r.value.1 <= |args|
    ensures r.Some? ==> r.value.0 == o.(useAtTime := true, at := r.value.0.at, ms := r.value.0.ms)
    ensures r.Some? ==> 0 < r.value.0.ms <= MAX_MS
    ensures var a := AtOption(env, args[i + 1], if i + 2 < |args| then Some(args[i + 2]) else None);
      && (r.Some? <==> a.Some?)
      && (r.Some? ==> r.value.0.at == a.value.0 && r.value.0.ms == a.value.1)
      && (r.Some? ==> r.value.1 == if a.value.2 then i + 3 else i + 2)
  {
    var next := if i + 2 < |args| then Some(args[i + 2]) else None;
    match AtOption(env, args[i + 1], next)
    case None => None
    case Some((clock, ms, consumed)) =>
      Some((o.(useAtTime := true, at := clock, ms := ms), if consumed then i + 3 else i + 2))
  }

  /** The option `name` at argument `i`; an option that needs a value but comes last is unknown. */
  function OptionStep(o: Options, name: Name, args: seq<string>, i: nat, env: AtEnv): (r: Option<(Options, nat)>)
    requires i < |args|
    ensures r.Some? ==> i < r.value.1 <= |args|
    ensures r.Some? && Floors(o) ==> Floors(r.value.0)
  {
    if FlagStep(o, name, args, i).Some? then FlagStep(o, name, args, i)
    else if name.Unknown? || i + 1 == |args| then None
    else if name.AtFlag? then AtStep(o, args, i, env)
    else match ValueOption(o, name, args[i + 1])
      case None => None
      case Some(o') => Some((o', i + 2))
  }

  /**
    One turn of the loop at argument `i`: the updated options and the index
    of the next argument to read, or `None` where `main` exits with 1. Every
    option starts with '-', so an argument that does not is tested first here;
    `main` reaches the same branch after comparing it with every option. An
    option that needs a value but comes last falls through to the unknown
    option, as in `main`.
   */
  function Step(o: Options, args: seq<string>, i: nat, env: AtEnv): (r: Option<(Options, nat)>)
    requires i < |args|
    ensures r.Some? ==> i < r.value.1 <= |args|
    ensures r.Some? && Floors(o) ==> Floors(r.value.0)
  {
    if !IsOption(args[i]) then Some((Positional(o, args[i]), i + 1))
    else OptionStep(o, NameOf(args[i]), args, i, env)
  }

  /** The checks after the loop (main.cpp:557-562). */
  function Finish(o: Options): (r: Option<Options>)
    ensures r.Some? ==> r.value.useAtTime || r.value.ms > 0
  {
    if !o.useAtTime && o.ms <= 0 then None
    else Some(o.(ms := Min(o.ms, MAX_MS)))
  }

  /** The options after reading the arguments from `i` on. */
  function ParseFrom(o: Options, args: seq<string>, i: nat, env: AtEnv): (r: Option<Options>)
    requires i <= |args|
    decreases |args| - i
  {
    if i == |args| then Finish(o)
    else
      match Step(o, args, i, env)
      case None => None
      case Some((o', j)) => ParseFrom(o', args, j, env)
  }

  /** No arguments at all print the usage and exit (main.cpp:404-432). */
  function Parse(args: seq<string>, env: AtEnv): Option<Options> {
    if args == [] then None else ParseFrom(DEFAULTS, args, 0, env)
  }

  /** The floors hold for every accepted command line, and a countdown always has a duration. */
  lemma {:induction false} ParseFromFloors(o: Options, args: seq<string>, i: nat, env: AtEnv)
    requires i <= |args| && Floors(o)
    ensures var r := ParseFrom(o, args, i, env);
      r.Some? ==> Floors(r.value) && (r.value.useAtTime || r.value.ms > 0)
    decreases |args| - i
  {
    if i < |args| {
      match Step(o, args, i, env)
      case None =>
      case Some((o', j)) =>
        ParseFromFloors(o', args, j, env);
    }
  }

  lemma ParseFloors(args: seq<string>, env: AtEnv)
    ensures var r := Parse(args, env);
      r.Some? ==> Floors(r.value) && (r.value.useAtTime || r.value.ms > 0)
  {
    if args != [] {
      ParseFromFloors(DEFAULTS, args, 0, env);
    }
  }

  /** A count after `--loop` is taken only when it is a positive whole number. */
  lemma LoopCount(o: Options, args: seq<string>, i: nat, env: AtEnv)
    requires i + 1 < |args| && args[i] in {"--loop", "-l"}
    ensures var r := Step(o, args, i, env);
      && r.Some? && r.value.0.loop
      && (r.value.1 == i + 2 <==> SafeStoi(args[i + 1], -1) > 0)
      && (r.value.1 == i + 2 ==> r.value.0.maxLoops == SafeStoi(args[i + 1], -1))
      && (r.value.1 == i + 1 ==> r.value.0.maxLoops == o.maxLoops)
  {
  }

  /** `--open` and `--cmd` share one slot: whichever comes last is the action. */
  lemma LastActionWins(o: Options, args: seq<string>, i: nat, env: AtEnv)
    requires i + 1 < |args| && args[i] in {"--open", "-o", "--cmd", "-c"}
    ensures var r := Step(o, args, i, env);
      && r.Some? && r.value.1 == i + 2
      && r.value.0 == o.(post := if args[i] in {"--open", "-o"} then Open(args[i + 1]) else Cmd(args[i + 1]))
  {
    var name := NameOf(args[i]);
    assert IsOption(args[i]);
    assert name == if args[i] in {"--open", "-o"} then OpenFlag else CmdFlag;
  }

  /** An option that needs a value but comes last is refused like an unknown one. */
  lemma ValueOptionAtEnd(o: Options, args: seq<string>, env: AtEnv)
    requires |args| > 0
    requires args[|args| - 1] in {"--alarm-repeat", "-ar", "--alarm-interval", "-ai", "--at", "--open", "-o", "--cmd", "-c", "--prealarm", "-pa"}
    ensures Step(o, args, |args| - 1, env).None?
  {
    var name := NameOf(args[|args| - 1]);
    assert IsOption(args[|args| - 1]);
    assert name in {AlarmRepeatFlag, AlarmIntervalFlag, AtFlag, OpenFlag, CmdFlag, PreAlarmFlag};
  }

  /**
    After a date, `--at` takes the next argument as the time of day exactly
    when it does not start with '-' and gives at least hours and minutes.
   */
  lemma AtDateTakesTime(o: Options, args: seq<string>, i: nat, env: AtEnv)
    requires i + 2 < |args| && args[i] == "--at" && env.scanDate(args[i + 1]).Some?
    ensures var r := Step(o, args, i, env);
      r.Some? ==> (r.value.1 == i + 3 <==> !IsOption(args[i + 2]) && env.scanTime(args[i + 2]).0 >= 2)
  {
  }

  /**
    `--at` is accepted exactly when its target converts and lies ahead; it
    then switches to a wall-clock target with a positive duration.
   */
  lemma AtSetsTarget(o: Options, args: seq<string>, i: nat, env: AtEnv)
    requires i + 1 < |args| && args[i] == "--at"
    ensures var r := Step(o, args, i, env);
      var a := AtOption(env, args[i + 1], if i + 2 < |args| then Some(args[i + 2]) else None);
      && (r.Some? <==> a.Some?)
      && (r.Some? ==> r.value.0.useAtTime && 0 < r.value.0.ms <= MAX_MS && r.value.1 in {i + 2, i + 3})
      && (r.Some? ==> r.value.0.at == a.value.0 && r.value.0.ms == a.value.1)
  {
    assert IsOption(args[i]) && NameOf(args[i]) == AtFlag;
  }

  /**
    `--at` with a time of day (main.cpp:511-534): accepted exactly when the
    time gives hours and minutes and today's instant for it converts and lies
    less than a day back; the duration is then `millisecondsUntilTime`.
   */
  lemma AtTimeStep(o: Options, args: seq<string>, i: nat, env: AtEnv)
    requires i + 1 < |args| && args[i] == "--at" && env.scanDate(args[i + 1]).None?
    ensures var clock := TimeTarget(env, args[i + 1]);
      var r := Step(o, args, i, env);
      && (r.Some? <==> clock.Some? && env.todayAt(clock.value).Some? && env.todayAt(clock.value).value > env.now - DAY_MS)
      && (r.Some? ==> r.value == (o.(useAtTime := true, at := clock.value, ms := UntilTime(env.now, env.todayAt(clock.value))), i + 2))
  {
    assert IsOption(args[i]) && NameOf(args[i]) == AtFlag;
  }

  /**
    `--at` with a date (main.cpp:469-509): accepted exactly when the date and
    time convert to an instant strictly after now; the duration is the
    distance to it, saturated at MAX_MS.
   */
  lemma AtDateStep(o: Options, args: seq<string>, i: nat, env: AtEnv)
    requires i + 1 < |args| && args[i] == "--at" && env.scanDate(args[i + 1]).Some?
    ensures var (clock, consumed) := DateClock(env, if i + 2 < |args| then Some(args[i + 2]) else None);
      var target := env.dateAt(env.scanDate(args[i + 1]).value, clock);
      var r := Step(o, args, i, env);
      && (r.Some? <==> target.Some? && target.value > env.now)
      && (r.Some? ==> r.value == (o.(useAtTime := true, at := clock, ms := Min(MAX_MS, target.value - env.now)), if consumed then i + 3 else i + 2))
  {
    assert IsOption(args[i]) && NameOf(args[i]) == AtFlag;
  }

  /** The flags without a value set their field and move on by one (main.cpp:439-442, 452-453, 460-461). */
  lemma FlagsSet(o: Options, args: seq<string>, i: nat, env: AtEnv)
    requires i < |args| && args[i] in {"--nosleep", "-ns", "--mute", "-m", "--nomsg", "--async", "-as"}
    ensures Step(o, args, i, env) == Some((
      if args[i] in {"--nosleep", "-ns"} then o.(noSleep := true)
      else if args[i] in {"--mute", "-m"} then o.(mute := true)
      else if args[i] == "--nomsg" then o.(showMessage := false)
      else o.(asyncSound := true), i + 1))
  {
    assert IsOption(args[i]);
    assert NameOf(args[i]) in {NoSleepFlag, MuteFlag, NoMsgFlag, AsyncFlag};
  }

  /**
    The numeric options read their value with a fallback and raise it to a
    floor (main.cpp:454-459, 542-544), consuming the value.
   */
  lemma NumberOptionSets(o: Options, args: seq<string>, i: nat, env: AtEnv)
    requires i + 1 < |args| && args[i] in {"--alarm-repeat", "-ar", "--alarm-interval", "-ai", "--prealarm", "-pa"}
    ensures var v := args[i + 1];
      Step(o, args, i, env) == Some((
        if args[i] in {"--alarm-repeat", "-ar"} then o.(alarmRepeat := AtLeast(SafeStoi(v, 1), 1))
        else if args[i] in {"--alarm-interval", "-ai"} then o.(alarmInterval := AtLeast(SafeStoi(v, 2), 1))
        else o.(preAlarmSeconds := AtLeast(SafeStoi(v, 0), 0)), i + 2))
  {
    assert IsOption(args[i]);
    assert NameOf(args[i]) in {AlarmRepeatFlag, AlarmIntervalFlag, PreAlarmFlag};
  }

  /** Every option `main` knows, long and short. */
  const KNOWN_OPTIONS: set<string> := {
    "--nosleep", "-ns", "--mute", "-m", "--loop", "-l", "--nomsg", "--alarm-repeat", "-ar",
    "--alarm-interval", "-ai", "--async", "-as", "--at", "--open", "-o", "--cmd", "-c",
    "--prealarm", "-pa"}

  /** An argument that starts with '-' but names no option ends the program (main.cpp:545-547). */
  lemma UnknownOptionRefused(o: Options, args: seq<string>, i: nat, env: AtEnv)
    requires i < |args| && IsOption(args[i]) && args[i] !in KNOWN_OPTIONS
    ensures Step(o, args, i, env).None?
  {
    assert NameOf(args[i]) == Unknown;
  }

  /** Before `--at`, an argument that reads as a positive duration replaces the duration. */
  lemma DurationArgument(o: Options, args: seq<string>, i: nat, env: AtEnv)
    requires i < |args| && !IsOption(args[i]) && !o.useAtTime && TimeValue(args[i]) > 0
    ensures Step(o, args, i, env) == Some((o.(ms := TimeValue(args[i])), i + 1))
  {
  }

  /** The command line must give a duration or `--at`. */
  lemma NoDurationRefused(o: Options)
    requires !o.useAtTime && o.ms <= 0
    ensures Finish(o).None?
  {
  }

  /** The argument loop of main.cpp:436-555, then the checks after it. */
  method ParseArguments(args: seq<string>, env: AtEnv) returns (r: Option<Options>)
    ensures r == Parse(args, env)
    ensures r.Some? ==> Floors(r.value) && (r.value.useAtTime || r.value.ms > 0)
  {
    ParseFloors(args, env);
    if args == [] {
      return None;
    }
    var o := DEFAULTS;
    var i := 0;
    while i < |args|
      invariant i <= |args|
      invariant ParseFrom(o, args, i, env) == Parse(args, env)
      decreases |args| - i
    {
      var step := Step(o, args, i, env);
      if step.None? {
        return None;
      }
      o, i := step.value.0, step.value.1;
    }
    r := Finish(o);
  }
}
