/** The step-animation state machine of a character (`Game_Character#update_pattern`):
    which frame column (`pattern`) a walking, stopping or idling character
    shows, advanced by a counter of elapsed time (`anime_count`). */
module StepAnimation {
  import opened Text
  import opened SpriteNames

  /** Frame columns of the name's sheet as the pattern wraps them: forty for
      an idle sheet, eight otherwise. */
  function FrameCount(name: string): (n: int)
    ensures n == 40 || n == 8
    ensures n == 40 <==> Contains(name, IDLE)
  {
    if Contains(name, IDLE) then 40 else 8
  }

  /** Time one frame is shown: the engine's pattern update speed divided by
      4.25 on an idle sheet and by 8 otherwise. */
  function PatternTime(patternUpdateSpeed: real, name: string): (t: real)
    ensures 0.0 <= patternUpdateSpeed ==> 0.0 <= t <= patternUpdateSpeed / 4.25
    ensures Contains(name, IDLE) ==> t * 4.25 == patternUpdateSpeed
    ensures !Contains(name, IDLE) ==> t * 8.0 == patternUpdateSpeed
  {
    patternUpdateSpeed / (if Contains(name, IDLE) then 4.25 else 8.0)
  }

  /** What `update_pattern` changes: the frame column and the time counter. */
  datatype Frame = Frame(pattern: int, animeCount: real)

  /** What `update_pattern` reads besides the frame. */
  datatype Flags = Flags(lockPattern: bool, movedLastFrame: bool, movedThisFrame: bool,
                         stepAnime: bool, walkAnime: bool)

  /** The character has just stopped and does not animate in place. */
  predicate Stopping(flags: Flags)
  {
    !flags.lockPattern && flags.movedLastFrame && !flags.movedThisFrame && !flags.stepAnime
  }

  /** The character has just started and does not animate in place. */
  predicate Starting(flags: Flags)
  {
    !flags.lockPattern && !flags.movedLastFrame && flags.movedThisFrame && !flags.stepAnime
  }

  /** Neither locked, nor stopping, nor starting: frames advance on the timer. */
  predicate Cycling(flags: Flags)
  {
    !flags.lockPattern && !Stopping(flags) && !Starting(flags)
  }

  /** The timer step: once the counter reaches a frame's time, the pattern
      moves on one column, wrapping at n, and that time is taken off. */
  function Advance(f: Frame, patternTime: real, n: int): Frame
    requires n > 0
  {
    if f.animeCount < patternTime then f else Frame((f.pattern + 1) % n, f.animeCount - patternTime)
  }

  /** The frame after one `update_pattern`. */
  function NextFrame(f: Frame, originalPattern: int, flags: Flags, name: string, patternUpdateSpeed: real)
    : (r: Frame)
    // a locked pattern never changes
    ensures flags.lockPattern ==> r == f
    // stopping returns to the resting pattern and clears the counter
    ensures Stopping(flags) ==> r == Frame(originalPattern, 0.0)
    // starting steps once (mod 8) only with walk animation on, and clears the counter
    ensures Starting(flags) ==>
              r.animeCount == 0.0 && r.pattern == if flags.walkAnime then (f.pattern + 1) % 8 else f.pattern
    // on the timer: nothing happens before a frame's time is up; then one
    // step, wrapping at the sheet's frame count, with the remainder kept
    ensures Cycling(flags) && f.animeCount < PatternTime(patternUpdateSpeed, name) ==> r == f
    ensures Cycling(flags) && f.animeCount >= PatternTime(patternUpdateSpeed, name) ==>
              r.pattern == (f.pattern + 1) % FrameCount(name)
              && r.animeCount == f.animeCount - PatternTime(patternUpdateSpeed, name)
    // the column stays on the sheet
    ensures 0 <= f.pattern < FrameCount(name) && 0 <= originalPattern < FrameCount(name) ==>
              0 <= r.pattern < FrameCount(name)
    // the counter never grows and never goes negative
    ensures 0.0 <= patternUpdateSpeed && 0.0 <= f.animeCount ==> 0.0 <= r.animeCount <= f.animeCount
  {
    if flags.lockPattern then f
    else if flags.movedLastFrame && !flags.movedThisFrame && !flags.stepAnime then
      Frame(originalPattern, 0.0)
    else if !flags.movedLastFrame && flags.movedThisFrame && !flags.stepAnime then
      Frame(if flags.walkAnime then (f.pattern + 1) % 8 else f.pattern, 0.0)
    else Advance(f, PatternTime(patternUpdateSpeed, name), FrameCount(name))
  }

  /** The animation state of a map character. Only the fields the step
      animation and the idle selector use are modelled. */
  class Character {
    var characterName: string
    var pattern: int
    var originalPattern: int
    var animeCount: real
    var lockPattern: bool
    var stepAnime: bool
    var walkAnime: bool
    var movedLastFrame: bool
    var movedThisFrame: bool
    var moveTime: real
    var moveSpeed: int
    var moveRouteForcing: bool

    function CurrentFrame(): Frame
      reads this
    {
      Frame(pattern, animeCount)
    }

    function CurrentFlags(): Flags
      reads this
    {
      Flags(lockPattern, movedLastFrame, movedThisFrame, stepAnime, walkAnime)
    }

    /** `update_pattern`: one tick of the step animation; the engine's
        `pattern_update_speed` is passed in. */
    method UpdatePattern(patternUpdateSpeed: real)
      modifies this`pattern, this`animeCount
      ensures CurrentFrame() ==
                NextFrame(old(CurrentFrame()), originalPattern, CurrentFlags(), characterName, patternUpdateSpeed)
    {
      if lockPattern {
        return;
      }
      if movedLastFrame && !movedThisFrame && !stepAnime {
        pattern := originalPattern;
        animeCount := 0.0;
        return;
      }
      if !movedLastFrame && movedThisFrame && !stepAnime {
        if walkAnime {
          pattern := (pattern + 1) % 8;
        }
        animeCount := 0.0;
        return;
      }
      var patternTime := patternUpdateSpeed / (if Contains(characterName, IDLE) then 4.25 else 8.0);
      if animeCount < patternTime {
        return;
      }
      pattern := (pattern + 1) % (if Contains(characterName, IDLE) then 40 else 8);
      animeCount := animeCount - patternTime;
    }
  }

  /** One tick as seen by the step animation: the flags at `update_pattern`
      and the time the rest of the engine added to the counter before it. */
  datatype Tick = Tick(flags: Flags, elapsed: real)

  /** The frame after a run of ticks under one name and speed. */
  function Run(f: Frame, originalPattern: int, name: string, speed: real, ticks: seq<Tick>): Frame
    decreases |ticks|
  {
    if ticks == [] then f
    else
      var fed := Frame(f.pattern, f.animeCount + ticks[0].elapsed);
      Run(NextFrame(fed, originalPattern, ticks[0].flags, name, speed), originalPattern, name, speed, ticks[1..])
  }

  /** How many ticks of a run advanced the pattern on the timer. */
  function Advances(f: Frame, originalPattern: int, name: string, speed: real, ticks: seq<Tick>): nat
    decreases |ticks|
  {
    if ticks == [] then 0
    else
      var fed := Frame(f.pattern, f.animeCount + ticks[0].elapsed);
      (if Cycling(ticks[0].flags) && fed.animeCount >= PatternTime(speed, name) then 1 else 0)
      + Advances(NextFrame(fed, originalPattern, ticks[0].flags, name, speed), originalPattern, name, speed,
                 ticks[1..])
  }

  /** Total time added to the counter over a run. */
  function Elapsed(ticks: seq<Tick>): real
    decreases |ticks|
  {
    if ticks == [] then 0.0 else ticks[0].elapsed + Elapsed(ticks[1..])
  }

  /** Whatever the flags and the elapsed times, a pattern that starts on the
      sheet stays on it, for every number of ticks. */
  lemma {:induction false} RunStaysOnSheet(f: Frame, originalPattern: int, name: string, speed: real,
                                           ticks: seq<Tick>)
    requires 0 <= f.pattern < FrameCount(name) && 0 <= originalPattern < FrameCount(name)
    ensures 0 <= Run(f, originalPattern, name, speed, ticks).pattern < FrameCount(name)
    decreases |ticks|
  {
    if ticks != [] {
      var fed := Frame(f.pattern, f.animeCount + ticks[0].elapsed);
      RunStaysOnSheet(NextFrame(fed, originalPattern, ticks[0].flags, name, speed), originalPattern, name,
                      speed, ticks[1..]);
    }
  }

  lemma MulAtLeast(d: int, n: int)
    requires d >= 1 && n > 0
    ensures d * n >= n
  {
  }

  /** The remainder is the unique r in [0, n) with x == q * n + r. */
  lemma ModUnique(x: int, n: int, q: int, r: int)
    requires 0 <= r < n && x == q * n + r
    ensures x % n == r
  {
    var q', r' := x / n, x % n;
    assert x == q' * n + r';
    assert q * n - q' * n == (q - q') * n;
    if q > q' {
      MulAtLeast(q - q', n);
    } else if q < q' {
      MulAtLeast(q' - q, n);
    }
  }

  lemma ModSmall(p: int, n: int)
    requires 0 <= p < n
    ensures p % n == p
  {
  }

  /** One wrapped step followed by a more wraps like a + 1 steps. */
  lemma ModStep(p: int, a: nat, n: int)
    requires 0 <= p < n
    ensures ((p + 1) % n + a) % n == (p + (a + 1)) % n
    ensures 0 <= (p + 1) % n < n
  {
    if p + 1 == n {
      var q, r := a / n, a % n;
      assert a == q * n + r;
      assert n + a == (q + 1) * n + r;
      ModUnique(n + a, n, q + 1, r);
    } else {
      assert (p + 1) % n == p + 1;
    }
  }

  /** The frame after a run of ticks driven by the timer alone. */
  function TimerRun(f: Frame, patternTime: real, n: int, ticks: seq<Tick>): Frame
    requires n > 0
    decreases |ticks|
  {
    if ticks == [] then f
    else TimerRun(Advance(Frame(f.pattern, f.animeCount + ticks[0].elapsed), patternTime, n), patternTime, n,
                  ticks[1..])
  }

  /** How many ticks of a timer-driven run moved the pattern on. */
  function TimerAdvances(f: Frame, patternTime: real, n: int, ticks: seq<Tick>): nat
    requires n > 0
    decreases |ticks|
  {
    if ticks == [] then 0
    else
      var fed := Frame(f.pattern, f.animeCount + ticks[0].elapsed);
      (if fed.animeCount >= patternTime then 1 else 0) + TimerAdvances(Advance(fed, patternTime, n), patternTime, n,
                                                                       ticks[1..])
  }

  /** The ticks after the first are timer-driven when all are. */
  lemma AllCyclingTail(ticks: seq<Tick>)
    requires |ticks| > 0 && forall i :: 0 <= i < |ticks| ==> Cycling(ticks[i].flags)
    ensures forall i :: 0 <= i < |ticks[1..]| ==> Cycling(ticks[1..][i].flags)
  {
    forall i | 0 <= i < |ticks[1..]| ensures Cycling(ticks[1..][i].flags) {
      assert ticks[1..][i] == ticks[i + 1];
    }
  }

  /** When every tick is timer-driven, `update_pattern` run tick by tick is
      the timer run for the name's frame time and frame count. */
  lemma {:induction false} CyclingRunIsTimerRun(f: Frame, originalPattern: int, name: string, speed: real,
                                                ticks: seq<Tick>)
    requires forall i :: 0 <= i < |ticks| ==> Cycling(ticks[i].flags)
    ensures Run(f, originalPattern, name, speed, ticks)
            == TimerRun(f, PatternTime(speed, name), FrameCount(name), ticks)
    ensures Advances(f, originalPattern, name, speed, ticks)
            == TimerAdvances(f, PatternTime(speed, name), FrameCount(name), ticks)
    decreases |ticks|
  {
    if ticks != [] {
      var fed := Frame(f.pattern, f.animeCount + ticks[0].elapsed);
      AllCyclingTail(ticks);
      CyclingRunIsTimerRun(NextFrame(fed, originalPattern, ticks[0].flags, name, speed), originalPattern, name,
                           speed, ticks[1..]);
    }
  }

  /** The time k advances take off the counter. */
  function Spent(k: nat, patternTime: real): (t: real)
    ensures t == k as real * patternTime
  {
    if k == 0 then 0.0 else Spent(k - 1, patternTime) + patternTime
  }

  /** No time is lost on the timer: the counter left over plus the time the
      advances took off equals the counter at the start plus all the time
      added. */
  lemma {:induction false} TimerKeepsRemainder(f: Frame, patternTime: real, n: int, ticks: seq<Tick>)
    requires n > 0
    ensures TimerRun(f, patternTime, n, ticks).animeCount + Spent(TimerAdvances(f, patternTime, n, ticks), patternTime)
            == f.animeCount + Elapsed(ticks)
    decreases |ticks|
  {
    if ticks != [] {
      var fed := Frame(f.pattern, f.animeCount + ticks[0].elapsed);
      var g := Advance(fed, patternTime, n);
      TimerKeepsRemainder(g, patternTime, n, ticks[1..]);
    }
  }

  /** On the timer, the pattern has moved on by the number of advances,
      wrapping at n. */
  lemma {:induction false} TimerCountsAdvances(f: Frame, patternTime: real, n: int, ticks: seq<Tick>)
    requires 0 <= f.pattern < n
    ensures TimerRun(f, patternTime, n, ticks).pattern == (f.pattern + TimerAdvances(f, patternTime, n, ticks)) % n
    decreases |ticks|
  {
    if ticks == [] {
      ModSmall(f.pattern, n);
    } else {
      var fed := Frame(f.pattern, f.animeCount + ticks[0].elapsed);
      var g := Advance(fed, patternTime, n);
      var rest := ticks[1..];
      var m := TimerAdvances(g, patternTime, n, rest);
      assert TimerRun(f, patternTime, n, ticks) == TimerRun(g, patternTime, n, rest);
      if fed.animeCount >= patternTime {
        ModStep(f.pattern, m, n);
        TimerCountsAdvances(g, patternTime, n, rest);
        assert TimerAdvances(f, patternTime, n, ticks) == m + 1;
      } else {
        assert g == fed;
        TimerCountsAdvances(g, patternTime, n, rest);
        assert TimerAdvances(f, patternTime, n, ticks) == m;
      }
    }
  }

  /** While every tick is timer-driven, no time is lost: the counter left
      over plus one frame time per advance equals the counter at the start
      plus all the time added. */
  lemma CyclingKeepsTime(f: Frame, originalPattern: int, name: string, speed: real, ticks: seq<Tick>)
    requires forall i :: 0 <= i < |ticks| ==> Cycling(ticks[i].flags)
    ensures Run(f, originalPattern, name, speed, ticks).animeCount
            + Spent(Advances(f, originalPattern, name, speed, ticks), PatternTime(speed, name))
            == f.animeCount + Elapsed(ticks)
  {
    var pt, n := PatternTime(speed, name), FrameCount(name);
    CyclingRunIsTimerRun(f, originalPattern, name, speed, ticks);
    TimerKeepsRemainder(f, pt, n, ticks);
  }

  /** While every tick is timer-driven, the pattern moves on once per
      advance, wrapping at the sheet's frame count. */
  lemma CyclingCountsFrames(f: Frame, originalPattern: int, name: string, speed: real, ticks: seq<Tick>)
    requires forall i :: 0 <= i < |ticks| ==> Cycling(ticks[i].flags)
    requires 0 <= f.pattern < FrameCount(name)
    ensures Run(f, originalPattern, name, speed, ticks).pattern
            == (f.pattern + Advances(f, originalPattern, name, speed, ticks)) % FrameCount(name)
  {
    var pt, n := PatternTime(speed, name), FrameCount(name);
    CyclingRunIsTimerRun(f, originalPattern, name, speed, ticks);
    TimerCountsAdvances(f, pt, n, ticks);
    var r, k := Run(f, originalPattern, name, speed, ticks), Advances(f, originalPattern, name, speed, ticks);
    assert r == TimerRun(f, pt, n, ticks);
    assert k == TimerAdvances(f, pt, n, ticks);
    assert r.pattern == (f.pattern + k) % n;
  }
}
