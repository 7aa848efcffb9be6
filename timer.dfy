/**
  The elapsed-seconds timer: a count of seconds and a running flag, changed
  by the Start, Pause and Reset buttons and by the interval callback that the
  component keeps scheduled while the timer runs. A tick is one call of that
  callback; wall-clock time and the one-second period are not modelled.
 */
module Timer {
  import Decimal

  datatype TimerState = TimerState(seconds: nat, isRunning: bool)

  datatype Event = Start | Pause | Reset | Tick

  /** The state the component mounts with. */
  const Initial: TimerState := TimerState(0, false)

  /** One event. A tick on a stopped timer stands for an interval that has
      already been cancelled, and changes nothing. */
  function Step(s: TimerState, e: Event): (r: TimerState)
    ensures e.Reset? ==> r == Initial
    ensures !e.Reset? ==> r.seconds >= s.seconds
    ensures r.seconds > s.seconds ==> e.Tick? && s.isRunning && r.seconds == s.seconds + 1
    ensures e.Tick? ==> r.isRunning == s.isRunning
  {
    match e
    case Start => s.(isRunning := true)
    case Pause => s.(isRunning := false)
    case Reset => Initial
    case Tick => if s.isRunning then s.(seconds := s.seconds + 1) else s
  }

  /** Whether the interval callback is scheduled: exactly when a tick would
      change the state, by one second. */
  function TickEnabled(s: TimerState): (r: bool)
    ensures r <==> Step(s, Tick) != s
    ensures r ==> Step(s, Tick).seconds == s.seconds + 1
  {
    s.isRunning
  }

  /** Start is disabled while running: exactly when clicking it would change nothing. */
  function StartDisabled(s: TimerState): (r: bool)
    ensures r <==> Step(s, Start) == s
  {
    s.isRunning
  }

  /** Pause is disabled while stopped: exactly when clicking it would change nothing. */
  function PauseDisabled(s: TimerState): (r: bool)
    ensures r <==> Step(s, Pause) == s
  {
    !s.isRunning
  }

  /** The heading `Timer: {seconds}s`; the count can be read back from it. */
  function Caption(s: TimerState): (r: string)
    ensures |r| >= 9 && r[..7] == "Timer: " && r[|r| - 1] == 's'
    ensures Decimal.AllDigits(r[7..|r| - 1]) && Decimal.Value(r[7..|r| - 1]) == s.seconds
    ensures r[7] == '0' <==> s.seconds == 0
    ensures |r| == 9 <==> s.seconds < 10
  {
    var d := Decimal.Digits(s.seconds);
    var r := "Timer: " + d + "s";
    assert r[7..|r| - 1] == d;
    Decimal.ValueOfDigits(s.seconds);
    r
  }

  /** Start and Pause only set the flag; Start twice is Start once. */
  lemma StartPauseKeepSeconds(s: TimerState)
    ensures Step(s, Start) == TimerState(s.seconds, true)
    ensures Step(s, Pause) == TimerState(s.seconds, false)
    ensures Step(Step(s, Start), Start) == Step(s, Start)
    ensures Step(Step(s, Pause), Pause) == Step(s, Pause)
  {
  }

  /** An enabled button always flips the running flag. */
  lemma EnabledButtonToggles(s: TimerState)
    ensures !StartDisabled(s) ==> Step(s, Start).isRunning != s.isRunning
    ensures !PauseDisabled(s) ==> Step(s, Pause).isRunning != s.isRunning
  {
  }

  /** The state after a sequence of events, the last one handled last. */
  function Run(s: TimerState, es: seq<Event>): TimerState
    decreases |es|
  {
    if es == [] then s else Step(Run(s, es[..|es| - 1]), es[|es| - 1])
  }

  /** Every tick in `es` comes while the timer runs, as the interval is only
      scheduled then. */
  predicate TicksWhileRunning(s: TimerState, es: seq<Event>)
    decreases |es|
  {
    es == [] ||
    (TicksWhileRunning(s, es[..|es| - 1]) &&
     (es[|es| - 1].Tick? ==> Run(s, es[..|es| - 1]).isRunning))
  }

  /** The number of ticks after the last Reset in `es`. */
  function TicksSinceReset(es: seq<Event>): nat
    decreases |es|
  {
    if es == [] then 0
    else match es[|es| - 1]
      case Reset => 0
      case Tick => TicksSinceReset(es[..|es| - 1]) + 1
      case _ => TicksSinceReset(es[..|es| - 1])
  }

  /** From mounting, the count is the number of ticks since the last Reset. */
  lemma {:induction false} SecondsCountTicksSinceReset(es: seq<Event>)
    requires TicksWhileRunning(Initial, es)
    ensures Run(Initial, es).seconds == TicksSinceReset(es)
    decreases |es|
  {
    if es != [] {
      SecondsCountTicksSinceReset(es[..|es| - 1]);
    }
  }

  /** Without a Reset in between, the count never decreases. */
  lemma {:induction false} SecondsMonotone(s: TimerState, es: seq<Event>, j: nat)
    requires j <= |es| && Reset !in es[j..]
    ensures Run(s, es[..j]).seconds <= Run(s, es).seconds
    decreases |es|
  {
    if j < |es| {
      var init := es[..|es| - 1];
      assert init[..j] == es[..j];
      assert es[j..] == init[j..] + [es[|es| - 1]];
      SecondsMonotone(s, init, j);
    } else {
      assert es[..j] == es;
    }
  }

  /** A stopped timer stays stopped until Start, and its count stays fixed
      until Start or Reset; in particular no tick is enabled meanwhile. */
  lemma {:induction false} StoppedStaysFrozen(s: TimerState, es: seq<Event>)
    requires !s.isRunning && Start !in es
    ensures !Run(s, es).isRunning
    ensures Reset !in es ==> Run(s, es) == s
    decreases |es|
  {
    if es != [] {
      var init := es[..|es| - 1];
      assert es == init + [es[|es| - 1]];
      StoppedStaysFrozen(s, init);
    }
  }

  /** Appending one event applies one more step. */
  lemma RunSnoc(s: TimerState, es: seq<Event>, e: Event)
    ensures Run(s, es + [e]) == Step(Run(s, es), e)
  {
    assert (es + [e])[..|es|] == es;
  }

  /** Start, three ticks: 3 seconds and running. Pause, two more ticks: still
      3 seconds. Reset: back to the initial state. */
  lemma StartTickPauseReset()
    ensures Run(Initial, [Start, Tick, Tick, Tick]) == TimerState(3, true)
    ensures Run(Initial, [Start, Tick, Tick, Tick, Pause, Tick, Tick]) == TimerState(3, false)
    ensures Run(Initial, [Start, Tick, Tick, Tick, Pause, Tick, Tick, Reset]) == Initial
  {
    RunSnoc(Initial, [], Start);
    assert [] + [Start] == [Start];
    RunSnoc(Initial, [Start], Tick);
    assert [Start] + [Tick] == [Start, Tick];
    RunSnoc(Initial, [Start, Tick], Tick);
    assert [Start, Tick] + [Tick] == [Start, Tick, Tick];
    RunSnoc(Initial, [Start, Tick, Tick], Tick);
    assert [Start, Tick, Tick] + [Tick] == [Start, Tick, Tick, Tick];
    RunSnoc(Initial, [Start, Tick, Tick, Tick], Pause);
    assert [Start, Tick, Tick, Tick] + [Pause] == [Start, Tick, Tick, Tick, Pause];
    RunSnoc(Initial, [Start, Tick, Tick, Tick, Pause], Tick);
    assert [Start, Tick, Tick, Tick, Pause] + [Tick] == [Start, Tick, Tick, Tick, Pause, Tick];
    RunSnoc(Initial, [Start, Tick, Tick, Tick, Pause, Tick], Tick);
    assert [Start, Tick, Tick, Tick, Pause, Tick] + [Tick] == [Start, Tick, Tick, Tick, Pause, Tick, Tick];
    RunSnoc(Initial, [Start, Tick, Tick, Tick, Pause, Tick, Tick], Reset);
    assert [Start, Tick, Tick, Tick, Pause, Tick, Tick] + [Reset] == [Start, Tick, Tick, Tick, Pause, Tick, Tick, Reset];
  }

  /** The component: its two state cells. */
  class Timer {
    var seconds: nat
    var isRunning: bool

    function State(): TimerState
      reads this
    {
      TimerState(seconds, isRunning)
    }

    constructor ()
      ensures State() == Initial
    {
      seconds := 0;
      isRunning := false;
    }

    method Start()
      modifies this
      ensures State() == Step(old(State()), Event.Start)
    {
      isRunning := true;
    }

    method Pause()
      modifies this
      ensures State() == Step(old(State()), Event.Pause)
    {
      isRunning := false;
    }

    method Reset()
      modifies this
      ensures State() == Step(old(State()), Event.Reset)
    {
      seconds := 0;
      isRunning := false;
    }

    /** One call of the interval callback, which exists only while running. */
    method Tick()
      requires isRunning
      modifies this
      ensures State() == Step(old(State()), Event.Tick)
      ensures seconds == old(seconds) + 1 && isRunning
    {
      seconds := seconds + 1;
    }
  }
}
