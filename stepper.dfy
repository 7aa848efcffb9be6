/**
  The step navigator with keyboard support. Its state is one integer, the
  index of the current step, starting at 0. The Next and Previous handlers
  pass a functional update to the state cell that moves the index by one and
  stops at either end; ArrowRight and ArrowLeft run the same handlers. What
  the component displays (heading, disabled buttons, the Next/Finish label)
  is a pure function of the titles and the index.
 */
module Stepper {
  import opened Optional

  /** The update `nextStep` queues: one step forward unless at the last step. */
  function NextIndex(count: nat, prev: int): (r: int)
    ensures r == prev || r == prev + 1
    ensures r == prev + 1 <==> prev < count - 1
    ensures 0 <= prev < count ==> 0 <= r < count
  {
    if prev < count - 1 then prev + 1 else prev
  }

  /** The update `prevStep` queues: one step back unless at the first step. */
  function PrevIndex(prev: int): (r: int)
    ensures r == prev || r == prev - 1
    ensures r == prev - 1 <==> prev > 0
    ensures 0 <= prev ==> 0 <= r <= prev
  {
    if prev > 0 then prev - 1 else prev
  }

  /** The key handler: ArrowRight runs `nextStep`, then ArrowLeft runs `prevStep`. */
  function KeyIndex(count: nat, prev: int, key: string): (r: int)
    ensures key == "ArrowRight" ==> r == NextIndex(count, prev)
    ensures key == "ArrowLeft" ==> r == PrevIndex(prev)
    ensures key != "ArrowRight" && key != "ArrowLeft" ==> r == prev
  {
    var afterRight := if key == "ArrowRight" then NextIndex(count, prev) else prev;
    if key == "ArrowLeft" then PrevIndex(afterRight) else afterRight
  }

  /** The events the navigator reacts to. */
  datatype Input = NextClick | PrevClick | KeyDown(key: string)

  /** The index after one event, which sees the committed index. */
  function Apply(count: nat, current: int, input: Input): (r: int)
    ensures 0 <= current < count ==> 0 <= r < count
  {
    match input
    case NextClick => NextIndex(count, current)
    case PrevClick => PrevIndex(current)
    case KeyDown(key) => KeyIndex(count, current, key)
  }

  /** The index after a sequence of events, handled one at a time. */
  function Run(count: nat, current: int, inputs: seq<Input>): int
    decreases |inputs|
  {
    if inputs == [] then current else Run(count, Apply(count, current, inputs[0]), inputs[1..])
  }

  /** Any sequence of events from an index in range stays in range. */
  lemma {:induction false} RunStaysInBounds(count: nat, current: int, inputs: seq<Input>)
    requires 0 <= current < count
    ensures 0 <= Run(count, current, inputs) < count
    decreases |inputs|
  {
    if inputs != [] {
      RunStaysInBounds(count, Apply(count, current, inputs[0]), inputs[1..]);
    }
  }

  /** From the initial index 0, with at least one step, the index stays in range. */
  lemma ReachableInBounds(count: nat, inputs: seq<Input>)
    requires count >= 1
    ensures 0 <= Run(count, 0, inputs) < count
  {
    RunStaysInBounds(count, 0, inputs);
  }

  /** Pressing Next any number of times at the last step changes nothing. */
  lemma {:induction false} NextAtLastStaysPut(count: nat, times: nat)
    requires count >= 1
    ensures Run(count, count - 1, seq(times, _ => NextClick)) == count - 1
    decreases times
  {
    if times > 0 {
      assert seq(times, _ => NextClick)[1..] == seq(times - 1, _ => NextClick);
      NextAtLastStaysPut(count, times - 1);
    }
  }

  /** Pressing Previous any number of times at the first step changes nothing. */
  lemma {:induction false} PrevAtFirstStaysPut(count: nat, times: nat)
    ensures Run(count, 0, seq(times, _ => PrevClick)) == 0
    decreases times
  {
    if times > 0 {
      assert seq(times, _ => PrevClick)[1..] == seq(times - 1, _ => PrevClick);
      PrevAtFirstStaysPut(count, times - 1);
    }
  }

  /** The heading: the title of the current step, `undefined` when the index
      names no step. */
  function Heading(steps: seq<string>, current: int): (r: Option<string>)
    ensures r.Some? <==> 0 <= current < |steps|
    ensures r.Some? ==> r.value == steps[current]
  {
    if 0 <= current < |steps| then Some(steps[current]) else None
  }

  /** With at least one step, every reachable index has a heading. */
  lemma HeadingAlwaysShown(steps: seq<string>, inputs: seq<Input>)
    requires |steps| >= 1
    ensures Heading(steps, Run(|steps|, 0, inputs)).Some?
  {
    ReachableInBounds(|steps|, inputs);
  }

  /** Previous is disabled at index 0: exactly when `prevStep` would do nothing. */
  function PrevDisabled(current: int): (r: bool)
    ensures 0 <= current ==> (r <==> PrevIndex(current) == current)
  {
    current == 0
  }

  /** Next is disabled at the last index: for an index in range, exactly when
      `nextStep` would do nothing. */
  function NextDisabled(count: nat, current: int): (r: bool)
    ensures current <= count - 1 ==> (r <==> NextIndex(count, current) == current)
  {
    current == count - 1
  }

  /** The text of the forward button: "Finish" exactly when it is disabled. */
  function NextLabel(count: nat, current: int): (r: string)
    ensures r == "Finish" || r == "Next"
    ensures r == "Finish" <==> NextDisabled(count, current)
  {
    if current == count - 1 then "Finish" else "Next"
  }

  /** The accessible name of the forward button, which follows its text. */
  function NextAriaLabel(count: nat, current: int): (r: string)
    ensures r == "Finish process" <==> NextLabel(count, current) == "Finish"
    ensures r == "Go to next step" <==> NextLabel(count, current) == "Next"
  {
    if current == count - 1 then "Finish process" else "Go to next step"
  }

  /** With no steps Next stays enabled, although pressing it does nothing. */
  lemma EmptyStepsNextEnabledButInert()
    ensures !NextDisabled(0, 0) && NextIndex(0, 0) == 0
  {
  }

  /** Titles A, B, C: heading A at first, B after Next, A again after Previous. */
  lemma ThreeStepWalk()
    ensures Heading(["A", "B", "C"], Run(3, 0, [])) == Some("A")
    ensures Heading(["A", "B", "C"], Run(3, 0, [NextClick])) == Some("B")
    ensures Heading(["A", "B", "C"], Run(3, 0, [NextClick, PrevClick])) == Some("A")
  {
  }

  /** The component: the titles it was given and the current-step state cell. */
  class Stepper {
    const steps: seq<string>
    var currentStep: int

    constructor (steps: seq<string>)
      ensures this.steps == steps && currentStep == 0
    {
      this.steps := steps;
      currentStep := 0;
    }

    method NextStep()
      modifies this`currentStep
      ensures currentStep == NextIndex(|steps|, old(currentStep))
    {
      currentStep := NextIndex(|steps|, currentStep);
    }

    method PrevStep()
      modifies this`currentStep
      ensures currentStep == PrevIndex(old(currentStep))
    {
      currentStep := PrevIndex(currentStep);
    }

    method HandleKeyDown(key: string)
      modifies this`currentStep
      ensures currentStep == KeyIndex(|steps|, old(currentStep), key)
    {
      if key == "ArrowRight" {
        NextStep();
      }
      if key == "ArrowLeft" {
        PrevStep();
      }
    }
  }
}
