/**
  The older step navigator, the one the home page mounts. Its handlers test
  the index the component was rendered with and only then queue a `+1` or
  `-1` update of the state cell; its indicator row is drawn inline, without
  the accessibility attributes. When each click sees the committed index,
  it behaves exactly like the navigator in module Stepper.
 */
module InlineStepper {
  import opened Optional
  import Keyed = Stepper
  import StepIndicators

  /** `nextStep`: the guard reads the rendered index, the queued update
      `prev => prev + 1` applies to the pending one. */
  function GuardedNext(count: nat, rendered: int, pending: int): (r: int)
    ensures r == pending || r == pending + 1
    ensures r == pending + 1 <==> rendered < count - 1
  {
    if rendered < count - 1 then pending + 1 else pending
  }

  /** `prevStep`: the guard reads the rendered index, the queued update
      `prev => prev - 1` applies to the pending one. */
  function GuardedPrev(rendered: int, pending: int): (r: int)
    ensures r == pending || r == pending - 1
    ensures r == pending - 1 <==> rendered > 0
  {
    if rendered > 0 then pending - 1 else pending
  }

  /** The two buttons; this version has no key handler. */
  datatype Click = NextClick | PrevClick

  /** The same click as an event of the newer navigator. */
  function AsInput(c: Click): Keyed.Input {
    match c
    case NextClick => Keyed.NextClick
    case PrevClick => Keyed.PrevClick
  }

  function AsInputs(cs: seq<Click>): (r: seq<Keyed.Input>)
    decreases |cs|
  {
    if cs == [] then [] else [AsInput(cs[0])] + AsInputs(cs[1..])
  }

  /** One click handled when the rendered index is the committed one: it has
      the same effect as the newer navigator's handler. */
  function Press(count: nat, current: int, c: Click): (r: int)
    ensures r == Keyed.Apply(count, current, AsInput(c))
  {
    match c
    case NextClick => GuardedNext(count, current, current)
    case PrevClick => GuardedPrev(current, current)
  }

  /** The index after a sequence of clicks, each seeing the committed index. */
  function Run(count: nat, current: int, clicks: seq<Click>): int
    decreases |clicks|
  {
    if clicks == [] then current else Run(count, Press(count, current, clicks[0]), clicks[1..])
  }

  /** Clicks seen one at a time lead both navigators to the same index. */
  lemma {:induction false} RunAgreesWithStepper(count: nat, current: int, clicks: seq<Click>)
    ensures Run(count, current, clicks) == Keyed.Run(count, current, AsInputs(clicks))
    decreases |clicks|
  {
    if clicks != [] {
      var inputs := AsInputs(clicks);
      assert inputs[0] == AsInput(clicks[0]) && inputs[1..] == AsInputs(clicks[1..]);
      RunAgreesWithStepper(count, Press(count, current, clicks[0]), clicks[1..]);
    }
  }

  /** From index 0, with at least one step, the index stays in range. */
  lemma ReachableInBounds(count: nat, clicks: seq<Click>)
    requires count >= 1
    ensures 0 <= Run(count, 0, clicks) < count
  {
    RunAgreesWithStepper(count, 0, clicks);
    Keyed.ReachableInBounds(count, AsInputs(clicks));
  }

  /** With at least one step, every index reachable by clicks names a step,
      so the heading `steps[currentStep]` always shows a title. */
  lemma HeadingAlwaysShown(steps: seq<string>, clicks: seq<Click>)
    requires |steps| >= 1
    ensures Keyed.Heading(steps, Run(|steps|, 0, clicks)).Some?
  {
    ReachableInBounds(|steps|, clicks);
  }

  /** Two Next clicks handled within one render of index 1 of three steps both
      pass the guard and leave the index at 3, past the last step; the newer
      navigator's functional update stops at 2. */
  lemma StaleRenderOvershoots()
    ensures GuardedNext(3, 1, GuardedNext(3, 1, 1)) == 3
    ensures Keyed.NextIndex(3, Keyed.NextIndex(3, 1)) == 2
  {
  }

  /** Previous is disabled at index 0: exactly when its click would do nothing. */
  function PrevDisabled(current: int): (r: bool)
    ensures 0 <= current ==> (r <==> GuardedPrev(current, current) == current)
  {
    current == 0
  }

  /** Next is disabled at the last index: for an index in range, exactly when
      its click would do nothing. */
  function NextDisabled(count: nat, current: int): (r: bool)
    ensures current <= count - 1 ==> (r <==> Press(count, current, NextClick) == current)
  {
    current == count - 1
  }

  /** The text of the forward button: for an index in range, "Finish" exactly
      when a Next click would do nothing. */
  function NextLabel(count: nat, current: int): (r: string)
    ensures r == "Finish" || r == "Next"
    ensures current <= count - 1 ==> (r == "Finish" <==> Press(count, current, NextClick) == current)
  {
    if current == count - 1 then "Finish" else "Next"
  }

  /** What an inline marker shows: its ordinal, its title, its highlight. */
  datatype InlineMarker = InlineMarker(number: nat, title: string, highlighted: bool)

  /** The inline indicator row: `steps.map` over titles and indices. */
  function InlineIndicators(steps: seq<string>, current: int): (r: seq<InlineMarker>)
    ensures |r| == |steps|
    ensures forall i :: 0 <= i < |r| ==> r[i] == InlineMarker(i + 1, steps[i], i == current)
  {
    seq(|steps|, i requires 0 <= i < |steps| => InlineMarker(i + 1, steps[i], i == current))
  }

  /** The inline row shows what the newer indicator row shows, marker by marker. */
  lemma InlineMatchesStepIndicators(steps: seq<string>, current: int)
    ensures |InlineIndicators(steps, current)| == |StepIndicators.Indicators(steps, current)|
    ensures forall i :: 0 <= i < |steps| ==>
      var m := StepIndicators.Indicators(steps, current)[i];
      InlineIndicators(steps, current)[i] == InlineMarker(m.number, m.title, m.highlighted)
  {
  }

  /** Which inline markers of `ms` are highlighted, position by position. */
  function InlineHighlights(ms: seq<InlineMarker>): seq<bool> {
    seq(|ms|, i requires 0 <= i < |ms| => ms[i].highlighted)
  }

  /** Exactly one inline marker is highlighted when the index names a step,
      and none otherwise. */
  lemma InlineExactlyOneHighlighted(steps: seq<string>, current: int)
    ensures StepIndicators.CountTrue(InlineHighlights(InlineIndicators(steps, current))) ==
            if 0 <= current < |steps| then 1 else 0
  {
    assert InlineHighlights(InlineIndicators(steps, current)) ==
           StepIndicators.Highlights(StepIndicators.Indicators(steps, current));
    StepIndicators.ExactlyOneHighlighted(steps, current);
  }

  /** The component: the titles it was given and the current-step state cell.
      Each method handles a click against the committed index, which is then
      also the index the guard reads. */
  class Stepper {
    const steps: seq<string>
    var currentStep: int

    constructor (steps: seq<string>)
      ensures this.steps == steps && currentStep == 0
    {
      this.steps := steps;
      currentStep := 0;
    }

    method NextStep()
      modifies this`currentStep
      ensures currentStep == GuardedNext(|steps|, old(currentStep), old(currentStep))
      ensures currentStep == Keyed.NextIndex(|steps|, old(currentStep))
    {
      if currentStep < |steps| - 1 {
        currentStep := currentStep + 1;
      }
    }

    method PrevStep()
      modifies this`currentStep
      ensures currentStep == GuardedPrev(old(currentStep), old(currentStep))
      ensures currentStep == Keyed.PrevIndex(old(currentStep))
    {
      if currentStep > 0 {
        currentStep := currentStep - 1;
      }
    }
  }
}
