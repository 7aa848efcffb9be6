# react-simple-stepper, modelled in Dafny

A small React wizard: a step navigator ("Stepper") with a row of step
indicators, and an elapsed-seconds timer. Three discrete state machines sit
inside the components, and this project models them and proves their
properties:

- **The step navigator**, in two versions. `stepper.dfy` (module `Stepper`)
  is the newer component. Its Next/Previous handlers pass a clamping
  functional update to the state cell, and ArrowRight/ArrowLeft run the same
  handlers: the keys are ArrowRight and ArrowLeft, handled by the
  container's `onKeyDown` (src/components/stepper/Stepper.tsx:23-24,32).
  A step is a title string. `inline_stepper.dfy` (module `InlineStepper`) is the older
  component, the one the home page mounts. Its handlers test the rendered
  index before queuing `+1`/`-1`, and it draws its indicators inline.
  Each version is a `class` with a `currentStep` field. Its methods are
  specified by pure transition functions. The heading, the disabled flags and
  the Next/Finish label are pure functions of the titles and the index. Both
  files compute the heading as `steps[currentStep]`, modelled once as
  `Stepper.Heading`.
  A lemma shows the two versions agree when every click sees the committed
  index.
- **The step indicators** (`step_indicators.dfy`, module `StepIndicators`):
  a pure map from the titles and the current index to one marker per step.
  A marker holds its number, its title, whether it is highlighted, its
  `aria-current` and its `aria-label`.
- **The timer** (`timer.dfy`, module `Timer`): the state `(seconds,
  isRunning)` with the events Start, Pause, Reset and Tick. A Tick is one call
  of the interval callback. The class `Timer.Timer` holds the two state cells.
  The function `Timer.Step` specifies its methods. The timer counts up from
  0, one per tick.

Two helper modules support these. `optional.dfy` gives an `Option` type,
standing for a JavaScript value that may be `undefined`. `decimal.dfy`
renders a natural number the way a template literal `${n}` does, and gives
the parse that inverts it.

A TypeScript `number` is a double; every index and count the components
reach is an exact integer below 2^53, where the model's `int`/`nat` agree
with it. The indices are `int` and the step count is `nat`. `steps[currentStep]` outside the list is `undefined`, so
`Stepper.Heading` returns `None` there.

## Model

| member | source | states |
|---|---|---|
| Decimal.Digits | src/components/stepper/StepIndicators.tsx:26 | `${index + 1}`: a non-empty string of decimal digits with no leading zero |
| Decimal.ValueOfDigits | src/components/stepper/StepIndicators.tsx:26 | reading the rendered digits back gives the number, so the rendering loses nothing |
| StepIndicators.MarkersFrom | src/components/stepper/StepIndicators.tsx:14-32 | the map over titles with their indices yields one marker per title, in order, marker k built from title k at position first+k |
| StepIndicators.Indicators | src/components/stepper/StepIndicators.tsx:13-33 | exactly one marker per step, in order. Marker i shows the number i+1 and title steps[i]. It is highlighted iff i == currentStep. Its aria-current is "step" iff i == currentStep and absent otherwise. Its aria-label is "Step {i+1}: {steps[i]}" |
| StepIndicators.HighlightedCountFrom | src/components/stepper/StepIndicators.tsx:21 | a suffix of the row starting at position `first` holds one highlighted marker iff the current index falls inside it, and none otherwise |
| StepIndicators.ExactlyOneHighlighted | src/components/stepper/StepIndicators.tsx:21-25 | exactly one marker is highlighted when 0 <= currentStep < steps.length, and none otherwise |
| StepIndicators.AriaLabelsDistinct | src/components/stepper/StepIndicators.tsx:26 | no two markers have the same aria-label, whatever the titles |
| Stepper.NextIndex | src/components/stepper/Stepper.tsx:12-14 | the update moves forward by exactly one iff prev < steps.length-1 and otherwise leaves the index; it keeps an index inside [0, steps.length-1] |
| Stepper.PrevIndex | src/components/stepper/Stepper.tsx:16-18 | the update moves back by exactly one iff prev > 0 and otherwise leaves the index; it never goes below 0 from a non-negative index |
| Stepper.KeyIndex | src/components/stepper/Stepper.tsx:21-27 | ArrowRight has exactly the nextStep effect, ArrowLeft exactly the prevStep effect, and any other key leaves the index unchanged |
| Stepper.Apply | src/components/stepper/Stepper.tsx:12-27 | each event (button or key) keeps an in-range index in range |
| Stepper.RunStaysInBounds | src/components/stepper/Stepper.tsx:12-27 | any sequence of Next, Previous and key events from an in-range index stays in range |
| Stepper.ReachableInBounds | src/components/stepper/Stepper.tsx:9-27 | with at least one step, every index reachable from the initial 0 lies in [0, steps.length-1] |
| Stepper.NextAtLastStaysPut | src/components/stepper/Stepper.tsx:13 | at the last index, any number of Next presses leaves the index there |
| Stepper.PrevAtFirstStaysPut | src/components/stepper/Stepper.tsx:17 | at index 0, any number of Previous presses leaves the index there |
| Stepper.Heading | src/components/stepper/Stepper.tsx:40-41 | the heading is steps[currentStep] when the index names a step, and undefined otherwise |
| Stepper.HeadingAlwaysShown | src/components/stepper/Stepper.tsx:40-41 | with at least one step, every reachable index names a step, so a title is always shown |
| Stepper.PrevDisabled | src/components/stepper/Stepper.tsx:49 | for a non-negative index, Previous is disabled iff prevStep would be a no-op |
| Stepper.NextDisabled | src/components/stepper/Stepper.tsx:57 | for an index at most steps.length-1, Next is disabled iff nextStep would be a no-op |
| Stepper.NextLabel | src/components/stepper/Stepper.tsx:64 | the label is "Finish" or "Next", and it is "Finish" iff Next is disabled (currentStep == steps.length-1) |
| Stepper.NextAriaLabel | src/components/stepper/Stepper.tsx:58-62 | the aria-label is "Finish process" iff the label is "Finish", and "Go to next step" iff it is "Next" |
| Stepper.EmptyStepsNextEnabledButInert | src/components/stepper/Stepper.tsx:57 | with no steps, Next is not disabled, yet pressing it changes nothing |
| Stepper.ThreeStepWalk | src/components/stepper/Stepper.tsx:12-41 | for titles A, B, C the heading is A at first, B after Next, and A again after Previous |
| Stepper.Stepper.constructor | src/components/stepper/Stepper.tsx:9 | the state cell starts at index 0 |
| Stepper.Stepper.NextStep | src/components/stepper/Stepper.tsx:12-14 | the new index is NextIndex of the old one |
| Stepper.Stepper.PrevStep | src/components/stepper/Stepper.tsx:16-18 | the new index is PrevIndex of the old one |
| Stepper.Stepper.HandleKeyDown | src/components/stepper/Stepper.tsx:21-27 | the new index is KeyIndex of the old one and the key |
| InlineStepper.GuardedNext | src/components/Stepper.tsx:10-14 | the pending index moves forward by exactly one iff the rendered index is below steps.length-1, and stays otherwise |
| InlineStepper.GuardedPrev | src/components/Stepper.tsx:16-20 | the pending index moves back by exactly one iff the rendered index is above 0, and stays otherwise |
| InlineStepper.Press | src/components/Stepper.tsx:10-20 | a click that sees the committed index has the same effect as the corresponding handler of the newer navigator |
| InlineStepper.RunAgreesWithStepper | src/components/Stepper.tsx:10-20 | for every sequence of clicks, each seeing the committed index, both navigators reach the same index |
| InlineStepper.ReachableInBounds | src/components/Stepper.tsx:8-20 | with at least one step, every index reachable from 0 lies in [0, steps.length-1] |
| InlineStepper.HeadingAlwaysShown | src/components/Stepper.tsx:42 | with at least one step, every index reachable by clicks from 0 names a step, so the heading always shows a title |
| InlineStepper.StaleRenderOvershoots | src/components/Stepper.tsx:10-14 | two Next clicks handled against the same render of index 1 of three steps leave the index at 3; the newer update stops at 2 |
| InlineStepper.PrevDisabled | src/components/Stepper.tsx:51 | for a non-negative index, Previous is disabled iff its click would do nothing |
| InlineStepper.NextDisabled | src/components/Stepper.tsx:58 | for an index at most steps.length-1, Next is disabled iff its click would do nothing |
| InlineStepper.NextLabel | src/components/Stepper.tsx:60 | the label is "Finish" or "Next"; for an index at most steps.length-1 it is "Finish" iff a Next click would do nothing |
| InlineStepper.InlineIndicators | src/components/Stepper.tsx:26-37 | one inline marker per step; marker i is (i+1, steps[i], i == currentStep) |
| InlineStepper.InlineMatchesStepIndicators | src/components/Stepper.tsx:26-37 | one inline marker per step; marker i shows the same number (i+1), title (steps[i]) and highlight (i == currentStep) as the newer indicator row |
| InlineStepper.InlineExactlyOneHighlighted | src/components/Stepper.tsx:26-37 | exactly one inline marker is highlighted when the index names a step, and none otherwise |
| InlineStepper.Stepper.constructor | src/components/Stepper.tsx:8 | the state cell starts at index 0 |
| InlineStepper.Stepper.NextStep | src/components/Stepper.tsx:10-14 | the new index is GuardedNext with rendered and pending both the old index, which equals the newer NextIndex |
| InlineStepper.Stepper.PrevStep | src/components/Stepper.tsx:16-20 | the new index is GuardedPrev with rendered and pending both the old index, which equals the newer PrevIndex |
| Timer.Step | src/components/Timer.tsx:10-43 | Reset yields (0, false) from any state. No other event lowers seconds. Only a tick while running raises seconds, and then by exactly 1. A tick never changes isRunning |
| Timer.TickEnabled | src/components/Timer.tsx:10-18 | the interval is scheduled iff isRunning, which is exactly when a tick changes the state; an enabled tick adds one second |
| Timer.StartDisabled | src/components/Timer.tsx:27 | Start is disabled iff clicking it would change nothing |
| Timer.PauseDisabled | src/components/Timer.tsx:34 | Pause is disabled iff clicking it would change nothing |
| Timer.Caption | src/components/Timer.tsx:23 | the heading reads "Timer: ", then the decimal seconds with no leading zero (a leading "0" only for 0, and a single digit exactly below 10), then "s"; the digits read back as the seconds count |
| Timer.StartPauseKeepSeconds | src/components/Timer.tsx:26-33 | Start sets isRunning, Pause clears it, neither changes seconds, and each is idempotent |
| Timer.EnabledButtonToggles | src/components/Timer.tsx:26-34 | a Start or Pause click that is not disabled always flips isRunning |
| Timer.SecondsCountTicksSinceReset | src/components/Timer.tsx:4-43 | from the initial state, when every tick comes while running, seconds equals the number of ticks since the last Reset |
| Timer.SecondsMonotone | src/components/Timer.tsx:12 | with no Reset after position j, seconds at j is at most seconds at the end |
| Timer.StoppedStaysFrozen | src/components/Timer.tsx:14-18 | a stopped timer stays stopped until Start; with no Reset either, its whole state, seconds included, stays fixed |
| Timer.RunSnoc | src/components/Timer.tsx:7-19 | one more event is one more step of the state machine |
| Timer.StartTickPauseReset | src/components/Timer.tsx:4-43 | Start then three ticks gives (3, running). Pause then two ticks still gives 3 seconds. Reset gives (0, stopped) |
| Timer.Timer.constructor | src/components/Timer.tsx:4-5 | the timer mounts with seconds 0, not running |
| Timer.Timer.Start | src/components/Timer.tsx:26 | the new state is Step(old state, Start) |
| Timer.Timer.Pause | src/components/Timer.tsx:33 | the new state is Step(old state, Pause) |
| Timer.Timer.Reset | src/components/Timer.tsx:40-43 | the new state is Step(old state, Reset), that is (0, false) |
| Timer.Timer.Tick | src/components/Timer.tsx:11-13 | callable only while running; adds exactly one second and keeps the timer running |

## Left out

- JSX, Tailwind class strings and layout: presentation only. The highlight colour is kept as the boolean `highlighted`.
- React scheduling (`useState` queues, `useCallback`, `useMemo`, `useEffect`): each event is assumed to see the committed state. Batching two handler calls within one render is not modelled. `InlineStepper.StaleRenderOvershoots` shows the one case where the older navigator would then differ.
- Real-time interval behaviour: wall-clock time, the one-second period, and the effect re-creating the interval on every change of `seconds` are not modelled. A tick is a discrete event enabled only while running. The `else if (!isRunning && seconds !== 0) clearInterval(interval!)` branch (src/components/Timer.tsx:14-15) clears a `null` handle and has no effect, so it is not modelled.
- DOM wiring: focus, `tabIndex`, `role="button"` on markers and the `onKeyDown` binding. The key is a string input.
- The "Content for {title}" paragraph (src/components/stepper/Stepper.tsx:41, src/components/Stepper.tsx:43) repeats the heading's title. It is not modelled separately.
- Decimal.Digits: JavaScript switches to exponent notation for numbers of 10^21 and above, and above 2^53 it prints the shortest digits that round-trip the double. The model renders every natural number exactly, in plain digits.
- Timer.Step: on a double, `prev + 1` stops increasing at 2^53; the model's seconds never saturate, so the tick-counting lemmas hold for the source only below 2^53 ticks.
- src/pages/Home.tsx and src/features/Summary.tsx: static composition and markup with no logic.
- The empty-steps case is only noted (`Stepper.EmptyStepsNextEnabledButInert`). The enabled-iff-effective properties are stated for indices at most steps.length-1.
