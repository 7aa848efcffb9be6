/**
  The row of step markers drawn above the wizard: one marker per step title,
  the marker of the current step highlighted and announced as the current
  step to assistive technology. A pure function of the titles and the current
  index; layout and colours are not modelled, only the facts they encode.
 */
module StepIndicators {
  import opened Optional
  import Decimal

  /** What one marker shows: its ordinal, its title, whether it is drawn in
      the highlight colour, its `aria-current` value and its `aria-label`. */
  datatype Marker = Marker(
    number: nat,
    title: string,
    highlighted: bool,
    ariaCurrent: Option<string>,
    ariaLabel: string)

  /** The accessible name of marker `number` (counting from one). */
  function AriaLabel(number: nat, title: string): string {
    "Step " + Decimal.Digits(number) + ": " + title
  }

  /** The marker for the step titled `title` at position `index`. */
  function MarkerAt(title: string, index: nat, currentStep: int): Marker {
    var isCurrent := index == currentStep;
    Marker(index + 1, title, isCurrent,
           if isCurrent then Some("step") else None,
           AriaLabel(index + 1, title))
  }

  /** The markers for `steps`, whose first element sits at position `first`
      of the whole list: the `map` over titles with their indices. */
  function MarkersFrom(steps: seq<string>, currentStep: int, first: nat): (r: seq<Marker>)
    ensures |r| == |steps|
    ensures forall k :: 0 <= k < |r| ==> r[k] == MarkerAt(steps[k], first + k, currentStep)
    decreases |steps|
  {
    if steps == [] then []
    else [MarkerAt(steps[0], first, currentStep)] + MarkersFrom(steps[1..], currentStep, first + 1)
  }

  /** The indicator row for `steps` with `currentStep` as the active index. */
  function Indicators(steps: seq<string>, currentStep: int): (r: seq<Marker>)
    ensures |r| == |steps|
    ensures forall i :: 0 <= i < |r| ==> r[i].number == i + 1 && r[i].title == steps[i]
    ensures forall i :: 0 <= i < |r| ==> (r[i].highlighted <==> i == currentStep)
    ensures forall i :: 0 <= i < |r| ==>
      (r[i].ariaCurrent.Some? <==> i == currentStep) &&
      (r[i].ariaCurrent.Some? ==> r[i].ariaCurrent.value == "step")
    ensures forall i :: 0 <= i < |r| ==>
      r[i].ariaLabel == "Step " + Decimal.Digits(i + 1) + ": " + steps[i]
  {
    MarkersFrom(steps, currentStep, 0)
  }

  /** The number of `true` entries in `bs`. */
  function CountTrue(bs: seq<bool>): nat
    decreases |bs|
  {
    if bs == [] then 0 else (if bs[0] then 1 else 0) + CountTrue(bs[1..])
  }

  /** Which markers of `ms` are highlighted, position by position. */
  function Highlights(ms: seq<Marker>): seq<bool> {
    seq(|ms|, i requires 0 <= i < |ms| => ms[i].highlighted)
  }

  lemma {:induction false} HighlightedCountFrom(steps: seq<string>, currentStep: int, first: nat)
    ensures CountTrue(Highlights(MarkersFrom(steps, currentStep, first))) ==
            if first <= currentStep < first + |steps| then 1 else 0
    decreases |steps|
  {
    if steps != [] {
      var r := MarkersFrom(steps, currentStep, first);
      assert r[1..] == MarkersFrom(steps[1..], currentStep, first + 1);
      assert Highlights(r)[1..] == Highlights(r[1..]);
      HighlightedCountFrom(steps[1..], currentStep, first + 1);
    }
  }

  /** Exactly one marker is highlighted when the current index names a step,
      and none otherwise. */
  lemma ExactlyOneHighlighted(steps: seq<string>, currentStep: int)
    ensures CountTrue(Highlights(Indicators(steps, currentStep))) ==
            if 0 <= currentStep < |steps| then 1 else 0
  {
    HighlightedCountFrom(steps, currentStep, 0);
  }

  /** No two markers carry the same accessible name, whatever the titles. */
  lemma AriaLabelsDistinct(steps: seq<string>, currentStep: int, i: nat, j: nat)
    requires i < j < |steps|
    ensures Indicators(steps, currentStep)[i].ariaLabel != Indicators(steps, currentStep)[j].ariaLabel
  {
    LabelNumber(i + 1, steps[i]);
    LabelNumber(j + 1, steps[j]);
    Decimal.DigitsInjective(i + 1, j + 1);
  }

  /** The longest run of digits at the start of `s`. */
  function LeadingDigits(s: string): (d: string)
    decreases |s|
  {
    if s == [] || !Decimal.IsDigit(s[0]) then [] else [s[0]] + LeadingDigits(s[1..])
  }

  lemma {:induction false} LeadingDigitsOf(d: string, t: string)
    requires Decimal.AllDigits(d)
    requires |t| >= 1 && !Decimal.IsDigit(t[0])
    ensures LeadingDigits(d + t) == d
    decreases |d|
  {
    if d != [] {
      assert (d + t)[1..] == d[1..] + t;
      LeadingDigitsOf(d[1..], t);
    } else {
      assert d + t == t;
    }
  }

  /** The number in an accessible name can be read back from it. */
  lemma LabelNumber(number: nat, title: string)
    ensures |AriaLabel(number, title)| > 5
    ensures LeadingDigits(AriaLabel(number, title)[5..]) == Decimal.Digits(number)
  {
    var d := Decimal.Digits(number);
    assert AriaLabel(number, title)[5..] == d + (": " + title);
    LeadingDigitsOf(d, ": " + title);
  }
}
