/**
 The state machine of the `Counter` component, apart from its rendering: a
 counter value and a step value, the `+` and `-` buttons that add and
 subtract the step, the step input whose text goes through `parseInt`, and
 the class name the counter display gets from the counter's value.
 */
module Counter {
  import opened JsNumber
  import opened JsText

  /** The component's two pieces of state. */
  datatype State = State(counter: Num, step: Num)

  /** What the user can do to the mounted component. */
  datatype Event =
    | Plus                  // a click on the `+` button
    | Minus                 // a click on the `-` button
    | Change(text: string)  // a change event of the step input, carrying its new text

  /** The state right after mounting: `useState(0)` and `useState(1)`. */
  const Mount: State := State(Int(0), Int(1))

  /** The `+` button: the counter grows by the step; a NaN on either side makes the counter NaN. */
  function Increment(st: State): (r: State)
    ensures r.step == st.step
    ensures r.counter.Int? <==> st.counter.Int? && st.step.Int?
    ensures r.counter.Int? ==> r.counter.value == st.counter.value + st.step.value
  {
    st.(counter := Add(st.counter, st.step))
  }

  /** The `-` button: the counter shrinks by the step; a NaN on either side makes the counter NaN. */
  function Decrement(st: State): (r: State)
    ensures r.step == st.step
    ensures r.counter.Int? <==> st.counter.Int? && st.step.Int?
    ensures r.counter.Int? ==> r.counter.value == st.counter.value - st.step.value
  {
    st.(counter := Sub(st.counter, st.step))
  }

  /** A change of the step input: the step becomes `parseInt` of the new text; the counter is not touched. */
  function SetStep(st: State, text: string): (r: State)
    ensures r.counter == st.counter
    ensures r.step == ParseInt(text)
  {
    st.(step := ParseInt(text))
  }

  /**
   The class name of the counter display: `"green"` from 100 up, `"red"` from
   -100 down, none in between. A NaN counter fails both comparisons.
   */
  function ClassName(counter: Num): (r: string)
    ensures r == "green" <==> counter.Int? && counter.value >= 100
    ensures r == "red" <==> counter.Int? && counter.value <= -100
    ensures r == "" <==> counter.Invalid? || -100 < counter.value < 100
  {
    if AtLeast(counter, 100) then "green" else if AtMost(counter, -100) then "red" else ""
  }

  /**
   The text of the counter display. It reads back, through `parseInt`, as
   the counter it shows, and it is `"NaN"` exactly when the counter is NaN.
   */
  function CounterText(st: State): (r: string)
    ensures ParseInt(r) == st.counter
    ensures r == "NaN" <==> st.counter.Invalid?
  {
    match st.counter
    case Int(n) => ParseIntToTextRoundTrip(n); IntToText(n)
    case Invalid => ParseIntWithoutDigitIsInvalid("NaN"); NumberToText(st.counter)
  }

  /**
   The text the step input shows once it is rendered from the step: the
   decimal text of an integer step, and the empty text for a NaN step, since
   a number input's value sanitization (HTML standard, section 4.10.5.1.12)
   empties any text that is not a valid floating-point number, such as
   `"NaN"`. Either way the text parses back to the step the component holds.
   */
  function InputText(step: Num): (r: string)
    ensures ParseInt(r) == step
  {
    match step
    case Int(n) => ParseIntToTextRoundTrip(n); IntToText(n)
    case Invalid => ParseIntWithoutDigitIsInvalid(""); ""
  }

  /**
   One event handled by the component: a click moves only the counter, a
   change of the step input moves only the step.
   */
  function Apply(st: State, e: Event): (r: State)
    ensures e.Plus? ==> r == State(Add(st.counter, st.step), st.step)
    ensures e.Minus? ==> r == State(Sub(st.counter, st.step), st.step)
    ensures e.Change? ==> r == State(st.counter, ParseInt(e.text))
  {
    match e
    case Plus => Increment(st)
    case Minus => Decrement(st)
    case Change(text) => SetStep(st, text)
  }

  /**
   A sequence of events handled in order, the first one first. Clicks alone
   never change the step, and a NaN counter stays NaN whatever happens.
   */
  function Run(st: State, es: seq<Event>): (r: State)
    ensures ClicksOnly(es) ==> r.step == st.step
    ensures st.counter.Invalid? ==> r.counter.Invalid?
    decreases |es|
  {
    if es == [] then st else Run(Apply(st, es[0]), es[1..])
  }

  /** `n` copies of the event `e`. */
  function Repeat(e: Event, n: nat): (es: seq<Event>)
    ensures |es| == n
    ensures forall i :: 0 <= i < n ==> es[i] == e
  {
    if n == 0 then [] else Repeat(e, n - 1) + [e]
  }

  /** A trace made of button clicks only, with no change of the step input. */
  predicate ClicksOnly(es: seq<Event>) {
    forall i :: 0 <= i < |es| ==> !es[i].Change?
  }

  /**
   The step in force after `es`: the parse of the text of the last change
   event in `es`, or `initial` when there is none. Defined from the end of
   the trace, independently of `Run`.
   */
  function StepAfter(initial: Num, es: seq<Event>): Num
    decreases |es|
  {
    if es == [] then initial
    else if es[|es| - 1].Change? then ParseInt(es[|es| - 1].text)
    else StepAfter(initial, es[..|es| - 1])
  }

  /** Handling two traces one after the other is handling their concatenation. */
  lemma {:induction false} RunAppend(st: State, a: seq<Event>, b: seq<Event>)
    ensures Run(st, a + b) == Run(Run(st, a), b)
    decreases |a|
  {
    if a == [] {
      assert a + b == b;
    } else {
      assert (a + b)[0] == a[0];
      assert (a + b)[1..] == a[1..] + b;
      RunAppend(Apply(st, a[0]), a[1..], b);
    }
  }

  /** With an integer step, `+` then `-`, or `-` then `+`, gives back the state it started from. */
  lemma IncrementDecrementCancel(st: State)
    requires st.step.Int?
    ensures Decrement(Increment(st)) == st
    ensures Increment(Decrement(st)) == st
  {
  }

  /** The number of `+` clicks minus the number of `-` clicks in `es`. */
  function NetClicks(es: seq<Event>): int {
    multiset(es)[Plus] as int - multiset(es)[Minus] as int
  }

  /** Dropping the first event of a click trace leaves a click trace, with one click fewer in the net count. */
  lemma ClicksOnlyTail(es: seq<Event>)
    requires es != [] && ClicksOnly(es)
    ensures ClicksOnly(es[1..])
    ensures NetClicks(es) == NetClicks(es[1..]) + (if es[0] == Plus then 1 else -1)
  {
    assert es == [es[0]] + es[1..];
    assert multiset(es) == multiset{es[0]} + multiset(es[1..]);
    assert forall i :: 0 <= i < |es[1..]| ==> es[1..][i] == es[i + 1];
  }

  /**
   A trace of clicks moves an integer counter by the number of `+` clicks
   minus the number of `-` clicks, times the step, whatever their order; the
   step stays. With a NaN counter or a NaN step, a single click leaves the
   counter NaN.
   */
  lemma {:induction false} RunClicks(st: State, es: seq<Event>)
    requires ClicksOnly(es)
    ensures Run(st, es).step == st.step
    ensures st.counter.Int? && st.step.Int? ==>
      Run(st, es).counter == Int(st.counter.value + NetClicks(es) * st.step.value)
    ensures (st.counter.Invalid? || st.step.Invalid?) && es != [] ==> Run(st, es).counter == Invalid
    decreases |es|
  {
    if es != [] {
      var next := Apply(st, es[0]);
      ClicksOnlyTail(es);
      RunClicks(next, es[1..]);
      if st.counter.Int? && st.step.Int? {
        var c, s, k := st.counter.value, st.step.value, NetClicks(es[1..]);
        var d := if es[0] == Plus then 1 else -1;
        assert next.counter == Int(c + d * s);
        assert (c + d * s) + k * s == c + (k + d) * s by {
          assert (k + d) * s == k * s + d * s;
        }
      }
    }
  }

  /** Two click traces with the same number of `+` and of `-` clicks end in the same state. */
  lemma RunClicksOrderIrrelevant(st: State, es: seq<Event>, es': seq<Event>)
    requires ClicksOnly(es) && ClicksOnly(es')
    requires multiset(es) == multiset(es')
    ensures Run(st, es) == Run(st, es')
  {
    RunClicks(st, es);
    RunClicks(st, es');
    assert |es| == |multiset(es)| == |es'|;
  }

  /** `n` clicks on `+` add `n` times an integer step to an integer counter. */
  lemma {:induction false} RunPlus(st: State, n: nat)
    requires st.counter.Int? && st.step.Int?
    ensures Run(st, Repeat(Plus, n)) == State(Int(st.counter.value + n * st.step.value), st.step)
  {
    if n > 0 {
      RunPlus(st, n - 1);
      RunAppend(st, Repeat(Plus, n - 1), [Plus]);
      assert Run(st, Repeat(Plus, n)).counter.value == st.counter.value + (n - 1) * st.step.value + st.step.value;
    }
  }

  /** `n` clicks on `-` subtract `n` times an integer step from an integer counter. */
  lemma {:induction false} RunMinus(st: State, n: nat)
    requires st.counter.Int? && st.step.Int?
    ensures Run(st, Repeat(Minus, n)) == State(Int(st.counter.value - n * st.step.value), st.step)
  {
    if n > 0 {
      RunMinus(st, n - 1);
      RunAppend(st, Repeat(Minus, n - 1), [Minus]);
      assert Run(st, Repeat(Minus, n)).counter.value == st.counter.value - (n - 1) * st.step.value - st.step.value;
    }
  }

  /** From mount, `n` clicks on `+` show the counter `n`. */
  lemma MountThenPlus(n: nat)
    ensures Run(Mount, Repeat(Plus, n)).counter == Int(n)
    ensures CounterText(Run(Mount, Repeat(Plus, n))) == IntToText(n)
  {
    RunPlus(Mount, n);
  }

  /** The step after any trace is the parse of the last step text entered, or the step it started with. */
  lemma {:induction false} RunStep(st: State, es: seq<Event>)
    ensures Run(st, es).step == StepAfter(st.step, es)
    decreases |es|
  {
    if es != [] {
      var init := es[..|es| - 1];
      var last := es[|es| - 1];
      assert es == init + [last];
      RunAppend(st, init, [last]);
      RunStep(st, init);
    }
  }

  /**
   Once the counter is NaN it stays NaN, whatever happens (the contract of
   `Run`), so it has no class name and the display shows `NaN`.
   */
  lemma InvalidCounterStays(st: State, es: seq<Event>)
    requires st.counter.Invalid?
    ensures Run(st, es).counter == Invalid
    ensures ClassName(Run(st, es).counter) == ""
    ensures CounterText(Run(st, es)) == "NaN"
  {
  }

  /** Entering the decimal text of an integer sets the step to that integer, the counter unchanged. */
  lemma SetStepToIntText(st: State, n: int)
    ensures SetStep(st, IntToText(n)) == State(st.counter, Int(n))
  {
    ParseIntToTextRoundTrip(n);
  }

  /** Entering a text without any decimal digit, the empty text included, sets the step to NaN. */
  lemma SetStepWithoutDigit(st: State, text: string)
    requires forall i :: 0 <= i < |text| ==> !IsDecimalDigit(text[i])
    ensures SetStep(st, text) == State(st.counter, Invalid)
  {
    ParseIntWithoutDigitIsInvalid(text);
  }

  /**
   Entering the decimal text of an integer `n` in the step input and then
   clicking moves an integer counter by `n` times the net number of `+` clicks.
   */
  lemma EnterStepThenClick(st: State, n: int, clicks: seq<Event>)
    requires st.counter.Int?
    requires ClicksOnly(clicks)
    ensures Run(st, [Change(IntToText(n))] + clicks) == State(Int(st.counter.value + NetClicks(clicks) * n), Int(n))
  {
    RunAppend(st, [Change(IntToText(n))], clicks);
    SetStepToIntText(st, n);
    RunClicks(SetStep(st, IntToText(n)), clicks);
  }
}
