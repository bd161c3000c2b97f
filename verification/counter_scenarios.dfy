/**
 The event traces of the component's behavioural tests, replayed on the
 model: each lemma states what the display, the step input and the class
 name show after each trace.
 */
module CounterScenarios {
  import opened JsNumber
  import opened JsText
  import opened Counter

  /** On mount the display shows 0 with no class name, and the step input shows 1. */
  lemma MountShowsZeroAndOne()
    ensures CounterText(Mount) == "0"
    ensures InputText(Mount.step) == "1"
    ensures ClassName(Mount.counter) == ""
  {
  }

  /** Typing 5 in the step input makes the input show 5. */
  lemma ChangeInputShowsFive()
    ensures InputText(Run(Mount, [Change("5")]).step) == "5"
  {
    assert IntToText(5) == "5";
    SetStepToIntText(Mount, 5);
  }

  /** One click on `+` from mount shows 1; one click on `-` shows -1. */
  lemma OneClickFromMount()
    ensures CounterText(Run(Mount, [Plus])) == "1"
    ensures CounterText(Run(Mount, [Minus])) == "-1"
  {
    assert Run(Mount, [Plus]) == Run(Increment(Mount), []);
    assert Run(Mount, [Minus]) == Run(Decrement(Mount), []);
    assert IntToText(-1) == "-" + DecimalDigits(1);
  }

  /** With the step set to 5, one click on `+` shows 5 and one click on `-` shows -5. */
  lemma StepFiveThenOneClick()
    ensures CounterText(Run(Mount, [Change("5"), Plus])) == "5"
    ensures CounterText(Run(Mount, [Change("5"), Minus])) == "-5"
  {
    assert IntToText(5) == "5";
    assert IntToText(-5) == "-" + DecimalDigits(5);
    assert [Change("5"), Plus] == [Change("5")] + [Plus];
    assert multiset([Plus])[Minus] == 0;
    EnterStepThenClick(Mount, 5, [Plus]);
    assert Run(Mount, [Change("5"), Plus]) == State(Int(5), Int(5));
    assert [Change("5"), Minus] == [Change("5")] + [Minus];
    assert multiset([Minus])[Plus] == 0;
    EnterStepThenClick(Mount, 5, [Minus]);
    assert Run(Mount, [Change("5"), Minus]) == State(Int(-5), Int(5));
  }

  /** Entering step `n` right after mount, then clicking, shows `n` times the net number of `+` clicks. */
  lemma FromMount(n: int, clicks: seq<Event>)
    requires ClicksOnly(clicks)
    ensures Run(Mount, [Change(IntToText(n))] + clicks).counter == Int(NetClicks(clicks) * n)
  {
    EnterStepThenClick(Mount, n, clicks);
    assert Mount.counter.value == 0;
  }

  /** Four clicks on `+` and two on `-` are a click trace with two more `+` than `-`. */
  lemma FourPlusTwoMinus()
    ensures ClicksOnly([Plus, Plus, Plus, Plus, Minus, Minus])
    ensures NetClicks([Plus, Plus, Plus, Plus, Minus, Minus]) == 2
  {
    assert multiset([Plus, Plus, Plus, Plus, Minus, Minus]) == multiset{Plus, Plus, Plus, Plus, Minus, Minus};
  }

  /** Step 10, then four clicks on `+` and two on `-`: the counter is 20 and the step 10. */
  lemma StepTenFourPlusTwoMinus()
    ensures Run(Mount, [Change("10")] + [Plus, Plus, Plus, Plus, Minus, Minus]) == State(Int(20), Int(10))
  {
    assert IntToText(10) == "10";
    FourPlusTwoMinus();
    EnterStepThenClick(Mount, 10, [Plus, Plus, Plus, Plus, Minus, Minus]);
  }

  /**
   From where the previous trace ends (counter 20, step 10), step 5, then one
   click on `+` and two on `-`: the counter is 15 and the step 5. By `RunAppend`, the two lemmas
   together describe the whole trace of the add-then-subtract test.
   */
  lemma StepFiveOnePlusTwoMinus()
    ensures Run(State(Int(20), Int(10)), [Change("5")] + [Plus, Minus, Minus]) == State(Int(15), Int(5))
  {
    assert IntToText(5) == "5";
    assert NetClicks([Plus, Minus, Minus]) == -1;
    EnterStepThenClick(State(Int(20), Int(10)), 5, [Plus, Minus, Minus]);
  }

  /** The display at the two states the add-then-subtract test checks: 20, then 15. */
  lemma AddThenSubtractShows()
    ensures CounterText(State(Int(20), Int(10))) == "20"
    ensures CounterText(State(Int(15), Int(5))) == "15"
  {
    assert IntToText(20) == "20";
    assert IntToText(15) == "15";
  }

  /**
   The whole add-then-subtract test from mount: step 10, four `+`, two `-`,
   then step 5, one `+`, two `-`. The counter ends at 15, with step 5, and the
   display shows `15`.
   */
  lemma AddThenSubtractFromMount()
    ensures Run(Mount, ([Change("10")] + [Plus, Plus, Plus, Plus, Minus, Minus])
                       + ([Change("5")] + [Plus, Minus, Minus])) == State(Int(15), Int(5))
    ensures CounterText(Run(Mount, ([Change("10")] + [Plus, Plus, Plus, Plus, Minus, Minus])
                                   + ([Change("5")] + [Plus, Minus, Minus]))) == "15"
  {
    StepTenFourPlusTwoMinus();
    StepFiveOnePlusTwoMinus();
    RunAppend(Mount, [Change("10")] + [Plus, Plus, Plus, Plus, Minus, Minus], [Change("5")] + [Plus, Minus, Minus]);
    AddThenSubtractShows();
  }

  /** Entering 50 right after mount, then clicking, shows 50 times the net number of `+` clicks. */
  lemma StepFifty(clicks: seq<Event>)
    requires ClicksOnly(clicks)
    ensures Run(Mount, [Change("50")] + clicks).counter == Int(NetClicks(clicks) * 50)
  {
    assert IntToText(50) == "50";
    FromMount(50, clicks);
  }

  /** Step 50 and one `+`: the counter is 50, with no class name. */
  lemma ClassNameAtFifty()
    ensures Run(Mount, [Change("50")] + [Plus]).counter == Int(50)
    ensures ClassName(Run(Mount, [Change("50")] + [Plus]).counter) == ""
  {
    assert NetClicks([Plus]) == 1;
    StepFifty([Plus]);
  }

  /** Step 50 and two `+`: the counter is 100, green. */
  lemma ClassNameAtHundred()
    ensures Run(Mount, [Change("50")] + [Plus, Plus]).counter == Int(100)
    ensures ClassName(Run(Mount, [Change("50")] + [Plus, Plus]).counter) == "green"
  {
    assert NetClicks([Plus, Plus]) == 2;
    StepFifty([Plus, Plus]);
  }

  /** Step 50 and three `+`: the counter is 150, still green. */
  lemma ClassNameAtHundredFifty()
    ensures Run(Mount, [Change("50")] + [Plus, Plus, Plus]).counter == Int(150)
    ensures ClassName(Run(Mount, [Change("50")] + [Plus, Plus, Plus]).counter) == "green"
  {
    assert NetClicks([Plus, Plus, Plus]) == 3;
    StepFifty([Plus, Plus, Plus]);
  }

  /** Two `-` after that: the counter is back at 50, with no class name. */
  lemma ClassNameBackAtFifty()
    ensures Run(Mount, [Change("50")] + [Plus, Plus, Plus, Minus, Minus]).counter == Int(50)
    ensures ClassName(Run(Mount, [Change("50")] + [Plus, Plus, Plus, Minus, Minus]).counter) == ""
  {
    assert NetClicks([Plus, Plus, Plus, Minus, Minus]) == 1;
    StepFifty([Plus, Plus, Plus, Minus, Minus]);
  }

  /** Four more `-`: the counter is -150, red. */
  lemma ClassNameAtMinusHundredFifty()
    ensures Run(Mount, [Change("50")] + [Plus, Plus, Plus, Minus, Minus,
                                         Minus, Minus, Minus, Minus]).counter == Int(-150)
    ensures ClassName(Run(Mount, [Change("50")] + [Plus, Plus, Plus, Minus, Minus,
                                                   Minus, Minus, Minus, Minus]).counter) == "red"
  {
    assert NetClicks([Plus, Plus, Plus, Minus, Minus, Minus, Minus, Minus, Minus]) == -3;
    StepFifty([Plus, Plus, Plus, Minus, Minus, Minus, Minus, Minus, Minus]);
  }
}
