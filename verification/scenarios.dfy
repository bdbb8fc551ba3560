/** Worked rounds on the text "cat", typed at one-second intervals. Every
    keystroke reads the clock twice; the two readings coincide except on the
    first keystroke, whose statistics are taken a millisecond after the start
    stamp. */
module Scenarios {
  import opened Snippets
  import opened Session

  /** A fresh round on the typing screen with the text "cat". */
  const Cat: App := App(Typing, 0, English, "cat", [Untyped, Untyped, Untyped],
                        0, 0, None, None, 0.0, 100.0, false)

  /** The rounds after typing "c", then "ca" and "cat", or "cx" and "cxt". */
  const AfterC: App := Cat.(charStates := [Correct, Untyped, Untyped], cursor := 1,
                            startedAt := Some(1.0), wpm := 12000.0)
  const AfterCA: App := AfterC.(charStates := [Correct, Correct, Untyped], cursor := 2,
                                wpm := 24.0)
  const AfterCAT: App := AfterCA.(charStates := [Correct, Correct, Correct], cursor := 3,
                                  wpm := 18.0, finishedAt := Some(3.0), screen := Results)
  const AfterCX: App := AfterC.(charStates := [Correct, Wrong, Untyped], cursor := 2,
                                errors := 1, wpm := 12.0, accuracy := 50.0)
  const AfterCXT: App := AfterCX.(charStates := [Correct, Wrong, Correct], cursor := 3,
                                  accuracy := 200.0 / 3.0, finishedAt := Some(3.0),
                                  screen := Results)

  /** One keystroke each, from one of the states above to the next. The
      first correct character is one fifth of a word in a thousandth of a
      second, so the rate shown after it is 12000 words per minute. */
  lemma TypeC()
    ensures CanType(Cat, 'c', 1.0)
    ensures TypeChar(Cat, 'c', 1.0, 1.001) == AfterC
  {
  }

  lemma TypeA()
    ensures CanType(AfterC, 'a', 2.0)
    ensures TypeChar(AfterC, 'a', 2.0, 2.0) == AfterCA
  {
  }

  lemma TypeLastT()
    ensures CanType(AfterCA, 't', 3.0)
    ensures TypeChar(AfterCA, 't', 3.0, 3.0) == AfterCAT
  {
  }

  /** Typing "cat" without a slip: all correct, no errors, full accuracy, and
      the results screen. */
  lemma TypedCleanly()
    ensures var a := TypeChar(TypeChar(TypeChar(Cat, 'c', 1.0, 1.001), 'a', 2.0, 2.0),
                              't', 3.0, 3.0);
            && a.charStates == [Correct, Correct, Correct]
            && a.errors == 0 && a.screen == Results && a.accuracy == 100.0
            && a.finishedAt == Some(3.0) && a.startedAt == Some(1.0)
  {
    TypeC();
    TypeA();
    TypeLastT();
  }

  lemma TypeX()
    ensures CanType(AfterC, 'x', 2.0)
    ensures TypeChar(AfterC, 'x', 2.0, 2.0) == AfterCX
  {
  }

  lemma TypeT()
    ensures CanType(AfterCX, 't', 3.0)
    ensures TypeChar(AfterCX, 't', 3.0, 3.0) == AfterCXT
  {
  }

  /** Typing "cxt": the middle position is wrong, one error, two thirds
      accuracy, and the results screen. */
  lemma TypedWithSlip()
    ensures var a := TypeChar(TypeChar(TypeChar(Cat, 'c', 1.0, 1.001), 'x', 2.0, 2.0),
                              't', 3.0, 3.0);
            && a.charStates == [Correct, Wrong, Correct]
            && a.cursor == 3 && a.errors == 1 && a.screen == Results
            && a.accuracy * 3.0 == 200.0
  {
    TypeC();
    TypeX();
    TypeT();
  }

  /** Erasing the last character of "cxt" keeps the error, because the erased
      position was correct; the finished round stays finished. */
  lemma ErasedAfterSlip()
    ensures CanErase(AfterCXT)
    ensures var b := Backspace(AfterCXT, 4.0);
            && b.cursor == 2 && b.charStates == [Correct, Wrong, Untyped] && b.errors == 1
            && b.screen == Results && b.finishedAt == Some(3.0)
  {
  }

  /** The round after a wrong first character. */
  const AfterX: App := Cat.(charStates := [Wrong, Untyped, Untyped], cursor := 1, errors := 1,
                            startedAt := Some(1.0), accuracy := 0.0)

  lemma TypeFirstX()
    ensures CanType(Cat, 'x', 1.0)
    ensures TypeChar(Cat, 'x', 1.0, 1.001) == AfterX
  {
    var judged := Cat.(charStates := [Wrong, Untyped, Untyped], cursor := 1, errors := 1,
                       startedAt := Some(1.0));
    assert Advance(Cat, 'x', 1.0) == judged;
    assert Count(judged.charStates, Correct) == 0;
    assert UpdateStats(judged, 1.001) == AfterX;
  }

  /** Accuracy is only recomputed while something is typed: a wrong first
      character erased again leaves the accuracy of the slip in place, even
      though no position is wrong any more. */
  lemma ErasedSlipKeepsAccuracy()
    ensures var a := Backspace(TypeChar(Cat, 'x', 1.0, 1.001), 2.0);
            && a.cursor == 0 && a.errors == 0 && a.accuracy == 0.0
  {
    TypeFirstX();
  }
}
