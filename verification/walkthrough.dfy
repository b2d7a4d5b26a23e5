/** A client of the session: the four-step integration lesson, played forward
    from the start screen to the end of the session, using only the
    contracts of the session's handlers. */
module Walkthrough {
  import opened LessonTypes
  import opened JsText
  import opened Playback
  import opened App

  function SubstitutionLesson(): seq<LessonStep>
  {
    [LessonStep(Write, "∫sinx cosx dx", None),
     LessonStep(Explain, "Use substitution u=sinx", None),
     LessonStep(Write, "=u du", Some(Top)),
     LessonStep(Write, "=u²/2+C", None)]
  }

  /** The reconstruction of the integration lesson at each of its steps. */
  lemma SubstitutionReplays()
    ensures var steps := SubstitutionLesson();
      Replay(steps, 0) == BoardState([EntryFor(steps, 0)], None) &&
      Replay(steps, 1) == BoardState([EntryFor(steps, 0)], Some("Use substitution u=sinx")) &&
      Replay(steps, 2) == BoardState([EntryFor(steps, 0), EntryFor(steps, 2)], None) &&
      Replay(steps, 3) == BoardState([EntryFor(steps, 0), EntryFor(steps, 2), EntryFor(steps, 3)], None)
  {
    var steps := SubstitutionLesson();
    assert Replay(steps, 0) == BoardState([EntryFor(steps, 0)], None);
    assert Replay(steps, 1) == BoardState([EntryFor(steps, 0)], Some("Use substitution u=sinx"));
    assert Replay(steps, 2) == BoardState([EntryFor(steps, 0), EntryFor(steps, 2)], None);
  }

  method SubstitutionWalkthrough()
  {
    var steps := SubstitutionLesson();
    SubstitutionReplays();
    var s := new Session();
    s.SetUserInput("Integral of sin(x)cos(x) dx");
    assert !IsJsWhitespace(s.userInput[0]);
    var request := s.BeginLesson(None);
    assert request.Some?;
    s.FinishLesson(Fetched(LessonData(steps)));
    var ok := s.SyncBoard();
    assert ok && s.index == 0 && s.board == [EntryFor(steps, 0)] && s.explanation.None?;

    s.HandleNext();
    ok := s.SyncBoard();
    assert s.index == 1 && s.board == [EntryFor(steps, 0)];
    assert s.explanation == Some("Use substitution u=sinx");

    s.HandleNext();
    ok := s.SyncBoard();
    assert s.index == 2 && |s.board| == 2 && s.explanation.None?;
    assert s.board[1] == EntryFor(steps, 2);

    s.HandleNext();
    ok := s.SyncBoard();
    assert s.index == 3 && |s.board| == 3 && IsComplete(s.lesson, s.index);

    s.HandleNext();
    assert s.lesson.None? && !s.autoPlay && s.index == 3;
  }
}
