/** Concrete sessions driven through the handlers, with the outcomes they must have. */
module Scenarios {
  import opened Types
  import opened Geometry
  import opened SessionSpec
  import Quiz
  import Zones
  import Lessons
  import Answer
  import Text

  /** The three noun-gender zones laid out side by side, 100 wide and 140 high. */
  function GenderZoneEntries(): seq<ZoneEntry> {
    [ ZoneEntry("m", Some(Rect(0, 400, 100, 540))),
      ZoneEntry("f", Some(Rect(110, 400, 210, 540))),
      ZoneEntry("n", Some(Rect(220, 400, 320, 540))) ]
  }

  /** The three entries register exactly the noun-gender lesson's zones. */
  lemma GenderEntriesAreZones()
    ensures forall e :: e in GenderZoneEntries() ==> e.id in LessonZoneIds(Zones.NounGenderId)
    ensures (set e | e in GenderZoneEntries() :: e.id) == LessonZoneIds(Zones.NounGenderId)
  {
    Zones.ZoneIdSets();
    var zones := GenderZoneEntries();
    assert forall e :: e in zones ==> e == zones[0] || e == zones[1] || e == zones[2];
    assert zones[0].id == "m" && zones[1].id == "f" && zones[2].id == "n";
  }

  /** The card at rest, centred at (160, 100). */
  const CardAtRest := Rect(70, 70, 250, 130)

  /** Moved by (-110, 370) the card's centre lies in zone m only. */
  lemma CentreOverMasculine()
    ensures LastHit(GenderZoneEntries(), DoubledCentre(CardAtRest, Point(-110, 370))) == Some("m")
  {
    var zones, c := GenderZoneEntries(), DoubledCentre(CardAtRest, Point(-110, 370));
    assert Hits(zones[0], c) && !Hits(zones[1], c) && !Hits(zones[2], c);
    SoleHitReported(zones, c, 0);
  }

  /** Moved by (-55, 370) the card's centre falls in the gap between zones m and f. */
  lemma CentreBetweenZones()
    ensures LastHit(GenderZoneEntries(), DoubledCentre(CardAtRest, Point(-55, 370))) == None
  {
    var zones, c := GenderZoneEntries(), DoubledCentre(CardAtRest, Point(-55, 370));
    assert !Hits(zones[0], c) && !Hits(zones[1], c) && !Hits(zones[2], c);
    LastHitCharacterised(zones, c);
  }

  /** Dropping "Дом" on zone m scores one point and records the word under m. */
  method DropHouseOnMasculine() returns (score: nat, history: map<string, seq<string>>)
    ensures score == 1 && history == map["m" := ["Дом"]]
  {
    var session := new Quiz.QuizSession(Zones.NounGenderId, [Lessons.DragQ("q1", "Дом", "m", Some(M))]);
    GenderEntriesAreZones();
    session.PointerDown(160, 100);
    CentreOverMasculine();
    session.PointerMove(50, 470, Some(CardAtRest), GenderZoneEntries());
    assert session.hoveredZone == Some("m") && session.isDragging && !session.isAnswered;
    assert session.score == 0 && session.droppedHistory == map[];
    var committed := session.PointerUp();
    assert session.droppedHistory == map["m" := HistoryOf(map[], "m") + ["Дом"]];
    assert HistoryOf(map[], "m") + ["Дом"] == ["Дом"];
    score, history := session.score, session.droppedHistory;
  }

  /** Releasing the card between two zones snaps it back and leaves the question open. */
  method ReleaseOutsideZones() returns (answered: bool, offset: Point, score: nat)
    ensures !answered && offset == Origin && score == 0
  {
    var session := new Quiz.QuizSession(Zones.NounGenderId, [Lessons.DragQ("q2", "Окно", "n", Some(N))]);
    GenderEntriesAreZones();
    session.PointerDown(160, 100);
    CentreBetweenZones();
    session.PointerMove(105, 470, Some(CardAtRest), GenderZoneEntries());
    assert session.hoveredZone == None;
    var committed := session.PointerUp();
    answered, offset, score := session.isAnswered, session.dragPosition, session.score;
  }

  function ChoiceQ(id: string, prompt: string, answer: string): Question {
    Question(id, MultipleChoice, prompt, answer, Some(["ОН", "ОНА", "ОНО"]), None)
  }

  /** Two multiple-choice questions, the first answered right and the second wrong: one point out of two. */
  method OneRightOneWrong() returns (outcome: NextOutcome)
    ensures outcome == Finished(1, 2)
  {
    var qs := [ChoiceQ("c1", "Дом", "ОН"), ChoiceQ("c2", "Окно", "ОНО")];
    var session := new Quiz.QuizSession("gender-choice", qs);
    session.SelectOption("ОН");
    session.Check();
    outcome := session.Next();
    session.SelectOption("ОНА");
    session.Check();
    outcome := session.Next();
  }

  /**
   * A one-question lesson answered right: one point is earned, but the
   * completion reports two out of one, since the point is counted again.
   */
  method SingleRightAnswerReportedTwice() returns (score: nat, outcome: NextOutcome)
    ensures score == 1 && outcome == Finished(2, 1)
  {
    var session := new Quiz.QuizSession("gender-choice", [ChoiceQ("c1", "Дом", "ОН")]);
    session.SelectOption("ОН");
    session.Check();
    score := session.score;
    outcome := session.Next();
  }

  /**
   * The check itself accepts any text in any case: "СТОЛ" and "Стол" both
   * fold to "стол", which trimming leaves alone, so "СТОЛ" is accepted for "Стол".
   */
  lemma TableFolds(q: Question)
    requires q.kind == InputWrite && q.correctAnswer == "Стол"
    ensures Answer.Evaluate(q, None, "СТОЛ")
  {
    var upper, title := Text.Lower("СТОЛ"), Text.Lower("Стол");
    assert upper[0] == 'с' && upper[1] == 'т' && upper[2] == 'о' && upper[3] == 'л';
    assert title[0] == 'с' && title[1] == 'т' && title[2] == 'о' && title[3] == 'л';
    assert upper == "стол" && title == "стол";
    assert !Text.IsWhitespace('с') && !Text.IsWhitespace('л');
  }

  /** "стол" followed by a space, as the on-screen keyboard types it, is accepted for "Стол". */
  lemma TableTypedWithSpace(q: Question)
    requires q.kind == InputWrite && q.correctAnswer == "Стол"
    ensures Answer.Evaluate(q, None, "стол ")
  {
    var typed, title := Text.Lower("стол"), Text.Lower("Стол");
    assert typed[0] == 'с' && typed[1] == 'т' && typed[2] == 'о' && typed[3] == 'л';
    assert title[0] == 'с' && title[1] == 'т' && title[2] == 'о' && title[3] == 'л';
    assert typed == "стол" && title == "стол";
    assert !Text.IsWhitespace('с') && !Text.IsWhitespace('л');
    assert Answer.Evaluate(q, None, "стол");
    assert Text.AllWhitespace(" ");
    Answer.TrailingWhitespaceIgnored(q, None, "стол", " ");
    var padded := "стол" + " ";
    assert padded[4] == ' ';
    assert padded == "стол ";
  }

  /**
   * Pressing the keys с, т, о, л and Space (the keyboard sends lower-case
   * letters) and then checking answers "Стол" correctly, for one point.
   */
  method TypedOnKeyboardAccepted() returns (correct: bool, score: nat)
    ensures correct && score == 1
  {
    var q := Question("w1", InputWrite, "table", "Стол", None, None);
    var session := new Quiz.QuizSession("writing", [q]);
    session.KeyPress("с");
    session.KeyPress("т");
    assert session.inputValue == "ст";
    session.KeyPress("о");
    session.KeyPress("л");
    assert session.inputValue == "стол";
    session.KeyPress(" ");
    assert session.inputValue == "стол ";
    TableTypedWithSpace(q);
    session.Check();
    correct, score := session.isCorrect, session.score;
  }

  /** Typing "Мама" exactly as expected is accepted. */
  lemma MotherTypedExactly(q: Question)
    requires q.kind == InputWrite && q.correctAnswer == "Мама"
    ensures Answer.Evaluate(q, None, "Мама")
  {
    var folded := Text.Lower("Мама");
    assert folded[0] == 'м' && folded[1] == 'а' && folded[2] == 'м' && folded[3] == 'а';
    assert folded == "мама";
    assert !Text.IsWhitespace('м') && !Text.IsWhitespace('а');
  }

  /** A lower-case first letter is accepted for "Мама". */
  lemma MotherTypedInLowerCase(q: Question)
    requires q.kind == InputWrite && q.correctAnswer == "Мама"
    ensures Answer.Evaluate(q, None, "мама")
  {
    var title, lower := Text.Lower("Мама"), Text.Lower("мама");
    assert title[0] == 'м' && title[1] == 'а' && title[2] == 'м' && title[3] == 'а';
    assert lower[0] == 'м' && lower[1] == 'а' && lower[2] == 'м' && lower[3] == 'а';
    assert title == "мама" && lower == "мама";
    assert !Text.IsWhitespace('м') && !Text.IsWhitespace('а');
  }

  /** A trailing space after "Мама" is accepted. */
  lemma MotherTypedWithTrailingSpace(q: Question)
    requires q.kind == InputWrite && q.correctAnswer == "Мама"
    ensures Answer.Evaluate(q, None, "Мама ")
  {
    MotherTypedExactly(q);
    assert Text.AllWhitespace(" ");
    Answer.TrailingWhitespaceIgnored(q, None, "Мама", " ");
    var padded := "Мама" + " ";
    assert padded[4] == ' ';
    assert padded == "Мама ";
  }

  /** A lesson with no questions shows the empty notice, and no handler needing a question can be called. */
  method EmptyLesson() returns (screen: Quiz.Screen, hasQuestions: bool)
    ensures screen == Quiz.EmptyNotice && !hasQuestions
  {
    var session := new Quiz.QuizSession("empty", []);
    screen := session.View();
    hasQuestions := session.HasQuestions();
  }
}
