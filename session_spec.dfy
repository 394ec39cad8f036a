/**
 * The quiz view's state as a value, and one function per event handler
 * giving the state that handler leaves behind. The class in module Quiz
 * performs these updates field by field; the lemmas here say what runs of
 * events preserve.
 */
module SessionSpec {
  import opened Types
  import opened Geometry
  import Zones
  import Answer

  /** Every piece of state the view keeps for one practice attempt. */
  datatype State = State(
    currentIdx: nat,
    score: nat,
    selectedOption: Option<string>,
    inputValue: string,
    isAnswered: bool,
    isCorrect: bool,
    isDragging: bool,
    dragPosition: Point,
    startPosition: Point,
    hoveredZone: Option<string>,
    droppedHistory: map<string, seq<string>>)

  /** The values the view's state starts from. */
  const Initial := State(0, 0, None, "", false, false, false, Origin, Origin, None, map[])

  function LessonZoneIds(lessonId: string): set<string> {
    Zones.ZoneIds(Zones.DropZones(lessonId))
  }

  /** The prompts dropped into `zone` so far; none when the zone has no entry yet. */
  function HistoryOf(h: map<string, seq<string>>, zone: string): seq<string> {
    if zone in h then h[zone] else []
  }

  /** The per-question reset run whenever the question index changes. */
  function Reset(s: State): State {
    s.(selectedOption := None, inputValue := "", isAnswered := false, isCorrect := false,
       dragPosition := Origin, hoveredZone := None)
  }

  function AfterSelect(s: State, option: string): State {
    s.(selectedOption := Some(option))
  }

  function AfterKeyPress(s: State, text: string): State {
    s.(inputValue := s.inputValue + text)
  }

  /** Drops the last character typed; an empty input stays empty. */
  function AfterBackspace(s: State): State {
    s.(inputValue := if s.inputValue == [] then [] else s.inputValue[..|s.inputValue| - 1])
  }

  function AfterCheck(s: State, q: Question): State {
    if s.isAnswered then s
    else
      var correct := Answer.Evaluate(q, s.selectedOption, s.inputValue);
      s.(isCorrect := correct, score := if correct then s.score + 1 else s.score, isAnswered := true)
  }

  function AfterPointerDown(s: State, x: int, y: int): State {
    if s.isAnswered then s
    else s.(isDragging := true, startPosition := Point(x, y), dragPosition := Origin)
  }

  /**
   * `card` is the card's bounding rectangle at its origin and `zones` the
   * registered zone elements in registration order; an absent card leaves
   * the hovered zone as it was.
   */
  function AfterPointerMove(s: State, x: int, y: int, card: Option<Rect>, zones: seq<ZoneEntry>): State {
    if !s.isDragging || s.isAnswered then s
    else
      var offset := Point(x - s.startPosition.x, y - s.startPosition.y);
      s.(dragPosition := offset,
         hoveredZone := if card.Some? then LastHit(zones, DoubledCentre(card.value, offset)) else s.hoveredZone)
  }

  function AfterCommit(s: State, q: Question, zone: string): State {
    var correct := zone == q.correctAnswer;
    s.(isCorrect := correct,
       score := if correct then s.score + 1 else s.score,
       droppedHistory := if correct then s.droppedHistory[zone := HistoryOf(s.droppedHistory, zone) + [q.prompt]]
                         else s.droppedHistory,
       isAnswered := true,
       dragPosition := Origin)
  }

  /** A release commits when a drag is in progress over a hovered zone (an empty id is falsy and does not count). */
  predicate CommitsOnRelease(s: State) {
    s.isDragging && s.hoveredZone.Some? && s.hoveredZone.value != ""
  }

  /** Pointer up, cancel and leave: end the drag, then commit to the hovered zone or snap back. */
  function AfterPointerUp(s: State, q: Question): State {
    if !s.isDragging then s
    else if CommitsOnRelease(s) then AfterCommit(s.(isDragging := false), q, s.hoveredZone.value)
    else s.(isDragging := false, dragPosition := Origin)
  }

  function AfterNext(s: State, total: nat): State {
    if s.currentIdx < total - 1 then Reset(s.(currentIdx := s.currentIdx + 1)) else s
  }

  /** What advancing reports: nothing before the last question, the completion pair on it. */
  datatype NextOutcome = Advanced | Finished(reportedScore: int, total: nat)

  /**
   * The completion score as the view reports it from the fields it reads.
   * Read after a correct check, `score` already counts the answer and it is
   * counted twice; the timer after a drop reads the fields from before
   * the drop, where the last point is not counted at all.
   */
  function ReportedScore(s: State): int {
    if s.isCorrect then s.score + 1 else s.score
  }

  function NextResult(s: State, total: nat): NextOutcome {
    if s.currentIdx < total - 1 then Advanced else Finished(ReportedScore(s), total)
  }

  /** What holds of every state a lesson's session can reach. */
  ghost predicate Inv(s: State, lessonId: string, qs: seq<Question>) {
    && (if |qs| > 0 then s.currentIdx < |qs| else s.currentIdx == 0 && !s.isAnswered)
    && s.score <= s.currentIdx + (if s.isAnswered then 1 else 0)
    && (s.isCorrect ==> s.isAnswered)
    && (s.currentIdx < |qs| && s.isDragging && qs[s.currentIdx].kind == DragDrop ==> !s.isAnswered)
    && (s.hoveredZone.Some? ==> s.hoveredZone.value in LessonZoneIds(lessonId))
    && (forall z :: z in s.droppedHistory ==>
          z in LessonZoneIds(lessonId) && 0 < |s.droppedHistory[z]| <= s.score)
    && (s.currentIdx < |qs| && s.isCorrect && qs[s.currentIdx].kind == DragDrop ==>
          qs[s.currentIdx].correctAnswer in LessonZoneIds(lessonId))
  }

  /** The user-intent events the view handles. */
  datatype Event =
    | Select(option: string)
    | KeyPress(text: string)
    | Backspace
    | Check
    | PointerDown(x: int, y: int)
    | PointerMove(x: int, y: int, card: Option<Rect>, zones: seq<ZoneEntry>)
    | PointerUp
    | Next

  /**
   * Whether the view offers a handler for `ev` in state `s`: the option
   * buttons only for an unanswered multiple-choice question, the on-screen
   * keyboard only for an unanswered typed question, the check button only
   * for a question that is not a drag question, the card's pointer
   * handlers only for a drag question, the zones present are the lesson's
   * own, and nothing but the empty notice is shown for a lesson without
   * questions.
   */
  predicate Enabled(s: State, lessonId: string, qs: seq<Question>, ev: Event) {
    match ev
    case Select(_) => s.currentIdx < |qs| && qs[s.currentIdx].kind == MultipleChoice && !s.isAnswered
    case KeyPress(_) => s.currentIdx < |qs| && qs[s.currentIdx].kind == InputWrite && !s.isAnswered
    case Backspace => s.currentIdx < |qs| && qs[s.currentIdx].kind == InputWrite && !s.isAnswered
    case Check => s.currentIdx < |qs| && qs[s.currentIdx].kind != DragDrop
    case PointerDown(_, _) => s.currentIdx < |qs| && qs[s.currentIdx].kind == DragDrop
    case PointerUp => s.currentIdx < |qs| && qs[s.currentIdx].kind == DragDrop
    case PointerMove(_, _, _, zones) =>
      && s.currentIdx < |qs| && qs[s.currentIdx].kind == DragDrop
      && forall e :: e in zones ==> e.id in LessonZoneIds(lessonId)
    case Next => |qs| > 0
  }

  function Step(s: State, lessonId: string, qs: seq<Question>, ev: Event): State
    requires Enabled(s, lessonId, qs, ev)
  {
    match ev
    case Select(option) => AfterSelect(s, option)
    case KeyPress(text) => AfterKeyPress(s, text)
    case Backspace => AfterBackspace(s)
    case Check => AfterCheck(s, qs[s.currentIdx])
    case PointerDown(x, y) => AfterPointerDown(s, x, y)
    case PointerMove(x, y, card, zones) => AfterPointerMove(s, x, y, card, zones)
    case PointerUp => AfterPointerUp(s, qs[s.currentIdx])
    case Next => AfterNext(s, |qs|)
  }

  /** Feeds the events in order; an event the view does not offer at that point has no handler and changes nothing. */
  function Run(s: State, lessonId: string, qs: seq<Question>, evs: seq<Event>): State
    decreases |evs|
  {
    if evs == [] then s
    else
      var t := if Enabled(s, lessonId, qs, evs[0]) then Step(s, lessonId, qs, evs[0]) else s;
      Run(t, lessonId, qs, evs[1..])
  }

  /** Every zone's history in `h` is a prefix of its history in `h'`. */
  ghost predicate HistoryGrows(h: map<string, seq<string>>, h': map<string, seq<string>>) {
    forall z :: z in h ==> z in h' && h[z] <= h'[z]
  }

  lemma InitialInv(lessonId: string, qs: seq<Question>)
    ensures Inv(Initial, lessonId, qs)
  {
  }

  /** Checking the current question keeps the invariant: a point is added only as the question becomes answered. */
  lemma CheckKeepsInv(s: State, lessonId: string, qs: seq<Question>)
    requires Inv(s, lessonId, qs)
    requires s.currentIdx < |qs| && qs[s.currentIdx].kind != DragDrop
    ensures Inv(AfterCheck(s, qs[s.currentIdx]), lessonId, qs)
  {
  }

  /** Committing to the current question's hovered zone keeps the invariant. */
  lemma CommitKeepsInv(s: State, lessonId: string, qs: seq<Question>, zone: string)
    requires Inv(s, lessonId, qs)
    requires s.currentIdx < |qs| && qs[s.currentIdx].kind == DragDrop
    requires !s.isAnswered && !s.isDragging && zone in LessonZoneIds(lessonId)
    ensures Inv(AfterCommit(s, qs[s.currentIdx], zone), lessonId, qs)
  {
    var t := AfterCommit(s, qs[s.currentIdx], zone);
    forall z | z in t.droppedHistory
      ensures z in LessonZoneIds(lessonId) && 0 < |t.droppedHistory[z]| <= t.score
    {
      if z != zone || zone != qs[s.currentIdx].correctAnswer {
        assert z in s.droppedHistory;
      }
    }
  }

  /** Changing only the offset and the hovered zone keeps the invariant when the new zone is one of the lesson's. */
  lemma HoverKeepsInv(s: State, lessonId: string, qs: seq<Question>, offset: Point, hovered: Option<string>)
    requires Inv(s, lessonId, qs)
    requires hovered.Some? ==> hovered.value in LessonZoneIds(lessonId)
    ensures Inv(s.(dragPosition := offset, hoveredZone := hovered), lessonId, qs)
  {
  }

  /** Moving the card keeps the invariant: a hovered zone is always one of the lesson's zones. */
  lemma MoveKeepsInv(s: State, lessonId: string, qs: seq<Question>, x: int, y: int, card: Option<Rect>, zones: seq<ZoneEntry>)
    requires Inv(s, lessonId, qs)
    requires forall e :: e in zones ==> e.id in LessonZoneIds(lessonId)
    ensures Inv(AfterPointerMove(s, x, y, card, zones), lessonId, qs)
  {
    if s.isDragging && !s.isAnswered {
      var offset := Point(x - s.startPosition.x, y - s.startPosition.y);
      var hovered := s.hoveredZone;
      if card.Some? {
        var c := DoubledCentre(card.value, offset);
        hovered := LastHit(zones, c);
        LastHitWithin(zones, c, LessonZoneIds(lessonId));
      }
      HoverKeepsInv(s, lessonId, qs, offset, hovered);
      assert AfterPointerMove(s, x, y, card, zones) == s.(dragPosition := offset, hoveredZone := hovered);
    }
  }

  /** Releasing the card keeps the invariant. */
  lemma UpKeepsInv(s: State, lessonId: string, qs: seq<Question>)
    requires Inv(s, lessonId, qs)
    requires s.currentIdx < |qs| && qs[s.currentIdx].kind == DragDrop
    ensures Inv(AfterPointerUp(s, qs[s.currentIdx]), lessonId, qs)
  {
    if CommitsOnRelease(s) {
      CommitKeepsInv(s.(isDragging := false), lessonId, qs, s.hoveredZone.value);
    }
  }

  /** Every handler the view offers keeps the invariant. */
  lemma StepKeepsInv(s: State, lessonId: string, qs: seq<Question>, ev: Event)
    requires Inv(s, lessonId, qs) && Enabled(s, lessonId, qs, ev)
    ensures Inv(Step(s, lessonId, qs, ev), lessonId, qs)
  {
    match ev
    case Check => CheckKeepsInv(s, lessonId, qs);
    case PointerMove(x, y, card, zones) => MoveKeepsInv(s, lessonId, qs, x, y, card, zones);
    case PointerUp => UpKeepsInv(s, lessonId, qs);
    case _ =>
  }

  /** Score, question index and every zone's history never go backwards. */
  lemma StepIsMonotone(s: State, lessonId: string, qs: seq<Question>, ev: Event)
    requires Enabled(s, lessonId, qs, ev)
    ensures var t := Step(s, lessonId, qs, ev);
      s.score <= t.score && s.currentIdx <= t.currentIdx && HistoryGrows(s.droppedHistory, t.droppedHistory)
  {
  }

  /** Each single event adds at most one point. */
  lemma StepScoresAtMostOne(s: State, lessonId: string, qs: seq<Question>, ev: Event)
    requires Enabled(s, lessonId, qs, ev)
    ensures Step(s, lessonId, qs, ev).score <= s.score + 1
  {
  }

  /** Any run of events from a reachable state reaches a state satisfying the invariant. */
  lemma {:induction false} RunKeepsInv(s: State, lessonId: string, qs: seq<Question>, evs: seq<Event>)
    requires Inv(s, lessonId, qs)
    ensures Inv(Run(s, lessonId, qs, evs), lessonId, qs)
    decreases |evs|
  {
    if evs != [] {
      var t := if Enabled(s, lessonId, qs, evs[0]) then Step(s, lessonId, qs, evs[0]) else s;
      if Enabled(s, lessonId, qs, evs[0]) {
        StepKeepsInv(s, lessonId, qs, evs[0]);
      }
      RunKeepsInv(t, lessonId, qs, evs[1..]);
    }
  }

  /**
   * The session-wide accounting: after any run from the start,
   * 0 <= score <= currentIdx + (answered ? 1 : 0) <= the number of questions.
   */
  lemma ScoreBounded(lessonId: string, qs: seq<Question>, evs: seq<Event>)
    ensures var r := Run(Initial, lessonId, qs, evs);
      r.score <= r.currentIdx + (if r.isAnswered then 1 else 0) && r.score <= |qs|
  {
    InitialInv(lessonId, qs);
    RunKeepsInv(Initial, lessonId, qs, evs);
  }

  /** Over any run the score, the index and every history only grow. */
  lemma {:induction false} RunIsMonotone(s: State, lessonId: string, qs: seq<Question>, evs: seq<Event>)
    ensures var r := Run(s, lessonId, qs, evs);
      s.score <= r.score && s.currentIdx <= r.currentIdx && HistoryGrows(s.droppedHistory, r.droppedHistory)
    decreases |evs|
  {
    if evs != [] {
      var t := if Enabled(s, lessonId, qs, evs[0]) then Step(s, lessonId, qs, evs[0]) else s;
      if Enabled(s, lessonId, qs, evs[0]) {
        StepIsMonotone(s, lessonId, qs, evs[0]);
      }
      RunIsMonotone(t, lessonId, qs, evs[1..]);
    }
  }

  /** A lesson without questions offers no handler, so no run changes anything. */
  lemma {:induction false} EmptyLessonStaysEmpty(s: State, lessonId: string, evs: seq<Event>)
    ensures Run(s, lessonId, [], evs) == s
    decreases |evs|
  {
    if evs != [] {
      assert !Enabled(s, lessonId, [], evs[0]);
      EmptyLessonStaysEmpty(s, lessonId, evs[1..]);
    }
  }

  /**
   * A drop scores exactly when the zone is the question's answer; then the
   * prompt is appended to that zone's history alone. Either way the question
   * becomes answered and the card snaps back.
   */
  lemma CommitAccounting(s: State, q: Question, zone: string)
    ensures var t := AfterCommit(s, q, zone);
      && (t.score == s.score + 1 <==> zone == q.correctAnswer)
      && (zone != q.correctAnswer ==> t.score == s.score && t.droppedHistory == s.droppedHistory)
      && HistoryOf(t.droppedHistory, zone) ==
           HistoryOf(s.droppedHistory, zone) + (if zone == q.correctAnswer then [q.prompt] else [])
      && (forall z :: z != zone ==> HistoryOf(t.droppedHistory, z) == HistoryOf(s.droppedHistory, z))
      && t.isAnswered && t.isCorrect == (zone == q.correctAnswer) && t.dragPosition == Origin
  {
  }

  /** Once a drag question is answered neither pointer down nor pointer up does anything. */
  lemma CommitAtMostOnce(s: State, lessonId: string, qs: seq<Question>, x: int, y: int)
    requires Inv(s, lessonId, qs)
    requires s.currentIdx < |qs| && qs[s.currentIdx].kind == DragDrop && s.isAnswered
    ensures AfterPointerUp(s, qs[s.currentIdx]) == s
    ensures AfterPointerDown(s, x, y) == s
    ensures !CommitsOnRelease(s)
  {
  }

  /**
   * Once a drag question is answered, no run of events without `Next`
   * changes anything, so the question is committed at most once.
   */
  lemma {:induction false} AnsweredDragQuestionSettled(s: State, lessonId: string, qs: seq<Question>, evs: seq<Event>)
    requires Inv(s, lessonId, qs)
    requires s.currentIdx < |qs| && qs[s.currentIdx].kind == DragDrop && s.isAnswered
    requires forall i :: 0 <= i < |evs| ==> !evs[i].Next?
    ensures Run(s, lessonId, qs, evs) == s
    decreases |evs|
  {
    if evs != [] {
      assert !evs[0].Next?;
      assert !s.isDragging;
      AnsweredDragQuestionSettled(s, lessonId, qs, evs[1..]);
    }
  }

  /** A drag question whose answer is not a zone of its lesson is never scored correct. */
  lemma UnreachableAnswerNeverCorrect(s: State, lessonId: string, qs: seq<Question>)
    requires Inv(s, lessonId, qs)
    requires s.currentIdx < |qs| && qs[s.currentIdx].kind == DragDrop
    requires qs[s.currentIdx].correctAnswer !in LessonZoneIds(lessonId)
    ensures !s.isCorrect
  {
  }

  /**
   * Advancing before the last question moves to the next one and clears
   * the per-question state but keeps the score and the histories; on the
   * last question it reports the question count and changes nothing.
   */
  lemma NextBehaviour(s: State, lessonId: string, qs: seq<Question>)
    requires Inv(s, lessonId, qs) && |qs| > 0
    ensures var t := AfterNext(s, |qs|);
      if s.currentIdx < |qs| - 1 then
        && NextResult(s, |qs|) == Advanced
        && t.currentIdx == s.currentIdx + 1 < |qs|
        && t.score == s.score && t.droppedHistory == s.droppedHistory
        && t.selectedOption == None && t.inputValue == "" && !t.isAnswered && !t.isCorrect
        && t.dragPosition == Origin && t.hoveredZone == None
      else
        && s.currentIdx == |qs| - 1
        && t == s && NextResult(s, |qs|).Finished? && NextResult(s, |qs|).total == |qs|
  {
  }

  /** What an answered last question reports: `score`, plus one when it was answered correctly. */
  lemma LastQuestionReport(s: State, lessonId: string, qs: seq<Question>)
    requires Inv(s, lessonId, qs) && |qs| > 0 && s.currentIdx == |qs| - 1
    requires s.isAnswered
    ensures NextResult(s, |qs|).Finished?
    ensures s.isCorrect ==> NextResult(s, |qs|).reportedScore == s.score + 1
    ensures !s.isCorrect ==> NextResult(s, |qs|).reportedScore == s.score
  {
  }

  /**
   * Checking the last question right and then pressing next reports two
   * more than the points held before the check: the point the check adds is
   * counted once in `score` and once more for `isCorrect`.
   */
  lemma CorrectLastCheckReportedTwice(s: State, lessonId: string, qs: seq<Question>)
    requires Inv(s, lessonId, qs) && |qs| > 0 && s.currentIdx == |qs| - 1
    requires qs[s.currentIdx].kind != DragDrop && !s.isAnswered
    requires AfterCheck(s, qs[s.currentIdx]).isCorrect
    ensures AfterCheck(s, qs[s.currentIdx]).score == s.score + 1
    ensures NextResult(AfterCheck(s, qs[s.currentIdx]), |qs|) == Finished(s.score + 2, |qs|)
  {
  }

  /**
   * Releasing the last card on its correct zone and then advancing from the
   * resulting fields reports two more than the points held before the drop.
   */
  lemma CorrectLastDropReportedTwice(s: State, lessonId: string, qs: seq<Question>)
    requires Inv(s, lessonId, qs) && |qs| > 0 && s.currentIdx == |qs| - 1
    requires qs[s.currentIdx].kind == DragDrop
    requires CommitsOnRelease(s) && s.hoveredZone.value == qs[s.currentIdx].correctAnswer
    ensures AfterPointerUp(s, qs[s.currentIdx]).score == s.score + 1
    ensures NextResult(AfterPointerUp(s, qs[s.currentIdx]), |qs|) == Finished(s.score + 2, |qs|)
  {
  }

  /**
   * The pause after a drop runs the next handler of the render in which the
   * card was released, so it reads the fields as they were just before the
   * release. On the last question a correct drop earns a point, yet that
   * report is the score before the drop: the point is not counted at all.
   */
  lemma TimerReportMissesLastDrop(s: State, lessonId: string, qs: seq<Question>)
    requires Inv(s, lessonId, qs) && |qs| > 0 && s.currentIdx == |qs| - 1
    requires qs[s.currentIdx].kind == DragDrop
    requires CommitsOnRelease(s) && s.hoveredZone.value == qs[s.currentIdx].correctAnswer
    ensures AfterPointerUp(s, qs[s.currentIdx]).score == s.score + 1
    ensures NextResult(s, |qs|) == Finished(s.score, |qs|)
  {
  }
}
