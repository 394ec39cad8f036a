/**
 * The practice view's session: one object per attempt at a lesson, whose
 * fields are the view's state and whose methods are its event handlers.
 * Each method updates the fields in place and promises that the resulting
 * state is the one the matching SessionSpec function describes.
 */
module Quiz {
  import opened Types
  import opened Geometry
  import opened SessionSpec
  import Answer
  import Text

  /** What the view shows: the empty-lesson notice, or the current question. */
  datatype Screen = EmptyNotice | Showing(question: Question)

  class QuizSession {
    const lessonId: string
    const questions: seq<Question>

    var currentIdx: nat
    var score: nat
    var selectedOption: Option<string>
    var inputValue: string
    var isAnswered: bool
    var isCorrect: bool
    var isDragging: bool
    var dragPosition: Point
    var startPosition: Point
    var hoveredZone: Option<string>
    var droppedHistory: map<string, seq<string>>

    /** The fields as one value. */
    function Snap(): State
      reads this
    {
      State(currentIdx, score, selectedOption, inputValue, isAnswered, isCorrect,
            isDragging, dragPosition, startPosition, hoveredZone, droppedHistory)
    }

    ghost predicate Valid()
      reads this
    {
      Inv(Snap(), lessonId, questions)
    }

    predicate HasQuestions() {
      |questions| > 0
    }

    /** The question on screen. */
    function Current(): Question
      reads this
      requires currentIdx < |questions|
    {
      questions[currentIdx]
    }

    /** A fresh session: first question, no points, nothing dropped yet. */
    constructor (lessonId: string, questions: seq<Question>)
      ensures Valid()
      ensures this.lessonId == lessonId && this.questions == questions
      ensures Snap() == Initial
    {
      this.lessonId := lessonId;
      this.questions := questions;
      currentIdx := 0;
      score := 0;
      selectedOption := None;
      inputValue := "";
      isAnswered := false;
      isCorrect := false;
      isDragging := false;
      dragPosition := Origin;
      startPosition := Origin;
      hoveredZone := None;
      droppedHistory := map[];
    }

    /** A lesson without questions shows the empty notice; otherwise the question at the index is shown. */
    function View(): (screen: Screen)
      reads this
      requires Valid()
      ensures screen.EmptyNotice? <==> |questions| == 0
      ensures screen.Showing? ==> currentIdx < |questions| && screen.question == questions[currentIdx]
    {
      if HasQuestions() then Showing(questions[currentIdx]) else EmptyNotice
    }

    /** Clears the per-question state; score, index, drag flag, start and history are kept. */
    method ResetForQuestion()
      modifies this
      ensures Snap() == Reset(old(Snap()))
    {
      selectedOption := None;
      inputValue := "";
      isAnswered := false;
      isCorrect := false;
      dragPosition := Origin;
      hoveredZone := None;
    }

    /** Choosing a multiple-choice option. */
    method SelectOption(option: string)
      requires Valid()
      modifies this
      ensures Valid()
      ensures Snap() == AfterSelect(old(Snap()), option)
    {
      selectedOption := Some(option);
    }

    /** A key of the on-screen keyboard appends its text to the typed answer. */
    method KeyPress(text: string)
      requires Valid()
      modifies this
      ensures Valid()
      ensures Snap() == AfterKeyPress(old(Snap()), text)
      ensures inputValue == old(inputValue) + text
    {
      inputValue := inputValue + text;
    }

    /** Backspace removes the last character typed, if any. */
    method Backspace()
      requires Valid()
      modifies this
      ensures Valid()
      ensures Snap() == AfterBackspace(old(Snap()))
      ensures old(inputValue) == [] ==> inputValue == []
      ensures old(inputValue) != [] ==> inputValue + [old(inputValue)[|old(inputValue)| - 1]] == old(inputValue)
    {
      if inputValue != [] {
        inputValue := inputValue[..|inputValue| - 1];
      }
    }

    /**
     * The check button (offered for questions that are not drag questions):
     * a no-op once answered; otherwise judges the selection or the typed text,
     * marks the question answered and adds a point exactly when correct.
     */
    method Check()
      requires Valid()
      requires currentIdx < |questions| && Current().kind != DragDrop
      modifies this
      ensures Valid()
      ensures Snap() == AfterCheck(old(Snap()), old(Current()))
      ensures old(isAnswered) ==> unchanged(this)
      ensures !old(isAnswered) ==>
        && isAnswered
        && isCorrect == Answer.Evaluate(Current(), old(selectedOption), old(inputValue))
        && score == old(score) + (if isCorrect then 1 else 0)
    {
      if isAnswered {
        return;
      }
      CheckKeepsInv(Snap(), lessonId, questions);
      ghost var before := Snap();
      var correct := false;
      var q := questions[currentIdx];
      if q.kind == MultipleChoice {
        if selectedOption == Some(q.correctAnswer) {
          correct := true;
        }
      } else if q.kind == InputWrite {
        if Text.Trim(Text.Lower(inputValue)) == Text.Lower(q.correctAnswer) {
          correct := true;
        }
      }
      assert correct == Answer.Evaluate(q, selectedOption, inputValue);
      isCorrect := correct;
      if correct {
        score := score + 1;
      }
      isAnswered := true;
      assert Snap() == AfterCheck(before, q);
    }

    /** Pressing on the card starts a drag from the pointer's position, unless the question is answered. */
    method PointerDown(clientX: int, clientY: int)
      requires Valid()
      requires currentIdx < |questions| && Current().kind == DragDrop
      modifies this
      ensures Valid()
      ensures Snap() == AfterPointerDown(old(Snap()), clientX, clientY)
      ensures old(isAnswered) ==> unchanged(this)
      ensures !old(isAnswered) ==> isDragging && startPosition == Point(clientX, clientY) && dragPosition == Origin
    {
      if isAnswered {
        return;
      }
      isDragging := true;
      startPosition := Point(clientX, clientY);
      dragPosition := Origin;
    }

    /**
     * Moving the pointer while dragging an unanswered card: the offset
     * becomes pointer minus start and, when the card is on screen, the
     * hovered zone becomes the last zone containing the moved card's centre
     * (none if no zone contains it).
     */
    method PointerMove(clientX: int, clientY: int, card: Option<Rect>, zones: seq<ZoneEntry>)
      requires Valid()
      requires currentIdx < |questions| && Current().kind == DragDrop
      requires forall e :: e in zones ==> e.id in LessonZoneIds(lessonId)
      modifies this
      ensures Valid()
      ensures Snap() == AfterPointerMove(old(Snap()), clientX, clientY, card, zones)
      ensures !old(isDragging) || old(isAnswered) ==> unchanged(this)
      ensures old(isDragging) && !old(isAnswered) ==>
        dragPosition == Point(clientX - startPosition.x, clientY - startPosition.y)
    {
      if !isDragging || isAnswered {
        return;
      }
      ghost var before := Snap();
      var dx := clientX - startPosition.x;
      var dy := clientY - startPosition.y;
      dragPosition := Point(dx, dy);
      if card.Some? {
        var centre := DoubledCentre(card.value, dragPosition);
        var found := FindZone(zones, centre);
        hoveredZone := found;
      }
      MoveKeepsInv(before, lessonId, questions, clientX, clientY, card, zones);
      assert Snap() == AfterPointerMove(before, clientX, clientY, card, zones);
    }

    /**
     * Settles a drop on `zone`: correct exactly when it is the answer, in
     * which case a point is added and the prompt joins that zone's history.
     * Called only by PointerUp, after it has ended the drag of an unanswered
     * card hovering over one of the lesson's zones.
     */
    method DropCommit(zone: string)
      requires Valid()
      requires currentIdx < |questions| && Current().kind == DragDrop
      requires !isAnswered && !isDragging && zone in LessonZoneIds(lessonId)
      modifies this
      ensures Valid()
      ensures Snap() == AfterCommit(old(Snap()), old(Current()), zone)
      ensures isAnswered && dragPosition == Origin
      ensures isCorrect == (zone == Current().correctAnswer)
      ensures isCorrect ==>
        && score == old(score) + 1
        && droppedHistory == old(droppedHistory)[zone := HistoryOf(old(droppedHistory), zone) + [Current().prompt]]
      ensures !isCorrect ==> score == old(score) && droppedHistory == old(droppedHistory)
    {
      CommitKeepsInv(Snap(), lessonId, questions, zone);
      ghost var before := Snap();
      var q := questions[currentIdx];
      var correct := zone == q.correctAnswer;
      isCorrect := correct;
      if correct {
        score := score + 1;
        droppedHistory := droppedHistory[zone := HistoryOf(droppedHistory, zone) + [q.prompt]];
      }
      isAnswered := true;
      dragPosition := Origin;
      assert Snap() == AfterCommit(before, q, zone);
    }

    /**
     * Releasing (or cancelling, or leaving) the card: nothing unless
     * dragging; otherwise the drag ends and the card is committed to the
     * hovered zone, or snaps back with the question still open. `committed`
     * tells the caller that a drop was settled (the view then advances after
     * a pause).
     */
    method PointerUp() returns (committed: bool)
      requires Valid()
      requires currentIdx < |questions| && Current().kind == DragDrop
      modifies this
      ensures Valid()
      ensures Snap() == AfterPointerUp(old(Snap()), old(Current()))
      ensures committed == CommitsOnRelease(old(Snap()))
      ensures !old(isDragging) ==> unchanged(this)
      ensures !isDragging
      ensures old(isAnswered) ==> !committed
    {
      committed := false;
      if !isDragging {
        return;
      }
      isDragging := false;
      if hoveredZone.Some? && hoveredZone.value != "" {
        DropCommit(hoveredZone.value);
        committed := true;
      } else {
        dragPosition := Origin;
      }
    }

    /**
     * The next button, or the pause after a drop: before the last question
     * moves on and resets the per-question state; on the last question
     * reports the completion score and the number of questions.
     */
    method Next() returns (outcome: NextOutcome)
      requires Valid()
      requires HasQuestions()
      modifies this
      ensures Valid()
      ensures Snap() == AfterNext(old(Snap()), |questions|)
      ensures outcome == NextResult(old(Snap()), |questions|)
      ensures old(currentIdx) < |questions| - 1 ==>
        outcome == Advanced && currentIdx == old(currentIdx) + 1 &&
        score == old(score) && droppedHistory == old(droppedHistory) && !isAnswered && !isCorrect
      ensures old(currentIdx) == |questions| - 1 ==>
        unchanged(this) && outcome == Finished(if isCorrect then score + 1 else score, |questions|)
    {
      if currentIdx < |questions| - 1 {
        currentIdx := currentIdx + 1;
        ResetForQuestion();
        outcome := Advanced;
      } else {
        outcome := Finished(if isCorrect then score + 1 else score, |questions|);
      }
    }
  }
}
