/** The lesson and question records the quiz runs on (the non-localized part). */
module Types {

  datatype Option<+T> = None | Some(value: T)

  /** The three kinds of exercise a question can be. */
  datatype ExerciseType = MultipleChoice | DragDrop | InputWrite

  /** The noun-gender classification tag carried by some drag questions. */
  datatype Gender = M | F | N

  /** The zone id ('m', 'f' or 'n') a gender tag is written as; different tags are written differently. */
  function GenderTag(g: Gender): (tag: string)
    ensures |tag| == 1 && tag in {"m", "f", "n"}
    ensures tag == "m" <==> g == M
    ensures tag == "f" <==> g == F
    ensures tag == "n" <==> g == N
  {
    match g
    case M => "m"
    case F => "f"
    case N => "n"
  }

  /**
   * One gradable exercise. `options` is the multiple-choice list (absent for
   * the other kinds); `genderGroup` is drag-drop metadata that scoring ignores.
   */
  datatype Question = Question(
    id: string,
    kind: ExerciseType,
    prompt: string,
    correctAnswer: string,
    options: Option<seq<string>>,
    genderGroup: Option<Gender>)

  /** A lesson's difficulty is one of 1, 2 or 3. */
  type Difficulty = d: int | 1 <= d <= 3 witness 1

  datatype Lesson = Lesson(id: string, difficulty: Difficulty, questions: seq<Question>)

  /** A multiple-choice question must offer its correct answer among its options. */
  predicate WellFormedQuestion(q: Question) {
    q.kind == MultipleChoice ==> q.options.Some? && q.correctAnswer in q.options.value
  }

  /** No two questions of the list share an id. */
  predicate UniqueQuestionIds(qs: seq<Question>) {
    forall i, j :: 0 <= i < j < |qs| ==> qs[i].id != qs[j].id
  }
}
