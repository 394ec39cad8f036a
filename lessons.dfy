/**
 * The two shipped lessons, without their translated text: ids, difficulty
 * and each question's id, kind, prompt, correct answer and gender tag.
 */
module Lessons {
  import opened Types
  import Zones

  function DragQ(id: string, prompt: string, answer: string, g: Option<Gender>): Question {
    Question(id, DragDrop, prompt, answer, None, g)
  }

  const NounGender := Lesson(Zones.NounGenderId, 1, [
    DragQ("q1", "Дом", "m", Some(M)),
    DragQ("q2", "Окно", "n", Some(N)),
    DragQ("q3", "Мама", "f", Some(F)),
    DragQ("q6", "Папа", "m", Some(M)),
    DragQ("q7", "Россия", "f", Some(F)),
    DragQ("q8", "Море", "n", Some(N)),
    DragQ("q11", "Семья", "f", Some(F)),
    DragQ("q12", "Стол", "m", Some(M)),
    DragQ("q13", "Кофе", "m", Some(M)),
    DragQ("q14", "Имя", "n", Some(N))
  ])

  const Plurals := Lesson(Zones.PluralsId, 2, [
    DragQ("p1", "Стол", "y", None),
    DragQ("p2", "Лампа", "y", None),
    DragQ("p3", "Музей", "i", None),
    DragQ("p4", "Окно", "a", None),
    DragQ("p5", "Море", "ya", None),
    DragQ("p6", "Книга", "i", None),
    DragQ("p7", "Ночь", "i", None),
    DragQ("p8", "Семья", "i", None),
    DragQ("p9", "Студент", "y", None),
    DragQ("p10", "Письмо", "a", None),
    DragQ("p11", "Автобус", "y", None),
    DragQ("p12", "Парк", "y", None)
  ])

  const AllLessons := [NounGender, Plurals]

  /** A drag question can only ever be scored correct when its answer is one of its lesson's zone ids. */
  predicate AnswerIsAZone(l: Lesson, q: Question) {
    q.kind == DragDrop ==> q.correctAnswer in Zones.ZoneIds(Zones.DropZones(l.id))
  }

  /** The lesson ids differ and the difficulties are 1 and 2. */
  lemma LessonHeaders()
    ensures NounGender.id != Plurals.id
    ensures NounGender.difficulty == 1 && Plurals.difficulty == 2
    ensures forall l :: l in AllLessons ==> 1 <= l.difficulty <= 3
  {
  }

  /** Both lessons have questions, all of them drag questions, so none lacks multiple-choice options. */
  lemma LessonsAreDragOnly()
    ensures forall l :: l in AllLessons ==> |l.questions| > 0
    ensures forall l, q :: l in AllLessons && q in l.questions ==> q.kind == DragDrop && WellFormedQuestion(q)
  {
  }

  /** Every gender tag is one of the noun-gender lesson's zone ids, and no two tags share one. */
  lemma GenderTagsAreZones()
    ensures forall g :: GenderTag(g) in Zones.ZoneIds(Zones.DropZones(Zones.NounGenderId))
    ensures forall g, h :: GenderTag(g) == GenderTag(h) ==> g == h
  {
    Zones.ZoneIdSets();
  }

  /** Proof helper: the ids of a question list, in order. */
  function IdsOf(qs: seq<Question>): (ids: seq<string>)
    ensures |ids| == |qs| && forall i :: 0 <= i < |qs| ==> ids[i] == qs[i].id
  {
    seq(|qs|, i requires 0 <= i < |qs| => qs[i].id)
  }

  /** Proof helper: the answers of a question list, in order. */
  function AnswersOf(qs: seq<Question>): (answers: seq<string>)
    ensures |answers| == |qs| && forall i :: 0 <= i < |qs| ==> answers[i] == qs[i].correctAnswer
  {
    seq(|qs|, i requires 0 <= i < |qs| => qs[i].correctAnswer)
  }

  predicate Distinct(ids: seq<string>) {
    forall i, j :: 0 <= i < j < |ids| ==> ids[i] != ids[j]
  }

  /** Every noun-gender answer is one of the zone ids m, f, n. */
  lemma NounGenderAnswers()
    ensures forall i :: 0 <= i < |NounGender.questions| ==> NounGender.questions[i].correctAnswer in {"m", "f", "n"}
  {
    assert AnswersOf(NounGender.questions) == ["m", "n", "f", "m", "f", "n", "f", "m", "m", "n"];
  }

  /** Every plurals answer is one of the zone ids y, i, a, ya. */
  lemma PluralsAnswers()
    ensures forall i :: 0 <= i < |Plurals.questions| ==> Plurals.questions[i].correctAnswer in {"y", "i", "a", "ya"}
  {
    assert AnswersOf(Plurals.questions) == ["y", "y", "i", "a", "ya", "i", "i", "i", "y", "a", "y", "y"];
  }

  /** Every question's answer is a zone of its own lesson, so every shipped question can be scored. */
  lemma AnswersAreZones()
    ensures forall k, i :: 0 <= k < |AllLessons| && 0 <= i < |AllLessons[k].questions| ==>
      AnswerIsAZone(AllLessons[k], AllLessons[k].questions[i])
  {
    Zones.ZoneIdSets();
    NounGenderAnswers();
    PluralsAnswers();
  }

  /** Every noun-gender question carries a gender tag that equals its answer. */
  lemma GenderTagsMatchAnswers()
    ensures forall q :: q in NounGender.questions ==> q.genderGroup.Some? && GenderTag(q.genderGroup.value) == q.correctAnswer
  {
  }

  /** Question ids are unique within the noun-gender lesson. */
  lemma NounGenderIdsUnique()
    ensures UniqueQuestionIds(NounGender.questions)
  {
    var ids := IdsOf(NounGender.questions);
    assert ids == ["q1", "q2", "q3", "q6", "q7", "q8", "q11", "q12", "q13", "q14"];
    assert Distinct(ids);
  }

  /** Question ids are unique within the plurals lesson. */
  lemma PluralsIdsUnique()
    ensures UniqueQuestionIds(Plurals.questions)
  {
    var ids := IdsOf(Plurals.questions);
    assert ids == ["p1", "p2", "p3", "p4", "p5", "p6", "p7", "p8", "p9", "p10", "p11", "p12"];
    assert Distinct(ids);
  }
}
