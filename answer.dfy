/**
 * The verdict the check button gives: exact equality for a multiple-choice
 * selection, case-folded and trimmed equality for a typed answer, and
 * never correct for any other kind of question (a drag question is judged
 * by its drop, not by this check).
 */
module Answer {
  import opened Types
  import opened Text

  /** Whether the typed text matches the expected word: the text is lowered and then trimmed, the expected word only lowered. */
  predicate TypedMatches(input: string, expected: string) {
    Trim(Lower(input)) == Lower(expected)
  }

  function Evaluate(q: Question, selected: Option<string>, input: string): bool {
    match q.kind
    case MultipleChoice => selected == Some(q.correctAnswer)
    case InputWrite => TypedMatches(input, q.correctAnswer)
    case DragDrop => false
  }

  /** A multiple-choice verdict is exact string equality with no normalisation; nothing selected is wrong. */
  lemma MultipleChoiceIsExact(q: Question, selected: Option<string>, input: string)
    requires q.kind == MultipleChoice
    ensures Evaluate(q, selected, input) <==> selected.Some? && selected.value == q.correctAnswer
    ensures Evaluate(q, None, input) == false
  {
  }

  /** The check button never marks a drag question correct. */
  lemma DragDropNeverChecked(q: Question, selected: Option<string>, input: string)
    requires q.kind == DragDrop
    ensures !Evaluate(q, selected, input)
  {
  }

  /**
   * A typed answer is judged the same whatever white space surrounds it
   * and whatever case it is typed in.
   */
  lemma TypedAnswerIgnoresPaddingAndCase(q: Question, selected: Option<string>, p: string, input: string, w: string)
    requires q.kind == InputWrite
    requires AllWhitespace(p) && AllWhitespace(w)
    ensures Evaluate(q, selected, p + input + w) == Evaluate(q, selected, input)
    ensures Evaluate(q, selected, Lower(input)) == Evaluate(q, selected, input)
  {
    LowerAppend(p + input, w);
    LowerAppend(p, input);
    forall i | 0 <= i < |p| ensures IsWhitespace(Lower(p)[i]) {
      LowerCharKeepsWhitespace(p[i]);
    }
    forall i | 0 <= i < |w| ensures IsWhitespace(Lower(w)[i]) {
      LowerCharKeepsWhitespace(w[i]);
    }
    TrimIgnoresPadding(Lower(p), Lower(input), Lower(w));
    LowerIdempotent(input);
  }

  /** White space typed after the answer does not change the verdict. */
  lemma TrailingWhitespaceIgnored(q: Question, selected: Option<string>, input: string, w: string)
    requires q.kind == InputWrite && AllWhitespace(w)
    ensures Evaluate(q, selected, input + w) == Evaluate(q, selected, input)
  {
    LowerAppend(input, w);
    forall i | 0 <= i < |w| ensures IsWhitespace(Lower(w)[i]) {
      LowerCharKeepsWhitespace(w[i]);
    }
    TrimIgnoresTrailing(Lower(input), Lower(w));
  }

  /** Typing exactly the expected word (when it has no surrounding white space) is judged correct. */
  lemma CanonicalAnswerAccepted(q: Question, selected: Option<string>)
    requires q.kind == InputWrite
    requires Trim(q.correctAnswer) == q.correctAnswer
    ensures Evaluate(q, selected, q.correctAnswer)
  {
    TrimLowerCommute(q.correctAnswer);
  }

  /**
   * The source lowers before trimming; since the two commute this is the
   * same as comparing the trimmed, lowered input with the lowered answer.
   */
  lemma TypedMatchOrderIrrelevant(input: string, expected: string)
    ensures TypedMatches(input, expected) <==> Lower(Trim(input)) == Lower(expected)
  {
    TrimLowerCommute(input);
  }
}
