/**
 * One answer button of `QuestionOption.jsx`: its display state and icon, decided from whether it is
 * selected, whether it is the correct option and whether the answer has been revealed.
 */
module QuestionOption {

  /** `getOptionState`'s five results. */
  datatype OptionState = Default | Selected | Correct | Incorrect | Revealed

  /** `getOptionState`. */
  function GetOptionState(isSelected: bool, isCorrect: bool, isRevealed: bool): (s: OptionState)
    ensures !isRevealed ==> (s == Selected <==> isSelected) && (s == Default <==> !isSelected)
    ensures isRevealed && isCorrect ==> s == Correct
    ensures isRevealed && !isCorrect ==> (s == Incorrect <==> isSelected) && (s == Revealed <==> !isSelected)
  {
    if !isRevealed then (if isSelected then Selected else Default)
    else if isCorrect then Correct
    else if isSelected && !isCorrect then Incorrect
    else Revealed
  }

  /** The state tells the three flags apart wherever they matter: it determines whether the answer is revealed. */
  lemma StateShowsReveal(isSelected: bool, isCorrect: bool, isRevealed: bool)
    ensures var s := GetOptionState(isSelected, isCorrect, isRevealed);
      isRevealed <==> s in {Correct, Incorrect, Revealed}
  {
  }

  /** `getIcon`. */
  function GetIcon(isSelected: bool, isCorrect: bool, isRevealed: bool): (icon: string)
    ensures icon in {"CheckCircle2", "XCircle", "Circle"}
  {
    if !isRevealed then (if isSelected then "CheckCircle2" else "Circle")
    else if isCorrect then "CheckCircle2"
    else if isSelected && !isCorrect then "XCircle"
    else "Circle"
  }

  /**
   * The icon follows the state: a cross exactly on a wrong choice, a check mark exactly on a
   * pending choice or on the correct option, an empty circle otherwise.
   */
  lemma IconFollowsState(isSelected: bool, isCorrect: bool, isRevealed: bool)
    ensures var s, icon := GetOptionState(isSelected, isCorrect, isRevealed), GetIcon(isSelected, isCorrect, isRevealed);
      && (icon == "XCircle" <==> s == Incorrect)
      && (icon == "CheckCircle2" <==> s == Selected || s == Correct)
      && (icon == "Circle" <==> s == Default || s == Revealed)
  {
  }

  /** The button accepts clicks only until the answer is revealed. */
  predicate IsDisabled(isRevealed: bool) {
    isRevealed
  }

  /**
   * On a revealed question, the correct option is always shown as correct, whether or not it was
   * chosen, and at most the chosen option is shown as wrong.
   */
  lemma RevealedQuestionShowsAnswer(selected: nat, correct: nat, k: nat)
    requires selected < 4 && correct < 4 && k < 4
    ensures GetOptionState(k == selected, k == correct, true) == Correct <==> k == correct
    ensures GetOptionState(k == selected, k == correct, true) == Incorrect <==> k == selected && selected != correct
    ensures IsDisabled(true)
  {
  }
}
