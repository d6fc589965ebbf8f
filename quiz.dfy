/**
 * The quiz page of `Quiz.jsx`: one question at a time, an answer is graded the moment it is chosen,
 * "next" moves on or completes the quiz, and the quiz is submitted on the last "next", on the early
 * submit button or when the five-minute countdown runs out. Submission scores the recorded answers
 * and stores an attempt. The signed-in user, the clock and the session-storage write are parameters.
 */
module Quiz {
  import opened Wrappers
  import opened Text
  import opened DateHelpers
  import opened QuestionService
  import opened QuizAttemptService
  import UserService
  import Timer

  /** One recorded answer (`questionId`, `selectedOption`, `isCorrect`, `correctOption`). */
  datatype Answer = Answer(questionId: int, selectedOption: string, isCorrect: bool, correctOption: string)

  /** The answer recorded for choosing `option` on question `q`: correct exactly on its correct option. */
  function Grade(q: Question, option: string): (a: Answer)
    ensures a.questionId == q.id && a.selectedOption == option && a.correctOption == q.correctOption
    ensures a.isCorrect <==> option == q.correctOption
  {
    Answer(q.id, option, q.correctOption == option, q.correctOption)
  }

  /** `answers.filter(answer => answer.isCorrect).length`. */
  function Score(answers: seq<Answer>): (n: nat)
    ensures n <= |answers|
    ensures n == |answers| <==> forall i :: 0 <= i < |answers| ==> answers[i].isCorrect
    ensures n == 0 <==> forall i :: 0 <= i < |answers| ==> !answers[i].isCorrect
  {
    if answers == [] then 0
    else
      var rest := Score(answers[1..]);
      assert forall i :: 1 <= i < |answers| ==> answers[i] == answers[1..][i - 1];
      (if answers[0].isCorrect then 1 else 0) + rest
  }

  /** Scores add up over consecutive runs of answers. */
  lemma {:induction false} ScoreAppend(a: seq<Answer>, b: seq<Answer>)
    ensures Score(a + b) == Score(a) + Score(b)
  {
    if a != [] {
      assert (a + b)[1..] == a[1..] + b;
      ScoreAppend(a[1..], b);
    } else {
      assert a + b == b;
    }
  }

  /**
   * The page grades against the question it shows; the service's `checkAnswer`, given the same
   * questions under distinct Ids and the question's Id as text, reaches the same verdict.
   */
  lemma GradeAgreesWithCheckAnswer(cache: QuestionCache, questions: seq<Question>, i: int, option: string)
    requires cache.cachedQuestions == Some(questions)
    requires forall j, k :: 0 <= j < k < |questions| ==> questions[j].id != questions[k].id
    requires 0 <= i < |questions|
    ensures Grade(questions[i], option).isCorrect <==> cache.CheckAnswer(IntString(questions[i].id), option)
  {
    var id := IntString(questions[i].id);
    ParseIntOfIntString(questions[i].id);
    assert IsLookedUp(questions, id, i);
    forall j | IsLookedUp(questions, id, j) ensures j == i {
      LookupUnique(questions, id, i, j);
    }
  }

  /** The seconds taken: `Math.floor((now - startTime) / 1000)`, with times in milliseconds. */
  function ElapsedSeconds(startMillis: int, nowMillis: int): (s: int)
    ensures 1000 * s <= nowMillis - startMillis < 1000 * s + 1000
  {
    (nowMillis - startMillis) / 1000
  }

  /** `parseInt(userData.Id) || userData.Id`: the numeric Id read back from its text, or the Id itself. */
  function SentUserId(id: int): (r: int)
    ensures r == id
  {
    ParseIntOfIntString(id);
    var parsed := ParseInt(IntString(id));
    if parsed.Some? && parsed.value != 0 then parsed.value else id
  }

  /**
   * What submission evidently means to hand to `createAttempt`: the user's Id, `name_c` or else
   * `Name`, the score, the seconds taken and the number of questions, under the keys the service reads.
   */
  function AttemptFor(user: UserService.User, answers: seq<Answer>, seconds: int, questionCount: nat): (input: AttemptInput)
    ensures input.score == Score(answers) && input.timeTaken == seconds
    ensures input.userId == user.id && input.userName == UserService.Pick(user.nameC, user.name)
    ensures input.totalQuestions == Some(questionCount)
  {
    AttemptInput(SentUserId(user.id), UserService.Pick(user.nameC, user.name), Score(answers), seconds, Some(questionCount))
  }

  /** A JavaScript property value, as far as the attempt record needs one. */
  datatype JsValue = Undefined | Num(n: int) | Str(s: string)

  /** Reading a property of a plain object: `undefined` when the key is absent. */
  function Property(record: map<string, JsValue>, key: string): (v: JsValue)
    ensures key !in record ==> v == Undefined
  {
    if key in record then record[key] else Undefined
  }

  /** The `attemptData` object as the page writes it: all but the question count under `_c` keys. */
  function AttemptDataAsWritten(user: UserService.User, answers: seq<Answer>, seconds: int, questionCount: nat): (record: map<string, JsValue>)
    ensures record.Keys == {"user_id_c", "user_name_c", "score_c", "time_taken_c", "total_questions"}
    ensures record["score_c"] == Num(Score(answers)) && record["total_questions"] == Num(questionCount)
  {
    map["user_id_c" := Num(SentUserId(user.id)), "user_name_c" := Str(UserService.Pick(user.nameC, user.name)),
        "score_c" := Num(Score(answers)), "time_taken_c" := Num(seconds), "total_questions" := Num(questionCount)]
  }

  /**
   * `createAttempt` reads `user_id`, `user_name`, `score` and `time_taken`; of the record as written
   * it finds only the question count, so the stored attempt has no user, name, score or time.
   */
  lemma AttemptDataAsWrittenLosesScore(user: UserService.User, answers: seq<Answer>, seconds: int, questionCount: nat)
    ensures var record := AttemptDataAsWritten(user, answers, seconds, questionCount);
      && Property(record, "user_id") == Undefined && Property(record, "user_name") == Undefined
      && Property(record, "score") == Undefined && Property(record, "time_taken") == Undefined
      && Property(record, "total_questions") == Num(questionCount)
  {
    SuffixedKeysMissPlainNames(AttemptDataAsWritten(user, answers, seconds, questionCount).Keys);
  }

  /** None of the four plain field names is among the `_c` keys the page writes. */
  lemma SuffixedKeysMissPlainNames(keys: set<string>)
    requires keys == {"user_id_c", "user_name_c", "score_c", "time_taken_c", "total_questions"}
    ensures "user_id" !in keys && "user_name" !in keys && "score" !in keys && "time_taken" !in keys
  {
    assert "user_id"[6] != "score_c"[6];
  }

  /** How a submission ends. */
  datatype SubmitOutcome =
    | NoUser                                                  // no user in session: back to the entry page
    | Saved(attempt: Attempt, answers: seq<Answer>)           // results stored: on to the results page
    | SaveFailed                                              // `createAttempt` rejected: nothing stored
    | ResultsNotStored(attempt: Attempt)                      // attempt stored, results write failed

  /** Where a submission can throw: `createAttempt`, or the session-storage write after it. */
  datatype Fault = NoFault | SaveRejected | ResultsWriteFails

  const LoadError := "Failed to load quiz questions. Please try again."

  /** The page's state while a quiz is running. */
  class QuizSession {
    const questions: seq<Question>
    const error: Option<string>
    const startTime: int
    const timer: Timer.Timer
    var currentQuestionIndex: nat
    var selectedAnswer: Option<string>
    var isAnswerRevealed: bool
    var userAnswers: seq<Answer>
    var isSubmitting: bool

    /**
     * The page's invariant: the answers recorded are one per question passed plus the current one
     * once it is revealed, each graded against its own question, and an answer is selected exactly
     * when it is revealed.
     */
    predicate Valid()
      reads this
    {
      (|questions| > 0 ==> currentQuestionIndex < |questions|)
      && (|questions| == 0 ==> currentQuestionIndex == 0 && !isAnswerRevealed)
      && |userAnswers| == currentQuestionIndex + (if isAnswerRevealed then 1 else 0)
      && (selectedAnswer.Some? <==> isAnswerRevealed)
      && forall i :: 0 <= i < |userAnswers| ==> userAnswers[i] == Grade(questions[i], userAnswers[i].selectedOption)
    }

    /**
     * Mounting: the questions `getRandomQuestions(10)` returned, or its failure as the page's error;
     * the clock reading is the start time, and the countdown starts at five minutes.
     */
    constructor (loaded: Result<seq<Question>>, startTime: int)
      ensures Valid() && fresh(timer)
      ensures loaded.Ok? ==> questions == loaded.value && error == None
      ensures loaded.Err? ==> questions == [] && error == Some(LoadError)
      ensures this.startTime == startTime && timer.timeLeft == Timer.DefaultInitialTime
      ensures currentQuestionIndex == 0 && selectedAnswer == None && !isAnswerRevealed
      ensures userAnswers == [] && !isSubmitting
    {
      questions := if loaded.Ok? then loaded.value else [];
      error := if loaded.Ok? then None else Some(LoadError);
      this.startTime := startTime;
      timer := new Timer.Timer(Timer.DefaultInitialTime);
      currentQuestionIndex := 0;
      selectedAnswer := None;
      isAnswerRevealed := false;
      userAnswers := [];
      isSubmitting := false;
    }

    /** `isLastQuestion`. */
    predicate IsLastQuestion()
      reads this
    {
      currentQuestionIndex == |questions| - 1
    }

    /**
     * `handleAnswerSelect`: the first choice on a question is recorded and graded; once the answer is
     * revealed further clicks change nothing.
     */
    method SelectAnswer(option: string)
      requires Valid() && currentQuestionIndex < |questions|
      modifies this
      ensures Valid()
      ensures old(isAnswerRevealed) ==> userAnswers == old(userAnswers) && selectedAnswer == old(selectedAnswer)
      ensures !old(isAnswerRevealed) ==>
        selectedAnswer == Some(option) && isAnswerRevealed
        && userAnswers == old(userAnswers) + [Grade(questions[currentQuestionIndex], option)]
      ensures currentQuestionIndex == old(currentQuestionIndex) && isSubmitting == old(isSubmitting)
    {
      if isAnswerRevealed {
        return;
      }
      selectedAnswer := Some(option);
      isAnswerRevealed := true;
      userAnswers := userAnswers + [Grade(questions[currentQuestionIndex], option)];
    }

    /**
     * What a submission leaves behind, from the attempts stored `before` to those stored `after`:
     * with no user, nothing stored and the page left submitting; otherwise the attempt built from the
     * recorded answers, stored unless `createAttempt` rejects it, and the page submitting again only
     * when everything went through.
     */
    predicate Submitted(user: Option<UserService.User>, now: Instant, fault: Fault,
                        before: seq<Attempt>, after: seq<Attempt>, outcome: SubmitOutcome, submitting: bool)
      reads this
    {
      match user
      case None => outcome == NoUser && submitting && after == before
      case Some(u) =>
        var attempt := NewAttempt(before, AttemptFor(u, userAnswers, ElapsedSeconds(startTime, now.millis), |questions|), now);
        match fault
        case SaveRejected => outcome == SaveFailed && !submitting && after == before
        case ResultsWriteFails => outcome == ResultsNotStored(attempt) && !submitting && after == before + [attempt]
        case NoFault => outcome == Saved(attempt, userAnswers) && submitting && after == before + [attempt]
    }

    /**
     * `handleQuizSubmit`: enters the submitting state; without a user in the session it gives up;
     * otherwise it scores the recorded answers and stores an attempt. On a failure the page leaves
     * the submitting state with every recorded answer kept, so that it can be submitted again.
     */
    method Submit(user: Option<UserService.User>, now: Instant, store: AttemptStore, fault: Fault)
      returns (outcome: SubmitOutcome)
      requires Valid()
      modifies this, store
      ensures Valid()
      ensures currentQuestionIndex == old(currentQuestionIndex) && userAnswers == old(userAnswers)
      ensures selectedAnswer == old(selectedAnswer) && isAnswerRevealed == old(isAnswerRevealed)
      ensures Submitted(user, now, fault, old(store.attempts), store.attempts, outcome, isSubmitting)
      ensures outcome.Saved? ==> outcome.answers == userAnswers
      ensures outcome.Saved? ==> 0 <= outcome.attempt.score <= outcome.attempt.totalQuestions
      ensures outcome.Saved? ==> outcome.attempt.score == Score(userAnswers) && outcome.attempt.userId == user.value.id
    {
      isSubmitting := true;
      if user.None? {
        return NoUser;
      }
      var seconds := ElapsedSeconds(startTime, now.millis);
      var finalAnswers := userAnswers;
      if selectedAnswer.Some? && !isAnswerRevealed {
        // The page would grade the pending choice here, but a choice is always revealed at once.
        assert false;
      }
      var input := AttemptFor(user.value, finalAnswers, seconds, |questions|);
      if fault == SaveRejected {
        isSubmitting := false;
        return SaveFailed;
      }
      var attempt := store.CreateAttempt(input, now);
      if fault == ResultsWriteFails {
        isSubmitting := false;
        return ResultsNotStored(attempt);
      }
      outcome := Saved(attempt, finalAnswers);
    }

    /** The early-submit button, which is disabled while a submission is under way. */
    method SubmitEarly(user: Option<UserService.User>, now: Instant, store: AttemptStore, fault: Fault)
      returns (outcome: SubmitOutcome)
      requires Valid() && !isSubmitting
      modifies this, store
      ensures Valid() && userAnswers == old(userAnswers)
      ensures Submitted(user, now, fault, old(store.attempts), store.attempts, outcome, isSubmitting)
    {
      outcome := Submit(user, now, store, fault);
    }

    /** `handleNextQuestion`, offered once the answer is revealed and while not submitting. */
    method Next(user: Option<UserService.User>, now: Instant, store: AttemptStore, fault: Fault)
      returns (outcome: Option<SubmitOutcome>)
      requires Valid() && isAnswerRevealed && !isSubmitting
      modifies this, store
      ensures Valid()
      ensures old(IsLastQuestion()) ==>
        outcome.Some? && userAnswers == old(userAnswers)
        && Submitted(user, now, fault, old(store.attempts), store.attempts, outcome.value, isSubmitting)
      ensures !old(IsLastQuestion()) ==>
        outcome == None && currentQuestionIndex == old(currentQuestionIndex) + 1
        && selectedAnswer == None && !isAnswerRevealed && userAnswers == old(userAnswers)
        && store.attempts == old(store.attempts) && isSubmitting == old(isSubmitting)
    {
      if IsLastQuestion() {
        var o := Submit(user, now, store, fault);
        return Some(o);
      }
      currentQuestionIndex := currentQuestionIndex + 1;
      selectedAnswer := None;
      isAnswerRevealed := false;
      outcome := None;
    }

    /** One second of the countdown. */
    method Tick()
      requires !timer.IsTimeUp()
      modifies timer
      ensures timer.timeLeft == old(timer.timeLeft) - 1 && timer.timeLeft >= 0
      ensures timer.isUrgent <==> timer.timeLeft <= Timer.UrgentThreshold
    {
      timer.Tick();
    }

    /** `handleTimeUp`: submits, unless a submission is already under way. */
    method TimeUp(user: Option<UserService.User>, now: Instant, store: AttemptStore, fault: Fault)
      returns (outcome: Option<SubmitOutcome>)
      requires Valid() && timer.IsTimeUp()
      modifies this, store
      ensures Valid() && userAnswers == old(userAnswers)
      ensures old(isSubmitting) ==> outcome == None && store.attempts == old(store.attempts) && isSubmitting
      ensures !old(isSubmitting) ==>
        outcome.Some? && Submitted(user, now, fault, old(store.attempts), store.attempts, outcome.value, isSubmitting)
    {
      if isSubmitting {
        return None;
      }
      var o := Submit(user, now, store, fault);
      outcome := Some(o);
    }
  }

  /**
   * A quiz completed on its last question is saved once: when the countdown then runs out, time-up
   * finds the page submitting and stores no second attempt.
   */
  method NoSecondAttemptAfterCompletion(session: QuizSession, user: UserService.User, t1: Instant, t2: Instant, store: AttemptStore)
    returns (first: Option<SubmitOutcome>, second: Option<SubmitOutcome>)
    requires session.Valid() && session.isAnswerRevealed && !session.isSubmitting && session.IsLastQuestion()
    modifies session, session.timer, store
    ensures first.Some? && first.value.Saved? && second == None
    ensures |store.attempts| == |old(store.attempts)| + 1
  {
    first := session.Next(Some(user), t1, store, NoFault);
    var ticks := session.timer.RunToTimeUp();
    second := session.TimeUp(Some(user), t2, store, NoFault);
  }

  /**
   * A rejected save loses nothing: submitting again stores one attempt carrying the score of every
   * answer recorded before the failure.
   */
  method RetryAfterRejectedSave(session: QuizSession, user: UserService.User, t1: Instant, t2: Instant, store: AttemptStore)
    returns (first: SubmitOutcome, second: SubmitOutcome)
    requires session.Valid() && !session.isSubmitting
    modifies session, store
    ensures first == SaveFailed && second.Saved?
    ensures second.attempt.score == Score(old(session.userAnswers)) && second.answers == old(session.userAnswers)
    ensures store.attempts == old(store.attempts) + [second.attempt]
  {
    first := session.SubmitEarly(Some(user), t1, store, SaveRejected);
    second := session.SubmitEarly(Some(user), t2, store, NoFault);
  }
}
