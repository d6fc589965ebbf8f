# Opti Sanskriti Quiz — a Dafny model of the quiz logic

This project models the client-side business logic of the Opti Sanskriti quiz app, a React app.
A user enters a name and a mobile number and answers ten randomly drawn questions against a
five-minute countdown. The app stores the attempt and ranks attempts on a weekly leaderboard.

Each source file is a Dafny module of its own:

- `Quiz` is the quiz page: one answer per question, graded when it is chosen; "next" or submit; the
  time-up path; scoring and storing the attempt.
  - The page's state is a class, `QuizSession`.
  - The signed-in user, the clock, the attempt store and the faults that can interrupt a submission
    are parameters.
- `Timer` is the countdown component, a class whose `Tick` lowers the time left by one second.
- `QuizAttemptService` is the in-memory attempt store, with `createAttempt` as a method on a class.
  The leaderboard, rank, weekly statistics and best score are functions over the stored attempts.
  The leaderboard uses a stable sort, proved sorted, a permutation, and order-preserving on ties.
- `DateHelpers` covers `getWeekNumber` over (year, month, day) and `formatTime`.
  - `getWeekNumber` is proved equal to the ISO 8601 week number, an independent definition built
    from the Monday of the week that holds 4 January. The calendar is the proleptic Gregorian one
    with every year taken as given; `Date.UTC`'s reading of years 0 to 99 as 1900 to 1999 is not
    modelled (see "## Left out").
  - `formatTime` is proved to read back to its input.
- `UserService` covers the entry-form validation, and the lookup-before-insert rule of
  `createUser` over a user directory class.
- `UploadQuestion` covers the question upload form: validation, the change handler, normalisation
  of the uploaded record, and reset. The form is a class.
- `QuestionService` covers the answer check over cached questions, the category and difficulty
  tallies (a loop proved to build histograms) and the count-limited random pick.
- `QuestionOption`, `ScoreCard` and `Header` are the small decision tables:
  - the option button's state and icon;
  - the percentage, performance level, message and "Xm Ys" duration;
  - the navigation highlight.
- `Text` models the JavaScript string operations the code relies on: `length` in UTF-16 code units,
  `trim`, `toLowerCase`, `startsWith`, `Number#toString` and `parseInt`. `Wrappers` holds `Option` and `Result`.

Conventions used throughout:

- JavaScript's `a || b` on strings treats `""` as missing. A missing (`undefined`) string field is
  modelled as `""`.
- Floating-point `Math.round(x / n)` is modelled as integer round-half-up.
- The average score, which the source rounds to one decimal, is kept in tenths.
- An `Instant` holds two readings of `new Date()`: the clock's milliseconds and the local calendar
  date. The model does not relate the two (see "## Left out").
- Where the service defaults a week number to the current week (`weekNumber || getWeekNumber(new
  Date())`), `EffectiveWeek` models that choice. The leaderboard, rank and statistics functions
  take the resolved week.

Two consequences of the ranking code are worth stating:

- A user's weekly rank is looked up only in the top-ten leaderboard, so anyone below tenth place has
  no rank at all (`UserWeeklyRank`).
- Of three attempts in one week (8 points in 120 s, 8 in 90 s, 10 in 200 s), the author of the
  8-point, 120-second attempt ranks third when the three users differ (`RankExample`).

## Model

| member | source | states |
|---|---|---|
| Quiz.Grade | src/components/pages/Quiz.jsx:76-84 | The recorded answer carries the question's Id, the chosen option and the correct option; it is correct exactly when the chosen option is the correct one |
| Quiz.Score | src/components/pages/Quiz.jsx:135 | The score is at most the number of answers; it is the full count exactly when every answer is correct, and zero exactly when none is |
| Quiz.ScoreAppend | src/components/pages/Quiz.jsx:121-135 | Scores add up over consecutive runs of answers |
| Quiz.GradeAgreesWithCheckAnswer | src/components/pages/Quiz.jsx:76 | Given the quiz's questions (distinct Ids) in its cache, the service's `checkAnswer` on the question's Id as text gives the page's verdict |
| Quiz.ElapsedSeconds | src/components/pages/Quiz.jsx:120 | The time taken is the whole number of seconds s with 1000·s ≤ now − start < 1000·s + 1000 |
| Quiz.SentUserId | src/components/pages/Quiz.jsx:139 | `parseInt(Id) \|\| Id` on a numeric Id gives back that Id, zero included |
| Quiz.AttemptFor | src/components/pages/Quiz.jsx:138-144 | The intended attempt record: the user's Id, `name_c` or else `Name`, the score of the answers, the seconds taken and the question count |
| Quiz.AttemptDataAsWritten | src/components/pages/Quiz.jsx:138-144 | The record as the page writes it has exactly the keys `user_id_c`, `user_name_c`, `score_c`, `time_taken_c` and `total_questions`, with the score under `score_c` |
| Quiz.Property | src/services/api/quizAttemptService.js:62-68 | Reading an absent key gives `undefined` |
| Quiz.AttemptDataAsWrittenLosesScore | src/services/api/quizAttemptService.js:62-68 | The service finds no `user_id`, `user_name`, `score` or `time_taken` in the record as written; only `total_questions` reaches it |
| Quiz.QuizSession.constructor | src/components/pages/Quiz.jsx:17-49 | The session starts at question 0 with nothing selected, revealed, answered or submitting, and the countdown at 300 s; a load failure leaves no questions and the load error message |
| Quiz.QuizSession.SelectAnswer | src/components/pages/Quiz.jsx:69-94 | On a revealed question nothing changes; otherwise the option is selected and revealed, and exactly one answer, graded against the current question, is appended; the invariant is kept |
| Quiz.QuizSession.Submit | src/components/pages/Quiz.jsx:108-166 | With no user, nothing is stored and the page stays submitting. Otherwise one attempt is built from the recorded answers, the elapsed seconds and the question count: a rejected save stores nothing; a failed results write keeps the stored attempt. Every failure clears `isSubmitting` and keeps the answers. A saved attempt's score is the count of correct answers, between 0 and the question count |
| Quiz.QuizSession.SubmitEarly | src/components/pages/Quiz.jsx:310-312 | The early-submit button, enabled only while not submitting, submits as above |
| Quiz.QuizSession.Next | src/components/pages/Quiz.jsx:97-105 | On the last question it submits; otherwise it moves to the next index, clears the selection and reveal, and keeps the answers and the store |
| Quiz.QuizSession.Tick | src/components/pages/Quiz.jsx:219-221 | One second of the page's countdown lowers its time left by one, never below zero, and the timer is urgent exactly when 60 s or less remain |
| Quiz.QuizSession.TimeUp | src/components/pages/Quiz.jsx:61-66 | Time-up does nothing while a submission is under way and submits otherwise |
| Quiz.NoSecondAttemptAfterCompletion | src/components/pages/Quiz.jsx:61-66 | A quiz completed on its last question stores one attempt; the time-up that follows stores none |
| Quiz.RetryAfterRejectedSave | src/components/pages/Quiz.jsx:161-165 | After a rejected save a second submit stores one attempt scoring all answers recorded before the failure |
| Timer.TicksUntilTimeUpIsStart | src/components/molecules/Timer.jsx:10-22 | From t ≥ 0 seconds the countdown schedules exactly t ticks before time-up |
| Timer.Timer.constructor | src/components/molecules/Timer.jsx:6-8 | The timer starts with the initial time left and not urgent |
| Timer.Timer.Tick | src/components/molecules/Timer.jsx:16-22 | A tick lowers the time left by one, never below zero, and the timer is urgent exactly when 60 s or less remain |
| Timer.Timer.RunToTimeUp | src/components/molecules/Timer.jsx:10-22 | Running the countdown ends at time-up after the number of ticks the start dictates: at exactly zero from a non-negative start, and urgent if it ticked at all |
| Timer.QuizCountdown | src/components/pages/Quiz.jsx:219-221 | The quiz's five-minute countdown reaches time-up after exactly 300 ticks |
| QuizAttemptService.MaxId | src/services/api/quizAttemptService.js:57 | `Math.max(...ids, 0)`: non-negative, at least every Id, and 0 or one of the Ids |
| QuizAttemptService.GetAttemptById | src/services/api/quizAttemptService.js:16-23 | Succeeds exactly when the parsed Id is stored, with the first such attempt; otherwise fails with "Quiz attempt not found" |
| QuizAttemptService.FirstWithId | src/services/api/quizAttemptService.js:18 | `find` by Id: the first position holding the Id, or -1 when none does |
| QuizAttemptService.EffectiveWeek | src/services/api/quizAttemptService.js:28 | A given non-zero week is used as is; a missing or zero week becomes the current ISO week (1..53) |
| QuizAttemptService.EffectiveWeekIdempotent | src/services/api/quizAttemptService.js:46-47 | Resolving an already resolved week changes nothing, so the rank sees the leaderboard of the same week |
| QuizAttemptService.NewAttempt | src/services/api/quizAttemptService.js:56-69 | The new Id exceeds every stored Id and is 1 exactly when no stored Id is positive; the user, name, score and time are copied; the date and week come from the clock; the question count defaults to 10 when missing or 0 |
| QuizAttemptService.NewIdsAreFresh | src/services/api/quizAttemptService.js:57-71 | Two attempts created one after the other get different Ids |
| QuizAttemptService.AttemptStore.constructor | src/services/api/quizAttemptService.js:7-9 | The store starts from the seed attempts |
| QuizAttemptService.AttemptStore.GetAllAttempts | src/services/api/quizAttemptService.js:11-14 | Returns the stored attempts, in order |
| QuizAttemptService.AttemptStore.CreateAttempt | src/services/api/quizAttemptService.js:53-76 | Appends exactly the new attempt and returns it; earlier records are unchanged |
| QuizAttemptService.InsertRankedRanked | src/services/api/quizAttemptService.js:32-37 | One insertion step of the sort keeps a list in leaderboard order |
| QuizAttemptService.InsertRankedStable | src/services/api/quizAttemptService.js:32-37 | One insertion step keeps attempts with equal score and time in order, the new one last |
| QuizAttemptService.InsertRanked | src/services/api/quizAttemptService.js:32-37 | One insertion step lengthens the list by one |
| QuizAttemptService.InsertRankedPermutes | src/services/api/quizAttemptService.js:32-37 | One insertion step adds the attempt and loses nothing |
| QuizAttemptService.SortByRank | src/services/api/quizAttemptService.js:32-37 | The sort keeps the number of attempts |
| QuizAttemptService.SortByRankPermutes | src/services/api/quizAttemptService.js:32-37 | The sorted list is a permutation of the input |
| QuizAttemptService.SortByRankRanked | src/services/api/quizAttemptService.js:32-37 | The sorted list has higher scores first and, among equal scores, less time first |
| QuizAttemptService.SortByRankStable | src/services/api/quizAttemptService.js:32-37 | Attempts equal in score and time keep their stored order |
| QuizAttemptService.InWeek | src/services/api/quizAttemptService.js:30-31 | Exactly the stored attempts of the week, a sub-multiset of the store |
| QuizAttemptService.WeeklyLeaderboard | src/services/api/quizAttemptService.js:25-41 | The leaderboard is the first min(10, n) of the sorted weekly attempts |
| QuizAttemptService.LeaderboardRanked | src/services/api/quizAttemptService.js:32-38 | The leaderboard is in ranking order |
| QuizAttemptService.LeaderboardFromWeek | src/services/api/quizAttemptService.js:30-31 | Every entry is a stored attempt of the requested week |
| QuizAttemptService.LeaderboardKeepsBest | src/services/api/quizAttemptService.js:38 | An attempt of the week left off the leaderboard ranks no higher than any entry on it |
| QuizAttemptService.FirstOfUser | src/services/api/quizAttemptService.js:49 | `findIndex`: the first position holding the user, or -1 when none does |
| QuizAttemptService.UserWeeklyRank | src/services/api/quizAttemptService.js:43-51 | No rank exactly when the user is not in the top ten; otherwise a rank from 1 to 10 at the user's first entry |
| QuizAttemptService.HighestScore | src/services/api/quizAttemptService.js:99 | At least every score and equal to one of them |
| QuizAttemptService.RoundHalfUp | src/services/api/quizAttemptService.js:98-100 | `Math.round(a / b)`: the integer r with 2a − b < 2br ≤ 2a + b |
| QuizAttemptService.GetWeeklyStats | src/services/api/quizAttemptService.js:78-102 | All zeros for an empty week; otherwise the count, the mean score rounded to a tenth, the highest score and the mean time rounded to a second |
| QuizAttemptService.AverageAtMostHighest | src/services/api/quizAttemptService.js:96-100 | The rounded average score never exceeds the highest score |
| QuizAttemptService.OfUser | src/services/api/quizAttemptService.js:107 | Exactly the stored attempts of that user |
| QuizAttemptService.UserBestScore | src/services/api/quizAttemptService.js:104-113 | No score exactly when the user has no attempt; otherwise the highest score among the user's attempts |
| QuizAttemptService.SortExample | src/services/api/quizAttemptService.js:32-37 | 8 points in 120 s, 8 in 90 s and 10 in 200 s sort to 10/200, 8/90, 8/120 |
| QuizAttemptService.InWeekOfOneWeek | src/services/api/quizAttemptService.js:30-31 | Attempts that all belong to the week are their own weekly selection, in order |
| QuizAttemptService.LeaderboardExample | src/services/api/quizAttemptService.js:25-41 | The same three attempts of one week make up that week's leaderboard in that order |
| QuizAttemptService.RankExample | src/services/api/quizAttemptService.js:43-51 | The author of the 8-point, 120-second attempt ranks third |
| DateHelpers.YearLength | src/utils/dateHelpers.js:20 | Consecutive 1 January day numbers are 365 days apart, or 366 after a leap year |
| DateHelpers.MonthsAreContiguous | src/utils/dateHelpers.js:17 | Each month starts where the previous one ends, and December ends where the year does |
| DateHelpers.DayNumber | src/utils/dateHelpers.js:17 | A date's day number lies within its own year |
| DateHelpers.IsoDay | src/utils/dateHelpers.js:18 | `getUTCDay() \|\| 7` is 1 (Monday) to 7 (Sunday) |
| DateHelpers.UtcFullYear | src/utils/dateHelpers.js:20 | The year of a day is the one whose 1 January bounds it |
| DateHelpers.GetWeekNumber | src/utils/dateHelpers.js:16-22 | The week number is always 1 to 53 |
| DateHelpers.WeekNumberFormula | src/utils/dateHelpers.js:17-21 | The week number is the 1-based count of weeks from 1 January of the Thursday's year to the Thursday of the date's week, and that Thursday lies within a year of the date's own |
| DateHelpers.ThursdayYear | src/utils/dateHelpers.js:17-21 | There is a year holding the Thursday of the date's week, and the week number is counted from its 1 January |
| DateHelpers.Week1MondayFacts | src/utils/dateHelpers.js:17-21 | The Monday that starts ISO week 1 is a Monday within three days of 1 January |
| DateHelpers.ThursdayDecidesIsoYear | src/utils/dateHelpers.js:17-21 | A day lies in the ISO week-year of its week's Thursday, and counting weeks from that Thursday's 1 January gives its ISO week |
| DateHelpers.SameIsoWeek | src/utils/dateHelpers.js:18-19 | The six days after a Monday lie in that Monday's ISO week-year and ISO week |
| DateHelpers.WeekNumberIsIso | src/utils/dateHelpers.js:17-21 | The result equals the ISO 8601 week number of the date within its ISO week-year |
| DateHelpers.FourthOfJanuaryIsWeekOne | src/utils/dateHelpers.js:17-21 | 4 January is always in week 1 |
| DateHelpers.SameWeekMondayToSunday | src/utils/dateHelpers.js:18-19 | The seven days from a Monday to the next Sunday get the same week number |
| DateHelpers.LateDecemberIsWeekOne | src/utils/dateHelpers.js:20-21 | Late-December days in the next ISO year get week 1, the same value as the first week of January |
| DateHelpers.EarlyJanuaryInPreviousYear | src/utils/dateHelpers.js:20-21 | Early-January days in the previous ISO year get week 52 or 53 |
| DateHelpers.WeekOf | src/utils/dateHelpers.js:16-22 | The week number of a calendar date is 1 to 53 |
| DateHelpers.NewYear2021IsWeek53 | src/utils/dateHelpers.js:16-22 | 1 January 2021, a Friday, is in week 53 |
| DateHelpers.LateDecember2024IsWeek1 | src/utils/dateHelpers.js:16-22 | 30 December 2024, a Monday, is in week 1 |
| DateHelpers.MidOctober2026IsWeek42 | src/utils/dateHelpers.js:16-22 | 15 October 2026 is in week 42 |
| DateHelpers.FormatTimeParts | src/utils/dateHelpers.js:24-28 | For s ≥ 0 the clock text is the minutes and the seconds below 60, each padded to two digits, joined by ':' |
| DateHelpers.FormatTimeShape | src/utils/dateHelpers.js:25-27 | The seconds field is exactly two digits denoting s mod 60 |
| DateHelpers.PaddedValue | src/utils/dateHelpers.js:25-27 | A number padded to two digits is still all digits and still denotes the number |
| DateHelpers.ParseClockOf | src/utils/dateHelpers.js:24-28 | "mm:ss" with digit fields reads back as mm minutes and ss seconds |
| DateHelpers.PaddedClockRoundTrip | src/utils/dateHelpers.js:24-28 | The two padded fields of s ≥ 0 seconds read back as s |
| DateHelpers.FormatTimeRoundTrip | src/utils/dateHelpers.js:24-28 | Reading the clock text back gives s |
| Text.Trim | src/services/api/userService.js:228 | The trimmed text is no longer than the text, has no blank at either end, and is empty exactly when the text is blank |
| Text.Utf16Length | src/services/api/userService.js:228 | `length` counts UTF-16 code units: between the number of characters and twice it, and equal to it exactly when no character lies beyond U+FFFF |
| Text.TrimStart | src/services/api/userService.js:228 | Drops a blank prefix and leaves text that is empty or starts with a non-blank |
| Text.TrimEnd | src/services/api/userService.js:228 | Drops a blank suffix and leaves text that is empty or ends with a non-blank |
| Text.ToLower | src/components/pages/UploadQuestion.jsx:108 | Same length, each character lower-cased |
| Text.TrimIdempotent | src/components/pages/UploadQuestion.jsx:104-115 | Trimming twice is trimming once |
| Text.ToLowerIdempotent | src/components/pages/UploadQuestion.jsx:108 | Lower-casing twice is lower-casing once |
| Text.DecimalRoundTrip | src/components/molecules/ScoreCard.jsx:24 | The decimal text of a natural number is all digits and reads back as that number |
| Text.DecimalString | src/components/molecules/ScoreCard.jsx:24 | The text of a natural number is non-empty, all digits, and starts with 0 only for 0 |
| Text.IntString | src/components/molecules/ScoreCard.jsx:24 | The text of an integer is non-empty |
| Text.PadStart2 | src/utils/dateHelpers.js:25-27 | `padStart(2, "0")`: at least two characters, the text at the end, zeros before it |
| Text.DigitPrefixLength | src/components/pages/Quiz.jsx:139 | The longest prefix made of digits of the radix: what `parseInt` reads |
| Text.ReadDigits | src/components/pages/Quiz.jsx:139 | No number exactly when the text does not start with a digit |
| Text.ReadAllDigits | src/components/pages/Quiz.jsx:139 | A non-empty digit string is read whole as its value |
| Text.ParseUnsigned | src/components/pages/Quiz.jsx:139 | Text starting with a non-digit gives no number |
| Text.ParseUnsignedDecimal | src/components/pages/Quiz.jsx:139 | Decimal digits without a leading zero, or a single digit, read as their value |
| Text.ParseSignedMinus | src/components/pages/Quiz.jsx:139 | A minus sign negates the unsigned number after it |
| Text.ParseIntOfUntrimmed | src/components/pages/Quiz.jsx:139 | Text that starts with a non-blank goes to the sign reader unchanged |
| Text.ParseIntOfDigits | src/components/pages/Quiz.jsx:139 | `parseInt` of decimal digits without a leading zero gives their value |
| Text.ParseIntOfDecimal | src/components/pages/Quiz.jsx:139 | `parseInt` of the text of a natural number gives that number |
| Text.ParseIntOfMinusDigits | src/components/pages/Quiz.jsx:139 | `parseInt` of "-" and digits without a leading zero gives the negated value |
| Text.ParseIntOfNegative | src/components/pages/Quiz.jsx:139 | `parseInt` of the text of a negative integer gives that integer |
| Text.ParseIntOfIntString | src/components/pages/Quiz.jsx:139 | `parseInt` of an integer's text gives that integer |
| Text.ParseIntOfNonNumeric | src/components/pages/UploadQuestion.jsx:33 | `parseInt` of text whose first non-blank character is neither a digit nor a sign gives NaN |
| UserService.Pick | src/services/api/userService.js:225-226 | `name_c \|\| name`: the first unless it is empty |
| UserService.ValidateUserData | src/services/api/userService.js:223-240 | Valid exactly when there are no errors; a name error exactly when the trimmed name is shorter than 2 UTF-16 code units; a mobile error exactly when the mobile is not ten digits starting 6–9; at most two errors, the name's first |
| UserService.MobileIsNotTrimmed | src/services/api/userService.js:232 | A valid number with a leading blank is rejected |
| UserService.AstralNameAccepted | src/services/api/userService.js:228-230 | A name of one emoji, two UTF-16 code units long, raises no name error |
| UserService.UserDirectory.constructor | src/services/api/userService.js:77-131 | The directory starts from the given users |
| UserService.UserDirectory.FindUserByMobile | src/services/api/userService.js:133-172 | A failed request finds no one; otherwise the first user with that mobile, or no one when none has it |
| UserService.UserDirectory.CreateUser | src/services/api/userService.js:77-131 | An existing user is returned and nothing is created; a refused insert reports its message and creates nothing; otherwise exactly one record is added, with the chosen name under both name fields, the mobile, the clock reading and a fresh Id. A successful lookup keeps mobiles unique |
| UserService.FirstWithMobile | src/services/api/userService.js:162-163 | The first record with the mobile, or none when no record has it |
| UserService.MaxUserId | src/services/api/userService.js:94 | Non-negative and at least every stored Id |
| UserService.DuplicateAfterFailedLookup | src/services/api/userService.js:157-159 | A failed lookup lets the same mobile number be registered twice |
| UploadQuestion.BlankForm | src/components/pages/UploadQuestion.jsx:12-23 | The blank form's difficulty is 1 |
| UploadQuestion.ParseIntOr1 | src/components/pages/UploadQuestion.jsx:33 | `parseInt(v) \|\| 1`: NaN and 0 become 1, any other number is kept |
| UploadQuestion.DifficultyOptionsRoundTrip | src/components/pages/UploadQuestion.jsx:33 | The select's values "1" to "5" read back as 1 to 5 |
| UploadQuestion.WithField | src/components/pages/UploadQuestion.jsx:29-36 | A change sets exactly the named field: the difficulty parsed, any other field verbatim |
| UploadQuestion.FieldErrorMeaning | src/components/pages/UploadQuestion.jsx:46-89 | A required text field fails exactly when blank, with its "required" message; the correct option fails exactly when not a–d in either case, "required" when empty; the difficulty exactly when outside 1–5; the tags never |
| UploadQuestion.ErrorMap | src/components/pages/UploadQuestion.jsx:46-89 | The error object holds exactly the failing fields, each with its message |
| UploadQuestion.ValidateForm | src/components/pages/UploadQuestion.jsx:46-89 | Each required text field has an error exactly when blank after trimming, with its own message; the correct option exactly when not a–d in either case, "required" when empty; the difficulty exactly when outside 1–5; never the tags |
| UploadQuestion.BlankFormErrors | src/components/pages/UploadQuestion.jsx:46-89 | The blank form fails on the seven text fields and the correct option, and on nothing else |
| UploadQuestion.BlankFieldError | src/components/pages/UploadQuestion.jsx:46-89 | On the blank form every field fails except the tags and the difficulty |
| UploadQuestion.Normalise | src/components/pages/UploadQuestion.jsx:104-115 | Every text field trimmed, the correct option lower-cased, the difficulty unchanged |
| UploadQuestion.NormaliseIdempotent | src/components/pages/UploadQuestion.jsx:104-115 | Normalising a normalised record changes nothing |
| UploadQuestion.TrimKeepsBlankness | src/components/pages/UploadQuestion.jsx:104-115 | Trimming keeps a text blank exactly when it was blank |
| UploadQuestion.NormalisedFieldValid | src/components/pages/UploadQuestion.jsx:104-115 | A field that passes its check on the form passes it on the normalised record |
| UploadQuestion.NormalisedStaysValid | src/components/pages/UploadQuestion.jsx:104-115 | A valid form's normalised record is itself valid, with a lower-case option key a–d |
| UploadQuestion.UploadForm.constructor | src/components/pages/UploadQuestion.jsx:12-27 | The page starts with the blank form and no errors |
| UploadQuestion.UploadForm.HandleChange | src/components/pages/UploadQuestion.jsx:29-43 | The form gets the new value; only that field's error is blanked, all others stay |
| UploadQuestion.UploadForm.HandleSubmit | src/components/pages/UploadQuestion.jsx:92-141 | The errors become the validation result; an invalid form is not sent; a valid one is sent normalised and the form is cleared only when the upload succeeds |
| UploadQuestion.UploadForm.HandleSubmitAsWritten | src/components/pages/UploadQuestion.jsx:117 | As written, the call to the missing `createQuestion` throws: nothing is sent and the form stays |
| UploadQuestion.UploadForm.HandleReset | src/components/pages/UploadQuestion.jsx:144-158 | The blank form and no errors |
| UploadQuestion.SubmitInvalidSendsNothing | src/components/pages/UploadQuestion.jsx:95-98 | An invalid form is never sent and stays as it was |
| UploadQuestion.ValidFormIsNotUploadedAsWritten | src/components/pages/UploadQuestion.jsx:117-133 | As written, a valid form is never sent and never cleared |
| UploadQuestion.ValidFormIsUploaded | src/components/pages/UploadQuestion.jsx:104-133 | With a working upload, a valid form is sent normalised, the form is cleared and the errors are empty |
| QuestionService.FirstWithId | src/services/api/questionService.js:129 | `find` by Id: the first position holding the Id, or -1 when none does |
| QuestionService.Lookup | src/services/api/questionService.js:129-134 | `find` with `parseInt(questionId)`: the one position that holds the parsed Id first, or -1 |
| QuestionService.QuestionCache.constructor | src/services/api/questionService.js:127-139 | The cache starts empty |
| QuestionService.QuestionCache.SetCachedQuestions | src/services/api/questionService.js:137-139 | The whole cache is replaced |
| QuestionService.QuestionCache.CheckAnswer | src/services/api/questionService.js:127-130 | True exactly when the cache's first question with the parsed Id has the selected option as its correct one |
| QuestionService.QuestionCache.GetCorrectAnswer | src/services/api/questionService.js:132-135 | That question's correct option, or null when there is no cache, no match or an empty option |
| QuestionService.LookupUnique | src/services/api/questionService.js:129-134 | Each Id looks up at most one question |
| QuestionService.CheckAgreesWithCorrectAnswer | src/services/api/questionService.js:127-135 | A non-empty option is accepted exactly when `getCorrectAnswer` reports it |
| QuestionService.SumValuesBump | src/services/api/questionService.js:151-152 | Counting one more key raises the sum of the counts by one |
| QuestionService.HistogramBump | src/services/api/questionService.js:151-152 | Counting one more key keeps the map a histogram of the keys seen |
| QuestionService.TallyStep | src/services/api/questionService.js:150-153 | Counting the next question extends the histogram of the ones before it by one key, its sum by one |
| QuestionService.GetQuestionStats | src/services/api/questionService.js:141-160 | On success the total is the question count and the category and difficulty maps count each key's occurrences, each summing to the total; on failure the empty statistics |
| QuestionService.FirstPage | src/services/api/questionService.js:25-31 | The fetched page is a prefix of the records, at most the limit long, and all of them when they fit |
| QuestionService.GetRandomQuestions | src/services/api/questionService.js:11-49 | A failed fetch gives "Failed to fetch questions"; otherwise min(count, page size) questions drawn from the page of at most 3·count records |
| QuestionService.RandomPickProperties | src/services/api/questionService.js:26-40 | Every picked question is a stored record, and enough records fill the quiz |
| QuestionOption.GetOptionState | src/components/molecules/QuestionOption.jsx:14-28 | Before reveal, selected or default by the selection; after reveal, the correct option is "correct", a chosen wrong one "incorrect", the others "revealed" |
| QuestionOption.StateShowsReveal | src/components/molecules/QuestionOption.jsx:14-28 | The state is one of correct, incorrect or revealed exactly when the answer is revealed |
| QuestionOption.GetIcon | src/components/molecules/QuestionOption.jsx:40-54 | The icon is one of CheckCircle2, XCircle, Circle |
| QuestionOption.IconFollowsState | src/components/molecules/QuestionOption.jsx:40-54 | XCircle exactly in the incorrect state; CheckCircle2 exactly when selected or correct; Circle otherwise |
| QuestionOption.RevealedQuestionShowsAnswer | src/components/molecules/QuestionOption.jsx:19-67 | On a revealed question exactly the correct option shows as correct, a wrong one as incorrect exactly when it was chosen, and every button is disabled |
| ScoreCard.Percentage | src/components/molecules/ScoreCard.jsx:8 | Round half up of 100·score/total; with no questions, NaN for no score and Infinity otherwise |
| ScoreCard.PercentageRange | src/components/molecules/ScoreCard.jsx:8 | 0 to 100; 100 when every answer is correct, 0 when none is |
| ScoreCard.PercentageMonotone | src/components/molecules/ScoreCard.jsx:8 | A higher score never shows a smaller percentage |
| ScoreCard.ExcellentIsGood | src/components/molecules/ScoreCard.jsx:9-10 | Every excellent result is a good one |
| ScoreCard.PerformanceLevel | src/components/molecules/ScoreCard.jsx:12-17 | The level's tier is the number of the thresholds 60, 80 and 90 reached |
| ScoreCard.PerformanceMonotone | src/components/molecules/ScoreCard.jsx:12-17 | A higher percentage never earns a lower level |
| ScoreCard.BadgeOf | src/components/molecules/ScoreCard.jsx:13-16 | Every level has a non-empty name and icon |
| ScoreCard.BadgesDistinct | src/components/molecules/ScoreCard.jsx:13-16 | Different levels show different names and icons |
| ScoreCard.MessageFollowsLevel | src/components/molecules/ScoreCard.jsx:108-110 | The excellent message exactly for Outstanding and Excellent, the good one for Good, the default otherwise |
| ScoreCard.FormatDurationParts | src/components/molecules/ScoreCard.jsx:21-25 | For s ≥ 0 the text is the whole minutes, "m ", the unpadded seconds 0–59, "s" |
| ScoreCard.ParseDurationOf | src/components/molecules/ScoreCard.jsx:21-25 | "<mm>m <ss>s" with non-empty digit fields reads back as mm minutes and ss seconds |
| ScoreCard.DurationRoundTrip | src/components/molecules/ScoreCard.jsx:21-25 | Reading the duration text back gives s |
| ScoreCard.FiveSecondsExample | src/components/molecules/ScoreCard.jsx:21-25 | 5 s shows "0m 5s" on the card and "00:05" on the quiz clock |
| Header.HomeOnlyAtRoot | src/components/organisms/Header.jsx:22 | Home is active exactly on "/" |
| Header.PrefixIsNotSegmentAware | src/components/organisms/Header.jsx:23 | "/entry" is active on "/entryX" and "/entry/details", not on "/entr" |
| Header.AtMostOneActive | src/components/organisms/Header.jsx:15-25 | No two menu entries are active at once |
| Header.ActiveEntries | src/components/organisms/Header.jsx:15-25 | At most one entry is active, and an entry is listed exactly when it is active |

## Left out

- Backend SDK calls (`fetchRecords`, `createRecord`, `getAllQuestions` and the other wrappers) are
  not modelled. Their results, or their failure, are parameters: `fetched`, `records`,
  `lookupFails`, `insertFailure`, `uploadOk` and `loaded`.
- The `delay()` pauses, Promise sequencing, toasts, navigation and the `sessionStorage` hand-off are
  left out. The user read from the session is an `Option` parameter, and a failed results write
  is the `ResultsWriteFails` fault.
- React effect and `setInterval` scheduling, including stale-closure timing, is event-loop
  concurrency and is not modelled. The page is a sequence of method calls guarded by
  `isSubmitting`. The disabled buttons become `requires !isSubmitting` on `Next` and `SubmitEarly`.
- The random shuffle in `getRandomQuestions` is not modelled as a distribution. The shuffled order
  is a parameter that may be any permutation of the page.
- `getCurrentWeek` and `getSanskritBlessing` (src/utils/dateHelpers.js) are left out: they read the
  wall clock, call a random number generator or format with date-fns. The current instant is a
  parameter.
- Floating point is replaced by integer round-half-up: the weekly averages and the card's
  percentage. ScoreCard.Percentage takes whole, non-negative counts.
- The mock `createAttempt` cannot throw. The `SaveRejected` fault stands for the rejection that the
  page's catch branch is written for (src/components/pages/Quiz.jsx:161-165).
- Quiz.QuizSession.Submit: the branch that grades a pending, unrevealed choice
  (src/components/pages/Quiz.jsx:125-133) is never taken under the page's invariant. It is an
  unreachable branch in the model, not a modelled behaviour.
- Quiz.GradeAgreesWithCheckAnswer: the quiz page never calls `setCachedQuestions`, so this relates
  the page's grading to the service under a cache assumed to hold the quiz's questions.
- The `timeRemaining` state of the quiz page (src/components/pages/Quiz.jsx:22) is never used and is
  not modelled; the countdown lives in the `Timer` object.
- DateHelpers.GetWeekNumber: `Date.UTC` reads a year from 0 to 99 as 1900 plus that year, at both of
  its calls (src/utils/dateHelpers.js:17 and :20); the model takes every year as given. For a date of
  years 0 to 99 the source therefore gives the week of the same day in 1900 to 1999, and on 1 to 3
  January of year 100, whose week's Thursday lies in year 99, it gives a large negative number. A
  `Date` also spans only ±8.64·10^15 ms around 1970, beyond which the source gives NaN; the model has
  no such bound.
- DateHelpers.DayNumber: a day count of the proleptic Gregorian calendar for every year, without the
  years-0-to-99 reading of `Date.UTC` described under DateHelpers.GetWeekNumber.
- DateHelpers.WeekNumberIsIso: the source agrees with the ISO week only for dates whose year and
  whose week's Thursday's year both lie outside 0 to 99, as described under DateHelpers.GetWeekNumber.
- DateHelpers.WeekOf: the bound 1 to 53 holds for the model; the source breaks it on 1 to 3 January
  of year 100, as described under DateHelpers.GetWeekNumber.
- The link between `Date.now()` and the local calendar date (time zones, the moment the day changes)
  is not modelled. The two fields of an `Instant` are independent, so a modelled attempt's
  `quiz_date` and `week_number` may refer to different days.
- QuestionService.QuestionCache.CheckAnswer: a question without `correct_option_c` is modelled with
  the option "" by the missing-string convention, so an empty selection "" is accepted for it; the
  source compares `undefined === ""` and rejects it (src/services/api/questionService.js:129).
- Text.ToLower folds ASCII letters only, which covers the option keys a–d.
- Text.Trim uses the ECMAScript white-space and line-terminator set as characters; no Unicode
  normalisation is modelled.
- Stored dates are milliseconds rather than ISO strings. `created_at_c` and `quiz_date` are the
  clock reading.
- Ids assigned by the backend are modelled as one more than the largest stored Id (UserService.MaxUserId).
- The rendering of every component, the menu-open toggle of the header, the leaderboard, results,
  certificate and entry pages, and `App.jsx` are not part of this model.
- The leaderboard page reads `score_c` from the attempts. That page is not part of this model, so
  the third field-name spelling is not modelled.

## Findings

| source | as written | input that shows it | evidently intended | confidence | as-written member | corrected member |
|---|---|---|---|---|---|---|
| src/components/pages/Quiz.jsx:138-144 | The attempt is sent with keys `user_id_c`, `user_name_c`, `score_c`, `time_taken_c`, but `createAttempt` reads `user_id`, `user_name`, `score`, `time_taken` (src/services/api/quizAttemptService.js:62-65) | Any submission, e.g. one correct answer out of ten: the stored attempt has no user, name, score or time, only `total_questions` 10 | The stored attempt carries the user's Id and name, the score and the time taken | not executed | Quiz.AttemptDataAsWrittenLosesScore | Quiz.QuizSession.Submit |
| src/components/pages/UploadQuestion.jsx:117 | `handleSubmit` calls `questionService.createQuestion`, which src/services/api/questionService.js does not define, so the call throws and the catch branch reports failure | Any valid form, e.g. every text field "x", option "a", difficulty 1: nothing is uploaded and the form is not cleared | A valid form is uploaded normalised and the form is reset | not executed | UploadQuestion.ValidFormIsNotUploadedAsWritten | UploadQuestion.ValidFormIsUploaded |
