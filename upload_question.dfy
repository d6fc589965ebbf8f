/**
 * The question upload form of `UploadQuestion.jsx`: the form record, the per-field validation, the
 * change handler, the normalisation of the record that is uploaded, and reset. The upload call's
 * outcome is a parameter.
 */
module UploadQuestion {
  import opened Wrappers
  import opened Text

  /** The form's inputs, by their `name` attribute. */
  datatype Field =
    | Name | Tags | Category | CorrectOption | Difficulty
    | OptionA | OptionB | OptionC | OptionD | QuestionText

  /** `formData`; every field but the difficulty is text. */
  datatype FormData = FormData(
    name: string, tags: string, category: string, correctOption: string, difficulty: int,
    optionA: string, optionB: string, optionC: string, optionD: string, questionText: string)

  /** The record the form starts from and returns to: empty text, difficulty 1. */
  function BlankForm(): (f: FormData)
    ensures f.difficulty == 1
  {
    FormData("", "", "", "", 1, "", "", "", "", "")
  }

  /** `parseInt(value) || 1`: NaN and zero become 1. */
  function ParseIntOr1(value: string): (d: int)
    ensures d != 0
    ensures ParseInt(value).None? ==> d == 1
    ensures ParseInt(value).Some? && ParseInt(value).value != 0 ==> d == ParseInt(value).value
  {
    var parsed := ParseInt(value);
    if parsed.None? || parsed.value == 0 then 1 else parsed.value
  }

  /** The difficulty select's values "1" to "5" are read back as the numbers they show. */
  lemma DifficultyOptionsRoundTrip(level: int)
    requires 1 <= level <= 5
    ensures ParseIntOr1(IntString(level)) == level
  {
    ParseIntOfIntString(level);
  }

  /** The form after `handleChange` on one input: the difficulty is parsed, the rest kept verbatim. */
  function WithField(form: FormData, field: Field, value: string): (r: FormData)
    ensures field == Difficulty ==> r == form.(difficulty := ParseIntOr1(value))
    ensures field != Difficulty ==> r.difficulty == form.difficulty
    ensures field == Name ==> r == form.(name := value)
    ensures field == Tags ==> r == form.(tags := value)
    ensures field == Category ==> r == form.(category := value)
    ensures field == CorrectOption ==> r == form.(correctOption := value)
    ensures field == OptionA ==> r == form.(optionA := value)
    ensures field == OptionB ==> r == form.(optionB := value)
    ensures field == OptionC ==> r == form.(optionC := value)
    ensures field == OptionD ==> r == form.(optionD := value)
    ensures field == QuestionText ==> r == form.(questionText := value)
  {
    match field
    case Name => form.(name := value)
    case Tags => form.(tags := value)
    case Category => form.(category := value)
    case CorrectOption => form.(correctOption := value)
    case Difficulty => form.(difficulty := ParseIntOr1(value))
    case OptionA => form.(optionA := value)
    case OptionB => form.(optionB := value)
    case OptionC => form.(optionC := value)
    case OptionD => form.(optionD := value)
    case QuestionText => form.(questionText := value)
  }

  /** The correct option, lower-cased, names one of the four options. */
  predicate IsOptionKey(s: string) {
    var k := ToLower(s);
    k == "a" || k == "b" || k == "c" || k == "d"
  }

  /** The fields that must hold non-blank text. */
  predicate IsRequiredText(field: Field) {
    !(field == Tags || field == CorrectOption || field == Difficulty)
  }

  /** The text typed into a field; the difficulty select has none. */
  function TextOf(form: FormData, field: Field): (t: string)
    ensures field == Difficulty ==> t == ""
  {
    match field
    case Name => form.name
    case Tags => form.tags
    case Category => form.category
    case CorrectOption => form.correctOption
    case Difficulty => ""
    case OptionA => form.optionA
    case OptionB => form.optionB
    case OptionC => form.optionC
    case OptionD => form.optionD
    case QuestionText => form.questionText
  }

  /** The message shown under a required text field left blank. */
  function RequiredMessage(field: Field): (m: string)
    ensures m != ""
  {
    match field
    case Name => "Question name is required"
    case QuestionText => "Question text is required"
    case Category => "Category is required"
    case OptionA => "Option A is required"
    case OptionB => "Option B is required"
    case OptionC => "Option C is required"
    case OptionD => "Option D is required"
    case _ => "Field is required"
  }

  /** The message `validateForm` records for one field, if any. */
  function FieldError(form: FormData, field: Field): (r: Option<string>)
    ensures r.Some? ==> r.value != ""
  {
    if IsRequiredText(field) then
      if Trim(TextOf(form, field)) == "" then Some(RequiredMessage(field)) else None
    else if field == CorrectOption then
      if form.correctOption == "" then Some("Correct option is required")
      else if !IsOptionKey(form.correctOption) then Some("Correct option must be a, b, c, or d")
      else None
    else if field == Difficulty then
      if form.difficulty < 1 || form.difficulty > 5 then Some("Difficulty must be between 1 and 5") else None
    else None
  }

  /** The check of one field: a blank required text, a bad option key, a difficulty outside 1 to 5. */
  lemma FieldErrorMeaning(form: FormData, f: Field)
    ensures IsRequiredText(f) ==>
      (FieldError(form, f).Some? <==> IsBlank(TextOf(form, f)))
      && (FieldError(form, f).Some? ==> FieldError(form, f).value == RequiredMessage(f))
    ensures f == CorrectOption ==>
      (FieldError(form, f).Some? <==> !IsOptionKey(form.correctOption))
      && (FieldError(form, f).Some? ==>
            FieldError(form, f).value == if form.correctOption == "" then "Correct option is required"
                                         else "Correct option must be a, b, c, or d")
    ensures f == Difficulty ==> (FieldError(form, f).Some? <==> !(1 <= form.difficulty <= 5))
    ensures f == Tags ==> FieldError(form, f).None?
  {
    if f == CorrectOption && form.correctOption == "" {
      assert ToLower(form.correctOption) == "";
    }
  }

  const AllFields: set<Field> :=
    {Name, Tags, Category, CorrectOption, Difficulty, OptionA, OptionB, OptionC, OptionD, QuestionText}

  /** One message per field whose check fails. */
  function ErrorMap(form: FormData): (errors: map<Field, string>)
    ensures forall f :: f in errors <==> FieldError(form, f).Some?
    ensures forall f :: f in errors ==> errors[f] == FieldError(form, f).value
  {
    map f | f in AllFields && FieldError(form, f).Some? :: FieldError(form, f).value
  }

  /**
   * `validateForm`: one message per invalid field. Text fields must be non-blank after trimming, the
   * correct option a, b, c or d in either case, the difficulty 1 to 5; the tags are not checked.
   */
  function ValidateForm(form: FormData): (errors: map<Field, string>)
    ensures forall f :: IsRequiredText(f) ==>
              (f in errors <==> IsBlank(TextOf(form, f))) && (f in errors ==> errors[f] == RequiredMessage(f))
    ensures CorrectOption in errors <==> !IsOptionKey(form.correctOption)
    ensures CorrectOption in errors ==>
      errors[CorrectOption] == if form.correctOption == "" then "Correct option is required"
                               else "Correct option must be a, b, c, or d"
    ensures Difficulty in errors <==> !(1 <= form.difficulty <= 5)
    ensures Tags !in errors
    ensures forall f :: f in errors ==> errors[f] != ""
  {
    var errors := ErrorMap(form);
    forall f | IsRequiredText(f)
      ensures (f in errors <==> IsBlank(TextOf(form, f))) && (f in errors ==> errors[f] == RequiredMessage(f))
    {
      FieldErrorMeaning(form, f);
    }
    FieldErrorMeaning(form, CorrectOption);
    FieldErrorMeaning(form, Difficulty);
    FieldErrorMeaning(form, Tags);
    errors
  }

  /** The blank form fails on every required field and on the correct option, not on its difficulty. */
  lemma BlankFormErrors()
    ensures forall f :: f in ValidateForm(BlankForm()) <==> f != Tags && f != Difficulty
  {
    var form := BlankForm();
    assert ValidateForm(form) == ErrorMap(form);
    forall f ensures f in ErrorMap(form) <==> f != Tags && f != Difficulty {
      BlankFieldError(f);
    }
  }

  /** On the blank form every field but the tags and the difficulty fails. */
  lemma BlankFieldError(f: Field)
    ensures FieldError(BlankForm(), f).Some? <==> f != Tags && f != Difficulty
  {
    assert TextOf(BlankForm(), f) == "";
    assert !IsOptionKey("") by {
      assert ToLower("") == "";
    }
  }

  /** `questionData`: what is sent for a valid form. */
  datatype QuestionData = QuestionData(
    name: string, tags: string, category: string, correctOption: string, difficulty: int,
    optionA: string, optionB: string, optionC: string, optionD: string, questionText: string)

  /** Trims every text field, lower-cases the correct option and passes the difficulty through. */
  function Normalise(form: FormData): (q: QuestionData)
    ensures q.name == Trim(form.name) && q.tags == Trim(form.tags) && q.category == Trim(form.category)
    ensures q.optionA == Trim(form.optionA) && q.optionB == Trim(form.optionB)
    ensures q.optionC == Trim(form.optionC) && q.optionD == Trim(form.optionD)
    ensures q.questionText == Trim(form.questionText)
    ensures q.correctOption == ToLower(form.correctOption) && q.difficulty == form.difficulty
  {
    QuestionData(
      Trim(form.name), Trim(form.tags), Trim(form.category), ToLower(form.correctOption), form.difficulty,
      Trim(form.optionA), Trim(form.optionB), Trim(form.optionC), Trim(form.optionD), Trim(form.questionText))
  }

  function AsForm(q: QuestionData): FormData {
    FormData(q.name, q.tags, q.category, q.correctOption, q.difficulty, q.optionA, q.optionB, q.optionC, q.optionD, q.questionText)
  }

  /** Normalising what was already normalised changes nothing. */
  lemma NormaliseIdempotent(form: FormData)
    ensures Normalise(AsForm(Normalise(form))) == Normalise(form)
  {
    TrimIdempotent(form.name);
    TrimIdempotent(form.tags);
    TrimIdempotent(form.category);
    TrimIdempotent(form.optionA);
    TrimIdempotent(form.optionB);
    TrimIdempotent(form.optionC);
    TrimIdempotent(form.optionD);
    TrimIdempotent(form.questionText);
    ToLowerIdempotent(form.correctOption);
  }

  lemma TrimKeepsBlankness(s: string)
    ensures IsBlank(Trim(s)) <==> IsBlank(s)
  {
    TrimIdempotent(s);
  }

  /** A field that passes its check on the form still passes it on the normalised record. */
  lemma NormalisedFieldValid(form: FormData, f: Field)
    requires FieldError(form, f).None?
    ensures FieldError(AsForm(Normalise(form)), f).None?
  {
    var normal := AsForm(Normalise(form));
    FieldErrorMeaning(form, f);
    FieldErrorMeaning(normal, f);
    if IsRequiredText(f) {
      assert TextOf(normal, f) == Trim(TextOf(form, f));
      TrimKeepsBlankness(TextOf(form, f));
    } else if f == CorrectOption {
      ToLowerIdempotent(form.correctOption);
    }
  }

  /** What is uploaded passes the form's own checks, with an option key that is already lower case. */
  lemma NormalisedStaysValid(form: FormData)
    requires ValidateForm(form) == map[]
    ensures ValidateForm(AsForm(Normalise(form))) == map[]
    ensures var k := Normalise(form).correctOption; k == "a" || k == "b" || k == "c" || k == "d"
  {
    var normal := AsForm(Normalise(form));
    assert ValidateForm(form) == ErrorMap(form);
    assert ValidateForm(normal) == ErrorMap(normal);
    forall f ensures f !in ErrorMap(normal) {
      assert f !in ErrorMap(form);
      NormalisedFieldValid(form, f);
    }
    assert CorrectOption !in ValidateForm(form);
  }

  /** The page's state: the form and the messages shown beside its fields. */
  class UploadForm {
    var formData: FormData
    var errors: map<Field, string>

    constructor ()
      ensures formData == BlankForm() && errors == map[]
    {
      formData := BlankForm();
      errors := map[];
    }

    /** `handleChange`: stores the new value and blanks that field's message, if it had one. */
    method HandleChange(field: Field, value: string)
      modifies this
      ensures formData == WithField(old(formData), field, value)
      ensures field in old(errors) && old(errors)[field] != "" ==> errors == old(errors)[field := ""]
      ensures !(field in old(errors) && old(errors)[field] != "") ==> errors == old(errors)
      ensures forall f :: f != field ==> (f in errors <==> f in old(errors)) && (f in errors ==> errors[f] == old(errors)[f])
    {
      formData := WithField(formData, field, value);
      if field in errors && errors[field] != "" {
        errors := errors[field := ""];
      }
    }

    /**
     * `handleSubmit`: validates, and for a valid form hands the normalised record to the upload;
     * `uploadOk` says whether that call succeeded. Only a successful upload clears the form.
     */
    method HandleSubmit(uploadOk: bool) returns (sent: Option<QuestionData>)
      modifies this
      ensures errors == ValidateForm(old(formData))
      ensures errors != map[] ==> sent == None && formData == old(formData)
      ensures errors == map[] ==> sent == Some(Normalise(old(formData)))
      ensures errors == map[] && uploadOk ==> formData == BlankForm()
      ensures errors == map[] && !uploadOk ==> formData == old(formData)
    {
      errors := ValidateForm(formData);
      if errors != map[] {
        return None;
      }
      sent := Some(Normalise(formData));
      if uploadOk {
        formData := BlankForm();
      }
    }

    /**
     * `handleSubmit` as the file is written: `createQuestion` is not a function of the question
     * service, so calling it throws before anything is uploaded and the catch branch runs.
     */
    method HandleSubmitAsWritten() returns (sent: Option<QuestionData>)
      modifies this
      ensures errors == ValidateForm(old(formData)) && formData == old(formData) && sent == None
    {
      errors := ValidateForm(formData);
      sent := None;
    }

    /** `handleReset`: the blank form and no messages. */
    method HandleReset()
      modifies this
      ensures formData == BlankForm() && errors == map[]
    {
      formData := BlankForm();
      errors := map[];
    }
  }

  /** An invalid form is never sent and stays as it was, whatever the upload would do. */
  method SubmitInvalidSendsNothing(page: UploadForm, uploadOk: bool) returns (sent: Option<QuestionData>)
    requires ValidateForm(page.formData) != map[]
    modifies page
    ensures sent == None && page.formData == old(page.formData)
  {
    sent := page.HandleSubmit(uploadOk);
  }

  /** As written, even a valid form is never uploaded and never cleared. */
  method ValidFormIsNotUploadedAsWritten(page: UploadForm) returns (sent: Option<QuestionData>)
    requires ValidateForm(page.formData) == map[]
    modifies page
    ensures sent == None && page.formData == old(page.formData) && page.formData != BlankForm()
  {
    BlankFormErrors();
    sent := page.HandleSubmitAsWritten();
  }

  /** With an upload call that succeeds, a valid form is sent normalised and the form is cleared. */
  method ValidFormIsUploaded(page: UploadForm) returns (sent: Option<QuestionData>)
    requires ValidateForm(page.formData) == map[]
    modifies page
    ensures sent == Some(Normalise(old(page.formData))) && page.formData == BlankForm() && page.errors == map[]
  {
    sent := page.HandleSubmit(true);
  }
}
