/** The survey screen (SurveyPage.jsx): the participant opens the external
    survey, then types the completion code it shows; the flow continues only
    with the right code. */
module Survey {

  import opened Text

  const CompletionCode: string := "12345"

  /** `surveyCode.trim().toLowerCase() === "12345"`. */
  predicate CodeAccepted(code: string) {
    ToLower(Trim(code)) == CompletionCode
  }

  /** The code has no letters, so lower-casing changes nothing: a code is
      accepted exactly when, without surrounding whitespace, it is the
      completion code. */
  lemma CodeAcceptedIff(code: string)
    ensures CodeAccepted(code) <==> Trim(code) == CompletionCode
  {
    assert NoLetters(CompletionCode) by {
      forall i | 0 <= i < |CompletionCode| ensures '0' <= CompletionCode[i] <= '9' {
        assert CompletionCode[i] in "12345";
      }
    }
    LowerEqualsCaseless(Trim(code), CompletionCode);
  }

  /** `disabled` of the code input: while the survey is not opened, neither
      the code nor the Continue button can be used. */
  predicate InputDisabled(surveyOpened: bool)
    ensures InputDisabled(surveyOpened) ==> forall code :: ContinueDisabled(surveyOpened, code)
  {
    !surveyOpened
  }

  /** `disabled` of the Continue button: off until the survey is opened, and
      off for a code that is all whitespace. */
  predicate ContinueDisabled(surveyOpened: bool, code: string)
    ensures ContinueDisabled(surveyOpened, code) <==> !surveyOpened || AllSpace(code)
  {
    TrimEmptyIffBlank(code);
    !surveyOpened || Trim(code) == []
  }

  /** Once the survey is opened, the right code can always be sent. */
  lemma AcceptedCodeIsEnabled(code: string)
    requires CodeAccepted(code)
    ensures !ContinueDisabled(true, code)
  {}

  class SurveyPage {
    var surveyCode: string
    var codeError: bool
    var surveyOpened: bool
    /** Whether `onComplete` has been called. */
    var completed: bool

    constructor ()
      ensures surveyCode == [] && !codeError && !surveyOpened && !completed
    {
      surveyCode := [];
      codeError := false;
      surveyOpened := false;
      completed := false;
    }

    /** `handleSurveyCodeSubmit`. */
    method SubmitCode()
      modifies this
      ensures surveyCode == old(surveyCode) && surveyOpened == old(surveyOpened)
      ensures codeError == !CodeAccepted(surveyCode)
      ensures completed == (old(completed) || CodeAccepted(surveyCode))
    {
      var accepted := CodeAccepted(surveyCode);
      if accepted {
        codeError := false;
        completed := true;
      } else {
        codeError := true;
      }
    }

    /** `handleOpenSurvey`: once opened, the survey stays opened. */
    method OpenSurvey()
      modifies this
      ensures surveyOpened
      ensures surveyCode == old(surveyCode) && codeError == old(codeError) && completed == old(completed)
    {
      surveyOpened := true;
    }

    /** The input's `onChange`: editing clears the error. */
    method EditCode(text: string)
      modifies this
      ensures surveyCode == text && !codeError
      ensures surveyOpened == old(surveyOpened) && completed == old(completed)
    {
      surveyCode := text;
      codeError := false;
    }
  }

  /** Whitespace around the code is ignored. */
  lemma PaddedCodeAccepted()
    ensures CodeAccepted(" 12345\n")
  {
    var padded := " 12345\n";
    assert IsSpace(padded[0]) && padded[1..] == "12345\n";
    assert !IsSpace("12345\n"[0]);
    assert TrimStart(padded) == "12345\n";
    assert IsSpace("12345\n"[5]) && "12345\n"[..5] == "12345";
    assert !IsSpace("12345"[4]);
    assert TrimEnd("12345\n") == "12345";
    CodeAcceptedIff(" 12345\n");
  }

  /** A refused code shows the error; editing clears it again, and the
      survey stays opened. */
  method WrongCodeThenEdit(page: SurveyPage, wrong: string, next: string)
    requires !CodeAccepted(wrong)
    modifies page
  {
    page.OpenSurvey();
    page.EditCode(wrong);
    page.SubmitCode();
    assert page.codeError && page.surveyOpened;
    page.EditCode(next);
    assert !page.codeError && page.surveyOpened;
  }
}
