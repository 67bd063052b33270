/** The study flow (App.jsx): a fixed sequence of screens, each with an id,
    a progress percentage and, except the landing page, a step number; the
    handlers the screens call move the flow to the next screen. */
module StudyFlow {

  import opened Wrappers
  import opened Ledger
  import WM = WordMeaning

  datatype Step = Landing | ProlificId | Practice | MainGame | Survey | MeaningCheck | Debrief | ThankYou

  datatype StepInfo = StepInfo(id: string, progress: int, number: Option<nat>, title: string)

  /** The `STEPS` table: every screen has an id and a progress between 0
      and 100, and all but the landing page a step number. */
  function Info(s: Step): (r: StepInfo)
    ensures r.id != [] && 0 <= r.progress <= 100
    ensures r.number.None? <==> s == Landing
  {
    match s
    case Landing => StepInfo("landing", 0, None, "Welcome to the Anagram Study")
    case ProlificId => StepInfo("prolific_id", 10, Some(1), "Participant Registration")
    case Practice => StepInfo("tutorial", 30, Some(2), "Practice Round")
    case MainGame => StepInfo("main_game", 50, Some(3), "Anagram Challenge")
    case Survey => StepInfo("survey", 70, Some(4), "Quick Survey")
    case MeaningCheck => StepInfo("word_meaning", 85, Some(5), "Word Meanings")
    case Debrief => StepInfo("debrief", 90, Some(6), "Study Debrief")
    case ThankYou => StepInfo("thank_you", 100, Some(7), "Thank You")
  }

  /** `Object.values(STEPS)`, in declaration order. */
  const AllSteps: seq<Step> := [Landing, ProlificId, Practice, MainGame, Survey, MeaningCheck, Debrief, ThankYou]

  /** The screen each handler leads to: before the end, the next screen has
      more progress and the next step number; the last screen stays. */
  function Next(s: Step): (r: Step)
    ensures s == ThankYou <==> r == s
    ensures s != ThankYou ==> Info(r).progress > Info(s).progress
    ensures s != Landing && s != ThankYou ==> Info(r).number == Some(Info(s).number.value + 1)
  {
    match s
    case Landing => ProlificId
    case ProlificId => Practice
    case Practice => MainGame
    case MainGame => Survey
    case Survey => MeaningCheck
    case MeaningCheck => Debrief
    case Debrief => ThankYou
    case ThankYou => ThankYou
  }

  /** The first entry of `steps` with this id, or the landing page. */
  function FindStep(steps: seq<Step>, id: string): (r: Step)
    ensures r == Landing || r in steps
    ensures r != Landing ==> Info(r).id == id
    decreases |steps|
  {
    if steps == [] then Landing
    else if Info(steps[0]).id == id then steps[0]
    else FindStep(steps[1..], id)
  }

  /** `getCurrentStep`: the screen with this id, or the landing page. */
  function CurrentStep(id: string): (r: Step)
    ensures r == Landing || Info(r).id == id
  {
    FindStep(AllSteps, id)
  }

  /** No two screens share an id. */
  predicate DistinctIds(steps: seq<Step>) {
    forall i, j :: 0 <= i < j < |steps| ==> Info(steps[i]).id != Info(steps[j]).id
  }

  lemma {:induction false} FindListed(steps: seq<Step>, s: Step)
    requires DistinctIds(steps) && s in steps
    ensures FindStep(steps, Info(s).id) == s
    decreases |steps|
  {
    if steps[0] != s {
      var k :| 0 <= k < |steps| && steps[k] == s;
      assert Info(steps[0]).id != Info(steps[k]).id;
      assert s in steps[1..] by { assert steps[1..][k - 1] == s; }
      assert DistinctIds(steps[1..]) by {
        forall i, j | 0 <= i < j < |steps| - 1 ensures Info(steps[1..][i]).id != Info(steps[1..][j]).id {
          assert steps[1..][i] == steps[i + 1] && steps[1..][j] == steps[j + 1];
        }
      }
      FindListed(steps[1..], s);
    }
  }

  /** Every screen's own id finds that screen, and an id no screen has
      falls back to the landing page. */
  lemma CurrentStepLookup(id: string)
    ensures forall s: Step :: CurrentStep(Info(s).id) == s
    ensures (forall s: Step :: Info(s).id != id) ==> CurrentStep(id) == Landing
  {
    assert DistinctIds(AllSteps);
    forall s: Step ensures CurrentStep(Info(s).id) == s {
      var k := match s
        case Landing => 0 case ProlificId => 1 case Practice => 2 case MainGame => 3
        case Survey => 4 case MeaningCheck => 5 case Debrief => 6 case ThankYou => 7;
      assert AllSteps[k] == s;
      FindListed(AllSteps, s);
    }
  }

  /** The handlers take the screens in table order, and progress never goes
      down along it, from 0 on the landing page to 100 at the end. */
  lemma FlowOrder()
    ensures forall i :: 0 <= i < |AllSteps| - 1 ==> Next(AllSteps[i]) == AllSteps[i + 1]
    ensures forall i, j :: 0 <= i <= j < |AllSteps| ==> Info(AllSteps[i]).progress <= Info(AllSteps[j]).progress
    ensures Info(AllSteps[0]).progress == 0 && Info(AllSteps[|AllSteps| - 1]).progress == 100
    ensures forall i :: 1 <= i < |AllSteps| ==> Info(AllSteps[i]).number == Some(i)
  {}

  /** The "of N" of the step label as written: the number of screens less
      two. */
  const StepTotalAsWritten: int := |AllSteps| - 2

  /** The label "Step k of N" shown on a numbered screen, as written. */
  function StepLabelAsWritten(s: Step): Option<(nat, int)> {
    if Info(s).number.Some? then Some((Info(s).number.value, StepTotalAsWritten)) else None
  }

  /** The last screen is labelled "Step 7 of 6". */
  lemma ThankYouLabelOverflows()
    ensures StepLabelAsWritten(ThankYou) == Some((7, 6))
    ensures StepLabelAsWritten(ThankYou).value.0 > StepLabelAsWritten(ThankYou).value.1
  {}

  /** The number of numbered screens, the total the label evidently means. */
  const StepTotal: int := |AllSteps| - 1

  /** The step label with the corrected total. */
  function StepLabel(s: Step): (r: Option<(nat, int)>)
    ensures r.Some? <==> s != Landing
    ensures r.Some? ==> 1 <= r.value.0 <= r.value.1 == StepTotal
  {
    if Info(s).number.Some? then Some((Info(s).number.value, StepTotal)) else None
  }

  /** The outcome of `initializeSession`: it threw, or it returned the body's
      `sessionId` (possibly absent). */
  datatype SessionOutcome = SessionFailed | SessionCreated(sessionId: Option<string>)

  class App {
    var currentStep: Step
    var sessionId: Option<string>
    var prolificId: string
    var validatedWords: seq<SubmittedWord>
    var isInitializing: bool

    constructor ()
      ensures currentStep == Landing && sessionId == None && prolificId == [] && validatedWords == [] && !isInitializing
    {
      currentStep := Landing;
      sessionId := None;
      prolificId := [];
      validatedWords := [];
      isInitializing := false;
    }

    method StartStudy()
      modifies this
      ensures currentStep == Next(Landing)
      ensures sessionId == old(sessionId) && prolificId == old(prolificId)
      ensures validatedWords == old(validatedWords) && isInitializing == old(isInitializing)
    {
      currentStep := ProlificId;
    }

    /** `handleProlificIdSubmit`: the id is stored first; the flow moves on
        to the practice round only once the session has been created, and
        stays put when creating it throws. */
    method ProlificIdSubmit(id: string, outcome: SessionOutcome)
      modifies this
      ensures prolificId == id && !isInitializing
      ensures outcome.SessionCreated? ==> sessionId == outcome.sessionId && currentStep == Next(ProlificId)
      ensures outcome.SessionFailed? ==> sessionId == old(sessionId) && currentStep == old(currentStep)
      ensures validatedWords == old(validatedWords)
    {
      isInitializing := true;
      prolificId := id;
      if outcome.SessionCreated? {
        sessionId := outcome.sessionId;
        currentStep := Practice;
      }
      isInitializing := false;
    }

    method TutorialComplete()
      modifies this
      ensures currentStep == Next(Practice)
      ensures sessionId == old(sessionId) && prolificId == old(prolificId)
      ensures validatedWords == old(validatedWords) && isInitializing == old(isInitializing)
    {
      currentStep := MainGame;
    }

    /** `handleMainGameComplete`: the words of all rounds are kept for the
        meaning check. */
    method MainGameComplete(words: seq<SubmittedWord>)
      modifies this
      ensures currentStep == Next(MainGame) && validatedWords == words
      ensures sessionId == old(sessionId) && prolificId == old(prolificId) && isInitializing == old(isInitializing)
    {
      validatedWords := words;
      currentStep := Survey;
    }

    method SurveyComplete()
      modifies this
      ensures currentStep == Next(Survey)
      ensures sessionId == old(sessionId) && prolificId == old(prolificId)
      ensures validatedWords == old(validatedWords) && isInitializing == old(isInitializing)
    {
      currentStep := MeaningCheck;
    }

    /** Whether the session and participant ids are present (JavaScript
        truthiness: an empty string counts as missing). */
    predicate HasIds()
      reads this
    {
      sessionId.Some? && sessionId.value != [] && prolificId != []
    }

    /** `handleMeaningCheckComplete`: without both ids nothing happens;
        otherwise the meanings are sent and the flow moves on to the debrief
        only if the response is ok. */
    method MeaningCheckComplete(meanings: seq<WM.MeaningEntry>, responseOk: bool)
      modifies this
      ensures currentStep == (if old(HasIds()) && responseOk then Next(MeaningCheck) else old(currentStep))
      ensures sessionId == old(sessionId) && prolificId == old(prolificId)
      ensures validatedWords == old(validatedWords) && isInitializing == old(isInitializing)
    {
      if !HasIds() {
        return;
      }
      if responseOk {
        currentStep := Debrief;
      }
    }

    method DebriefComplete()
      modifies this
      ensures currentStep == Next(Debrief)
      ensures sessionId == old(sessionId) && prolificId == old(prolificId)
      ensures validatedWords == old(validatedWords) && isInitializing == old(isInitializing)
    {
      currentStep := ThankYou;
    }
  }

  /** A participant whose requests all succeed passes every screen in order,
      and the words of the main game reach the meaning check unchanged. */
  method WalkThrough(id: string, session: string, words: seq<SubmittedWord>, meanings: seq<WM.MeaningEntry>)
    requires id != [] && session != []
  {
    var app := new App();
    app.StartStudy();
    assert app.currentStep == ProlificId;
    app.ProlificIdSubmit(id, SessionCreated(Some(session)));
    assert app.currentStep == Practice;
    app.TutorialComplete();
    app.MainGameComplete(words);
    app.SurveyComplete();
    assert app.currentStep == MeaningCheck && app.validatedWords == words;
    app.MeaningCheckComplete(meanings, true);
    assert app.currentStep == Debrief;
    app.DebriefComplete();
    assert app.currentStep == ThankYou;
  }
}
