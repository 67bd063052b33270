/** The practice round (TutorialGame.jsx): one word, a countdown, a ledger
    without validity flags, and a submission that splits the processed
    words into valid and invalid ones and shows a capped reward. */
module Tutorial {

  import opened Wrappers
  import opened Sequences
  import opened Ledger
  import W = Workspace
  import H = Helpers
  import GS = GameService

  /** The tutorial's `gameState` record. */
  datatype PracticeState = PracticeState(
    tutorialWord: string,
    solution: seq<char>,
    availableLetters: seq<char>,
    validatedWords: seq<Entry>,
    timeLeft: int,
    totalTime: int,
    isTimeUp: bool,
    solutions: Option<Solutions>)

  /** The parts of `/api/study-config` the tutorial reads. */
  datatype PracticeConfig = PracticeConfig(rewards: Option<Rewards>, tutorialTime: int)

  /** A `/api/tutorial/init` body. */
  datatype PracticeWord = PracticeWord(word: string, solutions: Option<Solutions>)

  /** `submissionResults`. */
  datatype Results = Results(validWords: seq<SubmittedWord>, invalidWords: seq<SubmittedWord>, totalReward: int)

  const InitialPracticeState := PracticeState([], [], [], [], 0, 0, false, Some(map[]))

  /** What a submission of `ledger` shows. */
  function ResultsOf(ledger: seq<Entry>, solutions: Option<Solutions>, rewards: Option<Rewards>): (r: Results)
    ensures var ws := Process(ledger, solutions, rewards);
      && r.totalReward == TotalReward(ws)
      && |r.validWords| + |r.invalidWords| == |ledger|
      && multiset(r.validWords) + multiset(r.invalidWords) == multiset(ws)
      && IsSubsequence(r.validWords, ws) && IsSubsequence(r.invalidWords, ws)
      && (forall i :: 0 <= i < |r.validWords| ==> r.validWords[i].isValid)
      && (forall i :: 0 <= i < |r.invalidWords| ==> !r.invalidWords[i].isValid)
  {
    var ws := Process(ledger, solutions, rewards);
    PartitionKeepsOrder(ws);
    ProcessedInvalidEarnNothing(ledger, solutions, rewards);
    ValidTotalIsTotal(ws);
    Results(ValidWords(ws), InvalidWords(ws), TotalReward(ValidWords(ws)))
  }

  /** What the practice round takes from a `/api/tutorial/init` body
      (TutorialGame.jsx:191-192): the word, and `tutorialData.solutions`,
      which is `undefined` because the body has no such key. */
  function PracticeWordOf(t: GS.TutorialInit): PracticeWord {
    PracticeWord(t.word, None)
  }

  /** As written, no practice word can count: whatever the ledger holds,
      every word is judged invalid and the total is 0, even the words the
      tutorial entry lists as its solutions. */
  lemma TutorialSolutionsMissing(sessions: map<string, H.Session>, config: Option<H.GameConfig>, sessionId: string,
                                 ledger: seq<Entry>, rewards: Option<Rewards>)
    requires GS.TutorialOutcome(sessions, config, sessionId).Ok?
    ensures var p := PracticeWordOf(GS.TutorialOutcome(sessions, config, sessionId).value);
      var res := ResultsOf(ledger, p.solutions, rewards);
      && p.word == config.value.tutorial.value.word
      && (forall w :: !IsValidWord(p.solutions, w))
      && res.validWords == [] && |res.invalidWords| == |ledger| && res.totalReward == 0
  {
    var p := PracticeWordOf(GS.TutorialOutcome(sessions, config, sessionId).value);
    var ws := Process(ledger, p.solutions, rewards);
    NothingValid(ws);
  }

  lemma {:induction false} NothingValid(ws: seq<SubmittedWord>)
    requires forall i :: 0 <= i < |ws| ==> !ws[i].isValid
    ensures ValidWords(ws) == []
    decreases |ws|
  {
    if ws != [] {
      NothingValid(ws[1..]);
    }
  }

  /** The practice word taken from the corrected body. */
  function PracticeWordOfCorrected(t: GS.TutorialInitCorrected): PracticeWord {
    PracticeWord(t.word, Some(t.solutions))
  }

  /** With the solutions in the body, the practice round judges each
      non-empty word exactly as `validate_word` would against the tutorial
      entry, and rewards it as the back end does. */
  lemma CorrectedTutorialJudgesByEntry(sessions: map<string, H.Session>, config: Option<H.GameConfig>, sessionId: string,
                                       ledger: seq<Entry>)
    requires GS.TutorialOutcomeCorrected(sessions, config, sessionId).Ok?
    requires forall i :: 0 <= i < |ledger| ==> ledger[i].word != [] && ledger[i].length == |ledger[i].word|
    ensures var p := PracticeWordOfCorrected(GS.TutorialOutcomeCorrected(sessions, config, sessionId).value);
      var ws := Process(ledger, p.solutions, Some(config.value.rewards));
      && p.word == config.value.tutorial.value.word
      && forall i :: 0 <= i < |ws| ==>
        ws[i].isValid == H.Judge(config.value.tutorial.value.solutions, config.value.rewards, ledger[i].word).isValid &&
        ws[i].reward == H.Judge(config.value.tutorial.value.solutions, config.value.rewards, ledger[i].word).reward
  {
    var sol := config.value.tutorial.value.solutions;
    forall i | 0 <= i < |ledger| {
      H.JudgeAgreesWithFrontEnd(sol, config.value.rewards, ledger[i].word);
    }
  }

  class Practice {
    var gameState: PracticeState
    var rewards: Option<Rewards>
    var error: bool
    var isLoading: bool
    var showOverview: bool
    var isSubmitting: bool
    /** The `isSubmitted` ref. */
    var isSubmitted: bool
    var showResults: bool
    var submissionResults: Option<Results>
    /** Whether `onComplete` has been called. */
    var completed: bool

    predicate LettersConserved()
      reads this
    {
      multiset(gameState.solution) + multiset(gameState.availableLetters) == multiset(gameState.tutorialWord)
    }

    /** The results view is shown only with results to show. */
    predicate Valid()
      reads this
    {
      showResults ==> submissionResults.Some? && isSubmitted
    }

    /** Whether the countdown interval is running. */
    predicate TimerRunning()
      reads this
    {
      !showOverview && gameState.timeLeft > 0
    }

    /** The reward the results view shows. */
    function ShownReward(): (r: int)
      reads this
      requires submissionResults.Some?
      ensures r <= TutorialCap && r <= submissionResults.value.totalReward
      ensures r == TutorialCap || r == submissionResults.value.totalReward
    {
      Capped(submissionResults.value.totalReward, TutorialCap)
    }

    constructor ()
      ensures Valid() && LettersConserved()
      ensures gameState == InitialPracticeState && rewards == None && !error && isLoading && showOverview
      ensures !isSubmitting && !isSubmitted && !showResults && submissionResults == None && !completed
    {
      gameState := InitialPracticeState;
      rewards := None;
      error := false;
      isLoading := true;
      showOverview := true;
      isSubmitting := false;
      isSubmitted := false;
      showResults := false;
      submissionResults := None;
      completed := false;
    }

    /** `initTutorial`: both requests must succeed; then the rewards, the
        word, its solutions and the practice time are taken over. Loading
        ends either way. */
    method InitTutorial(config: Option<PracticeConfig>, word: Option<PracticeWord>, shuffled: seq<char>)
      requires word.Some? ==> multiset(shuffled) == multiset(word.value.word)
      modifies this
      ensures !isLoading
      ensures config.Some? && word.Some? ==>
        rewards == config.value.rewards && error == old(error) &&
        gameState == old(gameState).(tutorialWord := word.value.word, solutions := word.value.solutions,
          availableLetters := shuffled, timeLeft := config.value.tutorialTime, totalTime := config.value.tutorialTime) &&
        (old(gameState).solution == [] ==> LettersConserved())
      ensures !(config.Some? && word.Some?) ==> error && rewards == old(rewards) && gameState == old(gameState)
      ensures showOverview == old(showOverview) && isSubmitting == old(isSubmitting) && isSubmitted == old(isSubmitted)
      ensures showResults == old(showResults) && submissionResults == old(submissionResults) && completed == old(completed)
    {
      if config.None? || word.None? {
        error := true;
      } else {
        rewards := config.value.rewards;
        gameState := gameState.(tutorialWord := word.value.word, solutions := word.value.solutions,
          availableLetters := shuffled, timeLeft := config.value.tutorialTime, totalTime := config.value.tutorialTime);
      }
      isLoading := false;
    }

    /** The "Start Practice" button of the overview. */
    method StartPractice()
      modifies this
      ensures !showOverview
      ensures gameState == old(gameState) && rewards == old(rewards) && error == old(error) && isLoading == old(isLoading)
      ensures isSubmitting == old(isSubmitting) && isSubmitted == old(isSubmitted)
      ensures showResults == old(showResults) && submissionResults == old(submissionResults) && completed == old(completed)
    {
      showOverview := false;
    }

    /** `onSolutionChange` fed by the board's `handleDrop`. */
    method HandleDrop(d: W.Drag, target: W.Area, targetIndex: nat)
      requires d.source == W.FromSolution && target == W.Solution ==> 0 <= d.sourceIndex < |gameState.solution|
      modifies this
      ensures var b := W.Drop(W.Board(old(gameState).solution, old(gameState).availableLetters), d, target, targetIndex);
        gameState == old(gameState).(solution := b.solution, availableLetters := b.available)
      ensures W.TileDrag(W.Board(old(gameState).solution, old(gameState).availableLetters), d) && old(LettersConserved()) ==> LettersConserved()
      ensures rewards == old(rewards) && error == old(error) && isLoading == old(isLoading) && showOverview == old(showOverview)
      ensures isSubmitting == old(isSubmitting) && isSubmitted == old(isSubmitted)
      ensures showResults == old(showResults) && submissionResults == old(submissionResults) && completed == old(completed)
    {
      var before := W.Board(gameState.solution, gameState.availableLetters);
      var b := W.Drop(before, d, target, targetIndex);
      if W.TileDrag(before, d) {
        W.DropConservesLetters(before, W.DropEvent(d, target, targetIndex));
      }
      gameState := gameState.(solution := b.solution, availableLetters := b.available);
    }

    /** `handleValidate`: like the main game's, but the entry records no
        validity. */
    method Validate(shuffled: seq<char>)
      requires multiset(shuffled) == multiset(gameState.tutorialWord)
      modifies this
      ensures var word := old(gameState).solution;
        if Recorded(old(gameState).validatedWords, word) then gameState == old(gameState)
        else gameState == old(gameState).(
          validatedWords := old(gameState).validatedWords + [Entry(word, |word|, None)],
          solution := [], availableLetters := shuffled) && LettersConserved()
      ensures rewards == old(rewards) && error == old(error) && isLoading == old(isLoading) && showOverview == old(showOverview)
      ensures isSubmitting == old(isSubmitting) && isSubmitted == old(isSubmitted)
      ensures showResults == old(showResults) && submissionResults == old(submissionResults) && completed == old(completed)
    {
      var word := gameState.solution;
      if Recorded(gameState.validatedWords, word) {
        return;
      }
      gameState := gameState.(
        validatedWords := gameState.validatedWords + [Entry(word, |word|, None)],
        solution := [], availableLetters := shuffled);
    }

    /** `handleRemoveWord`. */
    method RemoveWord(index: int)
      modifies this
      ensures gameState == old(gameState).(validatedWords := DropIndex(old(gameState).validatedWords, index))
      ensures !(0 <= index < |old(gameState).validatedWords|) ==> gameState == old(gameState)
      ensures rewards == old(rewards) && error == old(error) && isLoading == old(isLoading) && showOverview == old(showOverview)
      ensures isSubmitting == old(isSubmitting) && isSubmitted == old(isSubmitted)
      ensures showResults == old(showResults) && submissionResults == old(submissionResults) && completed == old(completed)
    {
      if !(0 <= index < |gameState.validatedWords|) {
        return;
      }
      gameState := gameState.(validatedWords := DropIndex(gameState.validatedWords, index));
    }

    /** `handleSubmit`: blocked while submitting or once submitted; otherwise
        the ledger is processed, split into valid and invalid words, and the
        results view is shown. */
    method Submit()
      requires Valid()
      modifies this
      ensures Valid()
      ensures old(isSubmitting || isSubmitted) ==>
        isSubmitting == old(isSubmitting) && isSubmitted == old(isSubmitted) &&
        showResults == old(showResults) && submissionResults == old(submissionResults)
      ensures !old(isSubmitting || isSubmitted) ==>
        isSubmitting && isSubmitted && showResults &&
        submissionResults == Some(ResultsOf(old(gameState).validatedWords, old(gameState).solutions, old(rewards)))
      ensures gameState == old(gameState) && rewards == old(rewards) && error == old(error)
      ensures isLoading == old(isLoading) && showOverview == old(showOverview) && completed == old(completed)
    {
      if isSubmitting || isSubmitted {
        return;
      }
      isSubmitting := true;
      isSubmitted := true;
      submissionResults := Some(ResultsOf(gameState.validatedWords, gameState.solutions, rewards));
      showResults := true;
    }

    /** A press of "Complete Practice" on the board: while `isSubmitDisabled`
        holds (no validated word, or more than 60 seconds left) the press
        does nothing; otherwise `handleSubmit` runs. Results reached through
        the button come from a ledger with a word in it, in the last minute. */
    method PressSubmit()
      requires Valid()
      modifies this
      ensures Valid()
      ensures old(W.SubmitDisabled(|gameState.validatedWords|, gameState.isTimeUp, true, gameState.timeLeft)) ==>
        isSubmitting == old(isSubmitting) && isSubmitted == old(isSubmitted) &&
        showResults == old(showResults) && submissionResults == old(submissionResults)
      ensures (!old(W.SubmitDisabled(|gameState.validatedWords|, gameState.isTimeUp, true, gameState.timeLeft)) &&
               !old(isSubmitting || isSubmitted)) ==>
        isSubmitting && isSubmitted && showResults &&
        submissionResults == Some(ResultsOf(old(gameState).validatedWords, old(gameState).solutions, old(rewards)))
      ensures submissionResults != old(submissionResults) ==>
        old(gameState).timeLeft <= 60 && |old(gameState).validatedWords| >= 1 && submissionResults.Some? &&
        |submissionResults.value.validWords| + |submissionResults.value.invalidWords| >= 1
      ensures gameState == old(gameState) && rewards == old(rewards) && error == old(error)
      ensures isLoading == old(isLoading) && showOverview == old(showOverview) && completed == old(completed)
    {
      if W.SubmitDisabled(|gameState.validatedWords|, gameState.isTimeUp, true, gameState.timeLeft) {
        return;
      }
      Submit();
    }

    /** One tick of the countdown as written: at the last second, when not
        yet submitted, the `isSubmitted` ref is set BEFORE `handleSubmit` is
        called, so the call returns at its guard and no results appear. */
    method Tick()
      requires Valid()
      modifies this
      ensures Valid()
      ensures !old(TimerRunning()) ==> gameState == old(gameState) && isSubmitted == old(isSubmitted)
      ensures old(TimerRunning()) && old(gameState).timeLeft <= 1 && !old(isSubmitted) ==>
        gameState == old(gameState).(timeLeft := 0, isTimeUp := true) && isSubmitted
      ensures old(TimerRunning()) && !(old(gameState).timeLeft <= 1 && !old(isSubmitted)) ==>
        gameState == old(gameState).(timeLeft := old(gameState).timeLeft - 1) && isSubmitted == old(isSubmitted)
      ensures isSubmitting == old(isSubmitting) && showResults == old(showResults) && submissionResults == old(submissionResults)
      ensures rewards == old(rewards) && error == old(error) && isLoading == old(isLoading)
      ensures showOverview == old(showOverview) && completed == old(completed)
    {
      if !TimerRunning() {
        return;
      }
      if gameState.timeLeft <= 1 && !isSubmitted {
        isSubmitted := true;
        Submit();
        gameState := gameState.(timeLeft := 0, isTimeUp := true);
      } else {
        gameState := gameState.(timeLeft := gameState.timeLeft - 1);
      }
    }

    /** The countdown as evidently intended ("Game will automatically submit
        when time runs out"): expiry submits the round, so the results view
        appears unless a submission had already happened. */
    method TickCorrected()
      requires Valid()
      modifies this
      ensures Valid()
      ensures !old(TimerRunning()) ==> (gameState == old(gameState) && isSubmitted == old(isSubmitted) &&
        showResults == old(showResults) && submissionResults == old(submissionResults))
      ensures old(TimerRunning()) && old(gameState).timeLeft <= 1 && !old(isSubmitted) ==>
        gameState == old(gameState).(timeLeft := 0, isTimeUp := true) && isSubmitted &&
        (!old(isSubmitting) ==> (showResults &&
          submissionResults == Some(ResultsOf(old(gameState).validatedWords, old(gameState).solutions, old(rewards)))))
      ensures old(TimerRunning()) && !(old(gameState).timeLeft <= 1 && !old(isSubmitted)) ==>
        gameState == old(gameState).(timeLeft := old(gameState).timeLeft - 1) && isSubmitted == old(isSubmitted) &&
        showResults == old(showResults) && submissionResults == old(submissionResults)
      ensures rewards == old(rewards) && error == old(error) && isLoading == old(isLoading)
      ensures showOverview == old(showOverview) && completed == old(completed)
    {
      if !TimerRunning() {
        return;
      }
      if gameState.timeLeft <= 1 && !isSubmitted {
        Submit();
        isSubmitted := true;
        gameState := gameState.(timeLeft := 0, isTimeUp := true);
      } else {
        gameState := gameState.(timeLeft := gameState.timeLeft - 1);
      }
    }

    /** `handleCompletePractice`: the completion request is sent and, unless
        it throws, `onComplete` is called. */
    method CompletePractice(requestDelivered: bool)
      modifies this
      ensures completed == (old(completed) || requestDelivered)
      ensures gameState == old(gameState) && rewards == old(rewards) && error == old(error) && isLoading == old(isLoading)
      ensures showOverview == old(showOverview) && isSubmitting == old(isSubmitting) && isSubmitted == old(isSubmitted)
      ensures showResults == old(showResults) && submissionResults == old(submissionResults)
    {
      if requestDelivered {
        completed := true;
      }
    }
  }

  /** The practice round's expiry strands the participant: when the clock
      runs out before a manual submission, no results appear, and pressing
      Submit afterwards (enabled: there are words and no time is left) does
      nothing, so the button leading on (`handleCompletePractice`, shown only
      with the results) is never offered. The corrected expiry shows them. */
  method ExpiryWithoutResults(t: Practice)
    requires t.Valid() && t.TimerRunning() && t.gameState.timeLeft == 1
    requires !t.isSubmitting && !t.isSubmitted && !t.showResults && t.gameState.validatedWords != []
    modifies t
  {
    t.Tick();
    assert !t.showResults && t.gameState.timeLeft == 0;
    assert !W.SubmitDisabled(|t.gameState.validatedWords|, t.gameState.isTimeUp, true, t.gameState.timeLeft);
    t.Submit();
    assert !t.showResults;
  }

  method ExpiryCorrectedShowsResults(t: Practice)
    requires t.Valid() && t.TimerRunning() && t.gameState.timeLeft == 1
    requires !t.isSubmitting && !t.isSubmitted
    modifies t
  {
    t.TickCorrected();
    assert t.showResults && t.submissionResults.Some?;
    assert t.ShownReward() <= TutorialCap;
  }
}
