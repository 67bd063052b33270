/** The main anagram game (index.jsx): the round state, validation and removal
    of words, the submission guard, the round advance and completion, and the
    one-second countdown. Network calls are parameters carrying their outcome;
    the random shuffles are parameters that must be some permutation of the
    word's letters. The submission handler is split at its first network wait
    into `SubmitStart` and `SubmitResponse`, so that a second trigger arriving
    while the first is in flight can be modelled. */
module MainGame {

  import opened Wrappers
  import opened Sequences
  import opened Ledger
  import W = Workspace
  import GS = GameService

  datatype Phase = Loading | Message | Play

  /** The anti-cheating message of `/api/game/init`. */
  datatype MessageInfo = MessageInfo(id: int, text: string)

  /** The React `gameState` record. */
  datatype GameState = GameState(
    phase: Phase,
    currentWord: string,
    solution: seq<char>,
    availableLetters: seq<char>,
    wordIndex: int,
    /** `undefined` (None) once a config body without `game_anagrams` was stored. */
    totalAnagrams: Option<int>,
    timeLeft: int,
    totalTime: int,
    validatedWords: seq<Entry>,
    allValidatedWords: seq<SubmittedWord>,
    currentMessage: Option<MessageInfo>,
    isTimeUp: bool,
    solutions: Option<Solutions>)

  /** The part of a `/api/study-config` JSON body the game reads. The body is
      stored whatever the HTTP status, so an error body (`{"detail": ...}`)
      is `StudyConfig(None, None)`. */
  datatype StudyConfig = StudyConfig(rewards: Option<Rewards>, gameAnagrams: Option<int>)

  /** A successful `/api/game/init` body; a missing `timeSettings` is `None`. */
  datatype InitResponse = InitResponse(currentMessage: Option<MessageInfo>, word: string,
                                       solutions: Option<Solutions>, gameTime: Option<int>)

  /** A `/api/game/next` body. */
  datatype NextRound = NextRound(word: string, solutions: Option<Solutions>)

  /** What the in-flight submission computed when it started: the submitted
      words, their total, and the closure's view of the state. */
  datatype Pending = Pending(words: seq<SubmittedWord>, totalReward: int,
                             allBefore: seq<SubmittedWord>, wordIndex: int, totalAnagrams: Option<int>)

  /** The letters of a word, as `split("")` gives them. */
  predicate IsShuffleOf(letters: seq<char>, word: string) {
    multiset(letters) == multiset(word)
  }

  /** A `/api/game/next` answer the handler accepts: ok, with a non-empty
      word and a solutions object. */
  predicate UsableNext(next: Option<NextRound>) {
    next.Some? && next.value.word != [] && next.value.solutions.Some?
  }

  /** `wordIndex < totalAnagrams - 1`, the test for fetching another round.
      With `totalAnagrams` undefined the comparison is false, so the round
      just submitted is the last. */
  predicate MoreRounds(wordIndex: int, totalAnagrams: Option<int>)
    ensures MoreRounds(wordIndex, totalAnagrams) ==> totalAnagrams.Some? && wordIndex + 1 < totalAnagrams.value
  {
    totalAnagrams.Some? && wordIndex < totalAnagrams.value - 1
  }

  const InitialGameState := GameState(Loading, [], [], [], 0, Some(3), 0, 0, [], [], None, false, Some(map[]))

  class AnagramGame {
    var gameState: GameState
    var studyConfig: Option<StudyConfig>
    var error: bool
    var isSubmitting: bool
    /** The `isSubmitted` ref. */
    var isSubmitted: bool
    var pending: Option<Pending>
    /** The argument `onComplete` was called with, once the game is over. */
    var completedWith: Option<seq<SubmittedWord>>

    /** The letters on the board are exactly the letters of the current word. */
    predicate LettersConserved()
      reads this
    {
      multiset(gameState.solution) + multiset(gameState.availableLetters) == multiset(gameState.currentWord)
    }

    /** The `isSubmitting` flag is set exactly while a submission is in flight. */
    predicate Valid()
      reads this
    {
      isSubmitting <==> pending.Some?
    }

    function Rewards(): Option<Rewards>
      reads this
    {
      if studyConfig.Some? then studyConfig.value.rewards else None
    }

    /** `enabled` of the EventTrack the game mounts. */
    predicate TrackingEnabled()
      reads this
    {
      !isSubmitted && gameState.phase == Play
    }

    constructor ()
      ensures Valid() && LettersConserved()
      ensures gameState == InitialGameState
      ensures studyConfig == None && !error && !isSubmitting && !isSubmitted && completedWith == None
    {
      gameState := InitialGameState;
      studyConfig := None;
      error := false;
      isSubmitting := false;
      isSubmitted := false;
      pending := None;
      completedWith := None;
    }

    /** The study-config fetch on mount. The HTTP status is never looked at:
        any JSON body (`Some`) is stored and `totalAnagrams` is taken from its
        `game_anagrams`, present or not, with no error; only a rejected fetch
        or a body that is not JSON (`None`) shows the error. */
    method ConfigLoaded(body: Option<StudyConfig>)
      modifies this
      ensures body.Some? ==> (studyConfig == body &&
        gameState == old(gameState).(totalAnagrams := body.value.gameAnagrams) && error == old(error))
      ensures body.None? ==> studyConfig == old(studyConfig) && gameState == old(gameState) && error
      ensures isSubmitting == old(isSubmitting) && isSubmitted == old(isSubmitted)
      ensures pending == old(pending) && completedWith == old(completedWith)
    {
      if body.Some? {
        studyConfig := body;
        gameState := gameState.(totalAnagrams := body.value.gameAnagrams);
      } else {
        error := true;
      }
    }

    /** `initGame`: without a session id it only shows an error; outside the
        loading phase it does nothing; a failed or incomplete response shows
        an error; otherwise the phase becomes `Message` when the response has
        an anti-cheating message and `Play` when it has none. */
    method InitGame(hasSessionId: bool, response: Option<InitResponse>, shuffled: seq<char>)
      requires response.Some? ==> IsShuffleOf(shuffled, response.value.word)
      modifies this
      ensures var ok := hasSessionId && old(gameState).phase == Loading && response.Some? &&
                        response.value.word != [] && response.value.gameTime.Some?;
        if ok then
          var r := response.value;
          gameState == old(gameState).(phase := if r.currentMessage.Some? then Message else Play,
            currentMessage := r.currentMessage, currentWord := r.word, solutions := r.solutions,
            availableLetters := shuffled, timeLeft := r.gameTime.value, totalTime := r.gameTime.value)
          && error == old(error) && (old(gameState).solution == [] ==> LettersConserved())
        else
          gameState == old(gameState) &&
          error == (old(error) || !hasSessionId || old(gameState).phase == Loading)
      ensures studyConfig == old(studyConfig) && isSubmitting == old(isSubmitting) && isSubmitted == old(isSubmitted)
      ensures pending == old(pending) && completedWith == old(completedWith)
    {
      if !hasSessionId {
        error := true;
        return;
      }
      if gameState.phase != Loading {
        return;
      }
      if response.None? || response.value.word == [] || response.value.gameTime.None? {
        error := true;
        return;
      }
      var r := response.value;
      gameState := gameState.(phase := if r.currentMessage.Some? then Message else Play,
        currentMessage := r.currentMessage, currentWord := r.word, solutions := r.solutions,
        availableLetters := shuffled, timeLeft := r.gameTime.value, totalTime := r.gameTime.value);
    }

    /** The "Try Again" button of the error screen. */
    method Retry()
      modifies this
      ensures !error && gameState == old(gameState).(phase := Loading)
      ensures studyConfig == old(studyConfig) && isSubmitting == old(isSubmitting) && isSubmitted == old(isSubmitted)
      ensures pending == old(pending) && completedWith == old(completedWith)
    {
      error := false;
      gameState := gameState.(phase := Loading);
    }

    /** `onSolutionChange` fed by the board's `handleDrop`. */
    method HandleDrop(d: W.Drag, target: W.Area, targetIndex: nat)
      requires d.source == W.FromSolution && target == W.Solution ==> 0 <= d.sourceIndex < |gameState.solution|
      modifies this
      ensures var b := W.Drop(W.Board(old(gameState).solution, old(gameState).availableLetters), d, target, targetIndex);
        gameState == old(gameState).(solution := b.solution, availableLetters := b.available)
      ensures W.TileDrag(W.Board(old(gameState).solution, old(gameState).availableLetters), d) && old(LettersConserved()) ==> LettersConserved()
      ensures studyConfig == old(studyConfig) && error == old(error) && isSubmitting == old(isSubmitting)
      ensures isSubmitted == old(isSubmitted) && pending == old(pending) && completedWith == old(completedWith)
    {
      var before := W.Board(gameState.solution, gameState.availableLetters);
      var b := W.Drop(before, d, target, targetIndex);
      if W.TileDrag(before, d) {
        W.DropConservesLetters(before, W.DropEvent(d, target, targetIndex));
      }
      gameState := gameState.(solution := b.solution, availableLetters := b.available);
    }

    /** `handleValidate`: an exact-text duplicate changes nothing; otherwise
        one entry is appended at the end, the solution is cleared and the pool
        becomes a fresh permutation of the current word. */
    method Validate(shuffled: seq<char>)
      requires IsShuffleOf(shuffled, gameState.currentWord)
      modifies this
      ensures var word := old(gameState).solution;
        if Recorded(old(gameState).validatedWords, word) then gameState == old(gameState)
        else gameState == old(gameState).(
          validatedWords := old(gameState).validatedWords +
            [Entry(word, |word|, Some(IsValidWord(old(gameState).solutions, word)))],
          solution := [], availableLetters := shuffled)
      ensures !Recorded(old(gameState).validatedWords, old(gameState).solution) ==> LettersConserved()
      ensures studyConfig == old(studyConfig) && error == old(error) && isSubmitting == old(isSubmitting)
      ensures isSubmitted == old(isSubmitted) && pending == old(pending) && completedWith == old(completedWith)
    {
      var word := gameState.solution;
      if Recorded(gameState.validatedWords, word) {
        return;
      }
      var isValid := IsValidWord(gameState.solutions, word);
      gameState := gameState.(
        validatedWords := gameState.validatedWords + [Entry(word, |word|, Some(isValid))],
        solution := [], availableLetters := shuffled);
    }

    /** Every word in the round's ledger has at least five letters. */
    predicate WordsLongEnough()
      reads this
    {
      forall i :: 0 <= i < |gameState.validatedWords| ==> |gameState.validatedWords[i].word| >= 5
    }

    /** A press of "Validate Word" on the board: while `isValidateDisabled`
        holds (fewer than five letters placed, or time is up) the press does
        nothing; otherwise `handleValidate` runs. Used through the button,
        the ledger only ever holds words of five letters or more. */
    method PressValidate(shuffled: seq<char>)
      requires IsShuffleOf(shuffled, gameState.currentWord)
      modifies this
      ensures old(W.ValidateDisabled(|gameState.solution|, gameState.isTimeUp, false)) ==> gameState == old(gameState)
      ensures !old(W.ValidateDisabled(|gameState.solution|, gameState.isTimeUp, false)) ==>
        var word := old(gameState).solution;
        if Recorded(old(gameState).validatedWords, word) then gameState == old(gameState)
        else gameState == old(gameState).(
          validatedWords := old(gameState).validatedWords +
            [Entry(word, |word|, Some(IsValidWord(old(gameState).solutions, word)))],
          solution := [], availableLetters := shuffled)
      ensures old(WordsLongEnough()) ==> WordsLongEnough()
      ensures studyConfig == old(studyConfig) && error == old(error) && isSubmitting == old(isSubmitting)
      ensures isSubmitted == old(isSubmitted) && pending == old(pending) && completedWith == old(completedWith)
    {
      if W.ValidateDisabled(|gameState.solution|, gameState.isTimeUp, false) {
        return;
      }
      Validate(shuffled);
    }

    /** `handleRemoveWord`: an index with no entry changes nothing; otherwise
        exactly that entry is deleted and the others keep their order. */
    method RemoveWord(index: int)
      modifies this
      ensures gameState == old(gameState).(validatedWords := DropIndex(old(gameState).validatedWords, index))
      ensures !(0 <= index < |old(gameState).validatedWords|) ==> gameState == old(gameState)
      ensures studyConfig == old(studyConfig) && error == old(error) && isSubmitting == old(isSubmitting)
      ensures isSubmitted == old(isSubmitted) && pending == old(pending) && completedWith == old(completedWith)
    {
      if !(0 <= index < |gameState.validatedWords|) {
        return;
      }
      gameState := gameState.(validatedWords := DropIndex(gameState.validatedWords, index));
    }

    /** The guard of `handleSubmit`. */
    predicate SubmitBlocked()
      reads this
    {
      isSubmitting || (isSubmitted && !gameState.isTimeUp)
    }

    /** `handleSubmit` up to its first network wait: blocked while a
        submission is in flight or once the round is submitted and time is not
        up; otherwise both flags are set and the submitted words and their
        total are computed from the ledger. */
    method SubmitStart() returns (started: bool)
      requires Valid()
      modifies this
      ensures Valid()
      ensures started == !old(SubmitBlocked())
      ensures !started ==> isSubmitting == old(isSubmitting) && isSubmitted == old(isSubmitted) && pending == old(pending)
      ensures started ==> (isSubmitting && isSubmitted &&
        var words := Process(old(gameState).validatedWords, old(gameState).solutions, old(Rewards()));
        pending == Some(Pending(words, TotalReward(words), old(gameState).allValidatedWords,
                                old(gameState).wordIndex, old(gameState).totalAnagrams)))
      ensures gameState == old(gameState) && studyConfig == old(studyConfig) && error == old(error)
      ensures completedWith == old(completedWith)
    {
      if SubmitBlocked() {
        return false;
      }
      isSubmitting := true;
      isSubmitted := true;
      var words := Process(gameState.validatedWords, gameState.solutions, Rewards());
      pending := Some(Pending(words, TotalReward(words), gameState.allValidatedWords,
                              gameState.wordIndex, gameState.totalAnagrams));
      return true;
    }

    /** A press of "Submit Words" on the board: while `isSubmitDisabled`
        holds (no validated word, or time is up) the press does nothing;
        otherwise `handleSubmit` starts. A submission started from the button
        carries at least one word and never repeats a submitted round: the
        second submission of index.jsx:283 can only come from the timer. */
    method PressSubmit() returns (started: bool)
      requires Valid()
      modifies this
      ensures Valid()
      ensures old(W.SubmitDisabled(|gameState.validatedWords|, gameState.isTimeUp, false, gameState.timeLeft)) ==>
        !started && isSubmitting == old(isSubmitting) && isSubmitted == old(isSubmitted) && pending == old(pending)
      ensures !old(W.SubmitDisabled(|gameState.validatedWords|, gameState.isTimeUp, false, gameState.timeLeft)) ==>
        started == !old(SubmitBlocked())
      ensures started ==> (isSubmitting && isSubmitted &&
        var words := Process(old(gameState).validatedWords, old(gameState).solutions, old(Rewards()));
        pending == Some(Pending(words, TotalReward(words), old(gameState).allValidatedWords,
                                old(gameState).wordIndex, old(gameState).totalAnagrams)))
      ensures started ==> !old(isSubmitted) && !old(gameState).isTimeUp && |pending.value.words| >= 1
      ensures gameState == old(gameState) && studyConfig == old(studyConfig) && error == old(error)
      ensures completedWith == old(completedWith)
    {
      if W.SubmitDisabled(|gameState.validatedWords|, gameState.isTimeUp, false, gameState.timeLeft) {
        return false;
      }
      started := SubmitStart();
    }

    /** The rest of `handleSubmit`, once the word submission has been
        answered (`submitOk`) and, before the last round, the next anagram
        fetched (`next`). A failed submission clears both flags and changes
        nothing else. Once accepted, the submitted words are appended to the
        all-rounds list; before the last round the next round starts with an
        empty ledger, an empty solution and a full clock, and after the last
        round `onComplete` receives the accumulated list. */
    method SubmitResponse(submitOk: bool, next: Option<NextRound>, shuffled: seq<char>)
      requires Valid() && isSubmitting
      requires UsableNext(next) ==> IsShuffleOf(shuffled, next.value.word)
      modifies this
      ensures Valid() && !isSubmitting && pending == None
      ensures var p := old(pending).value;
        var all := p.allBefore + p.words;
        var last := !MoreRounds(p.wordIndex, p.totalAnagrams);
        if !submitOk then
          gameState == old(gameState) && !isSubmitted && completedWith == old(completedWith)
        else if last then
          gameState == old(gameState).(allValidatedWords := all) &&
          isSubmitted == old(isSubmitted) && completedWith == Some(all)
        else if !UsableNext(next) then
          gameState == old(gameState).(allValidatedWords := all) &&
          !isSubmitted && completedWith == old(completedWith)
        else
          gameState == old(gameState).(allValidatedWords := all,
            wordIndex := old(gameState).wordIndex + 1, currentWord := next.value.word,
            solutions := next.value.solutions, solution := [], availableLetters := shuffled,
            validatedWords := [], timeLeft := old(gameState).totalTime, isTimeUp := false) &&
          !isSubmitted && completedWith == old(completedWith) && LettersConserved()
      ensures studyConfig == old(studyConfig) && error == old(error)
    {
      var p := pending.value;
      pending := None;
      isSubmitting := false;
      if !submitOk {
        isSubmitted := false;
        return;
      }
      var all := p.allBefore + p.words;
      gameState := gameState.(allValidatedWords := all);
      if MoreRounds(p.wordIndex, p.totalAnagrams) {
        if !UsableNext(next) {
          isSubmitted := false;
          return;
        }
        gameState := gameState.(wordIndex := gameState.wordIndex + 1, currentWord := next.value.word,
          solutions := next.value.solutions, solution := [], availableLetters := shuffled,
          validatedWords := [], timeLeft := gameState.totalTime, isTimeUp := false);
        isSubmitted := false;
      } else {
        completedWith := Some(all);
      }
    }

    /** Whether the countdown interval is running. */
    predicate TimerRunning()
      reads this
    {
      gameState.phase == Play && gameState.timeLeft > 0 && !isSubmitted
    }

    /** One tick of the countdown: nothing when the timer is not running;
        otherwise one second less, and at the last second time-up, which hands
        over to `handleTimeUp`: a no-op while a submission is in flight or the
        round is submitted, and otherwise the start of a submission. */
    method Tick() returns (submissionStarted: bool)
      requires Valid()
      modifies this
      ensures Valid()
      ensures !old(TimerRunning()) ==>
        !submissionStarted && gameState == old(gameState) && isSubmitting == old(isSubmitting) &&
        isSubmitted == old(isSubmitted) && pending == old(pending)
      ensures old(TimerRunning()) && old(gameState).timeLeft > 1 ==>
        !submissionStarted && gameState == old(gameState).(timeLeft := old(gameState).timeLeft - 1) &&
        isSubmitting == old(isSubmitting) && isSubmitted == old(isSubmitted) && pending == old(pending)
      ensures old(TimerRunning()) && old(gameState).timeLeft <= 1 ==>
        gameState == old(gameState).(timeLeft := 0, isTimeUp := true) &&
        submissionStarted == !old(isSubmitting) && isSubmitted == submissionStarted &&
        (submissionStarted ==> isSubmitting && pending.Some?)
      ensures studyConfig == old(studyConfig) && error == old(error) && completedWith == old(completedWith)
    {
      submissionStarted := false;
      if !TimerRunning() {
        return;
      }
      if gameState.timeLeft <= 1 {
        gameState := gameState.(timeLeft := 0, isTimeUp := true);
        if !(isSubmitting || isSubmitted) {
          submissionStarted := SubmitStart();
        }
      } else {
        gameState := gameState.(timeLeft := gameState.timeLeft - 1);
      }
    }

    /** `handleMessageShown` as written: it reads `messageData.messageId`,
        but MessageDisplay.jsx calls it with no argument, so the property
        access throws before the phase is set to `Play`. */
    method MessageShown(messageData: Option<MessageInfo>)
      modifies this
      ensures messageData.None? ==> gameState == old(gameState)
      ensures messageData.Some? ==> gameState == old(gameState).(phase := Play)
      ensures studyConfig == old(studyConfig) && error == old(error) && isSubmitting == old(isSubmitting)
      ensures isSubmitted == old(isSubmitted) && pending == old(pending) && completedWith == old(completedWith)
    {
      if messageData.None? {
        return;
      }
      gameState := gameState.(phase := Play);
    }

    /** `handleMessageShown` as evidently intended: leaving the message always
        starts play. */
    method MessageShownCorrected()
      modifies this
      ensures gameState == old(gameState).(phase := Play)
      ensures studyConfig == old(studyConfig) && error == old(error) && isSubmitting == old(isSubmitting)
      ensures isSubmitted == old(isSubmitted) && pending == old(pending) && completedWith == old(completedWith)
    {
      gameState := gameState.(phase := Play);
    }
  }

  /** At-most-once submission: once a submission is in flight, neither a
      second click nor the timer's expiry starts another one. */
  method DoubleSubmitRejected(g: AnagramGame)
    requires g.Valid() && !g.SubmitBlocked()
    modifies g
  {
    var first := g.SubmitStart();
    assert first && g.isSubmitting;
    var second := g.SubmitStart();
    assert !second;
    var byTimer := g.Tick();
    assert !byTimer;
  }

  /** The guard at index.jsx:283 lets a submission through once `isTimeUp`
      is set, even though the round was already submitted. */
  method TimeUpLetsSecondSubmitThrough(g: AnagramGame)
    requires g.Valid() && !g.isSubmitting && g.isSubmitted && g.gameState.isTimeUp
    modifies g
  {
    var again := g.SubmitStart();
    assert again;
  }

  /** A config request answered with an error status stores the error body
      without showing an error: no rewards and no round count, so a play
      that submits once is complete after that one round and earned 0. */
  method ErrorConfigEndsAfterOneRound(g: AnagramGame)
    requires g.Valid() && !g.isSubmitting && !g.isSubmitted && !g.error
    modifies g
    ensures !g.error && g.Rewards() == None && g.gameState.totalAnagrams == None
    ensures g.completedWith == Some(g.gameState.allValidatedWords)
    ensures g.gameState.allValidatedWords ==
      old(g.gameState.allValidatedWords) + Process(old(g.gameState.validatedWords), old(g.gameState.solutions), None)
    ensures forall i :: |old(g.gameState.allValidatedWords)| <= i < |g.gameState.allValidatedWords| ==>
      g.gameState.allValidatedWords[i].reward == 0
  {
    g.ConfigLoaded(Some(StudyConfig(None, None)));
    assert !g.error && g.Rewards() == None && g.gameState.totalAnagrams == None;
    var started := g.SubmitStart();
    assert started && g.pending.value.totalReward == 0;
    g.SubmitResponse(true, None, []);
    assert g.completedWith == Some(g.gameState.allValidatedWords) && !g.error;
  }

  /** The front end's reading of this repository's `/api/game/init` body,
      which carries neither `currentMessage` nor `solutions`. */
  function InitResponseOf(b: GS.GameInit): InitResponse {
    InitResponse(None, b.word, None, b.timeSettings.gameTime)
  }

  /** Started from this repository's `/api/game/init` body, the game skips
      the message screen and starts the round at once, and nothing submitted
      in that round is valid or earns anything. */
  method BackEndInitSkipsMessage(g: AnagramGame, b: GS.GameInit, shuffled: seq<char>, ledger: seq<Entry>)
    requires IsShuffleOf(shuffled, b.word)
    requires g.gameState.phase == Loading && b.word != [] && b.timeSettings.gameTime.Some?
    modifies g
    ensures g.gameState.phase == Play && g.gameState.currentMessage == None
    ensures g.gameState.currentWord == b.word && g.gameState.timeLeft == b.timeSettings.gameTime.value
    ensures forall w :: !IsValidWord(g.gameState.solutions, w)
    ensures var ws := Process(ledger, g.gameState.solutions, g.Rewards());
      (forall i :: 0 <= i < |ws| ==> !ws[i].isValid) && TotalReward(ws) == 0
  {
    g.InitGame(true, Some(InitResponseOf(b)), shuffled);
  }

  /** A message phase entered from `initGame` is never left: the display
      calls back with no argument. */
  method MessagePhaseIsStuck(g: AnagramGame)
    requires g.gameState.phase == Message
    modifies g
  {
    g.MessageShown(None);
    assert g.gameState.phase == Message;
    g.MessageShownCorrected();
    assert g.gameState.phase == Play;
  }
}
