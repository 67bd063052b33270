/** The game service (logic.py): sessions are found or created by
    participant id, the main game and the tutorial are initialised from the
    stored config, and submitted meanings are recorded on the session.
    Session ids are the 24-digit hexadecimal text of a MongoDB object id;
    a freshly generated id is a parameter. */
module GameService {

  import opened Wrappers
  import opened Text
  import opened Helpers
  import Ledger

  predicate IsHexDigit(c: char) {
    '0' <= c <= '9' || 'a' <= c <= 'f' || 'A' <= c <= 'F'
  }

  /** `ObjectId.is_valid` on a string: 24 hexadecimal digits. */
  predicate IsObjectId(s: string) {
    |s| == 24 && forall i :: 0 <= i < |s| ==> IsHexDigit(s[i])
  }

  /** `str(ObjectId(s))`: the id in lower case. */
  function Canonical(s: string): (r: string)
    ensures |r| == |s|
    ensures IsObjectId(s) ==> IsObjectId(r)
  {
    ToLower(s)
  }

  /** The ids the database hands out are canonical. */
  predicate IsCanonicalId(s: string) {
    IsObjectId(s) && Canonical(s) == s
  }

  /** The session database is well formed: every key is a canonical id and
      no two sessions belong to the same participant. */
  ghost predicate SessionsValid(sessions: map<string, Session>) {
    (forall k | k in sessions :: IsCanonicalId(k)) &&
    (forall k1, k2 | k1 in sessions && k2 in sessions && k1 != k2 :: sessions[k1].prolificId != sessions[k2].prolificId)
  }

  /** A new session: every completion flag is false. */
  function NewSession(prolificId: string, metadata: Document, now: int): (s: Session)
    ensures s.prolificId == prolificId && s.meaningCheckStatus == None
    ensures !s.completion.tutorial && !s.completion.mainGame && !s.completion.meaningCheck
  {
    Session(prolificId, now, metadata, Completion(false, false, false), now, None)
  }

  /** The body of a successful `/api/game/init`. */
  datatype GameInit = GameInit(theory: Theory, word: string, totalAnagrams: nat, timeSettings: TimeSettings)

  /** The body of a successful tutorial initialisation. */
  datatype TutorialInit = TutorialInit(word: string, timeLimit: int)

  /** `initialize_tutorial`'s checks in their order: the id format (422),
      the session (404), the config (404), the tutorial entry (404); a
      missing time setting raises a `KeyError`, which becomes 500. */
  function TutorialOutcome(sessions: map<string, Session>, config: Option<GameConfig>, sessionId: string): (r: Result<TutorialInit, Failure>)
    ensures r.Err? ==> r.error.Http? && r.error.status in {404, 422, 500}
    ensures r.Ok? ==>
      IsObjectId(sessionId) && Canonical(sessionId) in sessions && config.Some? &&
      config.value.tutorial.Some? && r.value.word == config.value.tutorial.value.word
  {
    if !IsObjectId(sessionId) then Err(Http(422))
    else if Canonical(sessionId) !in sessions then Err(Http(404))
    else if config.None? then Err(Http(404))
    else if config.value.tutorial.None? then Err(Http(404))
    else if config.value.timeSettings.None? || config.value.timeSettings.value.tutorialTime.None? then Err(Http(500))
    else Ok(TutorialInit(config.value.tutorial.value.word, config.value.timeSettings.value.tutorialTime.value))
  }

  /** The tutorial body with the tutorial entry's `solutions` included, as
      the practice round expects it. */
  datatype TutorialInitCorrected = TutorialInitCorrected(word: string, timeLimit: int, solutions: Ledger.Solutions)

  /** `initialize_tutorial` returning the tutorial entry's solutions beside
      its word and time: the same checks, the same errors. */
  function TutorialOutcomeCorrected(sessions: map<string, Session>, config: Option<GameConfig>, sessionId: string):
    (r: Result<TutorialInitCorrected, Failure>)
    ensures r.Ok? <==> TutorialOutcome(sessions, config, sessionId).Ok?
    ensures r.Err? ==> r.error == TutorialOutcome(sessions, config, sessionId).error
    ensures r.Ok? ==>
      r.value.word == TutorialOutcome(sessions, config, sessionId).value.word &&
      r.value.timeLimit == TutorialOutcome(sessions, config, sessionId).value.timeLimit &&
      r.value.solutions == config.value.tutorial.value.solutions
  {
    match TutorialOutcome(sessions, config, sessionId)
    case Err(e) => Err(e)
    case Ok(t) => Ok(TutorialInitCorrected(t.word, t.timeLimit, config.value.tutorial.value.solutions))
  }

  class Service {
    const db: Db

    constructor (d: Db)
      ensures db == d
    {
      db := d;
    }

    /** `initialize_session`: the existing session of this participant, or
        a new one under the freshly generated id. */
    method InitializeSession(prolificId: string, metadata: Document, now: int, freshId: string)
      returns (r: Result<string, Failure>)
      requires SessionsValid(db.sessions)
      requires IsCanonicalId(freshId) && freshId !in db.sessions
      modifies db
      ensures SessionsValid(db.sessions)
      ensures r.Ok? && r.value in db.sessions && db.sessions[r.value].prolificId == prolificId
      ensures r.value in old(db.sessions) ==> db.sessions == old(db.sessions)
      ensures r.value !in old(db.sessions) ==>
        (r.value == freshId && db.sessions == old(db.sessions)[freshId := NewSession(prolificId, metadata, now)] &&
         forall k | k in old(db.sessions) :: old(db.sessions)[k].prolificId != prolificId)
      ensures db.messages == old(db.messages) && db.config == old(db.config) && db.events == old(db.events)
    {
      if exists k :: k in db.sessions && db.sessions[k].prolificId == prolificId {
        var k :| k in db.sessions && db.sessions[k].prolificId == prolificId;
        return Ok(k);
      }
      db.sessions := db.sessions[freshId := NewSession(prolificId, metadata, now)];
      r := Ok(freshId);
    }

    /** `initialize_game`: the config is read first, then a message is
        selected (and its count raised), then the first game anagram and the
        time settings are read. Every failure surfaces as 500, so an empty
        anagram list still costs the chosen message a showing. */
    method InitializeGame(sessionId: string) returns (r: Result<GameInit, Failure>)
      requires db.DistinctMessages()
      modifies db
      ensures db.DistinctMessages()
      ensures old(db.config).None? ==> r == Err(Http(500)) && db.messages == old(db.messages)
      ensures old(db.config).Some? && old(db.messages) == [] ==> r == Err(Http(500)) && db.messages == old(db.messages)
      ensures old(db.config).Some? && old(db.messages) != [] ==> exists k :: (0 <= k < |old(db.messages)| &&
        old(db.messages)[k].shownCount == MinShown(old(db.messages)) &&
        db.messages == Bump(old(db.messages), k) &&
        r == (if old(db.config).value.gameAnagrams == [] || old(db.config).value.timeSettings.None? then Err(Http(500))
              else Ok(GameInit(Theory(old(db.messages)[k].id, old(db.messages)[k].text),
                               old(db.config).value.gameAnagrams[0].word,
                               |old(db.config).value.gameAnagrams|,
                               old(db.config).value.timeSettings.value))))
      ensures db.config == old(db.config) && db.events == old(db.events) && db.sessions == old(db.sessions)
    {
      if db.config.None? {
        return Err(Http(500));
      }
      var c := db.config.value;
      var theory := GetRandomTheory(db);
      if theory.Err? {
        return Err(Http(500));
      }
      if c.gameAnagrams == [] || c.timeSettings.None? {
        return Err(Http(500));
      }
      r := Ok(GameInit(theory.value, c.gameAnagrams[0].word, |c.gameAnagrams|, c.timeSettings.value));
    }

    /** `initialize_tutorial`: a chain of guarded lookups; the exceptions it
        raises itself keep their status. */
    method InitializeTutorial(sessionId: string) returns (r: Result<TutorialInit, Failure>)
      ensures r == TutorialOutcome(db.sessions, db.config, sessionId)
    {
      if !IsObjectId(sessionId) {
        return Err(Http(422));
      }
      var key := Canonical(sessionId);
      if key !in db.sessions {
        return Err(Http(404));
      }
      var config := db.config;
      if config.None? {
        return Err(Http(404));
      }
      var tutorial := config.value.tutorial;
      if tutorial.None? {
        return Err(Http(404));
      }
      var settings := config.value.timeSettings;
      if settings.None? || settings.value.tutorialTime.None? {
        return Err(Http(500));
      }
      r := Ok(TutorialInit(tutorial.value.word, settings.value.tutorialTime.value));
    }

    /** `process_meaning_submissions`: an id that is not an object id makes
        `ObjectId` raise (500); otherwise the session, if there is one, gets
        the top-level `completionStatus.meaningCheck` record, and the call
        reports success even when no session matched. */
    method ProcessMeaningSubmissions(sessionId: string, completedAt: int, wordMeanings: seq<Document>)
      returns (r: Result<bool, Failure>)
      modifies db
      ensures !IsObjectId(sessionId) ==> r == Err(Http(500)) && db.sessions == old(db.sessions)
      ensures IsObjectId(sessionId) ==> r == Ok(true)
      ensures IsObjectId(sessionId) && Canonical(sessionId) in old(db.sessions) ==>
        db.sessions == old(db.sessions)[Canonical(sessionId) :=
          old(db.sessions)[Canonical(sessionId)].(meaningCheckStatus := Some(MeaningRecord(true, completedAt, wordMeanings)))]
      ensures IsObjectId(sessionId) && Canonical(sessionId) !in old(db.sessions) ==> db.sessions == old(db.sessions)
      ensures db.messages == old(db.messages) && db.config == old(db.config) && db.events == old(db.events)
    {
      if !IsObjectId(sessionId) {
        return Err(Http(500));
      }
      var key := Canonical(sessionId);
      if key in db.sessions {
        db.sessions := db.sessions[key := db.sessions[key].(meaningCheckStatus := Some(MeaningRecord(true, completedAt, wordMeanings)))];
      }
      r := Ok(true);
    }
  }

  /** The tutorial checks come in order: a malformed id is refused before
      the session is looked up, a missing session before the config is
      read, and with everything present the tutorial word and time are
      returned exactly. */
  lemma TutorialCheckOrder(sessions: map<string, Session>, config: Option<GameConfig>, sessionId: string)
    ensures !IsObjectId(sessionId) ==> TutorialOutcome(sessions, config, sessionId) == Err(Http(422))
    ensures TutorialOutcome(sessions, config, sessionId).Ok? <==>
      (IsObjectId(sessionId) && Canonical(sessionId) in sessions && config.Some? && config.value.tutorial.Some? &&
       config.value.timeSettings.Some? && config.value.timeSettings.value.tutorialTime.Some?)
    ensures TutorialOutcome(sessions, config, sessionId).Ok? ==>
      TutorialOutcome(sessions, config, sessionId).value ==
        TutorialInit(config.value.tutorial.value.word, config.value.timeSettings.value.tutorialTime.value)
    ensures TutorialOutcome(sessions, config, sessionId).Err? ==>
      TutorialOutcome(sessions, config, sessionId).error.status in {404, 422, 500}
  {}

  /** Object ids are case-insensitive: the upper-case spelling of a session
      id finds the same session. */
  lemma TutorialIdCaseInsensitive(sessions: map<string, Session>, config: Option<GameConfig>, sessionId: string)
    requires IsObjectId(sessionId)
    ensures TutorialOutcome(sessions, config, ToUpper(sessionId)) == TutorialOutcome(sessions, config, sessionId)
  {
    var up := ToUpper(sessionId);
    assert IsObjectId(up) by {
      forall i | 0 <= i < |up| ensures IsHexDigit(up[i]) {
        assert up[i] == UpperChar(sessionId[i]);
      }
    }
    assert Canonical(up) == Canonical(sessionId) by {
      forall i | 0 <= i < |up| ensures Canonical(up)[i] == Canonical(sessionId)[i] {
        assert Canonical(up)[i] == LowerChar(UpperChar(sessionId[i]));
      }
    }
  }

  /** Get-or-create is idempotent: a second registration of the same
      participant returns the same id and adds nothing. The meaning record
      is written at the top level, so the flag the session was created with
      under `gameState.completionStatus` stays false. */
  method RegistrationFlow(db: Db, pid: string, meta: Document, now: int, id1: string, id2: string, meanings: seq<Document>)
    requires SessionsValid(db.sessions)
    requires forall k | k in db.sessions :: db.sessions[k].prolificId != pid
    requires IsCanonicalId(id1) && id1 !in db.sessions
    requires IsCanonicalId(id2) && id2 !in db.sessions && id2 != id1
    modifies db
  {
    var s := new Service(db);
    var first := s.InitializeSession(pid, meta, now, id1);
    assert first == Ok(id1);
    var sessionsAfter := db.sessions;
    var second := s.InitializeSession(pid, meta, now + 1, id2);
    assert second.value in sessionsAfter;
    assert second == Ok(id1) && db.sessions == sessionsAfter;
    assert Canonical(id1) == id1;
    var done := s.ProcessMeaningSubmissions(id1, now + 2, meanings);
    assert done == Ok(true);
    assert db.sessions[id1].meaningCheckStatus == Some(MeaningRecord(true, now + 2, meanings));
    assert !db.sessions[id1].completion.meaningCheck;
  }
}
