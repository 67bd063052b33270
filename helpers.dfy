/** The back end's helpers (helpers.py) over a model of the database: the
    least-shown selection of the anti-cheating message, the back-end word
    validation, the normalisation of logged events and the placeholder
    meaning check. Collections are fields of `Db`; `random.choice` is a
    nondeterministic choice among the eligible messages, the clock a `now`
    argument, and a failing database write a boolean parameter. */
module Helpers {

  import opened Wrappers
  import opened Text
  import opened Ledger

  /** A JSON-like value of a stored document; `JNull` is Python's `None`. */
  datatype JsonValue = JNull | JStr(s: string) | JInt(i: int) | JBool(b: bool) | JTime(t: int) | JOther

  type Document = map<string, JsonValue>

  /** How a helper fails: an `HTTPException` with its status, or an
      exception of another kind that escapes the handler. */
  datatype Failure = Http(status: int) | Unhandled

  /** A stored anti-cheating message: its database `_id`, the public `id`,
      the text, and how often it was shown. */
  datatype StoredMessage = StoredMessage(oid: string, id: int, text: string, shownCount: int)

  /** What `get_random_theory` returns: only the `id` and the `text`. */
  datatype Theory = Theory(id: int, text: string)

  /** One anagram of the game config with its solutions, which are kept as
      word lists under the word length. */
  datatype AnagramEntry = AnagramEntry(word: string, solutions: Solutions)

  datatype TimeSettings = TimeSettings(tutorialTime: Option<int>, gameTime: Option<int>)

  /** The `game_config` document; absent sub-documents are `None`. */
  datatype GameConfig = GameConfig(
    gameAnagrams: seq<AnagramEntry>,
    tutorial: Option<AnagramEntry>,
    rewards: Rewards,
    timeSettings: Option<TimeSettings>)

  /** The outcome of `validate_word`. */
  datatype Validation = Validation(isValid: bool, reward: int)

  /** The completion flags a new session is created with, under
      `gameState.completionStatus`. */
  datatype Completion = Completion(tutorial: bool, mainGame: bool, meaningCheck: bool)

  /** The top-level `completionStatus.meaningCheck` record written when the
      meanings are submitted. */
  datatype MeaningRecord = MeaningRecord(completed: bool, completedAt: int, wordMeanings: seq<Document>)

  datatype Session = Session(
    prolificId: string,
    createdAt: int,
    metadata: Document,
    completion: Completion,
    startTime: int,
    meaningCheckStatus: Option<MeaningRecord>)

  /** The database: the message, config, event and session collections.
      Sessions are keyed by the text of their object id. */
  class Db {
    var messages: seq<StoredMessage>
    var config: Option<GameConfig>
    var events: seq<Document>
    var sessions: map<string, Session>

    constructor (ms: seq<StoredMessage>, c: Option<GameConfig>)
      ensures messages == ms && config == c && events == [] && sessions == map[]
    {
      messages := ms;
      config := c;
      events := [];
      sessions := map[];
    }

    /** No two messages share a database `_id`. */
    predicate DistinctMessages()
      reads this
    {
      DistinctOids(messages)
    }
  }

  // ---------------------------------------------------------------
  // get_random_theory

  predicate DistinctOids(ms: seq<StoredMessage>) {
    forall i, j :: 0 <= i < j < |ms| ==> ms[i].oid != ms[j].oid
  }

  /** The messages with the `k`-th shown once more. */
  function Bump(ms: seq<StoredMessage>, k: int): seq<StoredMessage>
    requires 0 <= k < |ms|
  {
    ms[k := ms[k].(shownCount := ms[k].shownCount + 1)]
  }

  /** `min(msg["shown_count"] for msg in messages)`. */
  function MinShown(ms: seq<StoredMessage>): (m: int)
    requires ms != []
    ensures exists i :: 0 <= i < |ms| && ms[i].shownCount == m
    ensures forall i :: 0 <= i < |ms| ==> m <= ms[i].shownCount
    decreases |ms|
  {
    if |ms| == 1 then ms[0].shownCount
    else
      var rest := MinShown(ms[1..]);
      assert forall i :: 1 <= i < |ms| ==> ms[i] == ms[1..][i - 1];
      if ms[0].shownCount <= rest then ms[0].shownCount else rest
  }

  /** `$inc` of `shown_count` on the documents with this `_id`. */
  function IncrementShown(ms: seq<StoredMessage>, oid: string): (r: seq<StoredMessage>)
    ensures |r| == |ms|
    ensures forall i :: 0 <= i < |ms| ==>
      r[i] == (if ms[i].oid == oid then ms[i].(shownCount := ms[i].shownCount + 1) else ms[i])
  {
    seq(|ms|, i requires 0 <= i < |ms| =>
      if ms[i].oid == oid then ms[i].(shownCount := ms[i].shownCount + 1) else ms[i])
  }

  /** With distinct `_id`s the increment touches exactly the chosen message. */
  lemma IncrementOnlyChosen(ms: seq<StoredMessage>, k: int)
    requires 0 <= k < |ms| && DistinctOids(ms)
    ensures IncrementShown(ms, ms[k].oid) == Bump(ms, k)
    ensures DistinctOids(Bump(ms, k))
  {
    var r := IncrementShown(ms, ms[k].oid);
    forall i | 0 <= i < |ms| && i != k ensures r[i] == ms[i] {
      if i < k {
        assert ms[i].oid != ms[k].oid;
      } else {
        assert ms[k].oid != ms[i].oid;
      }
    }
  }

  /** The total of all show counts. */
  function TotalShown(ms: seq<StoredMessage>): int
    decreases |ms|
  {
    if ms == [] then 0 else ms[0].shownCount + TotalShown(ms[1..])
  }

  /** Raising one count by one raises the total by one. */
  lemma {:induction false} TotalShownBump(ms: seq<StoredMessage>, k: int)
    requires 0 <= k < |ms|
    ensures TotalShown(Bump(ms, k)) == TotalShown(ms) + 1
    decreases |ms|
  {
    var u := Bump(ms, k);
    if k == 0 {
      assert u[1..] == ms[1..];
    } else {
      assert u[1..] == Bump(ms[1..], k - 1);
      TotalShownBump(ms[1..], k - 1);
    }
  }

  /** `get_random_theory`: with no message it fails, and since the `404` is
      raised inside the `try`, it surfaces as `500`. Otherwise some message
      with the least show count is chosen, its count is raised by one, and
      its `id` and `text` are returned. */
  method GetRandomTheory(db: Db) returns (r: Result<Theory, Failure>)
    requires db.DistinctMessages()
    modifies db
    ensures db.DistinctMessages()
    ensures old(db.messages) == [] ==> r == Err(Http(500)) && db.messages == old(db.messages)
    ensures old(db.messages) != [] ==> r.Ok? && exists k :: (0 <= k < |old(db.messages)| &&
      old(db.messages)[k].shownCount == MinShown(old(db.messages)) &&
      r.value == Theory(old(db.messages)[k].id, old(db.messages)[k].text) &&
      db.messages == Bump(old(db.messages), k))
    ensures old(db.messages) != [] ==> TotalShown(db.messages) == TotalShown(old(db.messages)) + 1
    ensures db.config == old(db.config) && db.events == old(db.events) && db.sessions == old(db.sessions)
  {
    if db.messages == [] {
      return Err(Http(500));
    }
    var ms := db.messages;
    var least := MinShown(ms);
    var k :| 0 <= k < |ms| && ms[k].shownCount == least;
    IncrementOnlyChosen(ms, k);
    TotalShownBump(ms, k);
    db.messages := IncrementShown(ms, ms[k].oid);
    r := Ok(Theory(ms[k].id, ms[k].text));
  }

  // ---------------------------------------------------------------
  // validate_word

  /** The solutions of the first game anagram with this word, empty or not. */
  function FirstGameSolutions(gs: seq<AnagramEntry>, anagram: string): (r: Option<Solutions>)
    ensures r.None? <==> forall i :: 0 <= i < |gs| ==> gs[i].word != anagram
    ensures r.Some? ==> exists i :: (0 <= i < |gs| && gs[i].word == anagram && gs[i].solutions == r.value &&
      forall j :: 0 <= j < i ==> gs[j].word != anagram)
    decreases |gs|
  {
    if gs == [] then None
    else if gs[0].word == anagram then Some(gs[0].solutions)
    else
      var r := FirstGameSolutions(gs[1..], anagram);
      assert forall i :: 1 <= i < |gs| ==> gs[i] == gs[1..][i - 1];
      r
  }

  /** The search loop with `break` over `config["game_anagrams"]`. */
  method FindGameSolutions(gs: seq<AnagramEntry>, anagram: string) returns (solutions: Option<Solutions>)
    ensures solutions == FirstGameSolutions(gs, anagram)
  {
    solutions := None;
    var i := 0;
    while i < |gs|
      invariant 0 <= i <= |gs|
      invariant FirstGameSolutions(gs, anagram) == FirstGameSolutions(gs[i..], anagram)
      invariant solutions == None
    {
      if gs[i].word == anagram {
        solutions := Some(gs[i].solutions);
        return;
      }
      assert gs[i..][1..] == gs[i + 1..];
      i := i + 1;
    }
  }

  /** The solutions `validate_word` uses: the first matching game anagram's
      when they are non-empty, else the tutorial's when its word matches;
      `None` means "Anagram not found". A missing tutorial document, looked
      up only in the second case, is an error of its own (`Err`). */
  function SolutionsFor(c: GameConfig, anagram: string): (r: Result<Option<Solutions>, Failure>)
    ensures r.Ok? && r.value.Some? ==> r.value.value != map[]
    ensures r.Err? <==>
      (FirstGameSolutions(c.gameAnagrams, anagram) in {None, Some(map[])} && c.tutorial.None?)
    ensures r.Ok? && r.value.Some? && r.value != FirstGameSolutions(c.gameAnagrams, anagram) ==>
      c.tutorial.Some? && c.tutorial.value.word == anagram && r.value.value == c.tutorial.value.solutions
  {
    var g := FirstGameSolutions(c.gameAnagrams, anagram);
    if g.Some? && g.value != map[] then Ok(g)
    else if c.tutorial.None? then Err(Unhandled)
    else if c.tutorial.value.word == anagram && c.tutorial.value.solutions != map[] then Ok(Some(c.tutorial.value.solutions))
    else Ok(None)
  }

  /** The per-length check and the reward: valid when the length key is
      present and the upper-cased word is in its list, rewarded with the
      table's entry for the length (0 when absent), and 0 when invalid. */
  function Judge(solutions: Solutions, rewards: Rewards, word: string): (v: Validation)
    ensures v.isValid <==> |word| in solutions && ToUpper(word) in solutions[|word|]
    ensures !v.isValid ==> v.reward == 0
    ensures v.reward != 0 ==> v.isValid && |word| in rewards && v.reward == rewards[|word|]
  {
    if |word| in solutions && ToUpper(word) in solutions[|word|] then
      Validation(true, if |word| in rewards then rewards[|word|] else 0)
    else Validation(false, 0)
  }

  /** `validate_word(db, word, anagram)`: every failure, the missing config
      and the unknown anagram included, surfaces as `500`. */
  method ValidateWord(db: Db, word: string, anagram: string) returns (r: Result<Validation, Failure>)
    ensures r.Err? ==> r.error == Http(500)
    ensures r.Ok? <==> (db.config.Some? && SolutionsFor(db.config.value, anagram).Ok? &&
      SolutionsFor(db.config.value, anagram).value.Some?)
    ensures r.Ok? ==> r.value == Judge(SolutionsFor(db.config.value, anagram).value.value, db.config.value.rewards, word)
  {
    if db.config.None? {
      return Err(Http(500));
    }
    var c := db.config.value;
    var solutions := FindGameSolutions(c.gameAnagrams, anagram);
    if solutions.None? || solutions.value == map[] {
      if c.tutorial.None? {
        return Err(Http(500));
      }
      if c.tutorial.value.word == anagram {
        solutions := Some(c.tutorial.value.solutions);
      }
    }
    if solutions.None? || solutions.value == map[] {
      return Err(Http(500));
    }
    r := Ok(Judge(solutions.value, c.rewards, word));
  }

  /** The back end judges a non-empty word exactly as the front end's
      `isValidWord` and `calculateReward` do with the same tables. */
  lemma JudgeAgreesWithFrontEnd(solutions: Solutions, rewards: Rewards, word: string)
    requires word != []
    ensures Judge(solutions, rewards, word).isValid == IsValidWord(Some(solutions), word)
    ensures Judge(solutions, rewards, word).reward ==
      CalculateReward(Some(rewards), |word|, IsValidWord(Some(solutions), word))
  {}

  /** The game anagrams take precedence: the tutorial's solutions are used
      only when no game anagram with that word has solutions. */
  lemma GameAnagramsFirst(c: GameConfig, anagram: string, i: int)
    requires 0 <= i < |c.gameAnagrams| && c.gameAnagrams[i].word == anagram
    requires forall j :: 0 <= j < |c.gameAnagrams| ==> c.gameAnagrams[j].solutions != map[]
    ensures SolutionsFor(c, anagram) == Ok(FirstGameSolutions(c.gameAnagrams, anagram))
  {}

  // ---------------------------------------------------------------
  // log_game_event

  /** The event as stored: `None` values dropped, and a timestamp added when
      there is none left. */
  function PrepareEvent(e: Document, now: int): (r: Document)
    ensures "timestamp" in r
    ensures forall k :: k in r ==> r[k] != JNull
    ensures forall k :: k in r <==> (k in e && e[k] != JNull) || k == "timestamp"
    ensures forall k :: k in e && e[k] != JNull ==> r[k] == e[k]
    ensures !("timestamp" in e && e["timestamp"] != JNull) ==> r["timestamp"] == JTime(now)
  {
    var kept := map k | k in e && e[k] != JNull :: e[k];
    if "timestamp" in kept then kept else kept["timestamp" := JTime(now)]
  }

  /** `log_game_event`: the prepared event is inserted. When the insert
      fails, the handler calls an undefined `logger`, so a `NameError`
      escapes instead of the intended `500`. */
  method LogGameEvent(db: Db, e: Document, now: int, insertOk: bool) returns (r: Result<bool, Failure>)
    modifies db
    ensures insertOk ==> r == Ok(true) && db.events == old(db.events) + [PrepareEvent(e, now)]
    ensures !insertOk ==> r == Err(Unhandled) && db.events == old(db.events)
    ensures db.messages == old(db.messages) && db.config == old(db.config) && db.sessions == old(db.sessions)
  {
    if !insertOk {
      return Err(Unhandled);
    }
    db.events := db.events + [PrepareEvent(e, now)];
    r := Ok(true);
  }

  /** Preparing an event twice changes nothing more. */
  lemma PrepareIdempotent(e: Document, now: int, later: int)
    ensures PrepareEvent(PrepareEvent(e, now), later) == PrepareEvent(e, now)
  {}

  // ---------------------------------------------------------------
  // check_word_meanings

  /** `bool(meaning.get("providedMeaning", "").strip())`; `None` when
      `strip` is called on something that is not a string. */
  function MeaningFlag(m: Document): (r: Option<bool>)
    ensures "providedMeaning" !in m ==> r == Some(false)
    ensures "providedMeaning" in m && m["providedMeaning"].JStr? ==>
      (r == Some(true) <==> !AllSpace(m["providedMeaning"].s))
    ensures r.None? <==> "providedMeaning" in m && !m["providedMeaning"].JStr?
  {
    if "providedMeaning" !in m then Some(false)
    else match m["providedMeaning"]
      case JStr(s) => TrimEmptyIffBlank(s); Some(Trim(s) != [])
      case _ => None
  }

  /** `check_word_meanings`: every entry keeps its fields and gains
      `isCorrect`; an entry whose meaning is not a string makes the whole
      call raise. */
  function CheckWordMeanings(ms: seq<Document>): (r: Result<seq<Document>, Failure>)
    ensures r.Err? <==> exists i :: 0 <= i < |ms| && MeaningFlag(ms[i]).None?
    ensures r.Ok? ==> |r.value| == |ms|
    ensures r.Ok? ==> forall i :: 0 <= i < |ms| ==>
      r.value[i].Keys == ms[i].Keys + {"isCorrect"} &&
      (forall k :: k in ms[i] && k != "isCorrect" ==> r.value[i][k] == ms[i][k]) &&
      r.value[i]["isCorrect"] == JBool(MeaningFlag(ms[i]).value)
  {
    if exists i :: 0 <= i < |ms| && MeaningFlag(ms[i]).None? then Err(Unhandled)
    else Ok(seq(|ms|, i requires 0 <= i < |ms| => ms[i]["isCorrect" := JBool(MeaningFlag(ms[i]).value)]))
  }
}
