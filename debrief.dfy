/** The debrief screen (DebriefPage.jsx): the round's results with the capped
    reward, the debrief text with the final reward, and a last question on
    which words were found with external help, whose answer is logged as a
    `confessed_external_help` event. */
module Debrief {

  import opened Wrappers
  import opened Text
  import opened Ledger

  /** A word of the `/api/game-results` body; `reward` is absent (`None`) when
      the field is missing. */
  datatype ResultWord = ResultWord(word: string, length: int, reward: Option<int>)

  /** One entry of `anagramDetails`: the anagram shown and the words found. */
  datatype AnagramDetail = AnagramDetail(anagram: string, words: seq<string>)

  datatype GameResults = GameResults(
    validWords: seq<ResultWord>,
    invalidWords: Option<seq<ResultWord>>,
    totalReward: int,
    anagramDetails: Option<seq<AnagramDetail>>)

  /** The two study-config fields the debrief text uses; either may be absent. */
  datatype DebriefConfig = DebriefConfig(maxRewardPerAnagram: Option<int>, gameAnagrams: Option<int>)

  /** `resourceUsage`: the ticked words in the order they were ticked (the
      iteration order of a JavaScript `Set`) and the "no help" box. */
  datatype Usage = Usage(words: seq<string>, none: bool)

  /** One entry of `wordsWithExternalHelp`. */
  datatype HelpEntry = HelpEntry(word: string, length: Option<int>, isValid: bool, anagramShown: string)

  datatype EventDetails = EventDetails(usedExternalResources: bool, wordsWithExternalHelp: seq<HelpEntry>)

  datatype DebriefStep = ResultsStep | DebriefTextStep | FeedbackStep

  /** What the page renders. */
  datatype View = Spinner | ErrorScreen | ResultsView | DebriefView | FeedbackView

  // ---------------------------------------------------------------
  // The resource-usage answer

  predicate Distinct(s: seq<string>) {
    forall i, j :: 0 <= i < j < |s| ==> s[i] != s[j]
  }

  /** `Set.delete`. */
  function Remove(s: seq<string>, x: string): (r: seq<string>)
    ensures forall y :: y in r <==> y in s && y != x
    ensures Distinct(s) ==> Distinct(r)
    ensures x !in s ==> r == s
    decreases |s|
  {
    if s == [] then []
    else if s[0] == x then Remove(s[1..], x)
    else
      var t := Remove(s[1..], x);
      assert Distinct(s) ==> Distinct(s[1..]) by {
        if Distinct(s) {
          forall i, j | 0 <= i < j < |s| - 1 ensures s[1..][i] != s[1..][j] {
            assert s[1..][i] == s[i + 1] && s[1..][j] == s[j + 1];
          }
        }
      }
      assert Distinct(s) ==> s[0] !in t;
      [s[0]] + t
  }

  /** `handleResourceUsageChange(word)`: the "none" box clears the words and
      flips itself; any other box toggles its word and clears "none". */
  function Toggle(u: Usage, word: string): (r: Usage)
    ensures word == "none" ==> r.words == [] && r.none == !u.none
    ensures word != "none" ==> !r.none
    ensures word != "none" ==> forall y :: y in r.words <==> (if y == word then word !in u.words else y in u.words)
    ensures Distinct(u.words) ==> Distinct(r.words)
  {
    if word == "none" then Usage([], !u.none)
    else if word in u.words then Usage(Remove(u.words, word), false)
    else Usage(u.words + [word], false)
  }

  /** The answer is well formed: no word twice, and "none" only with no
      word ticked. */
  predicate WellFormed(u: Usage) {
    Distinct(u.words) && (u.none ==> u.words == [])
  }

  /** Every toggle keeps the answer well formed. */
  lemma ToggleKeepsWellFormed(u: Usage, word: string)
    requires WellFormed(u)
    ensures WellFormed(Toggle(u, word))
  {}

  /** Ticking a word that was not ticked and unticking it again restores the
      answer exactly. */
  lemma ToggleTwiceRestores(u: Usage, word: string)
    requires WellFormed(u) && word != "none" && word !in u.words && !u.none
    ensures Toggle(Toggle(u, word), word) == u
  {
    RemoveLast(u.words, word);
  }

  lemma {:induction false} RemoveLast(s: seq<string>, x: string)
    requires x !in s
    ensures Remove(s + [x], x) == s
    decreases |s|
  {
    if s == [] {
      assert [x][1..] == [];
    } else {
      assert (s + [x])[1..] == s[1..] + [x];
      RemoveLast(s[1..], x);
      assert s == [s[0]] + s[1..];
    }
  }

  /** `disabled` of the completion button: for a well-formed answer it is
      enabled exactly when the answer is definite, either "no help" with no
      word ticked or some word ticked without "no help". */
  predicate CompletionDisabled(u: Usage)
    ensures WellFormed(u) ==> (!CompletionDisabled(u) <==> (u.none <==> u.words == []))
  {
    |u.words| == 0 && !u.none
  }

  /** The first word of `ws` with exactly this text (`allWords.find`). */
  function FindWord(ws: seq<ResultWord>, word: string): (r: Option<ResultWord>)
    ensures r.None? <==> forall i :: 0 <= i < |ws| ==> ws[i].word != word
    ensures r.Some? ==> exists i :: (0 <= i < |ws| && ws[i] == r.value && r.value.word == word &&
      forall j :: 0 <= j < i ==> ws[j].word != word)
    decreases |ws|
  {
    if ws == [] then None
    else if ws[0].word == word then Some(ws[0])
    else
      var r := FindWord(ws[1..], word);
      assert forall i :: 1 <= i < |ws| ==> ws[i] == ws[1..][i - 1];
      r
  }

  /** One of the detail's words equals `word` when both are upper-cased. */
  predicate MentionsCaseless(d: AnagramDetail, word: string) {
    exists k :: 0 <= k < |d.words| && ToUpper(d.words[k]) == ToUpper(word)
  }

  /** The first detail that lists the word, ignoring case
      (`anagramDetails?.find`). */
  function FindDetail(ds: seq<AnagramDetail>, word: string): (r: Option<AnagramDetail>)
    ensures r.None? <==> forall i :: 0 <= i < |ds| ==> !MentionsCaseless(ds[i], word)
    ensures r.Some? ==> exists i :: (0 <= i < |ds| && ds[i] == r.value && MentionsCaseless(r.value, word) &&
      forall j :: 0 <= j < i ==> !MentionsCaseless(ds[j], word))
    decreases |ds|
  {
    if ds == [] then None
    else if MentionsCaseless(ds[0], word) then Some(ds[0])
    else
      var r := FindDetail(ds[1..], word);
      assert forall i :: 1 <= i < |ds| ==> ds[i] == ds[1..][i - 1];
      r
  }

  /** The entry for one ticked word: its length and validity come from the
      first result word with the same text (valid when its reward field is
      present), its anagram from the first detail listing it in any case,
      and an absent or empty anagram reads "unknown". */
  function HelpFor(all: seq<ResultWord>, details: Option<seq<AnagramDetail>>, word: string): (r: HelpEntry)
    ensures r.word == word && r.anagramShown != []
    ensures r.isValid ==> r.length.Some?
    ensures r.length.Some? <==> exists i :: 0 <= i < |all| && all[i].word == word
  {
    var info := FindWord(all, word);
    var m := if details.Some? then FindDetail(details.value, word) else None;
    HelpEntry(word,
              if info.Some? then Some(info.value.length) else None,
              info.Some? && info.value.reward.Some?,
              if m.Some? && m.value.anagram != [] then m.value.anagram else "unknown")
  }

  /** `wordsWithAnagrams`: one entry per ticked word, in ticking order. */
  function WordsWithAnagrams(all: seq<ResultWord>, details: Option<seq<AnagramDetail>>, selected: seq<string>): (r: seq<HelpEntry>)
    ensures |r| == |selected|
    ensures forall i :: 0 <= i < |r| ==> r[i] == HelpFor(all, details, selected[i])
  {
    seq(|selected|, i requires 0 <= i < |selected| => HelpFor(all, details, selected[i]))
  }

  /** `[...validWords, ...(invalidWords || [])]`. */
  function AllWords(r: GameResults): seq<ResultWord> {
    r.validWords + r.invalidWords.GetOr([])
  }

  /** The logged `eventDetails`. */
  function Details(r: GameResults, u: Usage): EventDetails {
    EventDetails(!u.none, WordsWithAnagrams(AllWords(r), r.anagramDetails, u.words))
  }

  /** A word ticked from the list is always found, so its length is
      reported; it is reported valid exactly when its first occurrence
      carries a reward. */
  lemma ListedWordsAreFound(all: seq<ResultWord>, details: Option<seq<AnagramDetail>>, word: string, i: int)
    requires 0 <= i < |all| && all[i].word == word
    ensures HelpFor(all, details, word).length.Some?
    ensures HelpFor(all, details, word).isValid <==> FindWord(all, word).value.reward.Some?
  {}

  /** The anagram lookup ignores case, while the length and validity lookup
      does not. */
  lemma AnagramLookupIgnoresCase(all: seq<ResultWord>, details: Option<seq<AnagramDetail>>, word: string)
    ensures HelpFor(all, details, ToUpper(word)).anagramShown == HelpFor(all, details, word).anagramShown
  {
    ToUpperIdempotent(word);
    if details.Some? {
      forall d | d in details.value ensures MentionsCaseless(d, ToUpper(word)) == MentionsCaseless(d, word) {}
      SameDetail(details.value, word, ToUpper(word));
    }
  }

  lemma {:induction false} SameDetail(ds: seq<AnagramDetail>, a: string, b: string)
    requires forall d | d in ds :: MentionsCaseless(d, a) == MentionsCaseless(d, b)
    ensures FindDetail(ds, a) == FindDetail(ds, b)
    decreases |ds|
  {
    if ds != [] {
      SameDetail(ds[1..], a, b);
    }
  }

  /** On a well-formed answer that can be submitted, the logged flag says
      exactly whether any word was ticked. */
  lemma SubmittedAnswerIsConsistent(r: GameResults, u: Usage)
    requires WellFormed(u) && !CompletionDisabled(u)
    ensures Details(r, u).usedExternalResources <==> |u.words| > 0
    ensures |Details(r, u).wordsWithExternalHelp| == |u.words|
  {}

  // ---------------------------------------------------------------
  // The word list of the feedback step

  /** Plain character-code order on strings, the model of `localeCompare`. */
  predicate LexLe(a: string, b: string)
    decreases |a|
  {
    if a == [] then true
    else if b == [] then false
    else if a[0] != b[0] then a[0] < b[0]
    else LexLe(a[1..], b[1..])
  }

  lemma {:induction false} LexLeTotal(a: string, b: string)
    ensures LexLe(a, b) || LexLe(b, a)
    decreases |a|
  {
    if a != [] && b != [] && a[0] == b[0] {
      LexLeTotal(a[1..], b[1..]);
    }
  }

  lemma {:induction false} LexLeTrans(a: string, b: string, c: string)
    requires LexLe(a, b) && LexLe(b, c)
    ensures LexLe(a, c)
    decreases |a|
  {
    if a != [] && b != [] && c != [] && a[0] == b[0] && b[0] == c[0] {
      LexLeTrans(a[1..], b[1..], c[1..]);
    }
  }

  /** The comparator: longer words first, equal lengths by text. */
  predicate InOrder(a: ResultWord, b: ResultWord) {
    a.length > b.length || (a.length == b.length && LexLe(a.word, b.word))
  }

  lemma InOrderTotal(a: ResultWord, b: ResultWord)
    ensures InOrder(a, b) || InOrder(b, a)
  {
    LexLeTotal(a.word, b.word);
  }

  lemma InOrderTrans(a: ResultWord, b: ResultWord, c: ResultWord)
    requires InOrder(a, b) && InOrder(b, c)
    ensures InOrder(a, c)
  {
    if a.length == b.length == c.length {
      LexLeTrans(a.word, b.word, c.word);
    }
  }

  predicate Sorted(s: seq<ResultWord>) {
    forall i, j :: 0 <= i < j < |s| ==> InOrder(s[i], s[j])
  }

  /** Inserts `x` before the first element it may precede. */
  function Insert(x: ResultWord, s: seq<ResultWord>): (r: seq<ResultWord>)
    ensures multiset(r) == multiset(s) + multiset{x}
    decreases |s|
  {
    if s == [] then [x]
    else if InOrder(x, s[0]) then [x] + s
    else
      assert s == [s[0]] + s[1..];
      [s[0]] + Insert(x, s[1..])
  }

  lemma {:induction false} InsertSorted(x: ResultWord, s: seq<ResultWord>)
    requires Sorted(s)
    ensures Sorted(Insert(x, s))
    decreases |s|
  {
    if s == [] {
    } else if InOrder(x, s[0]) {
      var r := [x] + s;
      forall i, j | 0 <= i < j < |r| ensures InOrder(r[i], r[j]) {
        if i == 0 && j > 1 {
          InOrderTrans(x, s[0], s[j - 1]);
        }
      }
    } else {
      InOrderTotal(x, s[0]);
      assert Sorted(s[1..]) by {
        forall i, j | 0 <= i < j < |s| - 1 ensures InOrder(s[1..][i], s[1..][j]) {
          assert s[1..][i] == s[i + 1] && s[1..][j] == s[j + 1];
        }
      }
      InsertSorted(x, s[1..]);
      var t := Insert(x, s[1..]);
      var r := [s[0]] + t;
      forall k | 0 <= k < |t| ensures InOrder(s[0], t[k]) {
        assert t[k] in multiset(t);
        if t[k] != x {
          assert t[k] in multiset(s[1..]);
          var m :| 0 <= m < |s[1..]| && s[1..][m] == t[k];
          assert s[m + 1] == t[k];
        }
      }
      forall i, j | 0 <= i < j < |r| ensures InOrder(r[i], r[j]) {
        if i == 0 {
          assert r[j] == t[j - 1];
        } else {
          assert r[i] == t[i - 1] && r[j] == t[j - 1];
        }
      }
    }
  }

  /** The sorted word list, by insertion. */
  function SortWords(s: seq<ResultWord>): (r: seq<ResultWord>)
    ensures multiset(r) == multiset(s)
    decreases |s|
  {
    if s == [] then []
    else
      assert s == [s[0]] + s[1..];
      Insert(s[0], SortWords(s[1..]))
  }

  /** The feedback list is ordered by the comparator and holds exactly the
      result words. */
  lemma {:induction false} SortWordsSorted(s: seq<ResultWord>)
    ensures Sorted(SortWords(s))
    ensures multiset(SortWords(s)) == multiset(s)
    decreases |s|
  {
    if s != [] {
      SortWordsSorted(s[1..]);
      InsertSorted(s[0], SortWords(s[1..]));
    }
  }

  /** The words listed on the feedback step: all result words, valid and
      invalid, sorted. */
  function FeedbackList(r: GameResults): (l: seq<ResultWord>)
    ensures Sorted(l) && multiset(l) == multiset(AllWords(r))
  {
    SortWordsSorted(AllWords(r));
    SortWords(AllWords(r))
  }

  /** `max_reward_per_anagram * game_anagrams`; an absent field gives no
      number. */
  function FinalReward(c: Option<DebriefConfig>): (r: Option<int>)
    ensures r.Some? <==> c.Some? && c.value.maxRewardPerAnagram.Some? && c.value.gameAnagrams.Some?
    ensures r.Some? ==> r.value == c.value.maxRewardPerAnagram.value * c.value.gameAnagrams.value
  {
    if c.Some? && c.value.maxRewardPerAnagram.Some? && c.value.gameAnagrams.Some? then
      Some(c.value.maxRewardPerAnagram.value * c.value.gameAnagrams.value)
    else None
  }

  // ---------------------------------------------------------------
  // The page

  class DebriefPage {
    var loading: bool
    var error: bool
    var results: Option<GameResults>
    var config: Option<DebriefConfig>
    var step: DebriefStep
    var usage: Usage
    /** The details of the logged event, once one was sent. */
    var sent: Option<EventDetails>
    /** Whether `onComplete` has been called. */
    var completed: bool

    predicate Valid()
      reads this
    {
      WellFormed(usage)
    }

    constructor ()
      ensures Valid()
      ensures loading && !error && results == None && config == None && step == ResultsStep
      ensures usage == Usage([], false) && sent == None && !completed
    {
      loading := true;
      error := false;
      results := None;
      config := None;
      step := ResultsStep;
      usage := Usage([], false);
      sent := None;
      completed := false;
    }

    /** The screen rendered in the current state. */
    function Render(): (v: View)
      reads this
      ensures loading <==> v == Spinner
      ensures v == ErrorScreen <==> !loading && (error || results.None?)
      ensures v == FeedbackView ==> step == FeedbackStep && results.Some?
    {
      if loading then Spinner
      else if error || results.None? then ErrorScreen
      else match step
        case ResultsStep => ResultsView
        case DebriefTextStep => DebriefView
        case FeedbackStep => FeedbackView
    }

    /** The reward shown on the results step and whether the cap note
        shows: never above the cap or the total, and the note shows exactly
        when the amount shown is less than the total. */
    function ShownReward(): (r: Option<(int, bool)>)
      reads this
      ensures r.Some? <==> results.Some?
      ensures r.Some? ==> r.value.0 <= DebriefCap && r.value.0 <= results.value.totalReward
      ensures r.Some? ==> r.value.0 == DebriefCap || r.value.0 == results.value.totalReward
      ensures r.Some? ==> (r.value.1 <==> r.value.0 < results.value.totalReward)
    {
      if results.Some? then
        Some((Capped(results.value.totalReward, DebriefCap), CapNoteShown(results.value.totalReward, DebriefCap)))
      else None
    }

    /** The two fetches finished: both bodies when both responses were ok,
        otherwise an error. */
    method DataLoaded(fetched: Option<(GameResults, DebriefConfig)>)
      requires Valid()
      modifies this
      ensures Valid() && !loading
      ensures fetched.Some? ==> (results == Some(fetched.value.0) && config == Some(fetched.value.1) &&
        error == old(error))
      ensures fetched.None? ==> error && results == old(results) && config == old(config)
      ensures step == old(step) && usage == old(usage) && sent == old(sent) && completed == old(completed)
    {
      if fetched.Some? {
        results := Some(fetched.value.0);
        config := Some(fetched.value.1);
      } else {
        error := true;
      }
      loading := false;
    }

    /** "Continue to Study Debrief". */
    method ContinueToDebrief()
      requires Valid()
      modifies this
      ensures Valid() && step == DebriefTextStep
      ensures loading == old(loading) && error == old(error) && results == old(results) && config == old(config)
      ensures usage == old(usage) && sent == old(sent) && completed == old(completed)
    {
      step := DebriefTextStep;
    }

    /** "Continue to Final Step". */
    method ContinueToFeedback()
      requires Valid()
      modifies this
      ensures Valid() && step == FeedbackStep
      ensures loading == old(loading) && error == old(error) && results == old(results) && config == old(config)
      ensures usage == old(usage) && sent == old(sent) && completed == old(completed)
    {
      step := FeedbackStep;
    }

    /** A checkbox changed. */
    method ToggleUsage(word: string)
      requires Valid()
      modifies this
      ensures Valid() && usage == Toggle(old(usage), word)
      ensures loading == old(loading) && error == old(error) && results == old(results) && config == old(config)
      ensures step == old(step) && sent == old(sent) && completed == old(completed)
    {
      ToggleKeepsWellFormed(usage, word);
      usage := Toggle(usage, word);
    }

    /** `handleCompletion`: the answer is logged; an ok response completes
        the page, a failed one (or missing results) shows the error screen,
        which offers no way back. */
    method Complete(responseOk: bool)
      requires Valid()
      modifies this
      ensures Valid()
      ensures old(results).None? ==> error && sent == old(sent) && completed == old(completed)
      ensures old(results).Some? ==> sent == Some(Details(old(results).value, old(usage)))
      ensures old(results).Some? && responseOk ==> completed && error == old(error)
      ensures old(results).Some? && !responseOk ==> error && completed == old(completed)
      ensures loading == old(loading) && results == old(results) && config == old(config)
      ensures step == old(step) && usage == old(usage)
    {
      if results.None? {
        error := true;
        return;
      }
      sent := Some(Details(results.value, usage));
      if responseOk {
        completed := true;
      } else {
        error := true;
      }
    }
  }

  /** A failed completion request replaces the page by the error screen. */
  method FailedCompletionStrands(page: DebriefPage)
    requires page.Valid() && !page.loading && !page.error && page.results.Some?
    requires !page.usage.none && !page.completed
    modifies page
  {
    page.ContinueToDebrief();
    page.ContinueToFeedback();
    assert page.Render() == FeedbackView;
    page.ToggleUsage("none");
    assert !CompletionDisabled(page.usage);
    page.Complete(false);
    assert page.Render() == ErrorScreen && !page.completed;
  }
}
