/** The word-meaning check (WordMeaningCheck.jsx): the words of the main
    game, de-duplicated by their text, are shown one at a time; the
    participant types a meaning for each, and after the last one the meanings
    are sent to the back end. */
module WordMeaning {

  import opened Wrappers
  import opened Text
  import opened Ledger

  /** The texts of a list of words. */
  function Words(ws: seq<SubmittedWord>): set<string> {
    set i | 0 <= i < |ws| :: ws[i].word
  }

  lemma WordsAppend(ws: seq<SubmittedWord>, w: SubmittedWord)
    ensures Words(ws + [w]) == Words(ws) + {w.word}
  {
    var l := ws + [w];
    forall x | x in Words(l) ensures x in Words(ws) + {w.word} {
      var i :| 0 <= i < |l| && l[i].word == x;
      if i < |ws| {
        assert ws[i] == l[i];
      }
    }
    forall x | x in Words(ws) ensures x in Words(l) {
      var i :| 0 <= i < |ws| && ws[i].word == x;
      assert l[i] == ws[i];
    }
    assert l[|ws|] == w;
  }

  /** The values of a `Map` filled in input order, each key (the word text)
      set only when it is not there yet. */
  function Dedup(ws: seq<SubmittedWord>): seq<SubmittedWord>
    decreases |ws|
  {
    if ws == [] then []
    else
      var d := Dedup(ws[..|ws| - 1]);
      var w := ws[|ws| - 1];
      if w.word in Words(d) then d else d + [w]
  }

  /** The de-duplicating `forEach` over the validated words. */
  method UniqueWords(ws: seq<SubmittedWord>) returns (unique: seq<SubmittedWord>)
    ensures unique == Dedup(ws)
  {
    var seen: set<string> := {};
    unique := [];
    var i := 0;
    while i < |ws|
      invariant 0 <= i <= |ws|
      invariant unique == Dedup(ws[..i])
      invariant seen == Words(unique)
    {
      assert ws[..i + 1][..i] == ws[..i];
      if ws[i].word !in seen {
        WordsAppend(unique, ws[i]);
        seen := seen + {ws[i].word};
        unique := unique + [ws[i]];
      }
      i := i + 1;
    }
    assert ws[..|ws|] == ws;
  }

  /** The entry of `ws` at `i` is the first one with its text. */
  predicate FirstWithItsText(ws: seq<SubmittedWord>, i: int)
    requires 0 <= i < |ws|
  {
    forall j :: 0 <= j < i ==> ws[j].word != ws[i].word
  }

  /** The de-duplicated list holds every text of the input exactly once,
      each as its first occurrence, in the input's order. */
  lemma DedupKeepsFirst(ws: seq<SubmittedWord>)
    ensures Words(Dedup(ws)) == Words(ws)
    ensures forall i, j :: 0 <= i < j < |Dedup(ws)| ==> Dedup(ws)[i].word != Dedup(ws)[j].word
    ensures forall k :: 0 <= k < |Dedup(ws)| ==>
      exists i :: 0 <= i < |ws| && ws[i] == Dedup(ws)[k] && FirstWithItsText(ws, i)
    ensures IsSubsequence(Dedup(ws), ws)
  {
    DedupWords(ws);
    DedupDistinct(ws);
    DedupFirst(ws);
    DedupSubsequence(ws);
  }

  lemma {:induction false} DedupWords(ws: seq<SubmittedWord>)
    ensures Words(Dedup(ws)) == Words(ws)
    decreases |ws|
  {
    if ws != [] {
      var p := ws[..|ws| - 1];
      var w := ws[|ws| - 1];
      DedupWords(p);
      assert ws == p + [w];
      WordsAppend(p, w);
      if w.word !in Words(Dedup(p)) {
        WordsAppend(Dedup(p), w);
      }
    }
  }

  lemma {:induction false} DedupDistinct(ws: seq<SubmittedWord>)
    ensures forall i, j :: 0 <= i < j < |Dedup(ws)| ==> Dedup(ws)[i].word != Dedup(ws)[j].word
    decreases |ws|
  {
    if ws != [] {
      var p := ws[..|ws| - 1];
      var w := ws[|ws| - 1];
      var d := Dedup(p);
      DedupDistinct(p);
      if w.word !in Words(d) {
        var d' := d + [w];
        forall i, j | 0 <= i < j < |d'| ensures d'[i].word != d'[j].word {
          if j == |d| {
            assert d'[i] == d[i];
            assert d[i].word in Words(d);
          }
        }
      }
    }
  }

  lemma {:induction false} DedupFirst(ws: seq<SubmittedWord>)
    ensures forall k :: 0 <= k < |Dedup(ws)| ==>
      exists i :: 0 <= i < |ws| && ws[i] == Dedup(ws)[k] && FirstWithItsText(ws, i)
    decreases |ws|
  {
    if ws != [] {
      var p := ws[..|ws| - 1];
      var w := ws[|ws| - 1];
      var d := Dedup(p);
      DedupFirst(p);
      assert Dedup(ws) == if w.word in Words(d) then d else d + [w];
      forall k | 0 <= k < |d|
        ensures exists i :: 0 <= i < |ws| && ws[i] == d[k] && FirstWithItsText(ws, i)
      {
        var i :| 0 <= i < |p| && p[i] == d[k] && FirstWithItsText(p, i);
        assert ws[i] == p[i];
        assert forall j :: 0 <= j < i ==> ws[j] == p[j];
      }
      if w.word !in Words(d) {
        DedupWords(p);
        assert FirstWithItsText(ws, |ws| - 1) by {
          forall j | 0 <= j < |ws| - 1 ensures ws[j].word != w.word {
            assert ws[j] == p[j];
            assert p[j].word in Words(p);
          }
        }
        var d' := d + [w];
        forall k | 0 <= k < |d'|
          ensures exists i :: 0 <= i < |ws| && ws[i] == d'[k] && FirstWithItsText(ws, i)
        {
          if k == |d| {
            assert ws[|ws| - 1] == d'[k];
          } else {
            assert d'[k] == d[k];
          }
        }
        assert Dedup(ws) == d';
        forall k | 0 <= k < |Dedup(ws)|
          ensures exists i :: 0 <= i < |ws| && ws[i] == Dedup(ws)[k] && FirstWithItsText(ws, i)
        {
          assert Dedup(ws)[k] == d'[k];
        }
      } else {
        assert Dedup(ws) == d;
        forall k | 0 <= k < |Dedup(ws)|
          ensures exists i :: 0 <= i < |ws| && ws[i] == Dedup(ws)[k] && FirstWithItsText(ws, i)
        {
          assert Dedup(ws)[k] == d[k];
        }
      }
    } else {
      assert Dedup(ws) == [];
    }
  }

  lemma {:induction false} DedupSubsequence(ws: seq<SubmittedWord>)
    ensures IsSubsequence(Dedup(ws), ws)
    decreases |ws|
  {
    if ws != [] {
      var p := ws[..|ws| - 1];
      var w := ws[|ws| - 1];
      DedupSubsequence(p);
      assert ws == p + [w];
      SubsequenceAppend(Dedup(p), p, w);
    }
  }

  /** Keeping order survives extending both lists by the same element, and
      the shorter list alone. */
  lemma {:induction false} SubsequenceAppend<T>(sub: seq<T>, s: seq<T>, x: T)
    requires IsSubsequence(sub, s)
    ensures IsSubsequence(sub + [x], s + [x]) && IsSubsequence(sub, s + [x])
    decreases |s|
  {
    if s == [] {
      assert sub == [];
      assert ([x] + [])[1..] == [];
      assert sub + [x] == [x] && s + [x] == [x];
    } else {
      assert (s + [x])[1..] == s[1..] + [x];
      assert (s + [x])[0] == s[0];
      if sub == [] {
        SubsequenceAppend(sub, s[1..], x);
        assert sub + [x] == [x];
      } else {
        assert (sub + [x])[0] == sub[0];
        assert (sub + [x])[1..] == sub[1..] + [x];
        if sub[0] == s[0] {
          SubsequenceAppend(sub[1..], s[1..], x);
        } else {
          SubsequenceAppend(sub, s[1..], x);
        }
      }
    }
  }

  /** One entry of `meaningData`; `isCorrect` is left to the back end. */
  datatype MeaningEntry = MeaningEntry(word: string, providedMeaning: string, isCorrect: Option<bool>)

  /** A typed meaning, where an empty text counts as none. */
  predicate HasMeaning(meanings: map<string, string>, word: string) {
    word in meanings && meanings[word] != []
  }

  /** `meaningData`: one entry per word, in order, with the typed meaning,
      or `fallback` (the meaning just submitted) where none was typed. */
  function MeaningData(words: seq<SubmittedWord>, meanings: map<string, string>, fallback: string): (r: seq<MeaningEntry>)
    ensures |r| == |words|
    ensures forall i :: 0 <= i < |r| ==> r[i].word == words[i].word && r[i].isCorrect == None
    ensures forall i :: 0 <= i < |r| ==>
      r[i].providedMeaning == (if HasMeaning(meanings, words[i].word) then meanings[words[i].word] else fallback)
  {
    seq(|words|, i requires 0 <= i < |words| =>
      MeaningEntry(words[i].word,
                   if HasMeaning(meanings, words[i].word) then meanings[words[i].word] else fallback,
                   None))
  }

  class MeaningCheck {
    var uniqueWords: seq<SubmittedWord>
    var currentIndex: nat
    var meanings: map<string, string>
    var error: bool
    var isSubmitted: bool
    /** The argument `onComplete` was called with. */
    var completedWith: Option<seq<MeaningEntry>>

    constructor (validatedWords: seq<SubmittedWord>)
      ensures uniqueWords == Dedup(validatedWords) && currentIndex == 0 && meanings == map[]
      ensures !error && !isSubmitted && completedWith == None
    {
      var unique := UniqueWords(validatedWords);
      uniqueWords := unique;
      currentIndex := 0;
      meanings := map[];
      error := false;
      isSubmitted := false;
      completedWith := None;
    }

    /** `!meanings[w]?.trim()`: the button is disabled exactly when the
        current word has no meaning yet or only a blank one, so a press
        always submits a non-empty meaning. */
    predicate ButtonDisabled()
      reads this
      requires currentIndex < |uniqueWords|
      ensures var w := uniqueWords[currentIndex].word;
        ButtonDisabled() <==> w !in meanings || AllSpace(meanings[w])
      ensures !ButtonDisabled() ==> HasMeaning(meanings, uniqueWords[currentIndex].word)
    {
      var w := uniqueWords[currentIndex].word;
      if w in meanings then
        TrimEmptyIffBlank(meanings[w]);
        Trim(meanings[w]) == []
      else true
    }

    /** "Next Word" before the last word, "Complete" on it. */
    function ButtonLabel(): (r: string)
      reads this
      ensures r == "Complete" <==> currentIndex + 1 >= |uniqueWords|
      ensures r == "Complete" || r == "Next Word"
    {
      if currentIndex < |uniqueWords| - 1 then "Next Word" else "Complete"
    }

    /** The textarea's `onChange`. */
    method EditMeaning(text: string)
      requires currentIndex < |uniqueWords|
      modifies this
      ensures meanings == old(meanings)[old(uniqueWords)[old(currentIndex)].word := text]
      ensures uniqueWords == old(uniqueWords) && currentIndex == old(currentIndex)
      ensures error == old(error) && isSubmitted == old(isSubmitted) && completedWith == old(completedWith)
      ensures ButtonDisabled() <==> Trim(text) == []
    {
      meanings := meanings[uniqueWords[currentIndex].word := text];
      TrimEmptyIffBlank(text);
    }

    /** `handleSubmit(meaning)`: nothing without a current word; otherwise
        the meaning is stored, and the check either moves to the next word
        or, on the last word, sends `meaningData` (built from the meanings
        as they were before this call) and completes unless the request
        throws, in which case an error is shown and the flag is cleared. */
    method Submit(meaning: string, delivered: bool)
      modifies this
      ensures uniqueWords == old(uniqueWords)
      ensures old(currentIndex) >= |old(uniqueWords)| ==>
        currentIndex == old(currentIndex) && meanings == old(meanings) && error == old(error) &&
        isSubmitted == old(isSubmitted) && completedWith == old(completedWith)
      ensures old(currentIndex) < |old(uniqueWords)| ==>
        meanings == old(meanings)[old(uniqueWords)[old(currentIndex)].word := meaning]
      ensures old(currentIndex) < |old(uniqueWords)| - 1 ==>
        currentIndex == old(currentIndex) + 1 && error == old(error) &&
        isSubmitted == old(isSubmitted) && completedWith == old(completedWith)
      ensures old(currentIndex) == |old(uniqueWords)| - 1 ==>
        currentIndex == old(currentIndex) &&
        (delivered ==> (isSubmitted && error == old(error) &&
           completedWith == Some(MeaningData(old(uniqueWords), old(meanings), meaning)))) &&
        (!delivered ==> !isSubmitted && error && completedWith == old(completedWith))
    {
      if currentIndex >= |uniqueWords| {
        return;
      }
      var before := meanings;
      meanings := meanings[uniqueWords[currentIndex].word := meaning];
      if currentIndex < |uniqueWords| - 1 {
        currentIndex := currentIndex + 1;
      } else {
        isSubmitted := true;
        var data := MeaningData(uniqueWords, before, meaning);
        if delivered {
          completedWith := Some(data);
        } else {
          error := true;
          isSubmitted := false;
        }
      }
    }
  }

  /** The first `n` unique words are mapped to their typed meanings. */
  ghost predicate TypedUpTo(meanings: map<string, string>, u: seq<SubmittedWord>, answers: seq<string>, n: nat)
    requires n <= |u| && n <= |answers|
  {
    forall j :: 0 <= j < n ==> u[j].word in meanings && meanings[u[j].word] == answers[j]
  }

  /** Typing the meaning of word `n` keeps the earlier ones, since the
      words are distinct. */
  lemma TypeNext(meanings: map<string, string>, u: seq<SubmittedWord>, answers: seq<string>, n: nat)
    requires n < |u| && n < |answers|
    requires forall a, b :: 0 <= a < b < |u| ==> u[a].word != u[b].word
    requires TypedUpTo(meanings, u, answers, n)
    ensures TypedUpTo(meanings[u[n].word := answers[n]], u, answers, n + 1)
  {
    var m' := meanings[u[n].word := answers[n]];
    forall j | 0 <= j < n + 1 ensures u[j].word in m' && m'[u[j].word] == answers[j] {
      if j < n {
        assert u[j].word != u[n].word;
      }
    }
  }

  /** With every word typed and non-empty, `meaningData` carries exactly the
      typed meanings. */
  lemma SentAsTyped(meanings: map<string, string>, u: seq<SubmittedWord>, answers: seq<string>, fallback: string)
    requires |answers| == |u| && TypedUpTo(meanings, u, answers, |u|)
    requires forall i :: 0 <= i < |answers| ==> Trim(answers[i]) != []
    ensures forall j :: 0 <= j < |u| ==> MeaningData(u, meanings, fallback)[j] == MeaningEntry(u[j].word, answers[j], None)
  {
    var r := MeaningData(u, meanings, fallback);
    forall j | 0 <= j < |u| ensures r[j] == MeaningEntry(u[j].word, answers[j], None) {
      TrimEmptyIffBlank(answers[j]);
      assert HasMeaning(meanings, u[j].word);
    }
  }

  /** Typing a non-blank `text` on the current word's screen enables the
      button, and pressing it submits exactly that text. */
  method TypeAndPress(m: MeaningCheck, text: string, delivered: bool)
    requires m.currentIndex < |m.uniqueWords| && Trim(text) != []
    modifies m
    ensures m.uniqueWords == old(m.uniqueWords)
    ensures m.meanings == old(m.meanings)[old(m.uniqueWords)[old(m.currentIndex)].word := text]
    ensures old(m.currentIndex) + 1 < |m.uniqueWords| ==>
      m.currentIndex == old(m.currentIndex) + 1 && m.error == old(m.error) &&
      m.isSubmitted == old(m.isSubmitted) && m.completedWith == old(m.completedWith)
    ensures old(m.currentIndex) + 1 == |m.uniqueWords| && delivered ==>
      m.completedWith == Some(MeaningData(m.uniqueWords, m.meanings, text))
  {
    var w := m.uniqueWords[m.currentIndex].word;
    m.EditMeaning(text);
    assert !m.ButtonDisabled();
    m.Submit(text, delivered);
    UpdateTwice(old(m.meanings), w, text);
  }

  /** Storing the same meaning twice is storing it once. */
  lemma UpdateTwice(meanings: map<string, string>, w: string, text: string)
    ensures meanings[w := text][w := text] == meanings[w := text]
  {}

  /** A participant who types a non-blank meaning on each word's screen and
      presses the (then enabled) button each time, with the final request
      delivered, completes the check with one entry per unique word, in
      order, each carrying exactly the meaning typed for it. */
  method AnswerAll(validated: seq<SubmittedWord>, answers: seq<string>) returns (sent: seq<MeaningEntry>)
    requires |answers| == |Dedup(validated)| > 0
    requires forall i :: 0 <= i < |answers| ==> Trim(answers[i]) != []
    ensures |sent| == |answers|
    ensures forall i :: 0 <= i < |sent| ==> sent[i] == MeaningEntry(Dedup(validated)[i].word, answers[i], None)
  {
    var m := new MeaningCheck(validated);
    var u := m.uniqueWords;
    DedupDistinct(validated);
    var i := 0;
    while i < |u| - 1
      invariant 0 <= i <= |u| - 1
      invariant m.uniqueWords == u && m.currentIndex == i
      invariant TypedUpTo(m.meanings, u, answers, i)
    {
      TypeNext(m.meanings, u, answers, i);
      TypeAndPress(m, answers[i], true);
      i := i + 1;
    }
    TypeNext(m.meanings, u, answers, i);
    TypeAndPress(m, answers[i], true);
    sent := m.completedWith.value;
    SentAsTyped(m.meanings, u, answers, answers[i]);
  }
}
