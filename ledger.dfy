/** The word ledger of a round: the per-length dictionary lookup
    (`isValidWord`), the reward table lookup (`calculateReward`), the
    submission totals and the tutorial's split into valid and invalid words.
    The main game (index.jsx) and the tutorial (TutorialGame.jsx) carry
    identical copies of the two lookups; they are defined once here. */
module Ledger {

  import opened Wrappers
  import opened Text

  /** The solution words of a round, keyed by word length; each list holds
      upper-case words. JavaScript keys the object by `length.toString()`,
      which is one-to-one, so the key is the length itself. */
  type Solutions = map<nat, seq<string>>

  /** Reward per word length. */
  type Rewards = map<nat, int>

  /** One validated attempt. The main game records whether the word was valid
      at validation time; the tutorial records no `isValid` field (None). */
  datatype Entry = Entry(word: string, length: nat, isValid: Option<bool>)

  /** One word of a submission, with its reward recomputed at submit time. */
  datatype SubmittedWord = SubmittedWord(word: string, length: nat, reward: int, isValid: bool)

  /** `isValidWord`: false for an empty word or missing solutions; otherwise
      whether the upper-cased word is in the list kept under its length. */
  predicate IsValidWord(solutions: Option<Solutions>, word: string)
    ensures IsValidWord(solutions, word) ==>
      solutions.Some? && |ToUpper(word)| in solutions.value && ToUpper(word) in solutions.value[|ToUpper(word)|]
  {
    word != [] && solutions.Some? &&
    |word| in solutions.value && ToUpper(word) in solutions.value[|word|]
  }

  /** `calculateReward`: 0 for an invalid word or a missing reward table;
      otherwise the table's entry for the length, 0 when there is none. */
  function CalculateReward(rewards: Option<Rewards>, length: nat, isValid: bool): (r: int)
    ensures r != 0 ==> isValid && rewards.Some? && length in rewards.value
    ensures isValid && rewards.Some? && length in rewards.value ==> r == rewards.value[length]
  {
    if rewards.None? || !isValid then 0
    else if length in rewards.value then rewards.value[length]
    else 0
  }

  lemma ToUpperIdempotent(w: string)
    ensures ToUpper(ToUpper(w)) == ToUpper(w)
  {
    forall i | 0 <= i < |w| ensures ToUpper(ToUpper(w))[i] == ToUpper(w)[i] {
      assert ToUpper(ToUpper(w))[i] == UpperChar(UpperChar(w[i]));
    }
  }

  /** Validity does not depend on the case the letters were typed in: a word
      and its upper-case form are judged alike. */
  lemma ValidityIgnoresCase(solutions: Option<Solutions>, w: string)
    ensures IsValidWord(solutions, w) == IsValidWord(solutions, ToUpper(w))
  {
    ToUpperIdempotent(w);
  }

  /** Only a valid word earns anything, and a valid word earns exactly the
      table entry for its length when there is one. */
  lemma RewardOnlyForValid(rewards: Option<Rewards>, length: nat, isValid: bool)
    ensures CalculateReward(rewards, length, isValid) != 0 ==>
      isValid && rewards.Some? && length in rewards.value &&
      CalculateReward(rewards, length, isValid) == rewards.value[length]
  {}

  /** A worked example: rewards {5: 10, 6: 20, 7: 40} and a list of
      five-letter words holding APPLE and MAPLE. */
  lemma RewardExample()
    ensures var sol := Some(map[5 := ["APPLE", "MAPLE"]]);
      var rw := Some(map[5 := 10, 6 := 20, 7 := 40]);
      && IsValidWord(sol, "APPLE") && CalculateReward(rw, 5, IsValidWord(sol, "APPLE")) == 10
      && IsValidWord(sol, "apple")
      && !IsValidWord(sol, "ZZZZZ") && CalculateReward(rw, 5, IsValidWord(sol, "ZZZZZ")) == 0
  {
    var sol := map[5 := ["APPLE", "MAPLE"]];
    assert ToUpper("APPLE") == "APPLE";
    assert ToUpper("apple") == "APPLE";
    assert ToUpper("ZZZZZ") == "ZZZZZ";
    assert sol[5][0] == "APPLE";
    assert "ZZZZZ" != "APPLE" && "ZZZZZ" != "MAPLE";
  }

  /** Some entry of the ledger has exactly this text (`validatedWords.some`). */
  predicate Recorded(ledger: seq<Entry>, word: string) {
    exists i :: 0 <= i < |ledger| && ledger[i].word == word
  }

  /** The per-word results of a submission (`validatedWords.map`). */
  function Process(ledger: seq<Entry>, solutions: Option<Solutions>, rewards: Option<Rewards>): (r: seq<SubmittedWord>)
    ensures |r| == |ledger|
    ensures forall i :: 0 <= i < |r| ==>
      r[i].word == ledger[i].word && r[i].length == ledger[i].length &&
      r[i].isValid == IsValidWord(solutions, ledger[i].word) &&
      r[i].reward == CalculateReward(rewards, ledger[i].length, r[i].isValid)
  {
    seq(|ledger|, i requires 0 <= i < |ledger| =>
      var valid := IsValidWord(solutions, ledger[i].word);
      SubmittedWord(ledger[i].word, ledger[i].length, CalculateReward(rewards, ledger[i].length, valid), valid))
  }

  /** `reduce((sum, w) => sum + w.reward, 0)`, folding from the left. */
  function TotalReward(ws: seq<SubmittedWord>): (r: int)
    ensures (forall i :: 0 <= i < |ws| ==> ws[i].reward >= 0) ==> r >= 0
    ensures (forall i :: 0 <= i < |ws| ==> ws[i].reward == 0) ==> r == 0
    decreases |ws|
  {
    if ws == [] then 0 else TotalReward(ws[..|ws| - 1]) + ws[|ws| - 1].reward
  }

  lemma {:induction false} TotalRewardAppend(a: seq<SubmittedWord>, b: seq<SubmittedWord>)
    ensures TotalReward(a + b) == TotalReward(a) + TotalReward(b)
    decreases |b|
  {
    if b == [] {
      assert a + b == a;
    } else {
      var b' := b[..|b| - 1];
      assert (a + b)[..|a + b| - 1] == a + b';
      TotalRewardAppend(a, b');
    }
  }

  /** The submitted total is the sum of the per-word rewards, the first word's
      reward plus the total of the rest. */
  lemma TotalRewardCons(w: SubmittedWord, rest: seq<SubmittedWord>)
    ensures TotalReward([w] + rest) == w.reward + TotalReward(rest)
  {
    TotalRewardAppend([w], rest);
    assert [w][..0] == [];
  }

  /** `filter(w => w.isValid)`. */
  function ValidWords(ws: seq<SubmittedWord>): (r: seq<SubmittedWord>)
    ensures forall i :: 0 <= i < |r| ==> r[i].isValid
    ensures |r| <= |ws|
    decreases |ws|
  {
    if ws == [] then []
    else if ws[0].isValid then [ws[0]] + ValidWords(ws[1..])
    else ValidWords(ws[1..])
  }

  /** `filter(w => !w.isValid)`. */
  function InvalidWords(ws: seq<SubmittedWord>): (r: seq<SubmittedWord>)
    ensures forall i :: 0 <= i < |r| ==> !r[i].isValid
    ensures |r| <= |ws|
    decreases |ws|
  {
    if ws == [] then []
    else if !ws[0].isValid then [ws[0]] + InvalidWords(ws[1..])
    else InvalidWords(ws[1..])
  }

  /** `sub` is `s` with some elements left out, the rest in their order. */
  predicate IsSubsequence<T(==)>(sub: seq<T>, s: seq<T>)
    decreases |s|
  {
    if sub == [] then true
    else if s == [] then false
    else if sub[0] == s[0] then IsSubsequence(sub[1..], s[1..])
    else IsSubsequence(sub, s[1..])
  }

  /** The tutorial's split is a partition that keeps order: every processed
      word lands in exactly one of the two lists, each list keeps the input
      order, and the valid words carry the whole reward. */
  lemma {:induction false} PartitionKeepsOrder(ws: seq<SubmittedWord>)
    ensures IsSubsequence(ValidWords(ws), ws) && IsSubsequence(InvalidWords(ws), ws)
    ensures multiset(ValidWords(ws)) + multiset(InvalidWords(ws)) == multiset(ws)
    ensures |ValidWords(ws)| + |InvalidWords(ws)| == |ws|
    decreases |ws|
  {
    if ws != [] {
      var x, rest := ws[0], ws[1..];
      assert ws == [x] + rest;
      PartitionKeepsOrder(rest);
      var v, i := ValidWords(rest), InvalidWords(rest);
      SubsequenceSkip(v, x, rest);
      SubsequenceSkip(i, x, rest);
      if x.isValid {
        assert ValidWords(ws) == [x] + v;
        assert InvalidWords(ws) == i;
      } else {
        assert ValidWords(ws) == v;
        assert InvalidWords(ws) == [x] + i;
      }
    }
  }

  lemma SubsequenceSkip<T>(sub: seq<T>, x: T, s: seq<T>)
    requires IsSubsequence(sub, s)
    ensures IsSubsequence(sub, [x] + s)
    ensures IsSubsequence([x] + sub, [x] + s)
  {
    assert ([x] + s)[1..] == s;
    assert ([x] + sub)[1..] == sub;
    if sub != [] && sub[0] == x {
      SubsequenceWeaken(sub, s);
    }
  }

  lemma {:induction false} SubsequenceWeaken<T>(sub: seq<T>, s: seq<T>)
    requires sub != [] && IsSubsequence(sub, s)
    ensures IsSubsequence(sub[1..], s)
    decreases |s|, 1
  {
    if sub[0] != s[0] {
      SubsequenceWeaken(sub, s[1..]);
    }
    SubsequenceTail(sub[1..], s);
  }

  lemma {:induction false} SubsequenceTail<T>(sub: seq<T>, s: seq<T>)
    requires s != [] && IsSubsequence(sub, s[1..])
    ensures IsSubsequence(sub, s)
    decreases |s|, 0
  {
    if sub != [] && sub[0] == s[0] {
      SubsequenceWeaken(sub, s[1..]);
    }
  }

  /** Invalid words of a processed ledger earn nothing, so summing only the
      valid ones (the tutorial total) gives the same as summing all of them
      (the main-game total). */
  lemma {:induction false} ValidTotalIsTotal(ws: seq<SubmittedWord>)
    requires forall i :: 0 <= i < |ws| ==> !ws[i].isValid ==> ws[i].reward == 0
    ensures TotalReward(ValidWords(ws)) == TotalReward(ws)
    decreases |ws|
  {
    if ws != [] {
      assert ws == [ws[0]] + ws[1..];
      ValidTotalIsTotal(ws[1..]);
      TotalRewardCons(ws[0], ws[1..]);
      if ws[0].isValid {
        TotalRewardCons(ws[0], ValidWords(ws[1..]));
      }
    }
  }

  /** A ledger processed at submit time satisfies the premise above. */
  lemma ProcessedInvalidEarnNothing(ledger: seq<Entry>, solutions: Option<Solutions>, rewards: Option<Rewards>)
    ensures var ws := Process(ledger, solutions, rewards);
      forall i :: 0 <= i < |ws| ==> !ws[i].isValid ==> ws[i].reward == 0
  {}

  /** The displayed reward, `Math.min(totalReward, cap)`. */
  function Capped(total: int, cap: int): (r: int)
    ensures r <= total && r <= cap
    ensures r == total || r == cap
  {
    if total <= cap then total else cap
  }

  /** The cap note is shown when `totalReward > cap`. */
  predicate CapNoteShown(total: int, cap: int)
    ensures CapNoteShown(total, cap) <==> Capped(total, cap) < total
  {
    total > cap
  }

  const TutorialCap: int := 40
  const DebriefCap: int := 120

  /** The displayed amount never exceeds the cap or the total, and it differs
      from the total exactly when the cap note is shown. */
  lemma CapLaw(total: int, cap: int)
    ensures Capped(total, cap) <= cap && Capped(total, cap) <= total
    ensures Capped(total, cap) == total <==> !CapNoteShown(total, cap)
    ensures CapNoteShown(total, cap) <==> Capped(total, cap) == cap && total != cap
  {}
}
