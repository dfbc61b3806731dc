/**
 * Which options the two option loops of `complete` keep, and the order of
 * their candidates: one per kept option, in the order the options were
 * declared.
 */
module CandidateOrder {
  import opened Text
  import opened Commands
  import opened Completion

  /** The indexes of the options `LongCandidates` keeps, in order. */
  function LongSources(options: seq<DeclaredOption>, word: string): seq<nat> {
    if options == [] then []
    else
      var o := options[|options| - 1];
      LongSources(options[..|options| - 1], word)
      + if o.long.Some? && StartsWith(LongPair(o.long.value).replacement, word) then [|options| - 1] else []
  }

  /**
   * The long candidates come one per kept option and in declaration order:
   * the i-th candidate is that of the i-th kept option, and kept indexes
   * strictly increase.
   */
  lemma {:induction false} LongCandidatesInOrder(options: seq<DeclaredOption>, word: string)
    ensures var r, ks := LongCandidates(options, word), LongSources(options, word);
      |ks| == |r| &&
      (forall i :: 0 <= i < |ks| ==>
        ks[i] < |options| && options[ks[i]].long.Some? && r[i] == LongPair(options[ks[i]].long.value)) &&
      (forall i, j :: 0 <= i < j < |ks| ==> ks[i] < ks[j])
  {
    if options != [] {
      var init := options[..|options| - 1];
      LongCandidatesInOrder(init, word);
      var ks := LongSources(init, word);
      assert forall i :: 0 <= i < |ks| ==> ks[i] < |init| && options[ks[i]] == init[ks[i]];
    }
  }

  /** The indexes of the options `FlagCandidates` keeps, in order. */
  function FlagSources(options: seq<DeclaredOption>, word: string): seq<nat> {
    if options == [] then []
    else
      var o := options[|options| - 1];
      FlagSources(options[..|options| - 1], word)
      + if StartsWith(FlagPair(o).replacement, word) then [|options| - 1] else []
  }

  /**
   * The candidates after `-` come one per kept option and in declaration
   * order: the i-th candidate is that of the i-th kept option, and kept
   * indexes strictly increase.
   */
  lemma {:induction false} FlagCandidatesInOrder(options: seq<DeclaredOption>, word: string)
    ensures var r, ks := FlagCandidates(options, word), FlagSources(options, word);
      |ks| == |r| &&
      (forall i :: 0 <= i < |ks| ==> ks[i] < |options| && r[i] == FlagPair(options[ks[i]])) &&
      (forall i, j :: 0 <= i < j < |ks| ==> ks[i] < ks[j])
  {
    if options != [] {
      var init := options[..|options| - 1];
      FlagCandidatesInOrder(init, word);
      var ks, r := FlagSources(init, word), FlagCandidates(init, word);
      assert forall i :: 0 <= i < |ks| ==> ks[i] < |init| && options[ks[i]] == init[ks[i]];
      var o := options[|options| - 1];
      if StartsWith(FlagPair(o).replacement, word) {
        assert FlagSources(options, word) == ks + [|options| - 1];
        assert FlagCandidates(options, word) == r + [FlagPair(o)];
      } else {
        assert FlagSources(options, word) == ks;
        assert FlagCandidates(options, word) == r;
      }
    }
  }

  /** An option's index is kept exactly when it has a long form whose `--long` extends the word. */
  lemma {:induction false} LongSourcesExactly(options: seq<DeclaredOption>, word: string)
    ensures forall k :: k in LongSources(options, word) <==>
      0 <= k < |options| && options[k].long.Some? && StartsWith(LongPair(options[k].long.value).replacement, word)
  {
    if options != [] {
      var init := options[..|options| - 1];
      LongSourcesExactly(init, word);
      forall k | 0 <= k < |init| ensures options[k] == init[k] { }
    }
  }

  /** An option's index is kept exactly when its candidate's replacement extends the word. */
  lemma {:induction false} FlagSourcesExactly(options: seq<DeclaredOption>, word: string)
    ensures forall k :: k in FlagSources(options, word) <==>
      0 <= k < |options| && StartsWith(FlagPair(options[k]).replacement, word)
  {
    if options != [] {
      var init := options[..|options| - 1];
      FlagSourcesExactly(init, word);
      forall k | 0 <= k < |init| ensures options[k] == init[k] { }
    }
  }
}
