/**
 * The variation names of the sample generator (generate_training_samples.py,
 * `gen_positives` and `gen_negatives`) and the facts about their words that
 * the clip-name lemmas need: each word is lower case, has no '_' and is not
 * taken for an identifier by `_token_is_identifier`.
 */
module Variations {
  import opened Text
  import opened Naming

  /** The render variations `gen_positives` cycles through. */
  function PositiveVariations(): seq<string>
  {
    ["clean", "fast", "slow", "telephone", "quiet", "loud", "bright"]
  }

  /** The clip kinds `gen_negatives` cycles through. */
  function NegativeVariations(): seq<string>
  {
    [ "silence", "white_noise", "pink_noise", "brown_noise", "tone_220hz", "tone_440hz", "dual_tone",
      "chirp", "speech_clean", "speech_fast", "speech_slow", "speech_phone", "speech_quiet" ]
  }

  /** `NegativeVariations()`, each cut at its '_'. */
  function NegativeVariationWords(): seq<seq<string>>
  {
    [ ["silence"], ["white", "noise"], ["pink", "noise"], ["brown", "noise"], ["tone", "220hz"], ["tone", "440hz"],
      ["dual", "tone"], ["chirp"], ["speech", "clean"], ["speech", "fast"], ["speech", "slow"], ["speech", "phone"],
      ["speech", "quiet"] ]
  }

  /** A token that survives `canonical_clip_key`'s filter and `split("_")` unchanged. */
  predicate IsWordToken(w: string)
  {
    w != [] && '_' !in w && NoUpper(w) && !IsIdentifierToken(w)
  }

  lemma LowerWordIsWord(w: string)
    requires w != [] && (forall i :: 0 <= i < |w| ==> IsLowerLetter(w[i])) && !AllHex(w)
    requires w[0] != 'u' && w[0] != 'i' && w[0] != 'r' && w[0] != 'g'
    requires w[0] == 's' ==> |w| > 1 && w[1] != 'a'
    requires w[0] == 'c' ==> |w| > 2 && !(w[1] == 'l' && w[2] == 'i')
    ensures IsWordToken(w)
  {
    PlainWord(w);
    NoUpperAt(w);
  }

  function NoiseWords(): set<string>
  {
    {"silence", "white", "noise", "pink", "brown", "tone", "dual", "chirp", "speech"}
  }

  function RenderWords(): set<string>
  {
    {"clean", "fast", "slow", "phone", "quiet", "telephone", "loud", "bright"}
  }

  lemma NoiseWordsAreWords()
    ensures forall w :: w in NoiseWords() ==> IsWordToken(w)
  {
    forall w | w in NoiseWords() ensures IsWordToken(w) {
      LowerWordIsWord(w);
    }
  }

  lemma RenderWordsAreWords()
    ensures forall w :: w in RenderWords() ==> IsWordToken(w)
  {
    forall w | w in RenderWords() ensures IsWordToken(w) {
      LowerWordIsWord(w);
    }
  }

  lemma FrequencyWords()
    ensures IsWordToken("220hz") && IsWordToken("440hz")
  {
  }

  /** Each negative variation is the '_'-join of its words. */
  lemma NegativeVariationsAreJoins()
    ensures |NegativeVariationWords()| == |NegativeVariations()| == 13
    ensures forall k :: 0 <= k < 13 ==> NegativeVariations()[k] == Join(NegativeVariationWords()[k], '_')
  {
  }

  lemma NegativeVariationWordsKnown()
    ensures |NegativeVariationWords()| == 13
    ensures forall k :: 0 <= k < 13 ==> NegativeVariationWords()[k] != []
    ensures forall k, j :: 0 <= k < 13 && 0 <= j < |NegativeVariationWords()[k]| ==>
      NegativeVariationWords()[k][j] in NoiseWords() + RenderWords() + {"220hz", "440hz"}
  {
  }

  /** The words of negative variation `k`, without the literal table. */
  lemma NegativeVariationSplit(k: nat) returns (ws: seq<string>)
    requires k < |NegativeVariations()|
    ensures ws != [] && NegativeVariations()[k] == Join(ws, '_')
    ensures forall j :: 0 <= j < |ws| ==> IsWordToken(ws[j])
  {
    ws := NegativeVariationWords()[k];
    assert NegativeVariations()[k] == Join(ws, '_') by {
      NegativeVariationsAreJoins();
    }
    assert ws != [] && forall j :: 0 <= j < |ws| ==> ws[j] in NoiseWords() + RenderWords() + {"220hz", "440hz"} by {
      NegativeVariationWordsKnown();
    }
    forall j | 0 <= j < |ws| ensures IsWordToken(ws[j]) {
      if ws[j] in NoiseWords() {
        NoiseWordsAreWords();
      } else if ws[j] in RenderWords() {
        RenderWordsAreWords();
      } else {
        FrequencyWords();
      }
    }
  }

  lemma PositiveVariationsAreWords()
    ensures |PositiveVariations()| == 7
    ensures forall k :: 0 <= k < 7 ==> IsWordToken(PositiveVariations()[k])
  {
    var vs := PositiveVariations();
    forall k | 0 <= k < 7 ensures IsWordToken(vs[k]) {
      assert vs[k] in RenderWords();
      RenderWordsAreWords();
    }
  }

  /** No variation name is listed twice. */
  lemma VariationsDistinct()
    ensures forall i, j :: 0 <= i < j < |PositiveVariations()| ==> PositiveVariations()[i] != PositiveVariations()[j]
    ensures forall i, j :: 0 <= i < j < |NegativeVariations()| ==> NegativeVariations()[i] != NegativeVariations()[j]
  {
  }
}
