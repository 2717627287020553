/**
 * The names `mine_hard_negatives` gives its copies, and what
 * `semantic_name` makes of them: a copy's semantic name is not the name of
 * the clip it copies.
 */
module HardNegNames {
  import opened Text
  import opened Naming
  import opened Variations
  import opened EvalFiles

  /** `f"hardneg_{n:06d}_{key}.wav"` */
  function HardNegName(n: nat, key: string): string
  {
    "hardneg_" + Dec06(n) + "_" + key + ".wav"
  }


  /** "hardneg" is a word, not an identifier. */
  lemma HardNegIsWord()
    ensures IsWordToken("hardneg")
  {
    var w := "hardneg";
    assert !AllHex(w) by {
      assert !IsHexDigit(w[0]);
    }
    PlainWord(w);
    NoUpperAt(w);
  }

  /** A name whose lower-cased stem has the given semantic tokens has their join as its semantic name. */
  lemma SemanticNameFromTokens(name: string, stem: string, ts: seq<string>, sem: seq<string>)
    requires Stem(name) == stem && Lower(stem) == stem
    requires Tokens(stem) == ts && SemanticTokens(ts) == sem && sem != []
    ensures SemanticName(name) == Join(sem, '_')
  {
  }

  /** A '_'-join of words is non-empty, lower case, cut back into those words, and keeps them all as semantic tokens. */
  lemma WordsKey(ws: seq<string>)
    requires ws != [] && forall j :: 0 <= j < |ws| ==> IsWordToken(ws[j])
    ensures var key := Join(ws, '_');
      && key != [] && NoUpper(key) && Lower(key) == key
      && Tokens(key) == ws && SemanticTokens(ws) == ws
  {
    var key := Join(ws, '_');
    JoinOfNonEmpty(ws);
    NoUpperJoin(ws, '_');
    LowerOfNoUpper(key);
    TokensOfJoin(ws);
    SemanticTokensOfWords(ws);
  }

  /** A clip named `key.wav`, for a lower-case key made of words, has the key as its semantic name. */
  lemma SemanticNameOfKey(key: string, ws: seq<string>)
    requires key != [] && Lower(key) == key && Join(ws, '_') == key
    requires Tokens(key) == ws && SemanticTokens(ws) == ws && ws != []
    ensures SemanticName(key + ".wav") == key
  {
    StemAndSuffix(key, ".wav");
    SemanticNameFromTokens(key + ".wav", key, ws, ws);
  }

  /** A clip named by a '_'-join of words has that join as its semantic name. */
  lemma SemanticNameOfWords(ws: seq<string>)
    requires ws != [] && forall j :: 0 <= j < |ws| ==> IsWordToken(ws[j])
    ensures SemanticName(Join(ws, '_') + ".wav") == Join(ws, '_')
  {
    WordsKey(ws);
    SemanticNameOfKey(Join(ws, '_'), ws);
  }

  /** `p_d_rest` is lower case when its three parts are. */
  lemma PrefixedStemIsLower(p: string, d: string, rest: string)
    requires NoUpper(p) && NoUpper(d) && NoUpper(rest)
    ensures var stem := p + "_" + (d + "_" + rest); Lower(stem) == stem
  {
    NoUpperAt("_");
    NoUpperConcat(d, "_");
    NoUpperConcat(d + "_", rest);
    NoUpperConcat(p, "_");
    NoUpperConcat(p + "_", d + "_" + rest);
    LowerOfNoUpper(p + "_" + (d + "_" + rest));
  }

  /** A word without '_' in front of '_' is one more token. */
  lemma TokensCons(p: string, rest: string)
    requires p != [] && '_' !in p
    ensures Tokens(p + "_" + rest) == [p] + Tokens(rest)
  {
    TokensConcat(p, rest);
    TokensOfWord(p);
  }

  /** The tokens of `p_d_rest` are `p`, `d`, then those of `rest`. */
  lemma PrefixedStemTokens(p: string, d: string, rest: string)
    requires p != [] && '_' !in p && d != [] && '_' !in d
    ensures Tokens(p + "_" + (d + "_" + rest)) == [p, d] + Tokens(rest)
  {
    TokensCons(d, rest);
    TokensCons(p, d + "_" + rest);
    assert [p] + ([d] + Tokens(rest)) == [p, d] + Tokens(rest);
  }

  /** Filtering drops an identifier after a word and keeps the word. */
  lemma SemanticTokensPrefixed(p: string, d: string, rest: seq<string>)
    requires !IsIdentifierToken(p) && IsIdentifierToken(d)
    ensures SemanticTokens([p, d] + rest) == [p] + SemanticTokens(rest)
  {
    var ts := [p, d] + rest;
    assert ts[0] == p && ts[1..] == [d] + rest;
    assert ([d] + rest)[0] == d && ([d] + rest)[1..] == rest;
  }

  /** A mined copy's name is its stem `hardneg_<n>_<key>` with ".wav" after it. */
  lemma HardNegNameStem(n: nat, key: string)
    ensures var stem := "hardneg" + "_" + (Dec06(n) + "_" + key);
      HardNegName(n, key) == stem + ".wav" && Stem(HardNegName(n, key)) == stem
  {
    var stem := "hardneg" + "_" + (Dec06(n) + "_" + key);
    assert HardNegName(n, key) == stem + ".wav";
    StemAndSuffix(stem, ".wav");
  }

  /** The semantic name of a mined copy of a clip whose semantic name is a '_'-join of words. */
  lemma HardNegSemanticName(n: nat, ws: seq<string>)
    requires ws != [] && forall j :: 0 <= j < |ws| ==> IsWordToken(ws[j])
    ensures SemanticName(HardNegName(n, Join(ws, '_'))) == Join(["hardneg"] + ws, '_')
  {
    var key := Join(ws, '_');
    var d := Dec06(n);
    var stem := "hardneg" + "_" + (d + "_" + key);
    WordsKey(ws);
    IdFieldsOf(n);
    HardNegIsWord();
    HardNegNameStem(n, key);
    PrefixedStemIsLower("hardneg", d, key);
    PrefixedStemTokens("hardneg", d, key);
    SemanticTokensPrefixed("hardneg", d, ws);
    SemanticNameFromTokens(HardNegName(n, key), stem, ["hardneg", d] + ws, ["hardneg"] + ws);
  }

  /**
   * A clip named by words has those words as its semantic name, but its
   * mined copy has "hardneg_" in front of them: the copy does not block the
   * clip from being mined again by the next call.
   */
  lemma MinedCopyHasOtherKey(n: nat, ws: seq<string>)
    requires ws != [] && forall j :: 0 <= j < |ws| ==> IsWordToken(ws[j])
    ensures SemanticName(Join(ws, '_') + ".wav") == Join(ws, '_')
    ensures SemanticName(HardNegName(n, Join(ws, '_'))) == "hardneg" + "_" + Join(ws, '_')
    ensures SemanticName(HardNegName(n, Join(ws, '_'))) != Join(ws, '_')
  {
    SemanticNameOfWords(ws);
    HardNegSemanticName(n, ws);
    JoinCons("hardneg", ws);
  }

  /** Joining one more word in front adds it and a '_'. */
  lemma JoinCons(w: string, ws: seq<string>)
    requires ws != []
    ensures Join([w] + ws, '_') == w + "_" + Join(ws, '_')
    ensures |Join([w] + ws, '_')| > |Join(ws, '_')|
  {
    var ts := [w] + ws;
    assert ts[0] == w && ts[1..] == ws;
  }

  /** The index field of a copy's name: non-empty, no '_', no upper case, an identifier. */
  lemma IdFieldsOf(n: nat)
    ensures var d := Dec06(n); d != [] && '_' !in d && NoUpper(d) && IsIdentifierToken(d)
  {
    var d := Dec06(n);
    Dec06RoundTrip(n);
    IndexFieldIsIdentifier(n);
    assert forall i :: 0 <= i < |d| ==> d[i] != '_' && !IsUpperLetter(d[i]);
    NoUpperAt(d);
  }
}
