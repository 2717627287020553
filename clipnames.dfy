/**
 * The names the sample generator gives its clips
 * (generate_training_samples.py, `gen_positives` and `gen_negatives`):
 * `f"{prefix}_{idx:06d}_uid{idx:06x}_{semantic}.wav"`, where the semantic
 * name is picked by a cursor walking a mixed-radix space (voice, variation,
 * style for positives; variation, style for negatives). The lemmas show that
 * `canonical_clip_key` and the index parsing of `scan_existing_clips` read
 * back what was written, and that distinct cursors give distinct names.
 */
module ClipNames {
  import opened Wrappers
  import opened Text
  import opened Naming
  import opened Variations
  import Arith

  // ------------------------------------------------------------ the names

  /** `f"style{alpha_token(k)}"` */
  function StyleTag(k: nat): string
  {
    "style" + Alpha(k)
  }

  lemma StyleTagIsWordToken(k: nat)
    ensures IsWordToken(StyleTag(k))
  {
    StyleTagIsWord(k);
    var t := StyleTag(k);
    AllLowerLettersAt(Alpha(k));
    assert forall i :: 0 <= i < |t| ==> IsLowerLetter(t[i]) by {
      assert forall i :: 5 <= i < |t| ==> t[i] == Alpha(k)[i - 5];
    }
    NoUpperAt(t);
  }

  lemma StyleTagInjective(m: nat, n: nat)
    requires StyleTag(m) == StyleTag(n)
    ensures m == n
  {
    assert Alpha(m) == StyleTag(m)[5..] && Alpha(n) == StyleTag(n)[5..];
    AlphaInjective(m, n);
  }

  /**
   * The semantic name of positive cursor `c`: voice `c % V`, variation
   * `(c / V) % 7` and style `c / (V * 7)` for a pool of `V` voices.
   */
  function PositiveSemantic(pool: seq<string>, c: nat): string
    requires pool != []
  {
    var voiceCount := |pool|;
    var variantCount := |PositiveVariations()|;
    VoiceLabel(pool[c % voiceCount]) + "_" + PositiveVariations()[(c / voiceCount) % variantCount]
      + "_" + StyleTag(Arith.DivProduct(c, voiceCount, variantCount))
  }

  /** The semantic name of negative cursor `c`: variation `c % 13`, style `c / 13`. */
  function NegativeSemantic(c: nat): string
  {
    NegativeVariations()[c % |NegativeVariations()|] + "_" + StyleTag(c / |NegativeVariations()|)
  }

  /** `f"{prefix}_{idx:06d}_uid{idx:06x}_{semantic}.wav"` */
  function ClipFileName(prefix: string, idx: nat, semantic: string): string
  {
    prefix + "_" + Dec06(idx) + "_uid" + Hex06(idx) + "_" + semantic + ".wav"
  }

  /** `f"{prefix}:{semantic}"` */
  function ClipKey(prefix: string, semantic: string): string
  {
    prefix + ":" + semantic
  }

  /** What `Path(outdir).glob(f"{prefix}_*.wav")` matches, on a file name. */
  predicate MatchesClipGlob(name: string, prefix: string)
  {
    StartsWith(name, prefix + "_") && |name| >= |prefix| + 5 && name[|name| - 4..] == ".wav"
  }

  /**
   * The index `scan_existing_clips` reads from a clip name: the second
   * '_'-piece of the stem, when there are at least three pieces, the first is
   * the prefix and the second is all digits.
   */
  function ClipIndex(name: string, prefix: string): Option<nat>
  {
    var parts := Split(Stem(name), '_');
    if |parts| >= 3 && parts[0] == prefix && IsDigits(parts[1]) then
      AllDigitsAt(parts[1]);
      Some(ParseDecimal(parts[1]))
    else None
  }

  // ------------------------------------------------------------ round trips

  /** The name with its ".wav" split off. */
  lemma ClipFileNameParts(prefix: string, idx: nat, semantic: string)
    ensures var rest := Dec06(idx) + "_" + ("uid" + Hex06(idx) + "_" + semantic);
      && ClipFileName(prefix, idx, semantic) == prefix + "_" + rest + ".wav"
      && Stem(ClipFileName(prefix, idx, semantic)) == prefix + "_" + rest
  {
    var rest := Dec06(idx) + "_" + ("uid" + Hex06(idx) + "_" + semantic);
    assert ClipFileName(prefix, idx, semantic) == (prefix + "_" + rest) + ".wav";
    StemAndSuffix(prefix + "_" + rest, ".wav");
  }

  /** The two id fields of a clip name contain no '_' and no upper case. */
  lemma IdFieldsHaveNoSeparator(idx: nat)
    ensures var d := Dec06(idx); d != [] && '_' !in d && NoUpper(d)
    ensures var u := "uid" + Hex06(idx); '_' !in u && NoUpper(u)
  {
    var d := Dec06(idx);
    var u := "uid" + Hex06(idx);
    Dec06RoundTrip(idx);
    Hex06IsHex(idx);
    AllHexAt(Hex06(idx));
    assert forall i :: 3 <= i < |u| ==> u[i] == Hex06(idx)[i - 3];
    assert forall i :: 0 <= i < |u| ==> u[i] != '_' && !IsUpperLetter(u[i]);
    assert forall i :: 0 <= i < |d| ==> d[i] != '_' && !IsUpperLetter(d[i]);
    NoUpperAt(d);
    NoUpperAt(u);
  }

  /** The two id fields of a clip name are what `_token_is_identifier` drops, and the index parses back. */
  lemma IdFields(idx: nat)
    ensures var d := Dec06(idx);
      && d != [] && '_' !in d && NoUpper(d) && IsIdentifierToken(d) && IsDigits(d) && ParseDecimal(d) == idx
    ensures var u := "uid" + Hex06(idx);
      && '_' !in u && NoUpper(u) && IsIdentifierToken(u)
  {
    IdFieldsHaveNoSeparator(idx);
    Dec06RoundTrip(idx);
    IndexFieldIsIdentifier(idx);
    UidTagIsIdentifier(idx);
  }

  /** Every name the generator writes is one the next scan's glob picks up. */
  lemma ClipFileNameMatchesGlob(prefix: string, idx: nat, semantic: string)
    ensures MatchesClipGlob(ClipFileName(prefix, idx, semantic), prefix)
  {
    var name := ClipFileName(prefix, idx, semantic);
    ClipFileNameParts(prefix, idx, semantic);
    assert name[..|prefix| + 1] == prefix + "_";
    assert name[|name| - 4..] == ".wav";
  }

  /** The '_'-pieces of a clip name's stem. */
  lemma ClipFileNamePieces(prefix: string, idx: nat, semantic: string)
    requires '_' !in prefix
    ensures Split(Stem(ClipFileName(prefix, idx, semantic)), '_')
      == [prefix, Dec06(idx), "uid" + Hex06(idx)] + Split(semantic, '_')
  {
    ClipFileNameParts(prefix, idx, semantic);
    IdFieldsHaveNoSeparator(idx);
    var d := Dec06(idx);
    var u := "uid" + Hex06(idx);
    var tail := u + "_" + semantic;
    var rest := d + "_" + tail;
    SplitCons(u, semantic, '_');
    assert Split(tail, '_') == [u] + Split(semantic, '_');
    SplitCons(d, tail, '_');
    assert Split(rest, '_') == [d] + Split(tail, '_');
    SplitCons(prefix, rest, '_');
  }

  /** The index written into a clip name is the one the scan reads back. */
  lemma ClipIndexRoundTrip(prefix: string, idx: nat, semantic: string)
    requires '_' !in prefix
    ensures ClipIndex(ClipFileName(prefix, idx, semantic), prefix) == Some(idx)
  {
    ClipFileNamePieces(prefix, idx, semantic);
    IdFields(idx);
  }

  /** The lower-cased stem of a clip name is the stem itself when prefix and semantic name are lower case. */
  lemma ClipStemIsLower(prefix: string, idx: nat, semantic: string)
    requires NoUpper(prefix) && NoUpper(semantic)
    ensures Lower(Stem(ClipFileName(prefix, idx, semantic))) == Stem(ClipFileName(prefix, idx, semantic))
  {
    ClipFileNameParts(prefix, idx, semantic);
    IdFields(idx);
    var d := Dec06(idx);
    var u := "uid" + Hex06(idx);
    NoUpperConcat(u, "_");
    NoUpperConcat(u + "_", semantic);
    NoUpperConcat(d, "_");
    NoUpperConcat(d + "_", u + "_" + semantic);
    NoUpperConcat(prefix, "_");
    NoUpperConcat(prefix + "_", d + "_" + (u + "_" + semantic));
    LowerOfNoUpper(Stem(ClipFileName(prefix, idx, semantic)));
  }

  /**
   * `canonical_clip_key` of a written name gives back the key it was written
   * under, whenever the semantic name is a '_'-join of words.
   */
  lemma ClipKeyRoundTrip(prefix: string, idx: nat, ws: seq<string>)
    requires NoUpper(prefix)
    requires ws != [] && forall j :: 0 <= j < |ws| ==> IsWordToken(ws[j])
    ensures CanonicalClipKey(ClipFileName(prefix, idx, Join(ws, '_')), prefix) == Some(ClipKey(prefix, Join(ws, '_')))
  {
    var semantic := Join(ws, '_');
    ClipFileNameParts(prefix, idx, semantic);
    IdFields(idx);
    NoUpperJoin(ws, '_');
    ClipStemIsLower(prefix, idx, semantic);
    var d := Dec06(idx);
    var u := "uid" + Hex06(idx);
    var rest := d + "_" + (u + "_" + semantic);
    var stem := prefix + "_" + rest;
    assert stem[..|prefix + "_"|] == prefix + "_";
    assert stem[|prefix + "_"|..] == rest;
    // the tokens after the prefix are the index, the uid tag and the words
    TokensOfJoin(ws);
    TokensConcat(u, semantic);
    TokensConcat(d, u + "_" + semantic);
    TokensOfWord(d);
    TokensOfWord(u);
    assert Tokens(rest) == [d] + ([u] + ws);
    SemanticTokensConcat([d], [u] + ws);
    SemanticTokensConcat([u], ws);
    SemanticTokensOfWords(ws);
    assert SemanticTokens([d]) == [] && SemanticTokens([u]) == [];
  }

  /** The two clip prefixes are lower case. */
  lemma PrefixesAreLower()
    ensures NoUpper("positive") && NoUpper("negative")
  {
    NoUpperAt("positive");
    NoUpperAt("negative");
  }

  /** A negative semantic name is the join of its variation's words and its style tag. */
  lemma NegativeSemanticWords(c: nat) returns (ws: seq<string>)
    ensures |ws| >= 2 && ws[|ws| - 1] == StyleTag(c / 13)
    ensures Join(ws[..|ws| - 1], '_') == NegativeVariations()[c % 13]
    ensures NegativeSemantic(c) == Join(ws, '_') && Tokens(NegativeSemantic(c)) == ws
    ensures forall j :: 0 <= j < |ws| ==> IsWordToken(ws[j])
  {
    var vs := NegativeVariationSplit(c % 13);
    StyleTagIsWordToken(c / 13);
    ws := vs + [StyleTag(c / 13)];
    assert ws[..|ws| - 1] == vs;
    JoinConcat(vs, [StyleTag(c / 13)], '_');
    TokensOfJoin(ws);
  }

  /** `canonical_clip_key` recovers every negative clip's key from its file name. */
  lemma NegativeKeyRoundTrip(idx: nat, c: nat)
    ensures CanonicalClipKey(ClipFileName("negative", idx, NegativeSemantic(c)), "negative")
      == Some(ClipKey("negative", NegativeSemantic(c)))
  {
    var ws := NegativeSemanticWords(c);
    PrefixesAreLower();
    ClipKeyRoundTrip("negative", idx, ws);
  }

  /** The voice label is a slug, so its tokens join back to it and carry no upper case. */
  lemma VoiceLabelTokens(voice: string)
    ensures var ts := Tokens(VoiceLabel(voice));
      && ts != [] && Join(ts, '_') == VoiceLabel(voice)
      && forall j :: 0 <= j < |ts| ==> ts[j] != [] && '_' !in ts[j] && NoUpper(ts[j])
  {
    var voiceTag := VoiceLabel(voice);
    JoinTokens(voiceTag);
    assert NoUpper(voiceTag) by {
      NoUpperAt(voiceTag);
    }
    SplitNoUpper(voiceTag, '_');
  }

  /** The three fields of a positive semantic name. */
  lemma PositiveSemanticParts(pool: seq<string>, c: nat)
    requires pool != []
    ensures PositiveSemantic(pool, c) == VoiceLabel(pool[c % |pool|]) + "_"
      + (PositiveVariations()[(c / |pool|) % 7] + "_" + StyleTag(Arith.DivProduct(c, |pool|, 7)))
  {
    PositiveVariationsAreWords();
  }

  /** A positive semantic name is the join of the voice label's tokens, the variation and the style tag. */
  lemma PositiveSemanticWords(pool: seq<string>, c: nat) returns (ts: seq<string>)
    requires pool != []
    ensures ts == Tokens(VoiceLabel(pool[c % |pool|]))
    ensures IsWordToken(PositiveVariations()[(c / |pool|) % 7]) && IsWordToken(StyleTag(Arith.DivProduct(c, |pool|, 7)))
    ensures var ws := ts + [PositiveVariations()[(c / |pool|) % 7], StyleTag(Arith.DivProduct(c, |pool|, 7))];
      && PositiveSemantic(pool, c) == Join(ws, '_')
      && Tokens(PositiveSemantic(pool, c)) == ws
  {
    var v := |pool|;
    var voiceTag := VoiceLabel(pool[c % v]);
    var variation := PositiveVariations()[(c / v) % 7];
    var style := StyleTag(Arith.DivProduct(c, v, 7));
    ts := Tokens(voiceTag);
    VoiceLabelTokens(pool[c % v]);
    PositiveVariationsAreWords();
    StyleTagIsWordToken(Arith.DivProduct(c, v, 7));
    PositiveSemanticParts(pool, c);
    var ws := ts + [variation, style];
    JoinConcat(ts, [variation, style], '_');
    assert Join([variation, style], '_') == variation + "_" + style;
    TokensOfJoin(ws);
  }

  /**
   * `canonical_clip_key` recovers a positive clip's key from its file name
   * whenever no token of the voice label looks like an identifier.
   */
  lemma PositiveKeyRoundTrip(pool: seq<string>, idx: nat, c: nat)
    requires pool != []
    requires forall t :: t in Tokens(VoiceLabel(pool[c % |pool|])) ==> !IsIdentifierToken(t)
    ensures CanonicalClipKey(ClipFileName("positive", idx, PositiveSemantic(pool, c)), "positive")
      == Some(ClipKey("positive", PositiveSemantic(pool, c)))
  {
    var v := |pool|;
    var ts := PositiveSemanticWords(pool, c);
    VoiceLabelTokens(pool[c % v]);
    var style := StyleTag(Arith.DivProduct(c, v, 7));
    var variation := PositiveVariations()[(c / v) % 7];
    WordsThenTwo(ts, variation, style);
    PrefixesAreLower();
    ClipKeyRoundTrip("positive", idx, ts + [variation, style]);
  }

  /** Word tokens followed by two more word tokens are all word tokens. */
  lemma WordsThenTwo(ts: seq<string>, a: string, b: string)
    requires forall j :: 0 <= j < |ts| ==> ts[j] != [] && '_' !in ts[j] && NoUpper(ts[j])
    requires forall t :: t in ts ==> !IsIdentifierToken(t)
    requires IsWordToken(a) && IsWordToken(b)
    ensures var ws := ts + [a, b]; forall j :: 0 <= j < |ws| ==> IsWordToken(ws[j])
  {
    var ws := ts + [a, b];
    forall j | 0 <= j < |ws| ensures IsWordToken(ws[j]) {
      if j < |ts| {
        assert ws[j] == ts[j] && ts[j] in ts;
      }
    }
  }

  // ------------------------------------------------------------ injectivity

  /** Distinct negative cursors name distinct clips, so the generator never asks for the same key twice. */
  lemma NegativeSemanticInjective(c1: nat, c2: nat)
    requires NegativeSemantic(c1) == NegativeSemantic(c2)
    ensures c1 == c2
  {
    var ws1 := NegativeSemanticWords(c1);
    var ws2 := NegativeSemanticWords(c2);
    assert ws1 == ws2;
    assert ws1[..|ws1| - 1] == ws2[..|ws2| - 1];
    StyleTagInjective(c1 / 13, c2 / 13);
    var k1, k2 := c1 % 13, c2 % 13;
    assert NegativeVariations()[k1] == NegativeVariations()[k2];
    VariationsDistinct();
    assert k1 == k2;
    Arith.DivMod(c1, 13);
    Arith.DivMod(c2, 13);
  }

  /**
   * Distinct positive cursors name distinct clips, provided no two voices of
   * the pool share a label.
   */
  lemma PositiveSemanticInjective(pool: seq<string>, c1: nat, c2: nat)
    requires pool != []
    requires forall i, j :: 0 <= i < j < |pool| ==> VoiceLabel(pool[i]) != VoiceLabel(pool[j])
    requires PositiveSemantic(pool, c1) == PositiveSemantic(pool, c2)
    ensures c1 == c2
  {
    var v := |pool|;
    var t1 := PositiveSemanticWords(pool, c1);
    var t2 := PositiveSemanticWords(pool, c2);
    var ws1 := t1 + [PositiveVariations()[(c1 / v) % 7], StyleTag(Arith.DivProduct(c1, v, 7))];
    var ws2 := t2 + [PositiveVariations()[(c2 / v) % 7], StyleTag(Arith.DivProduct(c2, v, 7))];
    assert ws1 == ws2;
    assert |t1| == |t2|;
    assert t1 == ws1[..|t1|] == ws2[..|t2|] == t2;
    assert ws1[|t1|] == ws2[|t2|] && ws1[|t1| + 1] == ws2[|t2| + 1];
    // the voice
    VoiceLabelTokens(pool[c1 % v]);
    VoiceLabelTokens(pool[c2 % v]);
    assert c1 % v == c2 % v;
    // the variation
    VariationsDistinct();
    assert (c1 / v) % 7 == (c2 / v) % 7;
    // the style
    StyleTagInjective(Arith.DivProduct(c1, v, 7), Arith.DivProduct(c2, v, 7));
    Arith.MixedRadix(c1, v, 7);
    Arith.MixedRadix(c2, v, 7);
    Arith.DivMod(c1 / v, 7);
    Arith.DivMod(c2 / v, 7);
    assert c1 / v == c2 / v;
    Arith.DivMod(c1, v);
    Arith.DivMod(c2, v);
  }
}
