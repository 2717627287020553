/**
 * The pure naming helpers of the sample generator (generate_training_samples.py):
 * `slugify_phrase`, `voice_label`, `alpha_token`, `_token_is_identifier` and
 * `canonical_clip_key`. The evaluator's `_token_is_identifier`
 * (closed_loop_eval.py) is the same function, so it is defined once, here.
 */
module Naming {
  import opened Wrappers
  import opened Text
  import Arith

  // ------------------------------------------- re.sub(r"[^A-Za-z0-9]+", "_", s)

  /** The letters and digits of `s`, in order. */
  function AlnumOnly(s: string): string
  {
    if s == [] then [] else (if IsAlnum(s[0]) then [s[0]] else []) + AlnumOnly(s[1..])
  }

  lemma {:induction false} AlnumOnlyConcat(a: string, b: string)
    ensures AlnumOnly(a + b) == AlnumOnly(a) + AlnumOnly(b)
  {
    if a == [] {
      assert a + b == b;
    } else {
      var head := if IsAlnum(a[0]) then [a[0]] else [];
      assert (a + b)[0] == a[0] && (a + b)[1..] == a[1..] + b;
      assert AlnumOnly(a + b) == head + AlnumOnly(a[1..] + b);
      AlnumOnlyConcat(a[1..], b);
      assert head + (AlnumOnly(a[1..]) + AlnumOnly(b)) == (head + AlnumOnly(a[1..])) + AlnumOnly(b);
    }
  }

  /** Skips a run of characters outside `[A-Za-z0-9]`. */
  function DropNonAlnum(s: string): (r: string)
    ensures |r| <= |s|
    ensures r == [] || IsAlnum(r[0])
    ensures AlnumOnly(r) == AlnumOnly(s)
  {
    if s == [] || IsAlnum(s[0]) then s else DropNonAlnum(s[1..])
  }

  /**
   * `re.sub(r"[^A-Za-z0-9]+", "_", s)`: each maximal run of other characters
   * (the '_' of the input included) becomes a single '_'; letters and digits
   * are kept in order.
   */
  function ReplaceNonAlnumRuns(s: string): (r: string)
    ensures forall i :: 0 <= i < |r| ==> IsAlnum(r[i]) || r[i] == '_'
    ensures forall i :: 0 <= i < |r| - 1 ==> !(r[i] == '_' && r[i + 1] == '_')
    ensures s != [] && IsAlnum(s[0]) ==> r != [] && r[0] == s[0]
    ensures AlnumOnly(r) == AlnumOnly(s)
    decreases |s|
  {
    if s == [] then []
    else if IsAlnum(s[0]) then
      var rest := ReplaceNonAlnumRuns(s[1..]);
      assert forall i :: 1 <= i < |[s[0]] + rest| ==> ([s[0]] + rest)[i] == rest[i - 1];
      [s[0]] + rest
    else
      var rest := ReplaceNonAlnumRuns(DropNonAlnum(s[1..]));
      assert forall i :: 1 <= i < |"_" + rest| ==> ("_" + rest)[i] == rest[i - 1];
      "_" + rest
  }

  /** `s.lstrip("_")` */
  function StripLeading(s: string): (r: string)
    ensures |r| <= |s| && r == s[|s| - |r|..]
    ensures r == [] || r[0] != '_'
  {
    if s != [] && s[0] == '_' then
      var r := StripLeading(s[1..]);
      assert s[1..][|s[1..]| - |r|..] == s[|s| - |r|..];
      r
    else s
  }

  /** Stripping leading '_'s keeps every letter and digit. */
  lemma {:induction false} StripLeadingKeepsAlnum(s: string)
    ensures AlnumOnly(StripLeading(s)) == AlnumOnly(s)
  {
    if s != [] && s[0] == '_' {
      StripLeadingKeepsAlnum(s[1..]);
    }
  }

  /** `s.rstrip("_")` */
  function StripTrailing(s: string): (r: string)
    ensures |r| <= |s| && r == s[..|r|]
    ensures r == [] || r[|r| - 1] != '_'
    ensures AlnumOnly(r) == AlnumOnly(s)
  {
    if s != [] && s[|s| - 1] == '_' then
      AlnumOnlyConcat(s[..|s| - 1], "_");
      assert s == s[..|s| - 1] + "_";
      StripTrailing(s[..|s| - 1])
    else s
  }

  /** `re.sub(r"[^A-Za-z0-9]+", "_", s).strip("_").lower()`, shared by `slugify_phrase` and `voice_label`. */
  function Sanitize(s: string): string
  {
    Lower(StripTrailing(StripLeading(ReplaceNonAlnumRuns(s))))
  }

  /** `[a-z0-9_]` */
  predicate IsSlugChar(c: char) { IsDigit(c) || IsLowerLetter(c) || c == '_' }

  /** A non-empty string over `[a-z0-9_]` with no '_' at either end and no "__". */
  ghost predicate IsSlug(s: string)
  {
    WellSeparated(s) && forall i :: 0 <= i < |s| ==> IsSlugChar(s[i])
  }

  lemma LowerLettersAreSlug(s: string)
    requires s != [] && AllLowerLetters(s)
    ensures IsSlug(s)
  {
    AllLowerLettersAt(s);
  }

  lemma {:induction false} AlnumOnlyLower(s: string)
    ensures AlnumOnly(Lower(s)) == Lower(AlnumOnly(s))
  {
    if s != [] {
      assert Lower(s) == [LowerChar(s[0])] + Lower(s[1..]);
      assert Lower(s)[1..] == Lower(s[1..]);
      AlnumOnlyLower(s[1..]);
      LowerConcat(if IsAlnum(s[0]) then [s[0]] else [], AlnumOnly(s[1..]));
    }
  }

  /** A string over letters, digits and '_' whose letters and digits are all gone is all '_'. */
  lemma {:induction false} NoAlnumMeansUnderscores(s: string)
    requires forall i :: 0 <= i < |s| ==> IsAlnum(s[i]) || s[i] == '_'
    requires AlnumOnly(s) == []
    ensures StripLeading(s) == []
  {
    if s != [] {
      NoAlnumMeansUnderscores(s[1..]);
    }
  }

  /** What `re.sub` leaves: letters, digits and single '_'s. */
  ghost predicate Separated(s: string)
  {
    && (forall i :: 0 <= i < |s| ==> IsAlnum(s[i]) || s[i] == '_')
    && (forall i :: 0 <= i < |s| - 1 ==> !(s[i] == '_' && s[i + 1] == '_'))
  }

  lemma {:induction false} StripLeadingSeparated(a: string)
    requires Separated(a)
    ensures Separated(StripLeading(a))
  {
    if a != [] && a[0] == '_' {
      var t := a[1..];
      assert forall i :: 0 <= i < |t| ==> t[i] == a[i + 1];
      StripLeadingSeparated(t);
    }
  }

  lemma StripTrailingSeparated(b: string)
    requires Separated(b)
    ensures Separated(StripTrailing(b))
  {
    var c := StripTrailing(b);
    assert forall i :: 0 <= i < |c| ==> c[i] == b[i];
  }

  /** Stripping the '_' ends of separated text leaves separated text with letter or digit ends. */
  lemma StripSeparated(a: string)
    requires Separated(a)
    ensures var c := StripTrailing(StripLeading(a));
      && Separated(c)
      && (c == [] <==> AlnumOnly(a) == [])
      && (c != [] ==> c[0] != '_' && c[|c| - 1] != '_')
  {
    var b := StripLeading(a);
    StripLeadingSeparated(a);
    StripTrailingSeparated(b);
    StripEmptyIff(a);
    StripEnds(a);
  }

  /** Stripping leaves nothing exactly when there was no letter or digit. */
  lemma StripEmptyIff(a: string)
    requires forall i :: 0 <= i < |a| ==> IsAlnum(a[i]) || a[i] == '_'
    ensures StripTrailing(StripLeading(a)) == [] <==> AlnumOnly(a) == []
  {
    var b := StripLeading(a);
    var c := StripTrailing(b);
    assert AlnumOnly(c) == AlnumOnly(a) by {
      StripLeadingKeepsAlnum(a);
    }
    if AlnumOnly(a) == [] {
      NoAlnumMeansUnderscores(a);
    }
  }

  /** Neither end of the stripped text is '_'. */
  lemma StripEnds(a: string)
    ensures var c := StripTrailing(StripLeading(a));
      c != [] ==> c[0] != '_' && c[|c| - 1] != '_'
  {
    var b := StripLeading(a);
    var c := StripTrailing(b);
    if c != [] {
      assert c[0] == b[0];
    }
  }

  /** Lower-casing separated text with letter or digit ends gives a slug. */
  lemma LowerSeparated(c: string)
    requires Separated(c) && c != [] && c[0] != '_' && c[|c| - 1] != '_'
    ensures IsSlug(Lower(c))
  {
    var r := Lower(c);
    forall i | 0 <= i < |r| ensures IsSlugChar(r[i]) && (r[i] == '_' <==> c[i] == '_') {
      assert IsAlnum(c[i]) || c[i] == '_';
    }
  }

  /**
   * What `Sanitize` produces: empty exactly when the input has no ASCII letter
   * or digit, a slug otherwise, and its letters and digits are those of the
   * input, lower-cased, in order.
   */
  lemma SanitizeShape(s: string)
    ensures Sanitize(s) == [] <==> AlnumOnly(s) == []
    ensures Sanitize(s) != [] ==> IsSlug(Sanitize(s))
    ensures AlnumOnly(Sanitize(s)) == Lower(AlnumOnly(s))
  {
    var a := ReplaceNonAlnumRuns(s);
    var c := StripTrailing(StripLeading(a));
    StripSeparated(a);
    StripLeadingKeepsAlnum(a);
    AlnumOnlyLower(c);
    if c != [] {
      LowerSeparated(c);
    }
  }

  // ------------------------------------------------ slugify_phrase, voice_label

  lemma FallbackLetters()
    ensures AllLowerLetters("wakeword") && AllLowerLetters("default") && AllLowerLetters("voice")
  {
  }

  /** The fallback names are slugs themselves. */
  lemma FallbackSlugs()
    ensures IsSlug("wakeword") && IsSlug("default") && IsSlug("voice")
  {
    FallbackLetters();
    LowerLettersAreSlug("wakeword");
    LowerLettersAreSlug("default");
    LowerLettersAreSlug("voice");
  }

  /** `slugify_phrase`: the wake phrase as a directory name, "wakeword" when nothing usable is left. */
  function Slugify(value: string): (r: string)
    ensures IsSlug(r)
    ensures AlnumOnly(value) == [] ==> r == "wakeword"
    ensures AlnumOnly(value) != [] ==> AlnumOnly(r) == Lower(AlnumOnly(value))
  {
    var t := Sanitize(value);
    SanitizeShape(value);
    FallbackSlugs();
    if t == [] then "wakeword" else t
  }

  /** `voice_label`: "default" for an empty name, "voice" when nothing usable is left. */
  function VoiceLabel(value: string): (r: string)
    ensures IsSlug(r)
    ensures value == [] ==> r == "default"
    ensures value != [] && AlnumOnly(value) == [] ==> r == "voice"
    ensures AlnumOnly(value) != [] ==> AlnumOnly(r) == Lower(AlnumOnly(value))
  {
    SanitizeShape(value);
    FallbackSlugs();
    if value == [] then "default"
    else
      var t := Sanitize(value);
      if t == [] then "voice" else t
  }

  /** `re.sub` leaves text over `[A-Za-z0-9_]` alone when it has no "__" and does not end in '_'. */
  lemma {:induction false} ReplaceRunsOfSeparated(s: string)
    requires forall i :: 0 <= i < |s| ==> IsSlugChar(s[i])
    requires forall i :: 0 <= i < |s| - 1 ==> !(s[i] == '_' && s[i + 1] == '_')
    requires s == [] || s[|s| - 1] != '_'
    ensures ReplaceNonAlnumRuns(s) == s
  {
    if s != [] {
      var t := s[1..];
      assert forall i :: 0 <= i < |t| ==> t[i] == s[i + 1];
      ReplaceRunsOfSeparated(t);
      if s[0] == '_' {
        assert t != [] && t[0] != '_';
        assert DropNonAlnum(t) == t;
      }
      assert s == [s[0]] + t;
    }
  }

  /** A slug passes through `Sanitize` unchanged. */
  lemma SanitizeOfSlug(s: string)
    requires IsSlug(s)
    ensures Sanitize(s) == s
  {
    ReplaceRunsOfSeparated(s);
    assert StripLeading(s) == s;
    assert StripTrailing(s) == s;
    assert NoUpper(s) by {
      assert forall i :: 0 <= i < |s| ==> !IsUpperLetter(s[i]);
      NoUpperAt(s);
    }
    LowerOfNoUpper(s);
  }

  /** Slugifying a slug changes nothing. */
  lemma SlugifyIdempotent(value: string)
    ensures Slugify(Slugify(value)) == Slugify(value)
  {
    SanitizeOfSlug(Slugify(value));
  }

  /** Labelling a label changes nothing. */
  lemma VoiceLabelIdempotent(value: string)
    ensures VoiceLabel(VoiceLabel(value)) == VoiceLabel(value)
  {
    SanitizeOfSlug(VoiceLabel(value));
  }

  // ------------------------------------------------------------ alpha_token

  function Letter(d: nat): (c: char)
    requires d < 26
    ensures IsLowerLetter(c)
  {
    ('a' as int + d) as char
  }

  /** Bijective base-26 in letters: 0 is "a", 25 "z", 26 "aa", 701 "zz", 702 "aaa". */
  function Alpha(n: nat): (r: string)
    ensures r != [] && AllLowerLetters(r)
    decreases n
  {
    if n < 26 then [Letter(n)]
    else
      var r := Alpha(n / 26 - 1) + [Letter(n % 26)];
      AllLowerLettersAt(Alpha(n / 26 - 1));
      AllLowerLettersAt(r);
      r
  }

  /** `"".join(reversed(chars))` */
  function Reversed(s: string): (r: string)
    ensures |r| == |s|
  {
    if s == [] then [] else Reversed(s[1..]) + [s[0]]
  }

  lemma {:induction false} ReversedSnoc(s: string, c: char)
    ensures Reversed(s + [c]) == [c] + Reversed(s)
  {
    if s != [] {
      assert (s + [c])[1..] == s[1..] + [c];
      ReversedSnoc(s[1..], c);
    }
  }

  /** `alpha_token`: negative input counts as 0; the loop emits the digits lowest first and reverses them. */
  method AlphaToken(index: int) returns (token: string)
    ensures token == Alpha(if index < 0 then 0 else index)
  {
    var n: nat := if index < 0 then 0 else index;
    ghost var start := n;
    var chars: string := [];
    while true
      invariant Alpha(start) == Alpha(n) + Reversed(chars)
      decreases n
    {
      var rem := n % 26;
      var q := n / 26;
      ReversedSnoc(chars, Letter(rem));
      chars := chars + [Letter(rem)];
      if q == 0 {
        n := q;
        break;
      }
      n := q - 1;
    }
    token := Reversed(chars);
  }

  /** The number a letter string stands for: the inverse of `Alpha`. */
  function AlphaIndex(s: string): nat
    requires s != [] && AllLowerLetters(s)
    decreases |s|
  {
    AllLowerLettersAt(s);
    var d := s[|s| - 1] as int - 'a' as int;
    if |s| == 1 then d
    else
      AllLowerLettersAt(s[..|s| - 1]);
      (AlphaIndex(s[..|s| - 1]) + 1) * 26 + d
  }

  lemma {:induction false} AlphaIndexOfAlpha(n: nat)
    ensures AlphaIndex(Alpha(n)) == n
    decreases n
  {
    if n >= 26 {
      var s := Alpha(n);
      assert s[..|s| - 1] == Alpha(n / 26 - 1);
      AlphaIndexOfAlpha(n / 26 - 1);
    }
  }

  lemma {:induction false} AlphaOfAlphaIndex(s: string)
    requires s != [] && AllLowerLetters(s)
    ensures Alpha(AlphaIndex(s)) == s
    decreases |s|
  {
    AllLowerLettersAt(s);
    if |s| > 1 {
      var p := s[..|s| - 1];
      AllLowerLettersAt(p);
      AlphaOfAlphaIndex(p);
      var m := AlphaIndex(s);
      var d := s[|s| - 1] as int - 'a' as int;
      assert m == 26 * (AlphaIndex(p) + 1) + d;
      Arith.DivUnique(m, 26, AlphaIndex(p) + 1, d);
      assert s == p + [s[|s| - 1]];
    }
  }

  /** `alpha_token` is injective on non-negative input, so distinct style numbers give distinct tags. */
  lemma AlphaInjective(m: nat, n: nat)
    requires Alpha(m) == Alpha(n)
    ensures m == n
  {
    AlphaIndexOfAlpha(m);
    AlphaIndexOfAlpha(n);
  }

  /** The values the source's docstring-style examples name. */
  lemma AlphaExamples()
    ensures Alpha(0) == "a" && Alpha(25) == "z" && Alpha(26) == "aa"
    ensures Alpha(701) == "zz" && Alpha(702) == "aaa"
  {
  }

  // --------------------------------------------------- _token_is_identifier

  predicate AllHexOrDash(s: string) { s == [] || ((IsHexDigit(s[0]) || s[0] == '-') && AllHexOrDash(s[1..])) }
  predicate AllLowerAlnumDash(s: string) { s == [] || ((IsDigit(s[0]) || IsLowerLetter(s[0]) || s[0] == '-') && AllLowerAlnumDash(s[1..])) }
  predicate HasLetter(s: string) { s != [] && (IsLowerLetter(s[0]) || IsUpperLetter(s[0]) || HasLetter(s[1..])) }
  predicate HasDigit(s: string) { s != [] && (IsDigit(s[0]) || HasDigit(s[1..])) }

  /** `re.fullmatch(p + r"[0-9a-f-]*", t)` */
  predicate PrefixedId(t: string, p: string)
  {
    StartsWith(t, p) && AllHexOrDash(t[|p|..])
  }

  /** `re.fullmatch(r"[0-9a-f]{8}-[0-9a-f]{4}-[0-9a-f]{4}-[0-9a-f]{4}-[0-9a-f]{12}", t)` */
  predicate IsUuid(t: string)
  {
    && |t| == 36
    && t[8] == '-' && t[13] == '-' && t[18] == '-' && t[23] == '-'
    && AllHex(t[..8]) && AllHex(t[9..13]) && AllHex(t[14..18]) && AllHex(t[19..23]) && AllHex(t[24..])
  }

  /**
   * `_token_is_identifier`: does a file-name token look like an index, a hash,
   * a UUID or a generated id rather than a word?
   */
  predicate IsIdentifierToken(t: string)
  {
    && t != []
    && (|| IsDigits(t)
        || (|t| >= 8 && AllHex(t))
        || IsUuid(t)
        || PrefixedId(t, "uid") || PrefixedId(t, "uuid") || PrefixedId(t, "id") || PrefixedId(t, "clip")
        || PrefixedId(t, "sample") || PrefixedId(t, "run") || PrefixedId(t, "gen")
        || (|t| >= 6 && AllLowerAlnumDash(t) && HasLetter(t) && HasDigit(t)))
  }

  lemma {:induction false} LettersHaveNoDigit(s: string)
    requires AllLowerLetters(s)
    ensures !HasDigit(s)
  {
    if s != [] {
      LettersHaveNoDigit(s[1..]);
    }
  }

  lemma {:induction false} HexIsHexOrDash(s: string)
    requires AllHex(s)
    ensures AllHexOrDash(s)
  {
    if s != [] {
      HexIsHexOrDash(s[1..]);
    }
  }

  /**
   * A lower-case word that is not all hex and starts with none of the id
   * prefixes is not an identifier.
   */
  lemma PlainWord(w: string)
    requires w != [] && (forall i :: 0 <= i < |w| ==> IsLowerLetter(w[i])) && !AllHex(w)
    requires w[0] != 'u' && w[0] != 'i' && w[0] != 'r' && w[0] != 'g'
    requires w[0] == 's' ==> |w| > 1 && w[1] != 'a'
    requires w[0] == 'c' ==> |w| > 2 && !(w[1] == 'l' && w[2] == 'i')
    ensures !IsIdentifierToken(w)
  {
    assert !IsDigits(w) && !HasDigit(w) by {
      AllLowerLettersAt(w);
      LettersHaveNoDigit(w);
    }
    assert !IsUuid(w) by {
      if |w| == 36 {
        assert w[8] != '-';
      }
    }
    MissesPrefix(w, "uid", 0);
    MissesPrefix(w, "uuid", 0);
    MissesPrefix(w, "id", 0);
    MissesPrefix(w, "run", 0);
    MissesPrefix(w, "gen", 0);
    if w[0] != 's' {
      MissesPrefix(w, "sample", 0);
    } else {
      MissesPrefix(w, "sample", 1);
    }
    if w[0] != 'c' {
      MissesPrefix(w, "clip", 0);
    } else if w[1] != 'l' {
      MissesPrefix(w, "clip", 1);
    } else {
      MissesPrefix(w, "clip", 2);
    }
  }

  /** A text that differs from `p` at position `k` does not start with `p`. */
  lemma MissesPrefix(w: string, p: string, k: nat)
    requires k < |p| && (k < |w| ==> w[k] != p[k])
    ensures !StartsWith(w, p)
  {
    if |p| <= |w| {
      assert w[..|p|][k] != p[k];
    }
  }

  /** A style tag `"style" + alpha_token(k)` is never taken for an identifier. */
  lemma StyleTagIsWord(k: nat)
    ensures !IsIdentifierToken("style" + Alpha(k))
  {
    var t := "style" + Alpha(k);
    assert t[0] == 's' && t[1] == 't';
    assert !AllDigits(t) && !AllHex(t);
    if |t| == 36 {
      assert t[..8][0] == 's';
      assert !AllHex(t[..8]);
    }
    assert AllLowerLetters(t) by {
      AllLowerLettersAt(Alpha(k));
      AllLowerLettersAt(t);
    }
    LettersHaveNoDigit(t);
  }

  /** The zero-padded index field is always an identifier. */
  lemma IndexFieldIsIdentifier(n: nat)
    ensures IsIdentifierToken(Dec06(n))
  {
    Dec06RoundTrip(n);
  }

  /** The `uid` tag `"uid" + f"{n:06x}"` is always an identifier. */
  lemma UidTagIsIdentifier(n: nat)
    ensures IsIdentifierToken("uid" + Hex06(n))
  {
    var t := "uid" + Hex06(n);
    Hex06IsHex(n);
    assert t[3..] == Hex06(n);
    HexIsHexOrDash(Hex06(n));
    assert PrefixedId(t, "uid");
  }

  // ------------------------------------------------------ canonical_clip_key

  /** `[t for t in ts if not _token_is_identifier(t)]` */
  function SemanticTokens(ts: seq<string>): (r: seq<string>)
    ensures |r| <= |ts|
    ensures forall k :: 0 <= k < |r| ==> r[k] in ts && !IsIdentifierToken(r[k])
  {
    if ts == [] then []
    else if IsIdentifierToken(ts[0]) then SemanticTokens(ts[1..])
    else [ts[0]] + SemanticTokens(ts[1..])
  }

  lemma {:induction false} SemanticTokensConcat(a: seq<string>, b: seq<string>)
    ensures SemanticTokens(a + b) == SemanticTokens(a) + SemanticTokens(b)
  {
    if a == [] {
      assert a + b == b;
    } else {
      assert (a + b)[0] == a[0] && (a + b)[1..] == a[1..] + b;
      SemanticTokensConcat(a[1..], b);
    }
  }

  /** Filtering keeps a list with no identifier in it whole. */
  lemma {:induction false} SemanticTokensOfWords(ts: seq<string>)
    requires forall k :: 0 <= k < |ts| ==> !IsIdentifierToken(ts[k])
    ensures SemanticTokens(ts) == ts
  {
    if ts != [] {
      SemanticTokensOfWords(ts[1..]);
      assert ts == [ts[0]] + ts[1..];
    }
  }

  lemma JoinOfNonEmpty(ts: seq<string>)
    requires ts != [] && ts[0] != []
    ensures Join(ts, '_') != []
  {
    if |ts| > 1 {
      assert Join(ts, '_') == ts[0] + ['_'] + Join(ts[1..], '_');
    }
  }

  /**
   * `canonical_clip_key(filename, prefix)`: the semantic key of a clip file,
   * `prefix + ":" + ` its non-identifier tokens after `prefix + "_"`, or None
   * when the lower-cased stem does not start with `prefix + "_"` or has no
   * such token.
   */
  function CanonicalClipKey(filename: string, prefix: string): (r: Option<string>)
    ensures r.Some? ==> StartsWith(Lower(Stem(filename)), prefix + "_")
    ensures r.Some? ==> |r.value| > |prefix| + 1 && r.value[..|prefix| + 1] == prefix + ":"
  {
    var stem := Lower(Stem(filename));
    var head := prefix + "_";
    if !StartsWith(stem, head) then None
    else
      var semantic := SemanticTokens(Tokens(stem[|head|..]));
      if semantic == [] then None
      else
        assert semantic[0] in Tokens(stem[|head|..]);
        JoinOfNonEmpty(semantic);
        Some(prefix + ":" + Join(semantic, '_'))
  }

  /** Filtering leaves nothing exactly when every token is an identifier. */
  lemma {:induction false} SemanticTokensEmpty(ts: seq<string>)
    ensures SemanticTokens(ts) == [] <==> forall k :: 0 <= k < |ts| ==> IsIdentifierToken(ts[k])
  {
    if ts != [] {
      SemanticTokensEmpty(ts[1..]);
      assert forall k :: 1 <= k < |ts| ==> ts[k] == ts[1..][k - 1];
    }
  }

  /**
   * The key is missing exactly when the lower-cased stem does not start with
   * `prefix + "_"` or every token after it is an identifier; otherwise the
   * part after `prefix + ":"` splits back into the non-identifier tokens, in
   * their order.
   */
  lemma CanonicalClipKeyCases(filename: string, prefix: string)
    ensures var stem := Lower(Stem(filename));
      var head := prefix + "_";
      var r := CanonicalClipKey(filename, prefix);
      && (r.None? <==>
            (!StartsWith(stem, head)
             || forall k :: 0 <= k < |Tokens(stem[|head|..])| ==> IsIdentifierToken(Tokens(stem[|head|..])[k])))
      && (r.Some? ==>
            (&& r.value == prefix + ":" + r.value[|prefix| + 1..]
             && Tokens(r.value[|prefix| + 1..]) == SemanticTokens(Tokens(stem[|head|..]))))
  {
    var stem := Lower(Stem(filename));
    var head := prefix + "_";
    if StartsWith(stem, head) {
      var ts := Tokens(stem[|head|..]);
      var semantic := SemanticTokens(ts);
      SemanticTokensEmpty(ts);
      if semantic != [] {
        TokensAreWords(stem[|head|..]);
        var r := prefix + ":" + Join(semantic, '_');
        assert r[|prefix| + 1..] == Join(semantic, '_');
        TokensOfJoin(semantic);
      }
    }
  }
}
