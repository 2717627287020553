/**
 * The file-level helpers of the closed-loop evaluator: which clips it reads
 * (`collect_wavs`, `sample_even`), which runtime loads the model
 * (`infer_framework`) and the semantic name it deduplicates mined clips by
 * (`semantic_name`). A path is its list of components; the files under a
 * directory are given as the paths `rglob("*")` yields that are files.
 */
module EvalFiles {
  import opened Text
  import opened Ordering
  import opened Naming
  import Arith

  /** `p.suffix.lower() in AUDIO_EXTS` for the last component of `p`. */
  predicate IsWav(p: seq<string>)
  {
    p != [] && Lower(Suffix(p[|p| - 1])) == ".wav"
  }

  /** A file is a clip exactly when its name is longer than ".wav" and ends with it, in any case. */
  lemma IsWavMeansEnding(p: seq<string>)
    requires p != []
    ensures var name := p[|p| - 1];
      IsWav(p) <==> |name| > 4 && Lower(name[|name| - 4..]) == ".wav"
  {
    SuffixMatches(p[|p| - 1], ".wav");
  }

  function WavsAmong(files: seq<seq<string>>): (r: seq<seq<string>>)
    ensures forall p :: p in r <==> p in files && IsWav(p)
  {
    if files == [] then []
    else (if IsWav(files[0]) then [files[0]] else []) + WavsAmong(files[1..])
  }

  /**
   * `collect_wavs(root)`: nothing for a missing root, otherwise every clip
   * under it, once per occurrence, in path order.
   */
  function CollectWavs(rootExists: bool, files: seq<seq<string>>): (r: seq<seq<string>>)
    ensures !rootExists ==> r == []
    ensures rootExists ==> multiset(r) == multiset(WavsAmong(files))
    ensures forall p :: p in r <==> rootExists && p in files && IsWav(p)
    ensures SortedBy(r, PathLe)
  {
    if !rootExists then []
    else
      var r := SortBy(WavsAmong(files), PathLe);
      PathLeIsTotalPreorder();
      SortBySorted(WavsAmong(files), PathLe);
      assert forall p :: p in r <==> p in WavsAmong(files) by {
        forall p ensures p in r <==> p in WavsAmong(files) {
          assert p in r <==> p in multiset(r);
          assert p in WavsAmong(files) <==> p in multiset(WavsAmong(files));
        }
      }
      r
  }

  // --------------------------------------------------------- sample_even

  /** The `i`-th of `m` evenly spaced indices into `n` items, rounded down. */
  function SpacedIndex(i: nat, n: nat, m: nat): (k: nat)
    requires i < m < n
    ensures k < n
  {
    if m == 1 then 0
    else
      SpacedBound(i, n, m);
      (i * (n - 1)) / (m - 1)
  }

  lemma SpacedBound(i: nat, n: nat, m: nat)
    requires i < m < n && 2 <= m
    ensures 0 <= (i * (n - 1)) / (m - 1) <= n - 1
  {
    Arith.MulLe(n - 1, i, m - 1);
    assert i * (n - 1) <= (m - 1) * (n - 1);
    Arith.DivMonotone(i * (n - 1), (n - 1) * (m - 1), m - 1);
    Arith.DivOfMultiple(n - 1, m - 1);
  }

  function SpacedIndices(n: nat, m: nat): (idx: seq<nat>)
    requires m < n
    ensures |idx| == m && forall i :: 0 <= i < m ==> idx[i] == SpacedIndex(i, n, m)
  {
    seq(m, i requires 0 <= i < m => SpacedIndex(i, n, m))
  }

  /**
   * `sample_even(paths, max_items)`: every path when `max_items` is not
   * positive or already covers them, otherwise `max_items` of them picked at
   * evenly spaced positions.
   */
  function SampleEven<T>(paths: seq<T>, maxItems: int): (r: seq<T>)
    ensures maxItems <= 0 || |paths| <= maxItems ==> r == paths
    ensures 0 < maxItems < |paths| ==> |r| == maxItems
  {
    if maxItems <= 0 || |paths| <= maxItems then paths
    else
      var idx := SpacedIndices(|paths|, maxItems);
      seq(maxItems, i requires 0 <= i < maxItems => paths[idx[i]])
  }

  /** Successive spaced indices are strictly increasing when there are fewer picks than items. */
  lemma SpacedIndicesIncrease(n: nat, m: nat, i: nat)
    requires i + 1 < m < n
    ensures SpacedIndex(i, n, m) < SpacedIndex(i + 1, n, m)
  {
    Arith.Distribute(n - 1, i, 1);
    assert (i + 1) * (n - 1) == i * (n - 1) + (n - 1);
    Arith.DivStep(i * (n - 1), n - 1, m - 1);
  }

  /** The last spaced index is the last item. */
  lemma SpacedIndexLast(n: nat, m: nat)
    requires 2 <= m < n
    ensures SpacedIndex(m - 1, n, m) == n - 1
  {
    assert (m - 1) * (n - 1) == (n - 1) * (m - 1);
    Arith.DivOfMultiple(n - 1, m - 1);
  }

  /**
   * When it cuts, the sample keeps its order and picks distinct positions: it
   * is `paths` at strictly increasing indices, starting with the first path
   * and, with two or more picks, ending with the last.
   */
  lemma SampleEvenPicks<T>(paths: seq<T>, maxItems: int)
    requires 0 < maxItems < |paths|
    ensures Picks(SpacedIndices(|paths|, maxItems), SampleEven(paths, maxItems), paths)
    ensures SampleEven(paths, maxItems)[0] == paths[0]
    ensures maxItems >= 2 ==> SampleEven(paths, maxItems)[maxItems - 1] == paths[|paths| - 1]
  {
    var n, m := |paths|, maxItems;
    var idx := SpacedIndices(n, m);
    forall k | 0 <= k < m - 1 ensures idx[k] < idx[k + 1] {
      SpacedIndicesIncrease(n, m, k);
    }
    if m >= 2 {
      SpacedIndexLast(n, m);
    }
  }

  // --------------------------------------------------------- infer_framework

  /** `infer_framework`: ONNX for a ".onnx" model file in any case, TFLite for anything else. */
  function InferFramework(modelName: string): (r: string)
    ensures r == "onnx" || r == "tflite"
    ensures r == "onnx" <==> |modelName| > 5 && Lower(modelName[|modelName| - 5..]) == ".onnx"
  {
    SuffixMatches(modelName, ".onnx");
    if Lower(Suffix(modelName)) == ".onnx" then "onnx" else "tflite"
  }

  // ----------------------------------------------------------- semantic_name

  /**
   * `semantic_name`: the name's non-identifier tokens joined by '_'; failing
   * those, all its tokens; failing those, its lower-cased stem.
   */
  function SemanticName(name: string): string
  {
    var stem := Lower(Stem(name));
    var tokens := Tokens(stem);
    var semantic := SemanticTokens(tokens);
    if semantic != [] then Join(semantic, '_')
    else if tokens != [] then Join(tokens, '_')
    else stem
  }

  /**
   * Cutting the semantic name at '_' gives back the tokens it keeps: the
   * non-identifier tokens of the stem when there are any, otherwise all of
   * them; a stem without tokens is kept whole.
   */
  lemma SemanticNameTokens(name: string)
    ensures var stem := Lower(Stem(name));
      var ts := Tokens(stem);
      var r := SemanticName(name);
      && (SemanticTokens(ts) != [] ==> Tokens(r) == SemanticTokens(ts))
      && (SemanticTokens(ts) == [] && ts != [] ==> Tokens(r) == ts)
      && (ts == [] ==> r == stem)
  {
    var stem := Lower(Stem(name));
    var tokens := Tokens(stem);
    var semantic := SemanticTokens(tokens);
    TokensAreWords(stem);
    if semantic != [] {
      TokensOfJoin(semantic);
    } else if tokens != [] {
      TokensOfJoin(tokens);
    }
  }
}
