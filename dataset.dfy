/**
 * `create_dataset_json`: the labelled sample list a trainer reads. A path is
 * its list of components (an absolute path starts with the component "/");
 * the file system is the list of paths of its files, and whether the data
 * directory and its two sub-directories exist. Writing the JSON file and
 * printing the summary are left to the caller: the outcome carries the path
 * and the samples that would be written.
 */
module DatasetJson {
  import opened Wrappers
  import opened Text
  import opened Ordering

  /** One `{"filename": ..., "label": ...}` entry. */
  datatype Sample = Sample(filename: string, target: int)  // `target` is the JSON "label"

  /** `sys.exit(status)` before anything is written, or the file written and what it holds. */
  datatype Outcome = Exit(status: int) | Written(path: seq<string>, samples: seq<Sample>)

  /** `Path.parent`: all but the last component; "." and "/" are their own parents. */
  function Parent(dir: seq<string>): (r: seq<string>)
    ensures |r| <= |dir| && r == dir[..|r|]
    ensures dir != [] && dir != ["/"] ==> |r| == |dir| - 1
  {
    if dir == [] || dir == ["/"] then dir else dir[..|dir| - 1]
  }

  /** The `*.wav` pattern of `Path.glob`: any name ending in ".wav", with the case as written. */
  predicate MatchesWavGlob(name: string)
  {
    |name| >= 4 && name[|name| - 4..] == ".wav"
  }

  /** `p` names an entry directly inside `dir`. */
  predicate DirectlyIn(dir: seq<string>, p: seq<string>)
  {
    |p| == |dir| + 1 && p[..|dir|] == dir
  }

  /** The files `dir.glob("*.wav")` yields, in the order the listing gives them. */
  function GlobWav(dir: seq<string>, files: seq<seq<string>>): (r: seq<seq<string>>)
    ensures forall p :: p in r <==> p in files && DirectlyIn(dir, p) && MatchesWavGlob(p[|dir|])
  {
    if files == [] then []
    else
      var p := files[0];
      (if DirectlyIn(dir, p) && MatchesWavGlob(p[|dir|]) then [p] else []) + GlobWav(dir, files[1..])
  }

  /**
   * `sorted(dir.glob("*.wav"))` behind `if dir.exists()`: nothing for a
   * missing directory; otherwise the `*.wav` files directly inside it (not
   * in its sub-directories), each as often as listed, in path order.
   */
  function SortedGlob(dir: seq<string>, dirExists: bool, files: seq<seq<string>>): (r: seq<seq<string>>)
    ensures !dirExists ==> r == []
    ensures dirExists ==> multiset(r) == multiset(GlobWav(dir, files))
    ensures forall p :: p in r <==> dirExists && p in files && DirectlyIn(dir, p) && MatchesWavGlob(p[|dir|])
    ensures SortedBy(r, PathLe)
  {
    if !dirExists then []
    else
      var r := SortBy(GlobWav(dir, files), PathLe);
      PathLeIsTotalPreorder();
      SortBySorted(GlobWav(dir, files), PathLe);
      assert forall p :: p in r <==> p in GlobWav(dir, files) by {
        forall p ensures p in r <==> p in GlobWav(dir, files) {
          assert p in r <==> p in multiset(r);
          assert p in GlobWav(dir, files) <==> p in multiset(GlobWav(dir, files));
        }
      }
      r
  }

  /** `p.relative_to(base)`: the components after `base`; the glob results always lie under it. */
  function Relative(base: seq<string>, p: seq<string>): seq<string>
  {
    if |base| <= |p| && p[..|base|] == base then p[|base|..] else p
  }

  /** `str(p.relative_to(base))` */
  function FileName(base: seq<string>, p: seq<string>): string
  {
    Join(Relative(base, p), '/')
  }

  /** The samples for `paths`, in their order, all with one label. */
  function Labelled(base: seq<string>, paths: seq<seq<string>>, target: int): (r: seq<Sample>)
    ensures |r| == |paths|
  {
    if paths == [] then []
    else Labelled(base, paths[..|paths| - 1], target) + [Sample(FileName(base, paths[|paths| - 1]), target)]
  }

  function PositivePaths(dataDir: seq<string>, posExists: bool, files: seq<seq<string>>): seq<seq<string>>
  {
    SortedGlob(dataDir + ["positives"], posExists, files)
  }

  function NegativePaths(dataDir: seq<string>, negExists: bool, files: seq<seq<string>>): seq<seq<string>>
  {
    SortedGlob(dataDir + ["negatives"], negExists, files)
  }

  /** The sample list: the positives labelled 1, then the negatives labelled 0, named from the data directory's parent. */
  function Samples(dataDir: seq<string>, posExists: bool, negExists: bool, files: seq<seq<string>>): seq<Sample>
  {
    Labelled(Parent(dataDir), PositivePaths(dataDir, posExists, files), 1)
      + Labelled(Parent(dataDir), NegativePaths(dataDir, negExists, files), 0)
  }

  /** What `create_dataset_json(data_dir, output_file)` does. */
  function DatasetOutcome(dataExists: bool, dataDir: seq<string>, outputFile: Option<seq<string>>,
                          posExists: bool, negExists: bool, files: seq<seq<string>>): (r: Outcome)
    ensures r == Exit(1) <==> !dataExists
    ensures r.Written? ==> r.path == (if outputFile.Some? then outputFile.value else dataDir + ["dataset.json"])
  {
    if !dataExists then Exit(1)
    else
      var path := if outputFile.None? then dataDir + ["dataset.json"] else outputFile.value;
      Written(path, Samples(dataDir, posExists, negExists, files))
  }

  /** The function itself: an early exit, then the two appending loops. */
  method CreateDatasetJson(dataExists: bool, dataDir: seq<string>, outputFile: Option<seq<string>>,
                           posExists: bool, negExists: bool, files: seq<seq<string>>)
    returns (outcome: Outcome)
    ensures outcome == DatasetOutcome(dataExists, dataDir, outputFile, posExists, negExists, files)
  {
    if !dataExists {
      return Exit(1);
    }
    var output := if outputFile.None? then dataDir + ["dataset.json"] else outputFile.value;
    var samples := CollectSamples(dataDir, posExists, negExists, files);
    outcome := Written(output, samples);
  }

  /** The two loops: every positive, then every negative. */
  method CollectSamples(dataDir: seq<string>, posExists: bool, negExists: bool, files: seq<seq<string>>)
    returns (samples: seq<Sample>)
    ensures samples == Samples(dataDir, posExists, negExists, files)
  {
    var base := Parent(dataDir);
    var pos := PositivePaths(dataDir, posExists, files);
    var neg := NegativePaths(dataDir, negExists, files);
    samples := AppendLabelled([], base, pos, 1);
    assert samples == Labelled(base, pos, 1);
    samples := AppendLabelled(samples, base, neg, 0);
  }

  /** One `for wav_file in sorted(...): samples.append(...)` loop. */
  method AppendLabelled(samples0: seq<Sample>, base: seq<string>, paths: seq<seq<string>>, target: int)
    returns (samples: seq<Sample>)
    ensures samples == samples0 + Labelled(base, paths, target)
  {
    samples := samples0;
    for i := 0 to |paths|
      invariant samples == samples0 + Labelled(base, paths[..i], target)
    {
      assert paths[..i + 1][..i] == paths[..i];
      samples := samples + [Sample(FileName(base, paths[i]), target)];
    }
    assert paths[..|paths|] == paths;
  }

  // ------------------------------------------------------------ properties

  /** `len([s for s in samples if s["label"] == label])` */
  function CountLabel(samples: seq<Sample>, target: int): nat
  {
    if samples == [] then 0
    else CountLabel(samples[..|samples| - 1], target) + (if samples[|samples| - 1].target == target then 1 else 0)
  }

  lemma {:induction false} CountLabelConcat(a: seq<Sample>, b: seq<Sample>, target: int)
    ensures CountLabel(a + b, target) == CountLabel(a, target) + CountLabel(b, target)
    decreases |b|
  {
    if b != [] {
      var b' := b[..|b| - 1];
      assert (a + b)[..|a + b| - 1] == a + b';
      CountLabelConcat(a, b', target);
    } else {
      assert a + b == a;
    }
  }

  /** Every sample made for `paths` carries the label, and their file names follow the paths. */
  lemma {:induction false} LabelledAt(base: seq<string>, paths: seq<seq<string>>, target: int)
    ensures forall j :: 0 <= j < |paths| ==>
      Labelled(base, paths, target)[j] == Sample(FileName(base, paths[j]), target)
    ensures forall other :: CountLabel(Labelled(base, paths, target), other) == if other == target then |paths| else 0
  {
    if paths != [] {
      var init := paths[..|paths| - 1];
      LabelledAt(base, init, target);
      var r := Labelled(base, paths, target);
      assert r[..|r| - 1] == Labelled(base, init, target);
      forall j | 0 <= j < |paths| ensures r[j] == Sample(FileName(base, paths[j]), target) {
        if j < |paths| - 1 {
          assert init[j] == paths[j];
        }
      }
    }
  }

  /** Positives labelled 1 followed by negatives labelled 0 count as many of each label as there are paths. */
  lemma LabelledPairCounts(base: seq<string>, pos: seq<seq<string>>, neg: seq<seq<string>>)
    ensures var s := Labelled(base, pos, 1) + Labelled(base, neg, 0);
      CountLabel(s, 1) == |pos| && CountLabel(s, 0) == |neg|
  {
    var a := Labelled(base, pos, 1);
    var b := Labelled(base, neg, 0);
    LabelledAt(base, pos, 1);
    LabelledAt(base, neg, 0);
    CountLabelConcat(a, b, 1);
    CountLabelConcat(a, b, 0);
  }

  /** Positives labelled 1 followed by negatives labelled 0, position by position. */
  lemma LabelledPairAt(base: seq<string>, pos: seq<seq<string>>, neg: seq<seq<string>>)
    ensures var s := Labelled(base, pos, 1) + Labelled(base, neg, 0);
      && (forall j :: 0 <= j < |pos| ==> s[j] == Sample(FileName(base, pos[j]), 1))
      && (forall j :: 0 <= j < |neg| ==> s[|pos| + j] == Sample(FileName(base, neg[j]), 0))
  {
    var a := Labelled(base, pos, 1);
    var b := Labelled(base, neg, 0);
    LabelledAt(base, pos, 1);
    LabelledAt(base, neg, 0);
    forall j | 0 <= j < |neg| ensures (a + b)[|pos| + j] == Sample(FileName(base, neg[j]), 0) {
      assert (a + b)[|pos| + j] == b[j];
    }
  }

  /**
   * The listed samples: first one per positive clip, labelled 1, in path
   * order, then one per negative clip, labelled 0, in path order; the totals
   * the summary prints are `len(samples)` and the two label counts.
   */
  lemma DatasetLayout(dataDir: seq<string>, posExists: bool, negExists: bool, files: seq<seq<string>>)
    ensures var pos := PositivePaths(dataDir, posExists, files);
      var neg := NegativePaths(dataDir, negExists, files);
      var s := Samples(dataDir, posExists, negExists, files);
      var base := Parent(dataDir);
      && |s| == |pos| + |neg|
      && CountLabel(s, 1) == |pos| && CountLabel(s, 0) == |neg|
      && CountLabel(s, 1) + CountLabel(s, 0) == |s|
      && (forall j :: 0 <= j < |pos| ==> s[j] == Sample(FileName(base, pos[j]), 1))
      && (forall j :: 0 <= j < |neg| ==> s[|pos| + j] == Sample(FileName(base, neg[j]), 0))
  {
    var pos := PositivePaths(dataDir, posExists, files);
    var neg := NegativePaths(dataDir, negExists, files);
    LabelledPairCounts(Parent(dataDir), pos, neg);
    LabelledPairAt(Parent(dataDir), pos, neg);
  }

  /**
   * A positive is a file directly in `positives/` whose name matches
   * `*.wav`: a missing directory, a clip in a sub-directory of it or a name
   * ending in ".WAV" gives none; likewise for the negatives.
   */
  lemma ListedClips(dataDir: seq<string>, posExists: bool, negExists: bool, files: seq<seq<string>>, p: seq<string>)
    ensures p in PositivePaths(dataDir, posExists, files) <==>
      posExists && p in files && |p| == |dataDir| + 2 && p[..|dataDir| + 1] == dataDir + ["positives"]
      && MatchesWavGlob(p[|dataDir| + 1])
    ensures p in NegativePaths(dataDir, negExists, files) <==>
      negExists && p in files && |p| == |dataDir| + 2 && p[..|dataDir| + 1] == dataDir + ["negatives"]
      && MatchesWavGlob(p[|dataDir| + 1])
    ensures SortedBy(PositivePaths(dataDir, posExists, files), PathLe)
    ensures SortedBy(NegativePaths(dataDir, negExists, files), PathLe)
  {
  }

  /** A path whose components carry no '/', except an absolute path's leading "/". */
  predicate IsPath(p: seq<string>)
  {
    forall k :: 0 <= k < |p| ==> '/' in p[k] ==> k == 0 && p[k] == "/"
  }

  /** Cutting a '/'-join of components without '/' at '/' gives the components back. */
  lemma {:induction false} SplitJoin(ws: seq<string>)
    requires ws != [] && forall k :: 0 <= k < |ws| ==> '/' !in ws[k]
    ensures Split(Join(ws, '/'), '/') == ws
  {
    if |ws| == 1 {
      SplitWithoutSep(ws[0], '/');
    } else {
      SplitJoin(ws[1..]);
      SplitCons(ws[0], Join(ws[1..], '/'), '/');
      assert ws == [ws[0]] + ws[1..];
    }
  }

  /**
   * Every file name in the list leads back to its clip: cut at '/', it is
   * the clip's path relative to the data directory's parent, and that
   * parent followed by it is the clip's path.
   */
  lemma FileNameRoundTrip(dataDir: seq<string>, sub: string, p: seq<string>)
    requires IsPath(p) && (sub == "positives" || sub == "negatives")
    requires DirectlyIn(dataDir + [sub], p)
    ensures var base := Parent(dataDir);
      && Split(FileName(base, p), '/') == Relative(base, p)
      && base + Relative(base, p) == p
  {
    var base := Parent(dataDir);
    var dir := dataDir + [sub];
    assert p[..|dataDir|] == dataDir by {
      assert p[..|dir|][..|dataDir|] == dataDir;
    }
    assert p[..|base|] == base by {
      assert dataDir[..|base|] == base;
      assert p[..|dataDir|][..|base|] == p[..|base|];
    }
    var rel := p[|base|..];
    assert Relative(base, p) == rel;
    forall k | 0 <= k < |rel| ensures '/' !in rel[k] {
      assert rel[k] == p[|base| + k];
      if |base| + k == 0 {
        if dataDir == [] {
          assert p[0] == dir[0] == sub;
        } else {
          assert dataDir != ["/"] && |dataDir| == 1;
          assert p[0] == dataDir[0];
        }
      }
    }
    SplitJoin(rel);
    assert base + rel == p;
  }
}
