# Wake-word pipeline: naming, evaluation and dataset listing

This project models the sequential logic a wake-word training pipeline runs
between its external tools (Piper TTS, ffmpeg, openWakeWord, the filesystem),
and proves what that logic promises:

- **The sample generator** (`generate_training_samples.py`) covers:
  - slug and voice-label sanitising, and the bijective base-26 style tag
    (`alpha_token`);
  - the "is this token an identifier?" classifier and `canonical_clip_key`;
  - `scan_existing_clips` over a directory listing, and `resolve_piper_voice_pool`;
  - `pick_negative_phrase` and the job `render_negative_variant` hands to its
    tools;
  - the append-only `gen_positives` / `gen_negatives` loops. They walk a
    cursor through a mixed-radix space of semantic names, skip keys already
    present, and give every clip written a fresh, strictly increasing index.
    Synthesis, rendering and `os.path.exists` are oracle parameters.
- **The closed-loop evaluator** (`closed_loop_eval.py`) covers:
  - `collect_wavs`, `sample_even`, `semantic_name` and `infer_framework`;
  - the cooldown state machine `count_false_alarms`;
  - the ascending threshold scan `choose_threshold`;
  - the hard-negative miner `mine_hard_negatives`.
- **The dataset listing** (`create_dataset_json.py`) covers the labelled
  sample list: sorted positives labelled 1, then sorted negatives labelled 0.

Conventions of the model:

- Strings are `seq<char>` with ASCII case mapping.
- A path is its list of components; paths compare component-wise, as
  `PurePath` does.
- A directory is the sequence of names (or paths) its glob would visit.
- Scores and durations are `real`. Thresholds are integer hundredths 5..99.

Modules: `Wrappers`, `Text`, `Ordering` and `Arith` are shared vocabulary.
`Naming`, `ClipNames`, `ClipScan`, `Variations`, `Voices`, `Phrases`,
`Rendering` and `Generator` model the generator. `EvalFiles`, `FalseAlarms`,
`Calibration`, `HardNegNames` and `Mining` model the evaluator. `DatasetJson`
models the dataset listing.

`_token_is_identifier` is the same code in both scripts and is defined once
(`Naming.IsIdentifierToken`). The code differs in two places:

- The dataset glob `*.wav` matches the suffix case-sensitively.
- The evaluator's `p.suffix.lower()` matches it in any case.

The generator writes positives under `positives/<slug>/`. The dataset listing
globs `positives/*.wav` without recursion, so it never lists those files.
`DatasetJson.ListedClips` states exactly which paths are listed.

## Model

| member | source | states |
|---|---|---|
| Naming.Slugify | generate_training_samples.py:32-34 | the result is a slug: non-empty, only `[a-z0-9_]`, no leading or trailing `_`, no `__`. It is "wakeword" when the input has no letter or digit; otherwise its letters and digits are the input's, lower-cased, in order |
| Naming.VoiceLabel | generate_training_samples.py:240-244 | the result is a slug. It is "default" for an empty value and "voice" for a value without letters or digits; otherwise its letters and digits are the value's, lower-cased |
| Naming.SanitizeShape | generate_training_samples.py:33 | `re.sub(...).strip("_").lower()` is empty exactly when the input has no letter or digit; otherwise it is a slug keeping the input's lower-cased letters and digits |
| Naming.ReplaceNonAlnumRuns | generate_training_samples.py:33 | after replacing non-alphanumeric runs, only letters, digits and single `_` remain, and a leading letter or digit is kept |
| Naming.StripSeparated | generate_training_samples.py:33 | `.strip("_")` of such text has no `__`, no `_` at either end, and is empty exactly when the text had no letter or digit |
| Naming.SlugifyIdempotent | generate_training_samples.py:32-34 | slugifying a slug returns it unchanged |
| Naming.VoiceLabelIdempotent | generate_training_samples.py:240-244 | labelling a voice label returns it unchanged |
| Naming.SanitizeOfSlug | generate_training_samples.py:33 | sanitising a slug is the identity |
| Naming.Alpha | generate_training_samples.py:247-258 | the style token is a non-empty string of lower-case letters |
| Naming.AlphaToken | generate_training_samples.py:247-258 | the divmod loop returns the bijective base-26 token of the index, with a negative index clamped to 0 |
| Naming.AlphaIndexOfAlpha | generate_training_samples.py:247-258 | decoding the token of `n` gives back `n` |
| Naming.AlphaOfAlphaIndex | generate_training_samples.py:247-258 | every non-empty lower-case word is the token of exactly its decoded number, so the encoding is onto |
| Naming.AlphaInjective | generate_training_samples.py:247-258 | distinct indices give distinct tokens |
| Naming.AlphaExamples | generate_training_samples.py:247-258 | 0 ↦ "a", 25 ↦ "z", 26 ↦ "aa", 701 ↦ "zz", 702 ↦ "aaa" |
| Naming.PlainWord | generate_training_samples.py:192-208 | a lower-case word that is not all hex and starts with none of the id prefixes is not an identifier |
| Naming.StyleTagIsWord | generate_training_samples.py:192-208 | "style" followed by any alpha token is not an identifier |
| Naming.IndexFieldIsIdentifier | generate_training_samples.py:192-208 | the `{idx:06d}` field is an identifier (all digits) |
| Naming.UidTagIsIdentifier | generate_training_samples.py:192-208 | the `uid{idx:06x}` field is an identifier (the `uid` prefix followed by hex) |
| Naming.SemanticTokens | generate_training_samples.py:216 | the kept tokens are tokens of the input, none an identifier, at most as many |
| Naming.SemanticTokensEmpty | generate_training_samples.py:216-218 | the filter leaves nothing exactly when every token is an identifier |
| Naming.CanonicalClipKey | generate_training_samples.py:211-220 | a key exists only for a stem starting with `prefix + "_"`, and it starts with `prefix + ":"` followed by at least one character |
| Naming.CanonicalClipKeyCases | generate_training_samples.py:211-220 | the key is None exactly when the stem lacks `prefix + "_"` or every later token is an identifier. Otherwise the part after `prefix + ":"` splits back into the non-identifier tokens, in order |
| Text.Dec06RoundTrip | generate_training_samples.py:485 | `{idx:06d}` is all digits, at least six long, and parses back to `idx` |
| Text.Hex06IsHex | generate_training_samples.py:484 | `{idx:06x}` is at least six hex digits without `_` |
| Text.StemAndSuffix | generate_training_samples.py:212 | `Path(x + ext).stem` is `x` and its suffix is `ext` |
| Text.SuffixMatches | closed_loop_eval.py:21 | the lower-cased suffix is `ext` exactly when the name is longer than `ext` and ends with it in any case |
| Text.JoinTokens | closed_loop_eval.py:57-63 | joining the tokens of a well-separated name with `_` gives the name back |
| Text.TokensOfJoin | generate_training_samples.py:479 | splitting a `_`-join of non-empty, `_`-free words gives the words back |
| ClipNames.ClipFileNamePieces | generate_training_samples.py:485 | the stem of a clip name splits at `_` into prefix, `{idx:06d}`, `uid{idx:06x}` and the semantic name's pieces |
| ClipNames.ClipFileNameMatchesGlob | generate_training_samples.py:227 | every clip name the generator writes is one `glob(f"{prefix}_*.wav")` visits |
| ClipNames.ClipIndexRoundTrip | generate_training_samples.py:229-231 | the index the scan reads from a written name is the index written |
| ClipNames.ClipKeyRoundTrip | generate_training_samples.py:211-220 | for a semantic name made of word tokens, `canonical_clip_key` of the written name is the key the loop recorded |
| ClipNames.NegativeKeyRoundTrip | generate_training_samples.py:555-563 | `canonical_clip_key(outfile_name, "negative")` is the `semantic_key` of every negative cursor |
| ClipNames.PositiveKeyRoundTrip | generate_training_samples.py:475-485 | the same holds for positives whenever no token of the voice label is identifier-like |
| ClipNames.NegativeSemanticWords | generate_training_samples.py:555-557 | a negative semantic name is the variation's words followed by the style tag, all word tokens, and it splits back into them |
| ClipNames.PositiveSemanticWords | generate_training_samples.py:475-479 | a positive semantic name is the voice label's tokens, the variation and the style tag, and it splits back into them |
| ClipNames.NegativeSemanticInjective | generate_training_samples.py:555-557 | distinct negative cursors give distinct semantic names |
| ClipNames.PositiveSemanticInjective | generate_training_samples.py:475-479 | when `voice_label` is injective on the pool, distinct positive cursors give distinct semantic names |
| ClipNames.StyleTagInjective | generate_training_samples.py:477 | distinct style numbers give distinct style tags |
| ClipScan.ScanExistingClips | generate_training_samples.py:223-237 | the loop returns the glob's names, the largest index read (or -1), the recovered keys and the per-type counts of the listing |
| ClipScan.GlobNamesAre | generate_training_samples.py:227-228 | a name is recorded exactly when it is listed and matches the glob |
| ClipScan.MaxIndexIsMaximum | generate_training_samples.py:228-231 | `max_idx` is at least every index read; it is -1 exactly when no name carries an index; otherwise some listed name carries it |
| ClipScan.KeysAre | generate_training_samples.py:232-235 | a key is recorded exactly when some listed glob match yields it |
| ClipScan.TypeCountsDomain | generate_training_samples.py:236 | every counted type has a count of at least 1, and a type is counted exactly when some keyed name has it |
| ClipScan.AfterFirstColon | generate_training_samples.py:236 | `key.split(":", 1)[1]` is the suffix after the first colon |
| ClipScan.AfterFirstColonOfKey | generate_training_samples.py:236 | the counted type of `prefix:semantic` is `semantic` |
| ClipScan.FreshIndexUnlisted | generate_training_samples.py:469-487 | a name with an index above `max_idx` is neither listed nor recorded |
| Variations.VariationsDistinct | generate_training_samples.py:462 | the seven positive variations are distinct, and so are the thirteen negative ones |
| Variations.NegativeVariationSplit | generate_training_samples.py:531-545 | each negative variation is a `_`-join of word tokens |
| Variations.PositiveVariationsAreWords | generate_training_samples.py:462 | each positive variation is a word token |
| Voices.HighEnglish | generate_training_samples.py:129-135 | a voice is kept exactly when its index entry has quality "high" and a language code starting "en_" |
| Voices.CachedVoices | generate_training_samples.py:115-124 | the cached voices are exactly the preferred ones whose model and config are both present |
| Voices.PreferredAmong | generate_training_samples.py:143 | the preferred voices kept are exactly those that qualify |
| Voices.Take | generate_training_samples.py:145 | `ordered[:max_voices]` is a prefix of the right length for any integer, negative included |
| Voices.ResolveVoicePool | generate_training_samples.py:127-145 | the pool is empty without candidates; otherwise it is the ordered candidates cut to `max_voices` |
| Voices.ExtendNewProperties | generate_training_samples.py:144 | extending adds each missing voice once, keeps the existing order, and repeats none |
| Voices.OrderedIsPermutation | generate_training_samples.py:143-144 | the ordered list holds every candidate exactly once, with the qualifying preferred voices first, in preferred order |
| Voices.OrderedTail | generate_training_samples.py:144 | after the preferred voices come the other candidates, none preferred, in sorted order |
| Voices.PoolShape | generate_training_samples.py:140-145 | the pool holds distinct candidates, at most `max_voices` of them, and is non-empty whenever there is a candidate and room |
| Voices.PoolVoicesQualify | generate_training_samples.py:129-139 | every pooled voice qualifies in the fetched index, or, when the fetch failed, is a preferred voice with both files cached |
| Phrases.NegativePhraseCount | generate_training_samples.py:37-98 | there are 60 negative phrases |
| Phrases.PickPhrase | generate_training_samples.py:378-382 | the phrase is the `7i`-th when the wake phrase is empty or absent from it (case-insensitively), and the `(11i + 3)`-th when it is present; so the pick contains the wake phrase only when both candidates do |
| Phrases.PickNegativePhrase | generate_training_samples.py:378-382 | the phrase picked is one of the negative phrases |
| Rendering.SpeechVariant | generate_training_samples.py:422-428 | a speech kind maps to one of the five filters, "speech_phone" to "telephone" |
| Rendering.NegativeRender | generate_training_samples.py:385-440 | a speech kind renders only with a synthesizer and a non-empty pool, spoken by `voice_pool[i % len]` with the picked phrase; tones stay within their frequency bands; noise is white, pink or brown |
| Generator.FirstIndex | generate_training_samples.py:469 | the first index lies above every index on disk, and is `max_idx + 1` when one exists |
| Generator.PositiveJob | generate_training_samples.py:474-476 | a positive job speaks the wake phrase with a pool voice and one of the variations |
| Generator.RecordCons | generate_training_samples.py:493-499 | writing a fresh clip at a smaller index and cursor than a recorded run keeps the record of written clips |
| Generator.PlanShape | generate_training_samples.py:472-505 | the loop makes at most `max_attempts` attempts and writes at most the target; it stops short of the target only when attempts run out; its indices and cursors start at the state's |
| Generator.PlanRecord | generate_training_samples.py:472-505 | every clip the loop writes has an index above `max_idx`, a name neither listed nor on disk, an unused key and a successful job; indices and cursors strictly increase, names and keys differ |
| Generator.PlanAttempt | generate_training_samples.py:477-505 | attempt `a` writes a clip exactly when its cursor's key is not taken, the name at its index is neither taken nor on disk, and its job succeeds; the clip is that name; `next_idx` stays after a taken key and advances after every other attempt |
| Generator.Attempt | generate_training_samples.py:477-505 | one pass of the loop body writes exactly when the attempt does, and leaves `next_idx`, the names and the keys as the loop's step function says |
| Generator.Attempts | generate_training_samples.py:472-505 | the loop produces exactly the written names, indices and cursors, and the attempt count, of the loop's recursive definition |
| Generator.GenerateClips | generate_training_samples.py:463-505 | after the directory scan, the loop runs exactly that definition from the scan's state. It stops after at most `max_attempts` attempts and writes at most the target, stopping short only when attempts run out. Every clip written has a fresh index above `max_idx`, an unused name and key, and a successful job |
| Generator.GenPositives | generate_training_samples.py:443-514 | fails exactly without a synthesizer or voices, writing nothing; otherwise runs exactly the loop over the positive names and jobs, writing at most `count` clips with the record above, using `max(count * 40, 100)` attempts when short |
| Generator.GenNegatives | generate_training_samples.py:517-598 | runs exactly the loop over the negative names and jobs, writing at most `max(count, min_new)` clips with the record above, using `max(10, target_new * 30)` attempts when short |
| Generator.PositiveClip | generate_training_samples.py:475-499 | each positive written is named from its index and cursor, lies above `max_idx`, was not on disk, carries an unused key, and was synthesized |
| Generator.NegativeClip | generate_training_samples.py:553-583 | each negative written is named from its index and cursor, lies above `max_idx`, was not on disk, carries an unused key, and was rendered |
| Generator.NextRunAppends | generate_training_samples.py:547 | after a run, the next run's first index lies above every index this run wrote, so runs only append |
| EvalFiles.CollectWavs | closed_loop_eval.py:18-21 | nothing for a missing root; otherwise exactly the files with a ".wav" suffix in any case, once per occurrence, sorted |
| EvalFiles.IsWavMeansEnding | closed_loop_eval.py:21 | a file is a clip exactly when its name is longer than ".wav" and ends with it in any case |
| EvalFiles.SampleEven | closed_loop_eval.py:24-28 | the paths are unchanged when `max_items` is not positive or covers them; otherwise exactly `max_items` are picked |
| EvalFiles.SampleEvenPicks | closed_loop_eval.py:24-28 | when it cuts, the sample is an order-preserving pick at strictly increasing positions, starting at the first path and, with two or more picks, ending at the last |
| EvalFiles.InferFramework | closed_loop_eval.py:66-70 | "onnx" exactly for a ".onnx" suffix in any case, "tflite" otherwise |
| EvalFiles.SemanticNameTokens | closed_loop_eval.py:57-63 | the semantic name splits back into the non-identifier tokens; failing those, into all tokens; a stem without tokens is kept whole |
| FalseAlarms.CountFalseAlarms | closed_loop_eval.py:91-101 | the state machine counts exactly the earliest-first alarm frames |
| FalseAlarms.PicksAreSpaced | closed_loop_eval.py:91-101 | the alarm frames reach the threshold and lie more than the cooldown apart |
| FalseAlarms.GreedyIsOptimal | closed_loop_eval.py:91-101 | no other set of such frames is larger |
| FalseAlarms.AlarmsMonotone | closed_loop_eval.py:91-101 | raising the threshold never raises the count |
| FalseAlarms.AlarmsBounds | closed_loop_eval.py:91-101 | the count is at most the frames reaching the threshold, zero exactly when there are none, equal to it with no cooldown, and the counted frames lie more than the cooldown apart |
| Calibration.RoundHalfEven | closed_loop_eval.py:107 | `round` lands within one half and, on a tie, on the even integer |
| Calibration.CooldownFrames | closed_loop_eval.py:107 | the cooldown is at least one frame |
| Calibration.DefaultCooldownFrames | closed_loop_eval.py:107 | with the defaults it is 12 frames (12.5 rounds to even) |
| Calibration.Rate | closed_loop_eval.py:111 | the rate is 0 with no hours, otherwise events per hour |
| Calibration.SumEvents | closed_loop_eval.py:110 | the loop sums the alarm counts over all negatives |
| Calibration.ChooseThreshold | closed_loop_eval.py:104-121 | the threshold is one of 0.05…0.99. Every lower threshold misses the target, and this one meets it or is 0.99. Events, rate and hours are those of the chosen threshold |
| Calibration.TotalEventsMonotone | closed_loop_eval.py:110 | raising the threshold never raises the total event count |
| Calibration.MeetsUpward | closed_loop_eval.py:110-112 | a threshold that meets the target stays met at every higher threshold |
| Calibration.ChosenThresholdSplits | closed_loop_eval.py:110-115 | the first threshold that meets the target is the least one: exactly the thresholds from it upward meet it |
| HardNegNames.SemanticNameOfWords | closed_loop_eval.py:57-63 | the semantic name of `<words>.wav` is the words joined |
| HardNegNames.HardNegSemanticName | closed_loop_eval.py:138 | the semantic name of `hardneg_<n>_<key>.wav` is `hardneg_<key>`: the index is dropped, "hardneg" is kept |
| HardNegNames.MinedCopyHasOtherKey | closed_loop_eval.py:126-138 | a mined copy's semantic name differs from its source clip's, so the next run's key set does not cover that clip |
| Mining.KeysOf | closed_loop_eval.py:126-128 | a key is taken exactly when some existing name has it as its semantic name |
| Mining.CollectKeys | closed_loop_eval.py:126-128 | the loop collects exactly those keys |
| Mining.Above | closed_loop_eval.py:131 | the candidates are exactly the negatives scoring at or above the threshold |
| Mining.CandidatesShape | closed_loop_eval.py:131 | the sorted candidates are those clips, as many, in non-increasing score order |
| Mining.MineLoop | closed_loop_eval.py:132-141 | the copying loop makes exactly the planned copies and counts them |
| Mining.MineHardNegatives | closed_loop_eval.py:124-142 | the miner's copies are the plan over the sorted candidates and the keys on disk, and `mined` is their number |
| Mining.MinePlanCopies | closed_loop_eval.py:132-141 | the copies are of candidates under their own fresh keys, no two share a key, and there are at most as many as candidates and as the cap allows |
| Mining.MinePlanNumbering | closed_loop_eval.py:138 | the `j`-th copy is numbered `len(existing_keys) + j + 1`: consecutive from one past the initial key count |
| Mining.MinePlanKeyCount | closed_loop_eval.py:140-141 | the key set grows by exactly `mined` |
| Mining.MinePlanComplete | closed_loop_eval.py:132-141 | when the cap is not reached, every candidate's key ends up taken |
| Mining.MinePlanOrder | closed_loop_eval.py:131-141 | copies are made in non-increasing score order |
| Mining.MinedCopies | closed_loop_eval.py:124-142 | the whole miner: `mined` is at most `max_mined` and the candidate count; each copy is a candidate with a fresh key and a consecutive number; keys are distinct and scores non-increasing; the key set grows by `mined`; below the cap every candidate's key is taken |
| DatasetJson.Parent | create_dataset_json.py:30 | `data_path.parent` is a prefix of the directory, one component shorter except for "." and "/" |
| DatasetJson.GlobWav | create_dataset_json.py:28 | over a listing of files, `glob("*.wav")` yields exactly those directly in the directory whose name ends in ".wav" |
| DatasetJson.SortedGlob | create_dataset_json.py:27-28 | nothing for a missing directory; otherwise the glob's files, sorted |
| DatasetJson.DatasetOutcome | create_dataset_json.py:12-21 | exit status 1 exactly for a missing data directory; otherwise the output is the given path or `data_dir/dataset.json` |
| DatasetJson.CreateDatasetJson | create_dataset_json.py:9-51 | the script's outcome is that outcome, with the samples collected |
| DatasetJson.CollectSamples | create_dataset_json.py:23-41 | the two loops produce the positives labelled 1 followed by the negatives labelled 0 |
| DatasetJson.AppendLabelled | create_dataset_json.py:28-32 | the loop appends one labelled sample per path, in order |
| DatasetJson.LabelledAt | create_dataset_json.py:28-41 | the `j`-th sample is the `j`-th path relative to the parent, with the label; the label count is the path count |
| DatasetJson.DatasetLayout | create_dataset_json.py:53-55 | `len(samples)` is positives plus negatives, and the label-1 and label-0 counts are those numbers. Positives come first, each in sorted order |
| DatasetJson.ListedClips | create_dataset_json.py:26-41 | a path is listed exactly when its directory exists and it is a ".wav" file directly in `positives/` or `negatives/`. Files in sub-directories are not listed |
| DatasetJson.FileNameRoundTrip | create_dataset_json.py:30 | the filename splits at `/` back into the path relative to the parent, and the parent plus it is the path |

## Left out

- Piper, ffmpeg, the voices-index download, `os.path.exists` and the file writes: these are oracle parameters, because they are external tools and I/O. The float arithmetic of durations, amplitudes and frequencies in `render_negative_variant` is reduced to the fields the model states.
- `wakeword_web.py`, `wakeword_gui.py` and `generate_models.py` are not part of this model. They are UI, concurrency and PyTorch code.
- Logging, counters kept only for logging (`by_type`, `by_voice`), `mkdir`, the JSON writing and printing, `main` and argument parsing: I/O only.
- Exceptions from synthesis or rendering: they take the same branch as a failed job (`next_idx += 1`), so the oracle's `false` covers them.
- `PiperSynthesizer` and its voice cache: foreign calls.
- `evaluate_clip`, `wav_duration_seconds` and the openWakeWord model: inference and audio I/O. A `ClipEval` is given with its scores and duration.
- Scores, durations and thresholds are idealised as `real`. float32 rounding and `round(i / 100.0, 2)` are not modelled; thresholds are the integer hundredths 5..99.
- EvalFiles.SampleEven: `np.linspace(..., dtype=int)` is modelled as ⌊i·(n−1)/(m−1)⌋, which can differ from float truncation. Only the length, the order-preserving pick and the endpoints are proved.
- Mining across runs: the miner is neither idempotent nor free of overwrites. `HardNegNames.MinedCopyHasOtherKey` shows that a copy's semantic name is not its source's, so only within-call guarantees are proved. The destination index counts keys rather than reading the largest file number, so `shutil.copy2` can overwrite an existing file; the model returns the copies instead of making them.
- Mining.MinePlanOrder: states non-increasing scores but not that `sorted` keeps ties in input order (the model's sort is stable; the stability is not stated).
- Mining.Copy holds the destination number and key; the destination file name is `HardNegNames.HardNegName` of them.
- DatasetJson.GlobWav: pathlib's `glob("*.wav")` also yields sub-directories whose name ends in ".wav"; the model lists files only. The only sub-directory the generator makes there is named by a phrase slug of letters, digits and `_` (`Naming.IsSlug`), which never ends in ".wav", so such a directory does not arise from the pipeline.
- DatasetJson.ListedClips: states which files are listed; a sub-directory named `*.wav` directly in `positives/` or `negatives/` would be listed by the source too, and the model does not represent directories as entries.
- DatasetJson.Relative: `relative_to` raising `ValueError` cannot happen for the paths listed (they lie under the parent), so the model's fallback branch is never used by them.
- Path parsing: paths are component lists, so `Path` normalisation of strings such as "a//b" or "./x" is not modelled.
- Voices.Candidates: a voices index is either fetched whole (a list of entries with their quality and language code) or not at all. An entry whose `meta` or `language` is not a dict makes the `.get` chain raise partway through the loop; the source then falls back to the cache when a download directory is given, and otherwise keeps the partial list of voices appended so far. That partial list is not modelled (the generator's `main` always passes a download directory).
- Naming.VoiceLabel: `voice_label(None)` returning "default" is modelled only as the empty string, because every call passes a voice name from the pool.
- Unicode: `lower()`, `isdigit()` and `isalpha()` are modelled on ASCII only.
- The quota- and seed-driven sample selector configured in the web and GUI front ends lives in scripts not part of this model.
