/**
 * `scan_existing_clips`: what the generator learns from the clips already in
 * its output directory before it appends new ones. The directory listing is a
 * parameter (the names `Path(outdir).glob(...)` would visit, in any order).
 */
module ClipScan {
  import opened Wrappers
  import opened Text
  import opened Naming
  import opened ClipNames

  /** A listed name that the glob visits and whose second '_'-piece is a decimal index. */
  predicate Indexed(name: string, prefix: string)
  {
    MatchesClipGlob(name, prefix) && ClipIndex(name, prefix).Some?
  }

  /** A listed name that the glob visits and from which a semantic key is recovered. */
  predicate Keyed(name: string, prefix: string)
  {
    MatchesClipGlob(name, prefix) && CanonicalClipKey(name, prefix).Some?
  }

  /** `key.split(":", 1)[1]`: everything after the first colon. */
  function AfterFirstColon(s: string): (r: string)
    requires ':' in s
    ensures |r| < |s| && s[|s| - |r|..] == r && s[|s| - |r| - 1] == ':'
    ensures ':' !in s[..|s| - |r| - 1]
  {
    if s[0] == ':' then s[1..]
    else
      assert s == [s[0]] + s[1..];
      var r := AfterFirstColon(s[1..]);
      assert s[..|s| - |r| - 1] == [s[0]] + s[1..][..|s| - 1 - |r| - 1];
      r
  }

  /** The counter entry a keyed clip adds to: the key's semantic part. */
  function TypeOf(name: string, prefix: string): string
    requires Keyed(name, prefix)
  {
    var key := CanonicalClipKey(name, prefix).value;
    assert key[|prefix|] == ':' by {
      assert key[..|prefix| + 1][|prefix|] == (prefix + ":")[|prefix|];
    }
    AfterFirstColon(key)
  }

  /** The names the glob visits. */
  function GlobNames(listing: seq<string>, prefix: string): set<string>
  {
    if listing == [] then {}
    else
      var name := listing[|listing| - 1];
      GlobNames(listing[..|listing| - 1], prefix) + (if MatchesClipGlob(name, prefix) then {name} else {})
  }

  /** The running `max_idx` after the whole listing, starting from -1. */
  function MaxIndex(listing: seq<string>, prefix: string): int
  {
    if listing == [] then -1
    else
      var m := MaxIndex(listing[..|listing| - 1], prefix);
      var name := listing[|listing| - 1];
      if Indexed(name, prefix) && ClipIndex(name, prefix).value > m then ClipIndex(name, prefix).value else m
  }

  /** The semantic keys recovered from the names the glob visits. */
  function Keys(listing: seq<string>, prefix: string): set<string>
  {
    if listing == [] then {}
    else
      var name := listing[|listing| - 1];
      Keys(listing[..|listing| - 1], prefix) + (if Keyed(name, prefix) then {CanonicalClipKey(name, prefix).value} else {})
  }

  /** The `Counter` of clip types over a listing, one per keyed name. */
  function TypeCounts(listing: seq<string>, prefix: string): map<string, nat>
  {
    if listing == [] then map[]
    else
      TypeStep(TypeCounts(listing[..|listing| - 1], prefix), listing[|listing| - 1], prefix)
  }

  /**
   * One pass over the listing. The results are the names the glob visits, the
   * largest index read from them (-1 when there is none), the keys recovered
   * from them and how many clips there are of each type.
   */
  method ScanExistingClips(listing: seq<string>, prefix: string)
    returns (names: set<string>, maxIdx: int, keys: set<string>, typeCounts: map<string, nat>)
    ensures names == GlobNames(listing, prefix) && maxIdx == MaxIndex(listing, prefix)
    ensures keys == Keys(listing, prefix) && typeCounts == TypeCounts(listing, prefix)
  {
    names, maxIdx, keys, typeCounts := {}, -1, {}, map[];
    for i := 0 to |listing|
      invariant names == GlobNames(listing[..i], prefix) && maxIdx == MaxIndex(listing[..i], prefix)
      invariant keys == Keys(listing[..i], prefix) && typeCounts == TypeCounts(listing[..i], prefix)
    {
      var wav := listing[i];
      ScanStep(listing, i, prefix);
      if MatchesClipGlob(wav, prefix) {
        names := names + {wav};
        var index := ClipIndex(wav, prefix);
        if index.Some? {
          maxIdx := if index.value > maxIdx then index.value else maxIdx;
        }
        var key := CanonicalClipKey(wav, prefix);
        if key.Some? {
          keys := keys + {key.value};
          var t := TypeOf(wav, prefix);
          typeCounts := typeCounts[t := if t in typeCounts then typeCounts[t] + 1 else 1];
        }
      }
    }
    assert listing[..|listing|] == listing;
  }

  /** The four results after one more name, in terms of the results before it. */
  lemma ScanStep(listing: seq<string>, i: nat, prefix: string)
    requires i < |listing|
    ensures var (before, name) := (listing[..i], listing[i]);
      && GlobNames(listing[..i + 1], prefix) == GlobNames(before, prefix) + (if MatchesClipGlob(name, prefix) then {name} else {})
      && MaxIndex(listing[..i + 1], prefix)
        == (if Indexed(name, prefix) && ClipIndex(name, prefix).value > MaxIndex(before, prefix) then ClipIndex(name, prefix).value else MaxIndex(before, prefix))
      && Keys(listing[..i + 1], prefix) == Keys(before, prefix) + (if Keyed(name, prefix) then {CanonicalClipKey(name, prefix).value} else {})
      && TypeCounts(listing[..i + 1], prefix) == TypeStep(TypeCounts(before, prefix), name, prefix)
  {
    var next := listing[..i + 1];
    assert next[..|next| - 1] == listing[..i];
    assert next[|next| - 1] == listing[i];
  }

  /** The counter after one more name. */
  function TypeStep(counts: map<string, nat>, name: string, prefix: string): map<string, nat>
  {
    if Keyed(name, prefix) then
      var t := TypeOf(name, prefix);
      counts[t := if t in counts then counts[t] + 1 else 1]
    else counts
  }

  // ------------------------------------------------------------ properties

  /** The names are exactly the listed names the glob visits. */
  lemma {:induction false} GlobNamesAre(listing: seq<string>, prefix: string)
    ensures forall n :: n in GlobNames(listing, prefix) <==> n in listing && MatchesClipGlob(n, prefix)
  {
    if listing != [] {
      GlobNamesAre(listing[..|listing| - 1], prefix);
      assert listing == listing[..|listing| - 1] + [listing[|listing| - 1]];
    }
  }

  /** The keys are exactly those recovered from listed names the glob visits. */
  lemma {:induction false} KeysAre(listing: seq<string>, prefix: string)
    ensures forall k :: k in Keys(listing, prefix) <==>
      exists n :: n in listing && Keyed(n, prefix) && CanonicalClipKey(n, prefix).value == k
  {
    if listing != [] {
      KeysAre(listing[..|listing| - 1], prefix);
      assert listing == listing[..|listing| - 1] + [listing[|listing| - 1]];
    }
  }

  /**
   * The maximum is an upper bound of every index read, is -1 exactly when no
   * index is read, and is otherwise read from some name.
   */
  lemma {:induction false} MaxIndexIsMaximum(listing: seq<string>, prefix: string)
    ensures forall n :: n in listing && Indexed(n, prefix) ==> ClipIndex(n, prefix).value <= MaxIndex(listing, prefix)
    ensures MaxIndex(listing, prefix) == -1 <==> forall n :: n in listing ==> !Indexed(n, prefix)
    ensures MaxIndex(listing, prefix) != -1 ==>
      exists n :: n in listing && Indexed(n, prefix) && ClipIndex(n, prefix).value == MaxIndex(listing, prefix)
  {
    if listing != [] {
      var init := listing[..|listing| - 1];
      MaxIndexIsMaximum(init, prefix);
      assert listing == init + [listing[|listing| - 1]];
    }
  }

  /** The counter's entries are exactly the types of the keyed names, each counted at least once. */
  lemma {:induction false} TypeCountsDomain(listing: seq<string>, prefix: string)
    ensures forall t :: t in TypeCounts(listing, prefix) ==> TypeCounts(listing, prefix)[t] >= 1
    ensures forall t :: t in TypeCounts(listing, prefix) <==>
      exists n :: n in listing && Keyed(n, prefix) && TypeOf(n, prefix) == t
  {
    if listing != [] {
      var init := listing[..|listing| - 1];
      TypeCountsDomain(init, prefix);
      assert listing == init + [listing[|listing| - 1]];
    }
  }

  /** The type of a clip the generator wrote under `prefix:semantic` is `semantic`. */
  lemma AfterFirstColonOfKey(prefix: string, semantic: string)
    requires ':' !in prefix
    ensures AfterFirstColon(ClipKey(prefix, semantic)) == semantic
  {
    var s := ClipKey(prefix, semantic);
    var r := AfterFirstColon(s);
    var i := |s| - |r| - 1;
    assert s[|prefix|] == ':';
    assert r == s[|prefix| + 1..];
  }

  /**
   * No name the generator writes at an index above the scanned maximum is
   * already in the directory: the index written into it parses back.
   */
  lemma FreshIndexUnlisted(listing: seq<string>, prefix: string, idx: nat, semantic: string)
    requires '_' !in prefix
    requires idx > MaxIndex(listing, prefix)
    ensures ClipFileName(prefix, idx, semantic) !in listing
    ensures ClipFileName(prefix, idx, semantic) !in GlobNames(listing, prefix)
  {
    var name := ClipFileName(prefix, idx, semantic);
    MaxIndexIsMaximum(listing, prefix);
    GlobNamesAre(listing, prefix);
    ClipIndexRoundTrip(prefix, idx, semantic);
    ClipFileNameMatchesGlob(prefix, idx, semantic);
    assert Indexed(name, prefix);
  }
}
