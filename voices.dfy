/**
 * `resolve_piper_voice_pool`: which Piper voices the generator uses. The
 * voices index (a download) is a parameter: `None` when fetching it failed.
 * The voice cache directory is the set of file names in it, or `None` when
 * no directory was given or it does not exist.
 */
module Voices {
  import opened Wrappers
  import opened Text
  import opened Ordering

  /** The two fields of an index entry the selection reads; a missing field is "". */
  datatype VoiceMeta = VoiceMeta(quality: string, languageCode: string)

  /** `PIPER_PREFERRED_HIGH_QUALITY_VOICES` */
  function PreferredVoices(): seq<string>
  {
    ["en_US-lessac-high", "en_US-libritts-high", "en_US-ljspeech-high", "en_US-ryan-high", "en_GB-cori-high"]
  }

  /** The preferred voices are five distinct names. */
  lemma PreferredDistinct()
    ensures |PreferredVoices()| == 5 && Distinct(PreferredVoices())
  {
  }

  /** A high-quality English voice. */
  predicate Qualifies(meta: VoiceMeta)
  {
    meta.quality == "high" && StartsWith(meta.languageCode, "en_")
  }

  /** The qualifying voice names, in index order. */
  function HighEnglish(index: seq<(string, VoiceMeta)>): (r: seq<string>)
    ensures forall v :: v in r <==> exists e :: e in index && e.0 == v && Qualifies(e.1)
  {
    if index == [] then []
    else
      var init := index[..|index| - 1];
      var last := index[|index| - 1];
      assert index == init + [last];
      HighEnglish(init) + (if Qualifies(last.1) then [last.0] else [])
  }

  /** `_cached_high_quality_voices`: the preferred voices whose model and config are both cached. */
  function CachedVoices(files: set<string>): (r: seq<string>)
    ensures forall v :: v in r <==> v in PreferredVoices() && v + ".onnx" in files && v + ".onnx.json" in files
  {
    CachedAmong(PreferredVoices(), files)
  }

  function CachedAmong(voices: seq<string>, files: set<string>): (r: seq<string>)
    ensures forall v :: v in r <==> v in voices && v + ".onnx" in files && v + ".onnx.json" in files
  {
    if voices == [] then []
    else
      var v := voices[0];
      (if v + ".onnx" in files && v + ".onnx.json" in files then [v] else []) + CachedAmong(voices[1..], files)
  }

  /** `high_english`: the index's qualifying voices, or on a failed fetch the cached preferred ones. */
  function Candidates(fetched: Option<seq<(string, VoiceMeta)>>, cache: Option<set<string>>): seq<string>
  {
    match fetched
    case Some(index) => HighEnglish(index)
    case None => if cache.Some? then CachedVoices(cache.value) else []
  }

  /** `[v for v in PIPER_PREFERRED_HIGH_QUALITY_VOICES if v in high_english]` */
  function PreferredAmong(voices: seq<string>, high: seq<string>): (r: seq<string>)
    ensures forall v :: v in r <==> v in voices && v in high
  {
    if voices == [] then []
    else (if voices[0] in high then [voices[0]] else []) + PreferredAmong(voices[1..], high)
  }

  /** `ordered.extend(v for v in rest if v not in ordered)`, where `ordered` grows as it goes. */
  function ExtendNew(ordered: seq<string>, rest: seq<string>): seq<string>
  {
    if rest == [] then ordered
    else
      var o := ExtendNew(ordered, rest[..|rest| - 1]);
      var v := rest[|rest| - 1];
      if v in o then o else o + [v]
  }

  /** The preferred candidates in preferred order, then the others in sorted order. */
  function Ordered(high: seq<string>): seq<string>
  {
    ExtendNew(PreferredAmong(PreferredVoices(), high), SortBy(high, StrLe))
  }

  /** `s[:n]` on a Python list, for any integer `n`. */
  function Take(s: seq<string>, n: int): (r: seq<string>)
    ensures n >= 0 ==> |r| == (if n < |s| then n else |s|)
    ensures n < 0 ==> |r| == (if |s| + n > 0 then |s| + n else 0)
    ensures r == s[..|r|]
  {
    if n >= 0 then (if n < |s| then s[..n] else s)
    else if |s| + n > 0 then s[..|s| + n] else []
  }

  /** The `for name, meta in voices.items()` filter over a fetched index. */
  method CollectHighEnglish(index: seq<(string, VoiceMeta)>) returns (high: seq<string>)
    ensures high == HighEnglish(index)
  {
    high := [];
    for i := 0 to |index|
      invariant high == HighEnglish(index[..i])
    {
      assert index[..i + 1][..i] == index[..i];
      if Qualifies(index[i].1) {
        high := high + [index[i].0];
      }
    }
    assert index[..|index|] == index;
  }

  /** The voices of `voices` that are among `high`, in the order of `voices`. */
  method KeepListed(voices: seq<string>, high: seq<string>) returns (kept: seq<string>)
    ensures kept == PreferredAmong(voices, high)
  {
    kept := [];
    for i := 0 to |voices|
      invariant kept + PreferredAmong(voices[i..], high) == PreferredAmong(voices, high)
    {
      assert voices[i..] == [voices[i]] + voices[i + 1..];
      if voices[i] in high {
        kept := kept + [voices[i]];
      }
    }
  }

  /** Appends each voice of `rest` that `ordered` does not hold yet. */
  method AppendNew(ordered: seq<string>, rest: seq<string>) returns (r: seq<string>)
    ensures r == ExtendNew(ordered, rest)
  {
    r := ordered;
    for i := 0 to |rest|
      invariant r == ExtendNew(ordered, rest[..i])
    {
      assert rest[..i + 1][..i] == rest[..i];
      if rest[i] !in r {
        r := r + [rest[i]];
      }
    }
    assert rest[..|rest|] == rest;
  }

  /**
   * The voice pool: no candidates give []; otherwise the candidates ordered
   * (preferred first), cut to `maxVoices`.
   */
  method ResolveVoicePool(maxVoices: int, fetched: Option<seq<(string, VoiceMeta)>>, cache: Option<set<string>>)
    returns (pool: seq<string>)
    ensures pool == (var high := Candidates(fetched, cache); if high == [] then [] else Take(Ordered(high), maxVoices))
  {
    var high: seq<string> := [];
    if fetched.Some? {
      high := CollectHighEnglish(fetched.value);
    } else if cache.Some? {
      high := CachedVoices(cache.value);
    }
    if high == [] {
      return [];
    }
    var ordered := KeepListed(PreferredVoices(), high);
    ordered := AppendNew(ordered, SortBy(high, StrLe));
    pool := Take(ordered, maxVoices);
  }

  // ------------------------------------------------------------ properties

  /** Extending never repeats a voice, and adds exactly the new ones. */
  lemma {:induction false} ExtendNewProperties(ordered: seq<string>, rest: seq<string>)
    requires Distinct(ordered)
    ensures Distinct(ExtendNew(ordered, rest))
    ensures forall v :: v in ExtendNew(ordered, rest) <==> v in ordered || v in rest
    ensures |ExtendNew(ordered, rest)| >= |ordered| && ExtendNew(ordered, rest)[..|ordered|] == ordered
  {
    if rest != [] {
      var init := rest[..|rest| - 1];
      var v := rest[|rest| - 1];
      ExtendNewProperties(ordered, init);
      assert rest == init + [v];
      var o := ExtendNew(ordered, init);
      if v !in o {
        var e := o + [v];
        forall i, j | 0 <= i < j < |e| ensures e[i] != e[j] {
          if j == |o| {
            assert e[i] == o[i];
          }
        }
        assert e[..|ordered|] == o[..|ordered|];
      }
    }
  }

  /** What extending appends are voices of `rest` not already there, in the order of `rest`. */
  lemma {:induction false} ExtendNewTail(ordered: seq<string>, rest: seq<string>)
    requires SortedBy(rest, StrLe)
    ensures var e := ExtendNew(ordered, rest);
      && |e| >= |ordered| && e[..|ordered|] == ordered
      && (forall v :: v in e[|ordered|..] ==> v in rest && v !in ordered)
      && SortedBy(e[|ordered|..], StrLe)
  {
    if rest != [] {
      var init := rest[..|rest| - 1];
      var v := rest[|rest| - 1];
      ExtendNewTail(ordered, init);
      var o := ExtendNew(ordered, init);
      var t := o[|ordered|..];
      if v !in o {
        var e := o + [v];
        assert e[..|ordered|] == o[..|ordered|];
        assert e[|ordered|..] == t + [v];
        assert v !in ordered by {
          assert forall x :: x in ordered ==> x in o;
        }
        forall i | 0 <= i < |t| ensures StrLe(t[i], v) {
          assert t[i] in t;
          var k :| 0 <= k < |init| && init[k] == t[i];
          assert rest[k] == t[i];
        }
      }
    }
  }

  /**
   * After the preferred voices come the remaining candidates, each a
   * candidate not preferred, in sorted order.
   */
  lemma OrderedTail(high: seq<string>)
    ensures var pre := PreferredAmong(PreferredVoices(), high);
      var o := Ordered(high);
      && |o| >= |pre| && o[..|pre|] == pre
      && (forall v :: v in o[|pre|..] ==> v in high && v !in pre)
      && SortedBy(o[|pre|..], StrLe)
  {
    var sorted := SortBy(high, StrLe);
    StrLeIsTotalPreorder();
    SortBySorted(high, StrLe);
    assert forall v :: v in sorted ==> v in high by {
      forall v | v in sorted ensures v in high {
        assert v in multiset(sorted);
      }
    }
    ExtendNewTail(PreferredAmong(PreferredVoices(), high), sorted);
  }

  lemma {:induction false} PreferredAmongDistinct(voices: seq<string>, high: seq<string>)
    requires Distinct(voices)
    ensures Distinct(PreferredAmong(voices, high))
  {
    if voices != [] {
      PreferredAmongDistinct(voices[1..], high);
      var r := PreferredAmong(voices[1..], high);
      assert voices[0] !in voices[1..];
    }
  }

  /**
   * The ordered candidates hold every candidate exactly once, with the
   * preferred ones first in their preferred order.
   */
  lemma OrderedIsPermutation(high: seq<string>)
    ensures Distinct(Ordered(high))
    ensures forall v :: v in Ordered(high) <==> v in high
    ensures |Ordered(high)| >= |PreferredAmong(PreferredVoices(), high)|
    ensures Ordered(high)[..|PreferredAmong(PreferredVoices(), high)|] == PreferredAmong(PreferredVoices(), high)
  {
    var pre := PreferredAmong(PreferredVoices(), high);
    PreferredDistinct();
    PreferredAmongDistinct(PreferredVoices(), high);
    var sorted := SortBy(high, StrLe);
    assert forall v :: v in sorted <==> v in high by {
      assert multiset(sorted) == multiset(high);
      forall v ensures v in sorted <==> v in high {
        assert v in sorted <==> v in multiset(sorted);
        assert v in high <==> v in multiset(high);
      }
    }
    ExtendNewProperties(pre, sorted);
  }

  /**
   * The pool: at most `maxVoices` distinct voices (none when `maxVoices` is
   * not positive), each one a candidate; and it is empty only when there is
   * no candidate or `maxVoices` leaves no room.
   */
  lemma PoolShape(maxVoices: int, fetched: Option<seq<(string, VoiceMeta)>>, cache: Option<set<string>>)
    ensures var high := Candidates(fetched, cache);
      var pool := if high == [] then [] else Take(Ordered(high), maxVoices);
      && Distinct(pool)
      && (forall v :: v in pool ==> v in high)
      && |pool| <= (if maxVoices > 0 then maxVoices else |high|)
      && (maxVoices >= 1 && high != [] ==> pool != [])
  {
    var high := Candidates(fetched, cache);
    if high != [] {
      TakeOrdered(high, maxVoices);
    }
  }

  lemma TakeOrdered(high: seq<string>, maxVoices: int)
    requires high != []
    ensures var pool := Take(Ordered(high), maxVoices);
      && Distinct(pool)
      && (forall v :: v in pool ==> v in high)
      && |pool| <= (if maxVoices > 0 then maxVoices else |high|)
      && (maxVoices >= 1 ==> pool != [])
  {
    OrderedIsPermutation(high);
    var ordered := Ordered(high);
    var pool := Take(ordered, maxVoices);
    assert forall v :: v in pool ==> v in ordered by {
      forall v | v in pool ensures v in ordered {
        var k :| 0 <= k < |pool| && pool[k] == v;
        assert ordered[k] == v;
      }
    }
    assert high[0] in ordered;
    DistinctLength(ordered, high);
  }

  /** A repetition-free list of candidates is no longer than the candidates. */
  lemma {:induction false} DistinctLength(s: seq<string>, t: seq<string>)
    requires Distinct(s) && forall v :: v in s ==> v in t
    ensures |s| <= |t|
  {
    var ss := set v | v in s;
    var ts := set v | v in t;
    assert ss <= ts;
    assert ts == ss + (ts - ss) && ss * (ts - ss) == {};
    SetOfSeq(s);
    SetOfSeqAtMost(t);
  }

  lemma {:induction false} SetOfSeq(s: seq<string>)
    requires Distinct(s)
    ensures |set v | v in s| == |s|
  {
    if s != [] {
      var init := s[..|s| - 1];
      var last := s[|s| - 1];
      assert s == init + [last];
      assert Distinct(init) by {
        forall i, j | 0 <= i < j < |init| ensures init[i] != init[j] {
          assert init[i] == s[i] && init[j] == s[j];
        }
      }
      SetOfSeq(init);
      assert last !in init by {
        forall i | 0 <= i < |init| ensures init[i] != last {
          assert s[i] != s[|s| - 1];
        }
      }
      assert (set v | v in s) == (set v | v in init) + {last};
    }
  }

  lemma {:induction false} SetOfSeqAtMost(s: seq<string>)
    ensures |set v | v in s| <= |s|
  {
    if s != [] {
      var init := s[..|s| - 1];
      assert s == init + [s[|s| - 1]];
      SetOfSeqAtMost(init);
      assert (set v | v in s) == (set v | v in init) + {s[|s| - 1]};
    }
  }

  /** Every voice in the pool is a qualifying index entry, or, when the fetch failed, a fully cached preferred voice. */
  lemma PoolVoicesQualify(maxVoices: int, fetched: Option<seq<(string, VoiceMeta)>>, cache: Option<set<string>>, v: string)
    requires v in (var high := Candidates(fetched, cache); if high == [] then [] else Take(Ordered(high), maxVoices))
    ensures fetched.Some? ==> exists e :: e in fetched.value && e.0 == v && Qualifies(e.1)
    ensures fetched.None? ==> cache.Some? && v in PreferredVoices() && v + ".onnx" in cache.value && v + ".onnx.json" in cache.value
  {
    PoolShape(maxVoices, fetched, cache);
  }
}
