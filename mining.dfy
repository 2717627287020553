/**
 * `mine_hard_negatives`: copies the negatives the model scores at or above
 * the threshold, highest score first, into the hard-negative directory,
 * skipping any clip whose semantic name is already there or already copied,
 * and at most `max_mined` of them. The directory is the list of names its
 * `*.wav` glob yields; each copy is returned as a value instead of being made.
 */
module Mining {
  import opened Text
  import opened Ordering
  import opened Naming
  import opened Variations
  import opened Calibration
  import opened EvalFiles
  import opened HardNegNames

  /**
   * One `shutil.copy2`: the clip copied, its semantic name and the number in
   * its destination's name.
   */
  datatype Copy = Copy(clip: ClipEval, key: string, index: nat)

  /** The file a copy writes. */
  function Destination(c: Copy): string
  {
    HardNegName(c.index, c.key)
  }

  /** The file name of a clip's path. */
  function ClipFileName(c: ClipEval): string
  {
    if c.path == [] then [] else c.path[|c.path| - 1]
  }

  /** `semantic_name(clip.path)` */
  function ClipKey(c: ClipEval): string
  {
    SemanticName(ClipFileName(c))
  }

  /** The semantic names of the files already in the directory. */
  function KeysOf(existing: seq<string>): (r: set<string>)
    ensures forall k :: k in r <==> exists name :: name in existing && SemanticName(name) == k
  {
    if existing == [] then {}
    else
      var init := existing[..|existing| - 1];
      assert existing == init + [existing[|existing| - 1]];
      KeysOf(init) + {SemanticName(existing[|existing| - 1])}
  }

  /** `c.max_score >= threshold` */
  function Above(negatives: seq<ClipEval>, threshold: real): (r: seq<ClipEval>)
    ensures |r| <= |negatives|
    ensures forall c :: c in r <==> c in negatives && c.maxScore >= threshold
  {
    if negatives == [] then []
    else (if negatives[0].maxScore >= threshold then [negatives[0]] else []) + Above(negatives[1..], threshold)
  }

  /** The sort key comparison of `sorted(..., key=max_score, reverse=True)`. */
  predicate ScoreGe(a: ClipEval, b: ClipEval)
  {
    a.maxScore >= b.maxScore
  }

  /** The candidates in the order the miner visits them. */
  function Candidates(negatives: seq<ClipEval>, threshold: real): seq<ClipEval>
  {
    SortBy(Above(negatives, threshold), ScoreGe)
  }

  /**
   * The copies the loop makes from the candidates `cands`, given how it names
   * a clip, the keys already taken and the number of copies it may still make.
   */
  function MinePlan(cands: seq<ClipEval>, keyOf: ClipEval -> string, keys: set<string>, room: int): seq<Copy>
  {
    if cands == [] || room <= 0 then []
    else
      var key := keyOf(cands[0]);
      if key in keys then MinePlan(cands[1..], keyOf, keys, room)
      else [Copy(cands[0], key, |keys| + 1)] + MinePlan(cands[1..], keyOf, keys + {key}, room - 1)
  }

  /** The miner: first the keys on disk, then one pass over the candidates with the cap checked first. */
  method MineHardNegatives(negatives: seq<ClipEval>, threshold: real, existing: seq<string>, maxMined: int)
    returns (mined: nat, copies: seq<Copy>)
    ensures copies == MinePlan(Candidates(negatives, threshold), ClipKey, KeysOf(existing), maxMined)
    ensures mined == |copies|
  {
    var keys := CollectKeys(existing);
    var cands := Candidates(negatives, threshold);
    mined, copies := MineLoop(cands, ClipKey, keys, maxMined);
  }

  /** `for wav in out_dir.glob("*.wav"): existing_keys.add(semantic_name(wav))` */
  method CollectKeys(existing: seq<string>) returns (keys: set<string>)
    ensures keys == KeysOf(existing)
  {
    keys := {};
    for i := 0 to |existing|
      invariant keys == KeysOf(existing[..i])
    {
      assert existing[..i + 1][..i] == existing[..i];
      keys := keys + {SemanticName(existing[i])};
    }
    assert existing[..|existing|] == existing;
  }

  /** The copying loop over the sorted candidates. */
  method MineLoop(cands: seq<ClipEval>, keyOf: ClipEval -> string, keys0: set<string>, maxMined: int)
    returns (mined: nat, copies: seq<Copy>)
    ensures copies == MinePlan(cands, keyOf, keys0, maxMined) && mined == |copies|
  {
    var keys := keys0;
    mined, copies := 0, [];
    for i := 0 to |cands|
      invariant mined == |copies|
      invariant copies + MinePlan(cands[i..], keyOf, keys, maxMined - mined) == MinePlan(cands, keyOf, keys0, maxMined)
    {
      MinePlanStep(cands, i, keyOf, keys, maxMined - mined);
      if mined >= maxMined {
        break;
      }
      var key := keyOf(cands[i]);
      if key in keys {
        continue;
      }
      var c := Copy(cands[i], key, |keys| + 1);
      ghost var rest := MinePlan(cands[i + 1..], keyOf, keys + {key}, maxMined - mined - 1);
      assert copies + ([c] + rest) == (copies + [c]) + rest;
      copies := copies + [c];
      keys := keys + {key};
      mined := mined + 1;
    }
  }

  /** One step of the plan over the candidates from position `i`. */
  lemma MinePlanStep(cands: seq<ClipEval>, i: nat, keyOf: ClipEval -> string, keys: set<string>, room: int)
    requires i < |cands|
    ensures room <= 0 ==> MinePlan(cands[i..], keyOf, keys, room) == []
    ensures room > 0 && keyOf(cands[i]) in keys ==>
      MinePlan(cands[i..], keyOf, keys, room) == MinePlan(cands[i + 1..], keyOf, keys, room)
    ensures room > 0 && keyOf(cands[i]) !in keys ==>
      MinePlan(cands[i..], keyOf, keys, room)
      == [Copy(cands[i], keyOf(cands[i]), |keys| + 1)] + MinePlan(cands[i + 1..], keyOf, keys + {keyOf(cands[i])}, room - 1)
  {
    assert cands[i..][0] == cands[i] && cands[i..][1..] == cands[i + 1..];
  }

  // ------------------------------------------------------------ properties

  function PlanKeys(plan: seq<Copy>): set<string>
  {
    set j | 0 <= j < |plan| :: plan[j].key
  }

  /**
   * Every copy is of a candidate under its own key, which was not taken
   * before and is not used by another copy; there are at most as many copies
   * as candidates and as the cap allows.
   */
  lemma {:induction false} MinePlanCopies(cands: seq<ClipEval>, keyOf: ClipEval -> string, keys: set<string>, room: int)
    ensures var plan := MinePlan(cands, keyOf, keys, room);
      && |plan| <= |cands|
      && (room >= 0 ==> |plan| <= room)
      && (room <= 0 ==> plan == [])
      && (forall j :: 0 <= j < |plan| ==> plan[j].clip in cands && plan[j].key == keyOf(plan[j].clip) && plan[j].key !in keys)
      && (forall j, k :: 0 <= j < k < |plan| ==> plan[j].key != plan[k].key)
  {
    if cands != [] && room > 0 {
      var key := keyOf(cands[0]);
      if key in keys {
        MinePlanCopies(cands[1..], keyOf, keys, room);
      } else {
        MinePlanCopies(cands[1..], keyOf, keys + {key}, room - 1);
        var rest := MinePlan(cands[1..], keyOf, keys + {key}, room - 1);
        var plan := [Copy(cands[0], key, |keys| + 1)] + rest;
        forall j, k | 0 <= j < k < |plan| ensures plan[j].key != plan[k].key {
          if j > 0 {
            assert plan[j] == rest[j - 1] && plan[k] == rest[k - 1];
          } else {
            assert plan[k] == rest[k - 1];
          }
        }
      }
    }
  }

  /** The keys of a plan that starts with one more copy. */
  lemma PlanKeysCons(c: Copy, rest: seq<Copy>)
    ensures PlanKeys([c] + rest) == {c.key} + PlanKeys(rest)
  {
    var plan := [c] + rest;
    assert plan[0].key == c.key;
    forall x | x in PlanKeys(rest) ensures x in PlanKeys(plan) {
      var j :| 0 <= j < |rest| && rest[j].key == x;
      assert plan[j + 1] == rest[j];
    }
    forall x | x in PlanKeys(plan) ensures x == c.key || x in PlanKeys(rest) {
      var j :| 0 <= j < |plan| && plan[j].key == x;
      if j > 0 {
        assert plan[j] == rest[j - 1];
      }
    }
  }

  /** The copies are numbered consecutively from one more than the number of keys taken before. */
  lemma {:induction false} MinePlanNumbering(cands: seq<ClipEval>, keyOf: ClipEval -> string, keys: set<string>, room: int)
    ensures forall j :: 0 <= j < |MinePlan(cands, keyOf, keys, room)| ==>
      MinePlan(cands, keyOf, keys, room)[j].index == |keys| + j + 1
  {
    if cands != [] && room > 0 {
      var key := keyOf(cands[0]);
      if key in keys {
        MinePlanNumbering(cands[1..], keyOf, keys, room);
        assert MinePlan(cands, keyOf, keys, room) == MinePlan(cands[1..], keyOf, keys, room);
      } else {
        var keys' := keys + {key};
        MinePlanNumbering(cands[1..], keyOf, keys', room - 1);
        var rest := MinePlan(cands[1..], keyOf, keys', room - 1);
        var plan := [Copy(cands[0], key, |keys| + 1)] + rest;
        assert plan == MinePlan(cands, keyOf, keys, room);
        assert |keys'| == |keys| + 1;
        forall j | 0 <= j < |plan| ensures plan[j].index == |keys| + j + 1 {
          if j > 0 {
            assert plan[j] == rest[j - 1];
          }
        }
      }
    }
  }

  /** The taken keys grow by exactly the number of copies. */
  lemma {:induction false} MinePlanKeyCount(cands: seq<ClipEval>, keyOf: ClipEval -> string, keys: set<string>, room: int)
    ensures |keys + PlanKeys(MinePlan(cands, keyOf, keys, room))| == |keys| + |MinePlan(cands, keyOf, keys, room)|
  {
    if cands != [] && room > 0 {
      var key := keyOf(cands[0]);
      if key in keys {
        MinePlanKeyCount(cands[1..], keyOf, keys, room);
        assert MinePlan(cands, keyOf, keys, room) == MinePlan(cands[1..], keyOf, keys, room);
      } else {
        var keys' := keys + {key};
        MinePlanKeyCount(cands[1..], keyOf, keys', room - 1);
        var rest := MinePlan(cands[1..], keyOf, keys', room - 1);
        var plan := [Copy(cands[0], key, |keys| + 1)] + rest;
        assert plan == MinePlan(cands, keyOf, keys, room);
        PlanKeysCons(plan[0], rest);
        assert keys + PlanKeys(plan) == keys' + PlanKeys(rest);
        assert |keys + PlanKeys(plan)| == |keys' + PlanKeys(rest)|;
        assert |keys'| == |keys| + 1 && |plan| == |rest| + 1;
      }
    } else {
      assert MinePlan(cands, keyOf, keys, room) == [];
      assert keys + PlanKeys([]) == keys;
    }
  }

  /**
   * The miner stops short of the cap only when it has run out of candidates:
   * then the key of every candidate is taken, before or by a copy.
   */
  lemma {:induction false} MinePlanComplete(cands: seq<ClipEval>, keyOf: ClipEval -> string, keys: set<string>, room: int)
    requires |MinePlan(cands, keyOf, keys, room)| < room
    ensures forall c :: c in cands ==> keyOf(c) in keys + PlanKeys(MinePlan(cands, keyOf, keys, room))
  {
    if cands != [] {
      var key := keyOf(cands[0]);
      var plan := MinePlan(cands, keyOf, keys, room);
      if key in keys {
        MinePlanComplete(cands[1..], keyOf, keys, room);
      } else {
        var keys' := keys + {key};
        MinePlanComplete(cands[1..], keyOf, keys', room - 1);
        var rest := MinePlan(cands[1..], keyOf, keys', room - 1);
        PlanKeysCons(plan[0], rest);
      }
      assert cands == [cands[0]] + cands[1..];
    }
  }

  /** The copies come in the candidates' order. */
  lemma {:induction false} MinePlanOrder(cands: seq<ClipEval>, keyOf: ClipEval -> string, keys: set<string>, room: int)
    requires SortedBy(cands, ScoreGe)
    ensures var plan := MinePlan(cands, keyOf, keys, room);
      forall j, k :: 0 <= j < k < |plan| ==> plan[j].clip.maxScore >= plan[k].clip.maxScore
  {
    if cands != [] && room > 0 {
      var key := keyOf(cands[0]);
      var tail := cands[1..];
      assert SortedBy(tail, ScoreGe) by {
        forall i, j | 0 <= i < j < |tail| ensures ScoreGe(tail[i], tail[j]) {
          assert tail[i] == cands[i + 1] && tail[j] == cands[j + 1];
        }
      }
      if key in keys {
        MinePlanOrder(tail, keyOf, keys, room);
        var plan := MinePlan(cands, keyOf, keys, room);
        assert plan == MinePlan(tail, keyOf, keys, room);
        forall j, k | 0 <= j < k < |plan| ensures plan[j].clip.maxScore >= plan[k].clip.maxScore {
        }
      } else {
        MinePlanOrder(tail, keyOf, keys + {key}, room - 1);
        MinePlanCopies(tail, keyOf, keys + {key}, room - 1);
        var rest := MinePlan(tail, keyOf, keys + {key}, room - 1);
        var plan := MinePlan(cands, keyOf, keys, room);
        forall j, k | 0 <= j < k < |plan| ensures plan[j].clip.maxScore >= plan[k].clip.maxScore {
          assert plan[k] == rest[k - 1];
          if j > 0 {
            assert plan[j] == rest[j - 1];
          } else {
            var i :| 0 <= i < |tail| && tail[i] == rest[k - 1].clip;
            assert ScoreGe(cands[0], cands[i + 1]);
          }
        }
      }
    }
  }

  lemma ScoreGeIsTotalPreorder()
    ensures TotalPreorder(ScoreGe)
  {
  }

  /**
   * What one call of the miner does: at most `max_mined` copies and no more
   * than there are clips scoring at or above the threshold; each of such a
   * clip under its semantic name, taken neither before nor by another copy;
   * highest scores first; destinations numbered on from the keys already
   * present; and short of the cap only when every candidate's name is taken.
   */
  lemma MinedCopies(negatives: seq<ClipEval>, threshold: real, existing: seq<string>, maxMined: int)
    ensures var keys := KeysOf(existing);
      var plan := MinePlan(Candidates(negatives, threshold), ClipKey, keys, maxMined);
      && |plan| <= |Above(negatives, threshold)|
      && (maxMined >= 0 ==> |plan| <= maxMined)
      && (forall j :: 0 <= j < |plan| ==>
            && plan[j].clip in negatives && plan[j].clip.maxScore >= threshold
            && plan[j].key == ClipKey(plan[j].clip) && plan[j].key !in keys
            && plan[j].index == |keys| + j + 1)
      && (forall j, k :: 0 <= j < k < |plan| ==> plan[j].key != plan[k].key && plan[j].clip.maxScore >= plan[k].clip.maxScore)
      && |keys + PlanKeys(plan)| == |keys| + |plan|
      && (|plan| < maxMined ==> forall c :: c in negatives && c.maxScore >= threshold ==> ClipKey(c) in keys + PlanKeys(plan))
  {
    var keys := KeysOf(existing);
    var cands := Candidates(negatives, threshold);
    CandidatesShape(negatives, threshold);
    MinePlanCopies(cands, ClipKey, keys, maxMined);
    MinePlanNumbering(cands, ClipKey, keys, maxMined);
    MinePlanKeyCount(cands, ClipKey, keys, maxMined);
    MinePlanOrder(cands, ClipKey, keys, maxMined);
    if |MinePlan(cands, ClipKey, keys, maxMined)| < maxMined {
      MinePlanComplete(cands, ClipKey, keys, maxMined);
    }
  }

  /** The candidates are the clips at or above the threshold, as many, highest score first. */
  lemma CandidatesShape(negatives: seq<ClipEval>, threshold: real)
    ensures var cands := Candidates(negatives, threshold);
      && (forall c :: c in cands <==> c in negatives && c.maxScore >= threshold)
      && |cands| == |Above(negatives, threshold)|
      && SortedBy(cands, ScoreGe)
  {
    var above := Above(negatives, threshold);
    var cands := Candidates(negatives, threshold);
    forall c ensures c in cands <==> c in above {
      assert c in cands <==> c in multiset(cands);
      assert c in above <==> c in multiset(above);
    }
    assert |multiset(cands)| == |multiset(above)|;
    ScoreGeIsTotalPreorder();
    SortBySorted(above, ScoreGe);
  }
}
