/**
 * The append-only generation loops of `gen_positives` and `gen_negatives`.
 * Both walk a cursor through the space of semantic names, skip keys already
 * in the directory, and write each new clip under a fresh, strictly
 * increasing index. The two loops are the same code over different name
 * spaces and jobs, so they are one method (`GenerateClips`) over a `Setup` here.
 *
 * The directory listing is a parameter; `onDisk` answers `os.path.exists`
 * for a file name and `render` answers whether the synthesizer or ffmpeg
 * produced the file for a job.
 */
module Generator {
  import opened Wrappers
  import opened Text
  import opened Naming
  import opened Variations
  import opened ClipNames
  import opened ClipScan
  import opened Rendering
  import opened Phrases

  /** The job of a positive clip at cursor `c`: the wake phrase, spoken by the cursor's voice, with its variant. */
  function PositiveJob(phrase: string, voicePool: seq<string>, c: nat): (r: Render)
    requires voicePool != []
    ensures r.Spoken? && r.voice in voicePool && r.phrase == phrase && r.variant in PositiveVariations()
  {
    PositiveVariationsAreWords();
    Spoken(PositiveVariations()[(c / |voicePool|) % |PositiveVariations()|], voicePool[c % |voicePool|], phrase)
  }

  /** The job of a negative clip at cursor `c` written at index `idx`: the cursor's kind. */
  function NegativeJob(hasSynthesizer: bool, voicePool: seq<string>, phrases: seq<string>, wakePhrase: string,
                       c: nat, idx: nat): Option<Render>
    requires phrases != []
  {
    NegativeRender(NegativeVariations()[c % |NegativeVariations()|], idx, hasSynthesizer, voicePool, phrases, wakePhrase)
  }

  /** `max(max_existing_idx + 1, 0)` */
  function FirstIndex(maxIdx: int): (r: nat)
    ensures r > maxIdx && (maxIdx >= 0 ==> r == maxIdx + 1)
  {
    if maxIdx + 1 > 0 then maxIdx + 1 else 0
  }

  /**
   * What the loop works with: the file name offered at (index, cursor), the
   * key of a cursor, the jobs, the oracles and what the scan found.
   */
  datatype Setup = Setup(
    nameAt: (nat, nat) -> string,
    keyAt: nat -> string,
    job: (nat, nat) -> Option<Render>,
    onDisk: string -> bool,
    render: (string, Render) -> bool,
    maxIdx: int,
    names0: set<string>,
    keys0: set<string>)

  /** The job for cursor `c` at index `idx` exists and its render wrote `name`. */
  predicate Succeeds(s: Setup, c: nat, idx: nat, name: string)
  {
    s.job(c, idx).Some? && s.render(name, s.job(c, idx).value)
  }

  /**
   * The loop's variables between attempts: `next_idx`, `semantic_cursor`,
   * the names and keys taken, and how many clips are still wanted.
   */
  datatype State = State(nextIdx: nat, cursor: nat, names: set<string>, keys: set<string>, room: int)

  /** The file name the attempt in state `st` tries. */
  function Offered(s: Setup, st: State): string
  {
    s.nameAt(st.nextIdx, st.cursor)
  }

  /** The key of the attempt in state `st` is not taken. */
  predicate KeyFree(s: Setup, st: State)
  {
    s.keyAt(st.cursor) !in st.keys
  }

  /** The attempt in state `st` writes its clip: a free key, a free name not on disk, and a successful job. */
  predicate Writes(s: Setup, st: State)
  {
    && KeyFree(s, st) && Offered(s, st) !in st.names && !s.onDisk(Offered(s, st))
    && Succeeds(s, st.cursor, st.nextIdx, Offered(s, st))
  }

  /**
   * The state after one attempt. A taken key moves only the cursor on.
   * Otherwise the index moves on too: past a name that is listed or on
   * disk, past a failed job, and past a clip written, whose name and key
   * are then taken.
   */
  function After(s: Setup, st: State): State
  {
    if !KeyFree(s, st) then st.(cursor := st.cursor + 1)
    else if Writes(s, st) then
      State(st.nextIdx + 1, st.cursor + 1, st.names + {Offered(s, st)}, st.keys + {s.keyAt(st.cursor)}, st.room - 1)
    else st.(nextIdx := st.nextIdx + 1, cursor := st.cursor + 1)
  }

  /**
   * The outcome of a run of the loop: the names written, their indices and
   * cursors, and the index `next_idx` held at each attempt (one per attempt).
   */
  datatype Run = Run(written: seq<string>, indices: seq<nat>, cursors: seq<nat>, offered: seq<nat>)

  /** A run after one more attempt at index `idx` that wrote nothing. */
  function Tried(idx: nat, r: Run): Run
  {
    r.(offered := [idx] + r.offered)
  }

  /** A run after one more attempt that wrote `name` at index `idx` for cursor `c`. */
  function Wrote(name: string, idx: nat, c: nat, r: Run): Run
  {
    Run([name] + r.written, [idx] + r.indices, [c] + r.cursors, [idx] + r.offered)
  }

  /**
   * What the loop does from state `st` with `budget` attempts left: it stops
   * once no clip is wanted or no attempt is left, and otherwise makes one
   * attempt and goes on from the state after it.
   */
  function Plan(s: Setup, st: State, budget: nat): Run
    decreases budget
  {
    if st.room <= 0 || budget == 0 then Run([], [], [], [])
    else
      var t := Plan(s, After(s, st), budget - 1);
      if Writes(s, st) then Wrote(Offered(s, st), st.nextIdx, st.cursor, t) else Tried(st.nextIdx, t)
  }

  /**
   * A run makes every attempt it may while clips are still wanted, writes no
   * more than wanted, starts at the state's index, and its indices and
   * cursors lie from the state's on.
   */
  lemma {:induction false} PlanShape(s: Setup, st: State, budget: nat)
    ensures var r := Plan(s, st, budget);
      && |r.written| == |r.indices| == |r.cursors| <= |r.offered| <= budget
      && |r.written| <= (if st.room > 0 then st.room else 0)
      && (|r.written| < st.room ==> |r.offered| == budget)
      && (r.offered != [] ==> r.offered[0] == st.nextIdx)
      && (forall j :: 0 <= j < |r.indices| ==> st.nextIdx <= r.indices[j])
      && (forall j :: 0 <= j < |r.cursors| ==> st.cursor <= r.cursors[j] < st.cursor + |r.offered|)
    decreases budget
  {
    if st.room > 0 && budget > 0 {
      PlanShape(s, After(s, st), budget - 1);
    }
  }

  /** The file names under `prefix`: `f"{prefix}_{idx:06d}_uid{idx:06x}_{semantic_name}.wav"` for cursor `c`. */
  function ClipNamer(prefix: string, semantic: nat -> string): (nat, nat) -> string
  {
    (idx: nat, c: nat) => ClipFileName(prefix, idx, semantic(c))
  }

  /** The keys under `prefix`: `f"{prefix}:{semantic_name}"` for cursor `c`. */
  function KeyNamer(prefix: string, semantic: nat -> string): nat -> string
  {
    (c: nat) => ClipKey(prefix, semantic(c))
  }

  /** The setup over a directory listing: what `scan_existing_clips(outdir, prefix)` finds there. */
  function ListingSetup(prefix: string, nameAt: (nat, nat) -> string, keyAt: nat -> string,
                        job: (nat, nat) -> Option<Render>, onDisk: string -> bool, render: (string, Render) -> bool,
                        listing: seq<string>): Setup
  {
    Setup(nameAt, keyAt, job, onDisk, render, MaxIndex(listing, prefix), GlobNames(listing, prefix), Keys(listing, prefix))
  }

  /** The first state: index `max(max_idx + 1, 0)`, cursor `len(existing_keys)`, what the scan found taken. */
  function Start(s: Setup, target: int): State
  {
    State(FirstIndex(s.maxIdx), |s.keys0|, s.names0, s.keys0, target)
  }

  /** The whole run of the loop for `target` clips in `maxAttempts` attempts. */
  function Generation(s: Setup, target: int, maxAttempts: nat): Run
  {
    Plan(s, Start(s, target), maxAttempts)
  }

  /**
   * What holds of the clips written: each clip's name, its fresh index and
   * key, its successful job, and the order and distinctness of all of them.
   */
  ghost predicate Record(s: Setup, written: seq<string>, indices: seq<nat>, cursors: seq<nat>)
  {
    && |written| == |indices| == |cursors|
    && (forall j :: 0 <= j < |written| ==>
         && written[j] == s.nameAt(indices[j], cursors[j])
         && s.maxIdx < indices[j] && |s.keys0| <= cursors[j]
         && written[j] !in s.names0 && !s.onDisk(written[j]) && s.keyAt(cursors[j]) !in s.keys0
         && Succeeds(s, cursors[j], indices[j], written[j]))
    && (forall j, k :: 0 <= j < k < |written| ==>
         && indices[j] < indices[k] && cursors[j] < cursors[k]
         && written[j] != written[k] && s.keyAt(cursors[j]) != s.keyAt(cursors[k]))
  }

  /** Writing a fresh clip before a recorded run, at a smaller index and cursor, keeps the record. */
  lemma RecordCons(s: Setup, name: string, idx: nat, c: nat, written: seq<string>, indices: seq<nat>, cursors: seq<nat>)
    requires Record(s, written, indices, cursors)
    requires name == s.nameAt(idx, c)
    requires s.maxIdx < idx && |s.keys0| <= c
    requires name !in s.names0 && !s.onDisk(name) && s.keyAt(c) !in s.keys0
    requires Succeeds(s, c, idx, name)
    requires forall j :: 0 <= j < |written| ==>
      idx < indices[j] && c < cursors[j] && written[j] != name && s.keyAt(cursors[j]) != s.keyAt(c)
    ensures Record(s, [name] + written, [idx] + indices, [c] + cursors)
  {
    var w, i, cs := [name] + written, [idx] + indices, [c] + cursors;
    forall j | 0 <= j < |w|
      ensures && w[j] == s.nameAt(i[j], cs[j])
              && s.maxIdx < i[j] && |s.keys0| <= cs[j]
              && w[j] !in s.names0 && !s.onDisk(w[j]) && s.keyAt(cs[j]) !in s.keys0
              && Succeeds(s, cs[j], i[j], w[j])
    {
      if 0 < j {
        assert w[j] == written[j - 1] && i[j] == indices[j - 1] && cs[j] == cursors[j - 1];
      }
    }
    forall j, k | 0 <= j < k < |w|
      ensures && i[j] < i[k] && cs[j] < cs[k] && w[j] != w[k] && s.keyAt(cs[j]) != s.keyAt(cs[k])
    {
      assert w[k] == written[k - 1] && i[k] == indices[k - 1] && cs[k] == cursors[k - 1];
      if 0 < j {
        assert w[j] == written[j - 1] && i[j] == indices[j - 1] && cs[j] == cursors[j - 1];
      }
    }
  }

  /** A run whose record holds and whose names and keys are none of `names` and `keys`. */
  ghost predicate FreshRun(s: Setup, names: set<string>, keys: set<string>, r: Run)
  {
    && Record(s, r.written, r.indices, r.cursors)
    && forall j :: 0 <= j < |r.written| ==> r.written[j] !in names && s.keyAt(r.cursors[j]) !in keys
  }

  /** An attempt that writes nothing keeps a fresh run fresh. */
  lemma TriedFresh(s: Setup, names: set<string>, keys: set<string>, idx: nat, t: Run)
    requires FreshRun(s, names, keys, t)
    ensures FreshRun(s, names, keys, Tried(idx, t))
  {
  }

  /**
   * Writing a clip whose name and key are untaken, before a run that is fresh
   * once they are taken and lies above its index and cursor, gives a fresh run.
   */
  lemma WroteFresh(s: Setup, names: set<string>, keys: set<string>, name: string, idx: nat, c: nat, t: Run)
    requires FreshRun(s, names + {name}, keys + {s.keyAt(c)}, t)
    requires s.names0 <= names && s.keys0 <= keys
    requires name == s.nameAt(idx, c) && s.maxIdx < idx && |s.keys0| <= c
    requires name !in names && !s.onDisk(name) && s.keyAt(c) !in keys && Succeeds(s, c, idx, name)
    requires forall j :: 0 <= j < |t.indices| ==> idx < t.indices[j]
    requires forall j :: 0 <= j < |t.cursors| ==> c < t.cursors[j]
    ensures FreshRun(s, names, keys, Wrote(name, idx, c, t))
  {
    RecordCons(s, name, idx, c, t.written, t.indices, t.cursors);
    var r := Wrote(name, idx, c, t);
    forall j | 0 <= j < |r.written|
      ensures r.written[j] !in names && s.keyAt(r.cursors[j]) !in keys
    {
      if 0 < j {
        assert r.written[j] == t.written[j - 1] && r.cursors[j] == t.cursors[j - 1];
      }
    }
  }

  /** The state lies above what the scan found: its index above `max_idx`, its cursor and taken sets past the scan's. */
  ghost predicate AboveScan(s: Setup, st: State)
  {
    s.maxIdx < st.nextIdx && |s.keys0| <= st.cursor && s.names0 <= st.names && s.keys0 <= st.keys
  }

  /**
   * Every clip the loop writes from a state above the scan is fresh,
   * rendered, and distinct from the others; none was taken in that state.
   */
  lemma {:induction false} PlanRecord(s: Setup, st: State, budget: nat)
    requires AboveScan(s, st)
    ensures FreshRun(s, st.names, st.keys, Plan(s, st, budget))
    decreases budget
  {
    if st.room > 0 && budget > 0 {
      var t := Plan(s, After(s, st), budget - 1);
      PlanRecord(s, After(s, st), budget - 1);
      PlanShape(s, After(s, st), budget - 1);
      if Writes(s, st) {
        WroteFresh(s, st.names, st.keys, Offered(s, st), st.nextIdx, st.cursor, t);
      } else {
        TriedFresh(s, st.names, st.keys, st.nextIdx, t);
      }
    }
  }

  /** The key of cursor `c` is taken: in `keys`, or the key of a clip written at an earlier cursor. */
  ghost predicate KeyTaken(s: Setup, keys: set<string>, cursors: seq<nat>, c: nat)
  {
    s.keyAt(c) in keys || exists j :: 0 <= j < |cursors| && cursors[j] < c && s.keyAt(cursors[j]) == s.keyAt(c)
  }

  /** The name `name` is taken at cursor `c`: in `names`, or a clip written at an earlier cursor. */
  ghost predicate NameTaken(names: set<string>, written: seq<string>, cursors: seq<nat>, c: nat, name: string)
    requires |written| == |cursors|
  {
    name in names || exists j :: 0 <= j < |cursors| && cursors[j] < c && written[j] == name
  }

  /** A clip written at cursor `c0` before cursor `c` counts as a taken key from then on. */
  lemma KeyTakenShift(s: Setup, keys: set<string>, c0: nat, cursors: seq<nat>, c: nat)
    requires c0 < c
    ensures KeyTaken(s, keys + {s.keyAt(c0)}, cursors, c) <==> KeyTaken(s, keys, [c0] + cursors, c)
  {
    var cs := [c0] + cursors;
    if KeyTaken(s, keys + {s.keyAt(c0)}, cursors, c) {
      if s.keyAt(c) !in keys {
        if s.keyAt(c) == s.keyAt(c0) {
          assert cs[0] == c0;
        } else {
          var j :| 0 <= j < |cursors| && cursors[j] < c && s.keyAt(cursors[j]) == s.keyAt(c);
          assert cs[j + 1] == cursors[j];
        }
      }
    }
    if KeyTaken(s, keys, cs, c) && s.keyAt(c) !in keys {
      var j :| 0 <= j < |cs| && cs[j] < c && s.keyAt(cs[j]) == s.keyAt(c);
      if 0 < j {
        assert cursors[j - 1] == cs[j];
      }
    }
  }

  /** A clip `name0` written at cursor `c0` before cursor `c` counts as a taken name from then on. */
  lemma NameTakenShift(names: set<string>, name0: string, c0: nat, written: seq<string>, cursors: seq<nat>,
                       c: nat, name: string)
    requires |written| == |cursors| && c0 < c
    ensures NameTaken(names + {name0}, written, cursors, c, name) <==> NameTaken(names, [name0] + written, [c0] + cursors, c, name)
  {
    var w, cs := [name0] + written, [c0] + cursors;
    if NameTaken(names + {name0}, written, cursors, c, name) {
      if name !in names {
        if name == name0 {
          assert cs[0] == c0 && w[0] == name0;
        } else {
          var j :| 0 <= j < |cursors| && cursors[j] < c && written[j] == name;
          assert cs[j + 1] == cursors[j] && w[j + 1] == written[j];
        }
      }
    }
    if NameTaken(names, w, cs, c, name) && name !in names {
      var j :| 0 <= j < |cs| && cs[j] < c && w[j] == name;
      if 0 < j {
        assert cursors[j - 1] == cs[j] && written[j - 1] == w[j];
      }
    }
  }

  /**
   * What attempt `a` of a run does, at cursor `c = cursor + a` with index
   * `i = offered[a]`: it writes a clip exactly when the cursor's key is not
   * taken, the name at `i` is neither taken nor on disk, and the job
   * succeeds; the clip is then that name at `i`. The next attempt is offered
   * the same index after a taken key and the next index otherwise.
   */
  ghost predicate AttemptAt(s: Setup, st: State, r: Run, a: nat)
    requires a < |r.offered| && |r.written| == |r.cursors| == |r.indices|
  {
    var c, i := st.cursor + a, r.offered[a];
    var name := s.nameAt(i, c);
    && (c in r.cursors <==>
          !KeyTaken(s, st.keys, r.cursors, c) && !NameTaken(st.names, r.written, r.cursors, c, name) && !s.onDisk(name)
          && Succeeds(s, c, i, name))
    && (forall j :: 0 <= j < |r.cursors| && r.cursors[j] == c ==> r.indices[j] == i && r.written[j] == name)
    && (a + 1 < |r.offered| ==> r.offered[a + 1] == if KeyTaken(s, st.keys, r.cursors, c) then i else i + 1)
  }

  /** The first attempt of a run does what `AttemptAt` says. */
  lemma PlanFirstAttempt(s: Setup, st: State, budget: nat)
    requires 0 < |Plan(s, st, budget).offered|
    ensures var r := Plan(s, st, budget); |r.written| == |r.cursors| == |r.indices| && AttemptAt(s, st, r, 0)
  {
    var r := Plan(s, st, budget);
    var t := Plan(s, After(s, st), budget - 1);
    PlanShape(s, st, budget);
    PlanShape(s, After(s, st), budget - 1);
    assert forall j :: 0 <= j < |r.cursors| ==> st.cursor <= r.cursors[j];
  }

  /** An attempt that writes nothing leaves what the later attempts do as it was. */
  lemma TriedAttempt(s: Setup, st: State, t: Run, a: nat)
    requires !Writes(s, st) && 0 < a <= |t.offered| && |t.written| == |t.cursors| == |t.indices|
    requires AttemptAt(s, After(s, st), t, a - 1)
    ensures AttemptAt(s, st, Tried(st.nextIdx, t), a)
  {
    assert After(s, st).cursor + (a - 1) == st.cursor + a;
    assert After(s, st).keys == st.keys && After(s, st).names == st.names;
  }

  /**
   * An attempt that writes a clip leaves what the later attempts do as it
   * was, with its name and key counted as taken by the clip.
   */
  lemma WroteAttempt(s: Setup, st: State, t: Run, a: nat)
    requires Writes(s, st) && 0 < a <= |t.offered| && |t.written| == |t.cursors| == |t.indices|
    requires forall j :: 0 <= j < |t.cursors| ==> st.cursor < t.cursors[j]
    requires AttemptAt(s, After(s, st), t, a - 1)
    ensures AttemptAt(s, st, Wrote(Offered(s, st), st.nextIdx, st.cursor, t), a)
  {
    var r := Wrote(Offered(s, st), st.nextIdx, st.cursor, t);
    var c := st.cursor + a;
    assert After(s, st).cursor + (a - 1) == c && r.offered[a] == t.offered[a - 1];
    KeyTakenShift(s, st.keys, st.cursor, t.cursors, c);
    NameTakenShift(st.names, Offered(s, st), st.cursor, t.written, t.cursors, c, s.nameAt(r.offered[a], c));
    forall j | 0 <= j < |r.cursors| && r.cursors[j] == c
      ensures r.indices[j] == r.offered[a] && r.written[j] == s.nameAt(r.offered[a], c)
    {
      assert 0 < j && r.cursors[j] == t.cursors[j - 1];
    }
  }

  /** Every attempt of a run does what `AttemptAt` says. */
  lemma {:induction false} PlanAttempt(s: Setup, st: State, budget: nat, a: nat)
    requires a < |Plan(s, st, budget).offered|
    ensures var r := Plan(s, st, budget); |r.written| == |r.cursors| == |r.indices| && AttemptAt(s, st, r, a)
    decreases budget
  {
    if a == 0 {
      PlanFirstAttempt(s, st, budget);
    } else {
      var t := Plan(s, After(s, st), budget - 1);
      PlanAttempt(s, After(s, st), budget - 1, a - 1);
      PlanShape(s, After(s, st), budget - 1);
      if Writes(s, st) {
        WroteAttempt(s, st, t, a);
      } else {
        TriedAttempt(s, st, t, a);
      }
    }
  }

  /** A run that has made at least one attempt starts with that attempt. */
  lemma PlanStep(s: Setup, st: State, budget: nat)
    requires st.room > 0 && budget > 0
    ensures Plan(s, st, budget) == if Writes(s, st) then Wrote(Offered(s, st), st.nextIdx, st.cursor, Plan(s, After(s, st), budget - 1))
                                   else Tried(st.nextIdx, Plan(s, After(s, st), budget - 1))
  {
  }

  /** The loop's record so far (`written`, `indices`, `cursors`, `offered`) followed by the rest of the run `r`. */
  function Glue(written: seq<string>, indices: seq<nat>, cursors: seq<nat>, offered: seq<nat>, r: Run): Run
  {
    Run(written + r.written, indices + r.indices, cursors + r.cursors, offered + r.offered)
  }

  /** An attempt that wrote nothing moves from the rest of the run into the record. */
  lemma GlueTried(written: seq<string>, indices: seq<nat>, cursors: seq<nat>, offered: seq<nat>, idx: nat, t: Run)
    ensures Glue(written, indices, cursors, offered, Tried(idx, t)) == Glue(written, indices, cursors, offered + [idx], t)
  {
    assert offered + ([idx] + t.offered) == (offered + [idx]) + t.offered;
  }

  /** An attempt that wrote a clip moves from the rest of the run into the record. */
  lemma GlueWrote(written: seq<string>, indices: seq<nat>, cursors: seq<nat>, offered: seq<nat>,
                  name: string, idx: nat, c: nat, t: Run)
    ensures Glue(written, indices, cursors, offered, Wrote(name, idx, c, t))
         == Glue(written + [name], indices + [idx], cursors + [c], offered + [idx], t)
  {
    assert written + ([name] + t.written) == (written + [name]) + t.written;
    assert indices + ([idx] + t.indices) == (indices + [idx]) + t.indices;
    assert cursors + ([c] + t.cursors) == (cursors + [c]) + t.cursors;
    assert offered + ([idx] + t.offered) == (offered + [idx]) + t.offered;
  }

  /**
   * One attempt of the loop body from state `st`: it reports whether the
   * clip was written, the name it tried, and the index, names and keys the
   * loop goes on with, which are those of `After(s, st)`.
   */
  method Attempt(s: Setup, st: State)
    returns (wrote: bool, name: string, nextIdx: nat, names: set<string>, keys: set<string>)
    ensures wrote == Writes(s, st) && (wrote ==> name == Offered(s, st))
    ensures After(s, st) == State(nextIdx, st.cursor + 1, names, keys, if wrote then st.room - 1 else st.room)
  {
    var key := s.keyAt(st.cursor);
    wrote, name, nextIdx, names, keys := false, "", st.nextIdx, st.names, st.keys;
    if key in st.keys {
      return;
    }
    name := s.nameAt(st.nextIdx, st.cursor);
    if name in st.names || s.onDisk(name) {
      nextIdx := st.nextIdx + 1;
      return;
    }
    var request := s.job(st.cursor, st.nextIdx);
    if request.Some? && s.render(name, request.value) {
      wrote := true;
      names := st.names + {name};
      keys := st.keys + {key};
    }
    nextIdx := st.nextIdx + 1;
  }

  /**
   * The attempts of the loop from state `st0` (what the scan found and the
   * clips wanted) with `maxAttempts` cursor steps: they run exactly
   * `Plan(s, st0, maxAttempts)`, one attempt per iteration.
   */
  method Attempts(s: Setup, st0: State, maxAttempts: nat)
    returns (generated: nat, attempts: nat, written: seq<string>, ghost indices: seq<nat>, ghost cursors: seq<nat>)
    ensures var r := Plan(s, st0, maxAttempts);
      written == r.written && indices == r.indices && cursors == r.cursors && attempts == |r.offered|
    ensures generated == |written|
  {
    var st := st0;
    ghost var offered: seq<nat> := [];
    generated, attempts, written, indices, cursors := 0, 0, [], [], [];
    ghost var whole := Plan(s, st0, maxAttempts);
    ghost var budget := maxAttempts;
    assert whole == Glue(written, indices, cursors, offered, Plan(s, st, budget)) by {
      assert written + whole.written == whole.written;
      assert indices + whole.indices == whole.indices;
      assert cursors + whole.cursors == whole.cursors;
      assert offered + whole.offered == whole.offered;
    }
    while generated < st0.room && attempts < maxAttempts
      invariant generated == |written| && attempts == |offered| <= maxAttempts
      invariant st.room == st0.room - generated && budget == maxAttempts - attempts
      invariant whole == Glue(written, indices, cursors, offered, Plan(s, st, budget))
      decreases budget
    {
      ghost var rest := Plan(s, After(s, st), budget - 1);
      PlanStep(s, st, budget);
      var wrote, name, nextIdx, names, keys := Attempt(s, st);
      attempts := attempts + 1;
      if wrote {
        GlueWrote(written, indices, cursors, offered, name, st.nextIdx, st.cursor, rest);
        generated := generated + 1;
        written, indices, cursors := written + [name], indices + [st.nextIdx], cursors + [st.cursor];
      } else {
        GlueTried(written, indices, cursors, offered, st.nextIdx, rest);
      }
      offered := offered + [st.nextIdx];
      st := State(nextIdx, st.cursor + 1, names, keys, if wrote then st.room - 1 else st.room);
      budget := budget - 1;
    }
  }

  /**
   * The loop, over the file names `nameAt` (index, cursor) and keys `keyAt`
   * (cursor) of a prefix (`ClipNamer` and `KeyNamer` give them) and the jobs
   * `job` (cursor, index), after the scan of the directory. It runs exactly
   * `Generation` (what each attempt does is `PlanAttempt`): it stops once
   * `target` clips are written or after `maxAttempts` cursor steps. Clip `j`
   * of `written` is the name at index `indices[j]` for cursor `cursors[j]`.
   * Indices and cursors strictly increase, and every index lies above the
   * largest one in the directory. Every name and key is new and distinct
   * from the others. The render of every written clip succeeded.
   */
  method GenerateClips(prefix: string, nameAt: (nat, nat) -> string, keyAt: nat -> string, job: (nat, nat) -> Option<Render>,
                       target: int, maxAttempts: nat, listing: seq<string>,
                       onDisk: string -> bool, render: (string, Render) -> bool)
    returns (generated: nat, attempts: nat, written: seq<string>, ghost indices: seq<nat>, ghost cursors: seq<nat>)
    ensures var r := Generation(ListingSetup(prefix, nameAt, keyAt, job, onDisk, render, listing), target, maxAttempts);
      written == r.written && indices == r.indices && cursors == r.cursors && attempts == |r.offered|
    ensures generated == |written| == |indices| == |cursors| <= attempts <= maxAttempts
    ensures generated <= (if target > 0 then target else 0)
    ensures generated < target ==> attempts == maxAttempts
    ensures forall j :: 0 <= j < |written| ==> |Keys(listing, prefix)| <= cursors[j] < |Keys(listing, prefix)| + attempts
    ensures Record(ListingSetup(prefix, nameAt, keyAt, job, onDisk, render, listing), written, indices, cursors)
  {
    var names, maxIdx, keys, typeCounts := ScanExistingClips(listing, prefix);
    var setup := Setup(nameAt, keyAt, job, onDisk, render, maxIdx, names, keys);
    generated, attempts, written, indices, cursors := Attempts(setup, State(FirstIndex(maxIdx), |keys|, names, keys, target), maxAttempts);
    PlanRecord(setup, Start(setup, target), maxAttempts);
    PlanShape(setup, Start(setup, target), maxAttempts);
  }

  // ------------------------------------------------------------ the two families

  /** `max(count * 40, 100)` */
  function PositiveAttempts(count: int): nat
  {
    if count * 40 > 100 then count * 40 else 100
  }

  /** `max(count, min_new)` */
  function NegativeTarget(count: int, minNew: int): int
  {
    if count > minNew then count else minNew
  }

  /** `max(10, target_new * 30)` */
  function NegativeAttempts(target: int): nat
  {
    if 10 > target * 30 then 10 else target * 30
  }

  /** The semantic names of `gen_positives`, cursor by cursor. */
  function PositiveNames(voicePool: seq<string>): nat -> string
    requires voicePool != []
  {
    (c: nat) => PositiveSemantic(voicePool, c)
  }

  /** The jobs of `gen_positives`: the same for every index. */
  function PositiveJobs(phrase: string, voicePool: seq<string>): (nat, nat) -> Option<Render>
    requires voicePool != []
  {
    (c: nat, idx: nat) => Some(PositiveJob(phrase, voicePool, c))
  }

  /** The jobs of `gen_negatives`. */
  function NegativeJobs(hasSynthesizer: bool, voicePool: seq<string>, phrases: seq<string>, wakePhrase: string): (nat, nat) -> Option<Render>
    requires phrases != []
  {
    (c: nat, idx: nat) => NegativeJob(hasSynthesizer, voicePool, phrases, wakePhrase, c, idx)
  }

  /** The setup of `gen_positives` over a directory listing. */
  function PositiveSetup(phrase: string, voicePool: seq<string>, listing: seq<string>,
                         onDisk: string -> bool, synthesize: (string, Render) -> bool): Setup
    requires voicePool != []
  {
    ListingSetup("positive", ClipNamer("positive", PositiveNames(voicePool)), KeyNamer("positive", PositiveNames(voicePool)),
      PositiveJobs(phrase, voicePool), onDisk, synthesize, listing)
  }

  /** The setup of `gen_negatives` over a directory listing, drawing on the negative phrases `phrases`. */
  function NegativeSetup(hasSynthesizer: bool, voicePool: seq<string>, phrases: seq<string>, wakePhrase: string,
                         listing: seq<string>, onDisk: string -> bool, render: (string, Render) -> bool): Setup
    requires phrases != []
  {
    ListingSetup("negative", ClipNamer("negative", NegativeSemantic), KeyNamer("negative", NegativeSemantic),
      NegativeJobs(hasSynthesizer, voicePool, phrases, wakePhrase), onDisk, render, listing)
  }

  /**
   * `gen_positives`: fails without a synthesizer or with an empty voice pool;
   * otherwise runs the loop of `GenerateClips` for at most `count` new
   * positives in `max(count * 40, 100)` attempts, and the record of what it
   * wrote holds (`PositiveClip` spells it out clip by clip).
   */
  method GenPositives(phrase: string, count: int, hasSynthesizer: bool, voicePool: seq<string>, listing: seq<string>,
                      onDisk: string -> bool, synthesize: (string, Render) -> bool)
    returns (r: Result<nat, string>, attempts: nat, written: seq<string>, ghost indices: seq<nat>, ghost cursors: seq<nat>)
    ensures r.Failure? <==> !hasSynthesizer || voicePool == []
    ensures r.Failure? ==> written == []
    ensures r.Success? ==> var g := Generation(PositiveSetup(phrase, voicePool, listing, onDisk, synthesize), count, PositiveAttempts(count));
      written == g.written && indices == g.indices && cursors == g.cursors && attempts == |g.offered|
    ensures r.Success? ==> r.value == |written| <= (if count > 0 then count else 0)
    ensures r.Success? && r.value < count ==> attempts == PositiveAttempts(count)
    ensures r.Success? ==> Record(PositiveSetup(phrase, voicePool, listing, onDisk, synthesize), written, indices, cursors)
  {
    if !hasSynthesizer {
      return Failure("No Piper synthesizer configured for positive sample generation"), 0, [], [], [];
    }
    if voicePool == [] {
      return Failure("No Piper voices available for positive sample generation"), 0, [], [], [];
    }
    var generated;
    generated, attempts, written, indices, cursors := GenerateClips("positive", ClipNamer("positive", PositiveNames(voicePool)),
      KeyNamer("positive", PositiveNames(voicePool)), PositiveJobs(phrase, voicePool), count, PositiveAttempts(count), listing, onDisk, synthesize);
    r := Success(generated);
  }

  /**
   * `gen_negatives`: runs the loop of `GenerateClips` for `max(count,
   * min_new)` new negatives in `max(10, target_new * 30)` attempts, and the
   * record of what it wrote holds (`NegativeClip` spells it out clip by clip).
   */
  method GenNegatives(count: int, minNew: int, hasSynthesizer: bool, voicePool: seq<string>, wakePhrase: string,
                      listing: seq<string>, onDisk: string -> bool, render: (string, Render) -> bool)
    returns (generated: nat, attempts: nat, written: seq<string>, ghost indices: seq<nat>, ghost cursors: seq<nat>)
    ensures var g := Generation(NegativeSetup(hasSynthesizer, voicePool, NegativePhrases(), wakePhrase, listing, onDisk, render),
                                NegativeTarget(count, minNew), NegativeAttempts(NegativeTarget(count, minNew)));
      written == g.written && indices == g.indices && cursors == g.cursors && attempts == |g.offered|
    ensures generated == |written|
    ensures generated <= (if NegativeTarget(count, minNew) > 0 then NegativeTarget(count, minNew) else 0)
    ensures generated < NegativeTarget(count, minNew) ==> attempts == NegativeAttempts(NegativeTarget(count, minNew))
    ensures Record(NegativeSetup(hasSynthesizer, voicePool, NegativePhrases(), wakePhrase, listing, onDisk, render), written, indices, cursors)
  {
    var target := NegativeTarget(count, minNew);
    NegativePhraseCount();
    generated, attempts, written, indices, cursors := GenerateClips("negative", ClipNamer("negative", NegativeSemantic),
      KeyNamer("negative", NegativeSemantic), NegativeJobs(hasSynthesizer, voicePool, NegativePhrases(), wakePhrase), target, NegativeAttempts(target), listing, onDisk, render);
  }

  // ------------------------------------------------------------ what the record means

  /**
   * A positive clip written by `GenPositives`: its name carries its index and
   * its cursor's semantic name; the index lies above the directory's largest;
   * the name was neither listed nor on disk; its key was not in the
   * directory; and it was synthesized with the cursor's voice and variant.
   */
  lemma PositiveClip(phrase: string, voicePool: seq<string>, listing: seq<string>, onDisk: string -> bool,
                     synthesize: (string, Render) -> bool, written: seq<string>, indices: seq<nat>, cursors: seq<nat>, j: nat)
    requires voicePool != []
    requires Record(PositiveSetup(phrase, voicePool, listing, onDisk, synthesize), written, indices, cursors)
    requires j < |written|
    ensures written[j] == ClipFileName("positive", indices[j], PositiveSemantic(voicePool, cursors[j]))
    ensures indices[j] > MaxIndex(listing, "positive")
    ensures written[j] !in listing && !onDisk(written[j])
    ensures ClipKey("positive", PositiveSemantic(voicePool, cursors[j])) !in Keys(listing, "positive")
    ensures synthesize(written[j], PositiveJob(phrase, voicePool, cursors[j]))
  {
    var s := PositiveSetup(phrase, voicePool, listing, onDisk, synthesize);
    assert s.nameAt(indices[j], cursors[j]) == ClipFileName("positive", indices[j], PositiveSemantic(voicePool, cursors[j]));
    assert s.keyAt(cursors[j]) == ClipKey("positive", PositiveSemantic(voicePool, cursors[j]));
    assert s.job(cursors[j], indices[j]) == Some(PositiveJob(phrase, voicePool, cursors[j]));
    ClipFileNameMatchesGlob("positive", indices[j], PositiveSemantic(voicePool, cursors[j]));
    GlobNamesAre(listing, "positive");
  }

  /**
   * A negative clip written by `GenNegatives`: as for positives, and its job
   * is the cursor's kind rendered at the clip's index.
   */
  lemma NegativeClip(hasSynthesizer: bool, voicePool: seq<string>, phrases: seq<string>, wakePhrase: string,
                     listing: seq<string>, onDisk: string -> bool, render: (string, Render) -> bool,
                     written: seq<string>, indices: seq<nat>, cursors: seq<nat>, j: nat)
    requires phrases != []
    requires Record(NegativeSetup(hasSynthesizer, voicePool, phrases, wakePhrase, listing, onDisk, render), written, indices, cursors)
    requires j < |written|
    ensures written[j] == ClipFileName("negative", indices[j], NegativeSemantic(cursors[j]))
    ensures indices[j] > MaxIndex(listing, "negative")
    ensures written[j] !in listing && !onDisk(written[j])
    ensures ClipKey("negative", NegativeSemantic(cursors[j])) !in Keys(listing, "negative")
    ensures var job := NegativeRender(NegativeVariations()[cursors[j] % 13], indices[j], hasSynthesizer, voicePool,
                                      phrases, wakePhrase);
      job.Some? && render(written[j], job.value)
  {
    var s := NegativeSetup(hasSynthesizer, voicePool, phrases, wakePhrase, listing, onDisk, render);
    assert s.nameAt(indices[j], cursors[j]) == ClipFileName("negative", indices[j], NegativeSemantic(cursors[j]));
    assert s.keyAt(cursors[j]) == ClipKey("negative", NegativeSemantic(cursors[j]));
    ClipFileNameMatchesGlob("negative", indices[j], NegativeSemantic(cursors[j]));
    GlobNamesAre(listing, "negative");
  }

  /**
   * Runs only append: once the clips of a run are in the directory (with
   * any other files `others`), the next scan's largest index is at least
   * each of theirs, so the next run's indices lie above all of them.
   */
  lemma NextRunAppends(prefix: string, semantic: nat -> string, job: (nat, nat) -> Option<Render>,
                       onDisk: string -> bool, render: (string, Render) -> bool, listing: seq<string>,
                       others: seq<string>, written: seq<string>, indices: seq<nat>, cursors: seq<nat>, j: nat)
    requires '_' !in prefix
    requires Record(ListingSetup(prefix, ClipNamer(prefix, semantic), KeyNamer(prefix, semantic), job, onDisk, render, listing),
                    written, indices, cursors)
    requires j < |written|
    ensures indices[j] <= MaxIndex(others + written, prefix)
    ensures FirstIndex(MaxIndex(others + written, prefix)) > indices[j]
  {
    var s := ListingSetup(prefix, ClipNamer(prefix, semantic), KeyNamer(prefix, semantic), job, onDisk, render, listing);
    assert written[j] == ClipFileName(prefix, indices[j], semantic(cursors[j])) by {
      assert s.nameAt(indices[j], cursors[j]) == ClipFileName(prefix, indices[j], semantic(cursors[j]));
    }
    ClipIndexRoundTrip(prefix, indices[j], semantic(cursors[j]));
    ClipFileNameMatchesGlob(prefix, indices[j], semantic(cursors[j]));
    MaxIndexIsMaximum(others + written, prefix);
    assert written[j] in others + written;
  }
}
