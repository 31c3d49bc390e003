/** Every step of the T-set build keeps its invariants, in every interleaving. */
module TSetBuildProofs {
  import opened Bytes
  import opened TSet
  import opened WordCounter
  import opened Searcher
  import opened TSetBuild
  import opened Collections

  function Vocabulary(corpus: Corpus): set<Word> {
    set id, w | id in corpus && w in corpus[id] :: w
  }

  ghost predicate Inv(corpus: Corpus, e: Sealer, s: State) {
    && InvDocs(corpus, s) && InvOwned(corpus, s) && InvCounter(s) && InvPhase(s)
    && InvEntries(e, s) && InvCover(e, s) && InvDb(e, s)
  }

  /** The corpus is small enough for the 32-bit counters, and its slots do not collide. */
  ghost predicate Indexable(corpus: Corpus, e: Sealer) {
    |corpus| < MAX_SLOT && NoCollision(e, Vocabulary(corpus), |corpus| + 1)
  }

  lemma InitInv(corpus: Corpus, e: Sealer, s: State)
    requires Init(corpus, s)
    ensures Inv(corpus, e, s)
  {
  }

  // ---------- counting ----------

  lemma {:induction false} DistinctWithin(ids: seq<nat>, all: set<nat>)
    requires NoDuplicates(ids) && forall i :: 0 <= i < |ids| ==> ids[i] in all
    ensures |ids| <= |all|
  {
    if ids != [] {
      var n := |ids| - 1;
      DistinctWithin(ids[..n], all - {ids[n]});
    }
  }

  lemma OrderBounded(corpus: Corpus, s: State, w: Word)
    requires InvDocs(corpus, s)
    ensures |OrderOf(s, w)| <= |corpus|
    ensures OrderOf(s, w) != [] ==> w in Vocabulary(corpus)
  {
    var ids := OrderOf(s, w);
    forall i | 0 <= i < |ids| ensures ids[i] in corpus.Keys && w in corpus[ids[i]] {
      assert Drawn(s, w, ids[i]);
    }
    DistinctWithin(ids, corpus.Keys);
    if ids != [] {
      assert ids[0] in corpus && w in corpus[ids[0]];
    }
  }

  lemma CountOf(corpus: Corpus, s: State, w: Word)
    requires InvDocs(corpus, s) && InvCounter(s) && |corpus| < MAX_SLOT
    ensures Read(s.counter, w) == |OrderOf(s, w)| < TWO32 - 1
  {
    OrderBounded(corpus, s, w);
  }

  // ---------- documents, ownership, counter, phase ----------

  lemma KeepDocs(corpus: Corpus, e: Sealer, s: State, step: Step)
    requires InvDocs(corpus, s) && Enabled(e, s, step)
    ensures InvDocs(corpus, Apply(e, s, step))
  {
    var s' := Apply(e, s, step);
    if step.Draw? {
      var id := s.workers[step.k].id;
      assert !Drawn(s, step.word, id);
      forall w, i ensures Drawn(s', w, i) <==> Drawn(s, w, i) || (w == step.word && i == id) {
      }
    } else {
      forall w, i ensures Drawn(s', w, i) <==> Drawn(s, w, i) {
      }
    }
  }

  lemma KeepOwned(corpus: Corpus, e: Sealer, s: State, step: Step)
    requires InvOwned(corpus, s) && Enabled(e, s, step)
    ensures InvOwned(corpus, Apply(e, s, step))
  {
    var s' := Apply(e, s, step);
    forall id | id in corpus && s'.todo[id] != {} ensures id in s'.queue || HeldBySome(s', id) {
      if HeldBySome(s, id) {
        var k :| 0 <= k < |s.workers| && s.workers[k].Busy? && s.workers[k].id == id;
        assert s'.workers[k].Busy? && s'.workers[k].id == id;
      } else if step.Take? && id == s.queue[0] {
        assert s'.workers[step.k].Busy? && s'.workers[step.k].id == id;
      }
    }
  }

  lemma KeepCounter(corpus: Corpus, e: Sealer, s: State, step: Step)
    requires InvDocs(corpus, s) && InvCounter(s) && Enabled(e, s, step) && |corpus| < MAX_SLOT
    ensures InvCounter(Apply(e, s, step))
  {
    if step.Draw? {
      CountOf(corpus, s, step.word);
    }
  }

  lemma KeepPhase(e: Sealer, s: State, step: Step)
    requires InvPhase(s) && Enabled(e, s, step)
    ensures InvPhase(Apply(e, s, step))
  {
  }

  // ---------- entries ----------

  lemma GenuineKept(e: Sealer, s: State, step: Step, en: Entry)
    requires InvPhase(s) && Enabled(e, s, step) && Genuine(s, en)
    ensures Genuine(Apply(e, s, step), en)
  {
  }

  lemma DrawnGenuine(corpus: Corpus, e: Sealer, s: State, step: Step, en: Entry)
    requires InvDocs(corpus, s) && InvCounter(s) && InvPhase(s) && |corpus| < MAX_SLOT
    requires Enabled(e, s, step) && step.Draw?
    ensures Genuine(Apply(e, s, step), en)
       <==> Genuine(s, en) || en == DrawnEntry(s, s.workers[step.k].id, step.word)
  {
    CountOf(corpus, s, step.word);
    assert s.janitor.Waiting?;
  }

  lemma TerminatorGenuine(corpus: Corpus, s: State, en: Entry)
    requires InvDocs(corpus, s) && InvCounter(s) && !s.janitor.Waiting? && |corpus| < MAX_SLOT
    requires en.word in s.counter
    ensures Genuine(s, en) && en.last <==> en == Terminator(s, en.word)
  {
    CountOf(corpus, s, en.word);
  }

  lemma KeepHeld(corpus: Corpus, e: Sealer, s: State, step: Step, en: Entry)
    requires InvDocs(corpus, s) && InvCounter(s) && InvPhase(s) && InvEntries(e, s)
    requires Enabled(e, s, step) && |corpus| < MAX_SLOT && HasEntry(Apply(e, s, step), en)
    ensures Sealable(e, Apply(e, s, step), en) && !en.last
  {
    var s' := Apply(e, s, step);
    var k :| 0 <= k < |s'.workers| && s'.workers[k].Busy? && s'.workers[k].held == Some(en);
    if step.Draw? && k == step.k {
      DrawnGenuine(corpus, e, s, step, en);
    } else {
      assert s.workers[k].Busy? && s.workers[k].held == Some(en);
      assert HasEntry(s, en);
      GenuineKept(e, s, step, en);
    }
  }

  lemma KeepSent(corpus: Corpus, e: Sealer, s: State, step: Step, en: Entry)
    requires InvDocs(corpus, s) && InvCounter(s) && InvPhase(s) && InvEntries(e, s)
    requires Enabled(e, s, step) && |corpus| < MAX_SLOT && en in Apply(e, s, step).inFlight
    ensures Sealable(e, Apply(e, s, step), en)
  {
    if en in s.inFlight {
      GenuineKept(e, s, step, en);
    } else if step.Send? {
      assert HasEntry(s, en);
      GenuineKept(e, s, step, en);
    } else {
      assert step.Sweep? && en == Terminator(s, step.word);
      TerminatorGenuine(corpus, s, en);
    }
  }

  lemma KeepEntries(corpus: Corpus, e: Sealer, s: State, step: Step)
    requires InvDocs(corpus, s) && InvCounter(s) && InvPhase(s) && InvEntries(e, s)
    requires Enabled(e, s, step) && |corpus| < MAX_SLOT
    ensures InvEntries(e, Apply(e, s, step))
  {
    forall en | HasEntry(Apply(e, s, step), en) ensures Sealable(e, Apply(e, s, step), en) && !en.last {
      KeepHeld(corpus, e, s, step, en);
    }
    forall en | en in Apply(e, s, step).inFlight ensures Sealable(e, Apply(e, s, step), en) {
      KeepSent(corpus, e, s, step, en);
    }
  }

  // ---------- the store ----------

  /** Two entries that belong at their slots and share an address are one entry. */
  lemma AddressDetermines(corpus: Corpus, e: Sealer, s: State, en: Entry, en': Entry)
    requires InvDocs(corpus, s) && Indexable(corpus, e)
    requires Genuine(s, en) && Genuine(s, en') && SameAddress(e.seal(en), e.seal(en'))
    ensures en == en'
  {
    OrderBounded(corpus, s, en.word);
    OrderBounded(corpus, s, en'.word);
  }

  lemma KeepDb(e: Sealer, s: State, step: Step)
    requires InvPhase(s) && InvEntries(e, s) && InvDb(e, s) && Enabled(e, s, step)
    ensures InvDb(e, Apply(e, s, step))
  {
    var s' := Apply(e, s, step);
    forall bucket, lbl | Get(s'.db, bucket, lbl).Some?
      ensures exists en :: Sealable(e, s', en) && e.seal(en) == Fragment(bucket, lbl, Get(s'.db, bucket, lbl).value)
    {
      if step.Write? {
        GetAfterPut(s.db, e.seal(step.entry), bucket, lbl);
      }
      if step.Write? && bucket == e.seal(step.entry).bucket && lbl == e.seal(step.entry).lbl {
        GenuineKept(e, s, step, step.entry);
        assert Sealable(e, s', step.entry);
      } else {
        var en :| Sealable(e, s, en) && e.seal(en) == Fragment(bucket, lbl, Get(s.db, bucket, lbl).value);
        GenuineKept(e, s, step, en);
        assert Sealable(e, s', en);
      }
    }
  }

  lemma StoredKept(corpus: Corpus, e: Sealer, s: State, step: Step, en: Entry)
    requires InvDocs(corpus, s) && InvEntries(e, s) && Indexable(corpus, e)
    requires Enabled(e, s, step) && Genuine(s, en) && Stored(e, s.db, en)
    ensures Stored(e, Apply(e, s, step).db, en)
  {
    if step.Write? {
      GetAfterPut(s.db, e.seal(step.entry), e.seal(en).bucket, e.seal(en).lbl);
      if SameAddress(e.seal(en), e.seal(step.entry)) {
        AddressDetermines(corpus, e, s, en, step.entry);
      }
    }
  }

  lemma EmittedKept(corpus: Corpus, e: Sealer, s: State, step: Step, en: Entry)
    requires InvDocs(corpus, s) && InvEntries(e, s) && Indexable(corpus, e)
    requires Enabled(e, s, step) && Genuine(s, en) && Emitted(e, s, en)
    ensures Emitted(e, Apply(e, s, step), en)
  {
    var s' := Apply(e, s, step);
    if Stored(e, s.db, en) {
      StoredKept(corpus, e, s, step, en);
    } else if HasEntry(s, en) {
      var k :| 0 <= k < |s.workers| && s.workers[k].Busy? && s.workers[k].held == Some(en);
      if !(step.Send? && step.k == k) {
        assert s'.workers[k].Busy? && s'.workers[k].held == Some(en);
      }
    } else if step.Write? && step.entry == en {
      GetAfterPut(s.db, e.seal(en), e.seal(en).bucket, e.seal(en).lbl);
    }
  }

  lemma KeepCover(corpus: Corpus, e: Sealer, s: State, step: Step)
    requires Inv(corpus, e, s) && Indexable(corpus, e) && Enabled(e, s, step)
    ensures InvCover(e, Apply(e, s, step))
  {
    var s' := Apply(e, s, step);
    forall en | Genuine(s', en) && (en.last ==> Swept(s', en.word)) ensures Emitted(e, s', en) {
      if step.Draw? {
        DrawCover(corpus, e, s, step, en);
      } else if step.Sweep? && en.last && en.word == step.word {
        TerminatorGenuine(corpus, s, en);
      } else {
        assert en.word in s.order;
        assert Genuine(s, en);
        EmittedKept(corpus, e, s, step, en);
      }
    }
  }

  lemma DrawCover(corpus: Corpus, e: Sealer, s: State, step: Step, en: Entry)
    requires Inv(corpus, e, s) && Indexable(corpus, e) && Enabled(e, s, step) && step.Draw?
    requires Genuine(Apply(e, s, step), en)
    ensures Emitted(e, Apply(e, s, step), en)
  {
    DrawnGenuine(corpus, e, s, step, en);
    if en == DrawnEntry(s, s.workers[step.k].id, step.word) {
      assert Apply(e, s, step).workers[step.k].held == Some(en);
    } else {
      assert s.janitor.Waiting?;
      EmittedKept(corpus, e, s, step, en);
    }
  }

  // ---------- whole runs ----------

  lemma StepInv(corpus: Corpus, e: Sealer, s: State, step: Step)
    requires Inv(corpus, e, s) && Indexable(corpus, e) && Enabled(e, s, step)
    ensures Inv(corpus, e, Apply(e, s, step))
  {
    KeepDocs(corpus, e, s, step);
    KeepOwned(corpus, e, s, step);
    KeepCounter(corpus, e, s, step);
    KeepPhase(e, s, step);
    KeepEntries(corpus, e, s, step);
    KeepCover(corpus, e, s, step);
    KeepDb(e, s, step);
  }

  lemma {:induction false} RunInv(corpus: Corpus, e: Sealer, s: State, steps: seq<Step>)
    requires Inv(corpus, e, s) && Indexable(corpus, e) && ValidRun(e, s, steps)
    ensures Inv(corpus, e, Exec(e, s, steps))
    decreases |steps|
  {
    if steps != [] {
      StepInv(corpus, e, s, steps[0]);
      RunInv(corpus, e, Apply(e, s, steps[0]), steps[1..]);
    }
  }

  // ---------- slots are handed out exactly once ----------

  /** The entries a run computes, in the order it computes them. */
  function Log(e: Sealer, s: State, steps: seq<Step>): seq<Entry>
    requires ValidRun(e, s, steps)
    decreases |steps|
  {
    if steps == [] then [] else LoggedBy(e, s, steps[0]) + Log(e, Apply(e, s, steps[0]), steps[1..])
  }

  function LoggedBy(e: Sealer, s: State, step: Step): seq<Entry>
    requires Enabled(e, s, step)
  {
    match step
    case Draw(k, word) => [DrawnEntry(s, s.workers[k].id, word)]
    case Sweep(word) => [Terminator(s, word)]
    case _ => []
  }

  ghost predicate Issued(s: State, en: Entry) {
    Genuine(s, en) && (en.last ==> Swept(s, en.word))
  }

  lemma StepIssues(corpus: Corpus, e: Sealer, s: State, step: Step, en: Entry)
    requires Inv(corpus, e, s) && Indexable(corpus, e) && Enabled(e, s, step)
    ensures Issued(Apply(e, s, step), en) <==> Issued(s, en) || en in LoggedBy(e, s, step)
    ensures en in LoggedBy(e, s, step) ==> !Issued(s, en)
  {
    if step.Draw? {
      DrawIssues(corpus, e, s, step, en);
    } else if step.Sweep? && en.word == step.word {
      TerminatorGenuine(corpus, s, en);
    } else {
      OtherIssues(e, s, step, en);
    }
  }

  lemma DrawIssues(corpus: Corpus, e: Sealer, s: State, step: Step, en: Entry)
    requires InvDocs(corpus, s) && InvCounter(s) && InvPhase(s) && |corpus| < MAX_SLOT
    requires Enabled(e, s, step) && step.Draw?
    ensures Issued(Apply(e, s, step), en) <==> Issued(s, en) || en in LoggedBy(e, s, step)
    ensures en in LoggedBy(e, s, step) ==> !Issued(s, en)
  {
    DrawnGenuine(corpus, e, s, step, en);
    CountOf(corpus, s, step.word);
    assert s.janitor.Waiting?;
  }

  lemma OtherIssues(e: Sealer, s: State, step: Step, en: Entry)
    requires InvCounter(s) && Enabled(e, s, step) && !step.Draw? && !(step.Sweep? && step.word == en.word)
    ensures Issued(Apply(e, s, step), en) <==> Issued(s, en)
    ensures en !in LoggedBy(e, s, step)
  {
    assert OrderOf(s, en.word) != [] ==> en.word in s.order;
  }

  /** A run issues each entry at most once, and issues exactly those its final state accounts for:
      slots 1 to n of a word with flag 0, and slot n + 1 with flag 1 once the janitor passed. */
  lemma {:induction false} LogExact(corpus: Corpus, e: Sealer, s: State, steps: seq<Step>)
    requires Inv(corpus, e, s) && Indexable(corpus, e) && ValidRun(e, s, steps)
    ensures forall en :: Issued(Exec(e, s, steps), en) <==> Issued(s, en) || en in Log(e, s, steps)
    ensures forall en :: en in Log(e, s, steps) ==> !Issued(s, en)
    ensures forall i, j :: 0 <= i < j < |Log(e, s, steps)| ==> Log(e, s, steps)[i] != Log(e, s, steps)[j]
    decreases |steps|
  {
    if steps != [] {
      var s' := Apply(e, s, steps[0]);
      StepInv(corpus, e, s, steps[0]);
      LogExact(corpus, e, s', steps[1..]);
      forall en ensures Issued(s', en) <==> Issued(s, en) || en in LoggedBy(e, s, steps[0])
                ensures en in LoggedBy(e, s, steps[0]) ==> !Issued(s, en)
      {
        StepIssues(corpus, e, s, steps[0], en);
      }
      var first, rest := LoggedBy(e, s, steps[0]), Log(e, s', steps[1..]);
      assert Log(e, s, steps) == first + rest;
      assert first != [] ==> first[0] in first;
    }
  }

  lemma SlotDetermines(corpus: Corpus, s: State, a: Entry, b: Entry)
    requires InvDocs(corpus, s) && |corpus| < MAX_SLOT && Genuine(s, a) && Genuine(s, b)
    ensures 1 <= a.slot && 1 <= b.slot
    ensures BlindInput(a.word, a.slot - 1) == BlindInput(b.word, b.slot - 1) ==> a == b
  {
    OrderBounded(corpus, s, a.word);
    OrderBounded(corpus, s, b.word);
    if BlindInput(a.word, a.slot - 1) == BlindInput(b.word, b.slot - 1) {
      BlindInputInjective(a.word, a.slot - 1, b.word, b.slot - 1);
    }
  }

  /** No two entries a run computes feed the blinding PRF the same input. */
  lemma BlindInputsNeverRepeat(corpus: Corpus, e: Sealer, s: State, steps: seq<Step>, i: nat, j: nat)
    requires Init(corpus, s) && Indexable(corpus, e) && ValidRun(e, s, steps)
    requires i < j < |Log(e, s, steps)|
    ensures var a, b := Log(e, s, steps)[i], Log(e, s, steps)[j];
            1 <= a.slot && 1 <= b.slot && BlindInput(a.word, a.slot - 1) != BlindInput(b.word, b.slot - 1)
  {
    var log, t := Log(e, s, steps), Exec(e, s, steps);
    RunLog(corpus, e, s, steps);
    SlotDetermines(corpus, t, log[i], log[j]);
  }

  /** Nor do two of them get the same blinding value, if the PRF does not collide on the corpus. */
  lemma BlindValuesNeverRepeat(corpus: Corpus, env: Env, e: Sealer, s: State, steps: seq<Step>, i: nat, j: nat)
    requires Init(corpus, s) && Indexable(corpus, e) && ValidRun(e, s, steps)
    requires i < j < |Log(e, s, steps)| && BlindPrfDistinct(env, Vocabulary(corpus), |corpus|)
    ensures DifferentValues(env, Log(e, s, steps)[i], Log(e, s, steps)[j])
  {
    LogPair(corpus, e, s, steps, i, j);
    ValuesDiffer(env, Vocabulary(corpus), |corpus|, Log(e, s, steps)[i], Log(e, s, steps)[j]);
  }

  predicate DifferentValues(env: Env, a: Entry, b: Entry) {
    1 <= a.slot && 1 <= b.slot && Z(env, a.word, a.slot - 1) != Z(env, b.word, b.slot - 1)
  }

  predicate DifferentInputs(words: set<Word>, n: nat, a: Entry, b: Entry) {
    && a.word in words && b.word in words && 1 <= a.slot <= n + 1 && 1 <= b.slot <= n + 1
    && !(a.word == b.word && a.slot == b.slot)
  }

  lemma LogPair(corpus: Corpus, e: Sealer, s: State, steps: seq<Step>, i: nat, j: nat)
    requires Init(corpus, s) && Indexable(corpus, e) && ValidRun(e, s, steps) && i < j < |Log(e, s, steps)|
    ensures DifferentInputs(Vocabulary(corpus), |corpus|, Log(e, s, steps)[i], Log(e, s, steps)[j])
  {
    BlindInputsNeverRepeat(corpus, e, s, steps, i, j);
    LogBounded(corpus, e, s, steps, i);
    LogBounded(corpus, e, s, steps, j);
  }

  lemma ValuesDiffer(env: Env, words: set<Word>, n: nat, a: Entry, b: Entry)
    requires BlindPrfDistinct(env, words, n) && n < TWO32 && DifferentInputs(words, n, a, b)
    ensures DifferentValues(env, a, b)
  {
    BlindValuesDistinct(env, words, n, a.word, a.slot - 1, b.word, b.slot - 1);
  }

  lemma LogBounded(corpus: Corpus, e: Sealer, s: State, steps: seq<Step>, i: nat)
    requires Init(corpus, s) && Indexable(corpus, e) && ValidRun(e, s, steps) && i < |Log(e, s, steps)|
    ensures var a := Log(e, s, steps)[i]; a.word in Vocabulary(corpus) && 1 <= a.slot <= |corpus| + 1
  {
    RunLog(corpus, e, s, steps);
    assert Genuine(Exec(e, s, steps), Log(e, s, steps)[i]);
    OrderBounded(corpus, Exec(e, s, steps), Log(e, s, steps)[i].word);
  }

  lemma RunLog(corpus: Corpus, e: Sealer, s: State, steps: seq<Step>)
    requires Init(corpus, s) && Indexable(corpus, e) && ValidRun(e, s, steps)
    ensures InvDocs(corpus, Exec(e, s, steps))
    ensures forall i :: 0 <= i < |Log(e, s, steps)| ==> Genuine(Exec(e, s, steps), Log(e, s, steps)[i])
    ensures forall i, j :: 0 <= i < j < |Log(e, s, steps)| ==> Log(e, s, steps)[i] != Log(e, s, steps)[j]
  {
    InitInv(corpus, e, s);
    RunInv(corpus, e, s, steps);
    LogExact(corpus, e, s, steps);
    forall i | 0 <= i < |Log(e, s, steps)| ensures Genuine(Exec(e, s, steps), Log(e, s, steps)[i]) {
      assert Issued(Exec(e, s, steps), Log(e, s, steps)[i]);
    }
  }
}
