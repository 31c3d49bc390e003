/** The T-set build cannot get stuck, and every run of it ends. */
module TSetProgress {
  import opened Bytes
  import opened TSet
  import opened Searcher
  import opened TSetBuild
  import opened TSetBuildProofs
  import opened EndToEnd
  import opened Collections

  /** Every entry the client may have to blind is usable: any word of the corpus with one of its
      documents, in a slot up to its terminator's. */
  ghost predicate UsableOver(corpus: Corpus, e: Sealer) {
    forall en: Entry ::
      en.docId in Hits(corpus, en.word) && 1 <= en.slot <= |Hits(corpus, en.word)| + 1 ==> e.usable(en)
  }

  ghost predicate InvLive(corpus: Corpus, e: Sealer, s: State) {
    && InvDocs(corpus, s) && InvCounter(s) && InvPhase(s) && InvEntries(e, s)
    && (forall i :: 0 <= i < |s.queue| ==> s.queue[i] in corpus)
    && (forall k :: 0 <= k < |s.workers| && s.workers[k].Busy? ==> s.workers[k].id in corpus)
    && (forall k :: 0 <= k < |s.workers| && s.workers[k].Exited? ==> s.queue == [])
    && (s.janitor.Sweeping? ==> s.janitor.left <= s.counter.Keys)
  }

  lemma KeepLive(corpus: Corpus, e: Sealer, s: State, step: Step)
    requires InvLive(corpus, e, s) && Enabled(e, s, step) && |corpus| < MAX_SLOT
    ensures InvLive(corpus, e, Apply(e, s, step))
  {
    KeepDocs(corpus, e, s, step);
    KeepCounter(corpus, e, s, step);
    KeepPhase(e, s, step);
    KeepEntries(corpus, e, s, step);
  }

  lemma {:induction false} RunLive(corpus: Corpus, e: Sealer, s: State, steps: seq<Step>)
    requires InvLive(corpus, e, s) && ValidRun(e, s, steps) && |corpus| < MAX_SLOT
    ensures InvLive(corpus, e, Exec(e, s, steps)) && |Exec(e, s, steps).workers| == |s.workers|
    decreases |steps|
  {
    if steps != [] {
      KeepLive(corpus, e, s, steps[0]);
      RunLive(corpus, e, Apply(e, s, steps[0]), steps[1..]);
    }
  }

  lemma NotStuck(corpus: Corpus, e: Sealer, s: State) returns (step: Step)
    requires InvLive(corpus, e, s) && UsableOver(corpus, e) && |corpus| < MAX_SLOT
    requires s.workers != [] && !Complete(s)
    ensures Enabled(e, s, step)
  {
    if s.inFlight != multiset{} {
      var en :| en in s.inFlight;
      step := Write(en);
    } else if exists k :: 0 <= k < |s.workers| && !s.workers[k].Exited? {
      var k :| 0 <= k < |s.workers| && !s.workers[k].Exited?;
      step := WorkerMoves(corpus, e, s, k);
    } else if s.janitor.Waiting? {
      step := StartJanitor;
    } else if s.janitor.Sweeping? && s.janitor.left != {} {
      var word :| word in s.janitor.left;
      TerminatorUsable(corpus, e, s, word);
      step := Sweep(word);
    } else {
      assert s.workers[0].Exited?;
      step := StopJanitor;
    }
  }

  lemma WorkerMoves(corpus: Corpus, e: Sealer, s: State, k: nat) returns (step: Step)
    requires InvLive(corpus, e, s) && UsableOver(corpus, e) && |corpus| < MAX_SLOT
    requires k < |s.workers| && !s.workers[k].Exited?
    ensures Enabled(e, s, step)
  {
    match s.workers[k]
    case Idle => step := if s.queue == [] then Exit(k) else Take(k);
    case Busy(id, held) =>
      if held.Some? {
        step := Send(k);
      } else if s.todo[id] == {} {
        step := Finish(k);
      } else {
        var word :| word in s.todo[id];
        DrawnUsable(corpus, e, s, id, word);
        step := Draw(k, word);
      }
  }

  /** The next slot of a word is at most the number of its documents. */
  lemma DrawnUsable(corpus: Corpus, e: Sealer, s: State, id: nat, word: Word)
    requires InvLive(corpus, e, s) && UsableOver(corpus, e) && |corpus| < MAX_SLOT
    requires id in corpus && word in s.todo[id]
    ensures e.usable(DrawnEntry(s, id, word))
  {
    var ids := OrderOf(s, word);
    CountOf(corpus, s, word);
    forall i | 0 <= i < |ids| ensures ids[i] in Hits(corpus, word) - {id} {
      assert Drawn(s, word, ids[i]);
    }
    DistinctWithin(ids, Hits(corpus, word) - {id});
  }

  lemma TerminatorUsable(corpus: Corpus, e: Sealer, s: State, word: Word)
    requires InvLive(corpus, e, s) && UsableOver(corpus, e) && |corpus| < MAX_SLOT
    requires word in s.counter
    ensures e.usable(Terminator(s, word))
  {
    var ids := OrderOf(s, word);
    CountOf(corpus, s, word);
    forall i | 0 <= i < |ids| ensures ids[i] in Hits(corpus, word) {
      assert Drawn(s, word, ids[i]);
    }
    DistinctWithin(ids, Hits(corpus, word));
    assert s.counter[word].lastId == ids[|ids| - 1];
  }

  lemma CounterWords(corpus: Corpus, s: State)
    requires InvDocs(corpus, s) && InvCounter(s)
    ensures s.counter.Keys <= Vocabulary(corpus)
  {
    forall w | w in s.counter ensures w in Vocabulary(corpus) {
      OrderBounded(corpus, s, w);
    }
  }

  // ---------- a bound on the steps left ----------

  function Undrawn(s: State): set<(nat, Word)> {
    set id, w | id in s.todo && w in s.todo[id] :: (id, w)
  }

  function WorkerWork(): Worker -> nat {
    (w: Worker) => match w case Idle => 1 case Busy(_, held) => if held.None? then 2 else 4 case Exited => 0
  }

  function JanitorWork(corpus: Corpus, s: State): nat {
    match s.janitor
    case Waiting => 2 * |Vocabulary(corpus)| + 2
    case Sweeping(left) => 2 * |left| + 1
    case Finished => 0
  }

  function Measure(corpus: Corpus, s: State): nat {
    4 * |Undrawn(s)| + 3 * |s.queue| + SumBy(s.workers, WorkerWork()) + |s.inFlight| + JanitorWork(corpus, s)
  }

  lemma MeasureDecreases(corpus: Corpus, e: Sealer, s: State, step: Step)
    requires InvLive(corpus, e, s) && Enabled(e, s, step)
    ensures Measure(corpus, Apply(e, s, step)) < Measure(corpus, s)
  {
    match step
    case Draw(k, word) => DrawDecreases(corpus, e, s, k, word);
    case Take(_) => WorkerDecreases(corpus, e, s, step);
    case Send(_) => WorkerDecreases(corpus, e, s, step);
    case Finish(_) => WorkerDecreases(corpus, e, s, step);
    case Exit(_) => WorkerDecreases(corpus, e, s, step);
    case StartJanitor =>
      CounterWords(corpus, s);
      SubsetSize(s.counter.Keys, Vocabulary(corpus));
    case _ =>
  }

  lemma WorkerDecreases(corpus: Corpus, e: Sealer, s: State, step: Step)
    requires Enabled(e, s, step) && (step.Take? || step.Send? || step.Finish? || step.Exit?)
    ensures Measure(corpus, Apply(e, s, step)) < Measure(corpus, s)
  {
    assert Undrawn(Apply(e, s, step)) == Undrawn(s);
    SumUpdate(s.workers, step.k, Apply(e, s, step).workers[step.k], WorkerWork());
  }

  lemma DrawDecreases(corpus: Corpus, e: Sealer, s: State, k: nat, word: Word)
    requires InvLive(corpus, e, s) && Enabled(e, s, Draw(k, word))
    ensures Measure(corpus, Apply(e, s, Draw(k, word))) < Measure(corpus, s)
  {
    var id := s.workers[k].id;
    var s' := Apply(e, s, Draw(k, word));
    SumUpdate(s.workers, k, Busy(id, Some(DrawnEntry(s, id, word))), WorkerWork());
    assert (id, word) in Undrawn(s);
    assert Undrawn(s') == Undrawn(s) - {(id, word)};
  }

  lemma {:induction false} RunLength(corpus: Corpus, e: Sealer, s: State, steps: seq<Step>)
    requires InvLive(corpus, e, s) && ValidRun(e, s, steps) && |corpus| < MAX_SLOT
    ensures |steps| <= Measure(corpus, s)
    decreases |steps|
  {
    if steps != [] {
      KeepLive(corpus, e, s, steps[0]);
      MeasureDecreases(corpus, e, s, steps[0]);
      RunLength(corpus, e, Apply(e, s, steps[0]), steps[1..]);
    }
  }

  /** With a worker and usable entries every run of the build ends, and only in a complete state. */
  lemma Progress(corpus: Corpus, e: Sealer, s: State, steps: seq<Step>)
    requires Init(corpus, s) && ValidRun(e, s, steps) && s.workers != []
    requires UsableOver(corpus, e) && |corpus| < MAX_SLOT
    ensures |steps| <= Measure(corpus, s)
    ensures Complete(Exec(e, s, steps)) || exists step :: Enabled(e, Exec(e, s, steps), step)
  {
    RunLive(corpus, e, s, steps);
    RunLength(corpus, e, s, steps);
    if !Complete(Exec(e, s, steps)) {
      var step := NotStuck(corpus, e, Exec(e, s, steps));
    }
  }

  // ---------- which clients complete ----------

  predicate CanBlind(env: Env, w: Word, counter: nat) {
    env.modulus > 1 && Oxt.ModInverse(Z(env, w, counter), env.modulus).Some?
  }

  /** Every blinding value that a corpus calls for has an inverse: counters 0 to n for a word in n
      documents. */
  ghost predicate Blindable(env: Env, corpus: Corpus) {
    forall w, c: nat :: w in Vocabulary(corpus) && c <= |Hits(corpus, w)| ==> CanBlind(env, w, c)
  }

  lemma BlindableUsable(env: Env, corpus: Corpus)
    requires Blindable(env, corpus)
    ensures UsableOver(corpus, SealerOf(env))
  {
    forall en: Entry | en.docId in Hits(corpus, en.word) && 1 <= en.slot <= |Hits(corpus, en.word)| + 1
      ensures Usable(env, en)
    {
      assert CanBlind(env, en.word, en.slot - 1);
    }
  }

  ghost predicate Stuck(e: Sealer, s: State) {
    forall step :: !Enabled(e, s, step)
  }

  ghost predicate EndsComplete(e: Sealer, s: State, steps: seq<Step>) {
    ValidRun(e, s, steps) && Stuck(e, Exec(e, s, steps)) ==> Complete(Exec(e, s, steps))
  }

  /** Any run can be carried on until nothing can move. */
  lemma RunOut(corpus: Corpus, e: Sealer, s: State) returns (steps: seq<Step>)
    requires InvLive(corpus, e, s) && |corpus| < MAX_SLOT
    ensures ValidRun(e, s, steps) && Stuck(e, Exec(e, s, steps))
    decreases Measure(corpus, s)
  {
    if step :| Enabled(e, s, step) {
      KeepLive(corpus, e, s, step);
      MeasureDecreases(corpus, e, s, step);
      var rest := RunOut(corpus, e, Apply(e, s, step));
      steps := [step] + rest;
    } else {
      steps := [];
    }
  }

  /** A complete build has blinded every slot of every word. */
  lemma CompleteBlinds(corpus: Corpus, env: Env, s: State, w: Word, c: nat)
    requires Inv(corpus, SealerOf(env), s) && Complete(s) && w in Vocabulary(corpus) && c <= |Hits(corpus, w)|
    ensures CanBlind(env, w, c)
  {
    var en := SlotUsed(corpus, SealerOf(env), s, w, c);
    assert Usable(env, en);
  }

  lemma SlotUsed(corpus: Corpus, e: Sealer, s: State, w: Word, c: nat) returns (en: Entry)
    requires Inv(corpus, e, s) && Complete(s) && w in Vocabulary(corpus) && c <= |Hits(corpus, w)|
    ensures en.word == w && en.slot == c + 1 && e.usable(en)
  {
    CompleteState(corpus, e, s, w);
    var ids := OrderOf(s, w);
    ElementsSize(ids);
    var id :| id in corpus && w in corpus[id];
    assert id in Hits(corpus, w);
    en := if c < |ids| then Entry(w, c + 1, ids[c], false) else Entry(w, c + 1, ids[|ids| - 1], true);
    assert Genuine(s, en);
    assert Stored(e, s.db, en);
  }

  /** For every client and corpus: all runs of the build that cannot go on are complete exactly when
      the blinding values the corpus calls for have inverses. */
  lemma BuildCompletesIff(corpus: Corpus, env: Env, s: State)
    requires Init(corpus, s) && s.workers != [] && |corpus| < MAX_SLOT
    requires DistinctAddresses(env, Vocabulary(corpus), |corpus| + 1)
    ensures Blindable(env, corpus) <==> forall steps :: EndsComplete(SealerOf(env), s, steps)
  {
    var e := SealerOf(env);
    if Blindable(env, corpus) {
      BlindableUsable(env, corpus);
      forall steps ensures EndsComplete(e, s, steps) {
        if ValidRun(e, s, steps) {
          Progress(corpus, e, s, steps);
        }
      }
    }
    if forall steps :: EndsComplete(e, s, steps) {
      var steps := RunOut(corpus, e, s);
      assert EndsComplete(e, s, steps);
      IndexableFromAddresses(corpus, env, Vocabulary(corpus));
      InitInv(corpus, e, s);
      RunInv(corpus, e, s, steps);
      forall w, c: nat | w in Vocabulary(corpus) && c <= |Hits(corpus, w)| ensures CanBlind(env, w, c) {
        CompleteBlinds(corpus, env, Exec(e, s, steps), w, c);
      }
    }
  }

  /** Such a client reaches the state a search of any word starts from. */
  lemma BuildReached(corpus: Corpus, env: Env, s0: State, w: Word) returns (s: State)
    requires Init(corpus, s0) && s0.workers != [] && |corpus| < MAX_SLOT && Blindable(env, corpus)
    requires DistinctAddresses(env, Vocabulary(corpus) + {w}, |corpus| + 1)
    ensures Built(corpus, env, s, w)
  {
    var e := SealerOf(env);
    BlindableUsable(env, corpus);
    var steps := RunOut(corpus, e, s0);
    Progress(corpus, e, s0, steps);
    s := Exec(e, s0, steps);
    assert RunTo(corpus, e, s0, steps, s);
  }
}
