/** With one mapper, every run of the map-reduce computes what a sequential count would. */
module MapReduceProofs {
  import opened TSet
  import opened TermFrequency
  import opened Collections
  import opened MapReduce

  // ---------- start ----------

  lemma InitInv(c: Config, corpus: seq<seq<Word>>)
    requires c.n > 0
    ensures Inv(c, corpus, Start(c, 1, corpus))
  {
    StartShape(c, corpus);
    forall w ensures Located(c, Start(c, 1, corpus), w) == CorpusCount(corpus, w) {
      StartCount(c, corpus, w);
    }
    StartTokens(c, corpus);
    AllUnreported(Start(c, 1, corpus).reducers);
  }

  lemma StartShape(c: Config, corpus: seq<seq<Word>>)
    requires c.n > 0
    ensures InvShape(c, Start(c, 1, corpus)) && InvShutdown(Start(c, 1, corpus))
  {
  }

  lemma StartTokens(c: Config, corpus: seq<seq<Word>>)
    requires c.n > 0
    ensures |Start(c, 1, corpus).shufflers| == c.n && InvTokens(Start(c, 1, corpus))
  {
    SumZero(Start(c, 1, corpus).shufflers, HoldsToken());
  }

  lemma StartCount(c: Config, corpus: seq<seq<Word>>, w: Word)
    requires c.n > 0
    ensures Located(c, Start(c, 1, corpus), w) == CorpusCount(corpus, w)
  {
    var s := Start(c, 1, corpus);
    SumZero(s.mappers, HeldBy(w));
    SumZero(s.shufflers, InFlight(w));
  }

  lemma {:induction false} AllUnreported(reducers: seq<Reducer>)
    requires forall r :: 0 <= r < |reducers| ==> !reducers[r].Reported?
    ensures SumBy(reducers, Unreported()) == |reducers| && ReportedSizes(reducers) == NO_SIZES
  {
    if reducers != [] {
      AllUnreported(reducers[..|reducers| - 1]);
    }
  }

  // ---------- shape ----------

  lemma CountsPositive(tokens: seq<Word>)
    ensures Positive(WordCount(tokens))
  {
    forall w | w in WordCount(tokens) ensures WordCount(tokens)[w] > 0 {
      WordCountPositive(tokens, w);
    }
  }

  lemma KeepShape(c: Config, s: State, step: Step)
    requires InvShape(c, s) && Enabled(c, s, step)
    ensures InvShape(c, Apply(c, s, step))
  {
    if step.MapTake? {
      CountsPositive(s.docs[0]);
    } else if step.ShufSend? {
      SendShape(c, s, step.j, step.w);
    } else {
      QuietShape(c, s, step);
    }
  }

  lemma SendShape(c: Config, s: State, j: nat, w: Word)
    requires InvShape(c, s) && Enabled(c, s, ShufSend(j, w))
    ensures InvShape(c, Apply(c, s, ShufSend(j, w)))
  {
  }

  lemma QuietShape(c: Config, s: State, step: Step)
    requires InvShape(c, s) && Enabled(c, s, step) && !step.MapTake? && !step.ShufSend?
    ensures InvShape(c, Apply(c, s, step))
  {
  }

  // ---------- conservation ----------

  lemma KeepCounts(c: Config, corpus: seq<seq<Word>>, s: State, step: Step)
    requires InvShape(c, s) && InvCounts(c, corpus, s) && Enabled(c, s, step)
    ensures InvShape(c, Apply(c, s, step)) && InvCounts(c, corpus, Apply(c, s, step))
  {
    KeepShape(c, s, step);
    forall w ensures Located(c, Apply(c, s, step), w) == CorpusCount(corpus, w) {
      KeepWord(c, s, step, w);
      assert Located(c, s, w) == CorpusCount(corpus, w);
    }
  }

  predicate MapperStep(step: Step) {
    step.MapTake? || step.MapSend? || step.MapExit?
  }

  /** No step makes or loses an occurrence of a word. */
  lemma KeepWord(c: Config, s: State, step: Step, w: Word)
    requires InvShape(c, s) && Enabled(c, s, step)
    ensures |Apply(c, s, step).reducers| == c.n && Located(c, Apply(c, s, step), w) == Located(c, s, w)
  {
    if MapperStep(step) {
      KeepWordMapper(c, s, step, w);
    } else if step.ShufSend? {
      SumUpdate(s.shufflers, step.j, ShufSends(s.shufflers[step.j].m - {step.w}), InFlight(w));
    } else {
      KeepWordShuffler(c, s, step, w);
    }
  }

  lemma KeepWordMapper(c: Config, s: State, step: Step, w: Word)
    requires InvShape(c, s) && Enabled(c, s, step) && MapperStep(step)
    ensures Located(c, Apply(c, s, step), w) == Located(c, s, w)
  {
    match step
    case MapTake(k) =>
      WordCountAppend(s.docs[0], Flatten(s.docs[1..]), w);
      SumUpdate(s.mappers, k, MapHolds(WordCount(s.docs[0])), HeldBy(w));
    case MapSend(k, j) =>
      SumUpdate(s.mappers, k, MapIdle, HeldBy(w));
      SumUpdate(s.shufflers, j, ShufSends(s.mappers[k].m), InFlight(w));
    case MapExit(k) =>
      SumUpdate(s.mappers, k, MapExited, HeldBy(w));
  }

  lemma KeepWordShuffler(c: Config, s: State, step: Step, w: Word)
    requires InvShape(c, s) && Enabled(c, s, step) && !MapperStep(step) && !step.ShufSend?
    ensures |Apply(c, s, step).reducers| == c.n && Located(c, Apply(c, s, step), w) == Located(c, s, w)
  {
    match step
    case Launch => SumUpdate(s.shufflers, s.pushed - 1, ShufIdle, InFlight(w));
    case ShufDone(j) => SumUpdate(s.shufflers, j, ShufIdle, InFlight(w));
    case ShufLeave(j) => SumUpdate(s.shufflers, j, Leaving, InFlight(w));
    case Pop(j) => SumUpdate(s.shufflers, j, Popped, InFlight(w));
    case Check(j) => SumUpdate(s.shufflers, j, Gone, InFlight(w));
    case _ =>
  }

  // ---------- tokens and shutdown ----------

  lemma KeepTokens(c: Config, s: State, step: Step)
    requires InvShape(c, s) && InvTokens(s) && Enabled(c, s, step)
    ensures Apply(c, s, step).pushed <= |Apply(c, s, step).shufflers| && InvTokens(Apply(c, s, step))
  {
    KeepBorn(c, s, step);
    KeepLaunching(c, s, step);
    TokenChange(c, s, step);
  }

  lemma KeepBorn(c: Config, s: State, step: Step)
    requires InvShape(c, s) && InvBorn(s) && Enabled(c, s, step)
    ensures Apply(c, s, step).pushed <= |Apply(c, s, step).shufflers| && InvBorn(Apply(c, s, step))
  {
  }

  lemma KeepLaunching(c: Config, s: State, step: Step)
    requires InvShape(c, s) && InvBorn(s) && Enabled(c, s, step)
    ensures Launching(Apply(c, s, step)) <==> step.PushToken? || (Launching(s) && !step.Launch?)
  {
  }

  /** Pushing and popping are the only changes to the number of shufflers holding a token. */
  lemma TokenChange(c: Config, s: State, step: Step)
    requires Enabled(c, s, step)
    ensures SumBy(Apply(c, s, step).shufflers, HoldsToken()) + (if step.Pop? then 1 else 0)
         == SumBy(s.shufflers, HoldsToken()) + (if step.Launch? then 1 else 0)
  {
    match step
    case MapSend(k, j) => SumUpdate(s.shufflers, j, ShufSends(s.mappers[k].m), HoldsToken());
    case ShufSend(j, v) => SumUpdate(s.shufflers, j, ShufSends(s.shufflers[j].m - {v}), HoldsToken());
    case Launch => TokenMoves(c, s, step);
    case ShufDone(j) => TokenMoves(c, s, step);
    case ShufLeave(j) => TokenMoves(c, s, step);
    case Pop(j) => TokenMoves(c, s, step);
    case Check(j) => TokenMoves(c, s, step);
    case _ =>
  }

  lemma TokenMoves(c: Config, s: State, step: Step)
    requires Enabled(c, s, step)
    requires step.Launch? || step.ShufDone? || step.ShufLeave? || step.Pop? || step.Check?
    ensures SumBy(Apply(c, s, step).shufflers, HoldsToken()) + (if step.Pop? then 1 else 0)
         == SumBy(s.shufflers, HoldsToken()) + (if step.Launch? then 1 else 0)
  {
    match step
    case Launch => SumUpdate(s.shufflers, s.pushed - 1, ShufIdle, HoldsToken());
    case ShufDone(j) => SumUpdate(s.shufflers, j, ShufIdle, HoldsToken());
    case ShufLeave(j) => SumUpdate(s.shufflers, j, Leaving, HoldsToken());
    case Pop(j) => SumUpdate(s.shufflers, j, Popped, HoldsToken());
    case Check(j) => SumUpdate(s.shufflers, j, Gone, HoldsToken());
  }

  /** An empty token channel means nobody is sending, even while shufflers are still being added. */
  lemma EmptyMeansQuiet(s: State)
    requires s.pushed <= |s.shufflers| && InvTokens(s) && s.tokens == 0
    ensures forall j :: 0 <= j < |s.shufflers| ==> HoldsToken()(s.shufflers[j]) == 0
  {
    SumZero(s.shufflers, HoldsToken());
  }

  lemma KeepShutdown(c: Config, s: State, step: Step)
    requires InvShape(c, s) && InvTokens(s) && InvShutdown(s) && Enabled(c, s, step)
    ensures InvShutdown(Apply(c, s, step))
  {
    if step.Check? && s.tokens == 0 {
      EmptyMeansQuiet(s);
    }
  }

  lemma KeepLast(c: Config, s: State, step: Step)
    requires InvShape(c, s) && InvTokens(s) && InvLast(s) && Enabled(c, s, step)
    ensures Apply(c, s, step).pushed <= |Apply(c, s, step).shufflers| && InvLast(Apply(c, s, step))
  {
    var s' := Apply(c, s, step);
    if s'.pushed == |s'.shufflers| && s'.tokens == 0 && !Launching(s') && s'.pushed > 0 && !s'.quit {
      if step.Pop? {
        assert s'.shufflers[step.j].Popped?;
      } else {
        KeepTokens(c, s, step);
        EmptyMeansQuiet(s');
        assert !Launching(s) && s.tokens == 0;
        var j :| 0 <= j < |s.shufflers| && s.shufflers[j].Popped?;
        assert s'.shufflers[j].Popped?;
      }
    }
  }

  // ---------- reports ----------

  lemma PlusSwap(a: Sizes, b: Sizes, c: Sizes)
    ensures Plus(Plus(a, b), c) == Plus(Plus(a, c), b)
    ensures Plus(a, NO_SIZES) == a
  {
  }

  lemma ReportedSnoc(front: seq<Reducer>, last: Reducer)
    ensures ReportedSizes(front + [last]) == Plus(ReportedSizes(front), ReportOf(last))
  {
    assert (front + [last])[..|front|] == front;
  }

  lemma {:induction false} ReportOne(reducers: seq<Reducer>, r: nat, next: Reducer)
    requires r < |reducers| && ReportOf(reducers[r]) == NO_SIZES
    ensures ReportedSizes(reducers[r := next]) == Plus(ReportedSizes(reducers), ReportOf(next))
    decreases |reducers|
  {
    var n := |reducers| - 1;
    var front, last := reducers[..n], reducers[n];
    assert reducers == front + [last];
    ReportedSnoc(front, last);
    if r < n {
      assert reducers[r := next] == front[r := next] + [last];
      ReportOne(front, r, next);
      ReportedSnoc(front[r := next], last);
      PlusSwap(ReportedSizes(front), ReportOf(next), ReportOf(last));
    } else {
      assert reducers[r := next] == front + [next];
      ReportedSnoc(front, next);
      PlusSwap(ReportedSizes(front), NO_SIZES, NO_SIZES);
    }
  }

  lemma KeepReports(c: Config, s: State, step: Step)
    requires InvReports(s) && Enabled(c, s, step)
    ensures InvReports(Apply(c, s, step))
  {
    match step
    case ShufSend(j, w) => ReducerMoves(c, s, step, Owner(c, w));
    case RedQuit(r) => ReducerMoves(c, s, step, r);
    case RedReport(r) => ReducerMoves(c, s, step, r);
    case _ =>
  }

  lemma ReducerMoves(c: Config, s: State, step: Step, r: nat)
    requires InvReports(s) && Enabled(c, s, step) && (step.ShufSend? || step.RedQuit? || step.RedReport?)
    requires r == if step.ShufSend? then Owner(c, step.w) else step.r
    ensures InvReports(Apply(c, s, step))
  {
    var next := Apply(c, s, step).reducers[r];
    SumUpdate(s.reducers, r, next, Unreported());
    ReportOne(s.reducers, r, next);
    SumAtLeast(s.reducers, r, Unreported());
  }

  // ---------- whole runs ----------

  lemma StepInv(c: Config, corpus: seq<seq<Word>>, s: State, step: Step)
    requires Inv(c, corpus, s) && Enabled(c, s, step)
    ensures Inv(c, corpus, Apply(c, s, step))
  {
    KeepCounts(c, corpus, s, step);
    KeepTokens(c, s, step);
    KeepShutdown(c, s, step);
    KeepReports(c, s, step);
    KeepLast(c, s, step);
  }

  lemma {:induction false} RunInv(c: Config, corpus: seq<seq<Word>>, s: State, steps: seq<Step>)
    requires Inv(c, corpus, s) && ValidRun(c, s, steps)
    ensures Inv(c, corpus, Exec(c, s, steps))
    decreases |steps|
  {
    if steps != [] {
      StepInv(c, corpus, s, steps[0]);
      RunInv(c, corpus, Apply(c, s, steps[0]), steps[1..]);
    }
  }

  // ---------- shutdown safety ----------

  /** A state with reducerQuit closed has nothing unread, held or in flight, so every reducer
      already has its whole share of the corpus. */
  lemma QuitMeansComplete(c: Config, corpus: seq<seq<Word>>, s: State, r: nat)
    requires Inv(c, corpus, s) && s.quit && r < c.n
    ensures s.docs == [] && s.mappers[0].MapExited?
    ensures s.reducers[r].sub == Share(c, corpus, r)
  {
    var sub := s.reducers[r].sub;
    forall w ensures w in sub <==> w in Share(c, corpus, r)
             ensures w in sub ==> sub[w] == Share(c, corpus, r)[w]
    {
      QuitCount(c, corpus, s, w);
      WordCountPositive(Flatten(corpus), w);
    }
  }

  lemma QuitCount(c: Config, corpus: seq<seq<Word>>, s: State, w: Word)
    requires Inv(c, corpus, s) && s.quit
    ensures CountIn(s.reducers[Owner(c, w)].sub, w) == CorpusCount(corpus, w)
  {
    SumZero(s.mappers, HeldBy(w));
    SumZero(s.shufflers, InFlight(w));
    assert Located(c, s, w) == CorpusCount(corpus, w);
  }

  /** Shutdown safety: in every run, no reducer leaves its loop before its subset is complete, and
      nothing is sent on the closed TermFreq. */
  lemma ShutdownSafety(c: Config, corpus: seq<seq<Word>>, steps: seq<Step>, r: nat)
    requires ValidRun(c, Start(c, 1, corpus), steps) && r < c.n
    ensures var s := Exec(c, Start(c, 1, corpus), steps);
            && !s.sentOnClosed && r < |s.reducers|
            && (s.quit ==> s.docs == [] && forall j :: 0 <= j < |s.shufflers| ==> !s.shufflers[j].ShufSends?)
            && (!s.reducers[r].Running? ==> s.quit && s.reducers[r].sub == Share(c, corpus, r))
  {
    var s := Exec(c, Start(c, 1, corpus), steps);
    InitInv(c, corpus);
    RunInv(c, corpus, Start(c, 1, corpus), steps);
    if s.quit {
      QuitMeansComplete(c, corpus, s, r);
    }
  }

  // ---------- refinement of the sequential count ----------

  /** The part of the count owned by the first `k` reducers. */
  function Shares(c: Config, corpus: seq<seq<Word>>, k: nat): Counts
    requires c.n > 0
  {
    var total := WordCount(Flatten(corpus));
    map w | w in total && Owner(c, w) < k :: total[w]
  }

  lemma SharesStep(c: Config, corpus: seq<seq<Word>>, k: nat)
    requires c.n > 0
    ensures Shares(c, corpus, k).Keys !! Share(c, corpus, k).Keys
    ensures Shares(c, corpus, k + 1) == Shares(c, corpus, k) + Share(c, corpus, k)
  {
  }

  lemma {:induction false} ReportsAddUp(c: Config, corpus: seq<seq<Word>>, reducers: seq<Reducer>)
    requires c.n > 0
    requires forall r :: 0 <= r < |reducers| ==> reducers[r] == Reported(Share(c, corpus, r))
    ensures ReportedSizes(reducers) == BucketSizes(Shares(c, corpus, |reducers|))
  {
    if reducers == [] {
      assert Shares(c, corpus, 0) == map[];
    } else {
      var n: nat := |reducers| - 1;
      ReportsAddUp(c, corpus, reducers[..n]);
      SharesStep(c, corpus, n);
      AddMaps(Shares(c, corpus, n), Share(c, corpus, n));
    }
  }

  /** The map-reduce refinement: in every run of one mapper, whatever the hash and the interleaving,
      the sizes handed to InitFreqBuckets are those of a sequential count of the whole corpus. */
  lemma SizesAreSequential(c: Config, corpus: seq<seq<Word>>, steps: seq<Step>)
    requires c.n > 0 && ValidRun(c, Start(c, 1, corpus), steps)
    ensures var s := Exec(c, Start(c, 1, corpus), steps);
            s.result.Some? ==> s.result.value == BucketSizes(WordCount(Flatten(corpus)))
    ensures var s, tokens := Exec(c, Start(c, 1, corpus), steps), Flatten(corpus);
            s.result.Some? ==>
              && s.result.value.ltHundred == |set w | w in tokens && multiset(tokens)[w] < 100|
              && s.result.value.ltOneK == |set w | w in tokens && 100 < multiset(tokens)[w] < 1000|
              && s.result.value.ltTenK == |set w | w in tokens && 1000 < multiset(tokens)[w] < 10000|
              && s.result.value.ltHundredK == |set w | w in tokens && 10000 < multiset(tokens)[w] < 100000|
  {
    SequentialSizes(Flatten(corpus));
    var s := Exec(c, Start(c, 1, corpus), steps);
    InitInv(c, corpus);
    RunInv(c, corpus, Start(c, 1, corpus), steps);
    if s.result.Some? {
      AllReported(c, corpus, s);
      ReportsAddUp(c, corpus, s.reducers);
      assert Shares(c, corpus, c.n) == WordCount(Flatten(corpus));
    }
  }

  lemma AllReported(c: Config, corpus: seq<seq<Word>>, s: State)
    requires Inv(c, corpus, s) && s.sem == 0
    ensures |s.reducers| == c.n && s.acc == ReportedSizes(s.reducers)
    ensures forall r :: 0 <= r < |s.reducers| ==> s.reducers[r] == Reported(Share(c, corpus, r))
  {
    SumZero(s.reducers, Unreported());
    forall r | 0 <= r < |s.reducers| ensures s.reducers[r] == Reported(Share(c, corpus, r)) {
      assert Unreported()(s.reducers[r]) == 0;
      QuitMeansComplete(c, corpus, s, r);
    }
  }

  lemma {:induction false} ReportsSummed(reducers: seq<Reducer>)
    ensures ReportedSizes(reducers) == SumSizes(Reports(reducers))
  {
    if reducers != [] {
      var n := |reducers| - 1;
      ReportsSummed(reducers[..n]);
      assert Reports(reducers)[..n] == Reports(reducers[..n]);
    }
  }

  function Reports(reducers: seq<Reducer>): seq<Sizes> {
    seq(|reducers|, r requires 0 <= r < |reducers| => ReportOf(reducers[r]))
  }

  /** In whatever order the reducers' reports arrive, the initializer's sum is the sequential one. */
  lemma InitializerAnyOrder(c: Config, corpus: seq<seq<Word>>, steps: seq<Step>, reports: seq<Sizes>)
    requires c.n > 0 && ValidRun(c, Start(c, 1, corpus), steps) && Exec(c, Start(c, 1, corpus), steps).sem == 0
    requires multiset(reports) == multiset(Reports(Exec(c, Start(c, 1, corpus), steps).reducers))
    ensures SumSizes(reports) == BucketSizes(WordCount(Flatten(corpus)))
  {
    var s := Exec(c, Start(c, 1, corpus), steps);
    InitInv(c, corpus);
    RunInv(c, corpus, Start(c, 1, corpus), steps);
    SumSizesAnyOrder(reports, Reports(s.reducers));
    ReportsSummed(s.reducers);
    AllReported(c, corpus, s);
    ReportsAddUp(c, corpus, s.reducers);
    assert Shares(c, corpus, c.n) == WordCount(Flatten(corpus));
  }

  // ---------- progress ----------

  /** Until the buckets are initialised, some goroutine can move. */
  lemma NotStuck(c: Config, corpus: seq<seq<Word>>, s: State) returns (step: Step)
    requires Inv(c, corpus, s) && s.result.None?
    ensures Enabled(c, s, step)
  {
    if Launching(s) {
      step := Launch;
    } else if s.pushed < |s.shufflers| {
      TokensBounded(s);
      step := PushToken;
    } else if s.mappers[0].MapIdle? {
      step := if s.docs == [] then MapExit(0) else MapTake(0);
    } else if !s.quit {
      step := NotStuckShufflers(c, corpus, s);
    } else if exists r :: 0 <= r < |s.reducers| && s.reducers[r].Running? {
      var r :| 0 <= r < |s.reducers| && s.reducers[r].Running?;
      step := RedQuit(r);
    } else if exists r :: 0 <= r < |s.reducers| && s.reducers[r].Quitting? {
      var r :| 0 <= r < |s.reducers| && s.reducers[r].Quitting?;
      SumAtLeast(s.reducers, r, Unreported());
      step := RedReport(r);
    } else {
      SumZero(s.reducers, Unreported());
      step := InitBuckets;
    }
  }

  lemma NotStuckShufflers(c: Config, corpus: seq<seq<Word>>, s: State) returns (step: Step)
    requires Inv(c, corpus, s) && !s.quit && !Launching(s) && s.pushed == |s.shufflers| && !s.mappers[0].MapIdle?
    ensures Enabled(c, s, step)
  {
    var j := Waiting(c, corpus, s);
    match s.shufflers[j]
    case ShufIdle => step := if s.closed then ShufLeave(j) else MapSend(0, j);
    case ShufSends(m) =>
      if m == map[] {
        step := ShufDone(j);
      } else {
        var w :| w in m;
        step := ShufSend(j, w);
      }
    case Leaving =>
      SumAtLeast(s.shufflers, j, HoldsToken());
      step := Pop(j);
    case Popped => step := Check(j);
    case _ => assert false;
  }

  /** Somebody is left to look at the token channel as long as reducerQuit is open. */
  lemma Waiting(c: Config, corpus: seq<seq<Word>>, s: State) returns (j: nat)
    requires Inv(c, corpus, s) && !s.quit && !Launching(s) && s.pushed == |s.shufflers|
    ensures j < |s.shufflers| && !s.shufflers[j].Unborn? && !s.shufflers[j].Gone?
  {
    if s.tokens == 0 {
      j :| 0 <= j < |s.shufflers| && s.shufflers[j].Popped?;
    } else {
      SumZero(s.shufflers, HoldsToken());
      j :| 0 <= j < |s.shufflers| && HoldsToken()(s.shufflers[j]) != 0;
    }
  }

  lemma TokensBounded(s: State)
    requires s.pushed <= |s.shufflers| && InvTokens(s) && !Launching(s)
    ensures s.tokens <= s.pushed
  {
    SumOfPrefix(s.shufflers, s.pushed);
  }

  lemma {:induction false} SumOfPrefix(shufflers: seq<Shuffler>, p: nat)
    requires p <= |shufflers| && forall j :: p <= j < |shufflers| ==> shufflers[j].Unborn?
    ensures SumBy(shufflers, HoldsToken()) <= p
  {
    if shufflers != [] {
      var n := |shufflers| - 1;
      SumOfPrefix(shufflers[..n], if p <= n then p else n);
    }
  }

  lemma MeasureDecreases(c: Config, s: State, step: Step)
    requires InvShape(c, s) && Enabled(c, s, step)
    ensures Apply(c, s, step).pushed <= |Apply(c, s, step).shufflers|
    ensures Measure(Apply(c, s, step)) < Measure(s)
  {
    if MapperStep(step) {
      MapperDecreases(c, s, step);
    } else if step.ShufSend? {
      SendDecreases(c, s, step.j, step.w);
    } else {
      OtherDecreases(c, s, step);
    }
  }

  lemma MapperDecreases(c: Config, s: State, step: Step)
    requires InvShape(c, s) && Enabled(c, s, step) && MapperStep(step)
    ensures Measure(Apply(c, s, step)) < Measure(s)
  {
    match step
    case MapTake(k) =>
      SumFront(s.docs, DocWork());
      SumUpdate(s.mappers, k, MapHolds(WordCount(s.docs[0])), MapperWork());
    case MapSend(k, j) =>
      SumUpdate(s.mappers, k, MapIdle, MapperWork());
      SumUpdate(s.shufflers, j, ShufSends(s.mappers[k].m), ShufflerWork());
    case MapExit(k) =>
      SumUpdate(s.mappers, k, MapExited, MapperWork());
  }

  lemma SendDecreases(c: Config, s: State, j: nat, w: Word)
    requires InvShape(c, s) && Enabled(c, s, ShufSend(j, w))
    ensures Measure(Apply(c, s, ShufSend(j, w))) < Measure(s)
  {
    var m := s.shufflers[j].m;
    var r := Owner(c, w);
    assert (m - {w}).Keys == m.Keys - {w};
    SumUpdate(s.shufflers, j, ShufSends(m - {w}), ShufflerWork());
    SumUpdate(s.reducers, r, Running(Merge(s.reducers[r].sub, w, m[w])), ReducerWork());
  }

  lemma OtherDecreases(c: Config, s: State, step: Step)
    requires InvShape(c, s) && Enabled(c, s, step) && !MapperStep(step) && !step.ShufSend?
    ensures Apply(c, s, step).pushed <= |Apply(c, s, step).shufflers|
    ensures Measure(Apply(c, s, step)) < Measure(s)
  {
    match step
    case RedQuit(r) => SumUpdate(s.reducers, r, Quitting(s.reducers[r].sub), ReducerWork());
    case RedReport(r) => SumUpdate(s.reducers, r, Reported(s.reducers[r].sub), ReducerWork());
    case PushToken =>
    case InitBuckets =>
    case MapSendClosed(_) =>
    case _ => ShufflerDecreases(c, s, step);
  }

  lemma ShufflerDecreases(c: Config, s: State, step: Step)
    requires InvShape(c, s) && Enabled(c, s, step)
    requires step.Launch? || step.ShufDone? || step.ShufLeave? || step.Pop? || step.Check?
    ensures Measure(Apply(c, s, step)) < Measure(s)
  {
    match step
    case Launch => SumUpdate(s.shufflers, s.pushed - 1, ShufIdle, ShufflerWork());
    case ShufDone(j) => SumUpdate(s.shufflers, j, ShufIdle, ShufflerWork());
    case ShufLeave(j) => SumUpdate(s.shufflers, j, Leaving, ShufflerWork());
    case Pop(j) => SumUpdate(s.shufflers, j, Popped, ShufflerWork());
    case Check(j) => SumUpdate(s.shufflers, j, Gone, ShufflerWork());
  }

  lemma {:induction false} RunLength(c: Config, s: State, steps: seq<Step>)
    requires InvShape(c, s) && ValidRun(c, s, steps)
    ensures |steps| <= Measure(s)
    decreases |steps|
  {
    if steps != [] {
      KeepShape(c, s, steps[0]);
      MeasureDecreases(c, s, steps[0]);
      RunLength(c, Apply(c, s, steps[0]), steps[1..]);
    }
  }

  /** Every run ends, and only with the buckets initialised. */
  lemma Progress(c: Config, corpus: seq<seq<Word>>, steps: seq<Step>)
    requires c.n > 0 && ValidRun(c, Start(c, 1, corpus), steps)
    ensures |steps| <= Measure(Start(c, 1, corpus))
    ensures var s := Exec(c, Start(c, 1, corpus), steps);
            s.result.Some? || exists step :: Enabled(c, s, step)
  {
    var s := Exec(c, Start(c, 1, corpus), steps);
    InitInv(c, corpus);
    RunInv(c, corpus, Start(c, 1, corpus), steps);
    RunLength(c, Start(c, 1, corpus), steps);
    if s.result.None? {
      var step := NotStuck(c, corpus, s);
    }
  }

  // ---------- more than one mapper ----------

  /** TermFreq is closed by the first mapper to exit, so the runs of `mappers` mappers never send on
      it afterwards exactly when there is at most one. */
  lemma OneMapperIff(c: Config, mappers: nat)
    requires c.n > 0
    ensures mappers <= 1
       <==> forall corpus, steps :: ValidRun(c, Start(c, mappers, corpus), steps)
                                    ==> !Exec(c, Start(c, mappers, corpus), steps).sentOnClosed
  {
    if mappers <= 1 {
      forall corpus, steps | ValidRun(c, Start(c, mappers, corpus), steps)
        ensures !Exec(c, Start(c, mappers, corpus), steps).sentOnClosed
      {
        if mappers == 1 {
          ShutdownSafety(c, corpus, steps, 0);
        } else {
          NoMapper(c, Start(c, 0, corpus), steps);
        }
      }
    } else {
      var corpus: seq<seq<Word>> := [[]];
      var steps := [MapTake(0), MapExit(1), MapSendClosed(0)];
      TwoMappers(c, mappers, corpus, steps);
    }
  }

  lemma {:induction false} NoMapper(c: Config, s: State, steps: seq<Step>)
    requires s.mappers == [] && !s.sentOnClosed && ValidRun(c, s, steps)
    ensures !Exec(c, s, steps).sentOnClosed
    decreases |steps|
  {
    if steps != [] {
      NoMapper(c, Apply(c, s, steps[0]), steps[1..]);
    }
  }

  lemma TwoMappers(c: Config, mappers: nat, corpus: seq<seq<Word>>, steps: seq<Step>)
    requires mappers > 1 && corpus == [[]] && steps == [MapTake(0), MapExit(1), MapSendClosed(0)]
    ensures ValidRun(c, Start(c, mappers, corpus), steps)
    ensures Exec(c, Start(c, mappers, corpus), steps).sentOnClosed
  {
    var s0 := Start(c, mappers, corpus);
    var s1 := Apply(c, s0, steps[0]);
    var s2 := Apply(c, s1, steps[1]);
    var s3 := Apply(c, s2, steps[2]);
    assert steps[1..] == [MapExit(1), MapSendClosed(0)];
    assert steps[1..][1..] == [MapSendClosed(0)];
    assert steps[1..][1..][1..] == [];
    assert ValidRun(c, s3, []) && Exec(c, s3, []) == s3;
    assert ValidRun(c, s2, [MapSendClosed(0)]) && Exec(c, s2, [MapSendClosed(0)]) == s3;
    assert ValidRun(c, s1, [MapExit(1), MapSendClosed(0)]);
  }
}
