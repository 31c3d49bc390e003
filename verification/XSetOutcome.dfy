/** Exactly which corpora the X-Set pipeline gets through, whatever the interleaving. */
module XSetOutcome {
  import opened Bytes
  import opened XSetPipeline
  import opened XSetProofs

  ghost predicate CanMove(c: Config, s: State) {
    exists step :: Enabled(c, s, step)
  }

  /** The run, if it is one, has not crashed and stops only once the filter is uploaded. */
  ghost predicate GoodRun(c: Config, corpus: seq<Doc>, steps: seq<Step>) {
    ValidRun(c, Start(corpus), steps) ==>
      var s := Exec(c, Start(corpus), steps);
      !s.bloom.crashed && (Final(s) || CanMove(c, s))
  }

  /** No run crashes, and every run that cannot go on has uploaded the filter, if and only if there
      is a document and, unless it is the only one, none is without words. */
  lemma CompletesIff(c: Config, corpus: seq<Doc>)
    requires Total(corpus) < TWO32 && c.cap > 0
    ensures SignalsOnce(corpus) <==> forall steps :: GoodRun(c, corpus, steps)
  {
    if SignalsOnce(corpus) {
      forall steps ensures GoodRun(c, corpus, steps) {
        if ValidRun(c, Start(corpus), steps) {
          Progress(c, corpus, steps);
          ClosedIffComplete(c, corpus, steps);
        }
      }
    } else if |corpus| > 1 {
      var steps := Crashes(c, corpus);
      assert !GoodRun(c, corpus, steps);
    } else {
      var steps := StopsEarly(c, corpus);
      assert !GoodRun(c, corpus, steps);
    }
  }

  // ---------- no document ----------

  lemma RunOut(c: Config, s: State) returns (steps: seq<Step>)
    requires InvPending(s)
    ensures ValidRun(c, s, steps) && !CanMove(c, Exec(c, s, steps))
    decreases Measure(s)
  {
    if step :| Enabled(c, s, step) {
      MeasureDecreases(c, s, step);
      KeepPending(c, s, step);
      var rest := RunOut(c, Apply(c, s, step));
      steps := [step] + rest;
    } else {
      steps := [];
    }
  }

  lemma StopsEarly(c: Config, corpus: seq<Doc>) returns (steps: seq<Step>)
    requires |corpus| == 0
    ensures !GoodRun(c, corpus, steps)
  {
    var s := Start(corpus);
    assert s.uploaded.None?;
    assert Inv(c, corpus, s) by { InitInv(c, corpus); }
    steps := NeverUploads(c, corpus, s);
  }

  /** Without a document nothing is ever added, so nothing signals and the uploader waits forever. */
  lemma NeverUploads(c: Config, corpus: seq<Doc>, s: State) returns (steps: seq<Step>)
    requires |corpus| == 0 && Inv(c, corpus, s) && s.uploaded.None?
    ensures ValidRun(c, s, steps)
    ensures !CanMove(c, Exec(c, s, steps)) && !Final(Exec(c, s, steps))
  {
    steps := RunOut(c, s);
    StillWaiting(c, corpus, s, steps);
  }

  lemma {:induction false} StillWaiting(c: Config, corpus: seq<Doc>, s: State, steps: seq<Step>)
    requires |corpus| == 0 && Inv(c, corpus, s) && ValidRun(c, s, steps) && s.uploaded.None?
    ensures Exec(c, s, steps).uploaded.None?
    decreases |steps|
  {
    if steps != [] {
      NothingCloses(c, corpus, s);
      NoUpload(c, s, steps[0]);
      StepInv(c, corpus, s, steps[0]);
      StillWaiting(c, corpus, Apply(c, s, steps[0]), steps[1..]);
    }
  }

  lemma NothingCloses(c: Config, corpus: seq<Doc>, s: State)
    requires |corpus| == 0 && Inv(c, corpus, s)
    ensures s.bloom.closes == 0
  {
    HandledTotal(corpus, s);
    SafeState(c, corpus, s);
    assert s.handled == [];
  }

  lemma NoUpload(c: Config, s: State, step: Step)
    requires Enabled(c, s, step) && s.bloom.closes == 0 && s.uploaded.None?
    ensures Apply(c, s, step).uploaded.None?
  {
  }

  // ---------- an empty document among others ----------

  predicate HasEmpty(docs: seq<Doc>) {
    exists d :: d in docs && d.words == []
  }

  function Behind(s: State): seq<Doc> {
    Middle(s) + Feed(s)
  }

  function Passed(s: State): seq<Doc> {
    s.handled + Front(s)
  }

  /** An empty document is still behind, or it was the last to pass. */
  predicate EmptyComesLast(s: State) {
    HasEmpty(Behind(s)) || (Behind(s) == [] && Passed(s) != [] && Passed(s)[|Passed(s)| - 1].words == [])
  }

  lemma KeepEmptyLast(c: Config, s: State, step: Step)
    requires EmptyComesLast(s) && InvDone(s) && Enabled(c, s, step) && !step.Deliver?
    ensures EmptyComesLast(Apply(c, s, step))
  {
    FrontKept(c, s, step);
    BehindKept(c, s, step);
  }

  lemma BehindKept(c: Config, s: State, step: Step)
    requires InvDone(s) && Enabled(c, s, step) && !step.Deliver?
    ensures Behind(Apply(c, s, step)) == Behind(s)
  {
    var s' := Apply(c, s, step);
    var x := if step.SplitTake? then [s.invChan[0]] else [];
    FeedKept(c, s, step);
    MiddleKept(c, s, step);
    AcrossBoundary(Middle(s), x, Feed(s'), Middle(s'), Feed(s));
  }

  lemma AcrossBoundary(m: seq<Doc>, x: seq<Doc>, g': seq<Doc>, m': seq<Doc>, g: seq<Doc>)
    requires m' == m + x && g == x + g'
    ensures m' + g' == m + g
  {
  }

  /** Once every document is parked, the next sender can be chosen to leave an empty one for last. */
  lemma DeliverOther(c: Config, s: State) returns (step: Step)
    requires EmptyComesLast(s) && InvDone(s) && Enabled(c, s, Deliver(0))
    requires s.splitter.SplitDone? && s.worker.XDone?
    ensures Enabled(c, s, step) && EmptyComesLast(Apply(c, s, step))
  {
    AllParked(c, s);
    var i := SpareEmpty(s.senders);
    step := Deliver(i);
    LeavesEmptyLast(c, s, i);
  }

  lemma LeavesEmptyLast(c: Config, s: State, i: nat)
    requires InvDone(s) && s.splitter.SplitDone? && s.worker.XDone? && Enabled(c, s, Deliver(i))
    requires if |s.senders| == 1 then s.senders[i].words == [] else HasEmpty(s.senders[..i] + s.senders[i + 1..])
    ensures EmptyComesLast(Apply(c, s, Deliver(i)))
  {
    DeliverPasses(c, s, i);
    DeliverLeaves(c, s, i);
  }

  lemma AllParked(c: Config, s: State)
    requires InvDone(s) && s.splitter.SplitDone? && s.worker.XDone?
    ensures Behind(s) == s.senders
  {
  }

  lemma DeliverLeaves(c: Config, s: State, i: nat)
    requires InvDone(s) && s.splitter.SplitDone? && s.worker.XDone? && Enabled(c, s, Deliver(i))
    ensures Behind(Apply(c, s, Deliver(i))) == s.senders[..i] + s.senders[i + 1..]
  {
  }

  /** Some document can go while an empty one stays, or the only one, which is empty, can go. */
  lemma SpareEmpty(docs: seq<Doc>) returns (i: nat)
    requires HasEmpty(docs)
    ensures i < |docs|
    ensures if |docs| == 1 then docs[i].words == [] else HasEmpty(docs[..i] + docs[i + 1..])
  {
    var d :| d in docs && d.words == [];
    var e :| 0 <= e < |docs| && docs[e] == d;
    i := if e == 0 && |docs| > 1 then 1 else 0;
    if |docs| > 1 {
      assert d == (docs[..i] + docs[i + 1..])[if e < i then e else e - 1];
    }
  }

  lemma DeliverPasses(c: Config, s: State, i: nat)
    requires Enabled(c, s, Deliver(i))
    ensures Passed(Apply(c, s, Deliver(i))) == Passed(s) + [s.senders[i]]
  {
    DeliverMoves(c, s, i);
  }

  lemma NextStep(c: Config, corpus: seq<Doc>, s: State) returns (step: Step)
    requires Inv(c, corpus, s) && c.cap > 0 && !s.bloom.crashed && Upstream(s) != [] && EmptyComesLast(s)
    ensures Enabled(c, s, step) && EmptyComesLast(Apply(c, s, step))
  {
    FinalHasPassed(s);
    step := NotStuck(c, corpus, s);
    if step.Deliver? {
      assert Enabled(c, s, Deliver(0));
      step := DeliverOther(c, s);
    } else {
      KeepEmptyLast(c, s, step);
    }
  }

  lemma FinalHasPassed(s: State)
    requires InvDone(s)
    ensures Final(s) ==> Upstream(s) == []
  {
  }

  /** The run that keeps choosing so ends with every document handled, or in a crash before. */
  lemma EmptyLastRun(c: Config, corpus: seq<Doc>, s: State) returns (steps: seq<Step>)
    requires Inv(c, corpus, s) && c.cap > 0 && EmptyComesLast(s)
    ensures ValidRun(c, s, steps)
    ensures var s' := Exec(c, s, steps);
            Inv(c, corpus, s') && EmptyComesLast(s') && (s'.bloom.crashed || Upstream(s') == [])
    decreases Measure(s)
  {
    if s.bloom.crashed || Upstream(s) == [] {
      steps := [];
    } else {
      var step := NextStep(c, corpus, s);
      var s' := Apply(c, s, step);
      assert Inv(c, corpus, s') by { StepInv(c, corpus, s, step); }
      assert Measure(s') < Measure(s) by { MeasureDecreases(c, s, step); }
      var rest := EmptyLastRun(c, corpus, s');
      steps := [step] + rest;
    }
  }

  /** With an empty document handled last the filter signals again, and the second close crashes. */
  lemma Crashes(c: Config, corpus: seq<Doc>) returns (steps: seq<Step>)
    requires Total(corpus) < TWO32 && c.cap > 0 && |corpus| > 1 && !SignalsOnce(corpus)
    ensures ValidRun(c, Start(corpus), steps) && Exec(c, Start(corpus), steps).bloom.crashed
  {
    InitInv(c, corpus);
    var i :| 0 <= i < |corpus| && corpus[i].words == [];
    assert Behind(Start(corpus)) == corpus;
    steps := EmptyLastRun(c, corpus, Start(corpus));
    LastEmptyCrashes(c, corpus, Exec(c, Start(corpus), steps));
  }

  lemma LastEmptyCrashes(c: Config, corpus: seq<Doc>, s: State)
    requires Inv(c, corpus, s) && EmptyComesLast(s) && (s.bloom.crashed || Upstream(s) == [])
    requires Total(corpus) < TWO32 && |corpus| > 1
    ensures s.bloom.crashed
  {
    if Upstream(s) == [] {
      SafeState(c, corpus, s);
      HandledTotal(corpus, s);
      assert Passed(s) == s.handled;
      SignalsExact(s.handled);
    }
  }
}
