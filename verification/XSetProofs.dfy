/** Safety and progress of the X-Set pipeline over all runs. */
module XSetProofs {
  import opened Bytes
  import opened XBloom
  import opened XSetPipeline

  // ---------- totals and permutations ----------

  lemma {:induction false} TotalAppend(a: seq<Doc>, b: seq<Doc>)
    ensures Total(a + b) == Total(a) + Total(b)
  {
    if b == [] {
      assert a + b == a;
    } else {
      var n := |b| - 1;
      TotalAppend(a, b[..n]);
      assert (a + b)[..|a + b| - 1] == a + b[..n];
    }
  }

  lemma {:induction false} TotalPermutation(a: seq<Doc>, b: seq<Doc>)
    requires multiset(a) == multiset(b)
    ensures Total(a) == Total(b) && |a| == |b|
  {
    assert |a| == |multiset(a)| && |b| == |multiset(b)|;
    if a != [] {
      var n := |a| - 1;
      var d := a[n];
      assert d in multiset(a);
      var i :| 0 <= i < |b| && b[i] == d;
      assert a == a[..n] + [d];
      assert b == b[..i] + [d] + b[i + 1..];
      assert multiset(a[..n]) == multiset(a) - multiset{d};
      assert multiset(b[..i] + b[i + 1..]) == multiset(b) - multiset{d};
      TotalPermutation(a[..n], b[..i] + b[i + 1..]);
      TotalAppend(b[..i], b[i + 1..]);
      TotalAppend(b[..i] + [d], b[i + 1..]);
      TotalAppend(b[..i], [d]);
      assert Total([d]) == |d.words| by { assert [d][..0] == []; }
    }
  }

  lemma {:induction false} TotalTake(s: seq<Doc>)
    requires s != []
    ensures Total(s) == |s[0].words| + Total(s[1..])
  {
    assert s == [s[0]] + s[1..];
    TotalAppend([s[0]], s[1..]);
    assert Total([s[0]]) == |s[0].words| by { assert [s[0]][..0] == []; }
  }

  lemma {:induction false} MsgDocsAppend(a: seq<Msg>, m: Msg)
    ensures MsgDocs(a + [m]) == MsgDocs(a) + (if m.AddMsg? then [m.doc] else [])
  {
    if a == [] {
      assert a + [m] == [m];
    } else {
      assert (a + [m])[1..] == a[1..] + [m];
      MsgDocsAppend(a[1..], m);
      assert MsgDocs(a + [m]) == (if a[0].AddMsg? then [a[0].doc] else []) + MsgDocs(a[1..] + [m]);
    }
  }

  // ---------- each invariant, for every step ----------

  lemma InitInv(c: Config, corpus: seq<Doc>)
    ensures Inv(c, corpus, Start(corpus))
  {
    assert XPath(Start(corpus)) == corpus;
    assert SumPath(Start(corpus)) == corpus;
  }

  lemma FeedKept(c: Config, s: State, step: Step)
    requires Enabled(c, s, step) && InvDone(s)
    ensures Feed(s) == (if step.SplitTake? then [s.invChan[0]] else []) + Feed(Apply(c, s, step))
  {
    if !PreStep(step) && !step.SplitTake? {
      FeedQuiet(c, s, step);
    }
  }

  lemma FeedQuiet(c: Config, s: State, step: Step)
    requires Enabled(c, s, step) && !PreStep(step) && !step.SplitTake?
    ensures var s' := Apply(c, s, step); s'.pre == s.pre && s'.unread == s.unread && s'.invChan == s.invChan
  {
  }

  lemma FrontKept(c: Config, s: State, step: Step)
    requires Enabled(c, s, step) && !step.Deliver?
    ensures Apply(c, s, step).handled + Front(Apply(c, s, step)) == s.handled + Front(s)
  {
    if step.StreamQueue? || step.SumQueue? {
      QueueKept(c, s, step);
    } else if step.BloomHandle? {
      HandleKept(c, s);
    } else {
      QuietFront(c, s, step);
    }
  }

  lemma HandleKept(c: Config, s: State)
    requires Enabled(c, s, BloomHandle)
    ensures Apply(c, s, BloomHandle).handled + Front(Apply(c, s, BloomHandle)) == s.handled + Front(s)
  {
  }

  lemma QuietFront(c: Config, s: State, step: Step)
    requires Enabled(c, s, step)
    requires !step.StreamQueue? && !step.SumQueue? && !step.BloomHandle? && !step.Deliver?
    ensures Apply(c, s, step).handled == s.handled && Apply(c, s, step).msgs == s.msgs
    ensures InStreamer(Apply(c, s, step)) == InStreamer(s)
  {
  }

  lemma QueueKept(c: Config, s: State, step: Step)
    requires Enabled(c, s, step) && (step.StreamQueue? || step.SumQueue?)
    ensures Apply(c, s, step).handled + Front(Apply(c, s, step)) == s.handled + Front(s)
  {
    if step.StreamQueue? {
      MsgDocsAppend(s.msgs, AddMsg(s.streamer.doc));
    } else {
      MsgDocsAppend(s.msgs, InitMsg(s.summer.n));
    }
  }

  lemma MiddleKept(c: Config, s: State, step: Step)
    requires Enabled(c, s, step) && !step.Deliver?
    ensures Middle(Apply(c, s, step)) == Middle(s) + (if step.SplitTake? then [s.invChan[0]] else [])
  {
  }

  lemma KeepPath(c: Config, corpus: seq<Doc>, s: State, step: Step)
    requires InvPath(corpus, s) && InvDone(s) && Enabled(c, s, step)
    ensures InvPath(corpus, Apply(c, s, step))
  {
    if step.Deliver? {
      DeliverPath(c, s, step.i);
    } else {
      var s' := Apply(c, s, step);
      FeedKept(c, s, step);
      FrontKept(c, s, step);
      MiddleKept(c, s, step);
      Regroup(s.handled, Front(s), Middle(s), Feed(s), s'.handled, Front(s'), Middle(s'), Feed(s'),
              if step.SplitTake? then [s.invChan[0]] else []);
    }
  }

  /** Moving `x` across one boundary leaves the concatenation alone. */
  lemma Regroup(h: seq<Doc>, f: seq<Doc>, m: seq<Doc>, g: seq<Doc>,
                h': seq<Doc>, f': seq<Doc>, m': seq<Doc>, g': seq<Doc>, x: seq<Doc>)
    requires h' + f' == h + f && m' == m + x && g == x + g'
    ensures h' + (f' + m' + g') == h + (f + m + g)
  {
    assert h' + (f' + m' + g') == (h' + f') + (m + x) + g';
    assert (h + f) + (m + x) + g' == h + (f + m + (x + g'));
  }

  /** A parked sender may overtake the others on its way to the streamer. */
  lemma DeliverPath(c: Config, s: State, i: nat)
    requires Enabled(c, s, Deliver(i))
    ensures multiset(XPath(Apply(c, s, Deliver(i)))) == multiset(XPath(s))
  {
    var x, d, y := s.senders[..i], s.senders[i], s.senders[i + 1..];
    assert s.senders == x + [d] + y;
    DeliverMoves(c, s, i);
    Overtake(s.handled, MsgDocs(s.msgs), x, d, y, InWorker(s), InSplitter(s), Feed(s));
  }

  lemma DeliverMoves(c: Config, s: State, i: nat)
    requires Enabled(c, s, Deliver(i))
    ensures var s' := Apply(c, s, Deliver(i));
            && s'.handled == s.handled && s'.msgs == s.msgs && Feed(s') == Feed(s)
            && InStreamer(s) == [] && InStreamer(s') == [s.senders[i]]
            && Middle(s') == (s.senders[..i] + s.senders[i + 1..]) + InWorker(s) + InSplitter(s)
  {
  }

  lemma Overtake(h: seq<Doc>, f: seq<Doc>, x: seq<Doc>, d: Doc, y: seq<Doc>, w: seq<Doc>, p: seq<Doc>, g: seq<Doc>)
    ensures multiset(h + ((f + [d]) + ((x + y) + w + p) + g)) == multiset(h + ((f + []) + ((x + [d] + y) + w + p) + g))
  {
  }

  lemma KeepSum(c: Config, corpus: seq<Doc>, s: State, step: Step)
    requires InvSum(corpus, s) && InvDone(s) && Enabled(c, s, step)
    ensures InvSum(corpus, Apply(c, s, step))
  {
    SumPathKept(c, s, step);
    if step.SumTake? {
      TotalTake(SumPath(s));
    } else if step.SumClose? {
      assert SumPath(s) == [];
    } else {
      SummerKept(c, s, step);
    }
  }

  lemma SummerKept(c: Config, s: State, step: Step)
    requires Enabled(c, s, step) && !step.SumTake? && !step.SumClose?
    ensures Apply(c, s, step).summer == s.summer || Apply(c, s, step).summer.SummerDone?
  {
  }

  lemma SumPathKept(c: Config, s: State, step: Step)
    requires Enabled(c, s, step) && InvDone(s)
    ensures SumPath(Apply(c, s, step)) == if step.SumTake? then SumPath(s)[1..] else SumPath(s)
  {
  }

  lemma KeepFilter(c: Config, corpus: seq<Doc>, s: State, step: Step)
    requires InvFilter(c, corpus, s) && InvSum(corpus, s) && Enabled(c, s, step)
    ensures InvFilter(c, corpus, Apply(c, s, step))
  {
    if step.BloomHandle? {
      HandleFilter(c, corpus, s);
    } else {
      OtherFilter(c, corpus, s, step);
    }
  }

  lemma HandleFilter(c: Config, corpus: seq<Doc>, s: State)
    requires InvFilter(c, corpus, s) && Enabled(c, s, BloomHandle)
    ensures InvFilter(c, corpus, Apply(c, s, BloomHandle))
  {
    if s.msgs[0].AddMsg? {
      assert (s.handled + [s.msgs[0].doc])[..|s.handled|] == s.handled;
    }
  }

  predicate TouchesFilter(step: Step) {
    || step.StreamStart? || step.StreamQueue? || step.StreamExit? || step.Deliver?
    || step.SumTake? || step.SumClose? || step.SumQueue? || step.Upload?
  }

  lemma OtherFilter(c: Config, corpus: seq<Doc>, s: State, step: Step)
    requires InvFilter(c, corpus, s) && InvSum(corpus, s) && Enabled(c, s, step) && !step.BloomHandle?
    ensures InvFilter(c, corpus, Apply(c, s, step))
  {
    if TouchesFilter(step) {
      TouchedFilter(c, corpus, s, step);
    }
  }

  lemma TouchedFilter(c: Config, corpus: seq<Doc>, s: State, step: Step)
    requires InvFilter(c, corpus, s) && InvSum(corpus, s) && Enabled(c, s, step) && TouchesFilter(step)
    ensures InvFilter(c, corpus, Apply(c, s, step))
  {
  }

  lemma KeepPending(c: Config, s: State, step: Step)
    requires InvPending(s) && Enabled(c, s, step)
    ensures InvPending(Apply(c, s, step))
  {
  }

  lemma KeepDone(c: Config, s: State, step: Step)
    requires InvDone(s) && Enabled(c, s, step)
    ensures InvDone(Apply(c, s, step))
  {
  }

  lemma StepInv(c: Config, corpus: seq<Doc>, s: State, step: Step)
    requires Inv(c, corpus, s) && Enabled(c, s, step)
    ensures Inv(c, corpus, Apply(c, s, step))
  {
    KeepPath(c, corpus, s, step);
    KeepSum(c, corpus, s, step);
    KeepFilter(c, corpus, s, step);
    KeepPending(c, s, step);
    KeepDone(c, s, step);
  }

  lemma {:induction false} RunInv(c: Config, corpus: seq<Doc>, s: State, steps: seq<Step>)
    requires Inv(c, corpus, s) && ValidRun(c, s, steps)
    ensures Inv(c, corpus, Exec(c, s, steps))
    decreases |steps|
  {
    if steps != [] {
      StepInv(c, corpus, s, steps[0]);
      RunInv(c, corpus, Apply(c, s, steps[0]), steps[1..]);
    }
  }

  // ---------- what the filter has been through ----------

  lemma {:induction false} ReplayContents(c: Config, n: nat, docs: seq<Doc>)
    ensures Replay(c, n, docs).filter == Some(AllTags(c, docs))
    ensures Replay(c, n, docs).added == Total(docs) % TWO32
    ensures Replay(c, n, docs).finalSize == n
  {
    if docs != [] {
      ReplayContents(c, n, docs[..|docs| - 1]);
      ModAdd(Total(docs[..|docs| - 1]), |docs[|docs| - 1].words|);
    }
  }

  lemma ModAdd(a: nat, b: nat)
    ensures (a % TWO32 + b) % TWO32 == (a + b) % TWO32
  {
  }

  /** How often xFilterFinished is closed while `docs` are added to a filter for `n` elements: once
      for every nonempty prefix that holds exactly n. */
  function Signals(n: nat, docs: seq<Doc>): nat {
    if docs == [] then 0
    else Signals(n, docs[..|docs| - 1]) + (if Total(docs) == n then 1 else 0)
  }

  lemma {:induction false} ReplaySignals(c: Config, n: nat, docs: seq<Doc>)
    requires Total(docs) <= n < TWO32
    ensures Replay(c, n, docs).closes == Signals(n, docs)
    ensures Replay(c, n, docs).crashed <==> Signals(n, docs) > 1
  {
    if docs != [] {
      var front := docs[..|docs| - 1];
      ReplaySignals(c, n, front);
      ReplayContents(c, n, front);
      HandleAddSignals(Replay(c, n, front), TagsOf(c, docs[|docs| - 1]), Total(front));
    }
  }

  /** Within 32 bits the counter is exact, so an add signals when it reaches the final size. */
  lemma HandleAddSignals(b: XState, tags: seq<Bytes>, before: nat)
    requires b.filter.Some? && b.added == before % TWO32 && before + |tags| <= b.finalSize < TWO32
    ensures var b' := HandleAdd(b, tags);
            && b'.closes == b.closes + (if before + |tags| == b.finalSize then 1 else 0)
            && (b'.crashed <==> b.crashed || (before + |tags| == b.finalSize && b.closes > 0))
  {
  }

  /** The number of documents without words at the end of the list. */
  function TrailingEmpties(docs: seq<Doc>): nat {
    if docs == [] || docs[|docs| - 1].words != [] then 0 else 1 + TrailingEmpties(docs[..|docs| - 1])
  }

  /** The exact number of signals of a whole corpus: one, plus one for every empty document that
      arrives after the filter is full; with no words at all, one per document. */
  lemma {:induction false} SignalsExact(docs: seq<Doc>)
    ensures Signals(Total(docs), docs) == if Total(docs) > 0 then 1 + TrailingEmpties(docs) else |docs|
  {
    if docs != [] {
      var front := docs[..|docs| - 1];
      if docs[|docs| - 1].words == [] {
        SignalsExact(front);
      } else {
        SignalsNone(Total(docs), front);
      }
    }
  }

  lemma {:induction false} SignalsNone(n: nat, docs: seq<Doc>)
    requires Total(docs) < n
    ensures Signals(n, docs) == 0
  {
    if docs != [] {
      SignalsNone(n, docs[..|docs| - 1]);
    }
  }

  /** The corpora that signal exactly once in every order: some document, and none without words
      unless it is the only one. */
  predicate SignalsOnce(corpus: seq<Doc>) {
    corpus != [] && (|corpus| == 1 || forall i :: 0 <= i < |corpus| ==> corpus[i].words != [])
  }

  /** Exactly those corpora have no arrival order that signals never or twice. */
  lemma SignalsOnceIff(corpus: seq<Doc>)
    ensures SignalsOnce(corpus)
       <==> forall order: seq<Doc> :: multiset(order) == multiset(corpus) ==> Signals(Total(corpus), order) == 1
  {
    if SignalsOnce(corpus) {
      forall order: seq<Doc> | multiset(order) == multiset(corpus) ensures Signals(Total(corpus), order) == 1 {
        OnceInAnyOrder(corpus, order);
      }
    } else if corpus != [] {
      var order := EmptyLast(corpus);
    } else {
      assert Signals(Total(corpus), corpus) == 0;
    }
  }

  /** With an empty document among others, let it arrive last. */
  lemma EmptyLast(corpus: seq<Doc>) returns (order: seq<Doc>)
    requires |corpus| > 1 && !SignalsOnce(corpus)
    ensures multiset(order) == multiset(corpus) && Signals(Total(corpus), order) > 1
  {
    var i :| 0 <= i < |corpus| && corpus[i].words == [];
    order := corpus[..i] + corpus[i + 1..] + [corpus[i]];
    assert corpus == corpus[..i] + [corpus[i]] + corpus[i + 1..];
    TotalPermutation(order, corpus);
    SignalsExact(order);
  }

  lemma OnceInAnyOrder(corpus: seq<Doc>, order: seq<Doc>)
    requires SignalsOnce(corpus) && multiset(order) == multiset(corpus)
    ensures Signals(Total(corpus), order) == 1
  {
    TotalPermutation(order, corpus);
    SignalsExact(order);
    var last := order[|order| - 1];
    assert last in multiset(corpus);
    if |corpus| > 1 {
      assert last.words != [];
    }
  }

  // ---------- safety over all runs ----------

  /** Whatever a partly handled corpus still has upstream keeps its tags below the total. */
  lemma HandledTotal(corpus: seq<Doc>, s: State)
    requires InvPath(corpus, s)
    ensures Total(s.handled) + Total(Upstream(s)) == Total(corpus)
    ensures |s.handled| + |Upstream(s)| == |corpus|
    ensures multiset(s.handled) + multiset(Upstream(s)) == multiset(corpus)
  {
    TotalAppend(s.handled, Upstream(s));
    TotalPermutation(XPath(s), corpus);
  }

  /** In every reachable state of every corpus: no send on the closed tag channel and no add before
      the filter exists; the filter holds exactly the tags handled so far; and the process has
      crashed exactly when the handled prefix signalled twice. */
  lemma Safety(c: Config, corpus: seq<Doc>, steps: seq<Step>)
    requires ValidRun(c, Start(corpus), steps) && Total(corpus) < TWO32
    ensures Safe(c, corpus, Exec(c, Start(corpus), steps))
  {
    InitInv(c, corpus);
    RunInv(c, corpus, Start(corpus), steps);
    SafeState(c, corpus, Exec(c, Start(corpus), steps));
  }

  ghost predicate Safe(c: Config, corpus: seq<Doc>, s: State) {
    && !s.sentOnClosed
    && (s.closer.Closed? ==> s.senders == [] && s.sent == 0 && s.worker.XDone?)
    && (!Ready(s) ==> s.handled == [] && MsgDocs(s.msgs) == [] && s.bloom == EMPTY)
    && (Ready(s) ==> s.bloom.filter == Some(AllTags(c, s.handled)))
    && s.bloom.closes == (if Ready(s) then Signals(Total(corpus), s.handled) else 0)
    && (s.bloom.crashed <==> s.bloom.closes > 1)
  }

  lemma SafeState(c: Config, corpus: seq<Doc>, s: State)
    requires Inv(c, corpus, s) && Total(corpus) < TWO32
    ensures Safe(c, corpus, s)
  {
    if Ready(s) {
      FilterReplays(c, corpus, s);
    } else {
      NothingYet(c, corpus, s);
    }
  }

  lemma FilterReplays(c: Config, corpus: seq<Doc>, s: State)
    requires InvPath(corpus, s) && InvFilter(c, corpus, s) && Ready(s) && Total(corpus) < TWO32
    ensures s.bloom.filter == Some(AllTags(c, s.handled))
    ensures s.bloom.closes == Signals(Total(corpus), s.handled) && (s.bloom.crashed <==> s.bloom.closes > 1)
  {
    HandledTotal(corpus, s);
    ReplayContents(c, Total(corpus), s.handled);
    ReplaySignals(c, Total(corpus), s.handled);
  }

  lemma NothingYet(c: Config, corpus: seq<Doc>, s: State)
    requires InvFilter(c, corpus, s) && !Ready(s)
    ensures s.handled == [] && MsgDocs(s.msgs) == [] && s.bloom == EMPTY
  {
    assert MsgDocs([InitMsg(Total(corpus))]) == [] by { assert [InitMsg(Total(corpus))][1..] == []; }
  }

  /** With nonempty documents xFilterFinished is closed exactly when the filter is complete: once
      every document has been handled, and not before. */
  lemma ClosedIffComplete(c: Config, corpus: seq<Doc>, steps: seq<Step>)
    requires ValidRun(c, Start(corpus), steps) && Total(corpus) < TWO32 && SignalsOnce(corpus)
    ensures var s := Exec(c, Start(corpus), steps);
            && !s.bloom.crashed
            && s.bloom.closes <= 1
            && (s.bloom.closes == 1 <==> Upstream(s) == [] && s.handled != [])
            && (s.bloom.closes == 1 ==> Ready(s) && Total(s.handled) == Total(corpus))
  {
    var s := Exec(c, Start(corpus), steps);
    InitInv(c, corpus);
    RunInv(c, corpus, Start(corpus), steps);
    Safety(c, corpus, steps);
    CountOnce(corpus, s);
  }

  lemma CountOnce(corpus: seq<Doc>, s: State)
    requires InvPath(corpus, s) && SignalsOnce(corpus)
    ensures Signals(Total(corpus), s.handled) == if Upstream(s) == [] && s.handled != [] then 1 else 0
    ensures Signals(Total(corpus), s.handled) == 1 ==> Total(s.handled) == Total(corpus)
  {
    HandledTotal(corpus, s);
    if Upstream(s) == [] {
      assert XPath(s) == s.handled;
      OnceInAnyOrder(corpus, s.handled);
    } else if s.handled != [] {
      var d := Upstream(s)[0];
      assert d in multiset(Upstream(s));
      assert d in multiset(corpus);
      TotalTake(Upstream(s));
      SignalsNone(Total(corpus), s.handled);
    }
  }

  // ---------- progress ----------

  predicate PreStep(step: Step) {
    step.PreTake? || step.PreClose? || step.PreSendInv? || step.PreSendSum?
  }

  predicate FeedStep(step: Step) {
    PreStep(step) || step.SplitTake? || step.SplitClose? || step.SplitSendT? || step.SumTake?
  }

  lemma PreDecreases(c: Config, s: State, step: Step)
    requires Enabled(c, s, step) && PreStep(step)
    ensures FeedMeasure(Apply(c, s, step)) < FeedMeasure(s) && TagMeasure(Apply(c, s, step)) == TagMeasure(s)
  {
  }

  lemma SplitDecreases(c: Config, s: State, step: Step)
    requires Enabled(c, s, step) && FeedStep(step) && !PreStep(step)
    ensures FeedMeasure(Apply(c, s, step)) < FeedMeasure(s) && TagMeasure(Apply(c, s, step)) == TagMeasure(s)
  {
  }

  predicate WorkerStep(step: Step) {
    step.XCount? || step.XSpawn? || step.XExit? || step.SeeZero? || step.CloseTags? || step.SendOnClosed?
  }

  lemma WorkerDecreases(c: Config, s: State, step: Step)
    requires Enabled(c, s, step) && InvPending(s) && WorkerStep(step)
    ensures TagMeasure(Apply(c, s, step)) < TagMeasure(s) && FeedMeasure(Apply(c, s, step)) == FeedMeasure(s)
  {
  }

  predicate QueueStep(step: Step) {
    step.StreamQueue? || step.SumClose? || step.SumQueue? || step.BloomHandle? || step.Upload?
  }

  lemma QueueDecreases(c: Config, s: State, step: Step)
    requires Enabled(c, s, step) && QueueStep(step)
    ensures TagMeasure(Apply(c, s, step)) < TagMeasure(s) && FeedMeasure(Apply(c, s, step)) == FeedMeasure(s)
  {
    match step
    case StreamQueue =>
    case SumClose =>
    case SumQueue =>
    case BloomHandle => HandleDecreases(c, s);
    case Upload => UploadDecreases(c, s);
  }

  lemma HandleDecreases(c: Config, s: State)
    requires Enabled(c, s, BloomHandle)
    ensures TagMeasure(Apply(c, s, BloomHandle)) == TagMeasure(s) - 4
    ensures FeedMeasure(Apply(c, s, BloomHandle)) == FeedMeasure(s)
  {
    var s' := Apply(c, s, BloomHandle);
    HandleMoves(c, s);
    assert s' == s.(msgs := s'.msgs, bloom := s'.bloom, handled := s'.handled);
  }

  lemma HandleMoves(c: Config, s: State)
    requires Enabled(c, s, BloomHandle)
    ensures var s' := Apply(c, s, BloomHandle);
            && |s'.msgs| == |s.msgs| - 1
            && s' == s.(msgs := s'.msgs, bloom := s'.bloom, handled := s'.handled)
  {
  }

  lemma UploadDecreases(c: Config, s: State)
    requires Enabled(c, s, Upload)
    ensures TagMeasure(Apply(c, s, Upload)) == TagMeasure(s) - 1
    ensures FeedMeasure(Apply(c, s, Upload)) == FeedMeasure(s)
  {
  }

  lemma SendDecreases(c: Config, s: State, step: Step)
    requires Enabled(c, s, step)
    requires step.Deliver? || step.Decrement? || step.StreamStart? || step.StreamExit?
    ensures TagMeasure(Apply(c, s, step)) < TagMeasure(s) && FeedMeasure(Apply(c, s, step)) == FeedMeasure(s)
  {
  }

  lemma MeasureDecreases(c: Config, s: State, step: Step)
    requires Enabled(c, s, step) && InvPending(s)
    ensures Measure(Apply(c, s, step)) < Measure(s)
  {
    if PreStep(step) {
      PreDecreases(c, s, step);
    } else if FeedStep(step) {
      SplitDecreases(c, s, step);
    } else if WorkerStep(step) {
      WorkerDecreases(c, s, step);
    } else if QueueStep(step) {
      QueueDecreases(c, s, step);
    } else if !step.SplitSendX? {
      SendDecreases(c, s, step);
    }
  }

  lemma {:induction false} RunLength(c: Config, s: State, steps: seq<Step>)
    requires ValidRun(c, s, steps) && InvPending(s)
    ensures |steps| + Measure(Exec(c, s, steps)) <= Measure(s)
    decreases |steps|
  {
    if steps != [] {
      MeasureDecreases(c, s, steps[0]);
      KeepPending(c, s, steps[0]);
      RunLength(c, Apply(c, s, steps[0]), steps[1..]);
    }
  }

  /** A state that is not final can move. */
  lemma NotStuck(c: Config, corpus: seq<Doc>, s: State) returns (step: Step)
    requires Inv(c, corpus, s) && c.cap > 0 && !s.bloom.crashed && !Final(s)
    requires Ready(s) && Upstream(s) == [] ==> s.bloom.closes > 0
    ensures Enabled(c, s, step)
    ensures step.Deliver? ==> s.splitter.SplitDone? && s.worker.XDone?
  {
    if s.msgs != [] {
      step := BloomHandle;
    } else if s.pre.PreIdle? {
      step := if s.unread == [] then PreClose else PreTake;
    } else if s.sumChan != [] {
      step := SumTake;
    } else if s.pre.PreSum? {
      step := PreSendSum;
    } else if s.pre.PreInv? && s.invChan == [] {
      step := PreSendInv;
    } else {
      step := NotStuckMiddle(c, corpus, s);
    }
  }

  /** The same once the preprocessor waits for nobody but the splitter. */
  lemma NotStuckMiddle(c: Config, corpus: seq<Doc>, s: State) returns (step: Step)
    requires Inv(c, corpus, s) && c.cap > 0 && !s.bloom.crashed && !Final(s)
    requires Ready(s) && Upstream(s) == [] ==> s.bloom.closes > 0
    requires s.msgs == [] && s.sumChan == [] && (s.pre.PreDone? || (s.pre.PreInv? && s.invChan != []))
    ensures Enabled(c, s, step)
    ensures step.Deliver? ==> s.splitter.SplitDone? && s.worker.XDone?
  {
    if s.splitter.SplitT? {
      step := SplitSendT;
    } else if s.worker.XComputing? {
      step := XCount;
    } else if s.worker.XCounted? {
      step := XSpawn;
    } else if s.splitter.SplitX? {
      step := SplitSendX;
    } else if s.splitter.SplitIdle? {
      step := if s.invChan == [] then SplitClose else SplitTake;
    } else {
      step := NotStuckLate(c, corpus, s);
    }
  }

  /** The same once the documents are all past the splitter. */
  lemma NotStuckLate(c: Config, corpus: seq<Doc>, s: State) returns (step: Step)
    requires Inv(c, corpus, s) && c.cap > 0 && !s.bloom.crashed && !Final(s)
    requires Ready(s) && Upstream(s) == [] ==> s.bloom.closes > 0
    requires s.msgs == [] && s.splitter.SplitDone? && s.sumChan == [] && (s.worker.XIdle? || s.worker.XDone?)
    ensures Enabled(c, s, step)
    ensures step.Deliver? ==> s.splitter.SplitDone? && s.worker.XDone?
  {
    if s.worker.XIdle? {
      step := XExit;
    } else if s.summer.Counting? {
      step := SumClose;
    } else if s.summer.Summed? {
      step := SumQueue;
    } else if s.sent > 0 {
      step := Decrement;
    } else if s.streamer.StreamWaiting? {
      step := StreamStart;
    } else if s.streamer.StreamHas? {
      step := StreamQueue;
    } else if s.senders != [] {
      step := Deliver(0);
    } else {
      step := NotStuckLast(c, corpus, s);
    }
  }

  /** The same once every tag is in the filter. */
  lemma NotStuckLast(c: Config, corpus: seq<Doc>, s: State) returns (step: Step)
    requires Inv(c, corpus, s) && !s.bloom.crashed && !Final(s)
    requires Ready(s) && Upstream(s) == [] ==> s.bloom.closes > 0
    requires s.msgs == [] && s.splitter.SplitDone? && s.sumChan == [] && s.worker.XDone? && s.summer.SummerDone?
    requires s.sent == 0 && s.senders == [] && (s.streamer.StreamReady? || s.streamer.StreamDone?)
    ensures Enabled(c, s, step)
    ensures !step.Deliver?
  {
    if s.closer.Spinning? {
      step := SeeZero;
    } else if s.closer.SawZero? {
      step := CloseTags;
    } else if s.streamer.StreamReady? {
      step := StreamExit;
    } else {
      assert Upstream(s) == [];
      step := Upload;
    }
  }

  /** Progress: with nonempty documents no reachable state short of the end is stuck, although the
      filter appears only after every document has passed; and no run is longer than the measure
      of its start, so every run ends. */
  lemma Progress(c: Config, corpus: seq<Doc>, steps: seq<Step>)
    requires ValidRun(c, Start(corpus), steps) && Total(corpus) < TWO32 && SignalsOnce(corpus) && c.cap > 0
    ensures |steps| <= Measure(Start(corpus))
    ensures Final(Exec(c, Start(corpus), steps)) || exists step :: Enabled(c, Exec(c, Start(corpus), steps), step)
  {
    var s := Exec(c, Start(corpus), steps);
    RunLength(c, Start(corpus), steps);
    InitInv(c, corpus);
    RunInv(c, corpus, Start(corpus), steps);
    ClosedIffComplete(c, corpus, steps);
    if !Final(s) {
      HandledTotal(corpus, s);
      var step := NotStuck(c, corpus, s);
    }
  }

  /** The tag of some word of some document. */
  ghost predicate IsTag(c: Config, docs: seq<Doc>, t: Bytes) {
    exists d :: d in docs && t in TagsOf(c, d)
  }

  lemma {:induction false} TagsCovered(c: Config, docs: seq<Doc>, t: Bytes)
    ensures t in AllTags(c, docs) <==> IsTag(c, docs, t)
  {
    if docs != [] {
      var n := |docs| - 1;
      TagsCovered(c, docs[..n], t);
      assert docs == docs[..n] + [docs[n]];
    }
  }

  /** Membership in a document's tags, spelled out. */
  lemma TagOfWord(c: Config, d: Doc, t: Bytes)
    ensures t in TagsOf(c, d) <==> exists w :: w in d.words && t == c.tag(w, d.id)
  {
    if t in TagsOf(c, d) {
      var i :| 0 <= i < |d.words| && TagsOf(c, d)[i] == t;
      assert d.words[i] in d.words;
    }
    if exists w :: w in d.words && t == c.tag(w, d.id) {
      var w :| w in d.words && t == c.tag(w, d.id);
      var i :| 0 <= i < |d.words| && d.words[i] == w;
      assert TagsOf(c, d)[i] == t;
    }
  }

  lemma KeepUpload(c: Config, s: State, step: Step)
    requires InvUpload(s) && Enabled(c, s, step) && (step.BloomHandle? ==> s.uploaded.None?)
    ensures InvUpload(Apply(c, s, step))
  {
  }

  lemma FullMeansIdle(c: Config, corpus: seq<Doc>, s: State)
    requires Inv(c, corpus, s) && SignalsOnce(corpus) && Total(corpus) < TWO32 && s.bloom.closes > 0
    ensures s.msgs == []
  {
    SafeState(c, corpus, s);
    CountOnce(corpus, s);
    assert |Upstream(s)| >= |MsgDocs(s.msgs)|;
  }

  /** Nothing is handled once the filter is uploaded. */
  lemma NoLateHandle(c: Config, corpus: seq<Doc>, s: State, step: Step)
    requires Inv(c, corpus, s) && InvUpload(s) && Enabled(c, s, step)
    requires SignalsOnce(corpus) && Total(corpus) < TWO32
    ensures !(step.BloomHandle? && s.uploaded.Some?)
  {
    if step.BloomHandle? && s.uploaded.Some? {
      FullMeansIdle(c, corpus, s);
      assert false;
    }
  }

  lemma {:induction false} RunUpload(c: Config, corpus: seq<Doc>, s: State, steps: seq<Step>)
    requires Inv(c, corpus, s) && InvUpload(s) && ValidRun(c, s, steps)
    requires SignalsOnce(corpus) && Total(corpus) < TWO32
    ensures InvUpload(Exec(c, s, steps)) && Inv(c, corpus, Exec(c, s, steps))
    decreases |steps|
  {
    if steps != [] {
      StepInv(c, corpus, s, steps[0]);
      NoLateHandle(c, corpus, s, steps[0]);
      KeepUpload(c, s, steps[0]);
      RunUpload(c, corpus, Apply(c, s, steps[0]), steps[1..]);
    }
  }

  /** What a finished run has uploaded: a filter holding the xTag of every word of every document
      and nothing else. */
  lemma FinalUpload(c: Config, corpus: seq<Doc>, steps: seq<Step>)
    requires ValidRun(c, Start(corpus), steps) && Total(corpus) < TWO32 && SignalsOnce(corpus)
    requires Final(Exec(c, Start(corpus), steps))
    ensures var s := Exec(c, Start(corpus), steps);
            && s.bloom.closes == 1 && !s.bloom.crashed
            && forall t :: t in s.uploaded.value <==> IsTag(c, corpus, t)
  {
    InitInv(c, corpus);
    RunUpload(c, corpus, Start(corpus), steps);
    FinalState(c, corpus, Exec(c, Start(corpus), steps));
  }

  lemma FinalState(c: Config, corpus: seq<Doc>, s: State)
    requires Inv(c, corpus, s) && InvUpload(s) && Final(s) && Total(corpus) < TWO32 && SignalsOnce(corpus)
    ensures s.bloom.closes == 1 && !s.bloom.crashed
    ensures forall t :: t in s.uploaded.value <==> IsTag(c, corpus, t)
  {
    SafeState(c, corpus, s);
    HandledTotal(corpus, s);
    CountOnce(corpus, s);
    assert XPath(s) == s.handled;
    forall t ensures t in s.uploaded.value <==> IsTag(c, corpus, t) {
      TagsCovered(c, s.handled, t);
      SameTags(c, s.handled, corpus, t);
    }
  }

  lemma SameTags(c: Config, a: seq<Doc>, b: seq<Doc>, t: Bytes)
    requires multiset(a) == multiset(b)
    ensures IsTag(c, a, t) <==> IsTag(c, b, t)
  {
    forall d: Doc ensures d in a <==> d in b {
      assert d in multiset(a) <==> d in multiset(b);
    }
  }
}
