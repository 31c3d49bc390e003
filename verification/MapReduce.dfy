/** The term-frequency map-reduce as a system of steps: mappers, shufflers and reducers on unbuffered
    channels, shut down through the token channel, with every interleaving a run. */
module MapReduce {
  import opened TSet
  import opened TermFrequency
  import opened Collections
  import opened Bytes

  /** How many shufflers and reducers there are (26 in the source), and the hash that picks one. */
  datatype Config = Config(n: nat, hash: Word -> nat)

  function Owner(c: Config, w: Word): (r: nat)
    requires c.n > 0
    ensures r < c.n
  {
    c.hash(w) % c.n
  }

  datatype Mapper = MapIdle | MapHolds(m: Counts) | MapExited

  /** Unborn until initShufflers starts it; Leaving between the loop and the pop of its token,
      Popped between that and the look at the channel's length. */
  datatype Shuffler = Unborn | ShufIdle | ShufSends(m: Counts) | Leaving | Popped | Gone

  /** A reducer keeps its subset after reporting, as history. */
  datatype Reducer = Running(sub: Counts) | Quitting(sub: Counts) | Reported(sub: Counts)

  datatype State = State(
    docs: seq<seq<Word>>,        // not yet received by a mapper
    mappers: seq<Mapper>,
    closed: bool,                // TermFreq
    pushed: nat,                 // tokens initShufflers has pushed
    shufflers: seq<Shuffler>,
    tokens: nat,                 // in shufflerChan
    quit: bool,                  // reducerQuit
    reducers: seq<Reducer>,
    sem: nat,                    // reports bloomFilterInitializer waits for
    acc: Sizes,
    result: Option<Sizes>,       // what InitFreqBuckets was called with
    sentOnClosed: bool)

  datatype Step =
    | MapTake(k: nat) | MapSend(k: nat, j: nat) | MapSendClosed(k: nat) | MapExit(k: nat)
    | PushToken | Launch
    | ShufSend(j: nat, w: Word) | ShufDone(j: nat) | ShufLeave(j: nat) | Pop(j: nat) | Check(j: nat)
    | RedQuit(r: nat) | RedReport(r: nat) | InitBuckets

  function Start(c: Config, mappers: nat, corpus: seq<seq<Word>>): State {
    State(corpus, seq(mappers, _ => MapIdle), false, 0, seq(c.n, _ => Unborn), 0, false,
          seq(c.n, _ => Running(map[])), c.n, NO_SIZES, None, false)
  }

  /** initShufflers is between pushing a token and starting its shuffler. */
  predicate Launching(s: State) {
    0 < s.pushed <= |s.shufflers| && s.shufflers[s.pushed - 1].Unborn?
  }

  predicate Enabled(c: Config, s: State, step: Step) {
    && !s.sentOnClosed
    && match step
       case MapTake(k) => k < |s.mappers| && s.mappers[k].MapIdle? && s.docs != []
       case MapSend(k, j) =>
         && k < |s.mappers| && s.mappers[k].MapHolds? && !s.closed
         && j < |s.shufflers| && s.shufflers[j].ShufIdle?
       case MapSendClosed(k) => k < |s.mappers| && s.mappers[k].MapHolds? && s.closed
       case MapExit(k) => k < |s.mappers| && s.mappers[k].MapIdle? && s.docs == []
       case PushToken => s.pushed < |s.shufflers| && !Launching(s) && s.tokens < c.n
       case Launch => Launching(s)
       case ShufSend(j, w) =>
         && j < |s.shufflers| && s.shufflers[j].ShufSends? && w in s.shufflers[j].m
         && 0 < c.n == |s.reducers| && s.reducers[Owner(c, w)].Running?
       case ShufDone(j) => j < |s.shufflers| && s.shufflers[j].ShufSends? && s.shufflers[j].m == map[]
       case ShufLeave(j) => j < |s.shufflers| && s.shufflers[j].ShufIdle? && s.closed
       case Pop(j) => j < |s.shufflers| && s.shufflers[j].Leaving? && s.tokens > 0
       case Check(j) => j < |s.shufflers| && s.shufflers[j].Popped?
       case RedQuit(r) => r < |s.reducers| && s.reducers[r].Running? && s.quit
       case RedReport(r) => r < |s.reducers| && s.reducers[r].Quitting? && s.sem > 0
       case InitBuckets => s.sem == 0 && s.result.None?
  }

  function Apply(c: Config, s: State, step: Step): State
    requires Enabled(c, s, step)
  {
    match step
    case MapTake(k) => s.(mappers := s.mappers[k := MapHolds(WordCount(s.docs[0]))], docs := s.docs[1..])
    case MapSend(k, j) =>
      s.(mappers := s.mappers[k := MapIdle], shufflers := s.shufflers[j := ShufSends(s.mappers[k].m)])
    case MapSendClosed(k) => s.(sentOnClosed := true)
    case MapExit(k) => s.(mappers := s.mappers[k := MapExited], closed := true)
    case PushToken => s.(pushed := s.pushed + 1, tokens := s.tokens + 1)
    case Launch => s.(shufflers := s.shufflers[s.pushed - 1 := ShufIdle])
    case ShufSend(j, w) =>
      var m := s.shufflers[j].m;
      var r := Owner(c, w);
      s.(shufflers := s.shufflers[j := ShufSends(m - {w})],
         reducers := s.reducers[r := Running(Merge(s.reducers[r].sub, w, m[w]))])
    case ShufDone(j) => s.(shufflers := s.shufflers[j := ShufIdle])
    case ShufLeave(j) => s.(shufflers := s.shufflers[j := Leaving])
    case Pop(j) => s.(shufflers := s.shufflers[j := Popped], tokens := s.tokens - 1)
    case Check(j) => s.(shufflers := s.shufflers[j := Gone], quit := s.quit || s.tokens == 0)
    case RedQuit(r) => s.(reducers := s.reducers[r := Quitting(s.reducers[r].sub)])
    case RedReport(r) =>
      var sub := s.reducers[r].sub;
      s.(reducers := s.reducers[r := Reported(sub)], sem := s.sem - 1, acc := Plus(s.acc, BucketSizes(sub)))
    case InitBuckets => s.(result := Some(s.acc))
  }

  predicate ValidRun(c: Config, s: State, steps: seq<Step>)
    decreases |steps|
  {
    steps == [] || (Enabled(c, s, steps[0]) && ValidRun(c, Apply(c, s, steps[0]), steps[1..]))
  }

  function Exec(c: Config, s: State, steps: seq<Step>): State
    requires ValidRun(c, s, steps)
    decreases |steps|
  {
    if steps == [] then s else Exec(c, Apply(c, s, steps[0]), steps[1..])
  }

  // ---------- the sequential count ----------

  function Flatten(docs: seq<seq<Word>>): seq<Word> {
    if docs == [] then [] else docs[0] + Flatten(docs[1..])
  }

  function CorpusCount(docs: seq<seq<Word>>, w: Word): nat {
    CountIn(WordCount(Flatten(docs)), w)
  }

  /** The part of the corpus count that one reducer owns. */
  function Share(c: Config, corpus: seq<seq<Word>>, r: nat): Counts
    requires c.n > 0
  {
    var total := WordCount(Flatten(corpus));
    map w | w in total && Owner(c, w) == r :: total[w]
  }

  // ---------- where a word's occurrences are ----------

  function HeldBy(w: Word): Mapper -> nat {
    (m: Mapper) => if m.MapHolds? then CountIn(m.m, w) else 0
  }

  function InFlight(w: Word): Shuffler -> nat {
    (s: Shuffler) => if s.ShufSends? then CountIn(s.m, w) else 0
  }

  /** One for a shuffler whose token is still in the channel. */
  function HoldsToken(): Shuffler -> nat {
    (s: Shuffler) => if s.ShufIdle? || s.ShufSends? || s.Leaving? then 1 else 0
  }

  function Unreported(): Reducer -> nat {
    (r: Reducer) => if r.Reported? then 0 else 1
  }

  // ---------- a bound on the steps left ----------

  function DocWork(): seq<Word> -> nat {
    (doc: seq<Word>) => |WordCount(doc)| + 7
  }

  function MapperWork(): Mapper -> nat {
    (m: Mapper) => match m case MapIdle => 1 case MapHolds(t) => |t| + 7 case MapExited => 0
  }

  function ShufflerWork(): Shuffler -> nat {
    (s: Shuffler) =>
      match s
      case Unborn => 4
      case ShufIdle => 3
      case ShufSends(m) => |m| + 4
      case Leaving => 2
      case Popped => 1
      case Gone => 0
  }

  function ReducerWork(): Reducer -> nat {
    (r: Reducer) => if r.Running? then 2 else if r.Quitting? then 1 else 0
  }

  function Measure(s: State): nat
    requires s.pushed <= |s.shufflers|
  {
    SumBy(s.docs, DocWork()) + SumBy(s.mappers, MapperWork()) + SumBy(s.shufflers, ShufflerWork())
    + SumBy(s.reducers, ReducerWork()) + (|s.shufflers| - s.pushed)
    + (if s.result.None? then 1 else 0) + (if s.sentOnClosed then 0 else 1)
  }

  // ---------- invariants ----------

  predicate Positive(m: Counts) {
    forall w :: w in m ==> m[w] > 0
  }

  ghost predicate InvShape(c: Config, s: State) {
    && 0 < c.n == |s.shufflers| == |s.reducers|
    && s.pushed <= c.n
    && (forall k :: 0 <= k < |s.mappers| && s.mappers[k].MapHolds? ==> Positive(s.mappers[k].m))
    && (forall j :: 0 <= j < c.n && s.shufflers[j].ShufSends? ==> Positive(s.shufflers[j].m))
    && (forall r :: 0 <= r < c.n ==> Positive(s.reducers[r].sub))
    && (forall r, w :: 0 <= r < c.n && w in s.reducers[r].sub ==> Owner(c, w) == r)
  }

  /** The occurrences of a word, wherever they are: unread, in a mapper, in a shuffler, or with the
      reducer that owns the word. */
  function Located(c: Config, s: State, w: Word): nat
    requires 0 < c.n == |s.reducers|
  {
    CorpusCount(s.docs, w) + SumBy(s.mappers, HeldBy(w)) + SumBy(s.shufflers, InFlight(w))
    + CountIn(s.reducers[Owner(c, w)].sub, w)
  }

  ghost predicate InvCounts(c: Config, corpus: seq<seq<Word>>, s: State)
    requires 0 < c.n == |s.reducers|
  {
    forall w :: Located(c, s, w) == CorpusCount(corpus, w)
  }

  /** Tokens stand for the shufflers that may still send, and one more while launching. */
  ghost predicate InvTokens(s: State)
    requires s.pushed <= |s.shufflers|
  {
    && s.tokens == SumBy(s.shufflers, HoldsToken()) + (if Launching(s) then 1 else 0)
    && InvBorn(s)
  }

  /** initShufflers starts them in order. */
  ghost predicate InvBorn(s: State)
    requires s.pushed <= |s.shufflers|
  {
    && (forall j :: s.pushed <= j < |s.shufflers| ==> s.shufflers[j].Unborn?)
    && (forall j :: 0 <= j < s.pushed - 1 ==> !s.shufflers[j].Unborn?)
  }

  /** With one mapper: a closed TermFreq has nothing behind it, shufflers only leave once it is
      closed, and reducerQuit is closed only when none of them is sending. */
  ghost predicate InvShutdown(s: State) {
    && |s.mappers| == 1 && !s.sentOnClosed
    && (s.closed <==> s.mappers[0].MapExited?)
    && (s.closed ==> s.docs == [])
    && (forall j :: 0 <= j < |s.shufflers| && (s.shufflers[j].Leaving? || s.shufflers[j].Popped? || s.shufflers[j].Gone?)
          ==> s.closed)
    && (s.quit ==> s.closed && forall j :: 0 <= j < |s.shufflers| ==> !s.shufflers[j].ShufSends?)
    && (forall r :: 0 <= r < |s.reducers| && !s.reducers[r].Running? ==> s.quit)
  }

  function ReportedSizes(reducers: seq<Reducer>): Sizes {
    if reducers == [] then NO_SIZES
    else
      var last := reducers[|reducers| - 1];
      Plus(ReportedSizes(reducers[..|reducers| - 1]), ReportOf(last))
  }

  /** What a reducer has reported so far. */
  function ReportOf(r: Reducer): Sizes {
    if r.Reported? then BucketSizes(r.sub) else NO_SIZES
  }

  ghost predicate InvReports(s: State) {
    && s.sem == SumBy(s.reducers, Unreported())
    && s.acc == ReportedSizes(s.reducers)
    && (s.result.Some? ==> s.sem == 0 && s.result.value == s.acc)
  }

  /** Once every token is gone somebody has closed, or is about to close, reducerQuit. */
  ghost predicate InvLast(s: State)
    requires s.pushed <= |s.shufflers|
  {
    s.pushed == |s.shufflers| && s.tokens == 0 && !Launching(s) && s.pushed > 0
    ==> s.quit || exists j :: 0 <= j < |s.shufflers| && s.shufflers[j].Popped?
  }

  ghost predicate Inv(c: Config, corpus: seq<seq<Word>>, s: State) {
    && InvShape(c, s) && InvCounts(c, corpus, s) && InvTokens(s) && InvShutdown(s) && InvReports(s) && InvLast(s)
  }
}
