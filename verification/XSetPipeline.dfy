/** Completion of the X-Set, with one worker per stage: the preprocessor feeds the index and the
    keyword summer, the xSet worker parks each document's tags in a pending sender until the filter
    exists, and the filter only comes into being once the summer has seen every document. */
module XSetPipeline {
  import opened Bytes
  import opened TSet
  import opened XBloom
  import opened Collections

  /** A document with its distinct words, in the order the worker will range over them. */
  datatype Doc = Doc(id: nat, words: seq<Word>)

  /** The xTag of a word in a document, and the capacity of the bloomMaster's message channel. */
  datatype Config = Config(tag: (Word, nat) -> Bytes, cap: nat)

  function TagsOf(c: Config, d: Doc): (r: seq<Bytes>)
    ensures |r| == |d.words|
  {
    seq(|d.words|, i requires 0 <= i < |d.words| => c.tag(d.words[i], d.id))
  }

  function Total(docs: seq<Doc>): nat {
    if docs == [] then 0 else Total(docs[..|docs| - 1]) + |docs[|docs| - 1].words|
  }

  /** totalKeyWordSummer's receive loop: the size the filter is created for. */
  method TotalKeyWordSummer(docs: seq<Doc>) returns (count: nat)
    ensures count == Total(docs)
  {
    count := 0;
    for i := 0 to |docs|
      invariant count == Total(docs[..i])
    {
      assert docs[..i + 1][..i] == docs[..i];
      count := count + |docs[i].words|;
    }
    assert docs[..|docs|] == docs;
  }

  /** xSetWorker's loop over the words of one document, with its PRFs used per word. */
  method ComputeXTags(c: Config, d: Doc) returns (xTags: seq<Bytes>)
    ensures xTags == TagsOf(c, d)
    ensures |xTags| == |d.words| && forall i :: 0 <= i < |xTags| ==> xTags[i] == c.tag(d.words[i], d.id)
  {
    xTags := [];
    for i := 0 to |d.words|
      invariant xTags == TagsOf(c, d)[..i]
    {
      xTags := xTags + [c.tag(d.words[i], d.id)];
    }
  }

  // ---------- the processes ----------

  datatype Pre = PreIdle | PreInv(doc: Doc) | PreSum(doc: Doc) | PreDone
  datatype Splitter = SplitIdle | SplitX(doc: Doc) | SplitT(doc: Doc) | SplitDone
  datatype XWorker = XIdle | XComputing(doc: Doc) | XCounted(doc: Doc) | XDone
  datatype Closer = NotStarted | Spinning | SawZero | Closed
  datatype Streamer = StreamWaiting | StreamReady | StreamHas(doc: Doc) | StreamDone
  datatype Summer = Counting(n: nat) | Summed(n: nat) | SummerDone
  datatype Msg = InitMsg(size: nat) | AddMsg(doc: Doc)

  datatype State = State(
    unread: seq<Doc>,
    pre: Pre,
    invChan: seq<Doc>,           // InvIndexOut, one slot
    sumChan: seq<Doc>,           // KeyWordSummerOut, one slot
    splitter: Splitter,
    worker: XWorker,
    senders: seq<Doc>,           // goroutines parked before `finishedXtags <- xTags`
    sent: nat,                   // senders past the send, before their decrement
    pending: nat,                // pendingXSends
    closer: Closer,
    streamer: Streamer,
    summer: Summer,
    msgs: seq<Msg>,              // msgChan
    bloom: XState,
    uploaded: Option<set<Bytes>>,
    sentOnClosed: bool,          // a send on the closed finishedXtags happened
    handled: seq<Doc>)           // history: documents added to the filter, in order

  datatype Step =
    | PreTake | PreClose | PreSendInv | PreSendSum
    | SplitTake | SplitClose | SplitSendX | SplitSendT
    | XCount | XSpawn | XExit
    | SeeZero | CloseTags
    | Deliver(i: nat) | SendOnClosed(i: nat) | Decrement
    | StreamStart | StreamQueue | StreamExit
    | SumTake | SumClose | SumQueue
    | BloomHandle | Upload

  function Start(corpus: seq<Doc>): State {
    State(corpus, PreIdle, [], [], SplitIdle, XIdle, [], 0, 0, NotStarted, StreamWaiting, Counting(0), [],
          EMPTY, None, false, [])
  }

  function Ready(s: State): bool {
    s.bloom.filter.Some?
  }

  predicate Enabled(c: Config, s: State, step: Step) {
    && !s.bloom.crashed && !s.sentOnClosed
    && match step
       case PreTake => s.pre.PreIdle? && s.unread != []
       case PreClose => s.pre.PreIdle? && s.unread == []
       case PreSendInv => s.pre.PreInv? && |s.invChan| < 1
       case PreSendSum => s.pre.PreSum? && |s.sumChan| < 1
       case SplitTake => s.splitter.SplitIdle? && s.invChan != []
       case SplitClose => s.splitter.SplitIdle? && s.invChan == [] && s.pre.PreDone?
       case SplitSendX => s.splitter.SplitX? && s.worker.XIdle?
       case SplitSendT => s.splitter.SplitT?
       case XCount => s.worker.XComputing?
       case XSpawn => s.worker.XCounted?
       case XExit => s.worker.XIdle? && s.splitter.SplitDone?
       case SeeZero => s.closer.Spinning? && s.pending == 0
       case CloseTags => s.closer.SawZero?
       case Deliver(i) => i < |s.senders| && Ready(s) && s.streamer.StreamReady? && !s.closer.Closed?
       case SendOnClosed(i) => i < |s.senders| && Ready(s) && s.closer.Closed?
       case Decrement => s.sent > 0 && s.pending > 0
       case StreamStart => s.streamer.StreamWaiting? && Ready(s)
       case StreamQueue => s.streamer.StreamHas? && |s.msgs| < c.cap
       case StreamExit => s.streamer.StreamReady? && s.closer.Closed?
       case SumTake => s.summer.Counting? && s.sumChan != []
       case SumClose => s.summer.Counting? && s.sumChan == [] && s.pre.PreDone?
       case SumQueue => s.summer.Summed? && |s.msgs| < c.cap
       case BloomHandle => s.msgs != []
       case Upload => s.uploaded.None? && s.bloom.closes > 0 && Ready(s)
  }

  function Apply(c: Config, s: State, step: Step): State
    requires Enabled(c, s, step)
  {
    match step
    case PreTake => s.(pre := PreInv(s.unread[0]), unread := s.unread[1..])
    case PreClose => s.(pre := PreDone)
    case PreSendInv => s.(pre := PreSum(s.pre.doc), invChan := s.invChan + [s.pre.doc])
    case PreSendSum => s.(pre := PreIdle, sumChan := s.sumChan + [s.pre.doc])
    case SplitTake => s.(splitter := SplitX(s.invChan[0]), invChan := s.invChan[1..])
    case SplitClose => s.(splitter := SplitDone)
    case SplitSendX => s.(worker := XComputing(s.splitter.doc), splitter := SplitT(s.splitter.doc))
    case SplitSendT => s.(splitter := SplitIdle)
    case XCount => s.(worker := XCounted(s.worker.doc), pending := s.pending + 1)
    case XSpawn => s.(worker := XIdle, senders := s.senders + [s.worker.doc])
    case XExit => s.(worker := XDone, closer := Spinning)
    case SeeZero => s.(closer := SawZero)
    case CloseTags => s.(closer := Closed)
    case Deliver(i) =>
      s.(streamer := StreamHas(s.senders[i]), senders := s.senders[..i] + s.senders[i + 1..], sent := s.sent + 1)
    case SendOnClosed(i) => s.(sentOnClosed := true)
    case Decrement => s.(sent := s.sent - 1, pending := s.pending - 1)
    case StreamStart => s.(streamer := StreamReady)
    case StreamQueue => s.(streamer := StreamReady, msgs := s.msgs + [AddMsg(s.streamer.doc)])
    case StreamExit => s.(streamer := StreamDone)
    case SumTake => s.(summer := Counting(s.summer.n + |s.sumChan[0].words|), sumChan := s.sumChan[1..])
    case SumClose => s.(summer := Summed(s.summer.n))
    case SumQueue => s.(summer := SummerDone, msgs := s.msgs + [InitMsg(s.summer.n)])
    case BloomHandle =>
      var t := s.(msgs := s.msgs[1..]);
      if s.msgs[0].InitMsg? then t.(bloom := HandleInit(s.bloom, s.msgs[0].size))
      else
        var d := s.msgs[0].doc;
        t.(bloom := HandleAdd(s.bloom, TagsOf(c, d)), handled := s.handled + [d])
    case Upload => s.(uploaded := s.bloom.filter)
  }

  predicate ValidRun(c: Config, s: State, steps: seq<Step>)
    decreases |steps|
  {
    steps == [] || (Enabled(c, s, steps[0]) && ValidRun(c, Apply(c, s, steps[0]), steps[1..]))
  }

  function Exec(c: Config, s: State, steps: seq<Step>): State
    requires ValidRun(c, s, steps)
    decreases |steps|
  {
    if steps == [] then s else Exec(c, Apply(c, s, steps[0]), steps[1..])
  }

  /** Every goroutine has returned and the filter was uploaded. */
  predicate Final(s: State) {
    && s.unread == [] && s.pre.PreDone? && s.invChan == [] && s.sumChan == []
    && s.splitter.SplitDone? && s.worker.XDone? && s.senders == [] && s.sent == 0 && s.pending == 0
    && s.closer.Closed? && s.streamer.StreamDone? && s.summer.SummerDone? && s.msgs == []
    && s.uploaded.Some?
  }

  // ---------- the X path and the sum path ----------

  function MsgDocs(msgs: seq<Msg>): seq<Doc> {
    if msgs == [] then []
    else (if msgs[0].AddMsg? then [msgs[0].doc] else []) + MsgDocs(msgs[1..])
  }

  function InStreamer(s: State): seq<Doc> {
    if s.streamer.StreamHas? then [s.streamer.doc] else []
  }

  function InWorker(s: State): seq<Doc> {
    if s.worker.XComputing? || s.worker.XCounted? then [s.worker.doc] else []
  }

  function InSplitter(s: State): seq<Doc> {
    if s.splitter.SplitX? then [s.splitter.doc] else []
  }

  function BeforeInv(s: State): seq<Doc> {
    if s.pre.PreInv? then [s.pre.doc] else []
  }

  function BeforeSum(s: State): seq<Doc> {
    if s.pre.PreInv? || s.pre.PreSum? then [s.pre.doc] else []
  }

  /** On the way to the splitter. */
  function Feed(s: State): seq<Doc> {
    s.invChan + BeforeInv(s) + s.unread
  }

  /** Between the parked senders and the filter. */
  function Front(s: State): seq<Doc> {
    MsgDocs(s.msgs) + InStreamer(s)
  }

  /** From the splitter to the parked senders. */
  function Middle(s: State): seq<Doc> {
    s.senders + InWorker(s) + InSplitter(s)
  }

  /** What will still be handed to the filter, front first. */
  function Upstream(s: State): seq<Doc> {
    Front(s) + Middle(s) + Feed(s)
  }

  /** Everything that has been, or will be, handed to the filter. */
  function XPath(s: State): seq<Doc> {
    s.handled + Upstream(s)
  }

  /** Everything the summer has yet to count. */
  function SumPath(s: State): seq<Doc> {
    s.sumChan + BeforeSum(s) + s.unread
  }

  // ---------- what the filter has been through ----------

  /** The bloomMaster's state after its filter was created for `n` elements and `docs` were added. */
  function Replay(c: Config, n: nat, docs: seq<Doc>): XState {
    if docs == [] then HandleInit(EMPTY, n)
    else HandleAdd(Replay(c, n, docs[..|docs| - 1]), TagsOf(c, docs[|docs| - 1]))
  }

  function AllTags(c: Config, docs: seq<Doc>): set<Bytes> {
    if docs == [] then {} else AllTags(c, docs[..|docs| - 1]) + Elements(TagsOf(c, docs[|docs| - 1]))
  }

  // ---------- invariants ----------

  ghost predicate InvPath(corpus: seq<Doc>, s: State) {
    multiset(XPath(s)) == multiset(corpus)
  }

  ghost predicate InvSum(corpus: seq<Doc>, s: State) {
    match s.summer
    case Counting(n) => n + Total(SumPath(s)) == Total(corpus)
    case Summed(n) => n == Total(corpus)
    case SummerDone => true
  }

  /** The only message before the filter exists is the one that creates it. */
  ghost predicate InvFilter(c: Config, corpus: seq<Doc>, s: State) {
    if Ready(s) then
      && s.summer.SummerDone? && s.bloom == Replay(c, Total(corpus), s.handled)
      && forall i :: 0 <= i < |s.msgs| ==> s.msgs[i].AddMsg?
    else
      && s.bloom == EMPTY && s.handled == [] && s.streamer.StreamWaiting? && s.uploaded.None?
      && s.msgs == if s.summer.SummerDone? then [InitMsg(Total(corpus))] else []
  }

  ghost predicate InvPending(s: State) {
    && s.pending == |s.senders| + s.sent + (if s.worker.XCounted? then 1 else 0)
    && (s.closer.NotStarted? <==> !s.worker.XDone?)
    && (s.closer.SawZero? || s.closer.Closed? ==> s.pending == 0)
    && (s.streamer.StreamDone? ==> s.closer.Closed?)
    && !s.sentOnClosed
  }

  /** Stages finish in order, each with nothing left behind. */
  ghost predicate InvDone(s: State) {
    && (s.pre.PreDone? ==> s.unread == [])
    && (s.splitter.SplitDone? ==> s.pre.PreDone? && s.invChan == [])
    && (s.worker.XDone? ==> s.splitter.SplitDone?)
    && (!s.summer.Counting? ==> s.pre.PreDone? && s.sumChan == [])
  }

  ghost predicate InvUpload(s: State) {
    s.uploaded.Some? ==> s.bloom.closes > 0 && s.uploaded == s.bloom.filter
  }

  ghost predicate Inv(c: Config, corpus: seq<Doc>, s: State) {
    InvPath(corpus, s) && InvSum(corpus, s) && InvFilter(c, corpus, s) && InvPending(s) && InvDone(s)
  }

  /** Work left before a document reaches the xSet worker, on both of its paths. */
  function FeedMeasure(s: State): nat {
    17 * |s.unread|
    + (match s.pre case PreIdle => 1 case PreInv(_) => 17 case PreSum(_) => 4 case PreDone => 0)
    + 12 * |s.invChan| + 2 * |s.sumChan|
    + (match s.splitter case SplitIdle => 1 case SplitX(_) => 12 case SplitT(_) => 2 case SplitDone => 0)
  }

  /** Work left from the xSet worker on. */
  function TagMeasure(s: State): nat {
    (match s.worker case XIdle => 1 case XComputing(_) => 10 case XCounted(_) => 9 case XDone => 0)
    + 7 * |s.senders| + s.sent
    + (match s.closer case NotStarted => 3 case Spinning => 2 case SawZero => 1 case Closed => 0)
    + (match s.streamer case StreamWaiting => 2 case StreamReady => 1 case StreamHas(_) => 6 case StreamDone => 0)
    + (match s.summer case Counting(_) => 6 case Summed(_) => 5 case SummerDone => 0)
    + 4 * |s.msgs|
    + (if s.uploaded.None? then 1 else 0)
    + (if s.sentOnClosed then 0 else 1)
  }

  /** A bound on the number of steps left. */
  function Measure(s: State): nat {
    FeedMeasure(s) + TagMeasure(s)
  }
}
