/** Building the T-set: any number of tSet workers draw slots from the shared counter and upload,
    the server writes fragments in any order, and a janitor adds one terminator per word once the
    workers are gone. Every interleaving of these steps is a run. */
module TSetBuild {
  import opened Bytes
  import opened TSet
  import opened WordCounter
  import opened Searcher
  import opened Collections

  /** The client's sealing of an entry, and whether it gets that far: an entry whose blinding value
      has no inverse stops the client instead. */
  datatype Sealer = Sealer(usable: Entry -> bool, seal: Entry -> Fragment)

  /** Document ids with the set of words each document contains. */
  type Corpus = map<nat, set<Word>>

  datatype Worker =
    | Idle
    | Busy(id: nat, held: Option<Entry>)
    | Exited

  datatype Janitor = Waiting | Sweeping(left: set<Word>) | Finished

  datatype State = State(
    queue: seq<nat>,              // documents not yet received by a worker
    workers: seq<Worker>,
    todo: map<nat, set<Word>>,    // words of each document still to be drawn
    counter: Counter,
    inFlight: multiset<Entry>,    // sent, not yet written by the server
    db: Db,
    janitor: Janitor,
    order: map<Word, seq<nat>>)   // history: the documents of each word in the order drawn

  datatype Step =
    | Take(k: nat)
    | Draw(k: nat, word: Word)
    | Send(k: nat)
    | Finish(k: nat)
    | Exit(k: nat)
    | StartJanitor
    | Sweep(word: Word)
    | StopJanitor
    | Write(entry: Entry)

  ghost predicate Init(corpus: Corpus, s: State) {
    && (forall id :: id in corpus <==> id in s.queue)
    && (forall i, j :: 0 <= i < j < |s.queue| ==> s.queue[i] != s.queue[j])
    && (forall k :: 0 <= k < |s.workers| ==> s.workers[k] == Idle)
    && s.todo == corpus && s.counter == map[] && s.inFlight == multiset{}
    && s.db == NoRoot && s.janitor == Waiting && s.order == map[]
  }

  function DrawnEntry(s: State, id: nat, word: Word): Entry {
    Entry(word, (Read(s.counter, word) + 1) % TWO32, id, false)
  }

  function Terminator(s: State, word: Word): Entry
    requires word in s.counter
  {
    Entry(word, (s.counter[word].count + 1) % TWO32, s.counter[word].lastId, true)
  }

  function OrderOf(s: State, word: Word): seq<nat> {
    if word in s.order then s.order[word] else []
  }

  predicate Enabled(e: Sealer, s: State, step: Step) {
    match step
    case Take(k) => k < |s.workers| && s.workers[k].Idle? && s.queue != []
    case Draw(k, word) =>
      && k < |s.workers| && s.workers[k].Busy? && s.workers[k].held.None?
      && s.workers[k].id in s.todo && word in s.todo[s.workers[k].id]
      && e.usable(DrawnEntry(s, s.workers[k].id, word))
    case Send(k) => k < |s.workers| && s.workers[k].Busy? && s.workers[k].held.Some?
    case Finish(k) =>
      && k < |s.workers| && s.workers[k].Busy? && s.workers[k].held.None?
      && s.workers[k].id in s.todo && s.todo[s.workers[k].id] == {}
    case Exit(k) => k < |s.workers| && s.workers[k].Idle? && s.queue == []
    case StartJanitor =>
      && s.janitor.Waiting?
      && forall k :: 0 <= k < |s.workers| ==> s.workers[k].Exited?
    case Sweep(word) =>
      && s.janitor.Sweeping? && word in s.janitor.left && word in s.counter
      && e.usable(Terminator(s, word))
    case StopJanitor => s.janitor.Sweeping? && s.janitor.left == {}
    case Write(entry) => entry in s.inFlight && e.usable(entry)
  }

  function Apply(e: Sealer, s: State, step: Step): State
    requires Enabled(e, s, step)
  {
    match step
    case Take(k) =>
      s.(workers := s.workers[k := Busy(s.queue[0], None)], queue := s.queue[1..])
    case Draw(k, word) =>
      var id := s.workers[k].id;
      s.(workers := s.workers[k := Busy(id, Some(DrawnEntry(s, id, word)))],
         todo := s.todo[id := s.todo[id] - {word}],
         counter := Bump(s.counter, word, id),
         order := s.order[word := OrderOf(s, word) + [id]])
    case Send(k) =>
      s.(workers := s.workers[k := Busy(s.workers[k].id, None)],
         inFlight := s.inFlight + multiset{s.workers[k].held.value})
    case Finish(k) => s.(workers := s.workers[k := Idle])
    case Exit(k) => s.(workers := s.workers[k := Exited])
    case StartJanitor => s.(janitor := Sweeping(s.counter.Keys))
    case Sweep(word) =>
      s.(janitor := Sweeping(s.janitor.left - {word}), inFlight := s.inFlight + multiset{Terminator(s, word)})
    case StopJanitor => s.(janitor := Finished)
    case Write(entry) =>
      s.(inFlight := s.inFlight - multiset{entry}, db := Put(s.db, e.seal(entry)))
  }

  predicate ValidRun(e: Sealer, s: State, steps: seq<Step>)
    decreases |steps|
  {
    steps == [] || (Enabled(e, s, steps[0]) && ValidRun(e, Apply(e, s, steps[0]), steps[1..]))
  }

  function Exec(e: Sealer, s: State, steps: seq<Step>): State
    requires ValidRun(e, s, steps)
    decreases |steps|
  {
    if steps == [] then s else Exec(e, Apply(e, s, steps[0]), steps[1..])
  }

  /** The client has nothing left to do and the server has written all it was sent. */
  predicate Complete(s: State) {
    s.queue == [] && s.janitor.Finished? && s.inFlight == multiset{}
  }

  // ---------- the plain map being refined ----------

  function Hits(corpus: Corpus, w: Word): set<nat> {
    set id | id in corpus && w in corpus[id]
  }

  // ---------- invariants ----------

  ghost predicate Drawn(s: State, w: Word, id: nat) {
    id in OrderOf(s, w)
  }

  /** Each pair of a word and a document containing it is either still to do or drawn, once. */
  ghost predicate InvDocs(corpus: Corpus, s: State) {
    && s.todo.Keys == corpus.Keys
    && (forall id :: id in corpus ==> s.todo[id] <= corpus[id])
    && (forall w, id :: Drawn(s, w, id) <==> id in corpus && w in corpus[id] && w !in s.todo[id])
    && (forall w :: w in s.order ==> NoDuplicates(s.order[w]) && s.order[w] != [])
  }

  /** Words left to draw belong to a queued document or one a worker holds. */
  ghost predicate InvOwned(corpus: Corpus, s: State) {
    && s.todo.Keys == corpus.Keys
    && forall id :: id in corpus && s.todo[id] != {} ==> id in s.queue || HeldBySome(s, id)
  }

  ghost predicate HeldBySome(s: State, id: nat) {
    exists k :: 0 <= k < |s.workers| && s.workers[k].Busy? && s.workers[k].id == id
  }

  ghost predicate InvCounter(s: State) {
    && s.counter.Keys == s.order.Keys
    && forall w :: w in s.order && s.order[w] != [] ==>
         s.counter[w] == Pair(|s.order[w]|, s.order[w][|s.order[w]| - 1])
  }

  ghost predicate InvPhase(s: State) {
    !s.janitor.Waiting? ==> forall k :: 0 <= k < |s.workers| ==> s.workers[k].Exited?
  }

  /** The entry belongs at its slot: slot i+1 for the i-th drawn document, then the terminator
      repeating the last one. */
  ghost predicate Genuine(s: State, en: Entry) {
    var ids := OrderOf(s, en.word);
    if en.last then
      !s.janitor.Waiting? && ids != [] && en.slot == |ids| + 1 && en.docId == ids[|ids| - 1]
    else
      1 <= en.slot <= |ids| && en.docId == ids[en.slot - 1]
  }

  ghost predicate Sealable(e: Sealer, s: State, en: Entry) {
    Genuine(s, en) && e.usable(en)
  }

  ghost predicate HasEntry(s: State, en: Entry) {
    exists k :: 0 <= k < |s.workers| && s.workers[k].Busy? && s.workers[k].held == Some(en)
  }

  ghost predicate Stored(e: Sealer, db: Db, en: Entry) {
    && e.usable(en)
    && Get(db, e.seal(en).bucket, e.seal(en).lbl) == Some(e.seal(en).data)
  }

  ghost predicate InvEntries(e: Sealer, s: State) {
    && (forall en :: HasEntry(s, en) ==> Sealable(e, s, en) && !en.last)
    && (forall en :: en in s.inFlight ==> Sealable(e, s, en))
  }

  /** The entry is on its way or has arrived. */
  ghost predicate Emitted(e: Sealer, s: State, en: Entry) {
    HasEntry(s, en) || en in s.inFlight || Stored(e, s.db, en)
  }

  ghost predicate Swept(s: State, w: Word) {
    s.janitor.Finished? || (s.janitor.Sweeping? && w !in s.janitor.left)
  }

  /** Nothing drawn or swept is lost. */
  ghost predicate InvCover(e: Sealer, s: State) {
    forall en :: Genuine(s, en) && (en.last ==> Swept(s, en.word)) ==> Emitted(e, s, en)
  }

  /** Nothing is stored that was not drawn. */
  ghost predicate InvDb(e: Sealer, s: State) {
    && forall bucket, lbl :: Get(s.db, bucket, lbl).Some? ==>
         exists en :: Sealable(e, s, en) && e.seal(en) == Fragment(bucket, lbl, Get(s.db, bucket, lbl).value)
  }

  predicate SameAddress(f: Fragment, g: Fragment) {
    f.bucket == g.bucket && f.lbl == g.lbl
  }

  /** Different slots of these words, up to the given number, never share an address. */
  ghost predicate NoCollision(e: Sealer, words: set<Word>, slots: nat) {
    forall en: Entry, en': Entry ::
      (&& en.word in words && en'.word in words
       && 1 <= en.slot <= slots && 1 <= en'.slot <= slots
       && SameAddress(e.seal(en), e.seal(en')))
      ==> en.word == en'.word && en.slot == en'.slot
  }
}
