/** Build, upload and search together answer like the plain map from words to documents. */
module EndToEnd {
  import opened Bytes
  import opened TSet
  import opened Searcher
  import opened TSetBuild
  import opened TSetBuildProofs
  import opened Collections

  /** The client of one key set. An entry it cannot blind still has an address but no data. */
  function SealerOf(env: Env): Sealer {
    Sealer((en: Entry) => Usable(env, en), (en: Entry) => SealOrStop(env, en))
  }

  function SealOrStop(env: Env, en: Entry): (f: Fragment)
    ensures Usable(env, en) ==> f == Seal(env, en)
  {
    var v := CalcTsetVals(env.prims, Stag(env, en.word), en.slot);
    if Usable(env, en) then Seal(env, en) else Fragment(v.bucket, v.lbl, [])
  }

  predicate SameSlotAddress(env: Env, w: Word, i: nat, w': Word, i': nat) {
    var v, v' := CalcTsetVals(env.prims, Stag(env, w), i), CalcTsetVals(env.prims, Stag(env, w'), i');
    v.bucket == v'.bucket && v.lbl == v'.lbl
  }

  /** The hypothesis on the PRF and the hash: over these words and slots, (stag, index) determines
      (bucket, label). */
  ghost predicate DistinctAddresses(env: Env, words: set<Word>, slots: nat) {
    forall w, i, w', i' ::
      (w in words && w' in words && 1 <= i <= slots && 1 <= i' <= slots && SameSlotAddress(env, w, i, w', i'))
      ==> w == w' && i == i'
  }

  /** Over these words the stag PRF does not collide, and over these stags and slots the first 17
      bytes of the digest, which are bucket and label, do not. */
  ghost predicate DigestsDistinct(env: Env, words: set<Word>, slots: nat) {
    var p, k := env.prims, env.keys.sTag;
    && (forall w, w' :: w in words && w' in words && p.cmac(k, w) == p.cmac(k, w') ==> w == w')
    && (forall w, i: nat, w', i': nat ::
          (&& w in words && w' in words && 1 <= i <= slots && 1 <= i' <= slots
           && p.sha512(p.cmac(p.cmac(k, w), BigEndian(i, 4)))[..17] == p.sha512(p.cmac(p.cmac(k, w'), BigEndian(i', 4)))[..17])
          ==> p.cmac(k, w) == p.cmac(k, w') && i == i')
  }

  /** The hypothesis on addresses follows from the primitives. */
  lemma AddressesFromPrimitives(env: Env, words: set<Word>, slots: nat)
    requires DigestsDistinct(env, words, slots)
    ensures DistinctAddresses(env, words, slots)
  {
    forall w, i: nat, w', i': nat |
      && w in words && w' in words && 1 <= i <= slots && 1 <= i' <= slots
      && SameSlotAddress(env, w, i, w', i')
      ensures w == w' && i == i'
    {
      AddressDigest(env, w, i);
      AddressDigest(env, w', i');
    }
  }

  lemma AddressDigest(env: Env, w: Word, i: nat)
    ensures var v := CalcTsetVals(env.prims, Stag(env, w), i);
            v.bucket + v.lbl == env.prims.sha512(env.prims.cmac(env.prims.cmac(env.keys.sTag, w), BigEndian(i, 4)))[..17]
  {
  }

  /** What a word's inverted list should read like: its documents in slot order, then the
      terminator repeating the last one. */
  function Answer(w: Word, ids: seq<nat>): seq<Entry> {
    if ids == [] then []
    else seq(|ids|, i requires 0 <= i < |ids| => Entry(w, i + 1, ids[i], false))
         + [Entry(w, |ids| + 1, ids[|ids| - 1], true)]
  }

  ghost predicate RunTo(corpus: Corpus, e: Sealer, s0: State, steps: seq<Step>, s: State) {
    Init(corpus, s0) && ValidRun(e, s0, steps) && s == Exec(e, s0, steps)
  }

  /** Some run over `corpus` ends in the complete state `s`; the corpus fits the 32-bit slots and
      its vocabulary, with the queried word, does not collide. */
  ghost predicate Built(corpus: Corpus, env: Env, s: State, w: Word) {
    && |corpus| < MAX_SLOT && Complete(s)
    && DistinctAddresses(env, Vocabulary(corpus) + {w}, |corpus| + 1)
    && exists s0, steps :: RunTo(corpus, SealerOf(env), s0, steps, s)
  }

  lemma BuiltInv(corpus: Corpus, env: Env, s: State, w: Word)
    requires Built(corpus, env, s, w)
    ensures Inv(corpus, SealerOf(env), s)
    ensures Indexable(corpus, SealerOf(env))
    ensures NoCollision(SealerOf(env), Vocabulary(corpus) + {w}, |corpus| + 1)
  {
    var e := SealerOf(env);
    IndexableFromAddresses(corpus, env, Vocabulary(corpus) + {w});
    var s0, steps :| RunTo(corpus, e, s0, steps, s);
    InitInv(corpus, e, s0);
    RunInv(corpus, e, s0, steps);
  }

  lemma IndexableFromAddresses(corpus: Corpus, env: Env, words: set<Word>)
    requires |corpus| < MAX_SLOT && Vocabulary(corpus) <= words
    requires DistinctAddresses(env, words, |corpus| + 1)
    ensures Indexable(corpus, SealerOf(env)) && NoCollision(SealerOf(env), words, |corpus| + 1)
  {
    var e := SealerOf(env);
    forall en: Entry, en': Entry |
      && en.word in words && en'.word in words
      && 1 <= en.slot <= |corpus| + 1 && 1 <= en'.slot <= |corpus| + 1
      && SameAddress(e.seal(en), e.seal(en'))
      ensures en.word == en'.word && en.slot == en'.slot
    {
      assert SameSlotAddress(env, en.word, en.slot, en'.word, en'.slot);
    }
  }

  /** Once complete, every document containing a word has been drawn for it, once, and every
      entry is in the store. */
  lemma CompleteState(corpus: Corpus, e: Sealer, s: State, w: Word)
    requires Inv(corpus, e, s) && Complete(s)
    ensures NoDuplicates(OrderOf(s, w)) && Elements(OrderOf(s, w)) == Hits(corpus, w)
    ensures forall en :: Genuine(s, en) ==> Stored(e, s.db, en)
  {
    forall id | id in corpus ensures s.todo[id] == {} {
      assert !HeldBySome(s, id);
    }
    forall id ensures id in OrderOf(s, w) <==> id in Hits(corpus, w) {
      assert Drawn(s, w, id) <==> id in OrderOf(s, w);
    }
    forall en | Genuine(s, en) ensures Stored(e, s.db, en) {
      assert Swept(s, en.word);
      assert Emitted(e, s, en);
      assert !HasEntry(s, en);
    }
  }

  lemma CompleteReadable(env: Env, s: State)
    requires InvDb(SealerOf(env), s)
    ensures Readable(s.db)
  {
    var e := SealerOf(env);
    forall bucket, lbl | Get(s.db, bucket, lbl).Some?
      ensures |Get(s.db, bucket, lbl).value| >= OTP_BYTES
    {
      var en :| Sealable(e, s, en) && e.seal(en) == Fragment(bucket, lbl, Get(s.db, bucket, lbl).value);
    }
  }

  lemma FetchStored(env: Env, db: Db, en: Entry)
    requires Readable(db) && Stored(SealerOf(env), db, en)
    ensures Usable(env, en) && Fetch(env.prims, db, Stag(env, en.word), en.slot) == Expected(env, en)
  {
    OpenSealed(env, en);
  }

  ghost predicate Answers(env: Env, ts: seq<TupleData>, ens: seq<Entry>) {
    |ts| == |ens| && forall i :: 0 <= i < |ens| ==> Usable(env, ens[i]) && ts[i] == Expected(env, ens[i])
  }

  /** A list ending in its only terminator is what a scan of its slots returns. */
  lemma {:induction false} ScanList(slots: Slots, ts: seq<TupleData>, i: nat)
    requires 1 <= i <= |ts| <= MAX_SLOT
    requires forall k :: 0 <= k < |ts| ==> slots(k + 1) == ts[k] && ts[k].eId.Some?
    requires forall k :: 0 <= k < |ts| ==> (ts[k].isLast <==> k == |ts| - 1)
    ensures Scan(slots, i) == ts[i - 1..] && FirstStop(slots, i) == |ts|
    decreases |ts| - i
  {
    assert slots((i - 1) + 1) == ts[i - 1];
    if i < |ts| {
      ScanList(slots, ts, i + 1);
    }
  }

  lemma SlotHolds(env: Env, s: State, w: Word, k: nat)
    requires Readable(s.db) && (forall en :: Genuine(s, en) ==> Stored(SealerOf(env), s.db, en))
    requires !s.janitor.Waiting? && k < |Answer(w, OrderOf(s, w))|
    ensures var en := Answer(w, OrderOf(s, w))[k];
            Usable(env, en) && Fetch(env.prims, s.db, Stag(env, w), k + 1) == Expected(env, en)
  {
    var en := Answer(w, OrderOf(s, w))[k];
    AnswerGenuine(s, w, k);
    FetchStored(env, s.db, en);
  }

  lemma AnswerGenuine(s: State, w: Word, k: nat)
    requires !s.janitor.Waiting? && k < |Answer(w, OrderOf(s, w))|
    ensures var en := Answer(w, OrderOf(s, w))[k];
            en.word == w && en.slot == k + 1 && Genuine(s, en)
  {
    AnswerAt(w, OrderOf(s, w), k);
  }

  /** Scanning a word's slots in the finished store reads back its inverted list. */
  lemma ScanAnswer(env: Env, s: State, w: Word)
    requires Readable(s.db) && (forall en :: Genuine(s, en) ==> Stored(SealerOf(env), s.db, en))
    requires !s.janitor.Waiting? && OrderOf(s, w) != [] && |OrderOf(s, w)| < MAX_SLOT
    ensures var slots := SlotsOf(env.prims, s.db, Stag(env, w));
            && Answers(env, Scan(slots, 1), Answer(w, OrderOf(s, w)))
            && FirstStop(slots, 1) == |OrderOf(s, w)| + 1
  {
    var ids := OrderOf(s, w);
    AnswerAt(w, ids, 0);
    forall k | 0 <= k <= |ids|
      ensures TupleFor(env, Answer(w, ids)[k], SlotsOf(env.prims, s.db, Stag(env, w))(k + 1), k == |ids|)
    {
      SlotTuple(env, s, w, k);
    }
    ScanTuples(env, SlotsOf(env.prims, s.db, Stag(env, w)), Answer(w, ids));
  }

  /** Slots that hold the tuples of a list, from slot 1 on, scan to its answer. */
  lemma ScanTuples(env: Env, slots: Slots, ens: seq<Entry>)
    requires 0 < |ens| <= MAX_SLOT
    requires forall k :: 0 <= k < |ens| ==> TupleFor(env, ens[k], slots(k + 1), k == |ens| - 1)
    ensures Answers(env, Scan(slots, 1), ens) && FirstStop(slots, 1) == |ens|
  {
    var ts := seq(|ens|, k requires 0 <= k < |ens| => slots(k + 1));
    TuplesAnswer(env, ts, ens);
    ScanList(slots, ts, 1);
    assert ts[0..] == ts;
  }

  lemma TuplesAnswer(env: Env, ts: seq<TupleData>, ens: seq<Entry>)
    requires |ts| == |ens| && forall k :: 0 <= k < |ts| ==> TupleFor(env, ens[k], ts[k], k == |ts| - 1)
    ensures Answers(env, ts, ens)
    ensures forall k :: 0 <= k < |ts| ==> ts[k].eId.Some? && (ts[k].isLast <==> k == |ts| - 1)
  {
  }

  lemma SlotTuple(env: Env, s: State, w: Word, k: nat)
    requires Readable(s.db) && (forall en :: Genuine(s, en) ==> Stored(SealerOf(env), s.db, en))
    requires !s.janitor.Waiting? && k < |Answer(w, OrderOf(s, w))|
    ensures TupleFor(env, Answer(w, OrderOf(s, w))[k], Fetch(env.prims, s.db, Stag(env, w), k + 1), k == |OrderOf(s, w)|)
  {
    SlotHolds(env, s, w, k);
    AnswerAt(w, OrderOf(s, w), k);
  }

  predicate TupleFor(env: Env, en: Entry, t: TupleData, last: bool) {
    Usable(env, en) && t == Expected(env, en) && t.eId.Some? && t.isLast == last
  }

  lemma AnswerAt(w: Word, ids: seq<nat>, i: nat)
    requires i < |Answer(w, ids)| || (i == 0 && ids != [])
    ensures ids != [] && |Answer(w, ids)| == |ids| + 1
    ensures Answer(w, ids)[i] == Entry(w, i + 1, ids[if i < |ids| then i else i - 1], i == |ids|)
  {
  }

  /** A word in no document finds slot 1 empty. */
  lemma ScanMiss(corpus: Corpus, env: Env, s: State, w: Word)
    requires Readable(s.db) && InvDb(SealerOf(env), s) && InvDocs(corpus, s) && OrderOf(s, w) == []
    requires NoCollision(SealerOf(env), Vocabulary(corpus) + {w}, |corpus| + 1)
    ensures var slots := SlotsOf(env.prims, s.db, Stag(env, w));
            Scan(slots, 1) == [] && FirstStop(slots, 1) == 1
  {
    var e := SealerOf(env);
    var v := CalcTsetVals(env.prims, Stag(env, w), 1);
    if Get(s.db, v.bucket, v.lbl).Some? {
      var en :| Sealable(e, s, en) && e.seal(en) == Fragment(v.bucket, v.lbl, Get(s.db, v.bucket, v.lbl).value);
      OrderBounded(corpus, s, en.word);
      var probe := Entry(w, 1, 0, false);
      assert SameAddress(e.seal(en), e.seal(probe));
      assert false;
    }
    var slots := SlotsOf(env.prims, s.db, Stag(env, w));
    assert slots(1).eId.None?;
  }

  /** The end-to-end refinement. For every corpus, every interleaving that runs to completion and
      every word, searching the word's stag reads its inverted list: each document containing it
      exactly once, then the terminator; nothing at all for a word in no document. */
  lemma SearchRefinesMap(corpus: Corpus, env: Env, s: State, w: Word)
    requires Built(corpus, env, s, w)
    ensures NoDuplicates(OrderOf(s, w)) && Elements(OrderOf(s, w)) == Hits(corpus, w)
    ensures |OrderOf(s, w)| == |Hits(corpus, w)|
    ensures Readable(s.db)
    ensures Answers(env, Scan(SlotsOf(env.prims, s.db, Stag(env, w)), 1), Answer(w, OrderOf(s, w)))
    ensures FirstStop(SlotsOf(env.prims, s.db, Stag(env, w)), 1) == |Hits(corpus, w)| + 1 <= MAX_SLOT
  {
    BuiltInv(corpus, env, s, w);
    CompleteState(corpus, SealerOf(env), s, w);
    CompleteReadable(env, s);
    OrderBounded(corpus, s, w);
    ElementsSize(OrderOf(s, w));
    if OrderOf(s, w) == [] {
      ScanMiss(corpus, env, s, w);
    } else {
      ScanAnswer(env, s, w);
    }
  }

  /** The store has a root bucket, so that a search does not stop the server, exactly when some
      document has a word. */
  lemma RootExists(corpus: Corpus, env: Env, s: State, w: Word)
    requires Built(corpus, env, s, w)
    ensures s.db.Root? <==> Vocabulary(corpus) != {}
  {
    BuiltInv(corpus, env, s, w);
    if Vocabulary(corpus) != {} {
      WordsMakeRoot(corpus, SealerOf(env), s);
    } else {
      var s0, steps :| RunTo(corpus, SealerOf(env), s0, steps, s);
      InitInv(corpus, SealerOf(env), s0);
      RootNeedsWrite(corpus, SealerOf(env), s0, steps);
    }
  }

  lemma WordsMakeRoot(corpus: Corpus, e: Sealer, s: State)
    requires Inv(corpus, e, s) && Complete(s) && Vocabulary(corpus) != {}
    ensures s.db.Root?
  {
    var v :| v in Vocabulary(corpus);
    CompleteState(corpus, e, s, v);
    var id :| id in corpus && v in corpus[id];
    assert id in Hits(corpus, v);
    var en := Entry(v, 1, OrderOf(s, v)[0], false);
    assert Genuine(s, en);
    assert Stored(e, s.db, en);
  }

  /** Roots come only from writes, writes only from entries, entries only from words. */
  lemma {:induction false} RootNeedsWrite(corpus: Corpus, e: Sealer, s: State, steps: seq<Step>)
    requires Inv(corpus, e, s) && Indexable(corpus, e) && Vocabulary(corpus) == {} && s.db.NoRoot?
    requires ValidRun(e, s, steps)
    ensures Exec(e, s, steps).db.NoRoot?
    decreases |steps|
  {
    if steps != [] {
      StepInv(corpus, e, s, steps[0]);
      if steps[0].Write? {
        OrderBounded(corpus, s, steps[0].entry.word);
        assert false;
      }
      RootNeedsWrite(corpus, e, Apply(e, s, steps[0]), steps[1..]);
    }
  }

  /** The client's query for a word is the PRF of the word under the stag key. */
  method EncryptQuery(env: Env, w: Word) returns (stag: Bytes)
    ensures stag == env.prims.cmac(env.keys.sTag, w)
  {
    stag := env.prims.cmac(env.keys.sTag, w);
  }

  /** A client's query to a running server over the finished store: the chunked, out-of-order reader returns the
      word's documents in slot order and needs ceil((n + 1) / 20) batches for n of them. */
  method SearchWord(server: EncryptedIndexSearcher, env: Env, w: Word, ghost corpus: Corpus, ghost s: State)
    returns (resps: seq<TupleData>, batches: nat)
    requires Built(corpus, env, s, w) && Vocabulary(corpus) != {}
    requires server.prims == env.prims && server.db == s.db
    ensures Answers(env, resps, Answer(w, OrderOf(s, w)))
    ensures batches == (|Hits(corpus, w)| + 20) / 20
  {
    SearchRefinesMap(corpus, env, s, w);
    RootExists(corpus, env, s, w);
    var stag := EncryptQuery(env, w);
    resps, batches := server.Search(stag);
  }

  /** Decoding the streamed ids gives back the documents, the last one twice. */
  lemma DecodedIds(env: Env, w: Word, ids: seq<nat>, ts: seq<TupleData>, i: nat)
    requires Answers(env, ts, Answer(w, ids)) && i < |ts|
    requires forall k :: 0 <= k < |ids| ==> ids[k] < TWO32
    requires env.modulus <= Pow256(BLIND_BYTES)
    ensures |ts| == if ids == [] then 0 else |ids| + 1
    ensures ts[i].eId.Some? && UnpermuteDocId(ts[i].eId.value) == ids[if i < |ids| then i else i - 1]
    ensures ts[i].isLast <==> i == |ids|
  {
    AnswerAt(w, ids, i);
    ExpectedMeaning(env, Entry(w, i + 1, ids[if i < |ids| then i else i - 1], i == |ids|));
  }
}
