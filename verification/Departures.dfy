/** Lines of the search path that do not do what their own design says. Each is modelled as written,
    with exactly what it costs; the other modules model the repaired line. */
module Departures {
  import opened Bytes
  import opened TSet
  import opened Searcher
  import opened TSetBuild
  import opened TSetBuildProofs
  import opened EndToEnd
  import opened Collections

  // ---------- the reader starts at slot 0, the writer at slot 1 ----------

  /** Slot 0 of the queried word shares no address with a slot the client writes. */
  ghost predicate ZeroUnused(env: Env, words: set<Word>, slots: nat, w: Word) {
    forall v, i :: v in words && 1 <= i <= slots ==> !SameSlotAddress(env, v, i, w, 0)
  }

  /** Reading from slot 0 answers nothing, for every word of every corpus. */
  lemma FromZeroReadsNothing(corpus: Corpus, env: Env, s: State, w: Word)
    requires Built(corpus, env, s, w) && ZeroUnused(env, Vocabulary(corpus), |corpus| + 1, w)
    ensures Readable(s.db) && Scan(SlotsOf(env.prims, s.db, Stag(env, w)), 0) == []
  {
    BuiltInv(corpus, env, s, w);
    CompleteReadable(env, s);
    var v := CalcTsetVals(env.prims, Stag(env, w), 0);
    if Get(s.db, v.bucket, v.lbl).Some? {
      var en := StoredAt(corpus, env, s, v.bucket, v.lbl);
      assert SameSlotAddress(env, en.word, en.slot, w, 0);
      assert false;
    }
    assert SlotsOf(env.prims, s.db, Stag(env, w))(0).eId.None?;
  }

  // ---------- the collector writes element i, not element m ----------

  /** `batchResults[i] = <-outChan` once per arrival. */
  function CollectAt(batch: seq<Option<TupleData>>, i: nat, arrivals: seq<TupleData>): seq<Option<TupleData>>
    requires i < |batch|
    ensures |CollectAt(batch, i, arrivals)| == |batch|
  {
    if arrivals == [] then batch
    else CollectAt(batch, i, arrivals[..|arrivals| - 1])[i := Some(arrivals[|arrivals| - 1])]
  }

  /** Only one element is ever filled, whatever arrives; sorting the batch then dereferences nil. In
      the second chunk i is already past the end of the batch. */
  lemma {:induction false} OthersStayNil(batch: seq<Option<TupleData>>, i: nat, arrivals: seq<TupleData>, k: nat)
    requires i < |batch| && k < |batch|
    ensures CollectAt(batch, i, arrivals)[k]
         == if k == i && arrivals != [] then Some(arrivals[|arrivals| - 1]) else batch[k]
  {
    if arrivals != [] {
      OthersStayNil(batch, i, arrivals[..|arrivals| - 1], k);
    }
  }

  // ---------- a miss keeps worker index 0 ----------

  function ZeroIndexed(slots: Slots, j: nat): TupleData {
    if slots(j).eId.None? then slots(j).(workerIndex := 0) else slots(j)
  }

  /** What streaming one batch emits. */
  function Emitted(batch: seq<TupleData>): seq<TupleData> {
    if batch == [] || batch[0].eId.None? then []
    else if batch[0].isLast then [batch[0]]
    else [batch[0]] + Emitted(batch[1..])
  }

  function Chunk(slots: Slots, i: nat, n: nat): seq<TupleData> {
    seq(n, k requires 0 <= k < n => slots(i + k))
  }

  function ZeroIndexedChunk(slots: Slots, i: nat): (r: seq<TupleData>)
    ensures |r| == CHUNK
  {
    seq(CHUNK, k requires 0 <= k < CHUNK => ZeroIndexed(slots, i + k))
  }

  ghost predicate HasMiss(slots: Slots, i: nat) {
    exists t :: t in Chunk(slots, i, CHUNK) && t.eId.None?
  }

  /** With misses at index 0 a chunk is streamed as designed exactly when it has no miss or begins
      with one; otherwise a miss sorts to the front and everything found in the chunk is lost. */
  lemma MissesSortFirst(slots: Slots, i: nat, s: seq<TupleData>)
    requires Indexed(slots) && i >= 1
    requires Ordered(s) && multiset(s) == multiset(ZeroIndexedChunk(slots, i))
    ensures HasMiss(slots, i) ==> Emitted(s) == []
    ensures Emitted(s) == Emitted(Chunk(slots, i, CHUNK)) <==> !HasMiss(slots, i) || slots(i).eId.None?
  {
    var literal, chunk := ZeroIndexedChunk(slots, i), Chunk(slots, i, CHUNK);
    assert |s| == |multiset(s)| == |multiset(literal)| == CHUNK;
    assert chunk[0] == slots(i);
    if HasMiss(slots, i) {
      var t :| t in chunk && t.eId.None?;
      var k :| 0 <= k < CHUNK && chunk[k] == t;
      MissInFront(slots, i, s, k);
    } else {
      NoMissSorted(slots, i, s);
    }
  }

  lemma NoMissSorted(slots: Slots, i: nat, s: seq<TupleData>)
    requires Indexed(slots) && !HasMiss(slots, i)
    requires Ordered(s) && multiset(s) == multiset(ZeroIndexedChunk(slots, i))
    ensures s == Chunk(slots, i, CHUNK)
  {
    var literal, chunk := ZeroIndexedChunk(slots, i), Chunk(slots, i, CHUNK);
    assert |s| == |multiset(s)| == |multiset(literal)| == CHUNK;
    forall k | 0 <= k < CHUNK ensures literal[k] == slots(i + k) {
      assert chunk[k] in chunk;
    }
    SortedBatch(slots, i, literal, s);
  }

  lemma MissInFront(slots: Slots, i: nat, s: seq<TupleData>, k: nat)
    requires Indexed(slots) && i >= 1 && k < CHUNK && slots(i + k).eId.None?
    requires Ordered(s) && multiset(s) == multiset(ZeroIndexedChunk(slots, i)) && |s| == CHUNK
    ensures s[0].eId.None?
  {
    var literal := ZeroIndexedChunk(slots, i);
    assert literal[k] in multiset(s);
    var j :| 0 <= j < |s| && s[j] == literal[k];
    assert s[j].workerIndex == 0 by { assert literal[k] == ZeroIndexed(slots, i + k); }
    assert s[0] in multiset(literal);
    var l :| 0 <= l < CHUNK && literal[l] == s[0];
    assert s[0].workerIndex == 0;
    assert slots(i + l).workerIndex == i + l;
  }

  predicate StopsIn(batch: seq<TupleData>) {
    exists t :: t in batch && Stops(t)
  }

  /** What the reader sends: batch after batch until one stops it. */
  function StreamAll(batches: seq<seq<TupleData>>): seq<TupleData> {
    if batches == [] then []
    else Emitted(batches[0]) + if StopsIn(batches[0]) then [] else StreamAll(batches[1..])
  }

  ghost predicate SortedWithZeros(slots: Slots, i: nat, s: seq<TupleData>) {
    Ordered(s) && multiset(s) == multiset(ZeroIndexedChunk(slots, i))
  }

  /** Sorted batches of consecutive chunks, whatever order the fetchers finish in. */
  ghost predicate LiteralBatches(slots: Slots, i: nat, batches: seq<seq<TupleData>>)
    decreases |batches|
  {
    batches == [] || (SortedWithZeros(slots, i, batches[0]) && LiteralBatches(slots, i + CHUNK, batches[1..]))
  }

  lemma ChunkFirst(slots: Slots, i: nat, n: nat)
    requires n > 0
    ensures Chunk(slots, i, n) == [slots(i)] + Chunk(slots, i + 1, n - 1)
    ensures Emitted(Chunk(slots, i, n))
         == if slots(i).eId.None? then [] else if slots(i).isLast then [slots(i)]
            else [slots(i)] + Emitted(Chunk(slots, i + 1, n - 1))
  {
    assert Chunk(slots, i, n)[1..] == Chunk(slots, i + 1, n - 1);
  }

  lemma {:induction false} EmitsAll(slots: Slots, i: nat, n: nat)
    requires i + n <= FirstStop(slots, i) <= MAX_SLOT
    ensures Emitted(Chunk(slots, i, n)) == Chunk(slots, i, n)
    decreases n
  {
    if n > 0 {
      EmitsAll(slots, i + 1, n - 1);
      ChunkFirst(slots, i, n);
    }
  }

  lemma {:induction false} ScansAll(slots: Slots, i: nat, n: nat)
    requires i + n <= FirstStop(slots, i) <= MAX_SLOT
    ensures Scan(slots, i) == Chunk(slots, i, n) + Scan(slots, i + n)
    decreases n
  {
    if n > 0 {
      ScanStep(slots, i);
      ScansAll(slots, i + 1, n - 1);
      ChunkFirst(slots, i, n);
      Reassociate([slots(i)], Chunk(slots, i + 1, n - 1), Scan(slots, i + n));
    }
  }

  lemma ScanStep(slots: Slots, i: nat)
    requires i < FirstStop(slots, i) <= MAX_SLOT
    ensures Scan(slots, i) == [slots(i)] + Scan(slots, i + 1) && FirstStop(slots, i + 1) == FirstStop(slots, i)
  {
  }

  lemma Reassociate<T>(a: seq<T>, b: seq<T>, c: seq<T>)
    ensures a + (b + c) == (a + b) + c
  {
  }

  lemma {:induction false} ChunkWithStop(slots: Slots, i: nat, n: nat)
    requires FirstStop(slots, i) < i + n && FirstStop(slots, i) <= MAX_SLOT
    ensures Emitted(Chunk(slots, i, n)) == Scan(slots, i)
    decreases n
  {
    ChunkFirst(slots, i, n);
    if !Stops(slots(i)) {
      ChunkWithStop(slots, i + 1, n - 1);
    }
  }

  /** From slot `i` on, a list that ends in a terminator and is followed by misses is read right
      exactly when the terminator ends a chunk. */
  lemma {:induction false} LiteralRead(slots: Slots, i: nat, stop: nat, batches: seq<seq<TupleData>>)
    requires Indexed(slots) && 1 <= i <= stop == FirstStop(slots, i) <= MAX_SLOT && slots(stop).eId.Some?
    requires forall j :: stop < j < stop + CHUNK ==> slots(j).eId.None?
    requires LiteralBatches(slots, i, batches) && stop < i + CHUNK * |batches|
    ensures ReadRight(slots, i, batches) <==> (stop - i + 1) % CHUNK == 0
    decreases |batches|
  {
    ChunkRest(stop - i + 1);
    if stop >= i + CHUNK {
      FullFirst(slots, i, stop, batches);
      LiteralRead(slots, i + CHUNK, stop, batches[1..]);
    } else if stop == i + CHUNK - 1 {
      FullLast(slots, i, stop, batches);
    } else {
      LostChunk(slots, i, stop, batches);
    }
  }

  predicate ReadRight(slots: Slots, i: nat, batches: seq<seq<TupleData>>) {
    StreamAll(batches) == Scan(slots, i)
  }

  lemma FullFirst(slots: Slots, i: nat, stop: nat, batches: seq<seq<TupleData>>)
    requires Indexed(slots) && 1 <= i && i + CHUNK <= stop == FirstStop(slots, i) <= MAX_SLOT
    requires slots(stop).eId.Some? && batches != [] && LiteralBatches(slots, i, batches)
    ensures ReadRight(slots, i, batches) <==> ReadRight(slots, i + CHUNK, batches[1..])
    ensures FirstStop(slots, i + CHUNK) == stop && LiteralBatches(slots, i + CHUNK, batches[1..])
  {
    FullChunk(slots, i, stop, batches[0]);
    EmitsAll(slots, i, CHUNK);
    ScansAll(slots, i, CHUNK);
    SameStop(slots, i, i + CHUNK);
    SamePrefix(Chunk(slots, i, CHUNK), StreamAll(batches[1..]), Scan(slots, i + CHUNK));
  }

  lemma FullLast(slots: Slots, i: nat, stop: nat, batches: seq<seq<TupleData>>)
    requires Indexed(slots) && 1 <= i && i + CHUNK - 1 == stop == FirstStop(slots, i) <= MAX_SLOT
    requires slots(stop).eId.Some? && batches != [] && LiteralBatches(slots, i, batches)
    ensures ReadRight(slots, i, batches)
  {
    FullChunk(slots, i, stop, batches[0]);
    ChunkWithStop(slots, i, CHUNK);
  }

  lemma ChunkRest(n: nat)
    ensures n >= CHUNK ==> n % CHUNK == (n - CHUNK) % CHUNK
    ensures n == CHUNK ==> n % CHUNK == 0
    ensures 0 < n < CHUNK ==> n % CHUNK != 0
  {
  }

  lemma SamePrefix<T>(p: seq<T>, a: seq<T>, b: seq<T>)
    ensures p + a == p + b <==> a == b
  {
    assert (p + a)[|p|..] == a && (p + b)[|p|..] == b;
  }

  /** A chunk that ends in misses is lost. */
  lemma LostChunk(slots: Slots, i: nat, stop: nat, batches: seq<seq<TupleData>>)
    requires Indexed(slots) && 1 <= i <= stop == FirstStop(slots, i) <= MAX_SLOT && slots(stop).eId.Some?
    requires stop < i + CHUNK - 1 && slots(stop + 1).eId.None?
    requires batches != [] && LiteralBatches(slots, i, batches)
    ensures !ReadRight(slots, i, batches)
  {
    var miss := Chunk(slots, i, CHUNK)[stop + 1 - i];
    assert miss == slots(stop + 1);
    MissStops(slots, i, batches[0]);
  }

  lemma FullChunk(slots: Slots, i: nat, stop: nat, s: seq<TupleData>)
    requires Indexed(slots) && 1 <= i && i + CHUNK - 1 <= stop == FirstStop(slots, i) <= MAX_SLOT
    requires slots(stop).eId.Some? && SortedWithZeros(slots, i, s)
    ensures s == Chunk(slots, i, CHUNK) && (StopsIn(s) <==> stop == i + CHUNK - 1)
  {
    NoMissBefore(slots, i, stop);
    NoMissSorted(slots, i, s);
    StopsAtEnd(slots, i, stop);
  }

  lemma NoMissBefore(slots: Slots, i: nat, stop: nat)
    requires i + CHUNK - 1 <= stop == FirstStop(slots, i) <= MAX_SLOT && slots(stop).eId.Some?
    ensures !HasMiss(slots, i)
  {
    var chunk := Chunk(slots, i, CHUNK);
    forall k | 0 <= k < CHUNK ensures chunk[k].eId.Some? {
      assert i + k != stop ==> !Stops(slots(i + k));
    }
  }

  lemma StopsAtEnd(slots: Slots, i: nat, stop: nat)
    requires i + CHUNK - 1 <= stop == FirstStop(slots, i) <= MAX_SLOT
    ensures StopsIn(Chunk(slots, i, CHUNK)) <==> stop == i + CHUNK - 1
  {
    var chunk := Chunk(slots, i, CHUNK);
    if stop == i + CHUNK - 1 {
      assert Stops(chunk[CHUNK - 1]) && chunk[CHUNK - 1] in chunk;
    } else {
      NoStopInside(slots, i, stop);
    }
  }

  lemma NoStopInside(slots: Slots, i: nat, stop: nat)
    requires i + CHUNK <= stop == FirstStop(slots, i) <= MAX_SLOT
    ensures !StopsIn(Chunk(slots, i, CHUNK))
  {
    forall k | i <= k < i + CHUNK ensures !Stops(slots(k)) {
    }
  }

  lemma MissStops(slots: Slots, i: nat, s: seq<TupleData>)
    requires Indexed(slots) && i >= 1 && HasMiss(slots, i) && SortedWithZeros(slots, i, s)
    ensures Emitted(s) == [] && StopsIn(s)
  {
    MissesSortFirst(slots, i, s);
    var chunk := Chunk(slots, i, CHUNK);
    var t :| t in chunk && t.eId.None?;
    var k :| 0 <= k < CHUNK && chunk[k] == t;
    assert |s| == |multiset(s)| == |multiset(ZeroIndexedChunk(slots, i))| == CHUNK;
    MissInFront(slots, i, s, k);
    assert Stops(s[0]);
  }

  /** Behind the terminator of a finished list there is nothing, unless addresses collide. */
  lemma NothingBehind(corpus: Corpus, env: Env, s: State, w: Word, j: nat)
    requires InvDb(SealerOf(env), s) && InvDocs(corpus, s) && Readable(s.db)
    requires DistinctAddresses(env, Vocabulary(corpus) + {w}, |corpus| + CHUNK)
    requires |OrderOf(s, w)| + 1 < j <= |corpus| + CHUNK
    ensures Fetch(env.prims, s.db, Stag(env, w), j).eId.None?
  {
    var v := CalcTsetVals(env.prims, Stag(env, w), j);
    if Get(s.db, v.bucket, v.lbl).Some? {
      var en := StoredAt(corpus, env, s, v.bucket, v.lbl);
      assert SameSlotAddress(env, en.word, en.slot, w, j);
      assert false;
    }
  }

  /** Whatever is stored is some entry of the build, at that entry's address. */
  lemma StoredAt(corpus: Corpus, env: Env, s: State, bucket: Bytes, lbl: Bytes) returns (en: Entry)
    requires InvDb(SealerOf(env), s) && InvDocs(corpus, s) && Get(s.db, bucket, lbl).Some?
    ensures en.word in Vocabulary(corpus) && 1 <= en.slot <= |OrderOf(s, en.word)| + 1 <= |corpus| + 1
    ensures var v := CalcTsetVals(env.prims, Stag(env, en.word), en.slot); v.bucket == bucket && v.lbl == lbl
  {
    var e := SealerOf(env);
    en :| Sealable(e, s, en) && e.seal(en) == Fragment(bucket, lbl, Get(s.db, bucket, lbl).value);
    OrderBounded(corpus, s, en.word);
  }

  /** A search of a finished build with misses at index 0: the answer is right exactly when the word
      is in no document or its list fills its last chunk. */
  lemma ZeroMissesRightIff(corpus: Corpus, env: Env, s: State, w: Word, batches: seq<seq<TupleData>>)
    requires Built(corpus, env, s, w) && DistinctAddresses(env, Vocabulary(corpus) + {w}, |corpus| + CHUNK)
    requires Readable(s.db) && LiteralBatches(SlotsOf(env.prims, s.db, Stag(env, w)), 1, batches)
    requires |Hits(corpus, w)| < CHUNK * |batches|
    ensures StreamAll(batches) == Scan(SlotsOf(env.prims, s.db, Stag(env, w)), 1)
       <==> Hits(corpus, w) == {} || (|Hits(corpus, w)| + 1) % CHUNK == 0
  {
    var slots := SlotsOf(env.prims, s.db, Stag(env, w));
    SearchRefinesMap(corpus, env, s, w);
    if Hits(corpus, w) == {} {
      assert Chunk(slots, 1, CHUNK)[0] == slots(1);
      MissStops(slots, 1, batches[0]);
    } else {
      BehindTerminator(corpus, env, s, w);
      LiteralRead(slots, 1, |Hits(corpus, w)| + 1, batches);
    }
  }

  lemma BehindTerminator(corpus: Corpus, env: Env, s: State, w: Word)
    requires Built(corpus, env, s, w) && DistinctAddresses(env, Vocabulary(corpus) + {w}, |corpus| + CHUNK)
    requires Readable(s.db) && Hits(corpus, w) != {}
    ensures var slots, stop := SlotsOf(env.prims, s.db, Stag(env, w)), |Hits(corpus, w)| + 1;
            && slots(stop).eId.Some?
            && forall j :: stop < j < stop + CHUNK ==> slots(j).eId.None?
  {
    TerminatorThere(corpus, env, s, w);
    BuiltInv(corpus, env, s, w);
    OrderBounded(corpus, s, w);
    var slots, stop := SlotsOf(env.prims, s.db, Stag(env, w)), |Hits(corpus, w)| + 1;
    forall j | stop < j < stop + CHUNK ensures slots(j).eId.None? {
      NothingBehind(corpus, env, s, w, j);
    }
  }

  lemma TerminatorThere(corpus: Corpus, env: Env, s: State, w: Word)
    requires Built(corpus, env, s, w) && Readable(s.db) && Hits(corpus, w) != {}
    ensures |OrderOf(s, w)| == |Hits(corpus, w)|
    ensures Fetch(env.prims, s.db, Stag(env, w), |Hits(corpus, w)| + 1).eId.Some?
  {
    BuiltInv(corpus, env, s, w);
    CompleteState(corpus, SealerOf(env), s, w);
    ElementsSize(OrderOf(s, w));
    SlotHolds(env, s, w, |Hits(corpus, w)|);
  }

  // ---------- the fetcher swaps bucket and label ----------

  /** Every bucket key the client writes is one byte long. */
  lemma OneByteBuckets(env: Env, s: State, bucket: Bytes, lbl: Bytes)
    requires InvDb(SealerOf(env), s) && Get(s.db, bucket, lbl).Some?
    ensures |bucket| == 1
  {
    var e := SealerOf(env);
    var en :| Sealable(e, s, en) && e.seal(en) == Fragment(bucket, lbl, Get(s.db, bucket, lbl).value);
  }

  /** Looking the label up as the bucket misses every slot of every store the client fills. */
  lemma SwappedAlwaysMisses(corpus: Corpus, env: Env, s: State, w: Word, index: nat)
    requires Built(corpus, env, s, w)
    ensures var v := CalcTsetVals(env.prims, Stag(env, w), index); Get(s.db, v.lbl, v.bucket).None?
  {
    BuiltInv(corpus, env, s, w);
    var v := CalcTsetVals(env.prims, Stag(env, w), index);
    if Get(s.db, v.lbl, v.bucket).Some? {
      OneByteBuckets(env, s, v.lbl, v.bucket);
    }
  }

  // ---------- the slice offsets ----------

  /** `[1:eIdLength]` and `[eIdLength:blindLength]` with lengths 4 and 28. */
  function OpenAsWritten(otp: Bytes, data: Bytes, index: nat): TupleData
    requires |otp| == OTP_BYTES <= |data|
  {
    var plain := Xor(otp, data);
    TupleData(Some(plain[1..EID_BYTES]), plain[EID_BYTES..BLIND_BYTES], index, plain[0] == 1)
  }

  /** The client's decoding reads four bytes, and stops if there are fewer. */
  function DecodeId(eId: Bytes): Option<nat> {
    if |eId| < EID_BYTES then None else Some(FromBigEndian(eId[..EID_BYTES]))
  }

  /** The id comes back without its last byte, which leads the blinding value instead; the client
      cannot decode what is left. */
  lemma OffsetsLoseLastByte(e: Env, en: Entry)
    requires Usable(e, en) && en.docId < TWO32
    ensures var t := OpenAsWritten(CalcTsetVals(e.prims, Stag(e, en.word), en.slot).otp, Seal(e, en).data, en.slot);
            && |t.eId.value| == 3 && FromBigEndian(t.eId.value) == en.docId / 256
            && DecodeId(t.eId.value) == None
            && t.blindingVal == [en.docId % 256] + BigEndian(BlindOf(e, en).value, BLIND_BYTES)[..23]
            && t.isLast == en.last
  {
    XorCommutes(CalcTsetVals(e.prims, Stag(e, en.word), en.slot).otp, Seal(e, en).data);
    SealedPlain(e, en);
    PackAtOffsets(en.last, en.docId, BlindOf(e, en).value);
  }

  lemma PackAtOffsets(last: bool, docId: nat, y: nat)
    requires docId < TWO32
    ensures var plain := Pack(last, docId, y);
            && FromBigEndian(plain[1..4]) == docId / 256
            && plain[4..28] == [docId % 256] + BigEndian(y, BLIND_BYTES)[..23]
            && plain[0] == (if last then 1 else 0)
  {
    var plain, id := Pack(last, docId, y), BigEndian(docId, 4);
    assert plain[1..4] == id[..3] == BigEndian(docId / 256, 3);
    assert plain[4..28] == [id[3]] + BigEndian(y, BLIND_BYTES)[..23];
    assert Pow256(3) == 0x100_0000;
    BigEndianRoundTrip(docId / 256, 3);
  }

  // ---------- y is written without padding ----------

  /** The server XORs over the whole pad, and so stays inside the stored tuple exactly when y fills
      its 28 bytes: a y below 256^27 stops the server. */
  lemma UnpaddedReadableIff(y: nat)
    requires y < Pow256(BLIND_BYTES)
    ensures OTP_BYTES <= 1 + EID_BYTES + |MinimalBytes(y)| <==> y >= Pow256(BLIND_BYTES - 1)
  {
    MinimalWidth(y, BLIND_BYTES);
    MinimalWidth(y, BLIND_BYTES - 1);
  }

  // ---------- the PRFs are reset per document ----------

  /** hash.Hash: Sum does not consume what was written. */
  class Prf {
    const cmac: (Bytes, Bytes) -> Bytes
    const key: Bytes
    var written: Bytes

    constructor (cmac: (Bytes, Bytes) -> Bytes, key: Bytes)
      ensures this.cmac == cmac && this.key == key && written == []
    {
      this.cmac, this.key, this.written := cmac, key, [];
    }

    method Write(b: Bytes)
      modifies this
      ensures written == old(written) + b
    {
      written := written + b;
    }

    method Sum() returns (r: Bytes)
      ensures r == cmac(key, written)
    {
      r := cmac(key, written);
    }

    method Reset()
      modifies this
      ensures written == []
    {
      written := [];
    }
  }

  function Join(words: seq<Word>): Bytes {
    if words == [] then [] else Join(words[..|words| - 1]) + words[|words| - 1]
  }

  /** The stags tSetWorker computes for one document, in the order it ranges over the words. */
  method StagsOfDocument(prf: Prf, words: seq<Word>) returns (stags: seq<Bytes>)
    requires prf.written == []
    modifies prf
    ensures prf.written == [] && |stags| == |words|
    ensures forall k :: 0 <= k < |words| ==> stags[k] == prf.cmac(prf.key, Join(words[..k + 1]))
  {
    stags := [];
    for i := 0 to |words|
      invariant |stags| == i && prf.written == Join(words[..i])
      invariant forall k :: 0 <= k < i ==> stags[k] == prf.cmac(prf.key, Join(words[..k + 1]))
    {
      assert words[..i + 1][..i] == words[..i];
      prf.Write(words[i]);
      var stag := prf.Sum();
      stags := stags + [stag];
    }
    prf.Reset();
  }

  /** The input to the PRF is the word itself exactly when every word before it is empty; tokens
      never are, so only the first word of a document gets its own stag. */
  lemma OwnInputIff(words: seq<Word>, k: nat)
    requires k < |words|
    ensures Join(words[..k + 1]) == words[k] <==> forall j :: 0 <= j < k ==> words[j] == []
  {
    assert words[..k + 1][..k] == words[..k];
    JoinEmpty(words[..k]);
    var before := Join(words[..k]);
    assert forall j :: 0 <= j < k ==> words[..k][j] == words[j];
    if before != [] {
      assert |before + words[k]| > |words[k]|;
    } else {
      assert before + words[k] == words[k];
    }
  }

  lemma {:induction false} JoinEmpty(words: seq<Word>)
    ensures Join(words) == [] <==> forall j :: 0 <= j < |words| ==> words[j] == []
  {
    if words != [] {
      var n := |words| - 1;
      JoinEmpty(words[..n]);
      assert forall j :: 0 <= j < n ==> words[..n][j] == words[j];
    }
  }
}
