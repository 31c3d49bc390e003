/** Queueing the terms of each frequency bucket in batches (populateBloomFilters in
    client_proxy/tf_calc.go). */
module FreqBatches {
  import opened Bytes
  import opened TSet
  import opened TermFrequency
  import opened Collections

  const BATCH: nat := 10000

  datatype Msg = Msg(bucket: Bucket, terms: seq<Word>)

  /** The terms sent for one bucket, message by message. */
  function Sent(msgs: seq<Msg>, b: Bucket): seq<seq<Word>> {
    if msgs == [] then []
    else
      var last := msgs[|msgs| - 1];
      Sent(msgs[..|msgs| - 1], b) + if last.bucket == b then [last.terms] else []
  }

  function Flat(batches: seq<seq<Word>>): seq<Word> {
    if batches == [] then [] else Flat(batches[..|batches| - 1]) + batches[|batches| - 1]
  }

  lemma FlatAppend(batches: seq<seq<Word>>, batch: seq<Word>)
    ensures Flat(batches + [batch]) == Flat(batches) + batch
  {
    assert (batches + [batch])[..|batches|] == batches;
  }

  lemma SentAppend(msgs: seq<Msg>, m: Msg, b: Bucket)
    ensures Sent(msgs + [m], b) == Sent(msgs, b) + if m.bucket == b then [m.terms] else []
  {
    assert (msgs + [m])[..|msgs|] == msgs;
  }

  // ---------- populateBloomFilters ----------

  /** A pre-sized slice with the index of the next free place. */
  datatype Buffer = Buffer(slice: seq<Word>, index: nat)

  function Slot(size: nat): (b: Option<Bucket>)
    ensures forall c: Bucket :: b == Some(c) <==> InBucket(c, size)
  {
    if size < 100 then Some(Below100)
    else if 100 < size < 1000 then Some(Below1000)
    else if 1000 < size < 10000 then Some(Below10000)
    else if 10000 < size < 100000 then Some(Below100000)
    else None
  }

  function SizeFor(sizes: Sizes, b: Bucket): nat {
    match b
    case Below100 => sizes.ltHundred
    case Below1000 => sizes.ltOneK
    case Below10000 => sizes.ltTenK
    case Below100000 => sizes.ltHundredK
  }

  ghost predicate Listing(ws: seq<Word>, all: set<Word>) {
    NoDuplicates(ws) && forall w :: w in ws <==> w in all
  }

  /** Full batches, then one leftover with the rest. */
  ghost predicate Batched(batches: seq<seq<Word>>, n: nat) {
    && |batches| == n / BATCH + 1
    && (forall i :: 0 <= i < |batches| - 1 ==> |batches[i]| == BATCH)
    && |batches[|batches| - 1]| == n % BATCH
  }

  /** The last four messages are the leftovers, in the order of the buckets. */
  predicate LeftoversLast(msgs: seq<Msg>) {
    |msgs| >= NUM_BUCKETS && InOrder(msgs[|msgs| - NUM_BUCKETS..])
  }

  predicate InOrder(tail: seq<Msg>) {
    |tail| <= NUM_BUCKETS && forall i :: 0 <= i < |tail| ==> tail[i].bucket == BucketAt(i)
  }

  /** For each bucket the batches list exactly its terms, none twice; the leftovers come last. */
  ghost predicate Populated(m: Counts, msgs: seq<Msg>) {
    LeftoversLast(msgs) && forall b: Bucket :: PopulatedFor(m, msgs, b)
  }

  ghost predicate PopulatedFor(m: Counts, msgs: seq<Msg>, b: Bucket) {
    Listing(Flat(Sent(msgs, b)), Terms(m, b)) && Batched(Sent(msgs, b), SizeFor(BucketSizes(m), b))
  }

  /** One bucket in mid-loop: what was queued and what is in the buffer list the terms seen so far,
      and the buffer has room for exactly the terms still to come. */
  ghost predicate Filling(batches: seq<seq<Word>>, buf: Buffer, seen: set<Word>, n: nat) {
    && buf.index <= |buf.slice| && buf.index < BATCH
    && (forall i :: 0 <= i < |batches| ==> |batches[i]| == BATCH)
    && Listing(Flat(batches) + buf.slice[..buf.index], seen)
    && |buf.slice| + BATCH * |batches| == n
    && |seen| == BATCH * |batches| + buf.index
  }

  datatype Filler = Filler(msgs: seq<Msg>, bufs: map<Bucket, Buffer>)

  ghost predicate FillingAt(f: Filler, seen: Counts, sizes: Sizes, b: Bucket) {
    b in f.bufs && Filling(Sent(f.msgs, b), f.bufs[b], Terms(seen, b), SizeFor(sizes, b))
  }

  function FreshFiller(sizes: Sizes): Filler {
    Filler([], map[Below100 := FreshBuffer(sizes.ltHundred), Below1000 := FreshBuffer(sizes.ltOneK),
                   Below10000 := FreshBuffer(sizes.ltTenK), Below100000 := FreshBuffer(sizes.ltHundredK)])
  }

  function FreshBuffer(n: nat): (buf: Buffer)
    ensures |buf.slice| == n && buf.index == 0
  {
    Buffer(seq(n, _ => []), 0)
  }

  /** Write the word into its bucket's slice; queue and cut off a full batch. */
  function Place(f: Filler, b: Bucket, word: Word): Filler
    requires b in f.bufs && f.bufs[b].index < |f.bufs[b].slice|
  {
    var slice := f.bufs[b].slice[f.bufs[b].index := word];
    var index := f.bufs[b].index + 1;
    if index == BATCH then
      Filler(f.msgs + [Msg(b, slice[..index])], f.bufs[b := Buffer(slice[index..], 0)])
    else
      Filler(f.msgs, f.bufs[b := Buffer(slice, index)])
  }

  /** With the slices sized by the buckets' own word counts, and the last branch using its own index
      and slice end, every write is in bounds and each bucket's terms are queued exactly once, in
      batches of ten thousand and a leftover. */
  method PopulateBloomFilters(resultMap: Counts, sizes: Sizes) returns (msgs: seq<Msg>)
    requires sizes == BucketSizes(resultMap)
    ensures Populated(resultMap, msgs)
  {
    var f := FreshFiller(sizes);
    var left := resultMap.Keys;
    ghost var seen: Counts := map[];
    forall b: Bucket ensures FillingAt(f, seen, sizes, b) {
      FreshFilling(sizes, b);
    }
    while left != {}
      invariant left <= resultMap.Keys && seen.Keys == resultMap.Keys - left
      invariant forall w :: w in seen ==> seen[w] == resultMap[w]
      invariant forall b: Bucket :: FillingAt(f, seen, sizes, b)
      decreases left
    {
      var word :| word in left;
      left := left - {word};
      var slot := Slot(resultMap[word]);
      if slot.Some? {
        assert FillingAt(f, seen, sizes, slot.value);
        PlaceKeeps(f, seen, resultMap, sizes, slot.value, word, seen[word := resultMap[word]]);
        f := Place(f, slot.value, word);
      } else {
        SkipKeeps(f, seen, resultMap, sizes, word, seen[word := resultMap[word]]);
      }
      seen := seen[word := resultMap[word]];
    }
    assert seen == resultMap;
    msgs := QueueLeftovers(f, resultMap, sizes);
  }

  lemma FreshFilling(sizes: Sizes, b: Bucket)
    ensures FillingAt(FreshFiller(sizes), map[], sizes, b)
  {
    var buf := FreshFiller(sizes).bufs[b];
    assert Sent([], b) == [] && Flat([]) + buf.slice[..0] == [];
    assert Terms(map[], b) == {};
  }

  lemma PlaceKeeps(f: Filler, seen: Counts, all: Counts, sizes: Sizes, b: Bucket, word: Word, more: Counts)
    requires sizes == BucketSizes(all) && word !in seen && word in all && InBucket(b, all[word])
    requires more == seen[word := all[word]]
    requires forall w :: w in seen ==> w in all && seen[w] == all[w]
    requires forall c: Bucket :: FillingAt(f, seen, sizes, c)
    ensures b in f.bufs && f.bufs[b].index < |f.bufs[b].slice|
    ensures forall c: Bucket :: FillingAt(Place(f, b, word), more, sizes, c)
  {
    assert FillingAt(f, seen, sizes, b);
    Smaller(Terms(seen, b), Terms(all, b), word);
    forall c: Bucket ensures FillingAt(Place(f, b, word), more, sizes, c) {
      assert FillingAt(f, seen, sizes, c);
      if c == b {
        PlaceOwn(f, seen, all, sizes, b, word);
      } else {
        PlaceOther(f, seen, all, sizes, b, word, c);
      }
    }
  }

  lemma PlaceOwn(f: Filler, seen: Counts, all: Counts, sizes: Sizes, b: Bucket, word: Word)
    requires FillingAt(f, seen, sizes, b) && word !in seen && word in all && InBucket(b, all[word])
    requires |Terms(seen, b)| < SizeFor(sizes, b)
    ensures f.bufs[b].index < |f.bufs[b].slice|
    ensures FillingAt(Place(f, b, word), seen[word := all[word]], sizes, b)
  {
    assert Terms(seen[word := all[word]], b) == Terms(seen, b) + {word};
    PlaceFills(f, Terms(seen, b), SizeFor(sizes, b), b, word);
  }

  lemma PlaceFills(f: Filler, seen: set<Word>, n: nat, b: Bucket, word: Word)
    requires b in f.bufs && Filling(Sent(f.msgs, b), f.bufs[b], seen, n) && word !in seen && |seen| < n
    ensures f.bufs[b].index < |f.bufs[b].slice|
    ensures var g := Place(f, b, word); Filling(Sent(g.msgs, b), g.bufs[b], seen + {word}, n)
  {
    var buf := f.bufs[b];
    FillOne(Sent(f.msgs, b), buf, seen, n, word);
    if buf.index + 1 == BATCH {
      SentAppend(f.msgs, Msg(b, buf.slice[buf.index := word][..BATCH]), b);
    }
  }

  lemma PlaceOther(f: Filler, seen: Counts, all: Counts, sizes: Sizes, b: Bucket, word: Word, c: Bucket)
    requires FillingAt(f, seen, sizes, c) && c != b && word !in seen && word in all && InBucket(b, all[word])
    requires b in f.bufs && f.bufs[b].index < |f.bufs[b].slice|
    ensures FillingAt(Place(f, b, word), seen[word := all[word]], sizes, c)
  {
    assert Terms(seen[word := all[word]], c) == Terms(seen, c);
    var slice := f.bufs[b].slice[f.bufs[b].index := word];
    if f.bufs[b].index + 1 == BATCH {
      SentAppend(f.msgs, Msg(b, slice[..BATCH]), c);
      assert Sent(f.msgs, c) + [] == Sent(f.msgs, c);
    }
  }

  lemma SkipKeeps(f: Filler, seen: Counts, all: Counts, sizes: Sizes, word: Word, more: Counts)
    requires word !in seen && word in all && Slot(all[word]).None? && more == seen[word := all[word]]
    requires forall c: Bucket :: FillingAt(f, seen, sizes, c)
    ensures forall c: Bucket :: FillingAt(f, more, sizes, c)
  {
    forall c: Bucket ensures FillingAt(f, more, sizes, c) {
      assert FillingAt(f, seen, sizes, c);
      assert Terms(more, c) == Terms(seen, c);
    }
  }

  /** Writing one more term, and flushing the buffer when it reaches a full batch. */
  lemma FillOne(batches: seq<seq<Word>>, buf: Buffer, seen: set<Word>, n: nat, word: Word)
    requires Filling(batches, buf, seen, n) && word !in seen && |seen| < n
    ensures var slice := buf.slice[buf.index := word];
            if buf.index + 1 == BATCH
            then |slice| >= BATCH && Filling(batches + [slice[..BATCH]], Buffer(slice[BATCH..], 0), seen + {word}, n)
            else Filling(batches, Buffer(slice, buf.index + 1), seen + {word}, n)
  {
    var slice := buf.slice[buf.index := word];
    var done := Flat(batches) + buf.slice[..buf.index];
    assert slice[..buf.index + 1] == buf.slice[..buf.index] + [word];
    assert Flat(batches) + slice[..buf.index + 1] == done + [word];
    ListMore(done, seen, word);
    if buf.index + 1 == BATCH {
      FlatAppend(batches, slice[..BATCH]);
      assert Flat(batches + [slice[..BATCH]]) + slice[BATCH..][..0] == done + [word];
    }
  }

  lemma ListMore(ws: seq<Word>, all: set<Word>, w: Word)
    requires Listing(ws, all) && w !in all
    ensures Listing(ws + [w], all + {w})
  {
  }

  /** The unconditional last four adds. */
  method QueueLeftovers(f: Filler, resultMap: Counts, sizes: Sizes) returns (msgs: seq<Msg>)
    requires sizes == BucketSizes(resultMap)
    requires forall b: Bucket :: FillingAt(f, resultMap, sizes, b)
    ensures Populated(resultMap, msgs)
  {
    forall b: Bucket ensures b in f.bufs {
      assert FillingAt(f, resultMap, sizes, b);
    }
    msgs := WithLeftovers(f);
    LeftoversInOrder(f);
    forall b: Bucket
      ensures PopulatedFor(resultMap, msgs, b)
    {
      assert FillingAt(f, resultMap, sizes, b);
      LeftoverSent(f, b);
      LastBatch(Sent(f.msgs, b), f.bufs[b], Terms(resultMap, b), SizeFor(sizes, b));
    }
  }

  function WithLeftovers(f: Filler): seq<Msg>
    requires forall b: Bucket :: b in f.bufs
  {
    f.msgs + Leftovers(f)
  }

  function Leftovers(f: Filler): (tail: seq<Msg>)
    requires forall b: Bucket :: b in f.bufs
    ensures |tail| == NUM_BUCKETS && InOrder(tail)
    ensures forall b: Bucket :: tail[IndexOf(b)].terms == f.bufs[b].slice
  {
    [Msg(Below100, f.bufs[Below100].slice), Msg(Below1000, f.bufs[Below1000].slice),
     Msg(Below10000, f.bufs[Below10000].slice), Msg(Below100000, f.bufs[Below100000].slice)]
  }

  lemma {:induction false} SentConcat(a: seq<Msg>, c: seq<Msg>, b: Bucket)
    ensures Sent(a + c, b) == Sent(a, b) + Sent(c, b)
  {
    if c == [] {
      assert a + c == a;
    } else {
      var n := |c| - 1;
      var front, last := c[..n], c[n];
      SentConcat(a, front, b);
      SentAppend(a + front, last, b);
      assert a + c == (a + front) + [last];
    }
  }

  /** Each bucket gets its own message of the tail. */
  lemma {:induction false} SentInOrder(tail: seq<Msg>, b: Bucket)
    requires InOrder(tail)
    ensures Sent(tail, b) == if IndexOf(b) < |tail| then [tail[IndexOf(b)].terms] else []
  {
    if tail != [] {
      var n := |tail| - 1;
      SentInOrder(tail[..n], b);
      BucketIndex(n, b);
    }
  }

  lemma LeftoversInOrder(f: Filler)
    requires forall b: Bucket :: b in f.bufs
    ensures LeftoversLast(WithLeftovers(f))
  {
    var tail := Leftovers(f);
    assert WithLeftovers(f)[|f.msgs|..] == tail;
  }

  lemma LeftoverSent(f: Filler, b: Bucket)
    requires forall b: Bucket :: b in f.bufs
    ensures Sent(WithLeftovers(f), b) == Sent(f.msgs, b) + [f.bufs[b].slice]
  {
    var tail := Leftovers(f);
    SentConcat(f.msgs, tail, b);
    SentInOrder(tail, b);
  }

  lemma LastBatch(batches: seq<seq<Word>>, buf: Buffer, all: set<Word>, n: nat)
    requires Filling(batches, buf, all, n) && |all| == n
    ensures Listing(Flat(batches + [buf.slice]), all) && Batched(batches + [buf.slice], n)
  {
    FlatAppend(batches, buf.slice);
    assert buf.slice[..buf.index] == buf.slice;
  }
}
