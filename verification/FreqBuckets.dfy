/** Filling, saving, reloading and querying the frequency filters (the frequency half of
    client_proxy/bloom_master.go). */
module FreqBuckets {
  import opened Bytes
  import opened TSet
  import opened TermFrequency
  import opened Collections
  import opened FreqBatches

  // ---------- the handlers ----------

  /** A filter is the set of terms added to it. */
  type Filter = set<Word>

  datatype FreqState = FreqState(
    filters: map<Bucket, Filter>,
    full: map<Bucket, nat>,
    current: map<Bucket, nat>,
    ready: bool,                          // freqBucketsReady is closed
    crashed: bool,                        // by closing it twice
    finished: seq<(Bucket, Filter)>)      // sent on finishedFreqBlooms, in order

  function At(m: map<Bucket, nat>, b: Bucket): nat {
    if b in m then m[b] else 0
  }

  function AllBuckets(): (r: set<Bucket>)
    ensures forall b: Bucket :: b in r
  {
    var r := {Below100, Below1000, Below10000, Below100000};
    AllListed(r);
    r
  }

  lemma AllListed(r: set<Bucket>)
    requires r == {Below100, Below1000, Below10000, Below100000}
    ensures forall b: Bucket :: b in r
  {
    forall b: Bucket ensures b in r {
      match b
      case Below100 =>
      case Below1000 =>
      case Below10000 =>
      case Below100000 =>
    }
  }

  function HandleInit(f: FreqState, sizes: Sizes): FreqState {
    f.(filters := map b | b in AllBuckets() :: {}, full := map b | b in AllBuckets() :: SizeFor(sizes, b),
       ready := true, crashed := f.crashed || f.ready)
  }

  function HandleAdd(f: FreqState, m: Msg): FreqState {
    if m.bucket !in f.filters then f
    else
      var filter := f.filters[m.bucket] + Elements(m.terms);
      var current := At(f.current, m.bucket) + |m.terms|;
      f.(filters := f.filters[m.bucket := filter],
         current := f.current[m.bucket := current],
         finished := f.finished + if At(f.full, m.bucket) == current then [(m.bucket, filter)] else [])
  }

  function HandleAll(f: FreqState, msgs: seq<Msg>): FreqState {
    if msgs == [] then f else HandleAdd(HandleAll(f, msgs[..|msgs| - 1]), msgs[|msgs| - 1])
  }

  const FRESH := FreqState(map[], map[], map[], false, false, [])

  class FreqMaster {
    var bloomFreqBuckets: map<Bucket, Filter>
    var fullBucketSize: map<Bucket, nat>
    var currentBucketSize: map<Bucket, nat>
    var ready: bool
    var crashed: bool
    var finishedFreqBlooms: seq<(Bucket, Filter)>

    function State(): FreqState
      reads this
    {
      FreqState(bloomFreqBuckets, fullBucketSize, currentBucketSize, ready, crashed, finishedFreqBlooms)
    }

    constructor ()
      ensures State() == FRESH
    {
      bloomFreqBuckets, fullBucketSize, currentBucketSize := map[], map[], map[];
      ready, crashed, finishedFreqBlooms := false, false, [];
    }

    method HandleFreqBucketInit(sizes: Sizes)
      modifies this
      ensures State() == HandleInit(old(State()), sizes)
      ensures ready && crashed == (old(crashed) || old(ready))
      ensures forall b: Bucket :: b in bloomFreqBuckets && bloomFreqBuckets[b] == {}
      ensures fullBucketSize == map[Below100 := sizes.ltHundred, Below1000 := sizes.ltOneK,
                                    Below10000 := sizes.ltTenK, Below100000 := sizes.ltHundredK]
      ensures currentBucketSize == old(currentBucketSize) && finishedFreqBlooms == old(finishedFreqBlooms)
    {
      var left := AllBuckets();
      while left != {}
        invariant forall b: Bucket :: b in left || (b in bloomFreqBuckets && bloomFreqBuckets[b] == {})
        invariant forall b: Bucket :: b in left || (b in fullBucketSize && fullBucketSize[b] == SizeFor(sizes, b))
        invariant currentBucketSize == old(currentBucketSize) && finishedFreqBlooms == old(finishedFreqBlooms)
        invariant ready == old(ready) && crashed == old(crashed)
        decreases left
      {
        var bucketRange :| bucketRange in left;
        left := left - {bucketRange};
        bloomFreqBuckets := bloomFreqBuckets[bucketRange := {}];
        fullBucketSize := fullBucketSize[bucketRange := SizeFor(sizes, bucketRange)];
      }
      // close(b.freqBucketsReady)
      crashed := crashed || ready;
      ready := true;
      assert State().filters == HandleInit(old(State()), sizes).filters;
      assert State().full == HandleInit(old(State()), sizes).full;
    }

    method HandleFreqBucketAdd(msg: Msg)
      modifies this
      ensures State() == HandleAdd(old(State()), msg)
      ensures fullBucketSize == old(fullBucketSize) && ready == old(ready) && crashed == old(crashed)
      ensures msg.bucket !in old(bloomFreqBuckets) ==> State() == old(State())
      ensures forall b :: b != msg.bucket ==>
                && (b in bloomFreqBuckets <==> b in old(bloomFreqBuckets))
                && (b in bloomFreqBuckets ==> bloomFreqBuckets[b] == old(bloomFreqBuckets)[b])
                && At(currentBucketSize, b) == At(old(currentBucketSize), b)
      ensures msg.bucket in old(bloomFreqBuckets) ==>
                && msg.bucket in bloomFreqBuckets
                && (forall t :: t in bloomFreqBuckets[msg.bucket] <==> t in old(bloomFreqBuckets)[msg.bucket] || t in msg.terms)
                && At(currentBucketSize, msg.bucket) == At(old(currentBucketSize), msg.bucket) + |msg.terms|
                && finishedFreqBlooms == old(finishedFreqBlooms)
                     + (if At(fullBucketSize, msg.bucket) == At(currentBucketSize, msg.bucket)
                        then [(msg.bucket, bloomFreqBuckets[msg.bucket])] else [])
    {
      if msg.bucket !in bloomFreqBuckets {
        return;
      }
      var bucket := bloomFreqBuckets[msg.bucket];
      var numAdded := 0;
      while numAdded < |msg.terms|
        invariant 0 <= numAdded <= |msg.terms|
        invariant bucket == old(bloomFreqBuckets[msg.bucket]) + Elements(msg.terms[..numAdded])
      {
        assert Elements(msg.terms[..numAdded + 1]) == Elements(msg.terms[..numAdded]) + {msg.terms[numAdded]};
        bucket := bucket + {msg.terms[numAdded]};
        numAdded := numAdded + 1;
      }
      assert msg.terms[..numAdded] == msg.terms;
      bloomFreqBuckets := bloomFreqBuckets[msg.bucket := bucket];
      currentBucketSize := currentBucketSize[msg.bucket := At(currentBucketSize, msg.bucket) + numAdded];
      if At(fullBucketSize, msg.bucket) == currentBucketSize[msg.bucket] {
        finishedFreqBlooms := finishedFreqBlooms + [(msg.bucket, bucket)];
      }
    }
  }

  // ---------- how often a bucket is signalled ----------

  function Signals(f: seq<(Bucket, Filter)>, b: Bucket): nat {
    if f == [] then 0 else Signals(f[..|f| - 1], b) + if f[|f| - 1].0 == b then 1 else 0
  }

  predicate SignalledOnce(f: seq<(Bucket, Filter)>, b: Bucket) {
    Signals(f, b) == 1
  }

  function FullPrefixes(batches: seq<seq<Word>>, n: nat): nat {
    if batches == [] then 0
    else FullPrefixes(batches[..|batches| - 1], n) + if |Flat(batches)| == n then 1 else 0
  }

  function Handled(sizes: Sizes, msgs: seq<Msg>): FreqState {
    HandleAll(HandleInit(FRESH, sizes), msgs)
  }

  /** What the bloomMaster knows about one bucket after some messages. */
  ghost predicate View(f: FreqState, batches: seq<seq<Word>>, n: nat, b: Bucket) {
    && b in f.filters && f.filters[b] == Elements(Flat(batches))
    && At(f.current, b) == |Flat(batches)|
    && At(f.full, b) == n
    && Signals(f.finished, b) == FullPrefixes(batches, n)
  }

  lemma SignalsAppend(f: seq<(Bucket, Filter)>, x: (Bucket, Filter), b: Bucket)
    ensures Signals(f + [x], b) == Signals(f, b) + if x.0 == b then 1 else 0
  {
    assert (f + [x])[..|f|] == f;
  }

  lemma ViewStep(f: FreqState, m: Msg, batches: seq<seq<Word>>, n: nat, b: Bucket)
    requires View(f, batches, n, b)
    ensures View(HandleAdd(f, m), if m.bucket == b then batches + [m.terms] else batches, n, b)
  {
    if m.bucket == b {
      ViewOwn(f, m, batches, n, b);
    } else if m.bucket in f.filters {
      SignalsAppend(f.finished, (m.bucket, f.filters[m.bucket] + Elements(m.terms)), b);
      assert f.finished + [] == f.finished;
    }
  }

  lemma ViewOwn(f: FreqState, m: Msg, batches: seq<seq<Word>>, n: nat, b: Bucket)
    requires View(f, batches, n, b) && m.bucket == b
    ensures View(HandleAdd(f, m), batches + [m.terms], n, b)
  {
    var filter := f.filters[b] + Elements(m.terms);
    SignalsAppend(f.finished, (b, filter), b);
    assert f.finished + [] == f.finished;
    MoreBatches(batches, m.terms, n);
  }

  lemma MoreBatches(batches: seq<seq<Word>>, batch: seq<Word>, n: nat)
    ensures Elements(Flat(batches + [batch])) == Elements(Flat(batches)) + Elements(batch)
    ensures |Flat(batches + [batch])| == |Flat(batches)| + |batch|
    ensures FullPrefixes(batches + [batch], n)
         == FullPrefixes(batches, n) + if |Flat(batches)| + |batch| == n then 1 else 0
  {
    FlatAppend(batches, batch);
    assert (batches + [batch])[..|batches|] == batches;
  }

  /** Each bucket goes its own way: its filter, its counter and its signals depend only on its own
      messages. */
  lemma {:induction false} BucketView(sizes: Sizes, msgs: seq<Msg>, b: Bucket)
    ensures View(Handled(sizes, msgs), Sent(msgs, b), SizeFor(sizes, b), b)
  {
    if msgs == [] {
      assert HandleInit(FRESH, sizes).filters[b] == {};
    } else {
      var front, m := msgs[..|msgs| - 1], msgs[|msgs| - 1];
      BucketView(sizes, front, b);
      ViewStep(Handled(sizes, front), m, Sent(front, b), SizeFor(sizes, b), b);
      assert Sent(front, b) + [] == Sent(front, b);
    }
  }

  lemma {:induction false} NotFullYet(batches: seq<seq<Word>>, n: nat)
    requires |batches| * BATCH < n && forall i :: 0 <= i < |batches| ==> |batches[i]| == BATCH
    ensures |Flat(batches)| == |batches| * BATCH && FullPrefixes(batches, n) == 0
  {
    if batches != [] {
      NotFullYet(batches[..|batches| - 1], n);
    }
  }

  /** A bucket of n terms is signalled once, except that a positive multiple of the batch size is
      signalled a second time by its empty leftover. */
  lemma SignalsExact(batches: seq<seq<Word>>, n: nat)
    requires Batched(batches, n) && |Flat(batches)| == n
    ensures FullPrefixes(batches, n) == if n > 0 && n % BATCH == 0 then 2 else 1
  {
    var k := n / BATCH;
    var full, last := batches[..k], batches[k];
    assert batches == full + [last];
    if n % BATCH != 0 {
      NotFullYet(full, n);
    } else if k > 0 {
      var before := full[..k - 1];
      assert full == before + [full[k - 1]];
      NotFullYet(before, n);
      FlatAppend(before, full[k - 1]);
    }
  }

  /** No bucket's size is a positive multiple of the batch size. */
  predicate NoFullLeftover(sizes: Sizes) {
    forall b: Bucket :: !Twice(sizes, b)
  }

  predicate Twice(sizes: Sizes, b: Bucket) {
    SizeFor(sizes, b) > 0 && SizeFor(sizes, b) % BATCH == 0
  }

  lemma SignalsOf(m: Counts, msgs: seq<Msg>, b: Bucket)
    requires Populated(m, msgs)
    ensures Signals(Handled(BucketSizes(m), msgs).finished, b) == if Twice(BucketSizes(m), b) then 2 else 1
  {
    assert PopulatedFor(m, msgs, b);
    BucketView(BucketSizes(m), msgs, b);
    ListingSize(Flat(Sent(msgs, b)), Terms(m, b));
    SignalsExact(Sent(msgs, b), SizeFor(BucketSizes(m), b));
  }

  /** What populateBloomFilters queues signals every bucket exactly once if and only if no bucket's
      size is a positive multiple of 10000. */
  lemma SignalledOnceIff(m: Counts, msgs: seq<Msg>)
    requires Populated(m, msgs)
    ensures NoFullLeftover(BucketSizes(m)) <==> AllOnce(Handled(BucketSizes(m), msgs).finished)
  {
    var finished := Handled(BucketSizes(m), msgs).finished;
    forall b: Bucket ensures SignalledOnce(finished, b) <==> !Twice(BucketSizes(m), b) {
      SignalsOf(m, msgs, b);
    }
  }

  lemma ListingSize(ws: seq<Word>, all: set<Word>)
    requires Listing(ws, all)
    ensures |ws| == |all|
  {
    ElementsSize(ws);
    assert Elements(ws) == all;
  }

  /** Some of the bucket's terms, none twice. */
  ghost predicate Partial(ws: seq<Word>, all: set<Word>) {
    NoDuplicates(ws) && Elements(ws) <= all
  }

  lemma FrontPartial(msgs: seq<Msg>, b: Bucket, all: set<Word>)
    requires msgs != [] && Partial(Flat(Sent(msgs, b)), all)
    ensures Partial(Flat(Sent(msgs[..|msgs| - 1], b)), all)
  {
    var front, last := msgs[..|msgs| - 1], msgs[|msgs| - 1];
    if last.bucket == b {
      FlatAppend(Sent(front, b), last.terms);
      PrefixPartial(Flat(Sent(front, b)), last.terms, all);
    } else {
      assert Sent(msgs, b) == Sent(front, b);
    }
  }

  lemma PrefixPartial(ws: seq<Word>, rest: seq<Word>, all: set<Word>)
    requires Partial(ws + rest, all)
    ensures Partial(ws, all)
  {
    var more := ws + rest;
    forall t | t in ws ensures t in all {
      assert t in Elements(more);
    }
    forall i, j | 0 <= i < j < |ws| ensures ws[i] != ws[j] {
      assert more[i] == ws[i] && more[j] == ws[j];
    }
  }

  /** A filter is only ever sent off complete. */
  lemma {:induction false} FinishedComplete(m: Counts, msgs: seq<Msg>, i: nat)
    requires forall b: Bucket :: Partial(Flat(Sent(msgs, b)), Terms(m, b))
    requires i < |Handled(BucketSizes(m), msgs).finished|
    ensures Handled(BucketSizes(m), msgs).finished[i].1 == Terms(m, Handled(BucketSizes(m), msgs).finished[i].0)
  {
    if msgs != [] {
      var front, last := msgs[..|msgs| - 1], msgs[|msgs| - 1];
      if i < |Handled(BucketSizes(m), front).finished| {
        forall b: Bucket ensures Partial(Flat(Sent(front, b)), Terms(m, b)) {
          FrontPartial(msgs, b, Terms(m, b));
        }
        FinishedComplete(m, front, i);
      } else {
        BucketView(BucketSizes(m), msgs, last.bucket);
        BucketView(BucketSizes(m), front, last.bucket);
        FlatAppend(Sent(front, last.bucket), last.terms);
        SameSize(Flat(Sent(msgs, last.bucket)), Terms(m, last.bucket));
      }
    }
  }

  lemma SameSize(ws: seq<Word>, all: set<Word>)
    requires Partial(ws, all) && |ws| == |all|
    ensures Elements(ws) == all
  {
    ListingSize(ws, Elements(ws));
    if w :| w in all && w !in Elements(ws) {
      Smaller(Elements(ws), all, w);
    }
  }

  // ---------- saving, loading and querying ----------

  /** Serialisation of filters, and the false positives of a filter. */
  datatype Codec = Codec(encode: Filter -> Bytes, decode: Bytes -> Option<Filter>, falsePositive: (Filter, Word) -> bool)

  ghost predicate RoundTrips(c: Codec) {
    forall f :: c.decode(c.encode(f)) == Some(f)
  }

  predicate Test(c: Codec, f: Filter, w: Word) {
    w in f || c.falsePositive(f, w)
  }

  /** The buckets stored by the first `n` signals. */
  function Saved(c: Codec, finished: seq<(Bucket, Filter)>, n: nat): map<Bucket, Bytes>
    requires n <= |finished|
  {
    if n == 0 then map[] else Saved(c, finished, n - 1)[finished[n - 1].0 := c.encode(finished[n - 1].1)]
  }

  /** freqBloomSaver stops after four signals, whichever buckets they are for; with fewer it would
      wait forever. */
  method FreqBloomSaver(c: Codec, finished: seq<(Bucket, Filter)>) returns (db: map<Bucket, Bytes>)
    requires |finished| >= NUM_BUCKETS
    ensures db == Saved(c, finished, NUM_BUCKETS)
  {
    db := map[];
    var numSaved := 0;
    while numSaved < NUM_BUCKETS
      invariant 0 <= numSaved <= NUM_BUCKETS
      invariant db == Saved(c, finished, numSaved)
    {
      var (whichBucket, filter) := finished[numSaved];
      db := db[whichBucket := c.encode(filter)];
      numSaved := numSaved + 1;
    }
  }

  predicate Loadable(c: Codec, db: map<Bucket, Bytes>, b: Bucket) {
    b in db && c.decode(db[b]).Some?
  }

  predicate LoadedAt(c: Codec, db: map<Bucket, Bytes>, filters: map<Bucket, Filter>, b: Bucket) {
    Loadable(c, db, b) && b in filters && c.decode(db[b]) == Some(filters[b])
  }

  /** None is the error for a missing or undecodable filter. */
  method LoadFiltersFromDb(c: Codec, db: map<Bucket, Bytes>) returns (r: Option<map<Bucket, Filter>>)
    ensures r.Some? <==> forall b: Bucket :: Loadable(c, db, b)
    ensures r.Some? ==> forall b: Bucket :: LoadedAt(c, db, r.value, b)
  {
    var filters: map<Bucket, Filter> := map[];
    for i := 0 to NUM_BUCKETS
      invariant forall b: Bucket :: IndexOf(b) < i ==> LoadedAt(c, db, filters, b)
    {
      var b := BucketAt(i);
      forall d: Bucket ensures IndexOf(d) == i <==> d == b {
      }
      if b !in db || c.decode(db[b]).None? {
        assert !Loadable(c, db, b);
        return None;
      }
      filters := filters[b := c.decode(db[b]).value];
    }
    forall b: Bucket ensures LoadedAt(c, db, filters, b) && Loadable(c, db, b) {
      assert IndexOf(b) < NUM_BUCKETS;
    }
    r := Some(filters);
  }

  /** queryHandler: the first filter that matches, in whatever order the map is ranged over; None is
      BucketUnknown. */
  method QueryWord(c: Codec, filters: map<Bucket, Filter>, query: Word) returns (r: Option<Bucket>)
    ensures r.Some? ==> r.value in filters && Test(c, filters[r.value], query)
    ensures r.None? ==> forall b :: b in filters ==> !Test(c, filters[b], query)
  {
    var left := filters.Keys;
    while left != {}
      invariant left <= filters.Keys
      invariant forall b :: b in filters && b !in left ==> !Test(c, filters[b], query)
      decreases left
    {
      var bucketRange :| bucketRange in left;
      if Test(c, filters[bucketRange], query) {
        return Some(bucketRange);
      }
      left := left - {bucketRange};
    }
    r := None;
  }

  ghost predicate AllLoadable(c: Codec, db: map<Bucket, Bytes>) {
    forall b: Bucket :: Loadable(c, db, b)
  }

  ghost predicate AllOnce(f: seq<(Bucket, Filter)>) {
    forall b: Bucket :: SignalledOnce(f, b)
  }

  /** The saver's database loads again exactly when its four signals were for four buckets. */
  lemma LoadsIff(c: Codec, finished: seq<(Bucket, Filter)>)
    requires RoundTrips(c) && |finished| >= NUM_BUCKETS
    ensures AllLoadable(c, Saved(c, finished, NUM_BUCKETS)) <==> AllOnce(finished[..NUM_BUCKETS])
  {
    var db, four := Saved(c, finished, NUM_BUCKETS), finished[..NUM_BUCKETS];
    FourSignals(four);
    if AllLoadable(c, db) {
      forall b: Bucket ensures Signalled(four, b) {
        assert Loadable(c, db, b);
        SavedIff(c, finished, NUM_BUCKETS, b);
      }
    }
    if AllOnce(four) {
      forall b: Bucket ensures Loadable(c, db, b) {
        assert Signalled(four, b);
        SavedIff(c, finished, NUM_BUCKETS, b);
      }
    }
  }

  predicate Signalled(f: seq<(Bucket, Filter)>, b: Bucket) {
    Signals(f, b) > 0
  }

  /** Four signals reach all buckets exactly when they reach each once. */
  lemma FourSignals(f: seq<(Bucket, Filter)>)
    ensures AllOnce(f) ==> |f| == NUM_BUCKETS
    ensures |f| == NUM_BUCKETS ==> ((forall b: Bucket :: Signalled(f, b)) <==> AllOnce(f))
  {
    SignalsTotal(f);
    if AllOnce(f) {
      assert SignalledOnce(f, Below100) && SignalledOnce(f, Below1000);
      assert SignalledOnce(f, Below10000) && SignalledOnce(f, Below100000);
      forall b: Bucket ensures Signalled(f, b) {
        assert SignalledOnce(f, b);
      }
    }
    if |f| == NUM_BUCKETS && forall b: Bucket :: Signalled(f, b) {
      forall b: Bucket ensures SignalledOnce(f, b) {
        assert Signalled(f, Below100) && Signalled(f, Below1000);
        assert Signalled(f, Below10000) && Signalled(f, Below100000);
      }
    }
  }

  lemma {:induction false} SavedIff(c: Codec, finished: seq<(Bucket, Filter)>, n: nat, b: Bucket)
    requires RoundTrips(c) && n <= |finished|
    ensures Loadable(c, Saved(c, finished, n), b) <==> Signals(finished[..n], b) > 0
  {
    if n > 0 {
      SavedIff(c, finished, n - 1, b);
      assert finished[..n][..n - 1] == finished[..n - 1];
    }
  }

  lemma {:induction false} SignalsTotal(f: seq<(Bucket, Filter)>)
    ensures |f| == Signals(f, Below100) + Signals(f, Below1000) + Signals(f, Below10000) + Signals(f, Below100000)
  {
    if f != [] {
      SignalsTotal(f[..|f| - 1]);
    }
  }

  lemma {:induction false} SavedComplete(c: Codec, m: Counts, finished: seq<(Bucket, Filter)>, n: nat, b: Bucket)
    requires n <= |finished| && b in Saved(c, finished, n)
    requires forall i :: 0 <= i < |finished| ==> finished[i].1 == Terms(m, finished[i].0)
    ensures Saved(c, finished, n)[b] == c.encode(Terms(m, b))
  {
    if finished[n - 1].0 != b {
      SavedComplete(c, m, finished, n - 1, b);
    }
  }

  // ---------- which sizes survive a restart ----------

  /** A bucket whose size is a positive multiple of the batch size is signalled by its last full
      batch, in whatever order the words come; the others are not signalled before their leftover. */
  lemma MidSignals(m: Counts, mid: seq<Msg>, tail: seq<Msg>, b: Bucket)
    requires Populated(m, mid + tail) && |tail| == NUM_BUCKETS && InOrder(tail)
    ensures Signals(Handled(BucketSizes(m), mid).finished, b) == if Twice(BucketSizes(m), b) then 1 else 0
  {
    BeforeLeftover(mid, tail, IndexOf(b));
    BucketIndex(IndexOf(b), b);
    assert PopulatedFor(m, mid + tail, b);
    BucketView(BucketSizes(m), mid, b);
    FrontSignals(Sent(mid, b), tail[IndexOf(b)].terms, SizeFor(BucketSizes(m), b), m, b);
  }

  lemma FrontSignals(front: seq<seq<Word>>, last: seq<Word>, n: nat, m: Counts, b: Bucket)
    requires Batched(front + [last], n) && n == SizeFor(BucketSizes(m), b)
    requires Listing(Flat(front + [last]), Terms(m, b))
    ensures FullPrefixes(front, n) == if Twice(BucketSizes(m), b) then 1 else 0
    ensures |Flat(front)| + |last| == n
  {
    ListingSize(Flat(front + [last]), Terms(m, b));
    SignalsExact(front + [last], n);
    FlatAppend(front, last);
    assert (front + [last])[..|front|] == front;
  }

  predicate ExtendedBy(f: seq<(Bucket, Filter)>, g: seq<(Bucket, Filter)>, b: Bucket) {
    |g| == |f| + 1 && g[..|f|] == f && g[|f|].0 == b
  }

  lemma HandledSnoc(sizes: Sizes, msgs: seq<Msg>, x: Msg)
    ensures Handled(sizes, msgs + [x]) == HandleAdd(Handled(sizes, msgs), x)
  {
    assert (msgs + [x])[..|msgs|] == msgs;
  }

  /** A bucket's leftover is what it is sent after its full batches. */
  lemma BeforeLeftover(mid: seq<Msg>, tail: seq<Msg>, j: nat)
    requires |tail| == NUM_BUCKETS && InOrder(tail) && j < NUM_BUCKETS
    ensures Sent(mid + tail[..j], BucketAt(j)) == Sent(mid, BucketAt(j))
    ensures Sent(mid + tail, BucketAt(j)) == Sent(mid, BucketAt(j)) + [tail[j].terms]
  {
    SentConcat(mid, tail, BucketAt(j));
    SentConcat(mid, tail[..j], BucketAt(j));
    SentInOrder(tail, BucketAt(j));
    SentInOrder(tail[..j], BucketAt(j));
  }

  /** Each leftover signals its own bucket. */
  lemma LeftoverSignals(m: Counts, mid: seq<Msg>, tail: seq<Msg>, j: nat)
    requires Populated(m, mid + tail) && |tail| == NUM_BUCKETS && InOrder(tail) && j < NUM_BUCKETS
    ensures ExtendedBy(Handled(BucketSizes(m), mid + tail[..j]).finished,
                       Handled(BucketSizes(m), mid + tail[..j + 1]).finished, BucketAt(j))
  {
    LeftoverFits(m, mid, tail, j);
    TailSignals(BucketSizes(m), mid, tail, j);
  }

  lemma TailSignals(sizes: Sizes, mid: seq<Msg>, tail: seq<Msg>, j: nat)
    requires |tail| == NUM_BUCKETS && InOrder(tail) && j < NUM_BUCKETS
    requires |Flat(Sent(mid, BucketAt(j)))| + |tail[j].terms| == SizeFor(sizes, BucketAt(j))
    ensures ExtendedBy(Handled(sizes, mid + tail[..j]).finished, Handled(sizes, mid + tail[..j + 1]).finished, BucketAt(j))
  {
    BeforeLeftover(mid, tail, j);
    LastAddSignals(sizes, mid + tail[..j], tail[j]);
    OneMore(mid, tail, j);
  }

  lemma OneMore(mid: seq<Msg>, tail: seq<Msg>, j: nat)
    requires j < |tail|
    ensures mid + tail[..j + 1] == (mid + tail[..j]) + [tail[j]]
  {
  }

  lemma LastAddSignals(sizes: Sizes, sent: seq<Msg>, x: Msg)
    requires |Flat(Sent(sent, x.bucket))| + |x.terms| == SizeFor(sizes, x.bucket)
    ensures ExtendedBy(Handled(sizes, sent).finished, Handled(sizes, sent + [x]).finished, x.bucket)
  {
    BucketView(sizes, sent, x.bucket);
    FillingAddSignals(Handled(sizes, sent), x, Sent(sent, x.bucket), SizeFor(sizes, x.bucket));
    HandledSnoc(sizes, sent, x);
  }

  lemma LeftoverFits(m: Counts, mid: seq<Msg>, tail: seq<Msg>, j: nat)
    requires Populated(m, mid + tail) && |tail| == NUM_BUCKETS && InOrder(tail) && j < NUM_BUCKETS
    ensures |Flat(Sent(mid, BucketAt(j)))| + |tail[j].terms| == SizeFor(BucketSizes(m), BucketAt(j))
  {
    BeforeLeftover(mid, tail, j);
    assert PopulatedFor(m, mid + tail, BucketAt(j));
    FrontSignals(Sent(mid, BucketAt(j)), tail[j].terms, SizeFor(BucketSizes(m), BucketAt(j)), m, BucketAt(j));
  }

  lemma FillingAddSignals(f: FreqState, m: Msg, batches: seq<seq<Word>>, n: nat)
    requires View(f, batches, n, m.bucket) && |Flat(batches)| + |m.terms| == n
    ensures ExtendedBy(f.finished, HandleAdd(f, m).finished, m.bucket)
  {
  }

  /** `finished` is `mid` followed by the first `n` buckets in order. */
  predicate ThenInOrder(mid: seq<(Bucket, Filter)>, finished: seq<(Bucket, Filter)>, n: nat)
    requires n <= NUM_BUCKETS
  {
    && |finished| == |mid| + n && finished[..|mid|] == mid
    && forall j :: 0 <= j < n ==> finished[|mid| + j].0 == BucketAt(j)
  }

  lemma ThenOneMore(mid: seq<(Bucket, Filter)>, f: seq<(Bucket, Filter)>, g: seq<(Bucket, Filter)>, n: nat)
    requires n < NUM_BUCKETS && ThenInOrder(mid, f, n) && ExtendedBy(f, g, BucketAt(n))
    ensures ThenInOrder(mid, g, n + 1)
  {
    assert g[..|f|][..|mid|] == g[..|mid|];
    forall j | 0 <= j < n ensures g[|mid| + j].0 == BucketAt(j) {
      assert g[..|f|][|mid| + j] == g[|mid| + j];
    }
  }

  /** All signals: those of full batches first, then one per leftover in bucket order. */
  lemma {:induction false} AllSignals(m: Counts, mid: seq<Msg>, tail: seq<Msg>, n: nat)
    requires Populated(m, mid + tail) && |tail| == NUM_BUCKETS && InOrder(tail) && n <= NUM_BUCKETS
    ensures ThenInOrder(Handled(BucketSizes(m), mid).finished, Handled(BucketSizes(m), mid + tail[..n]).finished, n)
  {
    if n == 0 {
      assert mid + tail[..0] == mid;
    } else {
      AllSignals(m, mid, tail, n - 1);
      LeftoverSignals(m, mid, tail, n - 1);
      ThenOneMore(Handled(BucketSizes(m), mid).finished, Handled(BucketSizes(m), mid + tail[..n - 1]).finished,
                  Handled(BucketSizes(m), mid + tail[..n]).finished, n - 1);
    }
  }

  /** The buckets that are signalled twice are the last ones: none, or all from some bucket on. */
  predicate TwiceAtEnd(sizes: Sizes) {
    forall b, b' :: Twice(sizes, b) && IndexOf(b) < IndexOf(b') ==> Twice(sizes, b')
  }

  predicate FullBatches(n: nat) {
    n > 0 && n % 10000 == 0
  }

  lemma AtEndInOrder(sizes: Sizes)
    ensures TwiceAtEnd(sizes)
       <==> && (FullBatches(sizes.ltHundred) ==> FullBatches(sizes.ltOneK))
            && (FullBatches(sizes.ltOneK) ==> FullBatches(sizes.ltTenK))
            && (FullBatches(sizes.ltTenK) ==> FullBatches(sizes.ltHundredK))
  {
    assert Twice(sizes, Below100) <==> FullBatches(sizes.ltHundred);
    assert Twice(sizes, Below1000) <==> FullBatches(sizes.ltOneK);
    assert Twice(sizes, Below10000) <==> FullBatches(sizes.ltTenK);
    assert Twice(sizes, Below100000) <==> FullBatches(sizes.ltHundredK);
    assert IndexOf(Below100) < IndexOf(Below1000) < IndexOf(Below10000) < IndexOf(Below100000);
  }

  lemma {:induction false} SignalsOfAppend(f: seq<(Bucket, Filter)>, g: seq<(Bucket, Filter)>, b: Bucket)
    ensures Signals(f + g, b) == Signals(f, b) + Signals(g, b)
  {
    if g == [] {
      assert f + g == f;
    } else {
      var n := |g| - 1;
      SignalsOfAppend(f, g[..n], b);
      assert (f + g)[..|f| + n] == f + g[..n];
    }
  }

  lemma {:induction false} SignalsInOrder(g: seq<(Bucket, Filter)>, b: Bucket)
    requires |g| <= NUM_BUCKETS && forall j :: 0 <= j < |g| ==> g[j].0 == BucketAt(j)
    ensures Signals(g, b) == if IndexOf(b) < |g| then 1 else 0
  {
    if g != [] {
      SignalsInOrder(g[..|g| - 1], b);
    }
  }

  /** The four signals the saver waits for reach four buckets exactly when the twice signalled
      buckets are the last ones: each of them takes the place of a leftover at the end. */
  lemma FirstFourIff(sizes: Sizes, mid: seq<(Bucket, Filter)>, finished: seq<(Bucket, Filter)>)
    requires forall b: Bucket :: Signals(mid, b) == if Twice(sizes, b) then 1 else 0
    requires ThenInOrder(mid, finished, NUM_BUCKETS)
    ensures |mid| <= NUM_BUCKETS
    ensures AllOnce(finished[..NUM_BUCKETS]) <==> TwiceAtEnd(sizes)
  {
    SignalsTotal(mid);
    var rest := finished[|mid|..NUM_BUCKETS];
    assert finished[..NUM_BUCKETS] == mid + rest;
    forall b: Bucket
      ensures SignalledOnce(finished[..NUM_BUCKETS], b) <==> (Twice(sizes, b) <==> IndexOf(b) >= |rest|)
    {
      SignalsOfAppend(mid, rest, b);
      SignalsInOrder(rest, b);
    }
    CountedAtEnd(sizes, |rest|);
  }

  /** Among four buckets, if all but `n` are signalled twice, these are the ones from `n` on exactly
      when they are the last. */
  lemma CountedAtEnd(sizes: Sizes, n: nat)
    requires var t := (b: Bucket) => if Twice(sizes, b) then 1 else 0;
             t(Below100) + t(Below1000) + t(Below10000) + t(Below100000) == NUM_BUCKETS - n
    ensures (forall b: Bucket :: Twice(sizes, b) <==> IndexOf(b) >= n) <==> TwiceAtEnd(sizes)
  {
    if TwiceAtEnd(sizes) {
      assert Twice(sizes, Below100) ==> Twice(sizes, Below1000);
      assert Twice(sizes, Below1000) ==> Twice(sizes, Below10000);
      assert Twice(sizes, Below10000) ==> Twice(sizes, Below100000);
    }
  }

  /** Whatever order the words come in, the stored filters load again, and hold all their terms, if
      and only if the buckets whose size is a positive multiple of 10000 are the last ones. */
  lemma SurvivesRestart(c: Codec, m: Counts, msgs: seq<Msg>)
    requires RoundTrips(c) && Populated(m, msgs)
    ensures var finished := Handled(BucketSizes(m), msgs).finished;
            && NUM_BUCKETS <= |finished| <= 2 * NUM_BUCKETS
            && (AllLoadable(c, Saved(c, finished, NUM_BUCKETS)) <==> TwiceAtEnd(BucketSizes(m)))
            && forall b: Bucket :: b in Saved(c, finished, NUM_BUCKETS) ==>
                 LoadsAs(c, Saved(c, finished, NUM_BUCKETS), b, Terms(m, b))
  {
    var finished := Handled(BucketSizes(m), msgs).finished;
    var front, tail := msgs[..|msgs| - NUM_BUCKETS], msgs[|msgs| - NUM_BUCKETS..];
    assert msgs == front + tail && tail[..NUM_BUCKETS] == tail;
    var mid := Handled(BucketSizes(m), front).finished;
    AllSignals(m, front, tail, NUM_BUCKETS);
    forall b: Bucket ensures Signals(mid, b) == if Twice(BucketSizes(m), b) then 1 else 0 {
      MidSignals(m, front, tail, b);
    }
    FirstFourIff(BucketSizes(m), mid, finished);
    LoadsIff(c, finished);
    forall b: Bucket ensures Partial(Flat(Sent(msgs, b)), Terms(m, b)) {
      assert PopulatedFor(m, msgs, b);
    }
    forall i | 0 <= i < |finished| ensures finished[i].1 == Terms(m, finished[i].0) {
      FinishedComplete(m, msgs, i);
    }
    forall b: Bucket | b in Saved(c, finished, NUM_BUCKETS)
      ensures LoadsAs(c, Saved(c, finished, NUM_BUCKETS), b, Terms(m, b))
    {
      SavedComplete(c, m, finished, NUM_BUCKETS, b);
    }
  }

  predicate LoadsAs(c: Codec, db: map<Bucket, Bytes>, b: Bucket, f: Filter) {
    b in db && c.decode(db[b]) == Some(f)
  }

  /** The whole life of the frequency filters: fill them, save them, restart, and look a word up.
      Loading fails, and leaves no answer, exactly when some bucket signalled twice comes before one
      that is not. Otherwise every counted word in a bucket is answered with a bucket whose filter
      matches it, its own unless another filter matches too; a word in no bucket is unknown unless
      some filter has a false positive for it. */
  method FillSaveRestartQuery(c: Codec, m: Counts, query: Word) returns (loaded: bool, r: Option<Bucket>)
    requires RoundTrips(c)
    ensures loaded <==> TwiceAtEnd(BucketSizes(m))
    ensures var b := BucketSizes(m);
            loaded <==> && (FullBatches(b.ltHundred) ==> FullBatches(b.ltOneK))
                        && (FullBatches(b.ltOneK) ==> FullBatches(b.ltTenK))
                        && (FullBatches(b.ltTenK) ==> FullBatches(b.ltHundredK))
    ensures loaded && (forall f :: !c.falsePositive(f, query)) ==>
              r == if query !in m then None
                   else if m[query] < 100 then Some(Below100)
                   else if 100 < m[query] < 1000 then Some(Below1000)
                   else if 1000 < m[query] < 10000 then Some(Below10000)
                   else if 10000 < m[query] < 100000 then Some(Below100000)
                   else None
    ensures loaded && r.Some? ==> Test(c, Terms(m, r.value), query)
    ensures loaded && r.None? ==> forall b: Bucket :: !Test(c, Terms(m, b), query)
    ensures forall b: Bucket :: loaded && query in Terms(m, b) ==>
              r.Some? && (r == Some(b) || c.falsePositive(Terms(m, r.value), query))
  {
    var sizes := CalculateBucketSizes(m);
    AtEndInOrder(sizes);
    var msgs := PopulateBloomFilters(m, sizes);
    SurvivesRestart(c, m, msgs);
    var db := FreqBloomSaver(c, Handled(sizes, msgs).finished);
    var filters := LoadFiltersFromDb(c, db);
    if filters.None? {
      return false, None;
    }
    loaded := true;
    forall b: Bucket ensures b in filters.value && filters.value[b] == Terms(m, b) {
      assert LoadedAt(c, db, filters.value, b) && LoadsAs(c, db, b, Terms(m, b));
    }
    r := QueryWord(c, filters.value, query);
    forall b: Bucket | query in Terms(m, b)
      ensures r.Some? && (r == Some(b) || c.falsePositive(Terms(m, r.value), query))
    {
      assert Test(c, filters.value[b], query);
      if query in Terms(m, r.value) {
        OneBucket(m, query, b, r.value);
      }
    }
  }

  lemma OneBucket(m: Counts, w: Word, b: Bucket, b': Bucket)
    requires w in Terms(m, b) && w in Terms(m, b')
    ensures b == b'
  {
  }
}
