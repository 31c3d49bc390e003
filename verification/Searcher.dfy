/** The search server (server/encrypted_searcher.go): the nested T-set store and the reader that
    fetches it in chunks of twenty. */
module Searcher {
  import opened Bytes
  import opened TSet

  // ---------- the store ----------

  /** The root bucket appears with the first write; below it, one bucket per bucket byte. */
  datatype Db = NoRoot | Root(buckets: map<Bytes, map<Bytes, Bytes>>)

  function Buckets(db: Db): map<Bytes, map<Bytes, Bytes>> {
    if db.Root? then db.buckets else map[]
  }

  function Put(db: Db, f: Fragment): Db {
    var all := Buckets(db);
    var one := if f.bucket in all then all[f.bucket] else map[];
    Root(all[f.bucket := one[f.lbl := f.data]])
  }

  function Get(db: Db, bucket: Bytes, lbl: Bytes): Option<Bytes> {
    if bucket in Buckets(db) && lbl in Buckets(db)[bucket] then Some(Buckets(db)[bucket][lbl]) else None
  }

  lemma GetAfterPut(db: Db, f: Fragment, bucket: Bytes, lbl: Bytes)
    ensures Get(Put(db, f), bucket, lbl)
         == if bucket == f.bucket && lbl == f.lbl then Some(f.data) else Get(db, bucket, lbl)
  {
  }

  /** Any number of transactions, oldest first. */
  function PutAll(fragments: seq<Fragment>): Db {
    if fragments == [] then NoRoot else Put(PutAll(fragments[..|fragments| - 1]), fragments[|fragments| - 1])
  }

  ghost predicate DifferentPlaces(fragments: seq<Fragment>) {
    forall i, j :: 0 <= i < j < |fragments| ==>
      fragments[i].bucket != fragments[j].bucket || fragments[i].lbl != fragments[j].lbl
  }

  lemma LastPlaceFree(front: seq<Fragment>, last: Fragment, f: Fragment)
    requires DifferentPlaces(front + [last]) && f in front
    ensures f.bucket != last.bucket || f.lbl != last.lbl
    ensures DifferentPlaces(front)
  {
    var all := front + [last];
    assert forall i :: 0 <= i < |front| ==> all[i] == front[i];
    var i :| 0 <= i < |front| && front[i] == f;
    assert all[i] == f && all[|front|] == last;
  }

  /** Fragments with different addresses are all there, and nothing else is. */
  lemma {:induction false} PutAllContents(fragments: seq<Fragment>, bucket: Bytes, lbl: Bytes, data: Bytes)
    requires DifferentPlaces(fragments)
    ensures Get(PutAll(fragments), bucket, lbl) == Some(data) <==> Fragment(bucket, lbl, data) in fragments
  {
    if fragments != [] {
      var front, last := fragments[..|fragments| - 1], fragments[|fragments| - 1];
      assert fragments == front + [last];
      PutAllContents(front, bucket, lbl, data);
      GetAfterPut(PutAll(front), last, bucket, lbl);
      if Fragment(bucket, lbl, data) in front {
        LastPlaceFree(front, last, Fragment(bucket, lbl, data));
      }
    }
  }

  /** However streams and writers interleave the same fragments, every lookup answers the same. */
  lemma UploadOrderIrrelevant(a: seq<Fragment>, b: seq<Fragment>, bucket: Bytes, lbl: Bytes)
    requires multiset(a) == multiset(b) && DifferentPlaces(a) && DifferentPlaces(b)
    ensures Get(PutAll(a), bucket, lbl) == Get(PutAll(b), bucket, lbl)
  {
    forall f: Fragment ensures f in a <==> f in b {
      assert f in multiset(a) <==> f in multiset(b);
    }
    if Get(PutAll(a), bucket, lbl).Some? {
      PutAllContents(a, bucket, lbl, Get(PutAll(a), bucket, lbl).value);
      PutAllContents(b, bucket, lbl, Get(PutAll(a), bucket, lbl).value);
    } else if Get(PutAll(b), bucket, lbl).Some? {
      PutAllContents(a, bucket, lbl, Get(PutAll(b), bucket, lbl).value);
      PutAllContents(b, bucket, lbl, Get(PutAll(b), bucket, lbl).value);
    }
  }

  /** Every stored tuple is at least as long as the pad, so unmasking stays in range. */
  ghost predicate Readable(db: Db) {
    forall bucket, lbl :: Get(db, bucket, lbl).Some? ==> |Get(db, bucket, lbl).value| >= OTP_BYTES
  }

  // ---------- the sequential meaning of a search ----------

  const CHUNK: nat := 20

  /** The last slot a chunk can hold before `i + 20` overflows 32 bits. */
  const MAX_SLOT: nat := 4294967280

  /** It ends a chunk, and the chunk after it does not fit below 2^32. */
  lemma LastWholeChunk()
    ensures MAX_SLOT % 20 == 0
    ensures MAX_SLOT + 1 < 0x1_0000_0000 <= MAX_SLOT + 1 + 20
  {
  }

  /** tupleFetcher for one slot. A miss keeps the index it was asked for. */
  function Fetch(p: Primitives, db: Db, stag: Bytes, index: nat): (t: TupleData)
    requires Readable(db)
    ensures t.workerIndex == index
  {
    var v := CalcTsetVals(p, stag, index);
    match Get(db, v.bucket, v.lbl)
    case None => TupleData(None, [], index, false)
    case Some(data) => Open(v.otp, data, index)
  }

  /** What the fetchers answer, slot by slot. */
  type Slots = nat -> TupleData

  ghost predicate Indexed(slots: Slots) {
    forall i :: slots(i).workerIndex == i
  }

  function SlotsOf(p: Primitives, db: Db, stag: Bytes): (slots: Slots)
    requires Readable(db)
    ensures Indexed(slots)
  {
    (i: nat) => Fetch(p, db, stag, i)
  }

  predicate Stops(t: TupleData) {
    t.eId.None? || t.isLast
  }

  /** Fetch the next slot until a miss or a terminator. */
  function Scan(slots: Slots, i: nat): seq<TupleData>
    decreases MAX_SLOT + 1 - i
  {
    if i > MAX_SLOT then []
    else if slots(i).eId.None? then []
    else if slots(i).isLast then [slots(i)]
    else [slots(i)] + Scan(slots, i + 1)
  }

  function FirstStop(slots: Slots, i: nat): (j: nat)
    ensures j >= i
    ensures j <= MAX_SLOT ==> Stops(slots(j))
    ensures forall k :: i <= k < j && k <= MAX_SLOT ==> !Stops(slots(k))
    decreases MAX_SLOT + 1 - i
  {
    if i > MAX_SLOT || Stops(slots(i)) then i else FirstStop(slots, i + 1)
  }

  // ---------- sorting one batch ----------

  predicate Ordered(s: seq<TupleData>) {
    forall j, k :: 0 <= j < k < |s| ==> s[j].workerIndex <= s[k].workerIndex
  }

  function Swapped(s: seq<TupleData>, j: nat, k: nat): (r: seq<TupleData>)
    requires j < |s| && k < |s|
    ensures multiset(r) == multiset(s)
  {
    s[j := s[k]][k := s[j]]
  }

  /** sort.Sort over tupleBatch, as an insertion sort. */
  method SortBatch(a: array<TupleData>)
    modifies a
    ensures Ordered(a[..]) && multiset(a[..]) == multiset(old(a[..]))
  {
    var n := 0;
    while n < a.Length
      invariant n <= a.Length
      invariant Ordered(a[..n])
      invariant multiset(a[..]) == multiset(old(a[..]))
    {
      InsertLast(a, n);
      n := n + 1;
    }
    assert a[..n] == a[..];
  }

  /** The first `n + 1` are ordered once position `k` is left out, and those above `k` are no
      smaller than the element at `k`. */
  ghost predicate OrderedExcept(s: seq<TupleData>, n: nat, k: nat) {
    && k <= n < |s|
    && (forall i, j :: 0 <= i < j <= n && i != k && j != k ==> s[i].workerIndex <= s[j].workerIndex)
    && (forall j :: k < j <= n ==> s[k].workerIndex <= s[j].workerIndex)
  }

  lemma SinkOne(s: seq<TupleData>, n: nat, k: nat)
    requires 0 < k && OrderedExcept(s, n, k) && s[k].workerIndex < s[k - 1].workerIndex
    ensures OrderedExcept(Swapped(s, k - 1, k), n, k - 1)
  {
  }

  method InsertLast(a: array<TupleData>, n: nat)
    requires n < a.Length && Ordered(a[..n])
    modifies a
    ensures Ordered(a[..n + 1]) && multiset(a[..]) == multiset(old(a[..]))
  {
    var k: nat := n;
    assert forall i, j :: 0 <= i < j < n ==> a[..n][i].workerIndex <= a[..n][j].workerIndex;
    while k > 0 && a[k].workerIndex < a[k - 1].workerIndex
      invariant 0 <= k <= n
      invariant OrderedExcept(a[..], n, k)
      invariant multiset(a[..]) == multiset(old(a[..]))
    {
      SinkOne(a[..], n, k);
      ghost var s := a[..];
      a[k - 1], a[k] := a[k], a[k - 1];
      assert a[..] == Swapped(s, k - 1, k);
      k := k - 1;
    }
    assert forall j :: 0 <= j <= n ==> a[..n + 1][j] == a[..][j];
  }

  // ---------- one batch ----------

  ghost predicate Distinct(s: seq<TupleData>) {
    forall j, k :: 0 <= j < k < |s| ==> s[j].workerIndex != s[k].workerIndex
  }

  /** `s` holds answers for different slots of the chunk starting at `i`, in some order. */
  ghost predicate Collected(slots: Slots, i: nat, s: seq<TupleData>) {
    && Distinct(s)
    && forall k :: 0 <= k < |s| ==> i <= s[k].workerIndex < i + CHUNK && s[k] == slots(s[k].workerIndex)
  }

  /** Whatever order the fetchers finished in, the sorted batch is the chunk in slot order. */
  lemma SortedBatch(slots: Slots, i: nat, s: seq<TupleData>, r: seq<TupleData>)
    requires |s| == |r| == CHUNK && Collected(slots, i, s) && Ordered(r) && multiset(r) == multiset(s)
    ensures forall k :: 0 <= k < CHUNK ==> r[k] == slots(i + k)
  {
    forall k | 0 <= k < |r| ensures r[k] in s {
      assert r[k] in multiset(r);
    }
    forall j, k | 0 <= j < k < |r| ensures r[j].workerIndex < r[k].workerIndex {
      StillDistinct(s, r, j, k);
    }
    forall k | 0 <= k < CHUNK ensures r[k] == slots(i + k) {
      AtLeast(r, i, k);
      AtMost(r, i + CHUNK, k);
    }
  }

  lemma StillDistinct(s: seq<TupleData>, r: seq<TupleData>, j: nat, k: nat)
    requires Distinct(s) && multiset(r) == multiset(s) && j < k < |r|
    ensures r[j].workerIndex != r[k].workerIndex
  {
    assert r[j] in multiset(r) && r[k] in multiset(r);
    var a :| 0 <= a < |s| && s[a] == r[j];
    var b :| 0 <= b < |s| && s[b] == r[k];
    OnceInMultiset(s, a);
    TwiceInMultiset(r, j, k);
  }

  lemma TwiceInMultiset(r: seq<TupleData>, j: nat, k: nat)
    requires j < k < |r|
    ensures r[j] == r[k] ==> multiset(r)[r[j]] >= 2
  {
    assert r == r[..k] + r[k..];
    assert r[..k][j] in multiset(r[..k]) && r[k..][0] in multiset(r[k..]);
  }

  lemma OnceInMultiset(s: seq<TupleData>, a: nat)
    requires Distinct(s) && a < |s|
    ensures multiset(s)[s[a]] == 1
  {
    var before, after := s[..a], s[a + 1..];
    assert s == before + [s[a]] + after;
    assert s[a] !in before && s[a] !in after;
  }

  /** Strictly increasing numbers from `lo` on leave no room to fall behind ... */
  lemma {:induction false} AtLeast(r: seq<TupleData>, lo: nat, j: nat)
    requires j < |r| && lo <= r[0].workerIndex
    requires forall j, l :: 0 <= j < l < |r| ==> r[j].workerIndex < r[l].workerIndex
    ensures r[j].workerIndex >= lo + j
  {
    if j > 0 {
      AtLeast(r, lo, j - 1);
    }
  }

  /** ... and, staying below `hi`, none to run ahead. */
  lemma {:induction false} AtMost(r: seq<TupleData>, hi: nat, j: nat)
    requires j < |r| && r[|r| - 1].workerIndex < hi
    requires forall j, l :: 0 <= j < l < |r| ==> r[j].workerIndex < r[l].workerIndex
    ensures r[j].workerIndex + (|r| - j) <= hi
    decreases |r| - j
  {
    if j + 1 < |r| {
      AtMost(r, hi, j + 1);
    }
  }

  function Range(i: nat, n: nat): (r: set<nat>)
    ensures |r| == n && forall j :: j in r <==> i <= j < i + n
  {
    if n == 0 then {} else Range(i, n - 1) + {i + n - 1}
  }

  /** Launch twenty fetchers and collect their answers in whatever order they arrive. */
  method CollectBatch(slots: Slots, i: nat, batch: array<TupleData>)
    requires Indexed(slots) && batch.Length == CHUNK
    modifies batch
    ensures Collected(slots, i, batch[..])
  {
    var outstanding := Range(i, CHUNK);
    var m := 0;
    while m < CHUNK
      invariant m <= CHUNK && |outstanding| == CHUNK - m
      invariant forall j :: j in outstanding ==> i <= j < i + CHUNK
      invariant Collected(slots, i, batch[..m])
      invariant forall k :: 0 <= k < m ==> batch[k].workerIndex !in outstanding
    {
      var j: nat :| j in outstanding;
      outstanding := outstanding - {j};
      batch[m] := slots(j);
      m := m + 1;
      assert batch[..m] == batch[..m - 1] + [slots(j)];
    }
    assert batch[..m] == batch[..];
  }

  /** One round of the reader: collect a chunk and sort it. */
  method FetchBatch(slots: Slots, i: nat, batch: array<TupleData>)
    requires Indexed(slots) && batch.Length == CHUNK
    modifies batch
    ensures forall k :: 0 <= k < CHUNK ==> batch[k] == slots(i + k)
  {
    CollectBatch(slots, i, batch);
    ghost var arrived := batch[..];
    SortBatch(batch);
    SortedBatch(slots, i, arrived, batch[..]);
    assert forall k :: 0 <= k < CHUNK ==> batch[k] == batch[..][k];
  }

  /** Send one sorted batch; `done` reports that the response channel was closed. */
  method Stream(slots: Slots, i: nat, batch: array<TupleData>, sent: seq<TupleData>)
    returns (resps: seq<TupleData>, done: bool)
    requires batch.Length == CHUNK
    requires i <= FirstStop(slots, i) <= MAX_SLOT
    requires forall k :: 0 <= k < CHUNK ==> batch[k] == slots(i + k)
    ensures done <==> FirstStop(slots, i) < i + CHUNK
    ensures done ==> resps == sent + Scan(slots, i)
    ensures !done ==> resps + Scan(slots, i + CHUNK) == sent + Scan(slots, i)
  {
    ghost var stop := FirstStop(slots, i);
    resps := sent;
    var k := 0;
    while k < CHUNK
      invariant 0 <= k <= CHUNK && i + k <= stop
      invariant resps + Scan(slots, i + k) == sent + Scan(slots, i)
    {
      var t := batch[k];
      assert t == slots(i + k);
      if t.eId.None? {
        return resps, true;
      }
      if t.isLast {
        return resps + [t], true;
      }
      resps := resps + [t];
      k := k + 1;
    }
    done := false;
  }

  lemma {:induction false} SameStop(slots: Slots, i: nat, j: nat)
    requires i <= j <= FirstStop(slots, i) <= MAX_SLOT
    ensures FirstStop(slots, j) == FirstStop(slots, i)
    decreases j - i
  {
    if i < j {
      SameStop(slots, i + 1, j);
    }
  }

  // ---------- the server ----------

  class EncryptedIndexSearcher {
    const prims: Primitives
    var db: Db

    constructor (prims: Primitives)
      ensures this.prims == prims && db == NoRoot
    {
      this.prims := prims;
      this.db := NoRoot;
    }

    /** tSetWriter's transaction for one fragment. */
    method WriteFragment(f: Fragment)
      modifies this
      ensures db == Put(old(db), f)
      ensures db.Root? && forall bucket, lbl ::
                Get(db, bucket, lbl) == if bucket == f.bucket && lbl == f.lbl then Some(f.data) else Get(old(db), bucket, lbl)
    {
      var all := if db.Root? then db.buckets else map[];
      if f.bucket !in all {
        all := all[f.bucket := map[]];
      }
      all := all[f.bucket := all[f.bucket][f.lbl := f.data]];
      db := Root(all);
      assert all == Put(old(db), f).buckets;
    }

    /** tSetReader: read whole chunks from slot 1 on and stream them up to the first miss or
        terminator. Requires one below the 32-bit limit; without it the source never returns. */
    method Search(stag: Bytes) returns (resps: seq<TupleData>, batches: nat)
      requires db.Root? && Readable(db)
      requires FirstStop(SlotsOf(prims, db, stag), 1) <= MAX_SLOT
      ensures resps == Scan(SlotsOf(prims, db, stag), 1)
      ensures batches == (FirstStop(SlotsOf(prims, db, stag), 1) + CHUNK - 1) / CHUNK
    {
      resps, batches := ReadSlots(SlotsOf(prims, db, stag));
    }
  }

  lemma CeilDiv(stop: nat, batches: nat)
    requires batches > 0 && CHUNK * (batches - 1) < stop <= CHUNK * batches
    ensures (stop + CHUNK - 1) / CHUNK == batches
  {
  }

  method ReadSlots(slots: Slots) returns (resps: seq<TupleData>, batches: nat)
    requires Indexed(slots) && FirstStop(slots, 1) <= MAX_SLOT
    ensures resps == Scan(slots, 1)
    ensures batches == (FirstStop(slots, 1) + CHUNK - 1) / CHUNK
  {
    ghost var stop := FirstStop(slots, 1);
    var i := 1;
    var batch := new TupleData[CHUNK](_ => TupleData(None, [], 0, false));
    resps, batches := [], 0;
    while true
      invariant i == 1 + CHUNK * batches && i <= stop
      invariant resps + Scan(slots, i) == Scan(slots, 1)
      decreases stop - i
    {
      FetchBatch(slots, i, batch);
      SameStop(slots, 1, i);
      batches := batches + 1;
      var done;
      resps, done := Stream(slots, i, batch, resps);
      if done {
        CeilDiv(stop, batches);
        return;
      }
      i := i + CHUNK;
    }
  }
}
