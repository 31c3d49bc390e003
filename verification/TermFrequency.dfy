/** Counting terms and sizing the frequency buckets (client_proxy/tf_calc.go), one call at a time. */
module TermFrequency {
  import opened TSet
  import opened Collections

  type Counts = map<Word, nat>

  function CountIn(m: Counts, w: Word): nat {
    if w in m then m[w] else 0
  }

  /** The plain sequential count of a token list. */
  function WordCount(tokens: seq<Word>): Counts {
    if tokens == [] then map[]
    else
      var m := WordCount(tokens[..|tokens| - 1]);
      var t := tokens[|tokens| - 1];
      m[t := CountIn(m, t) + 1]
  }

  function Merge(m: Counts, w: Word, n: nat): Counts {
    m[w := CountIn(m, w) + n]
  }

  /** frequencyWorker's work on one document. */
  method CountTokens(doc: seq<Word>) returns (m: Counts)
    ensures m == WordCount(doc)
    ensures forall w :: w in m <==> w in doc
    ensures forall w :: w in m ==> m[w] == multiset(doc)[w]
  {
    m := map[];
    for i := 0 to |doc|
      invariant m == WordCount(doc[..i])
    {
      assert doc[..i + 1][..i] == doc[..i];
      m := m[doc[i] := (if doc[i] in m then m[doc[i]] else 0) + 1];
    }
    assert doc[..|doc|] == doc;
    forall w ensures (w in m <==> w in doc) && (w in m ==> m[w] == multiset(doc)[w]) {
      WordCountExact(doc, w);
    }
  }

  /** The count of a word is the number of its occurrences, and every word that occurs is counted. */
  lemma {:induction false} WordCountExact(tokens: seq<Word>, w: Word)
    ensures CountIn(WordCount(tokens), w) == multiset(tokens)[w]
    ensures w in WordCount(tokens) <==> w in tokens
  {
    if tokens != [] {
      var n := |tokens| - 1;
      WordCountExact(tokens[..n], w);
      assert tokens == tokens[..n] + [tokens[n]];
    }
  }

  lemma {:induction false} WordCountPositive(tokens: seq<Word>, w: Word)
    ensures w in WordCount(tokens) <==> w in tokens
    ensures w in WordCount(tokens) ==> WordCount(tokens)[w] > 0
  {
    if tokens != [] {
      var n := |tokens| - 1;
      WordCountPositive(tokens[..n], w);
      assert tokens == tokens[..n] + [tokens[n]];
    }
  }

  /** Counting a concatenation adds up. */
  lemma {:induction false} WordCountAppend(a: seq<Word>, b: seq<Word>, w: Word)
    ensures CountIn(WordCount(a + b), w) == CountIn(WordCount(a), w) + CountIn(WordCount(b), w)
  {
    if b == [] {
      assert a + b == a;
    } else {
      var n := |b| - 1;
      WordCountAppend(a, b[..n], w);
      assert (a + b)[..|a + b| - 1] == a + b[..n];
    }
  }

  // ---------- buckets ----------

  datatype Bucket = Below100 | Below1000 | Below10000 | Below100000

  const NUM_BUCKETS: nat := 4

  /** BloomFrequencyBucket(i) */
  function BucketAt(i: nat): (b: Bucket)
    requires i < NUM_BUCKETS
    ensures IndexOf(b) == i
  {
    if i == 0 then Below100 else if i == 1 then Below1000 else if i == 2 then Below10000 else Below100000
  }

  lemma BucketIndex(i: nat, b: Bucket)
    requires i < NUM_BUCKETS
    ensures BucketAt(i) == b <==> IndexOf(b) == i
  {
  }

  function IndexOf(b: Bucket): nat {
    match b
    case Below100 => 0
    case Below1000 => 1
    case Below10000 => 2
    case Below100000 => 3
  }

  /** The case split of calculateBucketSizes; a term that occurs exactly 100, 1000 or 10000 times,
      or at least 100000 times, is in no bucket. */
  predicate InBucket(b: Bucket, size: nat) {
    match b
    case Below100 => size < 100
    case Below1000 => 100 < size < 1000
    case Below10000 => 1000 < size < 10000
    case Below100000 => 10000 < size < 100000
  }

  function Terms(m: Counts, b: Bucket): (r: set<Word>)
    ensures forall w :: w in r <==> w in m && InBucket(b, m[w])
  {
    set w | w in m && InBucket(b, m[w])
  }

  datatype Sizes = Sizes(ltHundred: nat, ltOneK: nat, ltTenK: nat, ltHundredK: nat)

  const NO_SIZES := Sizes(0, 0, 0, 0)

  function Plus(a: Sizes, b: Sizes): Sizes {
    Sizes(a.ltHundred + b.ltHundred, a.ltOneK + b.ltOneK, a.ltTenK + b.ltTenK, a.ltHundredK + b.ltHundredK)
  }

  /** How many terms each bucket is to hold. */
  function BucketSizes(m: Counts): Sizes {
    Sizes(|Terms(m, Below100)|, |Terms(m, Below1000)|, |Terms(m, Below10000)|, |Terms(m, Below100000)|)
  }

  /** calculateBucketSizes: one pass over the map, in any order. */
  method CalculateBucketSizes(m: Counts) returns (b: Sizes)
    ensures b == BucketSizes(m)
    ensures b.ltHundred == |set w | w in m && m[w] < 100|
    ensures b.ltOneK == |set w | w in m && 100 < m[w] < 1000|
    ensures b.ltTenK == |set w | w in m && 1000 < m[w] < 10000|
    ensures b.ltHundredK == |set w | w in m && 10000 < m[w] < 100000|
  {
    b := NO_SIZES;
    var left := m.Keys;
    ghost var seen: Counts := map[];
    while left != {}
      invariant left <= m.Keys && seen.Keys == m.Keys - left
      invariant forall w :: w in seen ==> seen[w] == m[w]
      invariant b == BucketSizes(seen)
      decreases left
    {
      var w :| w in left;
      left := left - {w};
      var size := m[w];
      AddTerm(seen, w, size);
      seen := seen[w := size];
      if size < 100 {
        b := b.(ltHundred := b.ltHundred + 1);
      } else if 100 < size && size < 1000 {
        b := b.(ltOneK := b.ltOneK + 1);
      } else if 1000 < size && size < 10000 {
        b := b.(ltTenK := b.ltTenK + 1);
      } else if 10000 < size && size < 100000 {
        b := b.(ltHundredK := b.ltHundredK + 1);
      }
    }
    assert seen == m;
    SizesWithBounds(m);
  }

  /** The bounds of the four buckets. */
  lemma SizesWithBounds(m: Counts)
    ensures BucketSizes(m).ltHundred == |set w | w in m && m[w] < 100|
    ensures BucketSizes(m).ltOneK == |set w | w in m && 100 < m[w] < 1000|
    ensures BucketSizes(m).ltTenK == |set w | w in m && 1000 < m[w] < 10000|
    ensures BucketSizes(m).ltHundredK == |set w | w in m && 10000 < m[w] < 100000|
  {
    assert Terms(m, Below100) == set w | w in m && m[w] < 100;
    assert Terms(m, Below1000) == set w | w in m && 100 < m[w] < 1000;
    assert Terms(m, Below10000) == set w | w in m && 1000 < m[w] < 10000;
    assert Terms(m, Below100000) == set w | w in m && 10000 < m[w] < 100000;
  }

  /** The sizes a token list calls for, from its multiset alone. */
  lemma SequentialSizes(tokens: seq<Word>)
    ensures var b, n := BucketSizes(WordCount(tokens)), multiset(tokens);
            && b.ltHundred == |set w | w in tokens && n[w] < 100|
            && b.ltOneK == |set w | w in tokens && 100 < n[w] < 1000|
            && b.ltTenK == |set w | w in tokens && 1000 < n[w] < 10000|
            && b.ltHundredK == |set w | w in tokens && 10000 < n[w] < 100000|
  {
    var m, n := WordCount(tokens), multiset(tokens);
    forall w ensures (w in m <==> w in tokens) && (w in m ==> m[w] == n[w]) {
      WordCountExact(tokens, w);
    }
    SizesWithBounds(m);
    assert (set w | w in m && m[w] < 100) == set w | w in tokens && n[w] < 100;
    assert (set w | w in m && 100 < m[w] < 1000) == set w | w in tokens && 100 < n[w] < 1000;
    assert (set w | w in m && 1000 < m[w] < 10000) == set w | w in tokens && 1000 < n[w] < 10000;
    assert (set w | w in m && 10000 < m[w] < 100000) == set w | w in tokens && 10000 < n[w] < 100000;
  }

  function One(size: nat): Sizes {
    Sizes(if InBucket(Below100, size) then 1 else 0, if InBucket(Below1000, size) then 1 else 0,
          if InBucket(Below10000, size) then 1 else 0, if InBucket(Below100000, size) then 1 else 0)
  }

  lemma AddTerm(m: Counts, w: Word, size: nat)
    requires w !in m
    ensures BucketSizes(m[w := size]) == Plus(BucketSizes(m), One(size))
  {
    AddTermTo(m, w, size, Below100);
    AddTermTo(m, w, size, Below1000);
    AddTermTo(m, w, size, Below10000);
    AddTermTo(m, w, size, Below100000);
  }

  lemma AddTermTo(m: Counts, w: Word, size: nat, b: Bucket)
    requires w !in m
    ensures |Terms(m[w := size], b)| == |Terms(m, b)| + if InBucket(b, size) then 1 else 0
  {
    assert Terms(m[w := size], b) == Terms(m, b) + if InBucket(b, size) then {w} else {};
  }

  lemma AddMaps(m: Counts, n: Counts)
    requires m.Keys !! n.Keys
    ensures BucketSizes(m + n) == Plus(BucketSizes(m), BucketSizes(n))
  {
    AddMapsTo(m, n, Below100);
    AddMapsTo(m, n, Below1000);
    AddMapsTo(m, n, Below10000);
    AddMapsTo(m, n, Below100000);
  }

  lemma AddMapsTo(m: Counts, n: Counts, b: Bucket)
    requires m.Keys !! n.Keys
    ensures |Terms(m + n, b)| == |Terms(m, b)| + |Terms(n, b)|
  {
    assert Terms(m + n, b) == Terms(m, b) + Terms(n, b);
    assert Terms(m, b) !! Terms(n, b);
  }

  /** The buckets account for every term exactly when no count falls in a gap between them. */
  lemma EveryTermHasBucketIff(m: Counts)
    ensures BucketSizes(m).ltHundred + BucketSizes(m).ltOneK + BucketSizes(m).ltTenK + BucketSizes(m).ltHundredK == |m|
       <==> forall w :: w in m ==> m[w] !in {100, 1000, 10000} && m[w] < 100000
  {
    var all := Terms(m, Below100) + Terms(m, Below1000) + Terms(m, Below10000) + Terms(m, Below100000);
    DisjointBuckets(m);
    assert all <= m.Keys;
    if forall w :: w in m ==> m[w] !in {100, 1000, 10000} && m[w] < 100000 {
      assert all == m.Keys;
    } else {
      var w :| w in m && !(m[w] !in {100, 1000, 10000} && m[w] < 100000);
      assert w !in all;
      Smaller(all, m.Keys, w);
    }
  }

  lemma DisjointBuckets(m: Counts)
    ensures |Terms(m, Below100) + Terms(m, Below1000) + Terms(m, Below10000) + Terms(m, Below100000)|
         == |Terms(m, Below100)| + |Terms(m, Below1000)| + |Terms(m, Below10000)| + |Terms(m, Below100000)|
  {
    assert Terms(m, Below100) !! Terms(m, Below1000);
    assert Terms(m, Below100) + Terms(m, Below1000) !! Terms(m, Below10000);
    assert Terms(m, Below100) + Terms(m, Below1000) + Terms(m, Below10000) !! Terms(m, Below100000);
  }

  // ---------- one reducer, and the initializer ----------

  /** The subset a reducer has gathered from the pairs received so far. */
  function Reduced(input: seq<(Word, nat)>): Counts {
    if input == [] then map[]
    else Merge(Reduced(input[..|input| - 1]), input[|input| - 1].0, input[|input| - 1].1)
  }

  /** The reducer's receive loop up to reducerQuit, and its report. */
  method Reducer(input: seq<(Word, nat)>) returns (report: Sizes)
    ensures report == BucketSizes(Reduced(input))
  {
    var subSet: Counts := map[];
    for i := 0 to |input|
      invariant subSet == Reduced(input[..i])
    {
      var (key, tf) := input[i];
      assert input[..i + 1][..i] == input[..i];
      subSet := subSet[key := (if key in subSet then subSet[key] else 0) + tf];
    }
    assert input[..|input|] == input;
    report := CalculateBucketSizes(subSet);
  }

  function SumSizes(reports: seq<Sizes>): Sizes {
    if reports == [] then NO_SIZES else Plus(SumSizes(reports[..|reports| - 1]), reports[|reports| - 1])
  }

  lemma {:induction false} SumSizesAppend(a: seq<Sizes>, b: seq<Sizes>)
    ensures SumSizes(a + b) == Plus(SumSizes(a), SumSizes(b))
  {
    if b == [] {
      assert a + b == a;
    } else {
      var n := |b| - 1;
      SumSizesAppend(a, b[..n]);
      assert (a + b)[..|a| + n] == a + b[..n];
    }
  }

  lemma TakeOut(b: seq<Sizes>, i: nat) returns (rest: seq<Sizes>)
    requires i < |b|
    ensures |rest| == |b| - 1 && multiset(rest) == multiset(b) - multiset{b[i]}
    ensures SumSizes(b) == Plus(SumSizes(rest), b[i])
  {
    var front, x, back := b[..i], b[i], b[i + 1..];
    rest := front + back;
    assert b == front + [x] + back;
    SumSizesAppend(front, back);
    SumSizesAppend(front + [x], back);
    assert (front + [x])[..|front|] == front;
  }

  /** Reports may arrive in any order. */
  lemma {:induction false} SumSizesAnyOrder(a: seq<Sizes>, b: seq<Sizes>)
    requires multiset(a) == multiset(b)
    ensures SumSizes(a) == SumSizes(b)
    decreases |a|
  {
    assert |a| == |multiset(a)| == |multiset(b)| == |b|;
    if a != [] {
      assert a[0] in multiset(b);
      var i :| 0 <= i < |b| && b[i] == a[0];
      var a' := TakeOut(a, 0);
      var b' := TakeOut(b, i);
      SumSizesAnyOrder(a', b');
    }
  }

  /** bloomFilterInitializer: take one report per reducer and add them up. */
  method BloomFilterInitializer(reports: seq<Sizes>) returns (b: Sizes)
    ensures b == SumSizes(reports)
  {
    var sem := |reports|;
    b := NO_SIZES;
    while sem > 0
      invariant 0 <= sem <= |reports|
      invariant b == SumSizes(reports[..|reports| - sem])
    {
      var a := reports[|reports| - sem];
      sem := sem - 1;
      ghost var k := |reports| - sem;
      assert reports[..k][..k - 1] == reports[..k - 1];
      b := Sizes(b.ltHundred + a.ltHundred, b.ltOneK + a.ltOneK, b.ltTenK + a.ltTenK, b.ltHundredK + a.ltHundredK);
    }
    assert reports[..|reports|] == reports;
  }

  /** How often `w` is reported in the pairs. */
  function PairCount(input: seq<(Word, nat)>, w: Word): nat {
    if input == [] then 0
    else PairCount(input[..|input| - 1], w) + if input[|input| - 1].0 == w then input[|input| - 1].1 else 0
  }

  /** The subset holds exactly the sum of the counts received for each word. */
  lemma {:induction false} ReducedCounts(input: seq<(Word, nat)>, w: Word)
    ensures CountIn(Reduced(input), w) == PairCount(input, w)
    ensures w in Reduced(input) <==> exists i :: 0 <= i < |input| && input[i].0 == w
  {
    if input != [] {
      ReducedCounts(input[..|input| - 1], w);
    }
  }
}
