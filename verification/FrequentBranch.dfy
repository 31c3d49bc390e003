/** The Below100000 branch of populateBloomFilters as it is written (client_proxy/tf_calc.go): it
    writes at the index of the first bucket, and after a full batch it keeps the queued end of its
    slice. The repaired loop is in FreqBatches. */
module FrequentBranch {
  import opened Bytes
  import opened TSet
  import opened TermFrequency
  import opened FreqBatches
  import opened Collections

  /** The branch's slice and counter, the index it borrows, what was queued, and whether an index ran
      out of range. */
  datatype Branch = Branch(
    hundredIndex: nat, slice: seq<Word>, hundredKIndex: nat, queued: seq<seq<Word>>, panicked: bool)

  function Fresh(m: Counts): Branch {
    Branch(0, seq(|Terms(m, Below100000)|, _ => []), 0, [], false)
  }

  /** One word of the map. */
  function Step(s: Branch, size: nat, word: Word): Branch {
    if s.panicked then s
    else if InBucket(Below100, size) then
      s.(hundredIndex := if s.hundredIndex + 1 == BATCH then 0 else s.hundredIndex + 1)
    else if InBucket(Below100000, size) then Write(s, word)
    else s
  }

  function Write(s: Branch, word: Word): Branch {
    if s.hundredIndex >= |s.slice| then s.(panicked := true)
    else
      var slice := s.slice[s.hundredIndex := word];
      if s.hundredKIndex + 1 != BATCH then s.(slice := slice, hundredKIndex := s.hundredKIndex + 1)
      else if |slice| < BATCH then s.(panicked := true)
      else s.(slice := slice[..BATCH], hundredKIndex := 0, queued := s.queued + [slice[..BATCH]])
  }

  function Ranged(m: Counts, words: seq<Word>): Branch
    requires forall w :: w in words ==> w in m
  {
    if words == [] then Fresh(m)
    else
      var n := |words| - 1;
      Step(Ranged(m, words[..n]), m[words[n]], words[n])
  }

  /** The loop over the map in the order `words`, then the leftover; None is an index out of range. */
  method PopulateAsWritten(m: Counts, words: seq<Word>) returns (r: Option<seq<seq<Word>>>)
    requires Listing(words, m.Keys)
    ensures r == Queued(m, words)
  {
    var s := Fresh(m);
    for i := 0 to |words|
      invariant forall w :: w in words[..i] ==> w in m
      invariant s == Ranged(m, words[..i])
    {
      assert words[..i + 1][..i] == words[..i];
      s := Step(s, m[words[i]], words[i]);
    }
    assert words[..|words|] == words;
    r := if s.panicked then None else Some(s.queued + [s.slice]);
  }

  function Queued(m: Counts, words: seq<Word>): Option<seq<seq<Word>>>
    requires forall w :: w in words ==> w in m
  {
    var s := Ranged(m, words);
    if s.panicked then None else Some(s.queued + [s.slice])
  }

  /** The bucket's batches list its terms, in this order of the map. */
  ghost predicate RightFor(m: Counts, words: seq<Word>) {
    Listing(words, m.Keys) ==>
      Queued(m, words).Some? && Listing(Flat(Queued(m, words).value), Terms(m, Below100000))
  }

  /** The branch is right in every order of the map if and only if there is no frequent word, or just
      one and no rare one. */
  lemma RightIff(m: Counts)
    ensures (forall words :: RightFor(m, words))
       <==> Terms(m, Below100000) == {} || (|Terms(m, Below100000)| == 1 && Terms(m, Below100) == {})
  {
    var frequent, rare := Terms(m, Below100000), Terms(m, Below100);
    if frequent == {} || (|frequent| == 1 && rare == {}) {
      forall words ensures RightFor(m, words) {
        if Listing(words, m.Keys) {
          FewAreRight(m, words);
        }
      }
    } else if |frequent| == 1 {
      var words := RareFirst(m);
      assert !RightFor(m, words);
    } else {
      var words := TwoFirst(m);
      assert !RightFor(m, words);
    }
  }

  // ---------- the orders that fail ----------

  lemma {:induction false} Enumerate(all: set<Word>) returns (ws: seq<Word>)
    ensures Listing(ws, all)
    decreases all
  {
    if all == {} {
      ws := [];
    } else {
      var w :| w in all;
      ws := Enumerate(all - {w});
      ws := ws + [w];
    }
  }

  lemma StartWith(m: Counts, a: Word, b: Word) returns (words: seq<Word>, rest: seq<Word>)
    requires a in m && b in m && a != b
    ensures Listing(words, m.Keys) && words == [a, b] + rest && a !in rest
    ensures forall w :: w in rest ==> w in m
  {
    rest := Enumerate(m.Keys - {a, b});
    words := [a, b] + rest;
  }

  lemma RangedStep(m: Counts, words: seq<Word>, w: Word)
    requires w in m && forall v :: v in words ==> v in m
    ensures Ranged(m, words + [w]) == Step(Ranged(m, words), m[w], w)
  {
    assert (words + [w])[..|words|] == words;
  }

  lemma RangedTwo(m: Counts, a: Word, b: Word)
    requires a in m && b in m
    ensures Ranged(m, [a, b]) == Step(Step(Fresh(m), m[a], a), m[b], b)
  {
    RangedStep(m, [], a);
    RangedStep(m, [a], b);
    assert [] + [a] == [a] && [a] + [b] == [a, b];
  }

  /** One rare word first, and the only frequent word is written past the end. */
  lemma RareFirst(m: Counts) returns (words: seq<Word>)
    requires |Terms(m, Below100000)| == 1 && Terms(m, Below100) != {}
    ensures !RightFor(m, words)
  {
    var a :| a in Terms(m, Below100);
    var b :| b in Terms(m, Below100000);
    var rest;
    words, rest := StartWith(m, a, b);
    RangedTwo(m, a, b);
    assert BATCH != 1;
    StaysPanicked(m, [a, b], rest);
  }

  lemma {:induction false} StaysPanicked(m: Counts, done: seq<Word>, rest: seq<Word>)
    requires forall w :: w in done + rest ==> w in m
    requires (forall w :: w in done ==> w in m) && Ranged(m, done).panicked
    ensures Ranged(m, done + rest).panicked
  {
    if rest == [] {
      assert done + rest == done;
    } else {
      var n := |rest| - 1;
      assert done + rest == (done + rest[..n]) + [rest[n]];
      StaysPanicked(m, done, rest[..n]);
      RangedStep(m, done + rest[..n], rest[n]);
    }
  }

  /** Two frequent words first: the second overwrites the first, which is never queued. */
  lemma TwoFirst(m: Counts) returns (words: seq<Word>)
    requires |Terms(m, Below100000)| > 1
    ensures !RightFor(m, words)
  {
    var a, b := TwoOf(Terms(m, Below100000));
    var rest;
    words, rest := StartWith(m, a, b);
    RangedTwo(m, a, b);
    assert BATCH > 2;
    StaysLost(m, [a, b], rest, a);
    var s := Ranged(m, words);
    if Queued(m, words).Some? {
      FlatAppend(s.queued, s.slice);
      assert a !in Flat(s.queued + [s.slice]);
    }
  }

  lemma TwoOf(all: set<Word>) returns (a: Word, b: Word)
    requires |all| > 1
    ensures a in all && b in all && a != b && a != []
  {
    a :| a in all;
    assert |all - {a}| == |all| - 1;
    b :| b in all - {a};
    if a == [] {
      a, b := b, a;
    }
  }

  predicate Lost(s: Branch, w: Word) {
    w !in s.slice && w !in Flat(s.queued)
  }

  lemma {:induction false} StaysLost(m: Counts, done: seq<Word>, rest: seq<Word>, w: Word)
    requires forall v :: v in done + rest ==> v in m
    requires (forall v :: v in done ==> v in m) && Lost(Ranged(m, done), w) && w !in rest
    ensures Lost(Ranged(m, done + rest), w)
  {
    if rest == [] {
      assert done + rest == done;
    } else {
      var n := |rest| - 1;
      assert done + rest == (done + rest[..n]) + [rest[n]];
      StaysLost(m, done, rest[..n], w);
      RangedStep(m, done + rest[..n], rest[n]);
      StepLoses(Ranged(m, done + rest[..n]), m[rest[n]], rest[n], w);
    }
  }

  lemma StepLoses(s: Branch, size: nat, word: Word, w: Word)
    requires Lost(s, w) && word != w
    ensures Lost(Step(s, size, word), w)
  {
    if !s.panicked && InBucket(Below100000, size) {
      WriteLoses(s, word, w);
    }
  }

  lemma WriteLoses(s: Branch, word: Word, w: Word)
    requires Lost(s, w) && word != w
    ensures Lost(Write(s, word), w)
  {
    if s.hundredIndex < |s.slice| {
      var slice := s.slice[s.hundredIndex := word];
      assert w !in slice;
      if |slice| >= BATCH {
        var batch := slice[..BATCH];
        assert w !in batch;
        FlatAppend(s.queued, batch);
      }
    }
  }

  // ---------- the maps that work ----------

  lemma FewAreRight(m: Counts, words: seq<Word>)
    requires Listing(words, m.Keys)
    requires Terms(m, Below100000) == {} || (|Terms(m, Below100000)| == 1 && Terms(m, Below100) == {})
    ensures RightFor(m, words)
  {
    FewSoFar(m, words, |words|);
    assert words[..|words|] == words;
    var frequent := Terms(m, Below100000);
    assert Flat([]) == [];
    FlatAppend([], Ranged(m, words).slice);
    assert [] + [Ranged(m, words).slice] == [Ranged(m, words).slice];
    if frequent != {} {
      var w :| w in frequent;
      OnlyOne(frequent, w);
      assert w in words;
    }
  }

  lemma OnlyOne(all: set<Word>, w: Word)
    requires |all| == 1 && w in all
    ensures all == {w}
  {
    assert |all - {w}| == 0;
  }

  /** The branch after the words `done`: until the one frequent word comes, the slice is empty
      text; then it holds the word. */
  ghost predicate Few(m: Counts, done: seq<Word>, s: Branch) {
    var frequent := Terms(m, Below100000);
    && !s.panicked && s.queued == [] && |s.slice| == |frequent|
    && (frequent != {} ==> s.hundredIndex == 0)
    && (forall w :: w in frequent && w in done ==> s.slice == [w])
    && s.hundredKIndex <= 1 && ((forall w :: w in frequent ==> w !in done) ==> s.hundredKIndex == 0)
  }

  lemma FewStep(m: Counts, done: seq<Word>, s: Branch, w: Word)
    requires Few(m, done, s) && w in m && w !in done
    requires Terms(m, Below100000) == {} || (|Terms(m, Below100000)| == 1 && Terms(m, Below100) == {})
    ensures Few(m, done + [w], Step(s, m[w], w))
  {
    if w in Terms(m, Below100000) {
      OnlyOne(Terms(m, Below100000), w);
    } else {
      assert forall v :: v in Terms(m, Below100000) ==> (v in done + [w] <==> v in done);
      assert w !in Terms(m, Below100) || Terms(m, Below100000) == {};
    }
  }

  lemma {:induction false} FewSoFar(m: Counts, words: seq<Word>, i: nat)
    requires Listing(words, m.Keys) && i <= |words|
    requires Terms(m, Below100000) == {} || (|Terms(m, Below100000)| == 1 && Terms(m, Below100) == {})
    ensures forall w :: w in words[..i] ==> w in m
    ensures Few(m, words[..i], Ranged(m, words[..i]))
  {
    if i > 0 {
      FewSoFar(m, words, i - 1);
      var w := words[i - 1];
      assert words[..i] == words[..i - 1] + [w];
      RangedStep(m, words[..i - 1], w);
      FewStep(m, words[..i - 1], Ranged(m, words[..i - 1]), w);
    }
  }

  // ---------- the index and the slice end ----------

  function SeenIn(m: Counts, done: seq<Word>, b: Bucket): set<Word> {
    set w | w in done && w in Terms(m, b)
  }

  lemma SeenMore(m: Counts, done: seq<Word>, w: Word, b: Bucket)
    requires w !in done
    ensures |SeenIn(m, done + [w], b)| == |SeenIn(m, done, b)| + if w in Terms(m, b) then 1 else 0
  {
    assert SeenIn(m, done + [w], b) == SeenIn(m, done, b) + if w in Terms(m, b) then {w} else {};
  }

  /** Until it panics the branch writes at the number of rare words seen, modulo 10000. */
  lemma {:induction false} WritesAtRareIndex(m: Counts, words: seq<Word>, i: nat)
    requires Listing(words, m.Keys) && i <= |words|
    ensures forall w :: w in words[..i] ==> w in m
    ensures var s := Ranged(m, words[..i]);
            !s.panicked ==> s.hundredIndex == |SeenIn(m, words[..i], Below100)| % 10000
  {
    if i > 0 {
      var done, w := words[..i - 1], words[i - 1];
      WritesAtRareIndex(m, words, i - 1);
      assert words[..i] == done + [w];
      RangedStep(m, done, w);
      SeenMore(m, done, w, Below100);
    } else {
      assert SeenIn(m, [], Below100) == {};
    }
  }

  /** Ten thousand frequent words and no rare one: the full batch is queued, kept, and queued again
      as the leftover, in every order of the map. */
  lemma FullBatchTwice(m: Counts, words: seq<Word>)
    requires Listing(words, m.Keys) && |Terms(m, Below100000)| == 10000 && Terms(m, Below100) == {}
    ensures Queued(m, words).Some?
    ensures var batches := Queued(m, words).value; |batches| == 2 && batches[0] == batches[1] && |batches[0]| == 10000
  {
    FillingUp(m, words, |words|);
    assert words[..|words|] == words;
    assert SeenIn(m, words, Below100000) == Terms(m, Below100000);
  }

  ghost predicate Filled(s: Branch, count: nat) {
    && !s.panicked && s.hundredIndex == 0 && |s.slice| == BATCH
    && if count < BATCH then s.hundredKIndex == count && s.queued == []
       else s.hundredKIndex == 0 && s.queued == [s.slice]
  }

  lemma {:induction false} FillingUp(m: Counts, words: seq<Word>, i: nat)
    requires Listing(words, m.Keys) && i <= |words|
    requires |Terms(m, Below100000)| == BATCH && Terms(m, Below100) == {}
    ensures forall w :: w in words[..i] ==> w in m
    ensures Filled(Ranged(m, words[..i]), |SeenIn(m, words[..i], Below100000)|)
  {
    if i > 0 {
      var done, w := words[..i - 1], words[i - 1];
      FillingUp(m, words, i - 1);
      assert words[..i] == done + [w];
      RangedStep(m, done, w);
      SeenMore(m, done, w, Below100000);
      AtMostAll(m, done + [w]);
      FillStep(Ranged(m, done), m[w], w, |SeenIn(m, done, Below100000)|);
      assert w !in Terms(m, Below100);
    } else {
      assert SeenIn(m, [], Below100000) == {};
    }
  }

  lemma AtMostAll(m: Counts, done: seq<Word>)
    ensures |SeenIn(m, done, Below100000)| <= |Terms(m, Below100000)|
  {
    SubsetSize(SeenIn(m, done, Below100000), Terms(m, Below100000));
  }

  lemma FillStep(s: Branch, size: nat, w: Word, count: nat)
    requires Filled(s, count) && !InBucket(Below100, size)
    requires InBucket(Below100000, size) ==> count < BATCH
    ensures Filled(Step(s, size, w), if InBucket(Below100000, size) then count + 1 else count)
  {
    if InBucket(Below100000, size) && count + 1 == BATCH {
      var slice := s.slice[0 := w];
      assert slice[..BATCH] == slice;
    }
  }
}
