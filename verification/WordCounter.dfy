/** The shared per-word counter that hands out slot numbers (wordIndexCounter). */
module WordCounter {
  import opened Bytes
  import opened TSet

  datatype Pair = Pair(count: nat, lastId: nat)

  type Counter = map<Word, Pair>

  function Read(m: Counter, term: Word): nat {
    if term in m then m[term].count else 0
  }

  /** The counter after one increment; counts are 32-bit and wrap. */
  function Bump(m: Counter, term: Word, docId: nat): Counter {
    m[term := Pair((Read(m, term) + 1) % TWO32, docId)]
  }

  class WordIndexCounter {
    var wordCounter: Counter

    constructor ()
      ensures wordCounter == map[]
    {
      wordCounter := map[];
    }

    /** The whole body runs under the mutex, so each call is one atomic step. */
    method ReadThenIncrement(term: Word, docId: nat) returns (c: nat)
      modifies this
      ensures c == Read(old(wordCounter), term)
      ensures wordCounter == Bump(old(wordCounter), term, docId)
      ensures c == if term in old(wordCounter) then old(wordCounter)[term].count else 0
      ensures wordCounter == old(wordCounter)[term := Pair((c + 1) % 0x1_0000_0000, docId)]
    {
      if term !in wordCounter {
        wordCounter := wordCounter[term := Pair(0, docId)];
      }
      c := wordCounter[term].count;
      wordCounter := wordCounter[term := wordCounter[term].(count := (c + 1) % TWO32)];
      wordCounter := wordCounter[term := wordCounter[term].(lastId := docId)];
    }
  }
}
