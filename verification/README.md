# DuckDuckXor: a verified model of the encrypted index

DuckDuckXor builds an encrypted inverted index with concurrent workers and answers keyword queries
over it. The index has two halves. The T-set holds, for each word, a list of masked entries at
pseudo-random addresses; the X-Set is a Bloom filter with one xTag per pair of word and document.
This project models how both are built, uploaded and read, together with the term-frequency
map-reduce, the frequency filters and the key tree, and proves over all inputs and all
interleavings what they are for.

The concurrent parts (`TSetBuild`, `XSetPipeline`, `MapReduce`, `CloseProtocol`) are step systems: a
run is any sequence of enabled steps of the goroutines, and the theorems speak about every run. The
parts that work in place (the chunked reader, the batch sort, the stores, the handlers, the counting
loops, the key queue) are classes and methods with loops, each proved against a function whose
properties are then proved as lemmas.

| file | covers |
|---|---|
| `Bytes`, `Collections` | byte strings, XOR, big-endian forms; sums and elements of sequences |
| `Oxt` | modular inverse, groups, the OXT identity |
| `TSet` | packing, masking and addressing one T-set entry |
| `Searcher` | the server's nested store, the writer and the chunked reader |
| `WordCounter`, `TSetBuild`, `TSetBuildProofs`, `TSetProgress` | building the T-set with any number of workers, uploads in any order, then the janitor |
| `EndToEnd` | a search over a finished build answers like the plain map from words to documents |
| `XBloom`, `XSetPipeline`, `XSetProofs`, `XSetOutcome`, `CloseProtocol` | completion of the X-Set |
| `CrossIndex` | the two halves of the index fit each other |
| `TermFrequency`, `MapReduce`, `MapReduceProofs`, `FreqBatches`, `FreqBuckets` | counting, sizing, filling, saving and querying the frequency buckets |
| `KeyTree` | key derivation and persistence |
| `Departures`, `FrequentBranch` | lines that do not do what their own design says, and exactly when that shows |

## Hypotheses

CMAC (RFC 4493), SHA-512 (section 6.4 of FIPS 180-4), the curve P-224 (section D.1.2.2 of FIPS
186-4), gob encoding and the key cipher are parameters. What the theorems need of them is written
out as a predicate over them and required: output lengths (`TSet.Sized`), distinct addresses for the words and
slots in use (`EndToEnd.DigestsDistinct`, from which `DistinctAddresses` follows), distinct xTags for
the words and documents in use (`CrossIndex.TagsDistinct`, from which `DistinctTags` follows),
distinct blinding values (`TSet.BlindPrfDistinct`), the group laws and the order of the generator (`Oxt.Lawful`,
`Oxt.HasOrder`), a decoder that inverts the encoder (`FreqBuckets.RoundTrips`), a cipher that inverts
(`KeyTree.Inverts`). Injectivity is only ever assumed over the finitely many inputs of one corpus. A
Bloom filter is the set of its elements plus a parameter saying what else it matches, so it has no
false negatives.

## Where the model follows the design instead of the line

Each of these lines contradicts the comments or the other end of the same protocol. The main model
repairs it; where the literal line has a lemma, it is named.

- The reader starts at slot 0, the writer at slot 1 (server/encrypted_searcher.go:282,
  client_proxy/encrypted_index.go:333-334). The model reads from 1.
  `Departures.FromZeroReadsNothing`: from 0, every search is empty.
- The collector writes `batchResults[i]` instead of `[m]` (server/encrypted_searcher.go:299).
  `Departures.OthersStayNil`: every other element stays nil.
- A miss keeps worker index 0 (server/encrypted_searcher.go:335-351). The model keeps the index asked
  for. `Departures.ZeroMissesRightIff`: a search is right exactly when the word is in no document or
  its list fills its last chunk; `Departures.MissesSortFirst` is the condition for one chunk.
- The fetcher swaps bucket and label (server/encrypted_searcher.go:334).
  `Departures.SwappedAlwaysMisses`: every lookup misses.
- The slices `[1:4]` and `[4:28]` do not fit the layout 1 + 4 + 28 (server/encrypted_searcher.go:359-363).
  `Departures.OffsetsLoseLastByte`: the last byte of every document id lands in the blinding value,
  and the client stops decoding the three bytes left.
- `y.Bytes()` is not padded (client_proxy/encrypted_index.go:471, 494). The model pads y to 28 bytes.
  `Departures.UnpaddedReadableIff`: unpadded, the server stays in range exactly when y needs all 28.
- `tSetWorker` resets its PRFs once per document (client_proxy/encrypted_index.go:360-363), the
  janitor once per word. The model uses them per word, and so for `xSetWorker`, whose index buffer
  also starts with four stray zero bytes (lines 217-218, 231-240, 260-262).
  `Departures.Prf`, `Departures.StagsOfDocument` and `Departures.OwnInputIff` say what the reset per
  document computes instead.
- The modulus passed is the field prime, the comment says the group order
  (client_proxy/encrypted_index.go:344, 410, 457-459). The modulus is a parameter of the model:
  `Oxt.OxtIdentity` and `CrossIndex.ProbeIsTag` hold for the order. `Oxt.ModulusWorksIff`: a modulus
  works exactly when it is a multiple of the order; `Oxt.FieldPrimeMisses`: the field prime of P-224
  is not. Plain keyword search does not use y, so it works with either.
- `mapperOnce` and `closeOnce` fire for the first worker to exit. The protocols are sound exactly for
  at most one worker: `MapReduceProofs.OneMapperIff`, `CloseProtocol.SafeIff`.
- An empty add after a filter is full signals again. The handlers are kept as they are:
  `XSetOutcome.CompletesIff` says exactly which corpora survive it in every interleaving, with
  `XSetProofs.SignalsExact` and `XSetProofs.SignalsOnceIff` behind it. For the frequency buckets the
  leftover is added even when it is empty, so a bucket whose size is a positive multiple of 10000 is
  signalled twice and takes another bucket's place among the four the saver waits for.
  `FreqBuckets.SurvivesRestart`: the filters load again if and only if these buckets are the last
  ones, in the order of the buckets.
- The last branch of `populateBloomFilters` uses the first bucket's index and keeps the wrong end of
  its slice (client_proxy/tf_calc.go:294, 318). `FrequentBranch.RightIff`: in every order of the map
  the bucket is queued right if and only if it has no terms, or one term and Below100 has none.
- `ResultMap` is never filled and the four slice sizes are never set (client_proxy/tf_calc.go:273-281).
  `FreqBatches.PopulateBloomFilters` takes the counts and the sizes they lead to.

Kept as the code has it: terms that occur exactly 100, 1000 or 10000 times, or at least 100000 times,
belong to no bucket (`TermFrequency.EveryTermHasBucketIff`); a search before anything was written
dereferences a missing root bucket (`EndToEnd.RootExists`); loading keys stops silently at the first
that does not decrypt (`KeyTree.KeyManager.LoadDBKeys`); slot and element counters are 32 bits wide.

## Model

| member | source | states |
|---|---|---|
| EndToEnd.SearchRefinesMap | client_proxy/encrypted_index.go:303-433 | for every corpus, every interleaving of workers, uploads, writers and janitor that completes, and every word: scanning the word's slots yields its documents, each once, in slot order, then the terminator repeating the last; a word in no document yields nothing |
| EndToEnd.AddressesFromPrimitives | crypto/tset.go:13-30 | the hypothesis on addresses follows from the primitives alone: the PRF of a word under the stag key determines the word, and 17 bytes of SHA-512 of the PRF of a slot under it determine stag and slot |
| EndToEnd.EncryptQuery | client_proxy/client.go:204-209 | the query is the PRF of the word under the stag key |
| EndToEnd.SearchWord | server/encrypted_searcher.go:282-326 | sent to the running server, it makes the chunked, out-of-order reader return exactly that answer, in ceil((n+1)/20) batches for n documents |
| EndToEnd.CompleteState | client_proxy/encrypted_index.go:332-418 | once the build is complete every document containing a word has been drawn for it once, and every entry drawn is in the store |
| EndToEnd.ScanAnswer | server/encrypted_searcher.go:308-323 | the sequential scan of a finished store reads the word's entries and stops right after the terminator |
| EndToEnd.ScanMiss | server/encrypted_searcher.go:343-351 | a word in no document finds its first slot empty, whatever else is stored |
| EndToEnd.RootExists | server/encrypted_searcher.go:338-346 | the root bucket a search needs exists if and only if some document has a word |
| EndToEnd.DecodedIds | client_proxy/client.go:211-214 | decoding the streamed ids gives the documents in order, the last one twice, and only the last tuple is flagged |
| TSetBuildProofs.StepInv | client_proxy/encrypted_index.go:332-358 | every step of worker, uploader, server writer and janitor keeps the invariant: slots contiguous per word, nothing lost, nothing stored that was not drawn |
| TSetBuildProofs.RunInv | client_proxy/encrypted_index.go:303-433 | the same for every run |
| TSetBuildProofs.LogExact | client_proxy/encrypted_index.go:40-55 | under any interleaving each entry is issued at most once, and exactly those with slots 1..n and flag 0 plus the terminator in n+1 with the last document |
| TSetBuildProofs.BlindInputsNeverRepeat | client_proxy/encrypted_index.go:399-445 | no two entries computed by any worker or the janitor feed the blinding PRF the same input |
| TSetBuildProofs.BlindValuesNeverRepeat | client_proxy/encrypted_index.go:399-445 | nor do two of them get the same z, if the blinding PRF does not collide on word followed by counter |
| TSetBuildProofs.AddressDetermines | server/encrypted_searcher.go:230-248 | two entries of a build that share an address are one entry |
| TSetBuildProofs.StoredKept | server/encrypted_searcher.go:226-248 | a stored entry is never overwritten by a different one |
| TSetProgress.Progress | client_proxy/encrypted_index.go:303-433 | with a worker, and with usable entries for the words, documents and slots of the corpus, every run of the build is bounded and none stops before the build is complete |
| TSetProgress.BuildCompletesIff | client_proxy/encrypted_index.go:303-433 | for every client and corpus: all runs that cannot go on are complete if and only if the blinding values the corpus calls for, counters 0 to n for a word in n documents, have inverses |
| TSetProgress.BuildReached | client_proxy/encrypted_index.go:303-433 | such a client reaches a finished build from which any word can be searched |
| WordCounter.WordIndexCounter.ReadThenIncrement | client_proxy/encrypted_index.go:40-55 | returns the old count, zero for a new word, and leaves it one higher modulo 2^32 with the document as last id; no other word changes |
| TSet.DigestSplit | crypto/tset.go:24-38 | bucket, label and pad are consecutive and together the first fifty digest bytes |
| TSet.SealedAddress | client_proxy/encrypted_index.go:476-500 | an entry is stored under the first 17 bytes of SHA-512 of the PRF of its slot, keyed with the PRF of its word |
| TSet.SealedLayout | client_proxy/encrypted_index.go:485-500 | under the mask lie one byte of flag, four of document id, most significant first, and 28 of y |
| TSet.DocIdBytes | crypto/tset.go:55-91 | the id's four bytes, written and read most significant first |
| TSet.XorBytes | crypto/tset.go:42-48 | every bit of every output byte is the sum of the two input bits without carry, over the first argument's length |
| TSet.OpenSealed | client_proxy/encrypted_index.go:476-502 | unmasking a sealed entry recovers flag, document id and y, for every input |
| TSet.OpenFields | server/encrypted_searcher.go:354-368 | on any stored bytes: the flag is set by the byte 1 alone, four bytes of id and 28 of y follow |
| TSet.ExpectedMeaning | client_proxy/encrypted_index.go:460-502 | the tuple read back determines the document, and its y satisfies y*z = xind modulo the modulus |
| TSet.BlindInputInjective | client_proxy/encrypted_index.go:438-445 | word followed by the four counter bytes determines both, although words vary in length |
| TSet.BlindInputParts | client_proxy/encrypted_index.go:440-443 | the input is the word and then the counter in four bytes |
| TSet.BlindValuesDistinct | client_proxy/encrypted_index.go:438-445 | equal blinding values mean equal word and counter, if the PRF does not collide on these inputs |
| TSet.BlindedBytesFit | client_proxy/encrypted_index.go:460-495 | flag, id and the minimal bytes of y never outgrow the 33-byte pad |
| TSet.FieldPrimeFits | client_proxy/encrypted_index.go:344 | the P-224 field prime is within the 28-byte field |
| Bytes.XorTwice | crypto/tset.go:42-48 | masking twice with one pad is the identity |
| Bytes.XorBitLaw | crypto/tset.go:45 | bit i of the exclusive or is the sum of the two bits modulo 2 |
| Bytes.XorCommutes | server/encrypted_searcher.go:354 | the server may XOR pad and data in the other order |
| Bytes.BigEndianRoundTrip | crypto/tset.go:55-58 | fixed-width big-endian encoding decodes to the number it encodes |
| Bytes.FromBigEndianRoundTrip | client_proxy/encrypted_index.go:462-463 | and a byte string is the fixed-width encoding of the number it denotes |
| Bytes.BigEndianDigits | crypto/tset.go:57 | byte i is that digit to the base 256, most significant first |
| Bytes.MinimalWidth | client_proxy/encrypted_index.go:471 | the minimal form has at most k bytes exactly when the number is below 256^k, and the padded form is that form behind zeros |
| Oxt.ModInverseCorrect | client_proxy/encrypted_index.go:466 | extended Euclid returns the inverse, reduced, exactly when one exists |
| Oxt.BlindedXindCorrect | client_proxy/encrypted_index.go:457-472 | the stored y is the one residue with y*z = xind |
| Oxt.PowEqualIff | client_proxy/encrypted_index.go:242-245 | multiples of the base point agree exactly when the scalars agree modulo its order |
| Oxt.TokenMatchesIff | client_proxy/encrypted_index.go:242-245 | the token raised to y is the xTag exactly when wtag*y*z = wtag*xind modulo the order |
| Oxt.OxtIdentity | client_proxy/encrypted_index.go:457-472 | with the inverse taken modulo the order, the y of one worker turns the token into the xTag of the other |
| Oxt.ModulusWorksIff | client_proxy/encrypted_index.go:457-472 | a modulus makes every token land on its xTag, for all invertible z and all xind and wtag within the PRFs' range, if and only if it is a multiple of the order; the range has to exceed the modulus or, if that is odd, 2 |
| Oxt.FieldPrimeMisses | client_proxy/encrypted_index.go:344 | on P-224 the field prime that is passed does not work and the group order does |
| CrossIndex.ProbeIsTag | client_proxy/encrypted_index.go:337-344 | for every finished build, the y in the k-th tuple found for a word turns any other word's token into that word's xTag for the tuple's document |
| CrossIndex.FilterHolds | client_proxy/encrypted_index.go:228-249 | the uploaded filter of every finished X-Set run holds the xTags of the corpus and nothing else |
| CrossIndex.TagsFromPrimitives | client_proxy/encrypted_index.go:229-246 | the hypothesis on tags follows from the primitives alone: points are encoded injectively, and the products of the PRF of a document and the PRF of a word differ modulo the order |
| CrossIndex.ConjunctionIsIntersection | client_proxy/encrypted_index.go:228-249 | the found tuples whose probe the uploaded Bloom filter matches stand for exactly the documents with the first word that contain the second or whose tag for it is a false positive |
| Searcher.GetAfterPut | server/encrypted_searcher.go:231-248 | a write answers later lookups of its own address and leaves all others alone |
| Searcher.PutAllContents | server/encrypted_searcher.go:217-256 | fragments with different addresses are all stored, and nothing else is |
| Searcher.UploadOrderIrrelevant | server/encrypted_searcher.go:217-256 | any two interleavings of the same fragments answer every lookup alike |
| Searcher.EncryptedIndexSearcher.WriteFragment | server/encrypted_searcher.go:226-248 | one transaction stores one fragment, creating root and bucket as needed |
| Searcher.EncryptedIndexSearcher.Search | server/encrypted_searcher.go:270-330 | the reader returns the sequential scan of the stag's slots in the number of batches its stop needs |
| Searcher.ReadSlots | server/encrypted_searcher.go:285-326 | the same for any slots: whole chunks, sorted and streamed up to the first miss or terminator |
| Searcher.CollectBatch | server/encrypted_searcher.go:292-300 | twenty answers for twenty different slots of the chunk, in whatever order they arrive |
| Searcher.SortBatch | server/encrypted_searcher.go:46-50 | in place, ordered by worker index and a permutation |
| Searcher.SortedBatch | server/encrypted_searcher.go:297-303 | every arrival order sorts to the same batch: the chunk in slot order |
| Searcher.FetchBatch | server/encrypted_searcher.go:292-303 | after a round, position k holds the answer for slot i+k |
| Searcher.Stream | server/encrypted_searcher.go:305-323 | sending a batch advances the scan by the batch or finishes it, and says which |
| Searcher.FirstStop | server/encrypted_searcher.go:308-320 | the first slot from i on that is a miss or a terminator |
| Searcher.LastWholeChunk | server/encrypted_searcher.go:293-325 | the slot limit is the end of the last chunk whose successor index still fits 32 bits |
| XBloom.BloomMaster.HandleXSetInit | client_proxy/bloom_master.go:413-423 | an empty filter with its final size, the counter and the closes untouched; a second call crashes on the closed channel |
| XBloom.BloomMaster.HandleXSetAdd | client_proxy/bloom_master.go:426-440 | exactly the tags are added, the count grows by their number modulo 2^32, and it signals when it equals the final size, crashing if it had before; a nonempty add before the filter exists crashes |
| XSetPipeline.TotalKeyWordSummer | client_proxy/index.go:73-86 | the receive loop sums the word counts of all documents |
| XSetPipeline.ComputeXTags | client_proxy/encrypted_index.go:228-249 | one tag per word of the document, in order |
| XSetProofs.RunInv | client_proxy/encrypted_index.go:175-298 | every run keeps: each document is on exactly one stage, the sum accounts for all, the filter is the replay of what was handled, pending counts senders |
| XSetProofs.Safety | client_proxy/bloom_master.go:413-440 | in every reachable state: no send on the closed tag channel, no add before the filter, the filter holds exactly the handled tags, closes equal the signal count, and a crash means two signals |
| XSetProofs.ClosedIffComplete | client_proxy/bloom_master.go:434-438 | with nonempty documents xFilterFinished is closed at most once, and exactly when every document has been handled, with the total then equal to the announced sum |
| XSetProofs.SignalsExact | client_proxy/bloom_master.go:434-438 | the exact number of signals of a corpus: one plus the empty documents handled after the last nonempty one |
| XSetProofs.SignalsOnceIff | client_proxy/bloom_master.go:434-438 | a corpus signals once in every arrival order if and only if it has a document and, unless it has just one, none is empty |
| XSetOutcome.CompletesIff | client_proxy/bloom_master.go:278-336 | exactly for these corpora no run of the pipeline crashes and every run that cannot go on has uploaded the filter; for any other a run that crashes or waits forever is built |
| XSetProofs.ReplayContents | client_proxy/bloom_master.go:426-432 | a sequence of adds leaves the union of the tags and their number modulo 2^32 |
| XSetProofs.ReplaySignals | client_proxy/bloom_master.go:434-438 | below 2^32 the handler closes as often as the exact counter reaches the size, and crashes exactly at the second close |
| XSetProofs.Progress | client_proxy/doc_preprocesser.go:76-117 | every run is bounded by a measure and no reachable state short of the end is stuck, although the filter appears only after every document has passed |
| XSetProofs.FinalUpload | client_proxy/bloom_master.go:312-336 | every finished run has closed once, not crashed, and uploaded a filter holding the tag of every word of every document and nothing else |
| XSetProofs.TagOfWord | client_proxy/encrypted_index.go:228-249 | a document's tags are the tags of its words |
| CloseProtocol.SafeIff | client_proxy/encrypted_index.go:107-121 | no interleaving sends on the closed finishedXtags if and only if there is at most one xSet worker |
| TermFrequency.CountTokens | client_proxy/tf_calc.go:142-149 | the map of one document has exactly its words, each with the number of its occurrences |
| TermFrequency.WordCountExact | client_proxy/tf_calc.go:146-148 | the sequential count is the multiset of the tokens |
| TermFrequency.WordCountPositive | client_proxy/tf_calc.go:146-148 | exactly the words that occur are counted, each at least once |
| TermFrequency.WordCountAppend | client_proxy/tf_calc.go:146-148 | counts of a concatenation add up |
| TermFrequency.CalculateBucketSizes | client_proxy/tf_calc.go:245-263 | one pass over the map, in any order, counts the terms below 100, between 100 and 1000, between 1000 and 10000, and between 10000 and 100000 |
| TermFrequency.SequentialSizes | client_proxy/tf_calc.go:142-263 | the sizes a token list calls for, in terms of its multiset |
| TermFrequency.AddMaps | client_proxy/tf_calc.go:217-229 | bucket sizes of maps over different words add up |
| TermFrequency.EveryTermHasBucketIff | client_proxy/tf_calc.go:249-261 | the buckets account for every term exactly when no count is 100, 1000, 10000 or at least 100000 |
| TermFrequency.ReducedCounts | client_proxy/tf_calc.go:191-208 | a reducer's subset has exactly the words received, each with the sum of its counts |
| TermFrequency.Reducer | client_proxy/tf_calc.go:191-215 | the reducer reports the bucket sizes of that subset |
| TermFrequency.BloomFilterInitializer | client_proxy/tf_calc.go:217-243 | the initializer adds one report per reducer; the two rows below say what that sum is |
| TermFrequency.SumSizesAnyOrder | client_proxy/tf_calc.go:223-229 | the sum does not depend on the order in which reports arrive |
| MapReduceProofs.InitializerAnyOrder | client_proxy/tf_calc.go:217-243 | once every reducer has reported, the initializer's sum over the reports in any order is the bucket sizes of the sequential count |
| MapReduceProofs.SizesAreSequential | client_proxy/tf_calc.go:134-263 | in every run with one mapper, for every hash, the sizes passed to InitFreqBuckets are the numbers of words of the corpus whose occurrences lie within each bucket's bounds |
| MapReduceProofs.ShutdownSafety | client_proxy/tf_calc.go:121-182 | reducerQuit is closed only when nothing is unread or being sent, even while shufflers are still being started, and no reducer leaves its loop before its subset is its full share |
| MapReduceProofs.QuitMeansComplete | client_proxy/tf_calc.go:175-208 | once reducerQuit is closed every reducer's subset is the corpus count restricted to its words |
| MapReduceProofs.KeepWord | client_proxy/tf_calc.go:134-203 | no step makes or loses an occurrence of a word, summed over unread documents, mapper, shufflers and the owning reducer |
| MapReduceProofs.RunInv | client_proxy/tf_calc.go:105-243 | every run keeps conservation, the token count, shutdown and the reports |
| MapReduceProofs.Progress | client_proxy/tf_calc.go:105-243 | every run is bounded, and none stops before InitFreqBuckets is called |
| MapReduceProofs.OneMapperIff | client_proxy/tf_calc.go:134-152 | no run sends on the closed TermFreq if and only if there is at most one mapper |
| FreqBatches.PopulateBloomFilters | client_proxy/tf_calc.go:265-327 | with slices of the right size all writes are in bounds, each bucket's batches concatenate to exactly its terms without repetition, and are full except the leftover; the four leftovers come last, in the order of the buckets |
| FreqBatches.PlaceKeeps | client_proxy/tf_calc.go:281-321 | one more word of any bucket is written in bounds, and a full batch is queued and cut off |
| FreqBuckets.FreqMaster.HandleFreqBucketInit | client_proxy/bloom_master.go:443-455 | an empty filter and its full size per bucket, counters and sent filters untouched, and the ready channel closed; a second call crashes on it |
| FreqBuckets.FreqMaster.HandleFreqBucketAdd | client_proxy/bloom_master.go:460-482 | exactly the terms go to that bucket only, its counter grows by their number, and the filter is sent off when its size is reached; an unknown bucket changes nothing |
| FreqBuckets.BucketView | client_proxy/bloom_master.go:460-482 | filter, counter and signals of a bucket depend only on its own batches: their union, their length, and one signal per prefix that reaches the size |
| FreqBuckets.FinishedComplete | client_proxy/bloom_master.go:474-480 | a filter is only ever sent off complete |
| FreqBuckets.SignalsExact | client_proxy/bloom_master.go:474-480 | a bucket of n terms is signalled once, but twice when n is a positive multiple of the batch size |
| FreqBuckets.SignalledOnceIff | client_proxy/tf_calc.go:298-327 | every bucket is signalled once if and only if no bucket's size is a positive multiple of the batch size |
| FreqBuckets.FreqBloomSaver | client_proxy/bloom_master.go:238-274 | stores the filters of the first four signals and stops |
| FreqBuckets.LoadFiltersFromDb | client_proxy/bloom_master.go:494-513 | succeeds exactly when all four filters are present and decode, and then holds them |
| FreqBuckets.LoadsIff | client_proxy/bloom_master.go:238-274 | what the saver stored loads again if and only if its four signals were for four different buckets |
| FreqBuckets.QueryWord | client_proxy/bloom_master.go:339-357 | in any map order: a bucket whose filter matches, or unknown when none does |
| FreqBuckets.FirstFourIff | client_proxy/bloom_master.go:238-267 | the first four signals are for four buckets if and only if the buckets signalled twice are the last ones |
| FreqBuckets.SurvivesRestart | client_proxy/bloom_master.go:238-274 | in every order of the map: between four and eight signals, so the saver ends and the channel of four never blocks; what it stores is complete; and it loads again if and only if the buckets with a positive multiple of 10000 terms are the last ones |
| FreqBuckets.AtEndInOrder | client_proxy/bloom_master.go:238-267 | that condition written out: a positive multiple of 10000 in one bucket means one in the next |
| FreqBuckets.FillSaveRestartQuery | client_proxy/bloom_master.go:339-357 | filled, saved, reloaded and queried: loading succeeds exactly under that condition; without false positives a word is then answered with the bucket of its count, below 100, 1000, 10000 or 100000, or unknown; with them a counted word still never gets unknown |
| KeyTree.InverseHashTreeKeyDerivation | client_proxy/key_manager.go:263-301 | the queue loop returns 2*ceil(n/2) keys breadth first and never pops an empty queue: the first two are the upper and lower half of SHA-512 of the master key, the next two those of the first key, and so on |
| KeyTree.DerivedPrefix | client_proxy/key_manager.go:263-284 | a shorter derivation is a prefix of a longer one; n keys or n+1 come back |
| KeyTree.LevelNodes | client_proxy/key_manager.go:289-301 | the numbering lists the hash tree level by level |
| KeyTree.EncryptChildKeys | client_proxy/key_manager.go:306-316 | succeeds exactly when every key encrypts, and keeps their order |
| KeyTree.StoreEncryptedKeys | client_proxy/key_manager.go:239-247 | writes the six keys under k_s, k_x, k_i, k_z, k_t and doc_key, in this order, over the bucket |
| KeyTree.KeyManager.UpdateKeyMap | client_proxy/key_manager.go:212-216 | the six keys become WTrapKey, XTagKey, XIndKey, DHBlindKey, STagKey and DocEncKey, in this order |
| KeyTree.KeyManager.LoadDBKeys | client_proxy/key_manager.go:220-235 | loads the keys before the first that does not decrypt and leaves the others as they were |
| KeyTree.LoadsNothing | client_proxy/key_manager.go:224-227 | without the first key, when nil does not decrypt, loading changes nothing |
| KeyTree.LoadBack | client_proxy/key_manager.go:220-247 | each stored key decrypts to the key it came from |
| KeyTree.Restart | client_proxy/key_manager.go:115-149 | a restart from the stored keys has the key map of the first start |
| KeyTree.SetupThenRestart | client_proxy/key_manager.go:152-247 | for every master key, first start and restart agree whenever encryption succeeds, and setup fails exactly when it does not |
| Departures.FromZeroReadsNothing | server/encrypted_searcher.go:282 | starting at slot 0, every search over every finished build is empty |
| Departures.OthersStayNil | server/encrypted_searcher.go:298-300 | every batch element but the one at i stays nil, whatever arrives |
| Departures.MissesSortFirst | server/encrypted_searcher.go:335-351 | with misses at index 0 a chunk is streamed as designed exactly when it has no miss or begins with one |
| Departures.ZeroMissesRightIff | server/encrypted_searcher.go:282-351 | with misses at index 0 a search of a finished build answers right if and only if the word is in no document or n + 1 is a multiple of 20 |
| Departures.SwappedAlwaysMisses | server/encrypted_searcher.go:334 | with bucket and label swapped every lookup in every finished build misses |
| Departures.OffsetsLoseLastByte | server/encrypted_searcher.go:359-363 | with the literal offsets the id has three of its four bytes, so the client cannot decode it, and the blinding value is the fourth followed by the first 23 of y |
| Departures.UnpaddedReadableIff | client_proxy/encrypted_index.go:471-495 | without padding the server stays in range exactly when y needs all 28 bytes |
| Departures.StagsOfDocument | client_proxy/encrypted_index.go:332-363 | with one reset per document the k-th stag is the PRF of the first k+1 words run together |
| Departures.OwnInputIff | client_proxy/encrypted_index.go:360-363 | that is the word's own stag exactly when every earlier word is empty |
| FrequentBranch.PopulateAsWritten | client_proxy/tf_calc.go:281-327 | the literal branch inside the loop, over the map in a given order: the fold of its steps and the leftover, or an index out of range |
| FrequentBranch.RightIff | client_proxy/tf_calc.go:293-321 | for every map: the literal branch queues exactly the bucket's terms in every order if and only if there are none, or there is one and no term is in Below100 |
| FrequentBranch.WritesAtRareIndex | client_proxy/tf_calc.go:285-303 | in every order, until it panics, the branch writes at the number of Below100 terms seen, modulo 10000 |
| FrequentBranch.FullBatchTwice | client_proxy/tf_calc.go:316-327 | ten thousand frequent terms and no rare one: the kept end of the slice queues the same batch again as the leftover |

## Left out

- gRPC streams, protobuf code, the command line, the daemons: plumbing.
- BoltDB, snacl, CMAC, SHA-512, the curve, gob and the Bloom filter's bits: parameters with the hypotheses above; every database call is assumed to succeed.
- client_proxy/inverted_index.go: unused, and its reducers produce nothing.
- client_proxy/doc_encrypter.go, client_proxy/corpus_reader.go, server/doc_db.go: file access and a plain key-value store. Document ids are distinct keys of a map.
- `ParseTokens` and tokenisation: a document enters as its set of words, or as its words in the order a worker ranges over them.
- Quit channels, `Stop`, `abort` and client_proxy/error_handler.go: runs without abort. A blinding value without inverse stops its worker in the model.
- `mainWg`: its additions and subtractions do not balance in the source (client_proxy/index.go:62, 88).
- Conjunctive search and the token exchange are empty stubs (server/server.go:120-126); `CrossIndex` states what the stored values must satisfy for them, not a protocol.
- Secrecy and leakage.
- Searching while the build is still running, and the cancel channel of a search: searches start from a finished store.
- `sort.Sort` is modelled as an insertion sort on the array; only order and permutation are used.
- Consumers of the preprocessor's other two streams, and the t-Set worker the splitter feeds beside the xSet worker, are always ready in `XSetPipeline`; progress of the T-set build and of the map-reduce is proved separately and not jointly. Moreover frequency messages do not compete for the bloomMaster's queue in `XSetPipeline`.
- X-Set completion is modelled with one worker per stage; `CloseProtocol` alone varies the number of xSet workers.
- pendingXSends is unbounded; the 32-bit element counter is not.
- The randomness of key encryption is an index argument of the cipher.
- EndToEnd.SearchRefinesMap: requires fewer than 4294967280 documents, because the reader's 32-bit chunk arithmetic wraps there.
- XSetProofs.Progress: requires room in the message queue and a corpus that signals once; `XSetOutcome.CompletesIff` shows that every other corpus has a run that crashes or never finishes.
- TSetProgress.Progress: requires at least one worker and usable entries; without an inverse the client stops (`TSetProgress.BuildCompletesIff`).
- FrequentBranch.RightIff: a queued batch is a copy, while the source's batch shares its array with the slice that is written next.
