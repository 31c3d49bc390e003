/** What the T-set and the X-Set are built for together. Conjunctive search itself is a stub on both
    sides, but the stored values must already fit: raising the token of a second word to the y of a
    found tuple has to land in the uploaded filter exactly when the document contains that word. */
module CrossIndex {
  import opened Bytes
  import opened TSet
  import opened Searcher
  import opened TSetBuild
  import opened TSetBuildProofs
  import opened EndToEnd
  import opened Collections
  import XSetPipeline
  import XSetProofs

  /** The curve as the xSet worker uses it, with its point encoding, and the key of its tag PRF. */
  datatype Curve<!G> = Curve(gr: Oxt.Group<G>, g: G, order: nat, marshal: G -> Bytes, xTagKey: Bytes)

  ghost predicate Sound<G(!new)>(cv: Curve<G>) {
    Oxt.Lawful(cv.gr) && Oxt.HasOrder(cv.gr, cv.g, cv.order)
  }

  /** wtag = F_p(K_x, w) */
  function WTag<G>(env: Env, cv: Curve<G>, w: Word): nat {
    FromBigEndian(env.prims.cmac(cv.xTagKey, w))
  }

  /** xtag = (g^xind)^wtag, as marshalled by xSetWorker. */
  function XTagOf<G>(env: Env, cv: Curve<G>, w: Word, id: nat): Bytes {
    cv.marshal(Oxt.XTag(cv.gr, cv.g, XInd(env, id), WTag(env, cv, w)))
  }

  function XConfig<G>(env: Env, cv: Curve<G>, cap: nat): XSetPipeline.Config {
    XSetPipeline.Config((w: Word, id: nat) => XTagOf(env, cv, w, id), cap)
  }

  /** The token for `other` at position `k` of the list of `w`, raised to the tuple's y. */
  function Probe<G>(env: Env, cv: Curve<G>, w: Word, k: nat, other: Word, t: TupleData): Bytes {
    cv.marshal(Oxt.Pow(cv.gr, Oxt.XToken(cv.gr, cv.g, WTag(env, cv, other), Z(env, w, k)),
                       FromBigEndian(t.blindingVal)))
  }

  /** The documents the preprocessor sends to the xSet worker are those of the corpus. */
  ghost predicate SameDocuments(corpus: Corpus, docs: seq<XSetPipeline.Doc>) {
    && (forall d :: d in docs ==> d.id in corpus && forall w :: w in d.words <==> w in corpus[d.id])
    && (forall id :: id in corpus ==> exists d :: d in docs && d.id == id)
  }

  /** The hypothesis on the tags: over these words and the corpus, different pairs of word and
      document have different tags. */
  ghost predicate DistinctTags<G(!new)>(env: Env, cv: Curve<G>, words: set<Word>, corpus: Corpus) {
    forall w, id, w', id' ::
      (w in words && w' in words && id in corpus && id' in corpus && SameTag(env, cv, w, id, w', id'))
      ==> w == w' && id == id'
  }

  predicate SameTag<G(!new)>(env: Env, cv: Curve<G>, w: Word, id: nat, w': Word, id': nat) {
    XTagOf(env, cv, w, id) == XTagOf(env, cv, w', id')
  }

  /** What the tags need of the PRFs, the group and the encoding: points are encoded injectively,
      and over these words and the corpus the products of the PRFs' values for a word and for a
      document differ modulo the order of g. */
  ghost predicate TagsDistinct<G(!new)>(env: Env, cv: Curve<G>, words: set<Word>, corpus: Corpus) {
    && (forall a, b :: cv.marshal(a) == cv.marshal(b) ==> a == b)
    && (forall w, id, w', id' ::
          (&& w in words && w' in words && id in corpus && id' in corpus
           && Oxt.Congruent(
                FromBigEndian(env.prims.cmac(env.keys.xInd, BigEndian(id, 4))) * FromBigEndian(env.prims.cmac(cv.xTagKey, w)),
                FromBigEndian(env.prims.cmac(env.keys.xInd, BigEndian(id', 4))) * FromBigEndian(env.prims.cmac(cv.xTagKey, w')),
                cv.order))
          ==> w == w' && id == id')
  }

  /** The hypothesis on tags follows from the primitives. */
  lemma TagsFromPrimitives<G(!new)>(env: Env, cv: Curve<G>, words: set<Word>, corpus: Corpus)
    requires Sound(cv) && TagsDistinct(env, cv, words, corpus)
    ensures DistinctTags(env, cv, words, corpus)
  {
    forall w, id, w', id' |
      w in words && w' in words && id in corpus && id' in corpus && SameTag(env, cv, w, id, w', id')
      ensures w == w' && id == id'
    {
      SameTagCongruent(env, cv, w, id, w', id');
    }
  }

  lemma SameTagCongruent<G(!new)>(env: Env, cv: Curve<G>, w: Word, id: nat, w': Word, id': nat)
    requires Sound(cv) && SameTag(env, cv, w, id, w', id') && forall a, b :: cv.marshal(a) == cv.marshal(b) ==> a == b
    ensures Oxt.Congruent(
      FromBigEndian(env.prims.cmac(env.keys.xInd, BigEndian(id, 4))) * FromBigEndian(env.prims.cmac(cv.xTagKey, w)),
      FromBigEndian(env.prims.cmac(env.keys.xInd, BigEndian(id', 4))) * FromBigEndian(env.prims.cmac(cv.xTagKey, w')),
      cv.order)
  {
    SamePoint(cv, XInd(env, id), WTag(env, cv, w), XInd(env, id'), WTag(env, cv, w'));
  }

  lemma SamePoint<G(!new)>(cv: Curve<G>, x: nat, t: nat, x': nat, t': nat)
    requires Sound(cv) && Oxt.XTag(cv.gr, cv.g, x, t) == Oxt.XTag(cv.gr, cv.g, x', t')
    ensures Oxt.Congruent(x * t, x' * t', cv.order)
  {
    Oxt.PowMul(cv.gr, cv.g, x, t);
    Oxt.PowMul(cv.gr, cv.g, x', t');
    Oxt.PowEqualIff(cv.gr, cv.g, cv.order, x * t, x' * t');
  }

  /** `filter` is what some finished run of the X-Set pipeline over the corpus uploads. */
  ghost predicate Uploaded<G(!new)>(env: Env, cv: Curve<G>, corpus: Corpus, filter: set<Bytes>) {
    exists cap, docs, steps ::
      SameDocuments(corpus, docs) && UploadedBy(XConfig(env, cv, cap), docs, steps, filter)
  }

  ghost predicate UploadedBy(c: XSetPipeline.Config, docs: seq<XSetPipeline.Doc>,
                             steps: seq<XSetPipeline.Step>, filter: set<Bytes>) {
    && XSetPipeline.Total(docs) < TWO32 && XSetProofs.SignalsOnce(docs)
    && XSetPipeline.ValidRun(c, XSetPipeline.Start(docs), steps)
    && XSetPipeline.Final(XSetPipeline.Exec(c, XSetPipeline.Start(docs), steps))
    && XSetPipeline.Exec(c, XSetPipeline.Start(docs), steps).uploaded == Some(filter)
  }

  /** The filter holds the tags of the corpus, word by word and document by document. */
  lemma FilterHolds<G(!new)>(env: Env, cv: Curve<G>, corpus: Corpus, filter: set<Bytes>, t: Bytes)
    requires Uploaded(env, cv, corpus, filter)
    ensures t in filter <==> exists w, id :: id in corpus && w in corpus[id] && t == XTagOf(env, cv, w, id)
  {
    var cap, docs, steps :|
      SameDocuments(corpus, docs) && UploadedBy(XConfig(env, cv, cap), docs, steps, filter);
    var c := XConfig(env, cv, cap);
    XSetProofs.FinalUpload(c, docs, steps);
    assert t in filter <==> XSetProofs.IsTag(c, docs, t);
    if t in filter {
      var d :| d in docs && t in XSetPipeline.TagsOf(c, d);
      XSetProofs.TagOfWord(c, d, t);
    }
    if w, id :| id in corpus && w in corpus[id] && t == XTagOf(env, cv, w, id) {
      var d: XSetPipeline.Doc :| d in docs && d.id == id;
      XSetProofs.TagOfWord(c, d, t);
    }
  }

  lemma TagInFilter<G(!new)>(corpus: Corpus, env: Env, cv: Curve<G>, other: Word, id: nat, filter: set<Bytes>)
    requires Uploaded(env, cv, corpus, filter) && id in corpus
    requires DistinctTags(env, cv, Vocabulary(corpus) + {other}, corpus)
    ensures XTagOf(env, cv, other, id) in filter <==> other in corpus[id]
  {
    var t := XTagOf(env, cv, other, id);
    FilterHolds(env, cv, corpus, filter, t);
    if t in filter {
      var v, id' :| id' in corpus && v in corpus[id'] && t == XTagOf(env, cv, v, id');
      assert SameTag(env, cv, other, id, v, id');
    }
  }

  /** The k-th tuple a search for `w` returns, probed with the token of any other word, yields that
      word's xTag for the document the tuple stands for. */
  lemma ProbeIsTag<G(!new)>(corpus: Corpus, env: Env, cv: Curve<G>, s: State, w: Word, k: nat, other: Word)
    requires Built(corpus, env, s, w) && k < |OrderOf(s, w)|
    requires Sound(cv) && env.modulus == cv.order <= Pow256(BLIND_BYTES)
    ensures Readable(s.db) && k < |Scan(SlotsOf(env.prims, s.db, Stag(env, w)), 1)|
    ensures var t := Scan(SlotsOf(env.prims, s.db, Stag(env, w)), 1)[k];
            Probe(env, cv, w, k, other, t) == XTagOf(env, cv, other, OrderOf(s, w)[k])
  {
    FoundTuple(corpus, env, s, w, k);
    var t := Scan(SlotsOf(env.prims, s.db, Stag(env, w)), 1)[k];
    ProbeSolves(env, cv, w, k, other, OrderOf(s, w)[k], t);
  }

  /** The k-th tuple found carries its document's index divided by the k-th blinding value. */
  lemma FoundTuple(corpus: Corpus, env: Env, s: State, w: Word, k: nat)
    requires Built(corpus, env, s, w) && k < |OrderOf(s, w)| && env.modulus <= Pow256(BLIND_BYTES)
    ensures Readable(s.db) && k < |Scan(SlotsOf(env.prims, s.db, Stag(env, w)), 1)| && env.modulus > 1
    ensures Oxt.BlindedXind(Z(env, w, k), XInd(env, OrderOf(s, w)[k]), env.modulus)
         == Some(FromBigEndian(Scan(SlotsOf(env.prims, s.db, Stag(env, w)), 1)[k].blindingVal))
  {
    KthFound(corpus, env, s, w, k);
    BlindKept(env, Entry(w, k + 1, OrderOf(s, w)[k], false));
  }

  lemma KthFound(corpus: Corpus, env: Env, s: State, w: Word, k: nat)
    requires Built(corpus, env, s, w) && k < |OrderOf(s, w)|
    ensures Readable(s.db) && k < |Scan(SlotsOf(env.prims, s.db, Stag(env, w)), 1)|
    ensures var en := Entry(w, k + 1, OrderOf(s, w)[k], false);
            Usable(env, en) && Scan(SlotsOf(env.prims, s.db, Stag(env, w)), 1)[k] == Expected(env, en)
  {
    SearchRefinesMap(corpus, env, s, w);
    AnswerAt(w, OrderOf(s, w), k);
  }

  lemma ProbeSolves<G(!new)>(env: Env, cv: Curve<G>, w: Word, k: nat, other: Word, id: nat, t: TupleData)
    requires Sound(cv) && cv.order > 1
    requires Oxt.BlindedXind(Z(env, w, k), XInd(env, id), cv.order) == Some(FromBigEndian(t.blindingVal))
    ensures Probe(env, cv, w, k, other, t) == XTagOf(env, cv, other, id)
  {
    Oxt.OxtIdentity(cv.gr, cv.g, cv.order, WTag(env, cv, other), Z(env, w, k), XInd(env, id));
  }

  /** What else a Bloom filter with these elements matches. */
  type FalsePositives = (set<Bytes>, Bytes) -> bool

  predicate Test(fp: FalsePositives, filter: set<Bytes>, t: Bytes) {
    t in filter || fp(filter, t)
  }

  /** The two halves of the index agree: among the documents a search for `w` returns, the probes
      that the uploaded filter matches are those of the documents that also contain `other`, and of
      those whose tag for it happens to be a false positive. */
  lemma ConjunctionIsIntersection<G(!new)>(corpus: Corpus, env: Env, cv: Curve<G>, s: State, w: Word, other: Word,
                                           filter: set<Bytes>, fp: FalsePositives, id: nat)
    requires Built(corpus, env, s, w) && Uploaded(env, cv, corpus, filter)
    requires Sound(cv) && env.modulus == cv.order <= Pow256(BLIND_BYTES)
    requires DistinctTags(env, cv, Vocabulary(corpus) + {other}, corpus)
    ensures (exists k :: 0 <= k < |OrderOf(s, w)| && OrderOf(s, w)[k] == id
                         && Found(env, cv, s, w, k, other, filter, fp))
       <==> id in Hits(corpus, w) && (id in Hits(corpus, other) || fp(filter, XTagOf(env, cv, other, id)))
  {
    SearchRefinesMap(corpus, env, s, w);
    forall k | 0 <= k < |OrderOf(s, w)|
      ensures OrderOf(s, w)[k] in Hits(corpus, w)
      ensures Found(env, cv, s, w, k, other, filter, fp)
         <==> OrderOf(s, w)[k] in Hits(corpus, other) || fp(filter, XTagOf(env, cv, other, OrderOf(s, w)[k]))
    {
      KthHit(corpus, env, s, w, k);
      FoundIff(corpus, env, cv, s, w, k, other, filter, fp);
    }
    if id in Hits(corpus, w) {
      assert id in Elements(OrderOf(s, w));
    }
  }

  lemma KthHit(corpus: Corpus, env: Env, s: State, w: Word, k: nat)
    requires Built(corpus, env, s, w) && k < |OrderOf(s, w)|
    ensures OrderOf(s, w)[k] in Hits(corpus, w)
  {
    SearchRefinesMap(corpus, env, s, w);
    assert OrderOf(s, w)[k] in Elements(OrderOf(s, w));
  }

  ghost predicate Found<G(!new)>(env: Env, cv: Curve<G>, s: State, w: Word, k: nat, other: Word, filter: set<Bytes>,
                                 fp: FalsePositives) {
    && Readable(s.db) && k < |Scan(SlotsOf(env.prims, s.db, Stag(env, w)), 1)|
    && Test(fp, filter, Probe(env, cv, w, k, other, Scan(SlotsOf(env.prims, s.db, Stag(env, w)), 1)[k]))
  }

  lemma FoundIff<G(!new)>(corpus: Corpus, env: Env, cv: Curve<G>, s: State, w: Word, k: nat, other: Word,
                          filter: set<Bytes>, fp: FalsePositives)
    requires Built(corpus, env, s, w) && k < |OrderOf(s, w)| && Uploaded(env, cv, corpus, filter)
    requires Sound(cv) && env.modulus == cv.order <= Pow256(BLIND_BYTES)
    requires DistinctTags(env, cv, Vocabulary(corpus) + {other}, corpus)
    ensures var id := OrderOf(s, w)[k];
            Found(env, cv, s, w, k, other, filter, fp)
            <==> id in Hits(corpus, other) || fp(filter, XTagOf(env, cv, other, id))
  {
    KthHit(corpus, env, s, w, k);
    ProbeIsTag(corpus, env, cv, s, w, k, other);
    TagInFilter(corpus, env, cv, other, OrderOf(s, w)[k], filter);
  }
}
