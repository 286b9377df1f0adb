/** `RetrieverBuilder.build_hybrid_retriever` of `retriever/builder.py`:
    input validation, blank filtering, and how the lexical (BM25) and vector
    retrievers are put together. The indexes themselves, the embeddings and
    the fusion of rankings are external; only their construction outcome is
    modelled. */
module RetrieverBuilder {
  import opened Wrappers
  import opened Text
  import FileHandler
  import Seqs

  type Chunk = FileHandler.Chunk

  /** A component retriever, recorded with the documents it was built from. */
  datatype Retriever =
    | Bm25(corpus: seq<Chunk>)
    | VectorSearch(corpus: seq<Chunk>, k: int)

  /** An `EnsembleRetriever`: component retrievers and their weights. */
  datatype Ensemble = Ensemble(retrievers: seq<Retriever>, weights: seq<real>)

  /** `settings.VECTOR_SEARCH_K` and `settings.HYBRID_RETRIEVER_WEIGHTS`. */
  datatype Settings = Settings(vectorSearchK: int, hybridWeights: seq<real>)

  datatype BuildError = NoDocuments | NoValidDocuments | BackendError(message: string)

  /** Whether building the Chroma store (embedding every document) and the
      BM25 index over a document list succeeds, or the message they raise. */
  datatype Backends = Backends(
    vectorStore: seq<Chunk> -> Outcome<string>,
    bm25: seq<Chunk> -> Outcome<string>)

  predicate BlankDoc(d: Chunk) {
    IsBlank(d.pageContent)
  }

  /** `[doc for doc in docs if doc.page_content.strip()]`. */
  function ValidDocs(docs: seq<Chunk>): (r: seq<Chunk>)
    ensures |r| <= |docs|
  {
    Seqs.Keep(BlankDoc, docs, false)
  }

  /** The filter keeps exactly the documents with non-blank text. */
  lemma {:induction false} ValidDocsExactly(docs: seq<Chunk>)
    ensures forall d | d in ValidDocs(docs) :: d in docs && !IsBlank(d.pageContent)
    ensures forall d | d in docs && !IsBlank(d.pageContent) :: d in ValidDocs(docs)
    decreases |docs|
  {
    if |docs| > 0 {
      var init := docs[..|docs| - 1];
      ValidDocsExactly(init);
      assert docs == init + [docs[|docs| - 1]];
    }
  }

  /** Filtering keeps the original order: the filter of a concatenation is
      the concatenation of the filters. */
  lemma {:induction false} ValidDocsAppend(a: seq<Chunk>, b: seq<Chunk>)
    ensures ValidDocs(a + b) == ValidDocs(a) + ValidDocs(b)
    decreases |b|
  {
    if |b| == 0 {
      assert a + b == a;
    } else {
      var init := b[..|b| - 1];
      ValidDocsAppend(a, init);
      assert (a + b)[..|a + b| - 1] == a + init;
      assert (a + b)[|a + b| - 1] == b[|b| - 1];
    }
  }

  /** Filtering twice is filtering once. */
  lemma {:induction false} ValidDocsIdempotent(docs: seq<Chunk>)
    ensures ValidDocs(ValidDocs(docs)) == ValidDocs(docs)
    decreases |docs|
  {
    if |docs| > 0 {
      var init := docs[..|docs| - 1];
      var last := docs[|docs| - 1];
      ValidDocsIdempotent(init);
      if !IsBlank(last.pageContent) {
        ValidDocsAppend(ValidDocs(init), [last]);
        assert [last][..0] == [];
      }
    }
  }

  /** `build_hybrid_retriever`: an empty list and a list with only blank
      documents are refused before any index is built; otherwise the vector
      store and then the BM25 index are built from the same filtered list, and
      the ensemble lists BM25 first and the vector retriever (with the
      configured k) second, under the configured weights. Any backend error is
      re-raised and no retriever is returned. */
  function BuildHybridRetriever(b: Backends, cfg: Settings, docs: seq<Chunk>): (r: Result<Ensemble, BuildError>)
    ensures |docs| == 0 ==> r == Failure(NoDocuments)
    ensures |docs| > 0 && |ValidDocs(docs)| == 0 ==> r == Failure(NoValidDocuments)
    ensures r.Success? <==>
      |ValidDocs(docs)| > 0 && b.vectorStore(ValidDocs(docs)).Pass? && b.bm25(ValidDocs(docs)).Pass?
    ensures r.Success? ==>
      var valid := ValidDocs(docs);
      && r.value.retrievers == [Bm25(valid), VectorSearch(valid, cfg.vectorSearchK)]
      && r.value.weights == cfg.hybridWeights
      && forall i | 0 <= i < |r.value.retrievers| :: |r.value.retrievers[i].corpus| > 0
  {
    if |docs| == 0 then Failure(NoDocuments)
    else
      var valid := ValidDocs(docs);
      if |valid| == 0 then Failure(NoValidDocuments)
      else match b.vectorStore(valid)
        case Fail(e) => Failure(BackendError(e))
        case Pass =>
          match b.bm25(valid)
          case Fail(e) => Failure(BackendError(e))
          case Pass => Success(Ensemble([Bm25(valid), VectorSearch(valid, cfg.vectorSearchK)], cfg.hybridWeights))
  }

  /** Filtering a list of blank documents leaves nothing. */
  lemma {:induction false} ValidDocsOfBlank(docs: seq<Chunk>)
    requires forall i | 0 <= i < |docs| :: IsBlank(docs[i].pageContent)
    ensures ValidDocs(docs) == []
    decreases |docs|
  {
    if |docs| > 0 {
      ValidDocsOfBlank(docs[..|docs| - 1]);
    }
  }

  /** A non-empty list whose every document is blank is refused as having no
      valid document. */
  lemma AllBlankRejected(b: Backends, cfg: Settings, docs: seq<Chunk>)
    requires |docs| > 0
    requires forall i | 0 <= i < |docs| :: IsBlank(docs[i].pageContent)
    ensures BuildHybridRetriever(b, cfg, docs) == Failure(NoValidDocuments)
  {
    ValidDocsOfBlank(docs);
  }

  /** Blank documents never reach an index: both components are built over
      documents with non-blank text, and every such input document is there. */
  lemma IndexesSeeOnlyContent(b: Backends, cfg: Settings, docs: seq<Chunk>)
    requires BuildHybridRetriever(b, cfg, docs).Success?
    ensures var e := BuildHybridRetriever(b, cfg, docs).value;
      forall i | 0 <= i < |e.retrievers| ::
        && (forall d | d in e.retrievers[i].corpus :: d in docs && !IsBlank(d.pageContent))
        && (forall d | d in docs && !IsBlank(d.pageContent) :: d in e.retrievers[i].corpus)
  {
    ValidDocsExactly(docs);
  }
}
