/** `src/pdf_util.py`: `ChatPDF` answers questions about one ingested PDF.
    Its three fields, the vector store, the retriever over it and the
    answer chain, are empty until `ingest` succeeds, and `clear` empties
    them again. The OCR tool, the PDF loaders, the text splitter, the
    vector store and the language model are opaque, fallible functions. */
module ChatPdf {
  import opened Wrappers
  import opened Text

  /** What a library call gave: its result, or the exception it raised. */
  datatype Attempt<T> = Done(value: T) | Failed(reason: string)

  /** A page (or element) a PDF loader returns. */
  datatype Document = Document(content: string, metadata: string)

  /** A piece of text the splitter cut from the documents. */
  datatype Chunk = Chunk(content: string, metadata: string)

  /** `RecursiveCharacterTextSplitter(chunk_size, chunk_overlap, add_start_index)`. */
  datatype SplitterConfig = SplitterConfig(chunkSize: nat, chunkOverlap: nat, addStartIndex: bool)

  /** `as_retriever(search_type, search_kwargs={k, fetch_k, lambda_mult})`. */
  datatype SearchConfig = SearchConfig(searchType: string, k: nat, fetchK: nat, lambdaMult: real)

  /** The Chroma store built from the chunks: an opaque handle. */
  datatype VectorStore = VectorStore(handle: nat)

  /** The retriever: a store searched with one configuration. */
  datatype Retriever = Retriever(store: VectorStore, search: SearchConfig)

  /** `{"context": retriever, "question": …} | prompt | model | parser`. */
  datatype Chain = Chain(retriever: Retriever)

  const Splitter := SplitterConfig(512, 128, true)
  const Mmr := SearchConfig("mmr", 5, 20, 0.5)
  const EmbeddingModel := "BAAI/bge-small-en-v1.5"
  const PersistDirectory := "./chroma_db"
  const OcrFileName := "searchable.pdf"

  const EmptyPdf := "PDF appears to be empty or unreadable"
  const NoValidContent := "No valid content found in PDF after processing."
  const LoadFirst := "Please load a PDF document first."
  const InvalidQuestion := "Please provide a valid question."
  const NothingRelevant := "No relevant information found in the document."
  const AskFailed := "An error occurred while processing your question."

  /** The libraries `ingest` calls. `ocr(input, output)` tells whether
      OCRmyPDF wrote its output; `split` is `split_documents` followed by
      `filter_complex_metadata`; `chroma` is `Chroma.from_documents` with
      the embedding model and the persist directory. */
  datatype Libraries = Libraries(
    ocr: (string, string) -> bool,
    pyPdf: string -> Attempt<seq<Document>>,
    unstructured: string -> Attempt<seq<Document>>,
    split: (SplitterConfig, seq<Document>) -> Attempt<seq<Chunk>>,
    chroma: (seq<Chunk>, string, string) -> Attempt<VectorStore>)

  /** What `ask` calls: the retriever's search and the chain's answer. */
  datatype Answering = Answering(
    retrieve: (Retriever, string) -> Attempt<seq<Chunk>>,
    invoke: (Chain, string) -> Attempt<string>)

  /** `os.path.join(directory, name)` for a relative `name`. */
  function JoinPath(directory: string, name: string): string {
    if directory == [] || directory[|directory| - 1] == '/' then directory + name
    else directory + "/" + name
  }

  /** The file the loaders read: OCRmyPDF's output in the temporary
      directory, or the original file when OCR failed. */
  function LoadPath(pdfPath: string, tmpdir: string, libs: Libraries): string {
    var ocrOutput := JoinPath(tmpdir, OcrFileName);
    if libs.ocr(pdfPath, ocrOutput) then ocrOutput else pdfPath
  }

  /** PyPDFLoader, and UnstructuredPDFLoader when it raised. */
  function LoadDocuments(path: string, libs: Libraries): Attempt<seq<Document>> {
    match libs.pyPdf(path)
    case Done(docs) => Done(docs)
    case Failed(_) => libs.unstructured(path)
  }

  predicate Blank(c: Chunk) {
    Strip(c.content) == []
  }

  /** `[chunk for chunk in chunks if chunk.page_content.strip()]`: the
      chunks with some non-whitespace content, in their order. */
  function NonBlank(chunks: seq<Chunk>): (r: seq<Chunk>)
    ensures |r| <= |chunks|
    ensures forall i :: 0 <= i < |r| ==> !Blank(r[i]) && r[i] in chunks
    ensures forall c :: c in chunks && !Blank(c) ==> c in r
    decreases |chunks|
  {
    if chunks == [] then []
    else
      var rest := NonBlank(chunks[1..]);
      if Blank(chunks[0]) then rest else [chunks[0]] + rest
  }

  /** What `ingest` builds: the retained chunks and the store over them,
      or the reason it gives up. */
  function IngestPlan(pdfPath: string, tmpdir: string, libs: Libraries): Attempt<(seq<Chunk>, VectorStore)> {
    match LoadDocuments(LoadPath(pdfPath, tmpdir, libs), libs)
    case Failed(e) => Failed(e)
    case Done(docs) =>
      if docs == [] then Failed(EmptyPdf)
      else
        match libs.split(Splitter, docs)
        case Failed(e) => Failed(e)
        case Done(split) =>
          var chunks := NonBlank(split);
          if chunks == [] then Failed(NoValidContent)
          else
            match libs.chroma(chunks, EmbeddingModel, PersistDirectory)
            case Failed(e) => Failed(e)
            case Done(store) => Done((chunks, store))
  }

  /** A successful ingestion stores only non-blank chunks, at least one,
      all of them cut from the loaded documents with the 512/128 splitter. */
  lemma IngestStoresContent(pdfPath: string, tmpdir: string, libs: Libraries)
    requires IngestPlan(pdfPath, tmpdir, libs).Done?
    ensures var chunks := IngestPlan(pdfPath, tmpdir, libs).value.0;
      && chunks != []
      && (forall i :: 0 <= i < |chunks| ==> !Blank(chunks[i]))
      && var docs := LoadDocuments(LoadPath(pdfPath, tmpdir, libs), libs);
         && docs.Done? && docs.value != []
         && libs.split(Splitter, docs.value).Done?
         && chunks == NonBlank(libs.split(Splitter, docs.value).value)
  {
  }

  /** Documents an ingestion can index: some pages, a split that keeps a
      chunk with content, and a store Chroma builds over the kept chunks. */
  predicate Indexable(docs: Attempt<seq<Document>>, libs: Libraries) {
    && docs.Done? && docs.value != []
    && libs.split(Splitter, docs.value).Done?
    && (exists c :: c in libs.split(Splitter, docs.value).value && !Blank(c))
    && libs.chroma(NonBlank(libs.split(Splitter, docs.value).value), EmbeddingModel, PersistDirectory).Done?
  }

  /** Ingestion succeeds exactly when the documents the loaders return are
      indexable, and it stores their non-blank chunks. */
  lemma IngestSucceeds(pdfPath: string, tmpdir: string, libs: Libraries)
    ensures var docs := LoadDocuments(LoadPath(pdfPath, tmpdir, libs), libs);
      && (IngestPlan(pdfPath, tmpdir, libs).Done? <==> Indexable(docs, libs))
      && (IngestPlan(pdfPath, tmpdir, libs).Done? ==>
            IngestPlan(pdfPath, tmpdir, libs).value.0 == NonBlank(libs.split(Splitter, docs.value).value))
  {
    var docs := LoadDocuments(LoadPath(pdfPath, tmpdir, libs), libs);
    if docs.Done? && docs.value != [] && libs.split(Splitter, docs.value).Done? {
      var split := libs.split(Splitter, docs.value).value;
      var kept := NonBlank(split);
      if kept != [] {
        assert kept[0] in split && !Blank(kept[0]);
      }
    }
  }

  /** A failed OCR run is not fatal: ingestion then indexes the original
      file, and succeeds exactly when its documents are indexable. */
  lemma OcrFallback(pdfPath: string, tmpdir: string, libs: Libraries)
    requires !libs.ocr(pdfPath, JoinPath(tmpdir, OcrFileName))
    ensures IngestPlan(pdfPath, tmpdir, libs).Done? <==> Indexable(LoadDocuments(pdfPath, libs), libs)
    ensures IngestPlan(pdfPath, tmpdir, libs).Done? ==>
      IngestPlan(pdfPath, tmpdir, libs).value.0 == NonBlank(libs.split(Splitter, LoadDocuments(pdfPath, libs).value).value)
  {
    IngestSucceeds(pdfPath, tmpdir, libs);
  }

  /** When PyPDFLoader raises, ingestion rests on UnstructuredPDFLoader: it
      succeeds exactly when that loader's documents are indexable, and it
      stores their chunks. */
  lemma LoaderFallback(pdfPath: string, tmpdir: string, libs: Libraries)
    requires libs.pyPdf(LoadPath(pdfPath, tmpdir, libs)).Failed?
    ensures var docs := libs.unstructured(LoadPath(pdfPath, tmpdir, libs));
      && (IngestPlan(pdfPath, tmpdir, libs).Done? <==> Indexable(docs, libs))
      && (IngestPlan(pdfPath, tmpdir, libs).Done? ==>
            IngestPlan(pdfPath, tmpdir, libs).value.0 == NonBlank(libs.split(Splitter, docs.value).value))
  {
    IngestSucceeds(pdfPath, tmpdir, libs);
  }

  /** A document that loads as no pages, or that splits into whitespace
      only, is refused. */
  lemma NothingToIndex(pdfPath: string, tmpdir: string, libs: Libraries)
    ensures var docs := LoadDocuments(LoadPath(pdfPath, tmpdir, libs), libs);
      && (docs == Done([]) ==> IngestPlan(pdfPath, tmpdir, libs) == Failed(EmptyPdf))
      && (docs.Done? && docs.value != [] && libs.split(Splitter, docs.value).Done?
          && (forall c :: c in libs.split(Splitter, docs.value).value ==> Blank(c))
          ==> IngestPlan(pdfPath, tmpdir, libs) == Failed(NoValidContent))
  {
    var docs := LoadDocuments(LoadPath(pdfPath, tmpdir, libs), libs);
    if docs.Done? && docs.value != [] && libs.split(Splitter, docs.value).Done? {
      var split := libs.split(Splitter, docs.value).value;
      if forall c :: c in split ==> Blank(c) {
        AllBlankDropped(split);
      }
    }
  }

  /** Whitespace-only chunks are all filtered out. */
  lemma {:induction false} AllBlankDropped(chunks: seq<Chunk>)
    requires forall c :: c in chunks ==> Blank(c)
    ensures NonBlank(chunks) == []
    decreases |chunks|
  {
    if chunks != [] {
      assert chunks[0] in chunks;
      forall c | c in chunks[1..] ensures Blank(c) {
        assert c in chunks;
      }
      AllBlankDropped(chunks[1..]);
    }
  }

  class ChatPDF {
    var vectorStore: Option<VectorStore>
    var retriever: Option<Retriever>
    var chain: Option<Chain>

    /** The three fields are all empty, or all set and built on one
        another. */
    ghost predicate Valid()
      reads this
    {
      || (vectorStore.None? && retriever.None? && chain.None?)
      || (&& vectorStore.Some? && retriever == Some(Retriever(vectorStore.value, Mmr))
          && chain == Some(Chain(retriever.value)))
    }

    /** `__init__`: nothing ingested yet. */
    constructor ()
      ensures Valid()
      ensures vectorStore.None? && retriever.None? && chain.None?
    {
      vectorStore := None;
      retriever := None;
      chain := None;
    }

    /** `ingest(pdf_file_path)`; `tmpdir` is the temporary directory the
        OCR output goes to. True exactly when the plan succeeds, and then
        the store, the MMR retriever over it and the chain on that
        retriever are all in place; on any failure the fields keep their
        previous values. */
    method Ingest(pdfPath: string, tmpdir: string, libs: Libraries) returns (ok: bool)
      requires Valid()
      modifies this
      ensures Valid()
      ensures ok <==> IngestPlan(pdfPath, tmpdir, libs).Done?
      ensures ok ==> var store := IngestPlan(pdfPath, tmpdir, libs).value.1;
        && vectorStore == Some(store)
        && retriever == Some(Retriever(store, Mmr))
        && chain == Some(Chain(Retriever(store, Mmr)))
      ensures !ok ==> vectorStore == old(vectorStore) && retriever == old(retriever) && chain == old(chain)
    {
      var ocrOutputPath := JoinPath(tmpdir, OcrFileName);
      if !libs.ocr(pdfPath, ocrOutputPath) {
        ocrOutputPath := pdfPath;
      }
      var docs: seq<Document>;
      match libs.pyPdf(ocrOutputPath) {
        case Done(d) =>
          docs := d;
        case Failed(_) =>
          match libs.unstructured(ocrOutputPath) {
            case Done(d) =>
              docs := d;
            case Failed(_) =>
              return false;
          }
      }
      if docs == [] {
        return false;
      }
      var chunks: seq<Chunk>;
      match libs.split(Splitter, docs) {
        case Done(c) =>
          chunks := c;
        case Failed(_) =>
          return false;
      }
      chunks := NonBlank(chunks);
      if chunks == [] {
        return false;
      }
      match libs.chroma(chunks, EmbeddingModel, PersistDirectory) {
        case Done(store) =>
          vectorStore := Some(store);
        case Failed(_) =>
          return false;
      }
      retriever := Some(Retriever(vectorStore.value, Mmr));
      chain := Some(Chain(retriever.value));
      return true;
    }

    /** `ask(question)`: the checks come in a fixed order, no chain, a
        blank question, a failed or empty search, and only then the
        chain's answer, with the question stripped. */
    method Ask(question: string, answering: Answering) returns (r: string)
      ensures chain.None? ==> r == LoadFirst
      ensures chain.Some? && Strip(question) == [] ==> r == InvalidQuestion
      ensures chain.Some? && Strip(question) != [] && retriever.None? ==> r == AskFailed
      ensures chain.Some? && Strip(question) != [] && retriever.Some? ==>
        match answering.retrieve(retriever.value, Strip(question))
        case Failed(_) => r == AskFailed
        case Done(docs) =>
          if docs == [] then r == NothingRelevant
          else
            match answering.invoke(chain.value, Strip(question))
            case Failed(_) => r == AskFailed
            case Done(answer) => r == answer
    {
      if chain.None? {
        return LoadFirst;
      }
      var cleanQuestion := Strip(question);
      if cleanQuestion == [] {
        return InvalidQuestion;
      }
      if retriever.None? {
        return AskFailed;
      }
      match answering.retrieve(retriever.value, cleanQuestion) {
        case Failed(_) =>
          return AskFailed;
        case Done(relevant) =>
          if relevant == [] {
            return NothingRelevant;
          }
      }
      match answering.invoke(chain.value, cleanQuestion) {
        case Failed(_) =>
          r := AskFailed;
        case Done(answer) =>
          r := answer;
      }
    }

    /** `clear()`: back to the state of a fresh instance. */
    method Clear()
      modifies this
      ensures Valid()
      ensures vectorStore.None? && retriever.None? && chain.None?
    {
      vectorStore := None;
      retriever := None;
      chain := None;
    }
  }
}
