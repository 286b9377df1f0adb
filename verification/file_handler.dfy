/** The document processor of `document_processor/file_handler.py`: batch
    size validation, the content-addressed cache, extension dispatch, the PDF
    fallback chain and cross-file de-duplication of chunks.

    The parsers, splitters, the hash and the file system are collaborators
    this model cannot see; they are the fields of `Collaborators`, passed in. */
module FileHandler {
  import opened Wrappers
  import opened Text
  import Dedup
  import Seqs

  type Bytes = seq<bv8>

  /** A hex SHA-256 digest. */
  type Digest = string

  /** A LangChain `Document`: chunk text plus metadata (the header path for
      chunks cut by the Markdown header splitter). */
  datatype Chunk = Chunk(pageContent: string, metadata: map<string, string>)

  /** An uploaded file: its path, what `os.path.getsize` reports (`None` when
      the call raises) and its bytes (`None` when opening or reading raises). */
  datatype SourceFile = SourceFile(name: string, size: Option<nat>, content: Option<Bytes>)

  /** The dictionary pickled into a cache file. */
  datatype CacheRecord = CacheRecord(timestamp: int, chunks: seq<Chunk>)

  /** A `<digest>.pkl` file of the cache directory: its modification time in
      seconds and what unpickling it gives (`None` when loading raises). */
  datatype CacheFile = CacheFile(mtime: int, record: Option<CacheRecord>)

  /** The cache directory, keyed by the digest in the file name. */
  type Cache = map<Digest, CacheFile>

  /** `constants.MAX_TOTAL_SIZE` in bytes and `settings.CACHE_EXPIRE_DAYS`. */
  datatype Config = Config(maxTotalSize: nat, cacheExpireDays: int)

  const SecondsPerDay: int := 86400

  /** Header levels given to the Markdown header splitter. */
  const Headers: seq<(string, string)> := [("#", "Header 1"), ("##", "Header 2")]

  /** Window and overlap of the recursive character splitter. */
  const ChunkSize: nat := 1000
  const ChunkOverlap: nat := 200

  /** The opaque libraries and system calls the processor uses. */
  datatype Collaborators = Collaborators(
    /** `hashlib.sha256(b).hexdigest()` */
    hash: Bytes -> Digest,
    /** `str.encode()` */
    encode: string -> Bytes,
    /** reading the file again as UTF-8 text; `None` when decoding raises */
    readText: Bytes -> Option<string>,
    /** `MarkdownHeaderTextSplitter(headers).split_text(text)` */
    headerSplit: (seq<(string, string)>, string) -> seq<Chunk>,
    /** `RecursiveCharacterTextSplitter(size, overlap).split_documents([Document(text)])` */
    recursiveSplit: (nat, nat, string) -> seq<Chunk>,
    /** the text of every page pypdfium2 finds, or the error it raises */
    pdfPages: SourceFile -> Result<seq<string>, string>,
    /** docling Markdown export with OCR and table structure disabled */
    simpleDocling: SourceFile -> Result<string, string>,
    /** docling Markdown export with default options under a 60-second alarm */
    timedDocling: SourceFile -> Result<string, string>,
    /** docling Markdown export with default options and no alarm */
    docling: SourceFile -> Result<string, string>,
    /** how writing the cache file for these chunks under this digest ends */
    cacheWrite: (Digest, seq<Chunk>) -> CacheWrite)

  /** How `_save_to_cache` ends. `open(path, "wb")` can raise before anything
      is written, and the old file (if any) stays. Otherwise the file is
      emptied at once, so when `pickle.dump` then raises a truncated file is
      left behind, which no longer unpickles. Or the write completes. */
  datatype CacheWrite = OpenFailed | DumpFailed | Written

  // ---------------------------------------------------------------------------
  // Batch validation

  datatype BatchError = StatFailed(name: string) | TooLarge(limitMb: nat)

  predicate AllSized(files: seq<SourceFile>) {
    forall i | 0 <= i < |files| :: files[i].size.Some?
  }

  /** The sum of the sizes of a batch whose sizes are all known. */
  function SumSizes(files: seq<SourceFile>): nat
    requires AllSized(files)
  {
    if |files| == 0 then 0
    else SumSizes(files[..|files| - 1]) + files[|files| - 1].size.value
  }

  /** `sum(os.path.getsize(f.name) for f in files)`: raises at the first file
      whose size cannot be read. */
  function TotalSize(files: seq<SourceFile>): Result<nat, string>
  {
    if |files| == 0 then Success(0)
    else match files[0].size
      case None => Failure(files[0].name)
      case Some(n) =>
        match TotalSize(files[1..])
        case Failure(name) => Failure(name)
        case Success(rest) => Success(n + rest)
  }

  lemma {:induction false} TotalSizeSums(files: seq<SourceFile>)
    ensures TotalSize(files).Success? <==> AllSized(files)
    ensures TotalSize(files).Success? ==> TotalSize(files).value == SumSizes(files)
    decreases |files|
  {
    if |files| > 0 {
      TotalSizeSums(files[1..]);
      assert forall i | 1 <= i < |files| :: files[i] == files[1..][i - 1];
      if AllSized(files) {
        SumSizesFront(files);
      }
    }
  }

  lemma {:induction false} SumSizesFront(files: seq<SourceFile>)
    requires |files| > 0 && AllSized(files)
    ensures AllSized(files[1..]) && SumSizes(files) == files[0].size.value + SumSizes(files[1..])
    decreases |files|
  {
    if |files| > 1 {
      var init := files[..|files| - 1];
      SumSizesFront(init);
      assert init[1..] == files[1..][..|files[1..]| - 1];
    }
  }

  /** `validate_files`: the batch is refused when its total size is strictly
      above the limit, or when some size cannot be read. */
  function ValidateFiles(cfg: Config, files: seq<SourceFile>): (r: Outcome<BatchError>)
    ensures r == Pass <==> AllSized(files) && SumSizes(files) <= cfg.maxTotalSize
    ensures r.Fail? && r.error.TooLarge? <==> AllSized(files) && SumSizes(files) > cfg.maxTotalSize
    ensures r.Fail? && r.error.TooLarge? ==> r.error.limitMb == cfg.maxTotalSize / 1024 / 1024
  {
    TotalSizeSums(files);
    match TotalSize(files)
    case Failure(name) => Fail(StatFailed(name))
    case Success(total) =>
      if total > cfg.maxTotalSize then Fail(TooLarge(cfg.maxTotalSize / 1024 / 1024)) else Pass
  }

  // ---------------------------------------------------------------------------
  // Extension dispatch

  /** The gate of `_process_file`: a case-sensitive `str.endswith`. */
  predicate Supported(name: string) {
    EndsWith(name, ".pdf") || EndsWith(name, ".docx") || EndsWith(name, ".txt") || EndsWith(name, ".md")
  }

  /** The index of the last `c` in `s`, or -1 (`str.rfind`). */
  function LastIndexOf(s: string, c: char): (i: int)
    ensures -1 <= i < |s|
    ensures i >= 0 ==> s[i] == c
    ensures forall j | i < j < |s| :: s[j] != c
  {
    if |s| == 0 then -1
    else if s[|s| - 1] == c then |s| - 1
    else LastIndexOf(s[..|s| - 1], c)
  }

  /** The final path component: `path.split('/')[-1]`, also `PurePath(path).name`
      for a path that does not end in a separator. */
  function BaseName(path: string): string
  {
    path[LastIndexOf(path, '/') + 1..]
  }

  /** The final component is the longest separator-free suffix: it ends the
      path, holds no `/`, and is the whole path or follows a `/`. */
  lemma BaseNameIsLastComponent(path: string)
    ensures var r := BaseName(path);
      && EndsWith(path, r)
      && (forall j | 0 <= j < |r| :: r[j] != '/')
      && (|r| == |path| || path[|path| - |r| - 1] == '/')
  {
  }

  /** `PurePath(path).suffix`: from the last dot of the final component, when
      that dot is neither its first nor its last character. */
  function Suffix(path: string): string
  {
    var base := BaseName(path);
    var i := LastIndexOf(base, '.');
    if 0 < i < |base| - 1 then base[i..] else ""
  }

  datatype Route = Skip | TextFile | PdfFile | DoclingFile

  /** Which handler `_process_file` calls for a file name. */
  function RouteOf(name: string): Route
  {
    if !Supported(name) then Skip
    else
      var ext := Lower(Suffix(name));
      if ext == ".txt" || ext == ".md" then TextFile
      else if ext == ".pdf" then PdfFile
      else DoclingFile
  }

  /** An extension the gate tests: a dot followed by letters. */
  predicate IsExtension(ext: string) {
    |ext| >= 2 && ext[0] == '.' && forall j | 1 <= j < |ext| :: 'a' <= ext[j] <= 'z'
  }

  /** The last separator of a name ending in an extension precedes it. */
  lemma LastSlashBeforeExtension(name: string, ext: string)
    requires IsExtension(ext) && EndsWith(name, ext)
    ensures LastIndexOf(name, '/') < |name| - |ext|
  {
    var d := |name| - |ext|;
    forall j | d <= j < |name| ensures name[j] != '/' {
      assert name[j] == name[d..][j - d];
    }
  }

  /** A tail of a tail is a tail. */
  lemma TailOfTail(s: string, t: nat, n: nat)
    requires t + n <= |s|
    ensures s[t..][|s| - t - n..] == s[|s| - n..]
  {
  }

  /** A name ending in an extension has a final component ending in it. */
  lemma BaseNameKeepsExtension(name: string, ext: string)
    requires IsExtension(ext) && EndsWith(name, ext)
    ensures EndsWith(BaseName(name), ext)
  {
    LastSlashBeforeExtension(name, ext);
    TailOfTail(name, LastIndexOf(name, '/') + 1, |ext|);
  }

  /** In a string ending in an extension, the last dot is the extension's. */
  lemma LastDotOfExtension(base: string, ext: string)
    requires IsExtension(ext) && EndsWith(base, ext)
    ensures LastIndexOf(base, '.') == |base| - |ext|
  {
    var d := |base| - |ext|;
    var i := LastIndexOf(base, '.');
    assert base[d..] == ext;
    assert base[d] == '.' by { assert base[d..][0] == ext[0]; }
    forall j | d < j < |base| ensures base[j] != '.' {
      assert base[j] == base[d..][j - d] == ext[j - d];
    }
  }

  /** For a name ending in a gated extension, the suffix is that extension,
      unless the final component is the bare extension (a dot file). */
  lemma SuffixOfGatedName(name: string, ext: string)
    requires IsExtension(ext) && EndsWith(name, ext)
    ensures Suffix(name) == if BaseName(name) == ext then "" else ext
  {
    var base := BaseName(name);
    BaseNameKeepsExtension(name, ext);
    LastDotOfExtension(base, ext);
    if base == ext {
      assert LastIndexOf(base, '.') == 0;
    } else {
      assert |base| > |ext|;
    }
  }

  lemma LowerOfLowerExtension(ext: string)
    requires IsExtension(ext)
    ensures Lower(ext) == ext
  {
  }

  /** Which handler a gated extension selects. */
  function RouteFor(ext: string): Route {
    if ext == ".txt" || ext == ".md" then TextFile
    else if ext == ".pdf" then PdfFile
    else DoclingFile
  }

  /** A name that passes the gate through `ext` goes to that extension's
      handler, or to docling when its final component is the bare extension
      (the suffix of a dot file is empty). */
  lemma RouteOfGatedName(name: string, ext: string)
    requires ext in [".pdf", ".docx", ".txt", ".md"] && EndsWith(name, ext)
    ensures RouteOf(name) == if BaseName(name) == ext then DoclingFile else RouteFor(ext)
  {
    assert IsExtension(ext);
    SuffixOfGatedName(name, ext);
    LowerOfLowerExtension(ext);
    assert Lower("") == "";
    assert Supported(name);
  }

  /** Dispatch on the file name: the gate is case-sensitive and a name it
      refuses runs nothing; the text extensions go to the direct text path,
      `.pdf` to the fallback chain, `.docx` to docling. */
  lemma DispatchTable(name: string)
    ensures !Supported(name) ==> RouteOf(name) == Skip
    ensures EndsWith(name, ".txt") && BaseName(name) != ".txt" ==> RouteOf(name) == TextFile
    ensures EndsWith(name, ".md") && BaseName(name) != ".md" ==> RouteOf(name) == TextFile
    ensures EndsWith(name, ".pdf") && BaseName(name) != ".pdf" ==> RouteOf(name) == PdfFile
    ensures EndsWith(name, ".docx") ==> RouteOf(name) == DoclingFile
  {
    assert EndsWith(name, ".txt") && BaseName(name) != ".txt" ==> RouteOf(name) == TextFile by {
      if EndsWith(name, ".txt") { RouteOfGatedName(name, ".txt"); }
    }
    assert EndsWith(name, ".md") && BaseName(name) != ".md" ==> RouteOf(name) == TextFile by {
      if EndsWith(name, ".md") { RouteOfGatedName(name, ".md"); }
    }
    assert EndsWith(name, ".pdf") && BaseName(name) != ".pdf" ==> RouteOf(name) == PdfFile by {
      if EndsWith(name, ".pdf") { RouteOfGatedName(name, ".pdf"); }
    }
    assert EndsWith(name, ".docx") ==> RouteOf(name) == DoclingFile by {
      if EndsWith(name, ".docx") {
        RouteOfGatedName(name, ".docx");
        assert RouteFor(".docx") == DoclingFile;
      }
    }
  }

  /** The gate sees upper-case extensions as unsupported. */
  lemma UpperCaseExtensionSkipped()
    ensures RouteOf("report.PDF") == Skip
    ensures RouteOf("notes.Md") == Skip
  {
  }

  // ---------------------------------------------------------------------------
  // Extraction strategies

  /** What one file yields and how many extraction strategies were invoked. */
  datatype Extraction = Extraction(chunks: seq<Chunk>, tried: nat)

  /** `_process_text_file`: header splitting for `.md`, the recursive splitter
      otherwise; a failure to read the text yields no chunks. */
  function ProcessTextFile(x: Collaborators, f: SourceFile, bytes: Bytes): (r: seq<Chunk>)
    ensures x.readText(bytes).None? ==> r == []
    ensures x.readText(bytes).Some? && EndsWith(f.name, ".md") ==> r == x.headerSplit(Headers, x.readText(bytes).value)
    ensures x.readText(bytes).Some? && !EndsWith(f.name, ".md") ==>
      r == x.recursiveSplit(1000, 200, x.readText(bytes).value)
  {
    match x.readText(bytes)
    case None => []
    case Some(text) =>
      if EndsWith(f.name, ".md") then x.headerSplit(Headers, text)
      else x.recursiveSplit(ChunkSize, ChunkOverlap, text)
  }

  /** The 1-based numbers of the pages with non-blank text. */
  function NonBlankPages(pages: seq<string>): (r: seq<nat>)
    ensures forall i, j | 0 <= i < j < |r| :: r[i] < r[j]
    ensures forall i | 0 <= i < |r| :: 1 <= r[i] <= |pages| && !IsBlank(pages[r[i] - 1])
    ensures forall k | 1 <= k <= |pages| && !IsBlank(pages[k - 1]) :: k in r
  {
    if |pages| == 0 then []
    else
      var init := NonBlankPages(pages[..|pages| - 1]);
      assert forall k | 0 <= k < |pages| - 1 :: pages[k] == pages[..|pages| - 1][k];
      if IsBlank(pages[|pages| - 1]) then init else init + [|pages|]
  }

  /** The heading pypdfium extraction puts before the text of page `k`. */
  function PageHeading(k: nat): string {
    "## Page " + NatToString(k) + "\n\n"
  }

  /** One section per non-blank page, in page order, each page's text under
      its own numbered heading. */
  function PageSections(pages: seq<string>): (r: seq<string>)
    ensures |r| == |NonBlankPages(pages)|
    ensures forall i | 0 <= i < |r| ::
      var k := NonBlankPages(pages)[i]; r[i] == PageHeading(k) + pages[k - 1]
  {
    if |pages| == 0 then []
    else
      var init := PageSections(pages[..|pages| - 1]);
      var last := pages[|pages| - 1];
      assert forall k | 0 <= k < |pages| - 1 :: pages[k] == pages[..|pages| - 1][k];
      if IsBlank(last) then init else init + [PageHeading(|pages|) + last]
  }

  /** The Markdown text pypdfium extraction hands to the splitter. */
  function AssemblePages(pages: seq<string>): string {
    Join("\n\n", PageSections(pages))
  }

  /** `_extract_with_pypdfium`: raises when pypdfium raises; otherwise splits
      the assembled text on headers and falls back to the recursive splitter
      exactly when header splitting yields nothing. */
  function ExtractWithPypdfium(x: Collaborators, f: SourceFile): (r: Result<seq<Chunk>, string>)
    ensures r.Success? <==> x.pdfPages(f).Success?
    ensures r.Success? ==>
      var text := AssemblePages(x.pdfPages(f).value);
      var byHeader := x.headerSplit(Headers, text);
      r.value == (if |byHeader| > 0 then byHeader else x.recursiveSplit(ChunkSize, ChunkOverlap, text))
  {
    match x.pdfPages(f)
    case Failure(e) => Failure(e)
    case Success(pages) =>
      var text := AssemblePages(pages);
      var chunks := x.headerSplit(Headers, text);
      if |chunks| == 0 then Success(x.recursiveSplit(ChunkSize, ChunkOverlap, text)) else Success(chunks)
  }

  /** A docling strategy: convert, export Markdown, split on headers. */
  function SplitConverted(x: Collaborators, converted: Result<string, string>): Result<seq<Chunk>, string>
  {
    match converted
    case Failure(e) => Failure(e)
    case Success(markdown) => Success(x.headerSplit(Headers, markdown))
  }

  /** The three PDF strategies in the order `_process_pdf_with_fallback` tries them. */
  function PdfStrategies(x: Collaborators, f: SourceFile): seq<Result<seq<Chunk>, string>>
  {
    [ExtractWithPypdfium(x, f), SplitConverted(x, x.simpleDocling(f)), SplitConverted(x, x.timedDocling(f))]
  }

  /** The position of the first strategy that returns, or `|attempts|`. */
  function FirstReturned(attempts: seq<Result<seq<Chunk>, string>>): (k: nat)
    ensures k <= |attempts|
    ensures forall j | 0 <= j < k :: attempts[j].Failure?
    ensures k < |attempts| ==> attempts[k].Success?
  {
    if |attempts| == 0 then 0
    else if attempts[0].Success? then 0
    else
      assert forall j | 0 <= j < |attempts| - 1 :: attempts[1..][j] == attempts[j + 1];
      1 + FirstReturned(attempts[1..])
  }

  /** Try strategies in order; the first that returns decides the result, even
      an empty one, and the later ones are not run; when every strategy raises,
      no chunks. */
  function FirstSuccess(attempts: seq<Result<seq<Chunk>, string>>): (r: Extraction)
    ensures var k := FirstReturned(attempts);
      r == if k < |attempts| then Extraction(attempts[k].value, k + 1) else Extraction([], |attempts|)
  {
    if |attempts| == 0 then Extraction([], 0)
    else match attempts[0]
      case Success(chunks) => Extraction(chunks, 1)
      case Failure(_) =>
        var rest := FirstSuccess(attempts[1..]);
        Extraction(rest.chunks, rest.tried + 1)
  }

  /** `_process_pdf_with_fallback`. */
  function ProcessPdf(x: Collaborators, f: SourceFile): Extraction
  {
    FirstSuccess(PdfStrategies(x, f))
  }

  /** The PDF chain: pypdfium's result when it returns (even with no chunks),
      else simple docling's, else timed docling's, else nothing. */
  lemma PdfFallbackOrder(x: Collaborators, f: SourceFile)
    ensures var r := ProcessPdf(x, f); var s := PdfStrategies(x, f);
      && (x.pdfPages(f).Success? ==> r == Extraction(s[0].value, 1))
      && (x.pdfPages(f).Failure? && x.simpleDocling(f).Success? ==>
            r == Extraction(x.headerSplit(Headers, x.simpleDocling(f).value), 2))
      && (x.pdfPages(f).Failure? && x.simpleDocling(f).Failure? && x.timedDocling(f).Success? ==>
            r == Extraction(x.headerSplit(Headers, x.timedDocling(f).value), 3))
      && (x.pdfPages(f).Failure? && x.simpleDocling(f).Failure? && x.timedDocling(f).Failure? ==>
            r == Extraction([], 3))
  {
    var s := PdfStrategies(x, f);
    assert s[0] == ExtractWithPypdfium(x, f);
    assert s[1] == SplitConverted(x, x.simpleDocling(f));
    assert s[2] == SplitConverted(x, x.timedDocling(f));
  }

  /** `_process_with_docling`: a conversion failure yields no chunks. */
  function ProcessWithDocling(x: Collaborators, f: SourceFile): (r: seq<Chunk>)
    ensures x.docling(f).Failure? ==> r == []
    ensures x.docling(f).Success? ==> r == x.headerSplit(Headers, x.docling(f).value)
  {
    match x.docling(f)
    case Failure(_) => []
    case Success(markdown) => x.headerSplit(Headers, markdown)
  }

  /** `_process_file`: never raises; an unsupported name runs no strategy. */
  function ProcessFile(x: Collaborators, f: SourceFile, bytes: Bytes): (r: Extraction)
    ensures RouteOf(f.name) == Skip <==> r.tried == 0
    ensures RouteOf(f.name) == Skip ==> r.chunks == []
    ensures r.tried <= 3
    ensures RouteOf(f.name) != PdfFile ==> r.tried <= 1
    ensures RouteOf(f.name) == TextFile ==> r == Extraction(ProcessTextFile(x, f, bytes), 1)
    ensures RouteOf(f.name) == PdfFile ==> r == ProcessPdf(x, f)
    ensures RouteOf(f.name) == DoclingFile ==> r == Extraction(ProcessWithDocling(x, f), 1)
  {
    match RouteOf(f.name)
    case Skip => Extraction([], 0)
    case TextFile => Extraction(ProcessTextFile(x, f, bytes), 1)
    case PdfFile => ProcessPdf(x, f)
    case DoclingFile => Extraction(ProcessWithDocling(x, f), 1)
  }

  /** A name routed to the text path ends in `.md` or `.txt`. */
  lemma TextRouteNames(name: string)
    requires RouteOf(name) == TextFile
    ensures EndsWith(name, ".md") || EndsWith(name, ".txt")
  {
    assert !EndsWith(name, ".pdf") by {
      if EndsWith(name, ".pdf") {
        RouteOfGatedName(name, ".pdf");
      }
    }
    assert !EndsWith(name, ".docx") by {
      if EndsWith(name, ".docx") {
        RouteOfGatedName(name, ".docx");
      }
    }
    assert Supported(name);
  }

  /** A string ends with the last character of each of its suffixes. */
  lemma LastOfSuffix(s: string, suffix: string)
    requires |suffix| > 0 && EndsWith(s, suffix)
    ensures s[|s| - 1] == suffix[|suffix| - 1]
  {
    assert s[|s| - 1] == s[|s| - |suffix|..][|suffix| - 1];
  }

  /** A name routed to the text path ends in exactly one of `.md` and `.txt`;
      the splitter is chosen by that ending of the whole name: the header
      splitter for `.md`, the recursive splitter with its window and overlap
      for `.txt`, and nothing when the bytes do not decode. */
  lemma TextRouteSplitter(x: Collaborators, f: SourceFile, bytes: Bytes)
    requires RouteOf(f.name) == TextFile
    ensures EndsWith(f.name, ".md") != EndsWith(f.name, ".txt")
    ensures var r := ProcessFile(x, f, bytes);
      && (x.readText(bytes).None? ==> r == Extraction([], 1))
      && (x.readText(bytes).Some? && EndsWith(f.name, ".md") ==>
            r == Extraction(x.headerSplit(Headers, x.readText(bytes).value), 1))
      && (x.readText(bytes).Some? && EndsWith(f.name, ".txt") ==>
            r == Extraction(x.recursiveSplit(ChunkSize, ChunkOverlap, x.readText(bytes).value), 1))
  {
    TextRouteNames(f.name);
    if EndsWith(f.name, ".md") {
      LastOfSuffix(f.name, ".md");
      assert !EndsWith(f.name, ".txt") by {
        if EndsWith(f.name, ".txt") {
          LastOfSuffix(f.name, ".txt");
        }
      }
    }
  }

  // ---------------------------------------------------------------------------
  // Cache and the per-file step

  /** `_is_cache_valid`: the entry exists and its file is younger than the
      expiry, measured from the file's modification time. */
  function IsCacheValid(cfg: Config, now: int, cache: Cache, key: Digest): (r: bool)
    ensures r ==> key in cache
    ensures key in cache ==> (r <==> cache[key].mtime > now - cfg.cacheExpireDays * SecondsPerDay)
  {
    key in cache && now - cache[key].mtime < cfg.cacheExpireDays * SecondsPerDay
  }

  /** Entries only age out: one valid now was valid at every earlier time, it
      is no longer valid once the expiry has passed since its modification,
      and an entry written now is valid exactly when the expiry is positive. */
  lemma CacheExpiry(cfg: Config, cache: Cache, key: Digest, earlier: int, now: int, record: Option<CacheRecord>)
    ensures earlier <= now && IsCacheValid(cfg, now, cache, key) ==> IsCacheValid(cfg, earlier, cache, key)
    ensures key in cache ==> !IsCacheValid(cfg, cache[key].mtime + cfg.cacheExpireDays * SecondsPerDay, cache, key)
    ensures IsCacheValid(cfg, now, cache[key := CacheFile(now, record)], key) <==> cfg.cacheExpireDays > 0
  {
  }

  /** Why the step for one file raised. */
  datatype FileError = ReadFailed | CorruptCacheEntry | CacheOpenFailed | CacheDumpFailed

  /** What one iteration of the loop in `process` does with one file: the
      chunks it hands to de-duplication (or the exception that skips it), the
      cache afterwards, and the number of extraction strategies run. */
  datatype FileStep = FileStep(outcome: Result<seq<Chunk>, FileError>, cache: Cache, tried: nat)

  /** `_save_to_cache` after extracting `chunks` under `key`: the step's
      outcome and the cache it leaves. */
  function Store(key: Digest, chunks: seq<Chunk>, w: CacheWrite, now: int, cache: Cache, tried: nat): (r: FileStep)
    ensures r.tried == tried
    ensures r.outcome.Success? <==> w == Written
    ensures r.outcome.Success? ==> r.outcome.value == chunks
    ensures w == OpenFailed ==> r.outcome == Failure(CacheOpenFailed) && r.cache == cache
    ensures w == DumpFailed ==> r.outcome == Failure(CacheDumpFailed) && r.cache == cache[key := CacheFile(now, None)]
    ensures w == Written ==> r.cache == cache[key := CacheFile(now, Some(CacheRecord(now, chunks)))]
  {
    match w
    case OpenFailed => FileStep(Failure(CacheOpenFailed), cache, tried)
    case DumpFailed => FileStep(Failure(CacheDumpFailed), cache[key := CacheFile(now, None)], tried)
    case Written => FileStep(Success(chunks), cache[key := CacheFile(now, Some(CacheRecord(now, chunks)))], tried)
  }

  /** The body of the `try` in `process`, up to de-duplication. */
  function HandleFile(x: Collaborators, cfg: Config, now: int, cache: Cache, f: SourceFile): (r: FileStep)
    ensures r.outcome.Failure? && r.outcome.error != CacheDumpFailed ==> r.cache == cache
    ensures r.outcome == Failure(CacheDumpFailed) ==>
      f.content.Some? && r.cache == cache[x.hash(f.content.value) := CacheFile(now, None)]
    ensures f.content.None? ==> r.outcome == Failure(ReadFailed) && r.tried == 0
    ensures f.content.Some? && IsCacheValid(cfg, now, cache, x.hash(f.content.value)) ==> r.tried == 0
  {
    match f.content
    case None => FileStep(Failure(ReadFailed), cache, 0)
    case Some(bytes) =>
      var key := x.hash(bytes);
      if IsCacheValid(cfg, now, cache, key) then
        match cache[key].record
        case None => FileStep(Failure(CorruptCacheEntry), cache, 0)
        case Some(rec) => FileStep(Success(rec.chunks), cache, 0)
      else
        var e := ProcessFile(x, f, bytes);
        Store(key, e.chunks, x.cacheWrite(key, e.chunks), now, cache, e.tried)
  }

  /** A step touches at most the cache entry of the file's own digest: every
      other entry stays as it was and no other key appears. */
  lemma HandleFileFrame(x: Collaborators, cfg: Config, now: int, cache: Cache, f: SourceFile)
    ensures var r := HandleFile(x, cfg, now, cache, f);
      && (forall k | k in cache && (f.content.None? || k != x.hash(f.content.value)) ::
            k in r.cache && r.cache[k] == cache[k])
      && r.cache.Keys <= cache.Keys + (if f.content.Some? then {x.hash(f.content.value)} else {})
  {
  }

  /** A valid hit returns the stored chunks without running any strategy; a
      valid entry that does not unpickle drops the file instead of being
      re-extracted. */
  lemma CacheHitSkipsExtraction(x: Collaborators, cfg: Config, now: int, cache: Cache, f: SourceFile)
    requires f.content.Some? && IsCacheValid(cfg, now, cache, x.hash(f.content.value))
    ensures var r := HandleFile(x, cfg, now, cache, f); var entry := cache[x.hash(f.content.value)];
      && r.tried == 0 && r.cache == cache
      && (entry.record.Some? ==> r.outcome == Success(entry.record.value.chunks))
      && (entry.record.None? ==> r.outcome == Failure(CorruptCacheEntry))
  {
  }

  /** On a miss (absent or expired entry) the file is extracted and the result
      stored under the digest of its bytes, time-stamped now. When the cache
      file cannot be opened the file is dropped and the cache is as it was;
      when pickling into it fails the file is dropped and a file that does
      not unpickle now sits under the digest. */
  lemma CacheMissExtractsAndStores(x: Collaborators, cfg: Config, now: int, cache: Cache, f: SourceFile)
    requires f.content.Some? && !IsCacheValid(cfg, now, cache, x.hash(f.content.value))
    ensures var r := HandleFile(x, cfg, now, cache, f);
      var key := x.hash(f.content.value);
      var e := ProcessFile(x, f, f.content.value);
      && r.tried == e.tried
      && (x.cacheWrite(key, e.chunks) == Written ==>
            r.outcome == Success(e.chunks) && key in r.cache && r.cache[key].mtime == now
            && r.cache[key].record == Some(CacheRecord(now, e.chunks)))
      && (x.cacheWrite(key, e.chunks) == OpenFailed ==> r.outcome == Failure(CacheOpenFailed) && r.cache == cache)
      && (x.cacheWrite(key, e.chunks) == DumpFailed ==>
            r.outcome == Failure(CacheDumpFailed) && key in r.cache && r.cache[key] == CacheFile(now, None))
  {
  }

  /** The timestamp stored inside a cache file is never read: two cache files
      that differ only in it give the same step. */
  lemma StoredTimestampIgnored(x: Collaborators, cfg: Config, now: int, cache: Cache, f: SourceFile,
                               key: Digest, mtime: int, t1: int, t2: int, chunks: seq<Chunk>)
    ensures
      var s1 := HandleFile(x, cfg, now, cache[key := CacheFile(mtime, Some(CacheRecord(t1, chunks)))], f);
      var s2 := HandleFile(x, cfg, now, cache[key := CacheFile(mtime, Some(CacheRecord(t2, chunks)))], f);
      s1.outcome == s2.outcome && s1.tried == s2.tried
  {
    var c1 := cache[key := CacheFile(mtime, Some(CacheRecord(t1, chunks)))];
    var c2 := cache[key := CacheFile(mtime, Some(CacheRecord(t2, chunks)))];
    if f.content.Some? {
      var k := x.hash(f.content.value);
      assert k in c1 <==> k in c2;
      if k in c1 {
        assert c1[k].mtime == c2[k].mtime;
        assert c1[k].record.None? <==> c2[k].record.None?;
        assert c1[k].record.Some? ==> c1[k].record.value.chunks == c2[k].record.value.chunks;
      }
    }
  }

  /** Files with identical bytes share one cache entry whatever their names:
      once one of them went through, the other is a hit on the same entry
      (given a positive expiry) and runs no strategy. */
  lemma IdenticalBytesShareEntry(x: Collaborators, cfg: Config, now: int, cache: Cache, f: SourceFile, g: SourceFile)
    requires f.content.Some? && g.content == f.content
    requires cfg.cacheExpireDays > 0
    requires HandleFile(x, cfg, now, cache, f).outcome.Success?
    ensures var s1 := HandleFile(x, cfg, now, cache, f);
      var s2 := HandleFile(x, cfg, now, s1.cache, g);
      s2.outcome == s1.outcome && s2.cache == s1.cache && s2.tried == 0
  {
  }

  /** A failed pickle poisons the entry: until it expires, every later file
      with the same bytes finds a valid entry that does not unpickle, and is
      dropped without any extraction being tried. */
  lemma DumpFailurePoisonsEntry(x: Collaborators, cfg: Config, now: int, later: int, cache: Cache,
                                f: SourceFile, g: SourceFile)
    requires f.content.Some? && g.content == f.content
    requires HandleFile(x, cfg, now, cache, f).outcome == Failure(CacheDumpFailed)
    requires later - now < cfg.cacheExpireDays * SecondsPerDay
    ensures var s := HandleFile(x, cfg, now, cache, f);
      HandleFile(x, cfg, later, s.cache, g) == FileStep(Failure(CorruptCacheEntry), s.cache, 0)
  {
  }

  // ---------------------------------------------------------------------------
  // The batch

  /** The chunks a file step contributes: none when it raised. */
  function Contribution(s: FileStep): seq<Chunk> {
    if s.outcome.Success? then s.outcome.value else []
  }

  /** The per-file contributions of a batch, in file order, and the cache
      after the last file. */
  datatype Progress = Progress(contributions: seq<seq<Chunk>>, cache: Cache)

  /** The files of a batch handled one after another, each seeing the cache
      the previous ones left. */
  function Run(x: Collaborators, cfg: Config, now: int, cache: Cache, files: seq<SourceFile>): (r: Progress)
    ensures |r.contributions| == |files|
  {
    if |files| == 0 then Progress([], cache)
    else
      var p := Run(x, cfg, now, cache, files[..|files| - 1]);
      var s := HandleFile(x, cfg, now, p.cache, files[|files| - 1]);
      Progress(p.contributions + [Contribution(s)], s.cache)
  }

  /** The per-file chunk lists concatenated in file order. */
  function Flatten(css: seq<seq<Chunk>>): seq<Chunk> {
    Seqs.FlatMap((cs: seq<Chunk>) => cs, css)
  }

  /** The de-duplication key of a chunk: the digest of its encoded text only. */
  function ContentKey(x: Collaborators): Chunk -> Digest {
    (c: Chunk) => x.hash(x.encode(c.pageContent))
  }

  datatype Batch = Batch(chunks: seq<Chunk>, cache: Cache)

  /** The inner loop of `process`: append each chunk whose text digest is not
      in `seen`, adding the digest. */
  method AppendUnseen(x: Collaborators, ghost prefix: seq<Chunk>, out: seq<Chunk>, seen: set<Digest>,
                      chunks: seq<Chunk>)
    returns (out': seq<Chunk>, seen': set<Digest>)
    requires out == Dedup.KeepFirst(ContentKey(x), prefix)
    requires seen == Dedup.Keys(ContentKey(x), out)
    ensures out' == Dedup.KeepFirst(ContentKey(x), prefix + chunks)
    ensures seen' == Dedup.Keys(ContentKey(x), out')
  {
    var key := ContentKey(x);
    out', seen' := out, seen;
    var j := 0;
    assert prefix + chunks[..0] == prefix;
    while j < |chunks|
      invariant 0 <= j <= |chunks|
      invariant out' == Dedup.KeepFirst(key, prefix + chunks[..j])
      invariant seen' == Dedup.Keys(key, out')
    {
      var h := x.hash(x.encode(chunks[j].pageContent));
      ghost var before := prefix + chunks[..j];
      assert prefix + chunks[..j + 1] == before + [chunks[j]];
      Dedup.KeepFirstKeys(key, before);
      if h !in seen' {
        Dedup.KeysAppend(key, out', [chunks[j]]);
        out' := out' + [chunks[j]];
        seen' := seen' + {h};
      }
      j := j + 1;
    }
    assert chunks[..|chunks|] == chunks;
  }

  lemma RunSnoc(x: Collaborators, cfg: Config, now: int, cache: Cache, files: seq<SourceFile>, i: nat)
    requires i < |files|
    ensures var p := Run(x, cfg, now, cache, files[..i]);
      var s := HandleFile(x, cfg, now, p.cache, files[i]);
      Run(x, cfg, now, cache, files[..i + 1]) == Progress(p.contributions + [Contribution(s)], s.cache)
  {
    assert files[..i + 1][..i] == files[..i];
  }

  lemma FlattenSnoc(css: seq<seq<Chunk>>, cs: seq<Chunk>)
    ensures Flatten(css + [cs]) == Flatten(css) + cs
  {
    FlattenAppend(css, [cs]);
    Seqs.FlatMapSingle((cs: seq<Chunk>) => cs, cs);
  }

  /** `process`: validate the whole batch first, then for each file take its
      chunks from the cache or extract them, and append each chunk whose text
      digest has not been seen in this call. The result is the keep-first
      de-duplication of the per-file chunk lists concatenated in file order. */
  method Process(x: Collaborators, cfg: Config, now: int, cache: Cache, files: seq<SourceFile>)
    returns (r: Result<Batch, BatchError>)
    ensures ValidateFiles(cfg, files).Fail? ==> r == Failure(ValidateFiles(cfg, files).error)
    ensures ValidateFiles(cfg, files).Pass? ==>
      var p := Run(x, cfg, now, cache, files);
      && r.Success?
      && r.value.chunks == Dedup.KeepFirst(ContentKey(x), Flatten(p.contributions))
      && r.value.cache == p.cache
      && Dedup.NoDupKeys(ContentKey(x), r.value.chunks)
  {
    var v := ValidateFiles(cfg, files);
    if v.Fail? {
      return Failure(v.error);
    }
    var allChunks: seq<Chunk> := [];
    var seen: set<Digest> := {};
    var c := cache;
    ghost var done: seq<seq<Chunk>> := [];
    var i := 0;
    while i < |files|
      invariant 0 <= i <= |files|
      invariant Run(x, cfg, now, cache, files[..i]) == Progress(done, c)
      invariant allChunks == Dedup.KeepFirst(ContentKey(x), Flatten(done))
      invariant seen == Dedup.Keys(ContentKey(x), allChunks)
    {
      var step := HandleFile(x, cfg, now, c, files[i]);
      var chunks := Contribution(step);
      allChunks, seen := AppendUnseen(x, Flatten(done), allChunks, seen, chunks);
      RunSnoc(x, cfg, now, cache, files, i);
      FlattenSnoc(done, chunks);
      c := step.cache;
      done := done + [chunks];
      i := i + 1;
    }
    assert files[..|files|] == files;
    Dedup.KeepFirstUnique(ContentKey(x), Flatten(done));
    r := Success(Batch(allChunks, c));
  }

  // ---------------------------------------------------------------------------
  // Properties of a batch

  lemma FlattenAppend(a: seq<seq<Chunk>>, b: seq<seq<Chunk>>)
    ensures Flatten(a + b) == Flatten(a) + Flatten(b)
  {
    Seqs.FlatMapAppend((cs: seq<Chunk>) => cs, a, b);
  }

  /** Handling `A + B` is handling `A`, then `B` from the cache `A` left. */
  lemma {:induction false} RunAppend(x: Collaborators, cfg: Config, now: int, cache: Cache,
                                     a: seq<SourceFile>, b: seq<SourceFile>)
    ensures var pa := Run(x, cfg, now, cache, a);
      var pb := Run(x, cfg, now, pa.cache, b);
      Run(x, cfg, now, cache, a + b) == Progress(pa.contributions + pb.contributions, pb.cache)
    decreases |b|
  {
    if |b| == 0 {
      assert a + b == a;
    } else {
      var init := b[..|b| - 1];
      RunAppend(x, cfg, now, cache, a, init);
      assert (a + b)[..|a + b| - 1] == a + init;
      assert (a + b)[|a + b| - 1] == b[|b| - 1];
    }
  }

  lemma RunSingle(x: Collaborators, cfg: Config, now: int, cache: Cache, f: SourceFile)
    ensures var s := HandleFile(x, cfg, now, cache, f);
      Run(x, cfg, now, cache, [f]) == Progress([Contribution(s)], s.cache)
  {
    assert [f][..0] == [];
  }

  /** An empty contribution between two others changes nothing once flattened. */
  lemma FlattenSkipsEmpty(a: seq<seq<Chunk>>, b: seq<seq<Chunk>>)
    ensures (a + ([[]] + b))[|a|] == []
    ensures Flatten(a + ([[]] + b)) == Flatten(a + b)
  {
    var none: seq<seq<Chunk>> := [[]];
    var mid := none + b;
    assert Flatten(none) == [] by { assert none[..0] == []; }
    FlattenAppend(none, b);
    assert Flatten(mid) == Flatten(b);
    FlattenAppend(a, mid);
    FlattenAppend(a, b);
    assert (a + mid)[|a|] == mid[0] == [];
  }

  /** A failed step in the middle of a batch that leaves the cache alone
      contributes nothing and hands the unchanged cache to the rest. */
  lemma {:induction false} RunAroundFailure(x: Collaborators, cfg: Config, now: int, cache: Cache,
                                            before: seq<SourceFile>, f: SourceFile, after: seq<SourceFile>)
    requires var s := HandleFile(x, cfg, now, Run(x, cfg, now, cache, before).cache, f);
      s.outcome.Failure? && s.outcome.error != CacheDumpFailed
    ensures var pb := Run(x, cfg, now, cache, before);
      var pa := Run(x, cfg, now, pb.cache, after);
      Run(x, cfg, now, cache, before + ([f] + after)) == Progress(pb.contributions + ([[]] + pa.contributions), pa.cache)
  {
    var pb := Run(x, cfg, now, cache, before);
    RunSingle(x, cfg, now, pb.cache, f);
    RunAppend(x, cfg, now, pb.cache, [f], after);
    RunAppend(x, cfg, now, cache, before, [f] + after);
  }

  /** The `i`-th contribution of a batch is what the `i`-th file's step
      yields from the cache the files before it left. */
  lemma ContributionAt(x: Collaborators, cfg: Config, now: int, cache: Cache, files: seq<SourceFile>, i: nat)
    requires i < |files|
    ensures Run(x, cfg, now, cache, files).contributions[i]
         == Contribution(HandleFile(x, cfg, now, Run(x, cfg, now, cache, files[..i]).cache, files[i]))
  {
    assert files == files[..i + 1] + files[i + 1..];
    RunSnoc(x, cfg, now, cache, files, i);
    RunAppend(x, cfg, now, cache, files[..i + 1], files[i + 1..]);
  }

  /** Dropping a file whose step raised without touching the cache changes
      neither the batch's chunks nor its final cache. */
  lemma SkipFailed(x: Collaborators, cfg: Config, now: int, cache: Cache,
                   before: seq<SourceFile>, f: SourceFile, after: seq<SourceFile>)
    requires var s := HandleFile(x, cfg, now, Run(x, cfg, now, cache, before).cache, f);
      s.outcome.Failure? && s.outcome.error != CacheDumpFailed
    ensures var with := Run(x, cfg, now, cache, before + ([f] + after));
      var without := Run(x, cfg, now, cache, before + after);
      Flatten(with.contributions) == Flatten(without.contributions) && with.cache == without.cache
  {
    RunAroundFailure(x, cfg, now, cache, before, f, after);
    RunAppend(x, cfg, now, cache, before, after);
    var pb := Run(x, cfg, now, cache, before);
    var pa := Run(x, cfg, now, pb.cache, after);
    FlattenSkipsEmpty(pb.contributions, pa.contributions);
  }

  /** A file whose step raises contributes no chunks to the batch. */
  lemma FailedFileContributesNothing(x: Collaborators, cfg: Config, now: int, cache: Cache,
                                     files: seq<SourceFile>, i: nat)
    requires i < |files|
    requires HandleFile(x, cfg, now, Run(x, cfg, now, cache, files[..i]).cache, files[i]).outcome.Failure?
    ensures Run(x, cfg, now, cache, files).contributions[i] == []
  {
    ContributionAt(x, cfg, now, cache, files, i);
  }

  /** Failure isolation. When a file's step raised before writing anything
      (unreadable bytes, a corrupt valid entry, a cache file that cannot be
      opened), the cache is as it was, so the batch's chunks and final cache
      are those of the same batch without that file: the files before and
      after it are handled as if it had never been there. A failed pickle is
      the exception; it leaves a corrupt entry (see `DumpFailurePoisonsEntry`). */
  lemma FailedFileIsInvisible(x: Collaborators, cfg: Config, now: int, cache: Cache,
                              files: seq<SourceFile>, i: nat)
    requires i < |files|
    requires HandleFile(x, cfg, now, Run(x, cfg, now, cache, files[..i]).cache, files[i]).outcome.Failure?
    ensures HandleFile(x, cfg, now, Run(x, cfg, now, cache, files[..i]).cache, files[i]).outcome.error != CacheDumpFailed ==>
      && Flatten(Run(x, cfg, now, cache, files).contributions)
         == Flatten(Run(x, cfg, now, cache, files[..i] + files[i + 1..]).contributions)
      && Run(x, cfg, now, cache, files).cache == Run(x, cfg, now, cache, files[..i] + files[i + 1..]).cache
  {
    var before, after := files[..i], files[i + 1..];
    var pb := Run(x, cfg, now, cache, before);
    var s := HandleFile(x, cfg, now, pb.cache, files[i]);
    if s.outcome.error != CacheDumpFailed {
      assert files == before + ([files[i]] + after);
      SkipFailed(x, cfg, now, cache, before, files[i], after);
    }
  }

  /** Two files with the same bytes, the first of which goes through: the
      second contributes the same chunks and leaves the cache alone. */
  lemma RunIdenticalPair(x: Collaborators, cfg: Config, now: int, cache: Cache, f: SourceFile, g: SourceFile)
    requires f.content.Some? && g.content == f.content
    requires cfg.cacheExpireDays > 0
    requires HandleFile(x, cfg, now, cache, f).outcome.Success?
    ensures var s := HandleFile(x, cfg, now, cache, f);
      Run(x, cfg, now, cache, [f, g]) == Progress([s.outcome.value, s.outcome.value], s.cache)
  {
    var s := HandleFile(x, cfg, now, cache, f);
    IdenticalBytesShareEntry(x, cfg, now, cache, f, g);
    RunSingle(x, cfg, now, cache, f);
    RunSingle(x, cfg, now, s.cache, g);
    RunAppend(x, cfg, now, cache, [f], [g]);
    assert [f] + [g] == [f, g];
  }

  /** Two files with the same bytes whose first pickle fails: both are
      dropped, the second as a corrupt entry with no extraction tried, and
      the corrupt entry stays for later batches. */
  lemma RunPoisonedPair(x: Collaborators, cfg: Config, now: int, cache: Cache, f: SourceFile, g: SourceFile)
    requires f.content.Some? && g.content == f.content
    requires cfg.cacheExpireDays > 0
    requires HandleFile(x, cfg, now, cache, f).outcome == Failure(CacheDumpFailed)
    ensures var s := HandleFile(x, cfg, now, cache, f);
      && Run(x, cfg, now, cache, [f, g]) == Progress([[], []], s.cache)
      && x.hash(f.content.value) in s.cache && s.cache[x.hash(f.content.value)] == CacheFile(now, None)
  {
    var s := HandleFile(x, cfg, now, cache, f);
    DumpFailurePoisonsEntry(x, cfg, now, now, cache, f, g);
    RunSingle(x, cfg, now, cache, f);
    RunSingle(x, cfg, now, s.cache, g);
    RunAppend(x, cfg, now, cache, [f], [g]);
    assert [f] + [g] == [f, g];
  }

  lemma DedupOfDoubled(x: Collaborators, cs: seq<Chunk>)
    ensures Dedup.KeepFirst(ContentKey(x), Flatten([cs, cs])) == Dedup.KeepFirst(ContentKey(x), cs)
  {
    var one: seq<seq<Chunk>> := [cs];
    var empty: seq<seq<Chunk>> := [];
    FlattenSnoc(empty, cs);
    assert empty + [cs] == one;
    assert Flatten(one) == cs;
    FlattenSnoc(one, cs);
    assert one + [cs] == [cs, cs];
    assert Flatten([cs, cs]) == cs + cs;
    Dedup.KeepFirstTwice(ContentKey(x), cs);
  }

  /** Uploading two files with the same bytes (names aside) yields what
      uploading the first alone yields: the second is a cache hit on the same
      entry and all its chunks are duplicates. */
  lemma DuplicateUploadCollapses(x: Collaborators, cfg: Config, now: int, cache: Cache, f: SourceFile, g: SourceFile)
    requires f.content.Some? && g.content == f.content
    requires cfg.cacheExpireDays > 0
    requires HandleFile(x, cfg, now, cache, f).outcome.Success?
    ensures var s := HandleFile(x, cfg, now, cache, f);
      var p := Run(x, cfg, now, cache, [f, g]);
      && p.contributions == [s.outcome.value, s.outcome.value]
      && p.cache == s.cache
      && Dedup.KeepFirst(ContentKey(x), Flatten(p.contributions)) == Dedup.KeepFirst(ContentKey(x), s.outcome.value)
  {
    RunIdenticalPair(x, cfg, now, cache, f, g);
    DedupOfDoubled(x, HandleFile(x, cfg, now, cache, f).outcome.value);
  }

  /** De-duplication looks at the text only: a chunk whose text already
      occurred is dropped whatever its metadata. */
  lemma MetadataIgnored(x: Collaborators, xs: seq<Chunk>, i: nat, b: Chunk)
    requires i < |xs| && xs[i].pageContent == b.pageContent
    ensures Dedup.KeepFirst(ContentKey(x), xs + [b]) == Dedup.KeepFirst(ContentKey(x), xs)
  {
    var key := ContentKey(x);
    assert key(xs[i]) == key(b);
    assert key(b) in Dedup.Keys(key, xs);
    assert (xs + [b])[..|xs|] == xs;
  }

  /** With a collision-free digest of the encoded text, no two chunks of a
      processed batch have the same text. */
  lemma DistinctTexts(x: Collaborators, xs: seq<Chunk>)
    requires forall s: string, t: string :: x.hash(x.encode(s)) == x.hash(x.encode(t)) ==> s == t
    ensures var r := Dedup.KeepFirst(ContentKey(x), xs);
      forall i, j | 0 <= i < j < |r| :: r[i].pageContent != r[j].pageContent
  {
    Dedup.KeepFirstUnique(ContentKey(x), xs);
  }
}
