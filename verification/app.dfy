/** The session rules buried in the callbacks of `app.py`: the example
    picker (`update_example_info`, `load_example`), the checks and the
    re-indexing decision of `process_question`, its answer preview and
    history window, and `_get_file_hashes`. The interface itself is not
    modelled. */
module App {
  import opened Wrappers
  import opened Text
  import Dedup
  import Seqs
  import FileHandler
  import RetrieverBuilder

  // ---------------------------------------------------------------------
  // Examples

  /** One entry of `EXAMPLES`; `description` may be absent. */
  datatype Example = Example(question: string, description: Option<string>, filePaths: seq<string>, tags: seq<string>)

  /** `EXAMPLES` as shipped. */
  const Examples: map<string, Example> := map[
    "Google 2024 Environmental Report" := Example(
      "Retrieve the data center PUE efficiency values in Singapore 2nd facility in 2019 and 2022. Also retrieve regional average CFE in Asia pacific in 2023",
      Some("Environmental sustainability metrics and energy efficiency data from Google's 2024 report"),
      ["examples/google-2024-environmental-report.pdf"],
      ["Environmental", "Data Centers", "Energy Efficiency"]),
    "DeepSeek-R1 Technical Report" := Example(
      "Summarize DeepSeek-R1 model's performance evaluation on all coding tasks against OpenAI o1-mini model",
      Some("Technical analysis of AI model performance on coding benchmarks and comparisons"),
      ["examples/DeepSeek Technical Report.pdf"],
      ["AI", "Machine Learning", "Coding", "Benchmarks"])
  ]

  /** `not key or key not in examples`. */
  predicate Unknown(examples: map<string, Example>, key: string) {
    key == "" || key !in examples
  }

  const NoSelectionInfo := "\U{1F4A1} " + "**Select an example above to see its description and tags**"

  function Description(e: Example): string {
    match e.description
    case Some(d) => d
    case None => "No description available"
  }

  function DescriptionLine(description: string): string {
    "**\U{1F4CB} Description:** " + description + "\n\n"
  }

  function TagSpan(tag: string): string {
    "<span class='tag'>" + tag + "</span>"
  }

  function TagSpans(tags: seq<string>): (r: seq<string>)
    ensures |r| == |tags|
    ensures forall i | 0 <= i < |tags| :: r[i] == TagSpan(tags[i])
  {
    seq(|tags|, i requires 0 <= i < |tags| => TagSpan(tags[i]))
  }

  function TagsLine(tags: seq<string>): string {
    "**\U{1F3F7}\U{FE0F} Tags:** " + Join(" ", TagSpans(tags))
  }

  /** `update_example_info`: the default prompt for no or an unknown
      selection; otherwise the description line, followed by the tags line
      only when there are tags. */
  function UpdateExampleInfo(examples: map<string, Example>, key: string): (r: string)
    ensures Unknown(examples, key) ==> r == NoSelectionInfo
    ensures !Unknown(examples, key) ==>
      && DescriptionLine(Description(examples[key])) <= r
      && (r == DescriptionLine(Description(examples[key])) <==> |examples[key].tags| == 0)
  {
    if Unknown(examples, key) then NoSelectionInfo
    else
      var e := examples[key];
      var info := DescriptionLine(Description(e));
      if |e.tags| > 0 then info + TagsLine(e.tags) else info
  }

  /** The default prompt is shown exactly when the selection is empty or unknown. */
  lemma DefaultInfoIffUnknown(examples: map<string, Example>, key: string)
    ensures UpdateExampleInfo(examples, key) == NoSelectionInfo <==> Unknown(examples, key)
  {
    if !Unknown(examples, key) {
      var r := UpdateExampleInfo(examples, key);
      var line := DescriptionLine(Description(examples[key]));
      assert line <= r && line[0] == '*';
      assert NoSelectionInfo[0] == '\U{1F4A1}';
    }
  }

  /** Every tag of a known example is shown in its own span. */
  lemma InfoShowsEveryTag(examples: map<string, Example>, key: string, i: nat)
    requires !Unknown(examples, key)
    requires i < |examples[key].tags|
    ensures Contains(UpdateExampleInfo(examples, key), TagSpan(examples[key].tags[i]))
  {
    var tags := examples[key].tags;
    var spans := TagSpans(tags);
    JoinKeepsParts(" ", spans, i);
    var head := "**\U{1F3F7}\U{FE0F} Tags:** ";
    ContainsPrepend(head, Join(" ", spans), spans[i]);
    ContainsPrepend(DescriptionLine(Description(examples[key])), TagsLine(tags), spans[i]);
  }

  // ---------------------------------------------------------------------
  // load_example

  const NoExampleStatus := "\U{26A0}\U{FE0F} **No example selected**"
  const NoFilesStatus := "\U{274C} **Error:** No files could be loaded"

  function MissingStatus(missing: seq<string>): string {
    "\U{26A0}\U{FE0F} **Warning:** " + NatToString(|missing|) + " files not found: " + Join(", ", missing)
  }

  function LoadedStatus(loaded: seq<string>): string {
    "\U{2705} **Loaded:** " + NatToString(|loaded|) + " files successfully loaded"
  }

  /** `load_example`: an empty or unknown selection loads nothing; otherwise
      every path of the example goes, in order, to the loaded or the missing
      list according to whether it exists, and the status reports missing
      files first, then loaded ones, and an error only for an example
      without files. */
  method LoadExample(examples: map<string, Example>, onDisk: string -> bool, key: string)
    returns (loaded: seq<string>, question: string, status: string)
    ensures Unknown(examples, key) ==> loaded == [] && question == "" && status == NoExampleStatus
    ensures !Unknown(examples, key) ==>
      var paths := examples[key].filePaths;
      var missing := Seqs.Keep(onDisk, paths, false);
      && question == examples[key].question
      && loaded == Seqs.Keep(onDisk, paths, true)
      && multiset(loaded) + multiset(missing) == multiset(paths)
      && (|missing| > 0 ==> status == MissingStatus(missing))
      && (|missing| == 0 && |loaded| > 0 ==> status == LoadedStatus(loaded))
      && (status == NoFilesStatus <==> |paths| == 0)
  {
    if Unknown(examples, key) {
      return [], "", NoExampleStatus;
    }
    var paths := examples[key].filePaths;
    question := examples[key].question;
    loaded := [];
    var missing := [];
    for i := 0 to |paths|
      invariant loaded == Seqs.Keep(onDisk, paths[..i], true)
      invariant missing == Seqs.Keep(onDisk, paths[..i], false)
    {
      assert paths[..i + 1][..i] == paths[..i];
      if onDisk(paths[i]) {
        loaded := loaded + [paths[i]];
      } else {
        missing := missing + [paths[i]];
      }
    }
    assert paths[..|paths|] == paths;
    Seqs.KeepSplits(onDisk, paths);
    if |missing| > 0 {
      status := MissingStatus(missing);
      assert status[0] != NoFilesStatus[0];
    } else if |loaded| > 0 {
      status := LoadedStatus(loaded);
      assert status[0] != NoFilesStatus[0];
    } else {
      status := NoFilesStatus;
      assert |multiset(paths)| == 0;
    }
  }

  // ---------------------------------------------------------------------
  // process_question

  const EmptyQuestion := "\U{274C} Question cannot be empty"
  const NoUploads := "\U{274C} No documents uploaded"

  /** The two input checks, question first. */
  function ValidateQuestion<F>(question: string, uploads: seq<F>): (r: Outcome<string>)
    ensures r == Pass <==> !IsBlank(question) && |uploads| > 0
    ensures IsBlank(question) ==> r == Fail(EmptyQuestion)
    ensures !IsBlank(question) && |uploads| == 0 ==> r == Fail(NoUploads)
  {
    if IsBlank(question) then Fail(EmptyQuestion)
    else if |uploads| == 0 then Fail(NoUploads)
    else Pass
  }

  /** One line of the session history. */
  datatype HistoryEntry = HistoryEntry(timestamp: string, question: string, files: seq<string>, answerPreview: string)

  /** The per-user session state: the digests of the indexed uploads, the
      retriever built from them, the history and the indexed file names. */
  datatype Session = Session(
    fileHashes: set<string>,
    retriever: Option<RetrieverBuilder.Ensemble>,
    history: seq<HistoryEntry>,
    currentFiles: seq<string>)

  const FreshSession := Session({}, None, [], [])

  /** Documents are re-indexed when there is no retriever yet or the set of
      upload digests changed. */
  function NeedsReprocess(s: Session, current: set<string>): (r: bool)
    ensures !r <==> s.retriever.Some? && s.fileHashes == current
    ensures s == FreshSession ==> r
  {
    s.retriever.None? || current != s.fileHashes
  }

  datatype RefreshError =
    | ProcessingFailed(message: string)
    | NoText
    | BuildFailed(error: RetrieverBuilder.BuildError)

  /** The re-indexing step of `process_question`. `extracted` is what the
      document processor returns for the uploads (or the message it raises);
      it is consulted only when re-indexing is needed. The session changes
      only after non-empty chunks and a successful build; on any failure the
      caller keeps the old session. */
  function RefreshIndex(
    s: Session, current: set<string>, names: seq<string>,
    extracted: Result<seq<FileHandler.Chunk>, string>,
    backends: RetrieverBuilder.Backends, settings: RetrieverBuilder.Settings): (r: Result<Session, RefreshError>)
    ensures !NeedsReprocess(s, current) ==> r == Success(s)
    ensures NeedsReprocess(s, current) && extracted.Failure? ==> r == Failure(ProcessingFailed(extracted.error))
    ensures NeedsReprocess(s, current) && extracted.Success? && |extracted.value| == 0 ==> r == Failure(NoText)
    ensures NeedsReprocess(s, current) && extracted.Success? && |extracted.value| > 0 ==>
      var built := RetrieverBuilder.BuildHybridRetriever(backends, settings, extracted.value);
      && (built.Failure? ==> r == Failure(BuildFailed(built.error)))
      && (built.Success? ==> r.Success?)
    ensures r.Success? && NeedsReprocess(s, current) ==>
      && extracted.Success? && |extracted.value| > 0
      && RetrieverBuilder.BuildHybridRetriever(backends, settings, extracted.value).Success?
      && r.value == s.(fileHashes := current,
                       retriever := Some(RetrieverBuilder.BuildHybridRetriever(backends, settings, extracted.value).value),
                       currentFiles := names)
    ensures r.Success? ==> r.value.history == s.history
  {
    if !NeedsReprocess(s, current) then Success(s)
    else match extracted
      case Failure(e) => Failure(ProcessingFailed(e))
      case Success(chunks) =>
        if |chunks| == 0 then Failure(NoText)
        else match RetrieverBuilder.BuildHybridRetriever(backends, settings, chunks)
          case Failure(e) => Failure(BuildFailed(e))
          case Success(retriever) =>
            Success(s.(fileHashes := current, retriever := Some(retriever), currentFiles := names))
  }

  /** After a successful refresh the same uploads do not trigger another one. */
  lemma RefreshSettles(
    s: Session, current: set<string>, names: seq<string>,
    extracted: Result<seq<FileHandler.Chunk>, string>,
    backends: RetrieverBuilder.Backends, settings: RetrieverBuilder.Settings)
    requires RefreshIndex(s, current, names, extracted, backends, settings).Success?
    ensures !NeedsReprocess(RefreshIndex(s, current, names, extracted, backends, settings).value, current)
  {
  }

  /** `answer[:200] + "..." if len(answer) > 200 else answer`. */
  function AnswerPreview(answer: string): (r: string)
    ensures |r| <= 203
    ensures Take(answer, 200) <= r
    ensures |answer| <= 200 ==> r == answer
    ensures |answer| > 200 ==> |r| == 203 && r[200..] == "..." && r[..200] == answer[..200]
  {
    if |answer| > 200 then answer[..200] + "..." else answer
  }

  /** A preview is its own preview. */
  lemma PreviewIdempotent(answer: string)
    ensures AnswerPreview(AnswerPreview(answer)) == AnswerPreview(answer)
  {
    if |answer| > 200 {
      var r := AnswerPreview(answer);
      assert r[..200] == answer[..200];
    }
  }

  const HistoryPlaceholder := "Your session " + "history will be displayed here..."

  function EntryText(e: HistoryEntry): string {
    "**" + e.timestamp + "**\n"
    + "**Q:** " + e.question + "\n"
    + "**Files:** " + Join(", ", e.files) + "\n"
    + "**Answer:** " + e.answerPreview
  }

  /** `history[-5:]`. */
  function LastFive<T>(h: seq<T>): (r: seq<T>)
    ensures |r| == if |h| < 5 then |h| else 5
    ensures r == h[|h| - |r|..]
  {
    if |h| <= 5 then h else h[|h| - 5..]
  }

  /** Appending an entry slides the window by one once it is full. */
  lemma WindowSlides<T>(h: seq<T>, e: T)
    ensures LastFive(h + [e]) == (if |h| < 5 then h else LastFive(h)[1..]) + [e]
  {
    var g := h + [e];
    if |h| >= 5 {
      assert g[|g| - 5..] == h[|h| - 4..] + [e];
    }
  }

  function EntryTexts(h: seq<HistoryEntry>): (r: seq<string>)
    ensures |r| == |h|
    ensures forall i | 0 <= i < |h| :: r[i] == EntryText(h[i])
  {
    seq(|h|, i requires 0 <= i < |h| => EntryText(h[i]))
  }

  /** The history pane: the last five entries, blank-line separated, or the
      placeholder when there is nothing to show. */
  function HistoryDisplay(h: seq<HistoryEntry>): (r: string)
    ensures r == HistoryPlaceholder <==> |h| == 0
    ensures forall i | 0 <= i < |LastFive(h)| :: Contains(r, EntryText(LastFive(h)[i]))
    ensures |h| > 0 ==> r == Join("\n\n", EntryTexts(h[|h| - |LastFive(h)|..]))
  {
    var shown := LastFive(h);
    EntriesJoined(shown);
    var text := Join("\n\n", EntryTexts(shown));
    if text == "" then HistoryPlaceholder else text
  }

  /** The joined entries are empty only when there is no entry, never look
      like the placeholder, and hold every entry's text. */
  lemma EntriesJoined(h: seq<HistoryEntry>)
    ensures var text := Join("\n\n", EntryTexts(h));
      && (text == "" <==> |h| == 0)
      && text != HistoryPlaceholder
      && forall i | 0 <= i < |h| :: Contains(text, EntryText(h[i]))
  {
    var texts := EntryTexts(h);
    JoinKeepsAll("\n\n", texts);
    if |texts| > 0 {
      JoinOpensWithFirst("\n\n", texts);
      assert texts[0][0] == '*' && HistoryPlaceholder[0] == 'Y';
    }
  }

  /** Only the newest five entries reach the pane: history older than them
      never changes it. */
  lemma OlderHistoryHidden(older: seq<HistoryEntry>, h: seq<HistoryEntry>)
    requires |h| >= 5
    ensures HistoryDisplay(older + h) == HistoryDisplay(h)
  {
    var g := older + h;
    assert g[|g| - 5..] == h[|h| - 5..];
  }

  /** Once an answer is recorded the pane shows it, never the placeholder. */
  lemma NewestEntryShown(h: seq<HistoryEntry>, e: HistoryEntry)
    ensures var d := HistoryDisplay(h + [e]);
      d != HistoryPlaceholder && Contains(d, EntryText(e))
  {
    var shown := LastFive(h + [e]);
    var texts := EntryTexts(shown);
    WindowSlides(h, e);
    assert shown[|shown| - 1] == e;
    JoinOpensWithFirst("\n\n", texts);
    JoinKeepsParts("\n\n", texts, |texts| - 1);
    var text := Join("\n\n", texts);
    assert texts[0][0] == '*';
    assert text[0] == '*' && HistoryPlaceholder[0] == 'Y';
  }

  // ---------------------------------------------------------------------
  // _get_file_hashes

  /** `_get_file_hashes`: the set of the uploads' content digests. Opening
      an upload can raise; the loop then stops at the first unreadable one,
      whose position is the error. */
  method FileHashes<F>(readable: F -> bool, digest: F -> string, files: seq<F>)
    returns (r: Result<set<string>, nat>)
    ensures r.Success? <==> forall i | 0 <= i < |files| :: readable(files[i])
    ensures r.Success? ==> r.value == Dedup.Keys(digest, files)
    ensures r.Failure? ==>
      (r.error < |files| && !readable(files[r.error])
       && forall j | 0 <= j < r.error :: readable(files[j]))
  {
    var hashes := {};
    for i := 0 to |files|
      invariant hashes == Dedup.Keys(digest, files[..i])
      invariant forall j | 0 <= j < i :: readable(files[j])
    {
      if !readable(files[i]) {
        return Failure(i);
      }
      Dedup.KeysAppend(digest, files[..i], [files[i]]);
      assert files[..i + 1] == files[..i] + [files[i]];
      hashes := hashes + {digest(files[i])};
    }
    assert files[..|files|] == files;
    r := Success(hashes);
  }

  /** The digest set does not depend on the upload order. */
  lemma HashesIgnoreOrder<F>(digest: F -> string, a: seq<F>, b: seq<F>)
    requires multiset(a) == multiset(b)
    ensures Dedup.Keys(digest, a) == Dedup.Keys(digest, b)
  {
    forall k | k in Dedup.Keys(digest, a) ensures k in Dedup.Keys(digest, b) {
      var i :| 0 <= i < |a| && digest(a[i]) == k;
      assert a[i] in multiset(b);
      var j :| 0 <= j < |b| && b[j] == a[i];
    }
    forall k | k in Dedup.Keys(digest, b) ensures k in Dedup.Keys(digest, a) {
      var j :| 0 <= j < |b| && digest(b[j]) == k;
      assert b[j] in multiset(a);
      var i :| 0 <= i < |a| && a[i] == b[j];
    }
  }

  /** Uploading a file twice adds no digest. */
  lemma HashesIgnoreDuplicates<F>(digest: F -> string, files: seq<F>)
    ensures Dedup.Keys(digest, files + files) == Dedup.Keys(digest, files)
  {
    Dedup.KeysAppend(digest, files, files);
  }

  /** Re-uploading the indexed files in another order reuses the retriever. */
  lemma ReorderedUploadReused<F>(
    s: Session, digest: F -> string, a: seq<F>, b: seq<F>, names: seq<string>,
    extracted: Result<seq<FileHandler.Chunk>, string>,
    backends: RetrieverBuilder.Backends, settings: RetrieverBuilder.Settings)
    requires multiset(a) == multiset(b)
    requires RefreshIndex(s, Dedup.Keys(digest, a), names, extracted, backends, settings).Success?
    ensures !NeedsReprocess(RefreshIndex(s, Dedup.Keys(digest, a), names, extracted, backends, settings).value,
                            Dedup.Keys(digest, b))
  {
    HashesIgnoreOrder(digest, a, b);
  }
}
