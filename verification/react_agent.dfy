/** The decision logic of the ReAct agent in `react_agent_fixed.py`: the
    clothing classifier tool, the tool-trigger rule of the `agent` node, the
    `continue`/`end` edge of the graph, the graph loop itself, and the
    Markdown rendering of a finished conversation. The web search, the JSON
    codec and the language model are oracles. */
module ReactAgent {
  import opened Wrappers
  import opened Text
  import Seqs

  /** The three LangChain message kinds the agent handles. */
  datatype Message =
    | Human(content: string)
    | AI(content: string)
    | Tool(content: string, name: string, toolCallId: string)

  /** One web-search result: a JSON object with string fields such as
      `title`, `content` and `url`. */
  type Hit = map<string, string>

  /** The agent's external collaborators. `search` is the Tavily tool (a
      `Failure` is the exception it raises); `dumps` is `json.dumps` of its
      results and `repr` is `str()` of them; `loads` is `json.loads` of a tool
      message followed by the shape the formatter needs, `None` when either
      raises; `llm` is the chat model answering a conversation. */
  datatype Tools = Tools(
    search: string -> Result<seq<Hit>, string>,
    dumps: seq<Hit> -> string,
    repr: seq<Hit> -> string,
    loads: string -> Option<seq<Hit>>,
    llm: seq<Message> -> string)

  // ---------------------------------------------------------------------
  // recommend_clothing

  const HeavyCoat := "\U{1F9E5} Heavy coat, gloves, and warm boots recommended"
  const Raincoat := "\U{1F327}\U{FE0F} Raincoat and waterproof shoes recommended"
  const LightClothing := "\U{2600}\U{FE0F} Light clothing, t-shirt, shorts, and sunscreen"
  const WarmJacket := "\U{1F9E5} Warm jacket or sweater recommended"
  const LightJacket := "\U{1F455} Light jacket should be fine"

  /** `word in text.lower()`. */
  predicate Mentions(text: string, word: string) {
    Contains(Lower(text), word)
  }

  /** `recommend_clothing`: the first matching rule in priority order decides. */
  function RecommendClothing(weather: string): (r: string)
    ensures r in {HeavyCoat, Raincoat, LightClothing, WarmJacket, LightJacket}
  {
    if Mentions(weather, "snow") || Mentions(weather, "freezing") then HeavyCoat
    else if Mentions(weather, "rain") || Mentions(weather, "wet") then Raincoat
    else if Mentions(weather, "hot") || Mentions(weather, "sunny") then LightClothing
    else if Mentions(weather, "cold") then WarmJacket
    else LightJacket
  }

  /** The weather categories the classifier distinguishes. */
  datatype Weather = Freezing | Wet | Hot | Cold | Mild

  /** Lower ranks win when several categories are signalled. */
  function Priority(w: Weather): nat {
    match w
    case Freezing => 0
    case Wet => 1
    case Hot => 2
    case Cold => 3
    case Mild => 4
  }

  function Keywords(w: Weather): seq<string> {
    match w
    case Freezing => ["snow", "freezing"]
    case Wet => ["rain", "wet"]
    case Hot => ["hot", "sunny"]
    case Cold => ["cold"]
    case Mild => []
  }

  function Advice(w: Weather): string {
    match w
    case Freezing => HeavyCoat
    case Wet => Raincoat
    case Hot => LightClothing
    case Cold => WarmJacket
    case Mild => LightJacket
  }

  /** The text signals category `w`: one of its keywords occurs, ignoring
      case. Mild weather is always a candidate. */
  predicate Signals(text: string, w: Weather) {
    w == Mild || exists i | 0 <= i < |Keywords(w)| :: Mentions(text, Keywords(w)[i])
  }

  /** The answer is the advice of the highest-priority signalled category. */
  lemma ClothingByPriority(text: string)
    ensures exists w :: (Signals(text, w) && RecommendClothing(text) == Advice(w) &&
      forall v :: Signals(text, v) ==> Priority(w) <= Priority(v))
  {
    var w :=
      if Mentions(text, "snow") || Mentions(text, "freezing") then Freezing
      else if Mentions(text, "rain") || Mentions(text, "wet") then Wet
      else if Mentions(text, "hot") || Mentions(text, "sunny") then Hot
      else if Mentions(text, "cold") then Cold
      else Mild;
    if w == Freezing {
      assert Mentions(text, Keywords(Freezing)[0]) || Mentions(text, Keywords(Freezing)[1]);
    } else if w == Wet {
      assert Mentions(text, Keywords(Wet)[0]) || Mentions(text, Keywords(Wet)[1]);
    } else if w == Hot {
      assert Mentions(text, Keywords(Hot)[0]) || Mentions(text, Keywords(Hot)[1]);
    } else if w == Cold {
      assert Mentions(text, Keywords(Cold)[0]);
    }
    assert Signals(text, w);
  }

  /** The input is lower-cased first, so its case never matters. */
  lemma ClothingIgnoresCase(text: string)
    ensures RecommendClothing(Lower(text)) == RecommendClothing(text)
  {
    LowerIdempotent(text);
  }

  /** More text can only raise the priority of the advice: a category
      signalled by `text` is still signalled once anything is appended. */
  lemma SignalsPersist(text: string, more: string, w: Weather)
    requires Signals(text, w)
    ensures Signals(text + more, w)
  {
    if w != Mild {
      var i :| 0 <= i < |Keywords(w)| && Mentions(text, Keywords(w)[i]);
      LowerAppend(text, more);
      ContainsAppend(Lower(text), Lower(more), Keywords(w)[i]);
    }
  }

  /** "cold rain" asks for rain gear: the rain rule is checked before the cold one. */
  lemma ColdRainGetsRaincoat()
    ensures RecommendClothing("cold rain") == Raincoat
  {
    var s := "cold rain";
    assert |s| == 9;
    assert s[0] == 'c' && s[1] == 'o' && s[2] == 'l' && s[3] == 'd' && s[4] == ' '
        && s[5] == 'r' && s[6] == 'a' && s[7] == 'i' && s[8] == 'n';
    var low := Lower(s);
    assert low == s by {
      forall i | 0 <= i < |s| ensures low[i] == s[i] {
        assert !('A' <= s[i] <= 'Z');
      }
    }
    assert !Mentions(s, "snow") by {
      AbsentLetter(s, "snow");
    }
    assert !Mentions(s, "freezing") by {
      AbsentLetter(s, "freezing");
    }
    assert Mentions(s, "rain") by {
      assert "rain" <= s[5..];
      ContainsAt(s, "rain");
    }
  }

  // ---------------------------------------------------------------------
  // should_continue, call_model and the graph

  /** `should_continue`: go round again after a tool message (or on an empty
      history), stop otherwise. */
  function ShouldContinue(messages: seq<Message>): (r: string)
    ensures r == "continue" || r == "end"
    ensures r == "continue" <==> |messages| == 0 || messages[|messages| - 1].Tool?
  {
    if |messages| == 0 then "continue"
    else if messages[|messages| - 1].Tool? then "continue"
    else "end"
  }

  /** The words that make the agent search the web. */
  const SearchWords: seq<string> := ["weather", "news", "current", "today", "latest"]

  predicate NeedsSearch(text: string) {
    exists i | 0 <= i < |SearchWords| :: Mentions(text, SearchWords[i])
  }

  /** `messages[-1].content if messages else ""`. */
  function LastContent(messages: seq<Message>): string {
    if |messages| == 0 then "" else messages[|messages| - 1].content
  }

  /** `call_model` as written: the last message, whatever its kind, decides
      whether to search. A search adds the JSON of its results as a tool
      message, followed by clothing advice when both "weather" and "wear"
      occur; a search error becomes a single AI message; otherwise the model
      answers. */
  function CallModel(x: Tools, messages: seq<Message>): (r: seq<Message>)
    ensures var q := LastContent(messages);
      && 1 <= |r| <= 2
      && (!NeedsSearch(q) ==> r == [AI(x.llm(messages))])
      && (NeedsSearch(q) && x.search(q).Failure? ==> r == [AI("Tool error: " + x.search(q).error)])
      && (r[|r| - 1].Tool? <==> NeedsSearch(q) && x.search(q).Success?)
      && (NeedsSearch(q) && x.search(q).Success? ==>
            && r[0] == Tool(x.dumps(x.search(q).value), "search_tool", "search_1")
            && (|r| == 2 <==> Mentions(q, "weather") && Mentions(q, "wear"))
            && (|r| == 2 ==> r[1] == Tool(RecommendClothing(x.repr(x.search(q).value)), "recommend_clothing", "clothing_1")))
  {
    var q := LastContent(messages);
    if NeedsSearch(q) then
      match x.search(q)
      case Failure(e) => [AI("Tool error: " + e)]
      case Success(hits) =>
        var found := Tool(x.dumps(hits), "search_tool", "search_1");
        if Mentions(q, "weather") && Mentions(q, "wear") then
          [found, Tool(RecommendClothing(x.repr(hits)), "recommend_clothing", "clothing_1")]
        else [found]
    else [AI(x.llm(messages))]
  }

  /** The compiled graph: the single `agent` node runs while `should_continue`
      says "continue"; after `limit` node runs without reaching "end" LangGraph
      gives up with a recursion error, modelled as `None`. */
  function Invoke(agent: seq<Message> -> seq<Message>, messages: seq<Message>, limit: nat): (r: Option<seq<Message>>)
    ensures r.Some? ==> messages <= r.value && ShouldContinue(r.value) == "end"
    decreases limit
  {
    if limit == 0 then None
    else
      var next := messages + agent(messages);
      if ShouldContinue(next) == "end" then Some(next) else Invoke(agent, next, limit - 1)
  }

  /** After one agent step the graph goes round again exactly when the step
      produced tool results. */
  lemma ContinueAfterTools(x: Tools, messages: seq<Message>)
    ensures var q := LastContent(messages);
      ShouldContinue(messages + CallModel(x, messages)) == "continue" <==>
        NeedsSearch(q) && x.search(q).Success?
  {
  }

  /** The as-written agent searches again when the search answers `q` with
      `hits`, `q` needs a search, and `q` does not hold both "weather" and
      "wear" (which would put clothing advice last). */
  predicate SearchesAgain(x: Tools, q: string, hits: seq<Hit>) {
    NeedsSearch(q) && x.search(q) == Success(hits) && !(Mentions(q, "weather") && Mentions(q, "wear"))
  }

  /** When that holds for the last message and for the JSON of the results,
      every agent step appends one more search result and the graph never
      reaches "end", whatever the recursion limit. */
  lemma {:induction false} SearchRepeats(x: Tools, hits: seq<Hit>, messages: seq<Message>, limit: nat)
    requires SearchesAgain(x, LastContent(messages), hits)
    requires SearchesAgain(x, x.dumps(hits), hits)
    ensures Invoke((m: seq<Message>) => CallModel(x, m), messages, limit) == None
    decreases limit
  {
    if limit > 0 {
      var step := CallModel(x, messages);
      var next := messages + step;
      assert step == [Tool(x.dumps(hits), "search_tool", "search_1")];
      assert LastContent(next) == x.dumps(hits);
      SearchRepeats(x, hits, next, limit - 1);
    }
  }

  /** One of the interface's sample questions, and a search tool whose single
      result is `{"title": "AI today"}`. */
  const SampleQuestion := "Latest AI developments"
  const SampleHits: seq<Hit> := [map["title" := "AI today"]]
  const SampleJson := "[{\"title\": \"AI today\"}]"

  function SampleTools(): Tools {
    Tools(
      (q: string) => Success(SampleHits),
      (h: seq<Hit>) => SampleJson,
      (h: seq<Hit>) => "[{'title': 'AI today'}]",
      (j: string) => Some(SampleHits),
      (m: seq<Message>) => "")
  }

  /** A text without a "w" or "W" does not mention "wear". */
  lemma NoW(text: string)
    requires forall i | 0 <= i < |text| :: text[i] != 'w' && text[i] != 'W'
    ensures !Mentions(text, "wear")
  {
    AbsentLetter(Lower(text), "wear");
  }

  /** The sample question asks for the latest news and has no "w". */
  lemma SampleQuestionSearches()
    ensures SearchesAgain(SampleTools(), SampleQuestion, SampleHits)
  {
    assert Mentions(SampleQuestion, SearchWords[4]) by {
      assert "latest" <= Lower(SampleQuestion)[0..];
      ContainsAt(Lower(SampleQuestion), "latest");
    }
    NoW(SampleQuestion);
  }

  /** The JSON of the sample result mentions "today" and has no "w". */
  lemma SampleJsonSearches()
    ensures SearchesAgain(SampleTools(), SampleJson, SampleHits)
  {
    assert Mentions(SampleJson, SearchWords[3]) by {
      assert "today" <= Lower(SampleJson)[15..];
      ContainsAt(Lower(SampleJson), "today");
    }
    NoW(SampleJson);
  }

  /** With that tool the sample question never gets an answer, whatever the
      recursion limit: the JSON of the result is searched for in turn. */
  lemma SampleQuestionLoops(limit: nat)
    ensures Invoke((m: seq<Message>) => CallModel(SampleTools(), m), [Human(SampleQuestion)], limit) == None
  {
    SampleQuestionSearches();
    SampleJsonSearches();
    assert SampleTools().dumps(SampleHits) == SampleJson;
    assert LastContent([Human(SampleQuestion)]) == SampleQuestion;
    SearchRepeats(SampleTools(), SampleHits, [Human(SampleQuestion)], limit);
  }

  /** `call_model` with the tool trigger restricted to the user's turn: after
      a tool message the model answers from the tool results. */
  function CallModelOnQuestion(x: Tools, messages: seq<Message>): (r: seq<Message>)
    ensures |messages| > 0 && messages[|messages| - 1].Tool? ==> r == [AI(x.llm(messages))]
    ensures |messages| > 0 && messages[|messages| - 1].Tool? ==> ShouldContinue(messages + r) == "end"
    ensures !(|messages| > 0 && messages[|messages| - 1].Tool?) ==> r == CallModel(x, messages)
  {
    if |messages| > 0 && messages[|messages| - 1].Tool? then [AI(x.llm(messages))]
    else CallModel(x, messages)
  }

  /** With the corrected trigger every question is answered within two agent
      steps, and the conversation ends with an AI message. */
  lemma QuestionAnsweredInTwoSteps(x: Tools, q: string, limit: nat)
    requires limit >= 2
    ensures var r := Invoke((m: seq<Message>) => CallModelOnQuestion(x, m), [Human(q)], limit);
      r.Some? && r.value[|r.value| - 1].AI?
  {
    var agent := (m: seq<Message>) => CallModelOnQuestion(x, m);
    var first := [Human(q)] + agent([Human(q)]);
    if ShouldContinue(first) == "continue" {
      var second := first + agent(first);
      assert agent(first) == [AI(x.llm(first))];
      assert Invoke(agent, first, limit - 1) == Some(second);
    }
  }

  // ---------------------------------------------------------------------
  // format_response

  /** The "Agent Process" entries and the body sections a conversation yields. */
  datatype Step = Searching | Dressing
  datatype Section =
    | SearchHits(hits: seq<Hit>)
    | SearchUnreadable
    | Clothing(advice: string)
    | Reply(text: string)

  function StepOf(m: Message): seq<Step> {
    if m.Tool? && m.name == "search_tool" then [Searching]
    else if m.Tool? && m.name == "recommend_clothing" then [Dressing]
    else []
  }

  /** A search message whose JSON cannot be read yields the fallback section;
      an empty result list yields none. */
  function SectionOf(x: Tools, m: Message): seq<Section> {
    if m.Tool? && m.name == "search_tool" then
      match x.loads(m.content)
      case None => [SearchUnreadable]
      case Some(hits) => if |hits| == 0 then [] else [SearchHits(hits)]
    else if m.Tool? && m.name == "recommend_clothing" then [Clothing(m.content)]
    else if m.AI? && m.content != "" then [Reply(m.content)]
    else []
  }

  function Steps(messages: seq<Message>): seq<Step> {
    Seqs.FlatMap(StepOf, messages)
  }

  function Sections(x: Tools, messages: seq<Message>): seq<Section> {
    Seqs.FlatMap((m: Message) => SectionOf(x, m), messages)
  }

  /** Steps keep message order: those of a concatenation are those of its parts. */
  lemma StepsAppend(a: seq<Message>, b: seq<Message>)
    ensures Steps(a + b) == Steps(a) + Steps(b)
  {
    Seqs.FlatMapAppend(StepOf, a, b);
  }

  /** Sections keep message order likewise. */
  lemma SectionsAppend(x: Tools, a: seq<Message>, b: seq<Message>)
    ensures Sections(x, a + b) == Sections(x, a) + Sections(x, b)
  {
    Seqs.FlatMapAppend((m: Message) => SectionOf(x, m), a, b);
  }

  /** There is no process step exactly when no message is a search or
      clothing tool message. */
  lemma {:induction false} StepsEmptyIff(messages: seq<Message>)
    ensures |Steps(messages)| == 0 <==> forall i | 0 <= i < |messages| :: StepOf(messages[i]) == []
    decreases |messages|
  {
    if |messages| > 0 {
      var init := messages[..|messages| - 1];
      StepsEmptyIff(init);
      assert forall i | 0 <= i < |init| :: init[i] == messages[i];
    }
  }

  /** `result.get(key, default)`. */
  function Field(h: Hit, key: string, default: string): string {
    if key in h then h[key] else default
  }

  /** `result.get('content', '')[:180]`. */
  function Snippet(h: Hit): (r: string)
    ensures |r| == if |Field(h, "content", "")| <= 180 then |Field(h, "content", "")| else 180
    ensures r <= Field(h, "content", "")
  {
    Take(Field(h, "content", ""), 180)
  }

  function LinkLine(url: string): string {
    "\U{1F517} [Read more](" + url + ")\n\n"
  }

  function HitHeading(i: nat, h: Hit): string {
    "### " + NatToString(i) + ". " + Field(h, "title", "Untitled") + "\n\n"
  }

  function HitBody(h: Hit): string {
    "\U{1F4C4} " + Snippet(h) + "...\n\n"
  }

  const Rule := "---\n\n"

  /** The lines of the `i`-th rendered search result. */
  function HitLines(i: nat, h: Hit): seq<string> {
    var url := Field(h, "url", "");
    [HitHeading(i, h), HitBody(h)] + (if url != "" then [LinkLine(url)] else []) + [Rule]
  }

  /** A result gets a link line exactly when its url is non-empty. */
  lemma LinkOnlyWithUrl(i: nat, h: Hit)
    ensures (exists k | 0 <= k < |HitLines(i, h)| :: HitLines(i, h)[k] == LinkLine(Field(h, "url", "")))
      <==> Field(h, "url", "") != ""
  {
    var url := Field(h, "url", "");
    var r := HitLines(i, h);
    if url == "" {
      assert r == [HitHeading(i, h), HitBody(h), Rule];
      forall k | 0 <= k < |r| ensures r[k] != LinkLine(url) {
        assert LinkLine(url)[0] == '\U{1F517}';
        assert r[k][0] != '\U{1F517}';
      }
    } else {
      assert r[2] == LinkLine(url);
    }
  }

  /** `search_data[:3]`. */
  function Shown(hits: seq<Hit>): (r: seq<Hit>)
    ensures |r| == if |hits| <= 3 then |hits| else 3
    ensures r <= hits
  {
    if |hits| <= 3 then hits else hits[..3]
  }

  const SearchHeading := "\n## \U{1F50D} **Web Search Results**\n\n"

  function RenderSection(s: Section): string {
    match s
    case SearchHits(hits) =>
      var shown := Shown(hits);
      SearchHeading + Join("", seq(|shown|, i requires 0 <= i < |shown| => Join("", HitLines(i + 1, shown[i]))))
    case SearchUnreadable => SearchHeading + "Found relevant information.\n\n"
    case Clothing(advice) => "\n## \U{1F455} **Clothing Recommendation**\n\n" + advice + "\n\n"
    case Reply(text) => "\n## \U{1F4AC} **AI Response**\n\n" + text + "\n\n"
  }

  /** Results after the third never reach the rendered text. */
  lemma AtMostThreeHits(hits: seq<Hit>)
    ensures RenderSection(SearchHits(hits)) == RenderSection(SearchHits(Shown(hits)))
  {
  }

  function StepText(s: Step): string {
    match s
    case Searching => "\U{1F50D} Searching web for current information"
    case Dressing => "\U{1F455} Getting clothing recommendations"
  }

  const ProcessHeading := "## \U{1F914} **Agent Process**\n\n"

  /** The line of the process block for step number `k`. */
  function StepLine(k: nat, s: Step): string {
    "**Step " + NatToString(k) + ":** " + StepText(s) + "\n"
  }

  /** The numbered step lines and the closing rule of the process block. */
  function StepLines(steps: seq<Step>): string {
    Join("", seq(|steps|, i requires 0 <= i < |steps| => StepLine(i + 1, steps[i]))) + ("\n" + Repeat("=", 50) + "\n")
  }

  /** The numbered "Agent Process" block, empty when there is no step. */
  function ProcessBlock(steps: seq<Step>): string {
    if |steps| == 0 then "" else ProcessHeading + StepLines(steps)
  }

  /** Steps are numbered from 1 in message order: the `i`-th step appears
      under number `i + 1`. */
  lemma StepsNumbered(steps: seq<Step>, i: nat)
    requires i < |steps|
    ensures Contains(ProcessBlock(steps), StepLine(i + 1, steps[i]))
  {
    var lines := seq(|steps|, j requires 0 <= j < |steps| => StepLine(j + 1, steps[j]));
    JoinKeepsParts("", lines, i);
    ContainsAppend(Join("", lines), "\n" + Repeat("=", 50) + "\n", lines[i]);
    ContainsPrepend(ProcessHeading, StepLines(steps), lines[i]);
  }

  function RenderAll(sections: seq<Section>): (r: seq<string>)
    ensures |r| == |sections|
    ensures forall i | 0 <= i < |r| :: r[i] == RenderSection(sections[i])
  {
    seq(|sections|, i requires 0 <= i < |sections| => RenderSection(sections[i]))
  }

  lemma RenderedSectionOpensWithNewline(s: Section)
    ensures |RenderSection(s)| > 0 && RenderSection(s)[0] == '\n'
  {
  }

  /** The part of the response after the process block: the sections
      rendered one after another. */
  function SectionsText(x: Tools, messages: seq<Message>): string {
    Join("", RenderAll(Sections(x, messages)))
  }

  /** `format_response`: the process block, then every section rendered in
      message order, and nothing else. */
  function FormatResponse(x: Tools, messages: seq<Message>): (r: string)
    ensures ProcessBlock(Steps(messages)) <= r
    ensures r[|ProcessBlock(Steps(messages))|..] == SectionsText(x, messages)
  {
    ProcessBlock(Steps(messages)) + SectionsText(x, messages)
  }

  /** The sections' text follows the messages: for a conversation `a + b` it
      is the text of `a` followed by the text of `b`, with nothing between. */
  lemma SectionsTextAppend(x: Tools, a: seq<Message>, b: seq<Message>)
    ensures SectionsText(x, a + b) == SectionsText(x, a) + SectionsText(x, b)
  {
    SectionsAppend(x, a, b);
    var sa, sb := Sections(x, a), Sections(x, b);
    assert RenderAll(sa + sb) == RenderAll(sa) + RenderAll(sb);
    JoinEmptyAppend(RenderAll(sa), RenderAll(sb));
  }

  /** A message contributes exactly its own sections' text. */
  lemma SectionsTextOfMessage(x: Tools, m: Message)
    ensures SectionsText(x, [m]) == Join("", RenderAll(SectionOf(x, m)))
  {
    Seqs.FlatMapSingle((m: Message) => SectionOf(x, m), m);
  }

  /** Every section of the conversation is rendered into the response. */
  lemma EverySectionRendered(x: Tools, messages: seq<Message>)
    ensures forall i | 0 <= i < |Sections(x, messages)| ::
      Contains(FormatResponse(x, messages), RenderSection(Sections(x, messages)[i]))
  {
    var block := ProcessBlock(Steps(messages));
    var parts := RenderAll(Sections(x, messages));
    JoinKeepsAll("", parts);
    forall i | 0 <= i < |parts| ensures Contains(block + Join("", parts), parts[i]) {
      ContainsPrepend(block, Join("", parts), parts[i]);
    }
  }

  /** Text made of pieces that each open with a line break is empty or opens
      with a line break. */
  lemma JoinOpensWithNewline(parts: seq<string>)
    requires forall i | 0 <= i < |parts| :: |parts[i]| > 0 && parts[i][0] == '\n'
    ensures Join("", parts) == "" || Join("", parts)[0] == '\n'
  {
    if |parts| > 0 {
      JoinOpensWithFirst("", parts);
    }
  }

  /** Without process steps the response opens with a line break, if at all. */
  lemma NoStepsNoHeading(x: Tools, messages: seq<Message>)
    requires |Steps(messages)| == 0
    ensures !(ProcessHeading <= FormatResponse(x, messages))
  {
    var parts := RenderAll(Sections(x, messages));
    forall i | 0 <= i < |parts| ensures |parts[i]| > 0 && parts[i][0] == '\n' {
      RenderedSectionOpensWithNewline(Sections(x, messages)[i]);
    }
    JoinOpensWithNewline(parts);
    assert FormatResponse(x, messages) == Join("", parts);
    assert ProcessHeading[0] == '#';
  }

  /** The response opens with the "Agent Process" heading exactly when the
      conversation holds a search or clothing tool message. */
  lemma ProcessBlockIff(x: Tools, messages: seq<Message>)
    ensures ProcessHeading <= FormatResponse(x, messages) <==>
      exists i | 0 <= i < |messages| :: StepOf(messages[i]) != []
  {
    StepsEmptyIff(messages);
    if |Steps(messages)| == 0 {
      NoStepsNoHeading(x, messages);
    } else {
      var lines := StepLines(Steps(messages));
      var body := Join("", RenderAll(Sections(x, messages)));
      assert FormatResponse(x, messages) == ProcessHeading + (lines + body);
    }
  }

  /** A weather-and-wear question whose search succeeds with readable results
      yields two process steps and, in this order, the search results and
      the clothing advice drawn from them. */
  lemma ClothingQuestionLayout(x: Tools, q: string)
    requires NeedsSearch(q) && Mentions(q, "weather") && Mentions(q, "wear")
    requires x.search(q).Success? && |x.search(q).value| > 0
    requires x.loads(x.dumps(x.search(q).value)) == Some(x.search(q).value)
    ensures var conversation := [Human(q)] + CallModel(x, [Human(q)]);
      var hits := x.search(q).value;
      && Steps(conversation) == [Searching, Dressing]
      && Sections(x, conversation) == [SearchHits(hits), Clothing(RecommendClothing(x.repr(hits)))]
  {
    var hits := x.search(q).value;
    var c1 := [Human(q)];
    var t1 := Tool(x.dumps(hits), "search_tool", "search_1");
    var t2 := Tool(RecommendClothing(x.repr(hits)), "recommend_clothing", "clothing_1");
    var c2 := c1 + [t1];
    var c3 := c2 + [t2];
    assert CallModel(x, c1) == [t1, t2];
    assert c1 + CallModel(x, c1) == c3;
    var section := (m: Message) => SectionOf(x, m);
    Seqs.FlatMapSingle(StepOf, Human(q));
    Seqs.FlatMapSingle(StepOf, t1);
    Seqs.FlatMapSingle(StepOf, t2);
    Seqs.FlatMapAppend(StepOf, c1, [t1]);
    Seqs.FlatMapAppend(StepOf, c2, [t2]);
    Seqs.FlatMapSingle(section, Human(q));
    Seqs.FlatMapSingle(section, t1);
    Seqs.FlatMapSingle(section, t2);
    Seqs.FlatMapAppend(section, c1, [t1]);
    Seqs.FlatMapAppend(section, c2, [t2]);
  }
}
