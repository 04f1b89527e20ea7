/** `getArticleInternal` and its two entry points `GetArticle` and
    `GetArticleWithSummary` (reader/reader.go:21-86): fetch an article, convert it to
    Markdown, and assemble the terminal document in one of three shapes, plain, with a
    summary error notice, or with a summary, a toggle and the collapsed full article.

    Every collaborator whose source is not part of this model is a field of
    `Collaborators`, an arbitrary total function: the article extractor, ANSI stripping,
    the HTML-to-Markdown converter, the header, the renderer (Markdown blocks to
    terminal text), the summarizer and the postprocessor. The outcome records the
    calls made to them, in order, so that which of them run on each path is part of
    what the model states. */
module Reader {
  import opened GoStrings
  import opened Unicode
  import opened CollapseMarkers
  import opened ToggleButton

  datatype Option<T> = None | Some(value: T)

  /** The timeout, in seconds, handed to the article extractor. */
  const FetchTimeoutSeconds: nat := 6

  /** The text of the toggle between the summary and the full article. */
  const ToggleCaption: string := "Show Full Article"

  /** The context every fatal error is wrapped in. */
  const FetchErrorPrefix: string := "could not fetch url"

  /** `readability.FromURL(url, timeout)`: the article's HTML content, or the error. */
  datatype Fetched = Fetched(content: string) | FetchFailed(reason: string)

  /** `html.ConvertToMarkdown(html)`. */
  datatype Converted = Converted(markdown: string) | ConversionFailed(reason: string)

  /** `summarizer.SummarizeArticle(markdown, url)`. */
  datatype Summary = Summarized(text: string) | SummaryFailed(reason: string)

  datatype Collaborators = Collaborators(
    fetch: (string, nat) -> Fetched,          // readability.FromURL(url, timeout)
    strip: string -> string,                  // ansi.Strip
    toMarkdown: string -> Converted,          // html.ConvertToMarkdown
    header: (string, string, int) -> string,  // terminal.CreateHeader(title, url, width)
    render: (string, int, string) -> string,  // terminal.ConvertToTerminalFormat(parser.ConvertToMarkdownBlocks(md), width, indentation)
    summarize: (string, string) -> Summary,   // summarizer.SummarizeArticle(markdown, url)
    process: (string, string) -> string)      // postprocessor.Process(document, url)

  /** One call to a collaborator. */
  datatype Call =
    | Fetch(url: string, timeout: nat)
    | Strip
    | ToMarkdown
    | CreateHeader
    | Summarize
    | Render(markdown: string)
    | Process(document: string)

  /** `fmt.Errorf("could not fetch url: %w", err)`: `cause` is the wrapped error's
      text, `None` when the wrapped error is nil. */
  datatype FetchError = CouldNotFetch(cause: Option<string>)
  {
    function Message(): (m: string)
      ensures |m| > |FetchErrorPrefix| && m[..|FetchErrorPrefix|] == FetchErrorPrefix
    {
      FetchErrorPrefix + ": " + match cause case Some(e) => e case None => "%!w(<nil>)"
    }
  }

  /** The returned document and error, and the calls made on the way. */
  datatype Outcome = Outcome(document: string, err: Option<FetchError>, calls: seq<Call>)

  /** The three document shapes. */
  datatype Shape = Plain | WithSummaryError(reason: string) | WithSummary(summary: string)

  function ErrorMarkdown(reason: string): string
  {
    "**Error generating summary:** " + reason + "\n\n---\n\n"
  }

  function SummaryMarkdown(summary: string): string
  {
    "# AI Summary\n\n" + summary + "\n\n"
  }

  function ArticleMarkdown(markdown: string): string
  {
    "# Full Article\n\n" + markdown
  }

  /** The article in Markdown, when it can be fetched and converted. */
  function ArticleMarkdownAt(c: Collaborators, url: string): Option<string>
  {
    match c.fetch(url, FetchTimeoutSeconds)
    case FetchFailed(_) => None
    case Fetched(html) =>
      match c.toMarkdown(c.strip(html))
      case ConversionFailed(_) => None
      case Converted(markdown) => Some(markdown)
  }

  /** The shape chosen from the flag and, when it is set, the summarizer's answer. */
  function ShapeOf(c: Collaborators, markdown: string, url: string, summarize: bool): Shape
  {
    if !summarize then Plain
    else match c.summarize(markdown, url)
      case SummaryFailed(reason) => WithSummaryError(reason)
      case Summarized(text) => WithSummary(text)
  }

  /** The Markdown texts handed to the renderer, in order. */
  function Regions(shape: Shape, markdown: string): seq<string>
  {
    match shape
    case Plain => [markdown]
    case WithSummaryError(reason) => [ErrorMarkdown(reason), markdown]
    case WithSummary(summary) => [SummaryMarkdown(summary), ArticleMarkdown(markdown)]
  }

  /** The document handed to the postprocessor: the header, then the rendered regions;
      with a summary, the toggle comes between the summary and the full article, whose
      lines are marked so that they start hidden. */
  function Assemble(render: (string, int, string) -> string, s: Sentinels, header: string,
                    markdown: string, width: int, indentation: string, shape: Shape): string
  {
    match shape
    case Plain =>
      header + render(markdown, width, indentation)
    case WithSummaryError(reason) =>
      header + render(ErrorMarkdown(reason), width, indentation) + render(markdown, width, indentation)
    case WithSummary(summary) =>
      header + render(SummaryMarkdown(summary), width, indentation)
        + CreateToggleButton(ToggleCaption, width, s)
        + MarkNewlines(render(ArticleMarkdown(markdown), width, indentation), s.expansion)
  }

  /** How many calls are postprocessor calls. */
  function ProcessCalls(calls: seq<Call>): nat
  {
    if calls == [] then 0 else (if calls[0].Process? then 1 else 0) + ProcessCalls(calls[1..])
  }

  function RenderCalls(regions: seq<string>): (r: seq<Call>)
    ensures |r| == |regions|
    ensures forall k :: 0 <= k < |r| ==> r[k] == Render(regions[k])
  {
    if regions == [] then [] else [Render(regions[0])] + RenderCalls(regions[1..])
  }

  /** `getArticleInternal(url, title, width, indentationSymbol, summarize)`. */
  function GetArticleInternal(c: Collaborators, s: Sentinels, url: string, title: string,
                              width: int, indentation: string, summarize: bool): (o: Outcome)
    ensures |o.calls| >= 1 && o.calls[0] == Fetch(url, FetchTimeoutSeconds)
    ensures o.err.Some? <==> ArticleMarkdownAt(c, url).None?
    ensures o.err.Some? ==>
      && o.document == ""
      && o.err.value.Message()[..|FetchErrorPrefix|] == FetchErrorPrefix
      && Summarize !in o.calls
      && ProcessCalls(o.calls) == 0
    ensures o.err.None? ==>
      var markdown := ArticleMarkdownAt(c, url).value;
      var body := Assemble(c.render, s, c.header(title, url, width), markdown, width, indentation,
                           ShapeOf(c, markdown, url, summarize));
      && o.document == c.process(body, url)
      && ProcessCalls(o.calls) == 1
      && o.calls[|o.calls| - 1] == Process(body)
    ensures (Summarize in o.calls) <==> summarize && o.err.None?
  {
    match c.fetch(url, FetchTimeoutSeconds)
    case FetchFailed(reason) =>
      Outcome("", Some(CouldNotFetch(Some(reason))), [Fetch(url, FetchTimeoutSeconds)])
    case Fetched(html) =>
      var sanitized := c.strip(html);
      match c.toMarkdown(sanitized)
      case ConversionFailed(_) =>
        // The conversion error is wrapped around the fetch error, which is nil here.
        var calls := [Fetch(url, FetchTimeoutSeconds), Strip, ToMarkdown];
        NoProcessCalls(calls);
        Outcome("", Some(CouldNotFetch(None)), calls)
      case Converted(markdown) =>
        var header := c.header(title, url, width);
        var shape := ShapeOf(c, markdown, url, summarize);
        var body := Assemble(c.render, s, header, markdown, width, indentation, shape);
        var before := CallsBeforeProcess(url, summarize, Regions(shape, markdown));
        ProcessCallsSnoc(before, Process(body));
        Outcome(c.process(body, url), None, before + [Process(body)])
  }

  /** The calls of a successful run up to the postprocessor: fetch, strip, convert,
      header, the summarizer if asked for, and one render per region. */
  function CallsBeforeProcess(url: string, summarize: bool, regions: seq<string>): (r: seq<Call>)
    ensures |r| >= 1 && r[0] == Fetch(url, FetchTimeoutSeconds)
    ensures ProcessCalls(r) == 0
    ensures Summarize in r <==> summarize
  {
    var r := [Fetch(url, FetchTimeoutSeconds), Strip, ToMarkdown, CreateHeader]
      + (if summarize then [Summarize] else []) + RenderCalls(regions);
    NoProcessCalls(r);
    r
  }

  lemma {:induction false} ProcessCallsSnoc(calls: seq<Call>, last: Call)
    ensures ProcessCalls(calls + [last]) == ProcessCalls(calls) + (if last.Process? then 1 else 0)
  {
    if calls != [] {
      assert (calls + [last])[1..] == calls[1..] + [last];
      ProcessCallsSnoc(calls[1..], last);
    } else {
      assert calls + [last] == [last];
    }
  }

  lemma {:induction false} NoProcessCalls(calls: seq<Call>)
    requires forall k :: 0 <= k < |calls| ==> !calls[k].Process?
    ensures ProcessCalls(calls) == 0
  {
    if calls != [] {
      NoProcessCalls(calls[1..]);
    }
  }

  /** On an 80-column terminal the toggle's field width is (80 + 21) / 2 = 50, because
      each glyph counts three bytes, while the line is padded to 50 code points: the
      19-character label gets 31 spaces in front, not the 30 that centering would give. */
  lemma ToggleOnEightyColumns()
    ensures LabelLine(CollapsedGlyph, ToggleCaption, 80) == Spaces(31) + Button(CollapsedGlyph, ToggleCaption)
    ensures LabelLine(ExpandedGlyph, ToggleCaption, 80) == Spaces(31) + Button(ExpandedGlyph, ToggleCaption)
  {
    assert |ToggleCaption| == 17;
    AsciiUtf8Len(ToggleCaption);
    assert (80 + 4 + 17) / 2 == 50;
    LabelLineLayout(CollapsedGlyph, ToggleCaption, 80);
    LabelLineLayout(ExpandedGlyph, ToggleCaption, 80);
  }

  /** `GetArticle`: the summarizer is never consulted, and a successful document is the
      postprocessed header and rendered article. */
  function GetArticle(c: Collaborators, s: Sentinels, url: string, title: string,
                      width: int, indentation: string): (o: Outcome)
    ensures Summarize !in o.calls
    ensures o.err.None? <==> ArticleMarkdownAt(c, url).Some?
    ensures o.err.None? ==>
      o.document == c.process(c.header(title, url, width)
                              + c.render(ArticleMarkdownAt(c, url).value, width, indentation), url)
  {
    GetArticleInternal(c, s, url, title, width, indentation, false)
  }

  /** `GetArticleWithSummary`: the summarizer is consulted whenever the article could
      be converted, and its failure never becomes an error. */
  function GetArticleWithSummary(c: Collaborators, s: Sentinels, url: string, title: string,
                                 width: int, indentation: string): (o: Outcome)
    ensures o.err.Some? <==> ArticleMarkdownAt(c, url).None?
    ensures o.err.None? ==> Summarize in o.calls
  {
    GetArticleInternal(c, s, url, title, width, indentation, true)
  }

  /** Without a summary, or when summarizing failed, the document carries no sentinel
      of its own making and ends with the whole rendered article, unmarked. */
  lemma UnmarkedWithoutSummary(render: (string, int, string) -> string, s: Sentinels, header: string,
                               markdown: string, width: int, indentation: string, shape: Shape)
    requires shape.Plain? || shape.WithSummaryError?
    requires s.Unmarked(header) && s.Unmarked(render(markdown, width, indentation))
    requires shape.WithSummaryError? ==> s.Unmarked(render(ErrorMarkdown(shape.reason), width, indentation))
    ensures var body := Assemble(render, s, header, markdown, width, indentation, shape);
      var article := render(markdown, width, indentation);
      && s.Unmarked(body)
      && |body| >= |article| && body[|body| - |article|..] == article
  {
  }

  /** With a summary, the document holds exactly one collapse sentinel, on the
      collapsed-state toggle line, and one expansion sentinel per newline of the
      rendered article plus the one on the expanded-state toggle line. */
  lemma SummarySentinelCounts(render: (string, int, string) -> string, s: Sentinels, header: string,
                              markdown: string, width: int, indentation: string, summary: string)
    requires s.Valid() && s.Unmarked(ToggleCaption) && s.Unmarked(Decoration)
    requires s.Unmarked(header) && s.Unmarked(render(SummaryMarkdown(summary), width, indentation))
    requires s.Unmarked(render(ArticleMarkdown(markdown), width, indentation))
    ensures var body := Assemble(render, s, header, markdown, width, indentation, WithSummary(summary));
      var article := render(ArticleMarkdown(markdown), width, indentation);
      && Count(s.collapse, body) == 1
      && Count(s.expansion, body) == 1 + Count('\n', article)
  {
    var top := header + render(SummaryMarkdown(summary), width, indentation);
    var toggle := CreateToggleButton(ToggleCaption, width, s);
    var article := render(ArticleMarkdown(markdown), width, indentation);
    var marked := MarkNewlines(article, s.expansion);
    ToggleSentinelCounts(ToggleCaption, width, s);
    MarkCounts(article, s.expansion);
    if s.collapse in marked {
      MarkedChars(article, s.expansion, s.collapse);
    }
    CountConcat(s.collapse, top, toggle);
    CountConcat(s.collapse, top + toggle, marked);
    CountConcat(s.expansion, top, toggle);
    CountConcat(s.expansion, top + toggle, marked);
  }

  /** `lines` ends with the two toggle lines, collapsed state first, and then the
      article's lines, each but the last carrying the marker `m`. */
  predicate EndsWithToggle(lines: seq<string>, collapsed: string, expanded: string,
                           articleLines: seq<string>, m: char)
  {
    var n := |lines| - |articleLines|;
    && |articleLines| >= 1 && n >= 2
    && lines[n - 2] == collapsed && lines[n - 1] == expanded
    && lines[n..] == MarkLines(articleLines, m)
  }

  /** With a summary, the document ends with the two toggle lines, collapsed state
      first, and then the lines of the rendered article, each but the last carrying
      the expansion sentinel. */
  lemma SummaryDocumentLines(render: (string, int, string) -> string, s: Sentinels, header: string,
                             markdown: string, width: int, indentation: string, summary: string)
    requires s.Valid()
    ensures EndsWithToggle(SplitLines(Assemble(render, s, header, markdown, width, indentation, WithSummary(summary))),
                           LabelLine(CollapsedGlyph, ToggleCaption, width) + [s.collapse],
                           LabelLine(ExpandedGlyph, ToggleCaption, width) + [s.expansion],
                           SplitLines(render(ArticleMarkdown(markdown), width, indentation)), s.expansion)
  {
    var top := header + render(SummaryMarkdown(summary), width, indentation);
    var collapsed := LabelLine(CollapsedGlyph, ToggleCaption, width) + [s.collapse];
    var expanded := LabelLine(ExpandedGlyph, ToggleCaption, width) + [s.expansion];
    var article := render(ArticleMarkdown(markdown), width, indentation);
    var body := Assemble(render, s, header, markdown, width, indentation, WithSummary(summary));
    assert body == top + ("\n" + collapsed + "\n" + expanded + "\n") + MarkNewlines(article, s.expansion);
    assert '\n' !in ToggleCaption;
    LabelLineNoNewline(CollapsedGlyph, ToggleCaption, width);
    LabelLineNoNewline(ExpandedGlyph, ToggleCaption, width);
    ToggleTailLines(body, top, collapsed, expanded, article, s.expansion);
  }

  /** The lines of a text made of a top part, the two toggle lines and a marked
      article. */
  lemma ToggleTailLines(body: string, top: string, collapsed: string, expanded: string, article: string, m: char)
    requires '\n' !in collapsed && '\n' !in expanded && m != '\n'
    requires body == top + ("\n" + collapsed + "\n" + expanded + "\n") + MarkNewlines(article, m)
    ensures EndsWithToggle(SplitLines(body), collapsed, expanded, SplitLines(article), m)
  {
    SplitAroundToggle(top, collapsed, expanded, MarkNewlines(article, m));
    MarkedLines(article, m);
    TwoLinesThen(SplitLines(top), collapsed, expanded, MarkLines(SplitLines(article), m));
  }

  /** The lines of a text that continues with two newline-free lines, each after a
      newline, and a newline. */
  lemma SplitAroundToggle(top: string, collapsed: string, expanded: string, rest: string)
    requires '\n' !in collapsed && '\n' !in expanded
    ensures SplitLines(top + ("\n" + collapsed + "\n" + expanded + "\n") + rest)
      == (SplitLines(top) + ([collapsed] + [expanded])) + SplitLines(rest)
  {
    Regroup(top, "\n", collapsed, expanded, rest);
    SplitAtNewline(top + "\n" + (collapsed + "\n" + expanded), rest);
    SplitAtNewline(top, collapsed + "\n" + expanded);
    SplitAtNewline(collapsed, expanded);
    SingleLine(collapsed);
    SingleLine(expanded);
  }

  // Proof step on sequences for the verifier; no counterpart in reader.go.
  lemma Regroup<T>(a: seq<T>, sep: seq<T>, b: seq<T>, c: seq<T>, d: seq<T>)
    ensures a + (sep + b + sep + c + sep) + d == (a + sep + (b + sep + c)) + sep + d
  {
  }

  // Proof step on sequences for the verifier; no counterpart in reader.go.
  lemma TwoLinesThen<T>(before: seq<T>, a: T, b: T, after: seq<T>)
    ensures var all := (before + ([a] + [b])) + after;
      && all[|before|] == a && all[|before| + 1] == b
      && all[|before| + 2..] == after
      && |all| == |before| + 2 + |after|
  {
  }

  /** In every shape, the document's last line carries no sentinel when the header and
      the rendered regions carry none. */
  lemma LastLineUnmarked(render: (string, int, string) -> string, s: Sentinels, header: string,
                         markdown: string, width: int, indentation: string, shape: Shape)
    requires s.Valid() && s.Unmarked(header)
    requires forall k :: 0 <= k < |Regions(shape, markdown)| ==>
      s.Unmarked(render(Regions(shape, markdown)[k], width, indentation))
    ensures s.Unmarked(LastLine(Assemble(render, s, header, markdown, width, indentation, shape)))
  {
    var regions := Regions(shape, markdown);
    if shape.WithSummary? {
      assert regions[1] == ArticleMarkdown(markdown);
      SummaryLastLine(render, s, header, markdown, width, indentation, shape.summary);
      UnmarkedLastLine(render(ArticleMarkdown(markdown), width, indentation), s);
    } else {
      assert regions[|regions| - 1] == markdown;
      if shape.WithSummaryError? {
        assert regions[0] == ErrorMarkdown(shape.reason);
      }
      UnmarkedWithoutSummary(render, s, header, markdown, width, indentation, shape);
      UnmarkedLastLine(Assemble(render, s, header, markdown, width, indentation, shape), s);
    }
  }

  /** With a summary, the document's last line is the rendered article's last line,
      which the collapse markers leave without a sentinel. */
  lemma SummaryLastLine(render: (string, int, string) -> string, s: Sentinels, header: string,
                        markdown: string, width: int, indentation: string, summary: string)
    requires s.Valid()
    ensures LastLine(Assemble(render, s, header, markdown, width, indentation, WithSummary(summary)))
      == LastLine(render(ArticleMarkdown(markdown), width, indentation))
  {
    var top := header + render(SummaryMarkdown(summary), width, indentation);
    var collapsed := LabelLine(CollapsedGlyph, ToggleCaption, width) + [s.collapse];
    var expanded := LabelLine(ExpandedGlyph, ToggleCaption, width) + [s.expansion];
    var article := render(ArticleMarkdown(markdown), width, indentation);
    assert Assemble(render, s, header, markdown, width, indentation, WithSummary(summary))
      == top + ("\n" + collapsed + "\n" + expanded + "\n") + MarkNewlines(article, s.expansion);
    Regroup(top, "\n", collapsed, expanded, MarkNewlines(article, s.expansion));
    LastLineAfterNewline(top + "\n" + (collapsed + "\n" + expanded), MarkNewlines(article, s.expansion));
    LastLineMarked(article, s.expansion);
  }

  /** The last line of an unmarked text is unmarked. */
  lemma UnmarkedLastLine(t: string, s: Sentinels)
    requires s.Unmarked(t)
    ensures s.Unmarked(LastLine(t))
  {
    UnmarkedLines(t, s, |SplitLines(t)| - 1);
  }

  /** Every line of an unmarked text is unmarked. */
  lemma UnmarkedLines(t: string, s: Sentinels, i: nat)
    requires s.Unmarked(t) && i < |SplitLines(t)|
    ensures s.Unmarked(SplitLines(t)[i])
  {
    SplitLinesJoin(t);
    if s.collapse in SplitLines(t)[i] {
      JoinContains(SplitLines(t), i, s.collapse);
    }
    if s.expansion in SplitLines(t)[i] {
      JoinContains(SplitLines(t), i, s.expansion);
    }
  }
}
