# Article reader: document assembly and collapse markers

A Dafny model of the document-assembly logic in `reader/reader.go` of circumflex, a
terminal reader for Hacker News. `GetArticle` and `GetArticleWithSummary` fetch an
article, reduce it to Markdown and assemble one terminal document from it. There are
three shapes:

- plain: the header, then the rendered article;
- summary failed: the header, a rendered "Error generating summary" notice, then the
  whole rendered article, fully visible;
- summary succeeded: the header, the rendered "AI Summary", a toggle made of two label
  lines, then the rendered full article.

The toggle's collapsed-state line ("▶ Show Full Article") ends with the collapse
sentinel. Its expanded-state line ("▼ Show Full Article") ends with the expansion
sentinel. Every line of the full article except the last one also ends with the
expansion sentinel. A line-oriented renderer later uses these invisible characters to
decide which lines to show.

Files:

- `go_strings.dfy` (module `GoStrings`): the Go library behaviour the code relies on.
  This covers `strings.Split`/`strings.Join` on `"\n"`, `len` as a UTF-8 byte count,
  integer division that truncates toward zero, and the `%*s` verb of `fmt`. The `%*s`
  model includes its negative-width and out-of-range-width cases.
- `collapse_markers.dfy` (modules `Unicode` and `CollapseMarkers`): the two sentinels,
  and `addCollapseMarkers`. That function is modelled as a method with a loop over the
  split lines. It is proved equal to `MarkNewlines`, a recursive specification that puts
  the marker before every newline.
- `toggle_button.dfy` (module `ToggleButton`): `createToggleButton` and its layout.
- `reader.dfy` (module `Reader`): `getArticleInternal`, its two entry points, and
  lemmas about the three document shapes.

Collaborators whose source is not part of this model are fields of a `Collaborators`
value: arbitrary total functions with nothing assumed about them. They are
`readability.FromURL`, `ansi.Strip`, `html.ConvertToMarkdown`,
`terminal.CreateHeader`, the renderer (`terminal.ConvertToTerminalFormat` applied to
`parser.ConvertToMarkdownBlocks`), `summarizer.SummarizeArticle` and
`postprocessor.Process`. An `Outcome` records the document, the error, and the calls
made to collaborators, so the model can state which collaborators run on each path.

Two places where the code does something other than its names and comments suggest. The
model follows the code in both:

- `addCollapseMarkers` is named, and commented (reader/reader.go:104), as marking lines
  collapsible, but it appends `InvisibleCharacterForExpansion` (reader/reader.go:114).
- Despite the `// Center the buttons` comment (reader/reader.go:93), `(width+len(b))/2`
  is a `%*s` field width, not a count of leading spaces. `len` counts bytes and the
  padding counts code points. The two glyphs are three bytes each, so at width 80 the
  label gets 31 spaces (`Reader.ToggleOnEightyColumns`) where centring would give 30.

One behaviour of the code is modelled as written. When Markdown conversion fails, the
returned error wraps the fetch error, which is nil at that point, instead of the
conversion error (reader/reader.go:39). The error's text is therefore
`could not fetch url: %!w(<nil>)`, and its `cause` in the model is `None`.

## Model

| member | source | states |
|---|---|---|
| `GoStrings.SplitLines` | reader/reader.go:106 | `strings.Split(s, "\n")` always gives at least one segment, even for the empty text. |
| `GoStrings.SplitLinesCount` | reader/reader.go:106 | There is one more segment than `s` has newlines. |
| `GoStrings.SplitLinesNoNewline` | reader/reader.go:106 | No segment holds a newline. |
| `GoStrings.SplitLinesJoin` | reader/reader.go:106 | Joining the segments with newlines gives back `s`. |
| `GoStrings.Utf8Len` | reader/reader.go:94-95 | Go's `len` on a string counts UTF-8 bytes: at least one and at most four per code point. |
| `GoStrings.GoHalf` | reader/reader.go:94-95 | `/ 2` on Go ints truncates toward zero: for a negative sum the quotient rounds up, not down. |
| `GoStrings.FormatWidth` | reader/reader.go:94-95 | `%*s`: padding before the text for a width from 0 to 10^6, padding after it for a negative width, and `%!(BADWIDTH)` followed by the unpadded text beyond 10^6. |
| `GoStrings.FormatWidthRightJustifies` | reader/reader.go:94-95 | `%*s` with a width from 0 to 10^6 right-justifies. The text is `max(width, runes(s))` code points long: spaces, then `s`. |
| `CollapseMarkers.MarkNewlines` | reader/reader.go:105-120 | The net effect of `addCollapseMarkers`: the text with the marker inserted before every newline. It has no contract of its own; the lemmas in this section state its properties. |
| `CollapseMarkers.AddCollapseMarkers` | reader/reader.go:105-120 | The split-and-write loop returns exactly `MarkNewlines(content)`: every newline of `content` is preceded by the marker. |
| `CollapseMarkers.MarkLines` | reader/reader.go:109-116 | Every line except the last gains the marker at its end. The last line is unchanged, and the number of lines stays the same. |
| `CollapseMarkers.MarkedLines` | reader/reader.go:109-116 | Splitting the marked text gives the original lines, with the marker on each line except the last. The segment after the final newline gets no marker. |
| `CollapseMarkers.LastLineMarked` | reader/reader.go:110-111 | The segment after the last newline is written without a marker: the marked text's last line is the original's last line. |
| `CollapseMarkers.NoNewlineUnchanged` | reader/reader.go:106-111 | A text without a newline, including the empty text, is returned unchanged. |
| `CollapseMarkers.MarkLength` | reader/reader.go:113-115 | The output is longer than the input by exactly the number of newlines, one marker each. |
| `CollapseMarkers.MarkCounts` | reader/reader.go:113-115 | The newline count is preserved. The marker count grows by the newline count. |
| `CollapseMarkers.MarkedChars` | reader/reader.go:113-115 | Marking adds no character other than the marker. |
| `CollapseMarkers.RemoveMarkers` | reader/reader.go:113-115 | If the input held no marker, deleting every marker from the output gives back the input. |
| `ToggleButton.Button` | reader/reader.go:90-91 | `fmt.Sprintf("▶ %s", label)` and its ▼ twin: the glyph, a space, then the caption. |
| `ToggleButton.FieldWidth` | reader/reader.go:94-95 | The `*` argument `(width+len(button))/2`: byte length, and division that truncates toward zero. |
| `ToggleButton.LabelLine` | reader/reader.go:94-95 | `fmt.Sprintf("%*s", FieldWidth, button)`: one label line. `LabelLineLayout` states its shape. |
| `ToggleButton.CreateToggleButton` | reader/reader.go:99-101 | The toggle starts and ends with a newline. It is five characters longer than its two label lines together. |
| `ToggleButton.ToggleLines` | reader/reader.go:99-101 | If the caption has no newline, the toggle has exactly three newlines. Its lines are: an empty line, the collapsed-state line plus the collapse sentinel, the expanded-state line plus the expansion sentinel, and an empty segment. |
| `ToggleButton.ButtonLengths` | reader/reader.go:90-91 | `"▶ "+caption` and `"▼ "+caption` are two code points longer than the caption, and four bytes longer in UTF-8. |
| `ToggleButton.LabelLineLayout` | reader/reader.go:94-95 | For a width of at least 0 whose field width `fmt` accepts (at most 10^6), a label line is spaces, then the glyph, a space and the caption. Its length is `max(runes(button), (width + bytes(button)) / 2)`. |
| `ToggleButton.LabelLinesDifferInGlyph` | reader/reader.go:90-95 | For every width, the two label lines have the same length and padding. They differ only at the glyph column: ▶ in one, ▼ in the other. |
| `ToggleButton.LabelLineNoNewline` | reader/reader.go:94-95 | A label line holds no newline when the caption holds none. |
| `ToggleButton.LabelLineChars` | reader/reader.go:90-95 | A label line holds only the caption's characters, spaces, the glyphs and `fmt`'s bad-width text. |
| `ToggleButton.ToggleSentinelCounts` | reader/reader.go:97-101 | The toggle holds exactly one collapse sentinel and exactly one expansion sentinel. This holds provided the sentinels are valid, the caption holds neither sentinel, and neither sentinel is a space, ▶, ▼ or a character of `%!(BADWIDTH)`. |
| `Reader.ErrorMarkdown` | reader/reader.go:51 | The Markdown for a failed summary: the bold "Error generating summary:" notice, the reason, then a horizontal rule. |
| `Reader.SummaryMarkdown` | reader/reader.go:61 | The Markdown for a summary: an "AI Summary" heading, then the summary. |
| `Reader.ArticleMarkdown` | reader/reader.go:69 | The Markdown for the full article: a "Full Article" heading, then the article. |
| `Reader.ArticleMarkdownAt` | reader/reader.go:30-40 | The article's Markdown when the fetch and the conversion both succeed (fetch with a 6-second timeout, strip, convert), and nothing otherwise. |
| `Reader.ShapeOf` | reader/reader.go:46-49 | Plain when no summary was requested. Otherwise the summarizer's failure or success chooses the summary-error or summary shape. |
| `Reader.Assemble` | reader/reader.go:46-83 | The document handed to the postprocessor in each shape: header + article; header + error notice + article; or header + summary + toggle + marked article. `UnmarkedWithoutSummary`, `SummarySentinelCounts`, `SummaryDocumentLines` and `LastLineUnmarked` state its properties. |
| `Reader.FetchError.Message` | reader/reader.go:31-40 | Every fatal error's text begins with `could not fetch url`. |
| `Reader.GetArticleInternal` | reader/reader.go:29-86 | An error occurs exactly when the fetch or the conversion fails. It then gives an empty document and a message starting with `could not fetch url`, and neither the summarizer nor the postprocessor is called. On success, the postprocessor is called exactly once, last, on the assembled document. The summarizer is called exactly when summarizing was requested and the article was converted. The first call is always the fetch with a 6-second timeout. |
| `Reader.CallsBeforeProcess` | reader/reader.go:30-81 | Before the postprocessor, a successful run calls the fetch first and never the postprocessor. It calls the summarizer exactly when summarizing was requested. |
| `Reader.GetArticle` | reader/reader.go:21-23 | The summarizer is never called. On success, the document is the postprocessed header followed by the rendered article. |
| `Reader.GetArticleWithSummary` | reader/reader.go:25-27 | The error depends only on fetch and conversion, never on the summarizer. The summarizer is called whenever the article was converted. |
| `Reader.ToggleOnEightyColumns` | reader/reader.go:66 | At width 80, both "Show Full Article" label lines get 31 leading spaces. |
| `Reader.UnmarkedWithoutSummary` | reader/reader.go:46-83 | In the plain and summary-error shapes, the assembled document holds no sentinel, provided header and rendered regions hold none. It ends with the whole rendered article, unmarked. |
| `Reader.SummarySentinelCounts` | reader/reader.go:60-76 | In the summary shape, the document holds exactly one collapse sentinel. It holds one expansion sentinel per newline of the rendered article, plus one. This holds provided the sentinels are valid and none of these holds a sentinel: the caption "Show Full Article", the label decoration (space, ▶, ▼, `%!(BADWIDTH)`), the header, the rendered summary and the rendered article. |
| `Reader.SummaryDocumentLines` | reader/reader.go:65-76 | In the summary shape, the document's last lines are the collapsed-state toggle line, the expanded-state toggle line, and then the article's lines. Each article line except the last carries the expansion sentinel. |
| `Reader.SummaryLastLine` | reader/reader.go:73-76 | In the summary shape, the document's last line is the rendered article's own last line, with no marker added. |
| `Reader.LastLineUnmarked` | reader/reader.go:46-83 | In every shape, the last line of the assembled document carries no sentinel, provided header and rendered regions hold none. |

## Left out

- Network access: `readability.FromURL` with its 6-second timeout, and the whole
  summarizer (`reader/summarizer/summarizer.go`, with its `GEMINI_API_KEY` environment
  lookup and its Gemini call). Each is only a function in `Collaborators` that returns a
  result or a failure.
- The behaviour of `ansi.Strip`, `html.ConvertToMarkdown`, `terminal.CreateHeader`,
  `parser.ConvertToMarkdownBlocks`, `terminal.ConvertToTerminalFormat` and
  `postprocessor.Process`: their sources are not part of this model.
  - The two renderer steps are fused into one function.
  - Nothing is assumed about any of them, in particular not that the postprocessor
    preserves sentinels. The sentinel and line properties are therefore stated for the
    document handed to the postprocessor.
  - Where a property needs the header or rendered text to be free of sentinels, that
    is a precondition.
- The concrete code points of `InvisibleCharacterForCollapse` and
  `InvisibleCharacterForExpansion` (`clx/constants/unicode` is not part of this model).
  Each is modelled as one character. `Unicode.Sentinels.Valid` assumes they are distinct
  and are not newlines. The sentinel-count lemmas (`ToggleButton.ToggleSentinelCounts`,
  `Reader.SummarySentinelCounts`) further assume that neither sentinel is a space, ▶, ▼
  or a character of `%!(BADWIDTH)`, and that neither occurs in the caption
  "Show Full Article". Invisible characters meet this, but the model does not check it
  against the real constants.
- Error wrapping: only the message text is modelled. `%w` chains and `errors.Unwrap`
  are not.
- 64-bit overflow of `width + len(button)`: integers are unbounded.
- Go strings holding invalid UTF-8: strings are modelled as sequences of code points.
- `strings.Builder` is a local string that the loop appends to; its buffer growth is
  not modelled.
