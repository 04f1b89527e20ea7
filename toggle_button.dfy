/** `createToggleButton` (reader/reader.go:89-102): the pair of label lines a renderer
    switches between, one for the collapsed state and one for the expanded state, each
    right-justified into half of the terminal width plus half of the label's length. */
module ToggleButton {
  import opened GoStrings
  import opened Unicode

  const CollapsedGlyph: char := '▶'
  const ExpandedGlyph: char := '▼'

  /** The characters the label lines add around the label: padding, the glyphs and
      what `fmt` writes for a rejected width. */
  const Decoration: string := BadWidth + [' ', CollapsedGlyph, ExpandedGlyph]

  /** `fmt.Sprintf("▶ %s", label)` and `fmt.Sprintf("▼ %s", label)`. */
  function Button(glyph: char, caption: string): string
  {
    [glyph, ' '] + caption
  }

  /** The `*` argument `(width + len(button)) / 2`: Go's `len` counts UTF-8 bytes and
      its division truncates toward zero. */
  function FieldWidth(width: int, button: string): int
  {
    GoHalf(width + Utf8Len(button))
  }

  /** `fmt.Sprintf("%*s", (width+len(button))/2, button)`. */
  function LabelLine(glyph: char, caption: string, width: int): string
  {
    var button := Button(glyph, caption);
    FormatWidth(FieldWidth(width, button), button)
  }

  /** `createToggleButton(label, width)`: a newline, the collapsed-state line with the
      collapse sentinel, a newline, the expanded-state line with the expansion
      sentinel, and a closing newline. */
  function CreateToggleButton(caption: string, width: int, s: Sentinels): (r: string)
    ensures |r| == 5 + |LabelLine(CollapsedGlyph, caption, width)| + |LabelLine(ExpandedGlyph, caption, width)|
    ensures r[0] == '\n' && r[|r| - 1] == '\n'
  {
    "\n" + (LabelLine(CollapsedGlyph, caption, width) + [s.collapse]) + "\n"
      + (LabelLine(ExpandedGlyph, caption, width) + [s.expansion]) + "\n"
  }

  /** Both glyphs take three bytes in UTF-8 and one code point. */
  lemma ButtonLengths(caption: string)
    ensures |Button(CollapsedGlyph, caption)| == |Button(ExpandedGlyph, caption)| == |caption| + 2
    ensures Utf8Len(Button(CollapsedGlyph, caption)) == Utf8Len(Button(ExpandedGlyph, caption)) == 4 + Utf8Len(caption)
  {
    assert Button(CollapsedGlyph, caption) == [CollapsedGlyph] + ([' '] + caption);
    assert Button(ExpandedGlyph, caption) == [ExpandedGlyph] + ([' '] + caption);
    Utf8LenConcat([CollapsedGlyph], [' '] + caption);
    Utf8LenConcat([ExpandedGlyph], [' '] + caption);
    Utf8LenConcat([' '], caption);
  }

  /** Each label line is a run of spaces followed by the glyph, a space and the label;
      it is `max(runes(button), (width + bytes(button)) / 2)` code points long, so the
      padding is the field width less the label's code points, never negative. */
  lemma {:induction false} LabelLineLayout(glyph: char, caption: string, width: int)
    requires glyph == CollapsedGlyph || glyph == ExpandedGlyph
    requires 0 <= width && width + 4 + Utf8Len(caption) <= 2 * MaxWidth + 1
    ensures var field := (width + 4 + Utf8Len(caption)) / 2;
      && LabelLine(glyph, caption, width) == Spaces(field - (|caption| + 2)) + Button(glyph, caption)
      && |LabelLine(glyph, caption, width)| == if field > |caption| + 2 then field else |caption| + 2
  {
    ButtonLengths(caption);
    FormatWidthRightJustifies(FieldWidth(width, Button(glyph, caption)), Button(glyph, caption));
  }

  /** Position of the glyph in a label line. */
  function GlyphColumn(caption: string, width: int): nat
  {
    |PadBefore(FieldWidth(width, Button(CollapsedGlyph, caption)), |caption| + 2)|
  }

  /** Whatever the width, the two label lines have the same length and the same
      padding, and differ only in the glyph. */
  lemma LabelLinesDifferInGlyph(caption: string, width: int)
    ensures var collapsed := LabelLine(CollapsedGlyph, caption, width);
      var expanded := LabelLine(ExpandedGlyph, caption, width);
      var k := GlyphColumn(caption, width);
      && |collapsed| == |expanded| && k < |collapsed|
      && collapsed[k] == CollapsedGlyph && expanded[k] == ExpandedGlyph
      && forall i :: 0 <= i < |collapsed| && i != k ==> collapsed[i] == expanded[i]
  {
    ButtonLengths(caption);
    var f := FieldWidth(width, Button(CollapsedGlyph, caption));
    assert f == FieldWidth(width, Button(ExpandedGlyph, caption));
    var pre, post := PadBefore(f, |caption| + 2), PadAfter(f, |caption| + 2);
    LabelLineParts(CollapsedGlyph, caption, width);
    LabelLineParts(ExpandedGlyph, caption, width);
    DifferAt(pre, CollapsedGlyph, ExpandedGlyph, [' '] + caption + post);
  }

  /** A label line cut at its glyph. */
  lemma LabelLineParts(glyph: char, caption: string, width: int)
    ensures var f := FieldWidth(width, Button(glyph, caption));
      LabelLine(glyph, caption, width)
        == PadBefore(f, |caption| + 2) + [glyph] + ([' '] + caption + PadAfter(f, |caption| + 2))
  {
  }

  /** Two sequences that differ in one element. */
  // Proof step on sequences for the verifier; no counterpart in reader.go.
  lemma DifferAt<T>(pre: seq<T>, x: T, y: T, post: seq<T>)
    ensures var a, b := pre + [x] + post, pre + [y] + post;
      && |a| == |b| && a[|pre|] == x && b[|pre|] == y
      && forall i :: 0 <= i < |a| && i != |pre| ==> a[i] == b[i]
  {
  }

  /** The lines of the toggle: an empty line, the collapsed-state line carrying the
      collapse sentinel, the expanded-state line carrying the expansion sentinel, and
      the empty segment after the closing newline; three newlines in all. */
  lemma ToggleLines(caption: string, width: int, s: Sentinels)
    requires s.Valid() && '\n' !in caption
    ensures var t := CreateToggleButton(caption, width, s);
      && SplitLines(t) == ["", LabelLine(CollapsedGlyph, caption, width) + [s.collapse],
                               LabelLine(ExpandedGlyph, caption, width) + [s.expansion], ""]
      && Count('\n', t) == 3
  {
    var c := LabelLine(CollapsedGlyph, caption, width) + [s.collapse];
    var e := LabelLine(ExpandedGlyph, caption, width) + [s.expansion];
    LabelLineNoNewline(CollapsedGlyph, caption, width);
    LabelLineNoNewline(ExpandedGlyph, caption, width);
    BetweenNewlines(c, e);
    SplitLinesCount(CreateToggleButton(caption, width, s));
  }

  /** Two newline-free lines, each after a newline, and a closing newline. */
  lemma BetweenNewlines(c: string, e: string)
    requires '\n' !in c && '\n' !in e
    ensures SplitLines("\n" + c + "\n" + e + "\n") == ["", c, e, ""]
  {
    var r2 := e + "\n" + "";
    var r1 := c + "\n" + r2;
    assert "\n" + c + "\n" + e + "\n" == "" + "\n" + r1;
    SingleLine(c);
    SingleLine(e);
    SingleLine("");
    SplitAtNewline(e, "");
    SplitAtNewline(c, r2);
    SplitAtNewline("", r1);
  }

  /** A label line holds only the characters of its label and its decoration. */
  lemma LabelLineChars(glyph: char, caption: string, width: int)
    requires glyph == CollapsedGlyph || glyph == ExpandedGlyph
    ensures forall c :: c in LabelLine(glyph, caption, width) ==> c in caption || c in Decoration
  {
    var f := FieldWidth(width, Button(glyph, caption));
    var pre, post := PadBefore(f, |caption| + 2), PadAfter(f, |caption| + 2);
    assert LabelLine(glyph, caption, width) == pre + [glyph, ' '] + caption + post;
    assert forall c :: c in pre ==> c in Decoration;
    assert forall c :: c in post ==> c == ' ';
  }

  /** A label line is a single line when its label is. */
  lemma LabelLineNoNewline(glyph: char, caption: string, width: int)
    requires glyph == CollapsedGlyph || glyph == ExpandedGlyph
    requires '\n' !in caption
    ensures '\n' !in LabelLine(glyph, caption, width)
  {
    LabelLineChars(glyph, caption, width);
    assert '\n' !in Decoration;
  }

  /** Exactly one collapse sentinel and one expansion sentinel, when neither the label
      nor the decoration holds a sentinel. */
  lemma ToggleSentinelCounts(caption: string, width: int, s: Sentinels)
    requires s.Valid() && s.Unmarked(caption) && s.Unmarked(Decoration)
    ensures Count(s.collapse, CreateToggleButton(caption, width, s)) == 1
    ensures Count(s.expansion, CreateToggleButton(caption, width, s)) == 1
  {
    var c := LabelLine(CollapsedGlyph, caption, width);
    var e := LabelLine(ExpandedGlyph, caption, width);
    LabelLineChars(CollapsedGlyph, caption, width);
    LabelLineChars(ExpandedGlyph, caption, width);
    assert s.Unmarked(c) && s.Unmarked(e);
    var t := CreateToggleButton(caption, width, s);
    assert t == ("\n" + c) + ([s.collapse] + ("\n" + e)) + ([s.expansion] + "\n");
    CountConcat(s.collapse, "\n" + c, [s.collapse] + ("\n" + e));
    CountConcat(s.collapse, ("\n" + c) + ([s.collapse] + ("\n" + e)), [s.expansion] + "\n");
    CountConcat(s.collapse, [s.collapse], "\n" + e);
    CountConcat(s.expansion, "\n" + c, [s.collapse] + ("\n" + e));
    CountConcat(s.expansion, ("\n" + c) + ([s.collapse] + ("\n" + e)), [s.expansion] + "\n");
    CountConcat(s.expansion, [s.collapse], "\n" + e);
    CountConcat(s.expansion, [s.expansion], "\n");
  }
}
