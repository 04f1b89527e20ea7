/** The two invisible sentinel characters of `clx/constants/unicode`. Their concrete
    code points are not part of this model: every operation takes them as a value of
    `Sentinels`, and the properties rely only on what `Valid` states. */
module Unicode {

  datatype Sentinels = Sentinels(
    collapse: char,   // InvisibleCharacterForCollapse
    expansion: char)  // InvisibleCharacterForExpansion
  {
    /** Two distinct characters, neither of them a line break. */
    predicate Valid()
    {
      collapse != expansion && collapse != '\n' && expansion != '\n'
    }

    /** `t` carries neither sentinel. */
    predicate Unmarked(t: string)
    {
      collapse !in t && expansion !in t
    }
  }
}

/** `addCollapseMarkers` (reader/reader.go:105-120): the rendered full article is split
    on newlines and every line but the last gets the expansion sentinel, so that a
    line-oriented renderer can hide the whole region until the toggle is opened. */
module CollapseMarkers {
  import opened GoStrings

  /** The specification: `s` with every newline preceded by the marker `m`. */
  function MarkNewlines(s: string, m: char): string
  {
    if s == [] then []
    else (if s[0] == '\n' then [m, '\n'] else [s[0]]) + MarkNewlines(s[1..], m)
  }

  /** The lines of a marked text: every line but the last carries the marker. */
  function MarkLines(lines: seq<string>, m: char): (r: seq<string>)
    requires |lines| >= 1
    ensures |r| == |lines|
    ensures forall i :: 0 <= i < |lines| - 1 ==> r[i] == lines[i] + [m]
    ensures r[|r| - 1] == lines[|lines| - 1]
  {
    if |lines| == 1 then lines
    else [lines[0] + [m]] + MarkLines(lines[1..], m)
  }

  /** `addCollapseMarkers(content)`: split, then write each line, followed by the
      marker and a newline for every line but the last. */
  method AddCollapseMarkers(content: string, m: char) returns (result: string)
    ensures result == MarkNewlines(content, m)
  {
    var lines := SplitLines(content);
    SplitLinesNoNewline(content);
    SplitLinesJoin(content);
    var n := |lines|;
    result := "";
    for i := 0 to n
      invariant i == 0 ==> result == ""
      invariant 0 < i < n ==> result == MarkNewlines(JoinLines(lines[..i]), m) + [m, '\n']
      invariant i == n ==> result == MarkNewlines(content, m)
    {
      if i == n - 1 {
        LastLineStep(lines, i, result, m);
        result := result + lines[i];
      } else {
        InnerLineStep(lines, i, result, m);
        result := result + lines[i] + [m] + "\n";
      }
    }
  }

  /** Writing the final line completes the marked text. */
  lemma LastLineStep(lines: seq<string>, i: nat, written: string, m: char)
    requires |lines| >= 1 && i == |lines| - 1
    requires forall k :: 0 <= k < |lines| ==> '\n' !in lines[k]
    requires i == 0 ==> written == ""
    requires i > 0 ==> written == MarkNewlines(JoinLines(lines[..i]), m) + [m, '\n']
    ensures written + lines[i] == MarkNewlines(JoinLines(lines), m)
  {
    NoNewlineUnchanged(lines[i], m);
    if i == 0 {
      assert lines == [lines[0]];
    } else {
      TakeSnoc(lines, i);
      assert lines[..i + 1] == lines;
      JoinSnoc(lines[..i], lines[i]);
      MarkLineAfter(JoinLines(lines[..i]), lines[i], m);
    }
  }

  /** Writing a line that is not the last one, with its marker and newline. */
  lemma InnerLineStep(lines: seq<string>, i: nat, written: string, m: char)
    requires i < |lines| - 1
    requires forall k :: 0 <= k < |lines| ==> '\n' !in lines[k]
    requires i == 0 ==> written == ""
    requires i > 0 ==> written == MarkNewlines(JoinLines(lines[..i]), m) + [m, '\n']
    ensures written + lines[i] + [m] + "\n" == MarkNewlines(JoinLines(lines[..i + 1]), m) + [m, '\n']
  {
    NoNewlineUnchanged(lines[i], m);
    TakeSnoc(lines, i);
    if i == 0 {
      assert lines[..1] == [lines[0]];
    } else {
      JoinSnoc(lines[..i], lines[i]);
      MarkLineAfter(JoinLines(lines[..i]), lines[i], m);
    }
  }

  // Proof step on sequences for the verifier; no counterpart in reader.go.
  lemma TakeSnoc<T>(s: seq<T>, i: nat)
    requires i < |s|
    ensures s[..i] + [s[i]] == s[..i + 1]
  {
  }

  /** Marking a text that ends with one more newline-free line. */
  lemma MarkLineAfter(j: string, l: string, m: char)
    requires '\n' !in l
    ensures MarkNewlines(j + "\n" + l, m) == MarkNewlines(j, m) + [m, '\n'] + l
  {
    assert j + "\n" + l == j + ("\n" + l);
    MarkConcat(j, "\n" + l, m);
    MarkConcat("\n", l, m);
    NoNewlineUnchanged(l, m);
    assert MarkNewlines("\n", m) == [m, '\n'];
  }

  /** Marking distributes over concatenation. */
  lemma {:induction false} MarkConcat(a: string, b: string, m: char)
    ensures MarkNewlines(a + b, m) == MarkNewlines(a, m) + MarkNewlines(b, m)
  {
    if a == [] {
      assert a + b == b;
    } else {
      assert (a + b)[0] == a[0] && (a + b)[1..] == a[1..] + b;
      MarkConcat(a[1..], b, m);
    }
  }

  /** Text without a newline, the empty text included, is returned unchanged. */
  lemma {:induction false} NoNewlineUnchanged(s: string, m: char)
    requires '\n' !in s
    ensures MarkNewlines(s, m) == s
  {
    if s != [] {
      assert '\n' !in s[1..] by {
        forall k | 0 <= k < |s| - 1 ensures s[1..][k] != '\n' { assert s[1..][k] == s[k + 1]; }
      }
      NoNewlineUnchanged(s[1..], m);
      assert s == [s[0]] + s[1..];
    }
  }

  /** One marker is added per newline: the length grows by the newline count. */
  lemma {:induction false} MarkLength(s: string, m: char)
    ensures |MarkNewlines(s, m)| == |s| + Count('\n', s)
  {
    if s != [] {
      MarkLength(s[1..], m);
    }
  }

  /** The newline count is unchanged, and the marker count grows by it. */
  lemma {:induction false} MarkCounts(s: string, m: char)
    requires m != '\n'
    ensures Count('\n', MarkNewlines(s, m)) == Count('\n', s)
    ensures Count(m, MarkNewlines(s, m)) == Count(m, s) + Count('\n', s)
  {
    if s != [] {
      var head := if s[0] == '\n' then [m, '\n'] else [s[0]];
      MarkCounts(s[1..], m);
      CountConcat('\n', head, MarkNewlines(s[1..], m));
      CountConcat(m, head, MarkNewlines(s[1..], m));
    }
  }

  /** Marking adds no character but the marker. */
  lemma {:induction false} MarkedChars(s: string, m: char, c: char)
    requires c in MarkNewlines(s, m)
    ensures c in s || c == m
  {
    if s != [] {
      var head := if s[0] == '\n' then [m, '\n'] else [s[0]];
      assert MarkNewlines(s, m) == head + MarkNewlines(s[1..], m);
      if c !in head {
        MarkedChars(s[1..], m, c);
      }
    }
  }

  /** Deleting `c` from `s`. */
  function Remove(c: char, s: string): (r: string)
    ensures c !in r
  {
    if s == [] then [] else (if s[0] == c then [] else [s[0]]) + Remove(c, s[1..])
  }

  /** Deleting the markers recovers the article when it held no marker of its own. */
  lemma {:induction false} RemoveMarkers(s: string, m: char)
    requires m != '\n' && m !in s
    ensures Remove(m, MarkNewlines(s, m)) == s
  {
    if s != [] {
      assert m !in s[1..] by {
        forall k | 0 <= k < |s| - 1 ensures s[1..][k] != m { assert s[1..][k] == s[k + 1]; }
      }
      RemoveMarkers(s[1..], m);
      var head := if s[0] == '\n' then [m, '\n'] else [s[0]];
      RemoveConcat(m, head, MarkNewlines(s[1..], m));
      assert Remove(m, head) == [s[0]];
      assert s == [s[0]] + s[1..];
    }
  }

  lemma {:induction false} RemoveConcat(c: char, a: string, b: string)
    ensures Remove(c, a + b) == Remove(c, a) + Remove(c, b)
  {
    if a == [] {
      assert a + b == b;
    } else {
      assert (a + b)[0] == a[0] && (a + b)[1..] == a[1..] + b;
      RemoveConcat(c, a[1..], b);
    }
  }

  /** Line by line: the marked text has as many lines as the original; each line but
      the last is the original line followed by the marker, and the last line, the
      segment after the final newline, is left as it was. */
  lemma MarkedLines(s: string, m: char)
    requires m != '\n'
    ensures SplitLines(MarkNewlines(s, m)) == MarkLines(SplitLines(s), m)
  {
    var lines := SplitLines(s);
    SplitLinesNoNewline(s);
    SplitLinesJoin(s);
    MarkJoin(lines, m);
    SplitJoin(MarkLines(lines, m));
  }

  /** The segment after the final newline gets no marker. */
  lemma LastLineMarked(s: string, m: char)
    requires m != '\n'
    ensures LastLine(MarkNewlines(s, m)) == LastLine(s)
  {
    MarkedLines(s, m);
    LastOfMarked(SplitLines(MarkNewlines(s, m)), SplitLines(s), m);
  }

  // Proof step on sequences for the verifier; no counterpart in reader.go.
  lemma LastOfMarked(all: seq<string>, lines: seq<string>, m: char)
    requires |lines| >= 1 && all == MarkLines(lines, m)
    ensures Last(all) == Last(lines)
  {
  }

  /** Marking the joined lines joins the marked lines. */
  lemma {:induction false} MarkJoin(lines: seq<string>, m: char)
    requires |lines| >= 1 && m != '\n'
    requires forall i :: 0 <= i < |lines| ==> '\n' !in lines[i]
    ensures MarkNewlines(JoinLines(lines), m) == JoinLines(MarkLines(lines, m))
    ensures forall i :: 0 <= i < |lines| ==> '\n' !in MarkLines(lines, m)[i]
  {
    NoNewlineUnchanged(lines[0], m);
    if |lines| > 1 {
      var rest := MarkLines(lines[1..], m);
      MarkJoin(lines[1..], m);
      MarkLineBefore(lines[0], JoinLines(lines[1..]), m);
      JoinCons(lines[0] + [m], rest);
    }
  }

  /** Marking a text that starts with one newline-free line. */
  lemma MarkLineBefore(l: string, j: string, m: char)
    requires '\n' !in l
    ensures MarkNewlines(l + "\n" + j, m) == (l + [m]) + "\n" + MarkNewlines(j, m)
  {
    MarkConcat(l + "\n", j, m);
    MarkConcat(l, "\n", m);
    NoNewlineUnchanged(l, m);
    assert MarkNewlines("\n", m) == [m, '\n'];
  }

  /** `strings.Join` of a list with at least two lines. */
  // Proof step on sequences for the verifier; no counterpart in reader.go.
  lemma JoinCons(l: string, rest: seq<string>)
    requires |rest| >= 1
    ensures JoinLines([l] + rest) == l + "\n" + JoinLines(rest)
  {
    assert ([l] + rest)[1..] == rest;
  }
}
