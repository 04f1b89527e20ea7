/** The pieces of Go's standard library that the reader's formatting code relies on:
    `strings.Split(s, "\n")` and its inverse `strings.Join(lines, "\n")`, the UTF-8
    byte length that Go's `len` returns for a string, and the `%*s` verb of `fmt`.
    A Go string is modelled as the sequence of its code points. */
module GoStrings {

  /** Number of occurrences of `c` in `s`. */
  function Count(c: char, s: string): (n: nat)
    ensures n <= |s|
    ensures n == 0 <==> c !in s
  {
    if s == [] then 0 else (if s[0] == c then 1 else 0) + Count(c, s[1..])
  }

  lemma {:induction false} CountConcat(c: char, a: string, b: string)
    ensures Count(c, a + b) == Count(c, a) + Count(c, b)
  {
    if a == [] {
      assert a + b == b;
    } else {
      assert (a + b)[1..] == a[1..] + b;
      CountConcat(c, a[1..], b);
    }
  }

  /** `strings.Join(lines, "\n")`. */
  function JoinLines(lines: seq<string>): string
  {
    if |lines| == 0 then ""
    else if |lines| == 1 then lines[0]
    else lines[0] + "\n" + JoinLines(lines[1..])
  }

  /** `strings.Split(s, "\n")`: the segments between newlines, always at least one
      (the empty string splits into `[""]`). */
  function SplitLines(s: string): (lines: seq<string>)
    ensures |lines| >= 1
  {
    if s == [] then [""]
    else
      var rest := SplitLines(s[1..]);
      if s[0] == '\n' then [""] + rest
      else [[s[0]] + rest[0]] + rest[1..]
  }

  /** There is one more segment than there are newlines. */
  lemma {:induction false} SplitLinesCount(s: string)
    ensures |SplitLines(s)| == Count('\n', s) + 1
  {
    if s != [] {
      SplitLinesCount(s[1..]);
    }
  }

  /** No segment holds a newline. */
  lemma {:induction false} SplitLinesNoNewline(s: string)
    ensures forall i :: 0 <= i < |SplitLines(s)| ==> '\n' !in SplitLines(s)[i]
  {
    if s != [] {
      SplitLinesNoNewline(s[1..]);
      var rest := SplitLines(s[1..]);
      if s[0] != '\n' {
        var lines := SplitLines(s);
        forall i | 0 <= i < |lines| ensures '\n' !in lines[i] {
          if i > 0 {
            assert lines[i] == rest[i];
          } else {
            assert lines[0] == [s[0]] + rest[0];
          }
        }
      }
    }
  }

  /** Joining the segments with newlines gives the text back. */
  lemma {:induction false} SplitLinesJoin(s: string)
    ensures JoinLines(SplitLines(s)) == s
  {
    if s != [] {
      SplitLinesJoin(s[1..]);
      var rest := SplitLines(s[1..]);
      if s[0] == '\n' {
        JoinNewline(rest);
      } else {
        JoinExtend(s[0], rest);
      }
      assert s == [s[0]] + s[1..];
    }
  }

  lemma JoinNewline(rest: seq<string>)
    requires |rest| >= 1
    ensures JoinLines([""] + rest) == "\n" + JoinLines(rest)
  {
    assert ([""] + rest)[1..] == rest;
  }

  lemma JoinExtend(c: char, rest: seq<string>)
    requires |rest| >= 1
    ensures JoinLines([[c] + rest[0]] + rest[1..]) == [c] + JoinLines(rest)
  {
    var lines := [[c] + rest[0]] + rest[1..];
    if |rest| > 1 {
      assert lines[0] == [c] + rest[0] && lines[1..] == rest[1..];
      AssocFour([c], rest[0], "\n", JoinLines(rest[1..]));
    }
  }

  // Proof step on sequences for the verifier; no counterpart in reader.go.
  lemma AssocFour<T>(a: seq<T>, b: seq<T>, c: seq<T>, d: seq<T>)
    ensures (a + b) + c + d == a + (b + c + d)
  {
  }

  /** A newline splits the text into the lines before it and the lines after it. */
  lemma {:induction false} SplitAtNewline(a: string, b: string)
    ensures SplitLines(a + "\n" + b) == SplitLines(a) + SplitLines(b)
  {
    if a == [] {
      assert a + "\n" + b == ['\n'] + b;
      SplitCons('\n', b);
    } else {
      assert a + "\n" + b == [a[0]] + (a[1..] + "\n" + b);
      assert a == [a[0]] + a[1..];
      SplitCons(a[0], a[1..] + "\n" + b);
      SplitCons(a[0], a[1..]);
      SplitAtNewline(a[1..], b);
      if a[0] == '\n' {
        ConsAssoc("", SplitLines(a[1..]), SplitLines(b));
      } else {
        ReplaceHead([a[0]] + SplitLines(a[1..])[0], SplitLines(a[1..]), SplitLines(b));
      }
    }
  }

  // Proof step on sequences for the verifier; no counterpart in reader.go.
  lemma ConsAssoc<T>(h: T, x: seq<T>, y: seq<T>)
    ensures [h] + (x + y) == ([h] + x) + y
  {
  }

  /** Replacing the head of `r + t` is replacing the head of `r`, when `r` is not empty. */
  // Proof step on sequences for the verifier; no counterpart in reader.go.
  lemma ReplaceHead<T>(h: T, r: seq<T>, t: seq<T>)
    requires |r| >= 1
    ensures (r + t)[0] == r[0]
    ensures [h] + (r + t)[1..] == ([h] + r[1..]) + t
  {
    assert (r + t)[1..] == r[1..] + t;
  }

  /** `strings.Split` inverts `strings.Join` on newline-free lines. */
  lemma {:induction false} SplitJoin(lines: seq<string>)
    requires |lines| >= 1
    requires forall i :: 0 <= i < |lines| ==> '\n' !in lines[i]
    ensures SplitLines(JoinLines(lines)) == lines
  {
    if |lines| == 1 {
      SingleLine(lines[0]);
    } else {
      SplitJoin(lines[1..]);
      SingleLine(lines[0]);
      SplitAtNewline(lines[0], JoinLines(lines[1..]));
      assert [lines[0]] + lines[1..] == lines;
    }
  }

  /** A newline-free text is a single line. */
  lemma SingleLine(t: string)
    requires '\n' !in t
    ensures SplitLines(t) == [t]
  {
    SplitLinesCount(t);
    SplitLinesJoin(t);
  }

  /** `strings.Join(ls + [l], "\n")` appends a newline and `l`. */
  lemma {:induction false} JoinSnoc(ls: seq<string>, l: string)
    requires |ls| >= 1
    ensures JoinLines(ls + [l]) == JoinLines(ls) + "\n" + l
  {
    if |ls| > 1 {
      assert (ls + [l])[1..] == ls[1..] + [l];
      JoinSnoc(ls[1..], l);
    }
  }

  /** A character of one of the lines is a character of the joined text. */
  lemma {:induction false} JoinContains(ls: seq<string>, i: nat, c: char)
    requires i < |ls| && c in ls[i]
    ensures c in JoinLines(ls)
  {
    if |ls| > 1 && i > 0 {
      JoinContains(ls[1..], i - 1, c);
    }
  }

  /** The last line of `s`: what follows its last newline. */
  function LastLine(s: string): string
  {
    Last(SplitLines(s))
  }

  function Last<T>(xs: seq<T>): T
    requires |xs| >= 1
  {
    xs[|xs| - 1]
  }

  /** The last line of a text with a newline is the last line of what follows it. */
  lemma LastLineAfterNewline(a: string, b: string)
    ensures LastLine(a + "\n" + b) == LastLine(b)
  {
    SplitAtNewline(a, b);
    LastOfConcat(SplitLines(a + "\n" + b), SplitLines(a), SplitLines(b));
  }

  // Proof step on sequences for the verifier; no counterpart in reader.go.
  lemma LastOfConcat<T>(all: seq<T>, x: seq<T>, y: seq<T>)
    requires |y| >= 1 && all == x + y
    ensures Last(all) == Last(y)
  {
  }

  /** One unfolding of `SplitLines` on a text with a known first character. */
  lemma SplitCons(c: char, t: string)
    ensures c == '\n' ==> SplitLines([c] + t) == [""] + SplitLines(t)
    ensures c != '\n' ==> SplitLines([c] + t) == [[c] + SplitLines(t)[0]] + SplitLines(t)[1..]
  {
    assert ([c] + t)[0] == c && ([c] + t)[1..] == t;
  }

  /** The number of bytes Go's `len` reports for the UTF-8 encoding of `c`. */
  function Utf8Width(c: char): (n: nat)
    ensures 1 <= n <= 4
  {
    if c as int < 0x80 then 1
    else if c as int < 0x800 then 2
    else if c as int < 0x10000 then 3
    else 4
  }

  /** Go's `len(s)`: the UTF-8 byte length of `s`. */
  function Utf8Len(s: string): (n: nat)
    ensures |s| <= n <= 4 * |s|
  {
    if s == [] then 0 else Utf8Width(s[0]) + Utf8Len(s[1..])
  }

  lemma {:induction false} Utf8LenConcat(a: string, b: string)
    ensures Utf8Len(a + b) == Utf8Len(a) + Utf8Len(b)
  {
    if a == [] {
      assert a + b == b;
    } else {
      assert (a + b)[0] == a[0];
      assert (a + b)[1..] == a[1..] + b;
      Utf8LenConcat(a[1..], b);
    }
  }

  /** On ASCII text bytes and code points agree. */
  lemma {:induction false} AsciiUtf8Len(s: string)
    requires forall i :: 0 <= i < |s| ==> s[i] as int < 0x80
    ensures Utf8Len(s) == |s|
  {
    if s != [] {
      AsciiUtf8Len(s[1..]);
    }
  }

  /** `n` spaces; none when `n` is not positive (fmt's `writePadding`). */
  function Spaces(n: int): (r: string)
    ensures |r| == if n <= 0 then 0 else n
    ensures forall i :: 0 <= i < |r| ==> r[i] == ' '
  {
    if n <= 0 then "" else Spaces(n - 1) + " "
  }

  /** What `fmt` writes instead of a width that is out of range. */
  const BadWidth: string := "%!(BADWIDTH)"

  /** The largest width magnitude `fmt` accepts from a `*` argument. */
  const MaxWidth: int := 1000000

  /** Go's integer division by two, which truncates toward zero. */
  function GoHalf(a: int): (q: int)
    ensures a >= 0 ==> 2 * q <= a <= 2 * q + 1
    ensures a < 0 ==> 2 * q - 1 <= a <= 2 * q
  {
    if a >= 0 then a / 2 else -((-a) / 2)
  }

  /** Whether `fmt` rejects a `*` width argument. */
  predicate BadWidthArg(w: int)
  {
    w > MaxWidth || w < -MaxWidth
  }

  /** What `%*s` writes before a string of `n` code points. */
  function PadBefore(w: int, n: nat): string
  {
    if BadWidthArg(w) then BadWidth else if w >= 0 then Spaces(w - n) else ""
  }

  /** What `%*s` writes after a string of `n` code points. */
  function PadAfter(w: int, n: nat): string
  {
    if BadWidthArg(w) || w >= 0 then "" else Spaces(-w - n)
  }

  /** `fmt.Sprintf("%*s", w, s)`: padding is counted in code points; a non-negative
      width right-justifies, a negative one left-justifies, and a width beyond a
      million is refused with `%!(BADWIDTH)` and `s` is written unpadded. */
  function FormatWidth(w: int, s: string): string
  {
    PadBefore(w, |s|) + s + PadAfter(w, |s|)
  }

  /** Within fmt's range, a non-negative width right-justifies: the text is as wide as
      requested, or as `s` if that is wider, and everything before `s` is a space. */
  lemma FormatWidthRightJustifies(w: int, s: string)
    requires 0 <= w <= MaxWidth
    ensures |FormatWidth(w, s)| == if w > |s| then w else |s|
    ensures FormatWidth(w, s) == Spaces(w - |s|) + s
  {
  }
}
